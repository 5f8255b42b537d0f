/** Choosing how a data constructor runs (app/core/executor.py,
    get_constructor_type and the guards of execute_constructor). */
module Dispatch {
  import opened Wrappers
  import opened Entities

  /** The four constructor handler classes; what their `run` does is not
      part of this model. */
  datatype HandlerKind = TestcaseHandler | SqlHandler | RedisHandler | PythonHandler

  /** The `Config.ConstructorType` codes: testcase 0 and sql 1, redis 2 and
      py_script 3. */
  function Code(h: HandlerKind): int
  {
    match h
    case TestcaseHandler => 0
    case SqlHandler => 1
    case RedisHandler => 2
    case PythonHandler => 3
  }

  /** get_constructor_type: the handler for a constructor's type code, None
      for any other code. */
  function GetConstructorType(t: int): (r: Option<HandlerKind>)
    ensures r.Some? <==> 0 <= t <= 3
  {
    if t == 0 then Some(TestcaseHandler)
    else if t == 1 then Some(SqlHandler)
    else if t == 2 then Some(RedisHandler)
    else if t == 3 then Some(PythonHandler)
    else None
  }

  /** Every handler is reached by exactly its own code. */
  lemma CodeRoundTrip(h: HandlerKind, t: int)
    ensures GetConstructorType(Code(h)) == Some(h)
    ensures GetConstructorType(t) == Some(h) ==> t == Code(h)
  {
  }

  /** What execute_constructor does with a constructor. */
  datatype Step = Disabled | UnknownType | Dispatched(kind: HandlerKind)

  /** execute_constructor: a disabled constructor is skipped before its type
      is looked at; an unknown type is skipped; anything else is handed to
      its handler. */
  function Guard(c: Constructor): (r: Step)
  {
    if !c.enable then Disabled
    else match GetConstructorType(c.constructorType)
      case None => UnknownType
      case Some(h) => Dispatched(h)
  }

  /** A constructor runs exactly when it is enabled and its type code is
      known, and then with the handler of that code. */
  lemma GuardRuns(c: Constructor)
    ensures Guard(c).Dispatched? <==> c.enable && 0 <= c.constructorType <= 3
    ensures Guard(c).Dispatched? ==> Code(Guard(c).kind) == c.constructorType
    ensures !c.enable ==> Guard(c) == Disabled
  {
  }
}
