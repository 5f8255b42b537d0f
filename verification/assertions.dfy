/** Assertions (app/core/executor.py, my_assert, ops and translate): both
    sides of each assertion are resolved against the response, decoded as
    JSON and compared with one of twelve operators; every verdict is filed
    under the assertion's id, and the case passes only if all verdicts do. */
module Assertions {
  import opened Wrappers
  import opened Json
  import Dicts
  import Resolver
  import ElExpression
  import opened Entities

  /** `JsonCompare().compare(a, b)`: the list of differences between two
      JSON values.  Its code is not part of this model, so it is a
      parameter. */
  type Compare = (JValue, JValue) -> seq<string>

  /** What a verdict's message reports; the exact wording (and Python's
      `str()` of the operands inside it) is not modelled. */
  datatype Msg =
    | Compared(tag: string, passed: bool, a: JValue, b: JValue)
    | Counted(tag: string, passed: bool, a: JValue, n: nat)
    | JsonSame
    | JsonDiffers(diff: seq<string>)
    | Unsupported
    | ResolveFailed(err: string)

  /** One entry of my_assert's result table: `{"status": ..., "msg": ...}`. */
  datatype Verdict = Verdict(status: bool, msg: Msg)

  /** The assert types ops knows. */
  const KnownTags: set<string> :=
    {"equal", "not_equal", "in", "not_in", "contain", "not_contain",
     "length_eq", "length_gt", "length_ge", "length_le", "length_lt", "json_equal"}

  /** translate: `json.loads` of a resolved side.  A side that is not a
      string (a None field, or the raw `${response}` value) makes
      `json.loads` raise TypeError; text that is not JSON raises too. */
  function Translate(loads: Decoder, x: JValue): (r: Result<JValue>)
    ensures r.Ok? <==> x.JStr? && loads(x.s).Some?
    ensures r.Ok? ==> r.value == loads(x.s).value
  {
    match x
    case JStr(s) => if loads(s).Some? then Ok(loads(s).value) else Err("JSONDecodeError")
    case _ => Err("TypeError: the JSON object must be str")
  }

  /** A comparison `a OP n` of a length operator, Python's ordering on
      numbers (bools as 0 and 1); other operands raise TypeError. */
  function Ordered(tag: string, x: int, n: nat): bool
  {
    if tag == "length_gt" then x > n
    else if tag == "length_ge" then x >= n
    else if tag == "length_le" then x <= n
    else x < n
  }

  /** ops: the verdict of one assertion on the decoded sides `a` (expected)
      and `b` (actually); `Err` is an exception the comparison raises. */
  function Ops(compare: Compare, tag: string, a: JValue, b: JValue): (r: Result<Verdict>)
    ensures tag !in KnownTags ==> r == Ok(Verdict(false, Unsupported))
    ensures r.Ok? && r.value.status ==> tag in KnownTags
  {
    if tag == "equal" then Ok(Verdict(PyEq(a, b), Compared(tag, PyEq(a, b), a, b)))
    else if tag == "not_equal" then Ok(Verdict(!PyEq(a, b), Compared(tag, !PyEq(a, b), a, b)))
    else if tag == "in" || tag == "not_in" then
      match PyIn(a, b)
      case Err(e) => Err(e)
      case Ok(x) => var ok := if tag == "in" then x else !x; Ok(Verdict(ok, Compared(tag, ok, a, b)))
    else if tag == "contain" || tag == "not_contain" then
      match PyIn(b, a)
      case Err(e) => Err(e)
      case Ok(x) => var ok := if tag == "contain" then x else !x; Ok(Verdict(ok, Compared(tag, ok, a, b)))
    else if tag == "length_eq" then
      match PyLen(b)
      case None => Err("TypeError: object has no len()")
      case Some(n) => Ok(Verdict(PyEq(a, JInt(n)), Counted(tag, PyEq(a, JInt(n)), a, n)))
    else if tag in {"length_gt", "length_ge", "length_le", "length_lt"} then
      match PyLen(b)
      case None => Err("TypeError: object has no len()")
      case Some(n) =>
        match PyNumber(a)
        case None => Err("TypeError: comparison not supported")
        case Some(x) => Ok(Verdict(Ordered(tag, x, n), Counted(tag, Ordered(tag, x, n), a, n)))
    else if tag == "json_equal" then
      var diff := compare(a, b);
      if |diff| == 0 then Ok(Verdict(true, JsonSame)) else Ok(Verdict(false, JsonDiffers(diff)))
    else Ok(Verdict(false, Unsupported))
  }

  /** One assertion: a side that cannot be resolved is recorded as a failed
      verdict; an exception while decoding or comparing is propagated. */
  function Judge(loads: Decoder, compare: Compare, info: Dicts.Dict<string, JValue>, item: Assertion): (r: Result<Verdict>)
    reads item
    ensures r.Err? <==>
              && Resolver.ResolveVariable(loads, info, item.expected).Ok?
              && Resolver.ResolveVariable(loads, info, item.actually).Ok?
              && (|| Translate(loads, Resolver.ResolveVariable(loads, info, item.expected).value).Err?
                  || Translate(loads, Resolver.ResolveVariable(loads, info, item.actually).value).Err?
                  || Ops(compare, item.assertType,
                         Translate(loads, Resolver.ResolveVariable(loads, info, item.expected).value).value,
                         Translate(loads, Resolver.ResolveVariable(loads, info, item.actually).value).value).Err?)
    ensures r.Ok? && r.value.status ==>
              && Resolver.ResolveVariable(loads, info, item.expected).Ok?
              && Resolver.ResolveVariable(loads, info, item.actually).Ok?
              && Translate(loads, Resolver.ResolveVariable(loads, info, item.expected).value).Ok?
              && Translate(loads, Resolver.ResolveVariable(loads, info, item.actually).value).Ok?
  {
    match Resolver.ResolveVariable(loads, info, item.expected)
    case Err(e) => Ok(Verdict(false, ResolveFailed(e)))
    case Ok(x) =>
      match Resolver.ResolveVariable(loads, info, item.actually)
      case Err(e) => Ok(Verdict(false, ResolveFailed(e)))
      case Ok(y) =>
        match Translate(loads, x)
        case Err(e) => Err(e)
        case Ok(a) =>
          match Translate(loads, y)
          case Err(e) => Err(e)
          case Ok(b) => Ops(compare, item.assertType, a, b)
  }

  /** Every assertion paired with its id and its verdict (or exception);
      each verdict depends on that assertion and the response only. */
  function Judged(loads: Decoder, compare: Compare, info: Dicts.Dict<string, JValue>, asserts: seq<Assertion>)
    : (r: seq<(int, Result<Verdict>)>)
    reads set a | a in asserts
    ensures |r| == |asserts|
    ensures forall j :: 0 <= j < |asserts| ==> r[j] == (asserts[j].id, Judge(loads, compare, info, asserts[j]))
  {
    if asserts == [] then []
    else [(asserts[0].id, Judge(loads, compare, info, asserts[0]))] + Judged(loads, compare, info, asserts[1..])
  }

  /** The loop of my_assert over judged assertions, with the table and the
      overall flag built so far: the first exception ends it; otherwise each
      verdict is stored under its id (`result[item.id] = ...`) and a failed
      one clears the flag. */
  function Tally(items: seq<(int, Result<Verdict>)>, result: Dicts.Dict<int, Verdict>, ans: bool)
    : (r: Result<(Dicts.Dict<int, Verdict>, bool)>)
    ensures r.Ok? <==> forall j :: 0 <= j < |items| ==> items[j].1.Ok?
  {
    if items == [] then Ok((result, ans))
    else match items[0].1
      case Err(e) => Err(e)
      case Ok(v) => Tally(items[1..], Dicts.Put(result, items[0].0, v), ans && v.status)
  }

  /** The exception my_assert re-raises is the one of the first assertion
      whose decoding or comparison raised. */
  lemma {:induction false} TallyFirstError(items: seq<(int, Result<Verdict>)>, result: Dicts.Dict<int, Verdict>,
                                           ans: bool, j: nat)
    requires j < |items| && items[j].1.Err?
    requires forall i :: 0 <= i < j ==> items[i].1.Ok?
    ensures Tally(items, result, ans) == Err(items[j].1.error)
    decreases j
  {
    if j > 0 {
      var v := items[0].1.value;
      TallyFirstError(items[1..], Dicts.Put(result, items[0].0, v), ans && v.status, j - 1);
    }
  }

  /** my_assert: the table of verdicts by assertion id (what is serialised
      with `json.dumps`) and whether every assertion passed. */
  method MyAssert(loads: Decoder, compare: Compare, info: Dicts.Dict<string, JValue>, asserts: seq<Assertion>)
    returns (r: Result<(Dicts.Dict<int, Verdict>, bool)>)
    ensures r == Tally(Judged(loads, compare, info, asserts), [], true)
    ensures asserts == [] ==> r == Ok(([], true))
  {
    var result: Dicts.Dict<int, Verdict> := [];
    var ans := true;
    if |asserts| == 0 {
      return Ok((result, ans));
    }
    var i := 0;
    while i < |asserts|
      invariant 0 <= i <= |asserts|
      invariant Tally(Judged(loads, compare, info, asserts), [], true)
             == Tally(Judged(loads, compare, info, asserts)[i..], result, ans)
    {
      assert Judged(loads, compare, info, asserts)[i..][1..] == Judged(loads, compare, info, asserts)[i + 1..];
      var item := asserts[i];
      var a := Resolver.ParseVariable(loads, info, item.expected);
      if a.Err? {
        ans := false;
        result := Dicts.Put(result, item.id, Verdict(false, ResolveFailed(a.error)));
        i := i + 1;
        continue;
      }
      var b := Resolver.ParseVariable(loads, info, item.actually);
      if b.Err? {
        ans := false;
        result := Dicts.Put(result, item.id, Verdict(false, ResolveFailed(b.error)));
        i := i + 1;
        continue;
      }
      var ta := Translate(loads, a.value);
      if ta.Err? {
        return Err(ta.error);
      }
      var tb := Translate(loads, b.value);
      if tb.Err? {
        return Err(tb.error);
      }
      var v := Ops(compare, item.assertType, ta.value, tb.value);
      if v.Err? {
        return Err(v.error);
      }
      result := Dicts.Put(result, item.id, v.value);
      if !v.value.status {
        ans := false;
      }
      i := i + 1;
    }
    assert Judged(loads, compare, info, asserts)[i..] == [];
    return Ok((result, ans));
  }

  /** How a verdict's message appears in the table; the wording is not
      part of this model, so it is a parameter. */
  type Render = Msg -> JValue

  /** `json.dumps(result, ensure_ascii=False)` of the table: the integer ids
      become string keys, each entry `{"status": ..., "msg": ...}`. */
  function TableText(res: Dicts.Dict<int, Verdict>, render: Render): string
  {
    Dumps(JObj(seq(|res|, k requires 0 <= k < |res| =>
      (IntText(res[k].0), JObj([("status", JBool(res[k].1.status)), ("msg", render(res[k].1.msg))])))))
  }

  /** Without assertions my_assert reports `{}` and success. */
  lemma NoAssertions(loads: Decoder, compare: Compare, info: Dicts.Dict<string, JValue>, render: Render)
    ensures Tally(Judged(loads, compare, info, []), [], true) == Ok(([], true))
    ensures TableText([], render) == "{}"
  {
    assert CommaJoin([]) == "";
  }

  // ---------------------------------------------------------------------
  // Properties of ops

  /** equal and not_equal always disagree. */
  lemma EqualComplement(compare: Compare, a: JValue, b: JValue)
    ensures Ops(compare, "equal", a, b).Ok? && Ops(compare, "not_equal", a, b).Ok?
    ensures Ops(compare, "not_equal", a, b).value.status == !Ops(compare, "equal", a, b).value.status
  {
  }

  /** in and not_in raise together, and otherwise disagree. */
  lemma MembershipComplement(compare: Compare, a: JValue, b: JValue)
    ensures Ops(compare, "in", a, b).Ok? <==> PyIn(a, b).Ok?
    ensures Ops(compare, "not_in", a, b).Ok? <==> PyIn(a, b).Ok?
    ensures PyIn(a, b).Ok? ==>
              Ops(compare, "in", a, b).value.status == PyIn(a, b).value &&
              Ops(compare, "not_in", a, b).value.status == !PyIn(a, b).value
  {
    MembershipBranch(compare, "in", a, b);
    MembershipBranch(compare, "not_in", a, b);
  }

  /** in and not_in take the branch that asks whether `a` is in `b`. */
  lemma MembershipBranch(compare: Compare, tag: string, a: JValue, b: JValue)
    requires tag in {"in", "not_in"}
    ensures Ops(compare, tag, a, b) ==
            match PyIn(a, b)
            case Err(e) => Err(e)
            case Ok(x) => var ok := if tag == "in" then x else !x; Ok(Verdict(ok, Compared(tag, ok, a, b)))
  {
    assert tag != "equal" && tag != "not_equal";
  }

  /** contain is in with the operands swapped, and not_contain its
      negation; all three raise together. */
  lemma ContainmentComplement(compare: Compare, a: JValue, b: JValue)
    ensures Ops(compare, "contain", a, b).Ok? <==> PyIn(b, a).Ok?
    ensures Ops(compare, "not_contain", a, b).Ok? <==> PyIn(b, a).Ok?
    ensures PyIn(b, a).Ok? ==>
              Ops(compare, "contain", a, b).value.status == PyIn(b, a).value &&
              Ops(compare, "not_contain", a, b).value.status == !PyIn(b, a).value
  {
    ContainmentBranch(compare, "contain", a, b);
    ContainmentBranch(compare, "not_contain", a, b);
  }

  /** contain and not_contain take the branch that asks whether `b` is in
      `a`. */
  lemma ContainmentBranch(compare: Compare, tag: string, a: JValue, b: JValue)
    requires tag in {"contain", "not_contain"}
    ensures Ops(compare, tag, a, b) ==
            match PyIn(b, a)
            case Err(e) => Err(e)
            case Ok(x) => var ok := if tag == "contain" then x else !x; Ok(Verdict(ok, Compared(tag, ok, a, b)))
  {
    assert tag != "equal" && tag != "not_equal" && tag != "in" && tag != "not_in";
  }

  /** The length operators compare the expected side `a` with the length of
      the actual side `b`, `a` on the left: length_gt passes when `a` is
      greater than `len(b)`.  Without a length, or with an `a` that is not a
      number, they raise. */
  lemma LengthTable(compare: Compare, a: JValue, b: JValue, x: int, n: nat)
    requires PyLen(b) == Some(n) && PyNumber(a) == Some(x)
    ensures Ops(compare, "length_eq", a, b).Ok? && Ops(compare, "length_eq", a, b).value.status == (x == n)
    ensures Ops(compare, "length_gt", a, b).Ok? && Ops(compare, "length_gt", a, b).value.status == (x > n)
    ensures Ops(compare, "length_ge", a, b).Ok? && Ops(compare, "length_ge", a, b).value.status == (x >= n)
    ensures Ops(compare, "length_le", a, b).Ok? && Ops(compare, "length_le", a, b).value.status == (x <= n)
    ensures Ops(compare, "length_lt", a, b).Ok? && Ops(compare, "length_lt", a, b).value.status == (x < n)
  {
    EqualBranch(compare, a, b);
    OrderedBranch(compare, "length_gt", a, b);
    OrderedBranch(compare, "length_ge", a, b);
    OrderedBranch(compare, "length_le", a, b);
    OrderedBranch(compare, "length_lt", a, b);
  }

  /** length_eq takes the branch that compares `a` with `len(b)` by
      equality. */
  lemma EqualBranch(compare: Compare, a: JValue, b: JValue)
    ensures Ops(compare, "length_eq", a, b) ==
            match PyLen(b)
            case None => Err("TypeError: object has no len()")
            case Some(n) => Ok(Verdict(PyEq(a, JInt(n)), Counted("length_eq", PyEq(a, JInt(n)), a, n)))
  {
    assert "length_eq" != "equal" && "length_eq" != "not_equal" && "length_eq" != "in" && "length_eq" != "not_in";
    assert "length_eq" != "contain" && "length_eq" != "not_contain";
  }

  /** The four ordered length operators take the branch that orders `a`
      against `len(b)`. */
  lemma OrderedBranch(compare: Compare, tag: string, a: JValue, b: JValue)
    requires tag in {"length_gt", "length_ge", "length_le", "length_lt"}
    ensures Ops(compare, tag, a, b) ==
            match PyLen(b)
            case None => Err("TypeError: object has no len()")
            case Some(n) =>
              match PyNumber(a)
              case None => Err("TypeError: comparison not supported")
              case Some(x) => Ok(Verdict(Ordered(tag, x, n), Counted(tag, Ordered(tag, x, n), a, n)))
  {
    assert tag != "equal" && tag != "not_equal" && tag != "in" && tag != "not_in";
    assert tag != "contain" && tag != "not_contain" && tag != "length_eq";
  }

  lemma LengthErrors(compare: Compare, tag: string, a: JValue, b: JValue)
    requires tag in {"length_eq", "length_gt", "length_ge", "length_le", "length_lt"}
    requires PyLen(b).None? || (tag != "length_eq" && PyNumber(a).None?)
    ensures Ops(compare, tag, a, b).Err?
  {
    if tag == "length_eq" {
      EqualBranch(compare, a, b);
    } else {
      OrderedBranch(compare, tag, a, b);
    }
  }

  /** Expected 2 against a three-element list: length_gt fails and
      length_lt passes. */
  lemma LengthExample(compare: Compare)
    ensures Ops(compare, "length_gt", JInt(2), JList([JInt(1), JInt(2), JInt(3)])) ==
            Ok(Verdict(false, Counted("length_gt", false, JInt(2), 3)))
    ensures Ops(compare, "length_lt", JInt(2), JList([JInt(1), JInt(2), JInt(3)])) ==
            Ok(Verdict(true, Counted("length_lt", true, JInt(2), 3)))
  {
  }

  /** json_equal passes exactly when the comparison finds no difference. */
  lemma JsonEqualIffNoDiff(compare: Compare, a: JValue, b: JValue)
    ensures Ops(compare, "json_equal", a, b).Ok?
    ensures Ops(compare, "json_equal", a, b).value.status <==> compare(a, b) == []
  {
  }

  // ---------------------------------------------------------------------
  // Properties of my_assert

  predicate UniqueIds(asserts: seq<Assertion>)
  {
    forall i, j :: 0 <= i < j < |asserts| ==> asserts[i].id != asserts[j].id
  }

  /** A side that cannot be resolved is filed as a failed verdict carrying
      the resolution error, and the loop goes on: the expected side is
      resolved first, the actual side only when the expected one resolved. */
  lemma ResolveErrorRecorded(loads: Decoder, compare: Compare, info: Dicts.Dict<string, JValue>, item: Assertion)
    ensures Resolver.ResolveVariable(loads, info, item.expected).Err? ==>
              Judge(loads, compare, info, item) ==
              Ok(Verdict(false, ResolveFailed(Resolver.ResolveVariable(loads, info, item.expected).error)))
    ensures Resolver.ResolveVariable(loads, info, item.expected).Ok? &&
            Resolver.ResolveVariable(loads, info, item.actually).Err? ==>
              Judge(loads, compare, info, item) ==
              Ok(Verdict(false, ResolveFailed(Resolver.ResolveVariable(loads, info, item.actually).error)))
  {
  }

  /** my_assert raises exactly when some assertion's decoding or comparison
      raises, and otherwise reports success exactly when every verdict
      passed. */
  lemma {:induction false} TallyOutcome(items: seq<(int, Result<Verdict>)>, result: Dicts.Dict<int, Verdict>, ans: bool)
    requires forall j :: 0 <= j < |items| ==> items[j].1.Ok?
    ensures Tally(items, result, ans).value.1 <==> ans && forall j :: 0 <= j < |items| ==> items[j].1.value.status
  {
    if items != [] {
      var v := items[0].1.value;
      assert forall j :: 0 <= j < |items[1..]| ==> items[1..][j] == items[j + 1];
      TallyOutcome(items[1..], Dicts.Put(result, items[0].0, v), ans && v.status);
      assert forall j :: 1 <= j < |items| ==> items[j] == items[1..][j - 1];
    }
  }

  /** Each judged assertion whose id is new lands in the table as its own
      entry, appended in order; other keys keep what they had. */
  lemma TallyTable(items: seq<(int, Result<Verdict>)>, result: Dicts.Dict<int, Verdict>, ans: bool)
    requires Dicts.UniqueKeys(items)
    requires forall j :: 0 <= j < |items| ==> items[j].0 !in Dicts.Keys(result)
    requires forall j :: 0 <= j < |items| ==> items[j].1.Ok?
    ensures var res := Tally(items, result, ans).value.0;
            && Dicts.Keys(res) == Dicts.Keys(result) + Dicts.Keys(items)
            && (forall j :: 0 <= j < |items| ==> Dicts.Get(res, items[j].0) == Some(items[j].1.value))
            && (forall k :: k !in Dicts.Keys(items) ==> Dicts.Get(res, k) == Dicts.Get(result, k))
  {
    assert AllOk(items) && FreshFor(items, result);
    TallyRecords(items, result, ans);
  }

  predicate AllOk(items: seq<(int, Result<Verdict>)>)
  {
    forall j :: 0 <= j < |items| ==> items[j].1.Ok?
  }

  /** No id of `items` is a key of `result` yet. */
  predicate FreshFor(items: seq<(int, Result<Verdict>)>, result: Dicts.Dict<int, Verdict>)
  {
    forall j :: 0 <= j < |items| ==> items[j].0 !in Dicts.Keys(result)
  }

  /** Every item's verdict is what `res` holds under its id. */
  predicate Recorded(items: seq<(int, Result<Verdict>)>, res: Dicts.Dict<int, Verdict>)
  {
    forall j :: 0 <= j < |items| ==> items[j].1.Ok? && Dicts.Get(res, items[j].0) == Some(items[j].1.value)
  }

  /** Keys that are no item's id read the same in `res` as in `result`. */
  ghost predicate KeepsOthers(items: seq<(int, Result<Verdict>)>, res: Dicts.Dict<int, Verdict>, result: Dicts.Dict<int, Verdict>)
  {
    forall k :: k !in Dicts.Keys(items) ==> Dicts.Get(res, k) == Dicts.Get(result, k)
  }

  lemma {:induction false} TallyRecords(items: seq<(int, Result<Verdict>)>, result: Dicts.Dict<int, Verdict>, ans: bool)
    requires Dicts.UniqueKeys(items) && AllOk(items) && FreshFor(items, result)
    ensures Tally(items, result, ans).Ok?
    ensures var res := Tally(items, result, ans).value.0;
            && Dicts.Keys(res) == Dicts.Keys(result) + Dicts.Keys(items)
            && Recorded(items, res) && KeepsOthers(items, res, result)
  {
    if items != [] {
      var id := items[0].0;
      var v := items[0].1.value;
      var result' := Dicts.Put(result, id, v);
      var rest := items[1..];
      TallyTail(items, result);
      TallyRecords(rest, result', ans && v.status);
      assert Tally(items, result, ans) == Tally(rest, result', ans && v.status);
      var res := Tally(rest, result', ans && v.status).value.0;
      assert Dicts.Keys(res) == (Dicts.Keys(result) + [id]) + Dicts.Keys(rest);
      assert Dicts.Keys(res) == Dicts.Keys(result) + ([id] + Dicts.Keys(rest));
      TallyHead(items, result, res);
    }
  }

  /** The remaining items meet TallyRecords' requirements against the table
      with the first item added. */
  lemma TallyTail(items: seq<(int, Result<Verdict>)>, result: Dicts.Dict<int, Verdict>)
    requires items != [] && Dicts.UniqueKeys(items) && AllOk(items) && FreshFor(items, result)
    ensures var result' := Dicts.Put(result, items[0].0, items[0].1.value);
            && Dicts.UniqueKeys(items[1..]) && AllOk(items[1..]) && FreshFor(items[1..], result')
            && Dicts.Keys(items) == [items[0].0] + Dicts.Keys(items[1..])
            && Dicts.Keys(result') == Dicts.Keys(result) + [items[0].0]
            && items[0].0 !in Dicts.Keys(items[1..])
  {
    var id := items[0].0;
    var v := items[0].1.value;
    var result' := Dicts.Put(result, id, v);
    var rest := items[1..];
    Dicts.UniqueTail(items);
    assert Dicts.Keys(items) == [id] + Dicts.Keys(rest);
    assert Dicts.Keys(result') == Dicts.Keys(result) + [id];
    assert id !in Dicts.Keys(rest) by {
      forall j | 0 <= j < |rest| ensures rest[j].0 != id { assert rest[j] == items[j + 1]; }
    }
    forall j | 0 <= j < |rest| ensures rest[j].0 !in Dicts.Keys(result') && rest[j].1.Ok? {
      assert rest[j] == items[j + 1];
    }
  }

  /** The first item's verdict survives the rest of the fold, which only
      touches the other ids. */
  lemma TallyHead(items: seq<(int, Result<Verdict>)>, result: Dicts.Dict<int, Verdict>, res: Dicts.Dict<int, Verdict>)
    requires items != [] && items[0].1.Ok?
    requires items[0].0 !in Dicts.Keys(items[1..])
    requires Dicts.Keys(items) == [items[0].0] + Dicts.Keys(items[1..])
    requires Recorded(items[1..], res)
    requires KeepsOthers(items[1..], res, Dicts.Put(result, items[0].0, items[0].1.value))
    ensures Recorded(items, res) && KeepsOthers(items, res, result)
  {
    var id := items[0].0;
    var v := items[0].1.value;
    var rest := items[1..];
    Dicts.GetPut(result, id, v, id);
    forall j | 0 <= j < |items| ensures items[j].1.Ok? && Dicts.Get(res, items[j].0) == Some(items[j].1.value) {
      if j > 0 {
        assert items[j] == rest[j - 1];
      }
    }
    forall k | k !in Dicts.Keys(items) ensures Dicts.Get(res, k) == Dicts.Get(result, k) {
      Dicts.GetPut(result, id, v, k);
    }
  }

  /** The table built from distinct ids is the judged list itself, verdict
      by verdict, and the flag is the conjunction of its statuses. */
  lemma TallyResult(items: seq<(int, Result<Verdict>)>)
    requires Dicts.UniqueKeys(items)
    requires forall j :: 0 <= j < |items| ==> items[j].1.Ok?
    ensures var (res, ans) := Tally(items, [], true).value;
            && |res| == |items|
            && (forall j :: 0 <= j < |items| ==> res[j] == (items[j].0, items[j].1.value))
            && (ans <==> forall j :: 0 <= j < |res| ==> res[j].1.status)
  {
    assert AllOk(items) && FreshFor(items, []);
    TallyRecords(items, [], true);
    TallyOutcome(items, [], true);
    var (res, ans) := Tally(items, [], true).value;
    TableEntries(items, res);
  }

  /** A table whose keys are exactly the distinct item ids, in order, and
      which records every item's verdict, is the list of those verdicts. */
  lemma TableEntries(items: seq<(int, Result<Verdict>)>, res: Dicts.Dict<int, Verdict>)
    requires Dicts.UniqueKeys(items) && Recorded(items, res)
    requires Dicts.Keys(res) == [] + Dicts.Keys(items)
    ensures |res| == |items|
    ensures forall j :: 0 <= j < |items| ==> res[j] == (items[j].0, items[j].1.value)
  {
    assert Dicts.UniqueKeys(res) by {
      forall a, b | 0 <= a < b < |res| ensures res[a].0 != res[b].0 {
        assert res[a].0 == Dicts.Keys(res)[a] && res[b].0 == Dicts.Keys(res)[b];
      }
    }
    forall j | 0 <= j < |res| ensures res[j] == (items[j].0, items[j].1.value) {
      assert res[j].0 == Dicts.Keys(res)[j] == items[j].0;
      Dicts.GetUnique(res, j);
    }
  }

  /** With distinct assertion ids, the table holds one entry per assertion,
      in order, each the verdict of that assertion, and the case passes
      exactly when every entry of the table has status true. */
  lemma MyAssertTable(loads: Decoder, compare: Compare, info: Dicts.Dict<string, JValue>, asserts: seq<Assertion>)
    requires UniqueIds(asserts)
    requires Tally(Judged(loads, compare, info, asserts), [], true).Ok?
    ensures var (res, ans) := Tally(Judged(loads, compare, info, asserts), [], true).value;
            && |res| == |asserts|
            && (forall j :: 0 <= j < |asserts| ==>
                  res[j] == (asserts[j].id, Judge(loads, compare, info, asserts[j]).value))
            && (ans <==> forall j :: 0 <= j < |res| ==> res[j].1.status)
  {
    var items := Judged(loads, compare, info, asserts);
    assert Dicts.UniqueKeys(items);
    TallyResult(items);
  }

  /** A typical check: expected `200` against `${status_code}` of a
      response whose status code is 200 passes `equal`. */
  lemma StatusCodeExample(loads: Decoder, compare: Compare, item: Assertion)
    requires loads("200") == Some(JInt(200))
    requires item.expected == Some("200") && item.actually == Some("${status_code}") && item.assertType == "equal"
    ensures Judge(loads, compare, [("status_code", JInt(200))], item) ==
            Ok(Verdict(true, Compared("equal", true, JInt(200), JInt(200))))
  {
    var info := [("status_code", JInt(200))];
    assert !ElExpression.HasOpener("200");
    Resolver.TokenFreeUnchanged(loads, info, "200");
    StatusCodeResolves(loads);
    assert Translate(loads, JStr("200")) == Ok(JInt(200));
    assert PyEq(JInt(200), JInt(200));
  }

  lemma StatusCodeResolves(loads: Decoder)
    ensures Resolver.ResolveVariable(loads, [("status_code", JInt(200))], Some("${status_code}")) == Ok(JStr("200"))
  {
    var info := [("status_code", JInt(200))];
    StatusCodeToken();
    Resolver.TopLevelToken(loads, info, "status_code");
    assert Member(info, "status_code") == JInt(200);
    DumpsTwoHundred();
  }

  lemma StatusCodeToken()
    ensures ElExpression.WellFormedToken("status_code") && '.' !in "status_code"
    ensures "${status_code}" == "${" + "status_code" + "}"
  {
  }

  lemma DumpsTwoHundred()
    ensures Dumps(JInt(200)) == "200"
  {
    assert NatText(2) == "2";
    assert NatText(20) == "20";
    assert NatText(200) == "200";
  }

}

