/** Global variables (app/core/executor.py, parse_gconfig, parse_field and
    get_parser): every `${key.path}` token of a case field whose `key` names
    a stored global variable is replaced by the text the variable's parser
    produces for the token. */
module GConfig {
  import opened Wrappers
  import Text
  import ElExpression
  import opened Entities

  /** A stored global variable: its `key_type` code and its raw value. */
  datatype GlobalVar = GlobalVar(keyType: int, value: string)

  /** The global-variable table, looked up by key.  Reading it from the
      database is not part of this model. */
  type Store = map<string, GlobalVar>

  /** The three parsers get_parser hands out. */
  datatype ParserKind = StringParser | JsonParser | YamlParser

  /** `parse(value, v)` of the chosen parser; their code is not part of this
      model, so it is a parameter.  `None` is the exception a parser raises. */
  type Parse = (ParserKind, string, string) -> Option<string>

  /** get_parser: key types 0, 1 and 2 select the string, JSON and YAML
      parser; any other key type raises. */
  function GetParser(keyType: int): (r: Option<ParserKind>)
    ensures r.Some? <==> 0 <= keyType <= 2
  {
    if keyType == 0 then Some(StringParser)
    else if keyType == 1 then Some(JsonParser)
    else if keyType == 2 then Some(YamlParser)
    else None
  }

  /** `v.split(".")[0]`: the name of the global variable a token refers to. */
  function KeyOf(v: string): string
  {
    Text.Split(v, '.')[0]
  }

  /** A token either names no global variable, or names one whose key type
      is valid and whose parser accepts the token. */
  predicate Resolves(store: Store, parse: Parse, v: string)
  {
    KeyOf(v) in store ==>
      GetParser(store[KeyOf(v)].keyType).Some? &&
      parse(GetParser(store[KeyOf(v)].keyType).value, store[KeyOf(v)].value, v).Some?
  }

  /** The loop of parse_field over the tokens `vars`, starting from the
      field's current text `cur`: the text the field holds afterwards, and
      whether no exception was raised.  The tokens were taken from the
      original text, before any replacement. */
  function FieldFrom(store: Store, parse: Parse, cur: string, vars: seq<string>): (string, bool)
    decreases |vars|
  {
    if vars == [] then (cur, true)
    else
      var v := vars[0];
      var key := KeyOf(v);
      if key !in store then FieldFrom(store, parse, cur, vars[1..])
      else match GetParser(store[key].keyType)
        case None => (cur, false)
        case Some(kind) =>
          match parse(kind, store[key].value, v)
          case None => (cur, false)
          case Some(newValue) => FieldFrom(store, parse, Text.ReplaceAll(cur, "${" + v + "}", newValue), vars[1..])
  }

  /** parse_field on a field holding `fd`: a None field has no tokens. */
  function ParseFieldSpec(store: Store, parse: Parse, fd: Option<string>): (Option<string>, bool)
  {
    match fd
    case None => (None, true)
    case Some(s) =>
      var (t, ok) := FieldFrom(store, parse, s, ElExpression.Tokens(s));
      (Some(t), ok)
  }

  /** parse_field: rewrites field `f` of the case token by token (each
      `setattr` lands at once, so on an exception the replacements made so
      far stay), and no other field. */
  method ParseField(store: Store, parse: Parse, tc: TestCase, f: CaseField) returns (ok: bool)
    modifies tc
    ensures (tc.Get(f), ok) == ParseFieldSpec(store, parse, old(tc.Get(f)))
    ensures forall g :: g != f ==> tc.Get(g) == old(tc.Get(g))
  {
    var fieldOrigin := tc.Get(f);
    var variables := ElExpression.GetElExpression(fieldOrigin);
    if fieldOrigin.None? {
      return true;
    }
    ghost var orig := fieldOrigin.value;
    var cur := fieldOrigin.value;
    var i := 0;
    while i < |variables|
      invariant 0 <= i <= |variables|
      invariant tc.Get(f) == Some(cur)
      invariant forall g :: g != f ==> tc.Get(g) == old(tc.Get(g))
      invariant FieldFrom(store, parse, orig, variables) == FieldFrom(store, parse, cur, variables[i..])
    {
      var v := variables[i];
      assert variables[i..][1..] == variables[i + 1..];
      var key := KeyOf(v);
      if key in store {
        var cf := store[key];
        var kind := GetParser(cf.keyType);
        if kind.None? {
          return false;
        }
        var newValue := parse(kind.value, cf.value, v);
        if newValue.None? {
          return false;
        }
        var newField := Text.ReplaceAll(cur, "${" + v + "}", newValue.value);
        tc.Set(f, Some(newField));
        cur := newField;
      }
      i := i + 1;
    }
    assert variables[i..] == [];
    return true;
  }

  /** `Executor.fields`, the fields parse_gconfig is given, in order. */
  const Fields: seq<CaseField> := [Body, Url, RequestHeaders]

  /** The case's fields as a table, the state parse_gconfig works on. */
  function Snapshot(tc: TestCase): (m: map<CaseField, Option<string>>)
    reads tc
    ensures forall f :: f in m && m[f] == tc.Get(f)
  {
    map f: CaseField | true :: tc.Get(f)
  }

  /** parse_gconfig: parse_field on each given field in turn; the first
      exception stops the loop, leaving later fields as they were. */
  function GconfigFrom(store: Store, parse: Parse, snap: map<CaseField, Option<string>>, fields: seq<CaseField>)
    : (map<CaseField, Option<string>>, bool)
    requires forall f :: f in snap
    decreases |fields|
  {
    if fields == [] then (snap, true)
    else
      var (fd, ok) := ParseFieldSpec(store, parse, snap[fields[0]]);
      var snap' := snap[fields[0] := fd];
      if !ok then (snap', false) else GconfigFrom(store, parse, snap', fields[1..])
  }

  method ParseGconfig(store: Store, parse: Parse, tc: TestCase, fields: seq<CaseField>) returns (ok: bool)
    modifies tc
    ensures (Snapshot(tc), ok) == GconfigFrom(store, parse, old(Snapshot(tc)), fields)
  {
    var i := 0;
    while i < |fields|
      invariant 0 <= i <= |fields|
      invariant GconfigFrom(store, parse, old(Snapshot(tc)), fields) == GconfigFrom(store, parse, Snapshot(tc), fields[i..])
    {
      ghost var before := Snapshot(tc);
      assert fields[i..][1..] == fields[i + 1..];
      ok := ParseField(store, parse, tc, fields[i]);
      assert Snapshot(tc) == before[fields[i] := tc.Get(fields[i])];
      if !ok {
        return;
      }
      i := i + 1;
    }
    assert fields[i..] == [];
    return true;
  }

  // ---------------------------------------------------------------------
  // Properties

  /** parse_field raises exactly when some token names a global variable
      whose key type is invalid or whose parser rejects the token; which
      tokens were replaced before does not matter, since a parser sees the
      token and the variable, not the field. */
  lemma {:induction false} FieldFromOk(store: Store, parse: Parse, cur: string, vars: seq<string>)
    ensures FieldFrom(store, parse, cur, vars).1 <==> forall j :: 0 <= j < |vars| ==> Resolves(store, parse, vars[j])
    decreases |vars|
  {
    if vars != [] {
      var key := KeyOf(vars[0]);
      assert forall j :: 1 <= j < |vars| ==> vars[j] == vars[1..][j - 1];
      if key !in store {
        FieldFromOk(store, parse, cur, vars[1..]);
      } else if GetParser(store[key].keyType).Some? {
        var kind := GetParser(store[key].keyType).value;
        if parse(kind, store[key].value, vars[0]).Some? {
          FieldFromOk(store, parse, Text.ReplaceAll(cur, "${" + vars[0] + "}", parse(kind, store[key].value, vars[0]).value), vars[1..]);
        }
      }
    }
  }

  /** Tokens that name no global variable are left in place. */
  lemma {:induction false} UnknownKeysUntouched(store: Store, parse: Parse, cur: string, vars: seq<string>)
    requires forall j :: 0 <= j < |vars| ==> KeyOf(vars[j]) !in store
    ensures FieldFrom(store, parse, cur, vars) == (cur, true)
    decreases |vars|
  {
    if vars != [] {
      assert forall j :: 0 <= j < |vars[1..]| ==> vars[1..][j] == vars[j + 1];
      UnknownKeysUntouched(store, parse, cur, vars[1..]);
    }
  }

  /** An invalid key type aborts parse_field at that token. */
  lemma InvalidKeyTypeAborts(store: Store, parse: Parse, cur: string, v: string, rest: seq<string>)
    requires KeyOf(v) in store && !(0 <= store[KeyOf(v)].keyType <= 2)
    ensures FieldFrom(store, parse, cur, [v] + rest) == (cur, false)
  {
    assert ([v] + rest)[0] == v;
  }

  /** `${host}/users` with a string variable `host` whose parser yields
      `http://x` becomes `http://x/users`. */
  lemma HostExample(parse: Parse)
    requires parse(StringParser, "http://x", "host") == Some("http://x")
    ensures ParseFieldSpec(map["host" := GlobalVar(0, "http://x")], parse, Some("${host}/users"))
         == (Some("http://x/users"), true)
  {
    var store := map["host" := GlobalVar(0, "http://x")];
    HostTokens();
    Text.SplitNoSep("host", '.');
    HostReplaced();
    assert FieldFrom(store, parse, "http://x/users", []) == ("http://x/users", true);
  }

  lemma HostTokens()
    ensures ElExpression.Tokens("${host}/users") == ["host"]
  {
    assert ElExpression.WellFormedToken("host");
    assert "${host}/users" == "${" + "host" + "}" + "/users";
    ElExpression.FrontToken("host", "/users");
    assert !ElExpression.HasOpener("/users");
    ElExpression.NoOpenerNoTokens("/users");
  }

  lemma HostReplaced()
    ensures Text.ReplaceAll("${host}/users", "${" + "host" + "}", "http://x") == "http://x/users"
  {
    var s := "${host}/users";
    assert "${" + "host" + "}" == "${host}";
    assert "${host}" <= s;
    assert s[|"${host}"|..] == "/users";
    assert !Text.Contains("/users", "${host}");
    Text.ReplaceAbsent("/users", "${host}", "http://x");
  }
}
