/** Path walking over parameter maps and response data: `replace_params`
    (app/core/executor.py:116-147) and `parse_variable` (532-561). */
module Resolver {
  import opened Wrappers
  import opened Json
  import Dicts
  import Text
  import ElExpression

  /** The one field whose substitutions keep non-string values raw. */
  const RequestHeaders := "request_headers"

  /** Where a walk ends: a value, or the exception a step raised. */
  datatype Walked = Reached(v: JValue) | Crashed(reason: string)

  /** The value a step works on: a string met on the way is decoded first;
      `None` is a failed decode, after which the walk stops (`break`). */
  function Decoded(loads: Decoder, cur: JValue): (r: Option<JValue>)
    ensures !cur.JStr? ==> r == Some(cur)
  {
    if cur.JStr? then loads(cur.s) else Some(cur)
  }

  /** One segment.  With `digits` (replace_params) a segment of digits is an
      index: into a list, or into a string (Python yields the one-character
      string); against anything else it raises.  Without `digits`
      (parse_variable, whose `isinstance(branch, int)` is never true of the
      `str` that `split` yields) every segment is a `.get` key, and `.get` on
      anything but a dict raises AttributeError. */
  function Descend(cur: JValue, seg: string, digits: bool): (r: Walked)
    ensures !(digits && Text.IsDigits(seg)) ==> (r.Reached? <==> cur.JObj?)
    ensures !(digits && Text.IsDigits(seg)) && cur.JObj? ==> r.v == Member(cur.members, seg)
  {
    if digits && Text.IsDigits(seg) then
      var n := Text.DigitsValue(seg);
      match cur
      case JList(xs) => if n < |xs| then Reached(xs[n]) else Crashed("IndexError: list index out of range")
      case JStr(s) => if n < |s| then Reached(JStr([s[n]])) else Crashed("IndexError: string index out of range")
      case JObj(_) => Crashed("KeyError")
      case _ => Crashed("TypeError: object is not subscriptable")
    else
      match cur
      case JObj(ms) => Reached(Member(ms, seg))
      case _ => Crashed("AttributeError: object has no attribute 'get'")
  }

  /** The walk of a whole dotted path, segment by segment. */
  function Walk(loads: Decoder, cur: JValue, segs: seq<string>, digits: bool): Walked
    decreases |segs|
  {
    if segs == [] then Reached(cur)
    else match Decoded(loads, cur)
      case None => Reached(cur)
      case Some(d) =>
        match Descend(d, segs[0], digits)
        case Crashed(e) => Crashed(e)
        case Reached(nx) => Walk(loads, nx, segs[1..], digits)
  }

  /** The loop shared by replace_params and parse_variable: `result` is
      reassigned step by step. */
  method WalkPath(loads: Decoder, root: JValue, segs: seq<string>, digits: bool) returns (w: Walked)
    ensures w == Walk(loads, root, segs, digits)
  {
    var result := root;
    var i := 0;
    while i < |segs|
      invariant 0 <= i <= |segs|
      invariant Walk(loads, root, segs, digits) == Walk(loads, result, segs[i..], digits)
    {
      assert segs[i..][0] == segs[i] && segs[i..][1..] == segs[i + 1..];
      if result.JStr? {
        var decoded := loads(result.s);
        if decoded.None? {
          break;
        }
        result := decoded.value;
      }
      var next := Descend(result, segs[i], digits);
      if next.Crashed? {
        return next;
      }
      result := next.v;
      i := i + 1;
    }
    return Reached(result);
  }

  // ---------------------------------------------------------------------
  // replace_params

  /** The replacement for one token `v`: `None` when it is skipped (falsy
      first segment, or a None result in the header field); `Err` when the
      walk raised. */
  function Substitution(loads: Decoder, fieldName: string, params: Dicts.Dict<string, JValue>, v: string): (r: Result<Option<JValue>>)
    ensures !Truthy(Member(params, Text.Split(v, '.')[0])) ==> r == Ok(None)
    ensures r.Ok? && r.value.Some? && fieldName != RequestHeaders ==> r.value.value.JStr?
    ensures r.Ok? && r.value.Some? ==> !r.value.value.JNull?
  {
    var key := Text.Split(v, '.');
    if !Truthy(Member(params, key[0])) then Ok(None)
    else match Walk(loads, JObj(params), key, true)
      case Crashed(e) => Err(e)
      case Reached(res) =>
        if fieldName != RequestHeaders && !res.JStr? then Ok(Some(JStr(Dumps(res))))
        else if res.JNull? then Ok(None)
        else Ok(Some(res))
  }

  /** The `new_data` dict built from the tokens `vs`, starting from `acc`. */
  function SubstitutionsFrom(loads: Decoder, fieldName: string, params: Dicts.Dict<string, JValue>,
                             vs: seq<string>, acc: Dicts.Dict<string, JValue>): Result<Dicts.Dict<string, JValue>>
    decreases |vs|
  {
    if vs == [] then Ok(acc)
    else match Substitution(loads, fieldName, params, vs[0])
      case Err(e) => Err(e)
      case Ok(None) => SubstitutionsFrom(loads, fieldName, params, vs[1..], acc)
      case Ok(Some(x)) => SubstitutionsFrom(loads, fieldName, params, vs[1..], Dicts.Put(acc, "${" + vs[0] + "}", x))
  }

  /** What replace_params returns for a field value. */
  function Substitutions(loads: Decoder, fieldName: string, fieldOrigin: Option<string>,
                         params: Dicts.Dict<string, JValue>): Result<Dicts.Dict<string, JValue>>
  {
    match fieldOrigin
    case None => Ok([])
    case Some(s) => SubstitutionsFrom(loads, fieldName, params, ElExpression.Tokens(s), [])
  }

  method ReplaceParams(loads: Decoder, fieldName: string, fieldOrigin: Option<string>,
                       params: Dicts.Dict<string, JValue>) returns (r: Result<Dicts.Dict<string, JValue>>)
    ensures r == Substitutions(loads, fieldName, fieldOrigin, params)
    ensures fieldOrigin.None? ==> r == Ok([])
  {
    var newData: Dicts.Dict<string, JValue> := [];
    if fieldOrigin.None? {
      return Ok(newData);
    }
    var variables := ElExpression.GetElExpression(fieldOrigin);
    var i := 0;
    while i < |variables|
      invariant 0 <= i <= |variables|
      invariant SubstitutionsFrom(loads, fieldName, params, variables, [])
             == SubstitutionsFrom(loads, fieldName, params, variables[i..], newData)
    {
      var v := variables[i];
      assert variables[i..][0] == v && variables[i..][1..] == variables[i + 1..];
      var key := Text.Split(v, '.');
      if !Truthy(Member(params, key[0])) {
        i := i + 1;
        continue;
      }
      var walked := WalkPath(loads, JObj(params), key, true);
      if walked.Crashed? {
        return Err(walked.reason);
      }
      var result := walked.v;
      var newValue;
      if fieldName != RequestHeaders && !result.JStr? {
        newValue := JStr(Dumps(result));
      } else {
        newValue := result;
        if newValue.JNull? {
          i := i + 1;
          continue;
        }
      }
      newData := Dicts.Put(newData, "${" + v + "}", newValue);
      i := i + 1;
    }
    return Ok(newData);
  }

  /** Every key of `d` is `${v}` for some `v` among `seen`. */
  predicate KeysFrom(d: Dicts.Dict<string, JValue>, seen: seq<string>)
  {
    forall k :: k in Dicts.Keys(d) ==> exists v :: v in seen && k == "${" + v + "}"
  }

  /** Outside the header field every value of `d` is text. */
  predicate TextValues(fieldName: string, d: Dicts.Dict<string, JValue>)
  {
    fieldName != RequestHeaders ==> forall i :: 0 <= i < |d| ==> d[i].1.JStr?
  }

  lemma KeysFromMore(d: Dicts.Dict<string, JValue>, seen: seq<string>, v: string)
    requires KeysFrom(d, seen)
    ensures KeysFrom(d, seen + [v])
  {
    forall k | k in Dicts.Keys(d) ensures exists w :: w in seen + [v] && k == "${" + w + "}" {
      var w :| w in seen && k == "${" + w + "}";
      assert w in seen + [v];
    }
  }

  lemma KeysFromPut(d: Dicts.Dict<string, JValue>, seen: seq<string>, v: string, x: JValue)
    requires KeysFrom(d, seen)
    ensures KeysFrom(Dicts.Put(d, "${" + v + "}", x), seen + [v])
  {
    KeysFromMore(d, seen, v);
    var d' := Dicts.Put(d, "${" + v + "}", x);
    forall k | k in Dicts.Keys(d') ensures exists w :: w in seen + [v] && k == "${" + w + "}" {
      if k != "${" + v + "}" {
        assert k in Dicts.Keys(d);
      } else {
        assert v in seen + [v];
      }
    }
  }

  lemma TextValuesPut(fieldName: string, d: Dicts.Dict<string, JValue>, k: string, x: JValue)
    requires TextValues(fieldName, d)
    requires fieldName != RequestHeaders ==> x.JStr?
    ensures TextValues(fieldName, Dicts.Put(d, k, x))
  {
    PutValues(d, k, x);
  }

  /** Every key of the result is `${v}` for a token `v` of the field, and
      outside the header field every replacement is text. */
  lemma {:induction false} SubstitutionKeys(loads: Decoder, fieldName: string, params: Dicts.Dict<string, JValue>,
                                            vs: seq<string>, acc: Dicts.Dict<string, JValue>, seen: seq<string>)
    requires KeysFrom(acc, seen) && TextValues(fieldName, acc)
    requires SubstitutionsFrom(loads, fieldName, params, vs, acc).Ok?
    ensures var d := SubstitutionsFrom(loads, fieldName, params, vs, acc).value;
      KeysFrom(d, seen + vs) && TextValues(fieldName, d)
    decreases |vs|
  {
    if vs == [] {
      assert seen + vs == seen;
    } else {
      assert seen + vs == (seen + [vs[0]]) + vs[1..];
      var sub := Substitution(loads, fieldName, params, vs[0]);
      if sub == Ok(None) {
        KeysFromMore(acc, seen, vs[0]);
        SubstitutionKeys(loads, fieldName, params, vs[1..], acc, seen + [vs[0]]);
      } else {
        var x := sub.value.value;
        KeysFromPut(acc, seen, vs[0], x);
        TextValuesPut(fieldName, acc, "${" + vs[0] + "}", x);
        SubstitutionKeys(loads, fieldName, params, vs[1..], Dicts.Put(acc, "${" + vs[0] + "}", x), seen + [vs[0]]);
      }
    }
  }

  lemma {:induction false} PutValues(d: Dicts.Dict<string, JValue>, k: string, x: JValue)
    ensures forall i :: 0 <= i < |Dicts.Put(d, k, x)| ==>
      Dicts.Put(d, k, x)[i].1 == x || exists j :: 0 <= j < |d| && Dicts.Put(d, k, x)[i] == d[j]
  {
    if d != [] && d[0].0 != k {
      PutValues(d[1..], k, x);
      var p := Dicts.Put(d, k, x);
      forall i | 0 <= i < |p| ensures p[i].1 == x || exists j :: 0 <= j < |d| && p[i] == d[j] {
        if i == 0 {
          assert p[0] == d[0];
        } else {
          assert p[i] == Dicts.Put(d[1..], k, x)[i - 1];
          if p[i].1 != x {
            var j :| 0 <= j < |d[1..]| && p[i] == d[1..][j];
            assert p[i] == d[j + 1];
          }
        }
      }
    }
  }

  /** replace_params on a field: its keys are `${v}` for extracted tokens `v`,
      and every value outside the header field is text. */
  lemma ReplaceParamsKeys(loads: Decoder, fieldName: string, s: string, params: Dicts.Dict<string, JValue>)
    requires Substitutions(loads, fieldName, Some(s), params).Ok?
    ensures var d := Substitutions(loads, fieldName, Some(s), params).value;
      && (forall k :: k in Dicts.Keys(d) ==> exists v :: v in ElExpression.Tokens(s) && k == "${" + v + "}")
      && (fieldName != RequestHeaders ==> forall i :: 0 <= i < |d| ==> d[i].1.JStr?)
  {
    SubstitutionKeys(loads, fieldName, params, ElExpression.Tokens(s), [], []);
    assert [] + ElExpression.Tokens(s) == ElExpression.Tokens(s);
    var d := Substitutions(loads, fieldName, Some(s), params).value;
    assert KeysFrom(d, ElExpression.Tokens(s)) && TextValues(fieldName, d);
  }

  /** A path whose final key is missing: outside the header field the
      replacement is the text "null"; in the header field it is skipped. */
  lemma MissingFinalKey(loads: Decoder, fieldName: string, params: Dicts.Dict<string, JValue>, v: string)
    requires Truthy(Member(params, Text.Split(v, '.')[0]))
    requires Walk(loads, JObj(params), Text.Split(v, '.'), true) == Reached(JNull)
    ensures fieldName != RequestHeaders ==> Substitution(loads, fieldName, params, v) == Ok(Some(JStr("null")))
    ensures fieldName == RequestHeaders ==> Substitution(loads, fieldName, params, v) == Ok(None)
  {
  }

  lemma SplitPath2(x: string, y: string)
    requires '.' !in x && '.' !in y
    ensures Text.Split(x + "." + y, '.') == [x, y]
  {
    Text.SplitAtSep(x, y, '.');
    Text.SplitNoSep(y, '.');
  }

  lemma SplitPath3(x: string, y: string, z: string)
    requires '.' !in x && '.' !in y && '.' !in z
    ensures Text.Split(x + "." + y + "." + z, '.') == [x, y, z]
  {
    assert x + "." + y + "." + z == x + "." + (y + "." + z);
    Text.SplitAtSep(x, y + "." + z, '.');
    SplitPath2(y, z);
  }

  /** A key segment at a dict moves to the member (None when missing). */
  lemma WalkKey(loads: Decoder, ms: Dicts.Dict<string, JValue>, k: string, rest: seq<string>, digits: bool)
    requires !(digits && Text.IsDigits(k))
    ensures Walk(loads, JObj(ms), [k] + rest, digits) == Walk(loads, Member(ms, k), rest, digits)
  {
    assert ([k] + rest)[1..] == rest;
  }

  /** An index segment at a list moves to the element, or raises. */
  lemma WalkIndex(loads: Decoder, xs: seq<JValue>, k: string, rest: seq<string>)
    requires Text.IsDigits(k)
    ensures Text.DigitsValue(k) < |xs| ==>
      Walk(loads, JList(xs), [k] + rest, true) == Walk(loads, xs[Text.DigitsValue(k)], rest, true)
    ensures Text.DigitsValue(k) >= |xs| ==> Walk(loads, JList(xs), [k] + rest, true).Crashed?
  {
    assert ([k] + rest)[1..] == rest;
  }

  /** A key segment at a string holding a JSON object decodes it first. */
  lemma WalkDecoded(loads: Decoder, s: string, ms: Dicts.Dict<string, JValue>, k: string, rest: seq<string>, digits: bool)
    requires loads(s) == Some(JObj(ms)) && !(digits && Text.IsDigits(k))
    ensures Walk(loads, JStr(s), [k] + rest, digits) == Walk(loads, Member(ms, k), rest, digits)
  {
    assert ([k] + rest)[1..] == rest;
  }

  lemma ZeroDigits()
    ensures Text.IsDigits("0") && Text.DigitsValue("0") == 0
    ensures !Text.IsDigits("a") && !Text.IsDigits("b") && !Text.IsDigits("c")
  {
    assert "a"[0] == 'a' && "b"[0] == 'b' && "c"[0] == 'c';
    assert "0"[..0] == [];
  }

  /** `${a.b}` against `{"a": {"x": 1}}` in the body becomes the text "null". */
  lemma MissingKeyExample(loads: Decoder)
    ensures Substitution(loads, "body", [("a", JObj([("x", JInt(1))]))], "a.b") == Ok(Some(JStr("null")))
  {
    var inner := [("x", JInt(1))];
    var params := [("a", JObj(inner))];
    assert "a.b" == "a" + "." + "b";
    SplitPath2("a", "b");
    ZeroDigits();
    assert Member(params, "a") == JObj(inner);
    assert Member(inner, "b") == JNull;
    WalkKey(loads, params, "a", ["b"], true);
    WalkKey(loads, inner, "b", [], true);
    assert ["a", "b"] == ["a"] + ["b"] && ["b"] == ["b"] + [];
  }

  /** What a token whose walk reaches `res` is replaced by. */
  lemma SubstitutionOfWalk(loads: Decoder, fieldName: string, params: Dicts.Dict<string, JValue>, v: string, res: JValue)
    requires Truthy(Member(params, Text.Split(v, '.')[0]))
    requires Walk(loads, JObj(params), Text.Split(v, '.'), true) == Reached(res)
    ensures fieldName != RequestHeaders && !res.JStr? ==> Substitution(loads, fieldName, params, v) == Ok(Some(JStr(Dumps(res))))
    ensures res.JStr? ==> Substitution(loads, fieldName, params, v) == Ok(Some(res))
  {
  }

  lemma ABPath(loads: Decoder, inner: Dicts.Dict<string, JValue>, b: JValue, last: string)
    requires inner == [("b", b)] && '.' !in last && last != "b"
    ensures Text.Split("a.b." + last, '.') == ["a", "b", last]
    ensures Walk(loads, JObj([("a", JObj(inner))]), ["a", "b", last], true) == Walk(loads, b, [last], true)
    ensures Truthy(Member([("a", JObj(inner))], "a"))
  {
    var params := [("a", JObj(inner))];
    assert "a.b." + last == "a" + "." + "b" + "." + last;
    SplitPath3("a", "b", last);
    ZeroDigits();
    assert Member(params, "a") == JObj(inner);
    assert Member(inner, "b") == b;
    assert ["a", "b", last] == ["a"] + ["b", last] && ["b", last] == ["b"] + [last];
    WalkKey(loads, params, "a", ["b", last], true);
    WalkKey(loads, inner, "b", [last], true);
  }

  /** `${a.b.0}` against `{"a": {"b": ["x", "y"]}}` resolves to "x". */
  lemma IndexExample(loads: Decoder)
    ensures Substitution(loads, "url", [("a", JObj([("b", JList([JStr("x"), JStr("y")]))]))], "a.b.0") == Ok(Some(JStr("x")))
  {
    var xs := [JStr("x"), JStr("y")];
    assert "a.b." + "0" == "a.b.0";
    ABPath(loads, [("b", JList(xs))], JList(xs), "0");
    ZeroDigits();
    assert ["0"] == ["0"] + [];
    WalkIndex(loads, xs, "0", []);
    SubstitutionOfWalk(loads, "url", [("a", JObj([("b", JList(xs))]))], "a.b.0", JStr("x"));
  }

  /** Against `{"a": {"b": []}}` the same path raises IndexError: the walk
      has no guard, so the error aborts the rewrite instead of skipping it. */
  lemma IndexOutOfRangeExample(loads: Decoder)
    ensures Substitution(loads, "url", [("a", JObj([("b", JList([]))]))], "a.b.0").Err?
  {
    assert "a.b." + "0" == "a.b.0";
    ABPath(loads, [("b", JList([]))], JList([]), "0");
    ZeroDigits();
    assert ["0"] == ["0"] + [];
    WalkIndex(loads, [], "0", []);
  }

  lemma DoublyEncodedWalk(loads: Decoder)
    requires loads("{\"c\":1}") == Some(JObj([("c", JInt(1))]))
    ensures Walk(loads, JObj([("a", JObj([("b", JStr("{\"c\":1}"))]))]), ["a", "b", "c"], true) == Reached(JInt(1))
  {
    var decoded := [("c", JInt(1))];
    ABPath(loads, [("b", JStr("{\"c\":1}"))], JStr("{\"c\":1}"), "c");
    ZeroDigits();
    assert Member(decoded, "c") == JInt(1);
    assert ["c"] == ["c"] + [];
    WalkDecoded(loads, "{\"c\":1}", decoded, "c", [], true);
  }

  /** A string holding JSON is decoded on the way: with `b` stored as the
      text `{"c":1}`, `${a.b.c}` resolves to 1, substituted as "1". */
  lemma DoublyEncodedExample(loads: Decoder)
    requires loads("{\"c\":1}") == Some(JObj([("c", JInt(1))]))
    ensures Substitution(loads, "body", [("a", JObj([("b", JStr("{\"c\":1}"))]))], "a.b.c") == Ok(Some(JStr("1")))
  {
    var inner := [("b", JStr("{\"c\":1}"))];
    assert "a.b." + "c" == "a.b.c";
    ABPath(loads, inner, JStr("{\"c\":1}"), "c");
    DoublyEncodedWalk(loads);
    SubstitutionOfWalk(loads, "body", [("a", JObj(inner))], "a.b.c", JInt(1));
    assert "body" != RequestHeaders;
    DumpsOne();
  }

  lemma DumpsOne()
    ensures Dumps(JInt(1)) == "1"
  {
    assert NatText(1) == "1";
  }

  // ---------------------------------------------------------------------
  // parse_variable

  /** What parse_variable returns: the string itself when it holds no token;
      otherwise the value of its FIRST token walked from the response dict,
      raw for exactly "${response}" and as JSON text for anything else;
      `Err` when a step raised. */
  function ResolveVariable(loads: Decoder, info: Dicts.Dict<string, JValue>, s: Option<string>): Result<JValue>
  {
    var data := ElExpression.GetElExpression(s);
    if |data| == 0 then Ok(if s.Some? then JStr(s.value) else JNull)
    else match Walk(loads, JObj(info), Text.Split(data[0], '.'), false)
      case Crashed(e) => Err(e)
      case Reached(res) => if s == Some("${response}") then Ok(res) else Ok(JStr(Dumps(res)))
  }

  method ParseVariable(loads: Decoder, info: Dicts.Dict<string, JValue>, s: Option<string>) returns (r: Result<JValue>)
    ensures r == ResolveVariable(loads, info, s)
  {
    var data := ElExpression.GetElExpression(s);
    if |data| == 0 {
      return Ok(if s.Some? then JStr(s.value) else JNull);
    }
    var elList := Text.Split(data[0], '.');
    var walked := WalkPath(loads, JObj(info), elList, false);
    if walked.Crashed? {
      return Err(walked.reason);
    }
    if s == Some("${response}") {
      return Ok(walked.v);
    }
    return Ok(JStr(Dumps(walked.v)));
  }

  /** A string without `${` is returned unchanged. */
  lemma TokenFreeUnchanged(loads: Decoder, info: Dicts.Dict<string, JValue>, s: string)
    requires !ElExpression.HasOpener(s)
    ensures ResolveVariable(loads, info, Some(s)) == Ok(JStr(s))
  {
    ElExpression.NoOpenerNoTokens(s);
  }

  /** Exactly "${response}" yields the raw `response` entry. */
  lemma WholeResponseRaw(loads: Decoder, info: Dicts.Dict<string, JValue>)
    ensures ResolveVariable(loads, info, Some("${response}")) == Ok(Member(info, "response"))
  {
    assert ElExpression.WellFormedToken("response");
    ElExpression.FrontToken("response", "");
    assert "${response}" == "${" + "response" + "}" + "";
    assert ElExpression.Tokens("") == [];
    Text.SplitNoSep("response", '.');
    assert !Text.IsDigits("response") by { assert "response"[0] == 'r'; }
    assert ["response"] == ["response"] + [];
    WalkKey(loads, info, "response", [], false);
  }
  /** Any other single-name token reads that key of the response and
      serialises it; a missing key serialises as `null`. */
  lemma TopLevelToken(loads: Decoder, info: Dicts.Dict<string, JValue>, name: string)
    requires ElExpression.WellFormedToken(name) && '.' !in name && name != "response"
    ensures ResolveVariable(loads, info, Some("${" + name + "}")) == Ok(JStr(Dumps(Member(info, name))))
  {
    ElExpression.FrontToken(name, "");
    assert "${" + name + "}" == "${" + name + "}" + "";
    assert ElExpression.Tokens("") == [];
    Text.SplitNoSep(name, '.');
    assert [name] == [name] + [];
    WalkKey(loads, info, name, [], false);
    var s := "${" + name + "}";
    assert s != "${response}" by {
      if |s| == 11 {
        assert s[2..10] == name;
        assert "${response}"[2..10] == "response";
      }
    }
  }


  /** A numeric segment is a key in parse_variable, never an index: where
      replace_params picks the first element of a list, parse_variable
      raises AttributeError and reports a resolution failure. */
  lemma NumericSegmentNotIndexed(loads: Decoder, xs: seq<JValue>)
    requires xs != []
    ensures Walk(loads, JList(xs), ["0"], true) == Reached(xs[0])
    ensures Walk(loads, JList(xs), ["0"], false).Crashed?
  {
    assert Text.IsDigits("0");
    assert Text.DigitsValue("0") == 0;
  }

  /** parse_variable as evidently intended: the test for an index segment
      is the one replace_params uses (`branch.isdigit()`), so a numeric
      segment indexes into a list. */
  function ResolveVariableIndexed(loads: Decoder, info: Dicts.Dict<string, JValue>, s: Option<string>): Result<JValue>
  {
    var data := ElExpression.GetElExpression(s);
    if |data| == 0 then Ok(if s.Some? then JStr(s.value) else JNull)
    else match Walk(loads, JObj(info), Text.Split(data[0], '.'), true)
      case Crashed(e) => Err(e)
      case Reached(res) => if s == Some("${response}") then Ok(res) else Ok(JStr(Dumps(res)))
  }

  /** Without a numeric segment the two walks are the same walk. */
  lemma {:induction false} WalkWithoutDigits(loads: Decoder, cur: JValue, segs: seq<string>)
    requires forall i :: 0 <= i < |segs| ==> !Text.IsDigits(segs[i])
    ensures Walk(loads, cur, segs, true) == Walk(loads, cur, segs, false)
    decreases |segs|
  {
    if segs != [] {
      match Decoded(loads, cur)
      case None =>
      case Some(d) =>
        match Descend(d, segs[0], true)
        case Crashed(_) =>
        case Reached(nx) =>
          WalkWithoutDigits(loads, nx, segs[1..]);
    }
  }

  /** The correction changes nothing for a token whose path has no
      numeric segment. */
  lemma IndexedAgreesOnKeys(loads: Decoder, info: Dicts.Dict<string, JValue>, s: Option<string>)
    requires var data := ElExpression.GetElExpression(s);
      data != [] ==> forall i :: 0 <= i < |Text.Split(data[0], '.')| ==> !Text.IsDigits(Text.Split(data[0], '.')[i])
    ensures ResolveVariableIndexed(loads, info, s) == ResolveVariable(loads, info, s)
  {
    var data := ElExpression.GetElExpression(s);
    if data != [] {
      WalkWithoutDigits(loads, JObj(info), Text.Split(data[0], '.'));
    }
  }

  lemma ResponseIndexToken()
    ensures ElExpression.Tokens("${response.0}") == ["response.0"]
    ensures Text.Split("response.0", '.') == ["response", "0"]
  {
    assert ElExpression.WellFormedToken("response.0");
    assert "${response.0}" == "${" + "response.0" + "}" + "";
    ElExpression.FrontToken("response.0", "");
    assert ElExpression.Tokens("") == [];
    assert "response.0" == "response" + "." + "0";
    SplitPath2("response", "0");
  }

  lemma ResponseIndexWalk(loads: Decoder, digits: bool)
    requires loads("[7]") == Some(JList([JInt(7)]))
    ensures digits ==> Walk(loads, JObj([("response", JStr("[7]"))]), ["response", "0"], digits) == Reached(JInt(7))
    ensures !digits ==> Walk(loads, JObj([("response", JStr("[7]"))]), ["response", "0"], digits).Crashed?
  {
    var info := [("response", JStr("[7]"))];
    assert !Text.IsDigits("response") by { assert "response"[0] == 'r'; }
    ZeroDigits();
    assert Member(info, "response") == JStr("[7]");
    assert ["response", "0"] == ["response"] + ["0"] && ["0"][1..] == [];
    WalkKey(loads, info, "response", ["0"], digits);
  }

  /** A response whose body is the JSON text `[7]`: as written,
      `${response.0}` fails to resolve (`.get` on a list raises), so the
      assertion using it reports a resolution failure. */
  lemma ResponseIndexFails(loads: Decoder)
    requires loads("[7]") == Some(JList([JInt(7)]))
    ensures ResolveVariable(loads, [("response", JStr("[7]"))], Some("${response.0}")).Err?
  {
    ResponseIndexToken();
    ResponseIndexWalk(loads, false);
  }

  /** As intended, the same token resolves to the text "7". */
  lemma ResponseIndexResolves(loads: Decoder)
    requires loads("[7]") == Some(JList([JInt(7)]))
    ensures ResolveVariableIndexed(loads, [("response", JStr("[7]"))], Some("${response.0}")) == Ok(JStr("7"))
  {
    ResponseIndexToken();
    ResponseIndexWalk(loads, true);
    assert "${response.0}" != "${response}" by { assert |"${response.0}"| != |"${response}"|; }
    DumpsSeven();
  }

  lemma DumpsSeven()
    ensures Dumps(JInt(7)) == "7"
  {
    assert NatText(7) == "7";
  }
}
