/** In-place field rewriting: `replace_cls` and its wrappers
    `replace_testcase`, `replace_constructors`, `replace_asserts` and
    `replace_args` (app/core/executor.py:331-361).

    `replace_cls(params, obj, *fields)` reads and writes fields by name.  The
    model reads the named fields of an object into a list (its accessor
    table), rewrites the list, and writes it back into the same object. */
module Rewrite {
  import opened Wrappers
  import opened Json
  import Dicts
  import Text
  import Resolver
  import opened Entities

  type Params = Dicts.Dict<string, JValue>

  /** `for a, b in data.items(): fd = fd.replace(a, b)`, in order.  A
      replacement that is not a string (possible only in the header field)
      makes `str.replace` raise TypeError: the result is then `false`, with
      the replacements made so far kept (each was already `setattr`-ed). */
  function ApplySubstitutions(fd: string, data: Params): (string, bool)
    decreases |data|
  {
    if data == [] then (fd, true)
    else if !data[0].1.JStr? then (fd, false)
    else ApplySubstitutions(Text.ReplaceAll(fd, data[0].0, data[0].1.s), data[1..])
  }

  /** One `(k, f)` iteration of replace_cls on field value `fd`: a None field
      is skipped; a field that does not contain the key `k` is left alone;
      otherwise every substitution replace_params finds for the field is
      applied.  `false` means an exception escaped. */
  function FieldStep(loads: Decoder, params: Params, name: string, fd: Option<string>, k: string): (r: (Option<string>, bool))
    ensures fd.None? ==> r == (None, true)
    ensures fd.Some? ==> r.0.Some?
  {
    if fd.None? || !Text.Contains(fd.value, k) then (fd, true)
    else match Resolver.Substitutions(loads, name, fd, params)
      case Err(_) => (fd, false)
      case Ok(data) =>
        var (s, ok) := ApplySubstitutions(fd.value, data);
        (Some(s), ok)
  }

  /** The inner loop of replace_cls, over the fields from position `j`. */
  function FieldsPass(loads: Decoder, params: Params, names: seq<string>, vals: seq<Option<string>>,
                      k: string, j: nat): (r: (seq<Option<string>>, bool))
    requires |names| == |vals| && j <= |names|
    ensures |r.0| == |vals|
    ensures forall m :: 0 <= m < j ==> r.0[m] == vals[m]
    ensures forall m :: 0 <= m < |vals| ==> (r.0[m].None? <==> vals[m].None?)
    decreases |names| - j
  {
    if j == |names| then (vals, true)
    else
      var (v, ok) := FieldStep(loads, params, names[j], vals[j], k);
      if !ok then (vals[j := v], false)
      else FieldsPass(loads, params, names, vals[j := v], k, j + 1)
  }

  /** The outer loop of replace_cls, over the parameter keys from position `i`. */
  function ReplaceClsFrom(loads: Decoder, params: Params, names: seq<string>, vals: seq<Option<string>>,
                          i: nat): (r: (seq<Option<string>>, bool))
    requires |names| == |vals| && i <= |params|
    ensures |r.0| == |vals|
    decreases |params| - i
  {
    if i == |params| then (vals, true)
    else
      var (vals', ok) := FieldsPass(loads, params, names, vals, params[i].0, 0);
      if !ok then (vals', false)
      else ReplaceClsFrom(loads, params, names, vals', i + 1)
  }

  /** The field values after replace_cls, and whether it returned normally. */
  function ReplaceClsSpec(loads: Decoder, params: Params, names: seq<string>, vals: seq<Option<string>>): (seq<Option<string>>, bool)
    requires |names| == |vals|
  {
    ReplaceClsFrom(loads, params, names, vals, 0)
  }

  method ReplaceCls(loads: Decoder, params: Params, names: seq<string>, vals: seq<Option<string>>)
    returns (out: seq<Option<string>>, ok: bool)
    requires |names| == |vals|
    ensures (out, ok) == ReplaceClsSpec(loads, params, names, vals)
  {
    out := vals;
    var i := 0;
    while i < |params|
      invariant 0 <= i <= |params| && |out| == |vals|
      invariant ReplaceClsFrom(loads, params, names, vals, 0) == ReplaceClsFrom(loads, params, names, out, i)
    {
      var k := params[i].0;
      ghost var start := out;
      var j := 0;
      while j < |names|
        invariant 0 <= j <= |names| && |out| == |vals|
        invariant FieldsPass(loads, params, names, start, k, 0) == FieldsPass(loads, params, names, out, k, j)
      {
        ghost var atJ := out;
        var fd := out[j];
        if fd.Some? && Text.Contains(fd.value, k) {
          var data := Resolver.ReplaceParams(loads, names[j], fd, params);
          if data.Err? {
            assert FieldsPass(loads, params, names, out, k, j) == (out[j := fd], false);
            assert out[j := fd] == out;
            return out, false;
          }
          var items := data.value;
          var s := fd.value;
          ghost var before := out;
          var m := 0;
          while m < |items|
            invariant 0 <= m <= |items|
            invariant out == before[j := Some(s)]
            invariant ApplySubstitutions(fd.value, items) == ApplySubstitutions(s, items[m..])
          {
            if !items[m].1.JStr? {
              return out, false;
            }
            s := Text.ReplaceAll(s, items[m].0, items[m].1.s);
            out := out[j := Some(s)];
            m := m + 1;
          }
          assert items[m..] == [];
        }
        assert FieldStep(loads, params, names[j], atJ[j], k) == (out[j], true);
        assert out == atJ[j := out[j]];
        j := j + 1;
      }
      i := i + 1;
    }
    ok := true;
  }

  /** A field replace_cls leaves alone: None, or containing none of the
      parameter keys as a substring. */
  predicate Untouched(params: Params, fd: Option<string>)
  {
    fd.None? || forall i :: 0 <= i < |params| ==> !Text.Contains(fd.value, params[i].0)
  }

  lemma {:induction false} FieldsPassKeeps(loads: Decoder, params: Params, names: seq<string>, vals: seq<Option<string>>,
                                           k: string, j0: nat, j: nat)
    requires |names| == |vals| && j0 <= |names| && j < |vals|
    requires vals[j].None? || !Text.Contains(vals[j].value, k)
    ensures FieldsPass(loads, params, names, vals, k, j0).0[j] == vals[j]
    decreases |names| - j0
  {
    if j0 < |names| {
      var (v, ok) := FieldStep(loads, params, names[j0], vals[j0], k);
      if ok {
        FieldsPassKeeps(loads, params, names, vals[j0 := v], k, j0 + 1, j);
      }
    }
  }

  lemma {:induction false} ReplaceClsFromKeeps(loads: Decoder, params: Params, names: seq<string>, vals: seq<Option<string>>,
                                               i: nat, j: nat)
    requires |names| == |vals| && i <= |params| && j < |vals|
    requires Untouched(params, vals[j])
    ensures ReplaceClsFrom(loads, params, names, vals, i).0[j] == vals[j]
    decreases |params| - i
  {
    if i < |params| {
      FieldsPassKeeps(loads, params, names, vals, params[i].0, 0, j);
      var (vals', ok) := FieldsPass(loads, params, names, vals, params[i].0, 0);
      if ok {
        ReplaceClsFromKeeps(loads, params, names, vals', i + 1, j);
      }
    }
  }

  /** replace_cls never changes a None field, nor a field in which no
      parameter key occurs, whatever happens to the other fields. */
  lemma UntouchedFieldKept(loads: Decoder, params: Params, names: seq<string>, vals: seq<Option<string>>, j: nat)
    requires |names| == |vals| && j < |vals|
    requires Untouched(params, vals[j])
    ensures ReplaceClsSpec(loads, params, names, vals).0[j] == vals[j]
  {
    ReplaceClsFromKeeps(loads, params, names, vals, 0, j);
  }

  /** With no parameters at all, replace_cls changes nothing and succeeds. */
  lemma NoParamsNoChange(loads: Decoder, names: seq<string>, vals: seq<Option<string>>)
    requires |names| == |vals|
    ensures ReplaceClsSpec(loads, [], names, vals) == (vals, true)
  {
  }

  // ---------------------------------------------------------------------
  // The wrappers over the three entity kinds

  /** The fields replace_testcase names, in its order. */
  const CaseFieldNames: seq<string> := ["request_headers", "body", "url"]

  /** replace_cls over a list of one-field objects, object by object; the
      first exception stops the loop, leaving later objects as they were. */
  function ReplaceEachFrom(loads: Decoder, params: Params, name: string, vals: seq<Option<string>>, i: nat)
    : (r: (seq<Option<string>>, bool))
    requires i <= |vals|
    ensures |r.0| == |vals|
    decreases |vals| - i
  {
    if i == |vals| then (vals, true)
    else
      var (out, ok) := ReplaceClsSpec(loads, params, [name], [vals[i]]);
      if !ok then (vals[i := out[0]], false)
      else ReplaceEachFrom(loads, params, name, vals[i := out[0]], i + 1)
  }

  /** replace_each leaves an untouched entry as it was. */
  lemma {:induction false} EachUntouchedKept(loads: Decoder, params: Params, name: string, vals: seq<Option<string>>,
                                             i: nat, j: nat)
    requires i <= |vals| && j < |vals| && Untouched(params, vals[j])
    ensures ReplaceEachFrom(loads, params, name, vals, i).0[j] == vals[j]
    decreases |vals| - i
  {
    if i < |vals| {
      var (out, ok) := ReplaceClsSpec(loads, params, [name], [vals[i]]);
      if i == j {
        UntouchedFieldKept(loads, params, [name], [vals[i]], 0);
      }
      if ok {
        EachUntouchedKept(loads, params, name, vals[i := out[0]], i + 1, j);
      }
    }
  }

  /** replace_testcase: request_headers, body and url of the case. */
  method ReplaceTestcase(loads: Decoder, params: Params, tc: TestCase) returns (ok: bool)
    modifies tc
    ensures (tc.Rewritable(), ok) == ReplaceClsSpec(loads, params, CaseFieldNames, old(tc.Rewritable()))
  {
    var out;
    out, ok := ReplaceCls(loads, params, CaseFieldNames, tc.Rewritable());
    tc.requestHeaders, tc.body, tc.url := out[0], out[1], out[2];
    assert tc.Rewritable() == out;
  }

  /** replace_constructors: constructor_json of every constructor. */
  method ReplaceConstructors(loads: Decoder, params: Params, cs: seq<Constructor>) returns (ok: bool)
    requires Distinct(cs)
    modifies set c | c in cs
    ensures (JsonsOf(cs), ok) == ReplaceEachFrom(loads, params, "constructor_json", old(JsonsOf(cs)), 0)
  {
    var i := 0;
    while i < |cs|
      invariant 0 <= i <= |cs|
      invariant ReplaceEachFrom(loads, params, "constructor_json", old(JsonsOf(cs)), 0)
             == ReplaceEachFrom(loads, params, "constructor_json", JsonsOf(cs), i)
    {
      ghost var prev := JsonsOf(cs);
      JsonsOfFields(cs);
      var out, stepOk := ReplaceCls(loads, params, ["constructor_json"], [cs[i].constructorJson]);
      cs[i].constructorJson := out[0];
      JsonsOfFields(cs);
      assert JsonsOf(cs) == prev[i := out[0]];
      if !stepOk {
        return false;
      }
      i := i + 1;
    }
    return true;
  }

  /** replace_asserts: the expected side of every assertion. */
  method ReplaceAsserts(loads: Decoder, params: Params, asserts: seq<Assertion>) returns (ok: bool)
    requires Distinct(asserts)
    modifies set a | a in asserts
    ensures (ExpectedOf(asserts), ok) == ReplaceEachFrom(loads, params, "expected", old(ExpectedOf(asserts)), 0)
  {
    var i := 0;
    while i < |asserts|
      invariant 0 <= i <= |asserts|
      invariant ReplaceEachFrom(loads, params, "expected", old(ExpectedOf(asserts)), 0)
             == ReplaceEachFrom(loads, params, "expected", ExpectedOf(asserts), i)
    {
      ghost var prev := ExpectedOf(asserts);
      ExpectedOfFields(asserts);
      var out, stepOk := ReplaceCls(loads, params, ["expected"], [asserts[i].expected]);
      asserts[i].expected := out[0];
      ExpectedOfFields(asserts);
      assert ExpectedOf(asserts) == prev[i := out[0]];
      if !stepOk {
        return false;
      }
      i := i + 1;
    }
    return true;
  }

  /** replace_args on the values of the rewritten attributes: the case's
      fields, then each constructor_json, then each expected; a stage that
      raises leaves the later stages as they were. */
  function ReplaceArgsSpec(loads: Decoder, params: Params, fields: seq<Option<string>>,
                           jsons: seq<Option<string>>, expected: seq<Option<string>>)
    : (seq<Option<string>>, seq<Option<string>>, seq<Option<string>>, bool)
    requires |fields| == |CaseFieldNames|
  {
    var t := ReplaceClsSpec(loads, params, CaseFieldNames, fields);
    if !t.1 then (t.0, jsons, expected, false)
    else
      var c := ReplaceEachFrom(loads, params, "constructor_json", jsons, 0);
      if !c.1 then (t.0, c.0, expected, false)
      else
        var e := ReplaceEachFrom(loads, params, "expected", expected, 0);
        (t.0, c.0, e.0, e.1)
  }

  /** With no parameters, every object's field is kept and the loop
      completes. */
  lemma {:induction false} EachNoParams(loads: Decoder, name: string, vals: seq<Option<string>>, i: nat)
    requires i <= |vals|
    ensures ReplaceEachFrom(loads, [], name, vals, i) == (vals, true)
    decreases |vals| - i
  {
    if i < |vals| {
      NoParamsNoChange(loads, [name], [vals[i]]);
      assert vals[i := vals[i]] == vals;
      EachNoParams(loads, name, vals, i + 1);
    }
  }

  /** With no parameters, replace_args completes and leaves the case, every
      constructor and every assertion as they were. */
  lemma ReplaceArgsNoParams(loads: Decoder, fields: seq<Option<string>>,
                            jsons: seq<Option<string>>, expected: seq<Option<string>>)
    requires |fields| == |CaseFieldNames|
    ensures ReplaceArgsSpec(loads, [], fields, jsons, expected) == (fields, jsons, expected, true)
  {
    NoParamsNoChange(loads, CaseFieldNames, fields);
    EachNoParams(loads, "constructor_json", jsons, 0);
    EachNoParams(loads, "expected", expected, 0);
  }

  /** replace_args: the case, then its constructors, then its assertions. */
  method ReplaceArgs(loads: Decoder, params: Params, tc: TestCase, cs: seq<Constructor>, asserts: seq<Assertion>)
    returns (ok: bool)
    requires Distinct(cs) && Distinct(asserts)
    modifies tc, set c | c in cs, set a | a in asserts
    ensures (tc.Rewritable(), JsonsOf(cs), ExpectedOf(asserts), ok)
         == ReplaceArgsSpec(loads, params, old(tc.Rewritable()), old(JsonsOf(cs)), old(ExpectedOf(asserts)))
  {
    ok := ReplaceTestcase(loads, params, tc);
    if !ok {
      return;
    }
    ok := ReplaceConstructors(loads, params, cs);
    if !ok {
      return;
    }
    ok := ReplaceAsserts(loads, params, asserts);
  }
}
