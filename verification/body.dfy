/** replace_body (app/core/executor.py): the request parameters a caller
    passes in overwrite the top-level keys of a JSON body that already hold a
    non-null value. */
module Body {
  import opened Wrappers
  import opened Json
  import Dicts

  /** `Config.BodyType.json`, the default of replace_body's `body_type`. */
  const JsonBodyType := 1

  /** One turn of the loop: `if data.get(k) is not None: data[k] = v`. */
  function Overwrite(ms: Dicts.Dict<string, JValue>, kv: (string, JValue)): Dicts.Dict<string, JValue>
  {
    if Member(ms, kv.0) != JNull then Dicts.Put(ms, kv.0, kv.1) else ms
  }

  /** The whole loop over `req_params.items()`, in their order.  The body's
      keys and their order never change. */
  function Rewritten(ms: Dicts.Dict<string, JValue>, req: Dicts.Dict<string, JValue>): (r: Dicts.Dict<string, JValue>)
    ensures Dicts.Keys(r) == Dicts.Keys(ms)
    decreases |req|
  {
    if req == [] then ms else Rewritten(Overwrite(ms, req[0]), req[1..])
  }

  /** What replace_body returns.  `reqParams` is None when the caller passed
      no request parameters; the `AttributeError` of `None.items()` is caught
      and the body comes back as it was, as does any other exception (a body
      that is not JSON, a decoded value that is not a dict while there are
      parameters to apply). */
  function ReplaceBodySpec(loads: Decoder, reqParams: Option<Dicts.Dict<string, JValue>>, body: Option<string>,
                           bodyType: int): Option<string>
  {
    if bodyType != JsonBodyType then body
    else if body.None? || body.value == "" then body
    else match loads(body.value)
      case None => body
      case Some(data) =>
        if reqParams.None? then body
        else if reqParams.value == [] then Some(Dumps(data))
        else if !data.JObj? then body
        else Some(Dumps(JObj(Rewritten(data.members, reqParams.value))))
  }

  method ReplaceBody(loads: Decoder, reqParams: Option<Dicts.Dict<string, JValue>>, body: Option<string>, bodyType: int)
    returns (r: Option<string>)
    ensures r == ReplaceBodySpec(loads, reqParams, body, bodyType)
  {
    if bodyType != JsonBodyType {
      return body;
    }
    if body.None? || body.value == "" {
      return body;
    }
    var decoded := loads(body.value);
    if decoded.None? || reqParams.None? {
      return body;
    }
    var data := decoded.value;
    var req := reqParams.value;
    if req == [] {
      return Some(Dumps(data));
    }
    if !data.JObj? {
      return body;
    }
    var ms := data.members;
    var i := 0;
    while i < |req|
      invariant 0 <= i <= |req|
      invariant Rewritten(data.members, req) == Rewritten(ms, req[i..])
    {
      assert req[i..][1..] == req[i + 1..];
      ms := Overwrite(ms, req[i]);
      i := i + 1;
    }
    assert req[i..] == [];
    return Some(Dumps(JObj(ms)));
  }

  /** The value an entry of the body ends up with. */
  function Expected(e: (string, JValue), req: Dicts.Dict<string, JValue>): JValue
  {
    if e.1 != JNull && e.0 in Dicts.Keys(req) then Dicts.Get(req, e.0).value else e.1
  }

  /** Membership and lookup in the parameters, for a key other than the
      first one, are those of the rest. */
  lemma OtherKey(req: Dicts.Dict<string, JValue>, x: string)
    requires req != [] && x != req[0].0
    ensures (x in Dicts.Keys(req)) == (x in Dicts.Keys(req[1..]))
    ensures Dicts.Get(req, x) == Dicts.Get(req[1..], x)
  {
    assert Dicts.Keys(req) == [req[0].0] + Dicts.Keys(req[1..]);
  }

  lemma StepEntry(ms: Dicts.Dict<string, JValue>, req: Dicts.Dict<string, JValue>, p: nat)
    requires Dicts.UniqueKeys(ms) && req != [] && req[0].0 !in Dicts.Keys(req[1..]) && p < |ms|
    ensures var ms' := Overwrite(ms, req[0]);
            |ms'| == |ms| && ms'[p].0 == ms[p].0 && Expected(ms'[p], req[1..]) == Expected(ms[p], req)
  {
    var k := req[0].0;
    if Member(ms, k) != JNull {
      var q :| 0 <= q < |ms| && ms[q].0 == k;
      Dicts.GetUnique(ms, q);
      Dicts.PutAt(ms, q, req[0].1);
      if p == q {
        StepWritten(ms, req, p);
      } else {
        StepOther(ms, req, p, q);
      }
    } else if ms[p].0 == k {
      Dicts.GetUnique(ms, p);
    } else {
      OtherKey(req, ms[p].0);
    }
  }

  /** The entry the parameter overwrites. */
  lemma StepWritten(ms: Dicts.Dict<string, JValue>, req: Dicts.Dict<string, JValue>, p: nat)
    requires req != [] && req[0].0 !in Dicts.Keys(req[1..]) && p < |ms|
    requires ms[p].0 == req[0].0 && ms[p].1 != JNull
    requires Overwrite(ms, req[0]) == ms[p := req[0]]
    ensures Expected(Overwrite(ms, req[0])[p], req[1..]) == Expected(ms[p], req)
  {
    assert Dicts.Keys(req)[0] == req[0].0;
  }

  /** An entry the parameter does not touch. */
  lemma StepOther(ms: Dicts.Dict<string, JValue>, req: Dicts.Dict<string, JValue>, p: nat, q: nat)
    requires req != [] && p < |ms| && q < |ms| && p != q
    requires Dicts.UniqueKeys(ms) && ms[q].0 == req[0].0
    requires Overwrite(ms, req[0]) == ms[q := req[0]]
    ensures Expected(Overwrite(ms, req[0])[p], req[1..]) == Expected(ms[p], req)
  {
    OtherKey(req, ms[p].0);
  }

  /** Entry by entry: a body key keeps its place and gets the parameter's
      value exactly when the parameters hold that key and the body's value
      was not null; every other entry is unchanged.  Both dicts are real
      Python dicts, so neither repeats a key. */
  lemma {:induction false} RewrittenEntries(ms: Dicts.Dict<string, JValue>, req: Dicts.Dict<string, JValue>)
    requires Dicts.UniqueKeys(ms) && Dicts.UniqueKeys(req)
    ensures var r := Rewritten(ms, req);
            |r| == |ms| && forall p :: 0 <= p < |ms| ==> r[p] == (ms[p].0, Expected(ms[p], req))
    decreases |req|
  {
    if req != [] {
      var ms' := Overwrite(ms, req[0]);
      Dicts.UniqueTail(req);
      assert req[0].0 !in Dicts.Keys(req[1..]) by {
        forall j | 0 <= j < |req[1..]| ensures req[1..][j].0 != req[0].0 {
          assert req[1..][j] == req[j + 1];
        }
      }
      assert Dicts.Keys(ms') == Dicts.Keys(ms);
      assert Dicts.UniqueKeys(ms') by {
        forall a, b | 0 <= a < b < |ms'| ensures ms'[a].0 != ms'[b].0 {
          assert ms'[a].0 == Dicts.Keys(ms')[a] && ms'[b].0 == Dicts.Keys(ms')[b];
        }
      }
      RewrittenEntries(ms', req[1..]);
      forall p | 0 <= p < |ms| ensures Rewritten(ms, req)[p] == (ms[p].0, Expected(ms[p], req)) {
        StepEntry(ms, req, p);
      }
    }
  }

  /** Only the JSON body type is rewritten. */
  lemma OtherBodyTypesUntouched(loads: Decoder, reqParams: Option<Dicts.Dict<string, JValue>>, body: Option<string>,
                                bodyType: int)
    requires bodyType != JsonBodyType
    ensures ReplaceBodySpec(loads, reqParams, body, bodyType) == body
  {
  }

  /** A body that is not valid JSON is passed through as it was. */
  lemma UndecodableUntouched(loads: Decoder, reqParams: Option<Dicts.Dict<string, JValue>>, body: string)
    requires loads(body) == None
    ensures ReplaceBodySpec(loads, reqParams, Some(body), JsonBodyType) == Some(body)
  {
  }

  /** With an empty parameter dict the body is still decoded and dumped
      again, so it comes back in `json.dumps` form. */
  lemma EmptyParamsRedumped(loads: Decoder, body: string, data: JValue)
    requires body != "" && loads(body) == Some(data)
    ensures ReplaceBodySpec(loads, Some([]), Some(body), JsonBodyType) == Some(Dumps(data))
  {
  }

  /** A parameter whose key the body lacks, or holds as null, is not added. */
  lemma NullOrMissingNotAdded(ms: Dicts.Dict<string, JValue>, k: string, v: JValue)
    requires Member(ms, k) == JNull
    ensures Rewritten(ms, [(k, v)]) == ms
  {
  }

  /** A concrete body: `{"a": 1, "b": null}` with parameters
      `{"a": 2, "b": 3, "c": 4}` becomes `{"a": 2, "b": null}`. */
  lemma ExampleBody(loads: Decoder)
    requires loads("{\"a\": 1, \"b\": null}") == Some(JObj([("a", JInt(1)), ("b", JNull)]))
    ensures ReplaceBodySpec(loads, Some([("a", JInt(2)), ("b", JInt(3)), ("c", JInt(4))]),
                            Some("{\"a\": 1, \"b\": null}"), JsonBodyType)
         == Some("{\"a\": 2, \"b\": null}")
  {
    ExampleRewrite();
    ExampleDump();
  }

  lemma ExampleDump()
    ensures Dumps(JObj([("a", JInt(2)), ("b", JNull)])) == "{\"a\": 2, \"b\": null}"
  {
    var r := [("a", JInt(2)), ("b", JNull)];
    DumpsPair(r);
    ExamplePieces();
  }

  lemma ExamplePieces()
    ensures Quote("a") + ": " + Dumps(JInt(2)) == "\"a\": 2"
    ensures Quote("b") + ": " + Dumps(JNull) == "\"b\": null"
  {
    assert Escape("a") == "a" && Escape("b") == "b";
    assert NatText(2) == "2";
  }

  /** The text of a two-entry object. */
  lemma DumpsPair(r: Dicts.Dict<string, JValue>)
    requires |r| == 2
    ensures Dumps(JObj(r)) == "{" + (Quote(r[0].0) + ": " + Dumps(r[0].1)) + ", " + (Quote(r[1].0) + ": " + Dumps(r[1].1)) + "}"
  {
    var pieces := seq(|r|, k requires 0 <= k < |r| => Quote(r[k].0) + ": " + Dumps(r[k].1));
    assert pieces[1..] == [pieces[1]];
    assert CommaJoin(pieces) == pieces[0] + ", " + pieces[1];
  }

  lemma ExampleRewrite()
    ensures Rewritten([("a", JInt(1)), ("b", JNull)], [("a", JInt(2)), ("b", JInt(3)), ("c", JInt(4))])
         == [("a", JInt(2)), ("b", JNull)]
  {
    var ms := [("a", JInt(1)), ("b", JNull)];
    var req := [("a", JInt(2)), ("b", JInt(3)), ("c", JInt(4))];
    var m1 := [("a", JInt(2)), ("b", JNull)];
    assert Member(ms, "a") == JInt(1);
    assert Overwrite(ms, req[0]) == m1;
    assert Member(m1, "b") == JNull;
    assert Member(m1, "c") == JNull;
    assert req[1..][1..] == [req[2]];
  }
}
