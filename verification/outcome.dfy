/** What a finished case contributes to a report (app/core/executor.py,
    run_with_test_data and run_multiple): a status code per run, collected
    per case id, counted into ok / failed / error / skipped, and the plan
    verdict drawn from the counts. */
module Outcome {
  import opened Wrappers
  import opened Json
  import Dicts

  /** run_with_test_data: 2 when run reported an error, otherwise 0 when the
      response's `status` entry is truthy and 1 when it is not. */
  function Classify(err: Option<string>, status: JValue): (r: int)
    ensures 0 <= r <= 2
    ensures r == 2 <==> err.Some?
    ensures r == 0 <==> err.None? && Truthy(status)
  {
    if err.Some? then 2 else if Truthy(status) then 0 else 1
  }

  /** `data[case_id].append(status)` on a `defaultdict(list)`. */
  function AppendStatus(t: Dicts.Dict<int, seq<int>>, caseId: int, s: int): Dicts.Dict<int, seq<int>>
  {
    Dicts.Put(t, caseId, Dicts.Get(t, caseId).GetOr([]) + [s])
  }

  /** The `result_data` table shared by the runs of one report. */
  class ResultData {
    var data: Dicts.Dict<int, seq<int>>

    constructor ()
      ensures data == []
    {
      data := [];
    }

    method Append(caseId: int, s: int)
      modifies this
      ensures data == AppendStatus(old(data), caseId, s)
    {
      var prev := Dicts.Get(data, caseId);
      var list := if prev.Some? then prev.value else [];
      data := Dicts.Put(data, caseId, list + [s]);
    }
  }

  /** The statuses of all runs, case after case in table order. */
  function Flatten(t: Dicts.Dict<int, seq<int>>): seq<int>
  {
    if t == [] then [] else t[0].1 + Flatten(t[1..])
  }

  /** How often code `c` occurs in a list of statuses. */
  function Occ(xs: seq<int>, c: int): nat
  {
    if xs == [] then 0 else (if xs[0] == c then 1 else 0) + Occ(xs[1..], c)
  }

  lemma {:induction false} OccConcat(a: seq<int>, b: seq<int>, c: int)
    ensures Occ(a + b, c) == Occ(a, c) + Occ(b, c)
  {
    if a == [] {
      assert a + b == b;
    } else {
      assert (a + b)[0] == a[0];
      assert (a + b)[1..] == a[1..] + b;
      OccConcat(a[1..], b, c);
    }
  }

  lemma {:induction false} FlattenPut(t: Dicts.Dict<int, seq<int>>, k: int, v: seq<int>, c: int)
    ensures Occ(Flatten(Dicts.Put(t, k, v)), c) ==
            Occ(Flatten(t), c) - Occ(Dicts.Get(t, k).GetOr([]), c) + Occ(v, c)
  {
    if t == [] {
      assert Flatten([(k, v)]) == v + [];
      assert v + [] == v;
    } else if t[0].0 == k {
      OccConcat(v, Flatten(t[1..]), c);
      OccConcat(t[0].1, Flatten(t[1..]), c);
      assert ([(k, v)] + t[1..])[1..] == t[1..];
    } else {
      FlattenPut(t[1..], k, v, c);
      OccConcat(t[0].1, Flatten(Dicts.Put(t[1..], k, v)), c);
      OccConcat(t[0].1, Flatten(t[1..]), c);
      assert ([t[0]] + Dicts.Put(t[1..], k, v))[1..] == Dicts.Put(t[1..], k, v);
      assert Flatten(t[1..]) == Flatten(t[1..]);
      assert Occ(Dicts.Get(t[1..], k).GetOr([]), c) <= Occ(Flatten(t[1..]), c) by {
        GetWithin(t[1..], k, c);
      }
    }
  }

  lemma {:induction false} GetWithin(t: Dicts.Dict<int, seq<int>>, k: int, c: int)
    ensures Occ(Dicts.Get(t, k).GetOr([]), c) <= Occ(Flatten(t), c)
  {
    if t != [] {
      OccConcat(t[0].1, Flatten(t[1..]), c);
      if t[0].0 != k {
        GetWithin(t[1..], k, c);
      }
    }
  }

  /** Recording a run adds exactly its status to the statuses of the
      report. */
  lemma AppendAddsOne(t: Dicts.Dict<int, seq<int>>, caseId: int, s: int, c: int)
    ensures Occ(Flatten(AppendStatus(t, caseId, s)), c) == Occ(Flatten(t), c) + (if s == c then 1 else 0)
  {
    var prev := Dicts.Get(t, caseId).GetOr([]);
    FlattenPut(t, caseId, prev + [s], c);
    OccConcat(prev, [s], c);
    GetWithin(t, caseId, c);
  }

  /** run_with_test_data's bookkeeping: classify the run and file its
      status under the case id. */
  method RecordRun(rd: ResultData, caseId: int, err: Option<string>, status: JValue)
    modifies rd
    ensures rd.data == AppendStatus(old(rd.data), caseId, Classify(err, status))
  {
    var code := if err.Some? then 2 else if Truthy(status) then 0 else 1;
    rd.Append(caseId, code);
  }

  datatype Counts = Counts(ok: nat, fail: nat, error: nat, skip: nat)

  function Total(c: Counts): nat
  {
    c.ok + c.fail + c.error + c.skip
  }

  /** One status through the if/elif chain of the counting loop: any code
      other than 0, 1 and 2 counts as skipped. */
  function Bump(c: Counts, s: int): Counts
  {
    if s == 0 then c.(ok := c.ok + 1)
    else if s == 1 then c.(fail := c.fail + 1)
    else if s == 2 then c.(error := c.error + 1)
    else c.(skip := c.skip + 1)
  }

  /** The counts of a list of statuses. */
  function CountAll(xs: seq<int>): Counts
  {
    if xs == [] then Counts(0, 0, 0, 0) else Bump(CountAll(xs[1..]), xs[0])
  }

  /** Every status is counted exactly once. */
  lemma {:induction false} CountTotal(xs: seq<int>)
    ensures Total(CountAll(xs)) == |xs|
  {
    if xs != [] {
      CountTotal(xs[1..]);
    }
  }

  /** Counting one more status at the end, as the loop does. */
  lemma {:induction false} CountSnoc(xs: seq<int>, s: int)
    ensures CountAll(xs + [s]) == Bump(CountAll(xs), s)
  {
    if xs == [] {
      assert [] + [s] == [s];
      assert [s][1..] == [];
    } else {
      assert (xs + [s])[0] == xs[0];
      assert (xs + [s])[1..] == xs[1..] + [s];
      CountSnoc(xs[1..], s);
    }
  }

  /** The counters are the number of occurrences of each code; everything
      else is counted as skipped. */
  lemma {:induction false} CountsAreOccurrences(xs: seq<int>)
    ensures CountAll(xs).ok == Occ(xs, 0)
    ensures CountAll(xs).fail == Occ(xs, 1)
    ensures CountAll(xs).error == Occ(xs, 2)
  {
    if xs != [] {
      CountsAreOccurrences(xs[1..]);
    }
  }

  /** Recording a run bumps exactly the counter of its status. */
  lemma AppendBumps(t: Dicts.Dict<int, seq<int>>, caseId: int, s: int)
    ensures CountAll(Flatten(AppendStatus(t, caseId, s))) == Bump(CountAll(Flatten(t)), s)
  {
    var xs := Flatten(t);
    var ys := Flatten(AppendStatus(t, caseId, s));
    AppendAddsOne(t, caseId, s, 0);
    AppendAddsOne(t, caseId, s, 1);
    AppendAddsOne(t, caseId, s, 2);
    CountsAreOccurrences(xs);
    CountsAreOccurrences(ys);
    CountTotal(xs);
    CountTotal(ys);
    AppendLength(t, caseId, s);
  }

  lemma {:induction false} FlattenPutLength(t: Dicts.Dict<int, seq<int>>, k: int, v: seq<int>)
    ensures |Flatten(Dicts.Put(t, k, v))| == |Flatten(t)| - |Dicts.Get(t, k).GetOr([])| + |v|
    ensures |Dicts.Get(t, k).GetOr([])| <= |Flatten(t)|
  {
    if t == [] {
      assert Flatten([(k, v)]) == v + [];
    } else if t[0].0 == k {
      assert ([(k, v)] + t[1..])[1..] == t[1..];
    } else {
      FlattenPutLength(t[1..], k, v);
      assert ([t[0]] + Dicts.Put(t[1..], k, v))[1..] == Dicts.Put(t[1..], k, v);
    }
  }

  lemma AppendLength(t: Dicts.Dict<int, seq<int>>, caseId: int, s: int)
    ensures |Flatten(AppendStatus(t, caseId, s))| == |Flatten(t)| + 1
  {
    FlattenPutLength(t, caseId, Dicts.Get(t, caseId).GetOr([]) + [s]);
  }

  /** The counting loop of run_multiple, over every case and every run. */
  method CountStatuses(t: Dicts.Dict<int, seq<int>>) returns (ok: nat, fail: nat, skip: nat, error: nat)
    ensures Counts(ok, fail, error, skip) == CountAll(Flatten(t))
  {
    ok, fail, skip, error := 0, 0, 0, 0;
    ghost var seen: seq<int> := [];
    var i := 0;
    while i < |t|
      invariant 0 <= i <= |t|
      invariant Flatten(t) == seen + Flatten(t[i..])
      invariant Counts(ok, fail, error, skip) == CountAll(seen)
    {
      var status := t[i].1;
      assert t[i..][1..] == t[i + 1..];
      var j := 0;
      assert seen + status[..0] == seen;
      while j < |status|
        invariant 0 <= j <= |status|
        invariant Counts(ok, fail, error, skip) == CountAll(seen + status[..j])
      {
        var s := status[j];
        assert seen + status[..j + 1] == (seen + status[..j]) + [s];
        CountSnoc(seen + status[..j], s);
        if s == 0 {
          ok := ok + 1;
        } else if s == 1 {
          fail := fail + 1;
        } else if s == 2 {
          error := error + 1;
        } else {
          skip := skip + 1;
        }
        j := j + 1;
      }
      assert status[..j] == status;
      assert seen + Flatten(t[i..]) == (seen + status) + Flatten(t[i + 1..]);
      seen := seen + status;
      i := i + 1;
    }
    assert t[i..] == [];
    assert seen + [] == seen;
  }

  /** The plan verdict: passed when something ran and nothing failed or
      errored. */
  predicate PlanPassed(c: Counts)
  {
    Total(c) > 0 && c.fail + c.error == 0
  }

  lemma {:induction false} OccZero(xs: seq<int>, c: int)
    ensures Occ(xs, c) == 0 <==> forall k :: 0 <= k < |xs| ==> xs[k] != c
  {
    if xs != [] {
      OccZero(xs[1..], c);
      assert forall k :: 1 <= k < |xs| ==> xs[k] == xs[1..][k - 1];
    }
  }

  /** A plan passes exactly when at least one status was recorded and none
      is a failure or an error; statuses outside 0..2 do not stop it. */
  lemma PlanVerdict(xs: seq<int>)
    ensures PlanPassed(CountAll(xs)) <==> xs != [] && forall k :: 0 <= k < |xs| ==> xs[k] != 1 && xs[k] != 2
  {
    CountsAreOccurrences(xs);
    CountTotal(xs);
    OccZero(xs, 1);
    OccZero(xs, 2);
  }

  /** Statuses produced by classification are never counted as skipped. */
  lemma ClassifiedNeverSkipped(xs: seq<int>)
    requires forall k :: 0 <= k < |xs| ==> 0 <= xs[k] <= 2
    ensures CountAll(xs).skip == 0
  {
    CountsAreOccurrences(xs);
    CountTotal(xs);
    SkipZero(xs);
  }

  lemma {:induction false} SkipZero(xs: seq<int>)
    requires forall k :: 0 <= k < |xs| ==> 0 <= xs[k] <= 2
    ensures |xs| == Occ(xs, 0) + Occ(xs, 1) + Occ(xs, 2)
  {
    if xs != [] {
      assert forall k :: 0 <= k < |xs[1..]| ==> xs[1..][k] == xs[k + 1];
      SkipZero(xs[1..]);
    }
  }
}
