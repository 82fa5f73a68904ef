/** How every promise of the `events.on` iterator ends, said of the steps of a run and of what the promises before have
    been settled with. */
module EventsOnLaw {
  import opened EventsOn

  type Outcome = map<nat, Settlement>

  /** What the promises have been settled with after the first k steps. */
  function Outcomes(errors: bool, aborted: Failure, steps: seq<Step>, k: nat): (m: Outcome)
    requires k <= |steps|
  {
    Run(Start(errors, aborted), steps, k).settled
  }

  // ---------- Said of steps and outcomes ----------

  /** Step k is an error that the iterator hears. */
  predicate Heard(errors: bool, steps: seq<Step>, k: nat)
    requires k < |steps|
  {
    steps[k].Error? && errors && !ReturnedBefore(steps, k)
  }

  /** The iteration has come to its end before step k. */
  predicate Ended(errors: bool, aborted: Failure, steps: seq<Step>, k: nat)
    requires k <= |steps|
  {
    if k == 0 then aborted.Failure?
    else
      var last := steps[k - 1];
      || last.Close? || last.Return? || last.Abort? || Heard(errors, steps, k - 1)
      || Ended(errors, aborted, steps, k - 1)
  }

  /** p is a call that has no outcome yet. */
  ghost predicate Waits(m: Outcome, calls: nat, p: nat)
  {
    p < calls && p !in m
  }

  ghost predicate NobodyWaits(m: Outcome, calls: nat)
  {
    forall p :: 0 <= p < calls ==> p in m
  }

  /** The earliest such call. */
  ghost predicate WaitsFirst(m: Outcome, calls: nat, p: nat)
  {
    Waits(m, calls, p) && forall q :: 0 <= q < p ==> q in m
  }

  /** The calls that have got a payload. */
  ghost function Served(m: Outcome): (r: set<nat>)
  {
    set p | p in m && m[p].Value?
  }

  /** Step k leaves an error for a later call: an abort, or an error that finds nobody waiting. */
  ghost predicate Leaves(errors: bool, aborted: Failure, steps: seq<Step>, k: nat, e: Reason)
    requires k < |steps|
  {
    || steps[k] == Abort(e)
    || (Heard(errors, steps, k) && steps[k].reason == e
        && NobodyWaits(Outcomes(errors, aborted, steps, k), Calls(steps, k)))
  }

  ghost predicate LeavesAny(errors: bool, aborted: Failure, steps: seq<Step>, k: nat)
    requires k < |steps|
  {
    exists e :: Leaves(errors, aborted, steps, k, e)
  }

  /** Step k is a call that got a payload at once, or something else than a call. */
  ghost predicate Passes(errors: bool, aborted: Failure, steps: seq<Step>, k: nat)
    requires k < |steps|
  {
    steps[k].Next? ==>
      var m, p := Outcomes(errors, aborted, steps, k + 1), Calls(steps, k);
      p in m && m[p].Value?
  }

  /** Since the first j steps no error was left, and all calls got payloads. */
  ghost predicate Untouched(errors: bool, aborted: Failure, steps: seq<Step>, j: nat, k: nat)
    requires k <= |steps|
  {
    forall i :: j <= i < k ==> !LeavesAny(errors, aborted, steps, i) && Passes(errors, aborted, steps, i)
  }

  /** The error e, left by step j - 1 or there from the start, has not been handed out before step k. */
  ghost predicate LeftBy(errors: bool, aborted: Failure, steps: seq<Step>, j: nat, k: nat, e: Reason)
    requires k <= |steps|
  {
    && j <= k && (if j == 0 then aborted == Failure(e) else Leaves(errors, aborted, steps, j - 1, e))
    && Untouched(errors, aborted, steps, j, k)
  }

  ghost predicate Left(errors: bool, aborted: Failure, steps: seq<Step>, k: nat, e: Reason)
    requires k <= |steps|
  {
    exists j: nat :: LeftBy(errors, aborted, steps, j, k, e)
  }

  /** All calls that wait are settled with r, nothing else changes. */
  ghost predicate AllEnd(m: Outcome, m': Outcome, calls: nat, r: Settlement)
  {
    && (forall p: nat :: p in m' <==> p < calls || p in m)
    && (forall p :: p in m' ==> m'[p] == if p in m then m[p] else r)
  }

  /** The call that has waited longest is settled with r, nothing else changes; without one nothing changes. */
  ghost predicate FirstEnds(m: Outcome, m': Outcome, calls: nat, r: Settlement)
  {
    && (NobodyWaits(m, calls) ==> m' == m)
    && (forall p :: WaitsFirst(m, calls, p) ==> m' == m[p := r])
  }

  /** A call takes the next payload that nobody got, else the error that was left, else the end of the iteration, and
      waits when there is none of them. */
  ghost predicate NextLaw(errors: bool, aborted: Failure, steps: seq<Step>, k: nat)
    requires k < |steps|
  {
    var m, m', p := Outcomes(errors, aborted, steps, k), Outcomes(errors, aborted, steps, k + 1), Calls(steps, k);
    var sent, got := Emissions(steps, k), |Served(m)|;
    && (got < |sent| ==> m' == m[p := Value(sent[got])])
    && (got >= |sent| ==> forall e :: Left(errors, aborted, steps, k, e) ==> m' == m[p := Rejected(e)])
    && (got >= |sent| && (forall e :: !Left(errors, aborted, steps, k, e)) ==>
          m' == if Ended(errors, aborted, steps, k) then m[p := Finished] else m)
  }

  /** What step k does to the promises. */
  ghost predicate StepLaw(errors: bool, aborted: Failure, steps: seq<Step>, k: nat)
    requires k < |steps|
  {
    var m, m', calls := Outcomes(errors, aborted, steps, k), Outcomes(errors, aborted, steps, k + 1), Calls(steps, k);
    match steps[k]
    case Event(v) => if ReturnedBefore(steps, k) then m' == m else FirstEnds(m, m', calls, Value(v))
    case Error(e) => if Heard(errors, steps, k) then FirstEnds(m, m', calls, Rejected(e)) else m' == m
    case Abort(e) => AllEnd(m, m', calls, Rejected(e))
    case Close => AllEnd(m, m', calls, Finished)
    case Return => AllEnd(m, m', calls + 1, Finished)
    case Next => NextLaw(errors, aborted, steps, k)
  }

  // ---------- Waiting calls ----------

  lemma {:induction false} WaitersWait(s: State)
    requires Meets(s)
    ensures NobodyWaits(s.settled, s.promises) <==> s.waiters == []
    ensures forall p :: Waits(s.settled, s.promises, p) <==> p in s.waiters
    ensures s.waiters != [] ==> WaitsFirst(s.settled, s.promises, s.waiters[0])
  {
    if s.waiters != [] {
      var w := s.waiters[0];
      assert w in s.waiters;
      forall q | 0 <= q < w
        ensures q in s.settled
      {
        if q in s.waiters { var i :| 0 <= i < |s.waiters| && s.waiters[i] == q; }
      }
    }
  }

  lemma {:induction false} OneFirst(m: Outcome, calls: nat, p: nat, q: nat)
    requires WaitsFirst(m, calls, p) && WaitsFirst(m, calls, q)
    ensures p == q
  {
  }

  lemma {:induction false} FirstSettled(s: State, r: Settlement)
    requires Meets(s)
    ensures var m := if s.waiters == [] then s.settled else s.settled[s.waiters[0] := r];
            FirstEnds(s.settled, m, s.promises, r)
  {
    hide Meets;
    WaitersWait(s);
    var m := if s.waiters == [] then s.settled else s.settled[s.waiters[0] := r];
    forall p | WaitsFirst(s.settled, s.promises, p)
      ensures m == s.settled[p := r]
    {
      assert Waits(s.settled, s.promises, p);
      OneFirst(s.settled, s.promises, p, s.waiters[0]);
    }
  }

  lemma {:induction false} AllSettledEnd(s: State, r: Settlement)
    requires Meets(s)
    ensures AllEnd(s.settled, SettleAll(s.settled, s.waiters, |s.waiters|, r), s.promises, r)
  {
    hide Meets, SettleAll, Waits;
    var m := SettleAll(s.settled, s.waiters, |s.waiters|, r);
    SettlesAll(s.settled, s.waiters, r);
    WaitersWait(s);
    forall p: nat
      ensures p in m <==> p < s.promises || p in s.settled
      ensures p in m ==> m[p] == if p in s.settled then s.settled[p] else r
    {
      IsWaiter(s, p);
    }
  }

  lemma {:induction false} IsWaiter(s: State, p: nat)
    requires Meets(s)
    ensures p in s.waiters <==> p < s.promises && p !in s.settled
  {
    if p in s.waiters { var i :| 0 <= i < |s.waiters| && s.waiters[i] == p; }
  }

  // ---------- Payloads ----------

  function IdSet(d: seq<(nat, Payload)>, n: nat): (r: set<nat>)
    requires n <= |d|
  {
    if n == 0 then {} else IdSet(d, n - 1) + {d[n - 1].0}
  }

  lemma {:induction false} InIdSet(d: seq<(nat, Payload)>, n: nat, p: nat)
    requires n <= |d|
    ensures p in IdSet(d, n) <==> exists i :: 0 <= i < n && d[i].0 == p
  {
    if n > 0 { InIdSet(d, n - 1, p); }
  }

  lemma {:induction false} IdSetSize(d: seq<(nat, Payload)>, n: nat)
    requires n <= |d| && Increasing(Ids(d))
    ensures |IdSet(d, n)| == n
  {
    hide Ids;
    if n > 0 {
      IdSetSize(d, n - 1);
      InIdSet(d, n - 1, d[n - 1].0);
      forall i | 0 <= i < n - 1
        ensures d[i].0 != d[n - 1].0
      {
        assert Ids(d)[i] < Ids(d)[n - 1];
      }
    }
  }

  /** As many calls have got payloads as payloads have been delivered. */
  lemma {:induction false} ServedCount(s: State)
    requires InOrder(s)
    ensures |Served(s.settled)| == |s.delivered|
  {
    hide Ids, Payloads, IdSet, Increasing;
    var d := s.delivered;
    IdSetSize(d, |d|);
    forall p: nat
      ensures p in Served(s.settled) <==> p in IdSet(d, |d|)
    {
      InIdSet(d, |d|, p);
      if p in Served(s.settled) {
        var i :| 0 <= i < |d| && d[i] == (p, s.settled[p].payload);
      }
      if p in IdSet(d, |d|) {
        var i :| 0 <= i < |d| && d[i].0 == p;
        assert Got(s, d[i]);
      }
    }
    assert Served(s.settled) == IdSet(d, |d|);
  }

  lemma {:induction false} QueueIsRest(s: State)
    requires InOrder(s)
    ensures |s.delivered| <= |s.emitted| && s.queue == s.emitted[|s.delivered|..]
  {
  }

  // ---------- Errors that were left ----------

  ghost predicate Tracks(errors: bool, aborted: Failure, steps: seq<Step>, k: nat)
    requires k <= |steps|
  {
    var s := Run(Start(errors, aborted), steps, k);
    && s.errors == errors && s.done == Ended(errors, aborted, steps, k)
    && (forall e :: s.pending == Failure(e) <==> Left(errors, aborted, steps, k, e))
  }

  lemma {:induction false} LeftAtStart(errors: bool, aborted: Failure, steps: seq<Step>, e: Reason)
    ensures Left(errors, aborted, steps, 0, e) <==> aborted == Failure(e)
  {
    hide Leaves, Passes;
    if aborted == Failure(e) { assert LeftBy(errors, aborted, steps, 0, 0, e); }
  }

  /** One step more. */
  lemma {:induction false} LeftMore(errors: bool, aborted: Failure, steps: seq<Step>, k: nat, e: Reason)
    requires k < |steps|
    ensures Left(errors, aborted, steps, k + 1, e) <==>
            || Leaves(errors, aborted, steps, k, e)
            || (Left(errors, aborted, steps, k, e) && !LeavesAny(errors, aborted, steps, k)
                && Passes(errors, aborted, steps, k))
  {
    hide Leaves, Passes;
    if Left(errors, aborted, steps, k + 1, e) {
      var j: nat :| LeftBy(errors, aborted, steps, j, k + 1, e);
      if j <= k { assert LeftBy(errors, aborted, steps, j, k, e); }
    }
    if Leaves(errors, aborted, steps, k, e) { assert LeftBy(errors, aborted, steps, k + 1, k + 1, e); }
    var stays := !LeavesAny(errors, aborted, steps, k) && Passes(errors, aborted, steps, k);
    if Left(errors, aborted, steps, k, e) && stays {
      var j: nat :| LeftBy(errors, aborted, steps, j, k, e);
      assert LeftBy(errors, aborted, steps, j, k + 1, e);
    }
  }

  lemma {:induction false} RunNext(errors: bool, aborted: Failure, steps: seq<Step>, k: nat)
    requires k < |steps|
    ensures Run(Start(errors, aborted), steps, k + 1) == Apply(Run(Start(errors, aborted), steps, k), steps[k])
  {
  }

  /** What the steps say about the fields of the iterator. */
  lemma {:induction false} StepTracks(errors: bool, aborted: Failure, steps: seq<Step>, k: nat)
    requires k < |steps| && Tracks(errors, aborted, steps, k)
    ensures Tracks(errors, aborted, steps, k + 1)
  {
    hide Run, Start, SettleAll, Left, Emissions, Calls, Inv, NobodyWaits;
    var s := Run(Start(errors, aborted), steps, k);
    RunNext(errors, aborted, steps, k);
    RunRecords(errors, aborted, steps, k);
    RunInv(errors, aborted, steps, k);
    MeetsOf(s);
    WaitersWait(s);
    var t := Run(Start(errors, aborted), steps, k + 1);
    forall e
      ensures t.pending == Failure(e) <==> Left(errors, aborted, steps, k + 1, e)
    {
      LeftMore(errors, aborted, steps, k, e);
      PendingStep(errors, aborted, steps, k, e);
    }
  }

  lemma {:induction false} MeetsOf(s: State)
    requires Inv(s)
    ensures Meets(s) && InOrder(s)
  {
  }

  /** Which error is kept after a step. */
  lemma {:induction false} PendingStep(errors: bool, aborted: Failure, steps: seq<Step>, k: nat, e: Reason)
    requires k < |steps|
    requires var s := Run(Start(errors, aborted), steps, k);
             && Meets(s) && s.errors == errors && s.listening == !ReturnedBefore(steps, k)
             && s.promises == Calls(steps, k)
             && (NobodyWaits(s.settled, s.promises) <==> s.waiters == [])
    ensures var s := Run(Start(errors, aborted), steps, k);
            var t := Run(Start(errors, aborted), steps, k + 1);
            t.pending == Failure(e) <==>
            || Leaves(errors, aborted, steps, k, e)
            || (s.pending == Failure(e) && !LeavesAny(errors, aborted, steps, k) && Passes(errors, aborted, steps, k))
  {
    hide Run, Start, SettleAll, Emissions, Calls, NobodyWaits, ReturnedBefore, Increasing;
    RunNext(errors, aborted, steps, k);
    var s := Run(Start(errors, aborted), steps, k);
    match steps[k]
    case Event(_) =>
    case Error(r) => if Heard(errors, steps, k) && s.waiters == [] { assert Leaves(errors, aborted, steps, k, r); }
    case Abort(r) => assert Leaves(errors, aborted, steps, k, r);
    case Close =>
    case Return =>
    case Next =>
  }

  lemma {:induction false} RunTracks(errors: bool, aborted: Failure, steps: seq<Step>, k: nat)
    requires k <= |steps|
    ensures Tracks(errors, aborted, steps, k)
  {
    if k == 0 {
      forall e
        ensures aborted == Failure(e) <==> Left(errors, aborted, steps, 0, e)
      {
        LeftAtStart(errors, aborted, steps, e);
      }
    } else {
      RunTracks(errors, aborted, steps, k - 1);
      StepTracks(errors, aborted, steps, k - 1);
    }
  }

  // ---------- The law ----------

  lemma {:induction false} CallsMore(steps: seq<Step>, k: nat)
    requires k < |steps|
    ensures Calls(steps, k + 1) == Calls(steps, k) + (if steps[k].Next? || steps[k].Return? then 1 else 0)
  {
  }

  lemma {:induction false} NextSettles(errors: bool, aborted: Failure, steps: seq<Step>, k: nat)
    requires k < |steps| && steps[k].Next?
    ensures NextLaw(errors, aborted, steps, k)
  {
    hide Run, Start, Left, Ended, Emissions, Calls, InOrder, Meets, Served;
    var s := Run(Start(errors, aborted), steps, k);
    RunInv(errors, aborted, steps, k);
    RunRecords(errors, aborted, steps, k);
    RunTracks(errors, aborted, steps, k);
    RunNext(errors, aborted, steps, k);
    MeetsOf(s);
    ServedCount(s);
    QueueIsRest(s);
    assert s.pending.Failure? ==> Left(errors, aborted, steps, k, s.pending.reason);
  }

  lemma {:induction false} ReturnEnds(s: State)
    requires Meets(s)
    ensures AllEnd(s.settled, SettleAll(s.settled, s.waiters, |s.waiters|, Finished)[s.promises := Finished],
              s.promises + 1, Finished)
  {
    hide SettleAll, Increasing;
    AllSettledEnd(s, Finished);
  }

  /** In every run every step does this and nothing else to the promises. */
  lemma {:induction false} Settlements(errors: bool, aborted: Failure, steps: seq<Step>, k: nat)
    requires k < |steps|
    ensures StepLaw(errors, aborted, steps, k)
  {
    hide Run, Start, NextLaw, Emissions, Calls, InOrder, Meets, SettleAll, AllEnd, FirstEnds, Ended, Left, Tracks;
    var s := Run(Start(errors, aborted), steps, k);
    RunInv(errors, aborted, steps, k);
    RunRecords(errors, aborted, steps, k);
    ErrorsStay(errors, aborted, steps, k);
    RunNext(errors, aborted, steps, k);
    MeetsOf(s);
    match steps[k]
    case Event(v) => FirstSettled(s, Value(v));
    case Error(e) => FirstSettled(s, Rejected(e));
    case Abort(e) => AllSettledEnd(s, Rejected(e));
    case Close => AllSettledEnd(s, Finished);
    case Return => ReturnEnds(s);
    case Next => NextSettles(errors, aborted, steps, k);
  }

  lemma {:induction false} ErrorsStay(errors: bool, aborted: Failure, steps: seq<Step>, k: nat)
    requires k <= |steps|
    ensures Run(Start(errors, aborted), steps, k).errors == errors
  {
    hide Left, Ended;
    RunTracks(errors, aborted, steps, k);
  }

  /** So a call after the end of the iteration never waits. */
  lemma {:induction false} NoneWaitsAfterEnd(errors: bool, aborted: Failure, steps: seq<Step>, k: nat)
    requires k < |steps| && steps[k].Next? && Ended(errors, aborted, steps, k)
    ensures Calls(steps, k) in Outcomes(errors, aborted, steps, k + 1)
  {
    hide Outcomes, Left, Emissions, Calls, Served, Ended;
    NextSettles(errors, aborted, steps, k);
  }
}
