/** The async iterator of `events.on`: events and calls of next meet in two
    queues, and every interleaving delivers the events in order. */
module EventsOn {

  /** The arguments of an event, and the reason of a rejection. */
  type Payload = seq<nat>
  type Reason = nat

  /** How a promise ends: with a payload, with the end of the iteration, or with an error. */
  datatype Settlement = Value(payload: Payload) | Finished | Rejected(reason: Reason)

  datatype Step = Event(payload: Payload) | Error(reason: Reason) | Abort(reason: Reason) | Close | Next | Return

  datatype Failure = NoFailure | Failure(reason: Reason)

  /** Promises are numbered in the order in which next and return create them. listening says whether the event and
      error listeners are installed, errors whether there is one for errors. emitted and delivered record what the
      event listener has received and who got it. */
  datatype State = State(queue: seq<Payload>, waiters: seq<nat>, done: bool, pending: Failure, listening: bool,
                         errors: bool, promises: nat, settled: map<nat, Settlement>,
                         emitted: seq<Payload>, delivered: seq<(nat, Payload)>)

  /** The iterator when made; with a signal that is already aborted it starts with an error. */
  function Start(errors: bool, aborted: Failure): (s: State)
  {
    State([], [], aborted.Failure?, aborted, true, errors, 0, map[], [], [])
  }

  /** The first n waiters settled alike. */
  function SettleAll(settled: map<nat, Settlement>, waiters: seq<nat>, n: nat, r: Settlement): (m: map<nat, Settlement>)
    requires n <= |waiters|
  {
    if n == 0 then settled else SettleAll(settled, waiters, n - 1, r)[waiters[n - 1] := r]
  }

  function Apply(s: State, step: Step): (r: State)
  {
    match step
    case Event(v) =>
      if !s.listening then s
      else if |s.waiters| > 0 then
        s.(waiters := s.waiters[1..], settled := s.settled[s.waiters[0] := Value(v)],
           emitted := s.emitted + [v], delivered := s.delivered + [(s.waiters[0], v)])
      else s.(queue := s.queue + [v], emitted := s.emitted + [v])
    case Error(e) =>
      if !s.listening || !s.errors then s
      else if |s.waiters| > 0 then
        s.(done := true, waiters := s.waiters[1..], settled := s.settled[s.waiters[0] := Rejected(e)])
      else s.(done := true, pending := Failure(e))
    case Abort(e) =>
      s.(done := true, waiters := [], settled := SettleAll(s.settled, s.waiters, |s.waiters|, Rejected(e)),
          pending := Failure(e))
    case Close =>
      s.(done := true, waiters := [], settled := SettleAll(s.settled, s.waiters, |s.waiters|, Finished))
    case Next =>
      var p := s.promises;
      if |s.queue| > 0 then
        s.(promises := p + 1, queue := s.queue[1..], settled := s.settled[p := Value(s.queue[0])],
           delivered := s.delivered + [(p, s.queue[0])])
      else if s.pending.Failure? then
        s.(promises := p + 1, pending := NoFailure, settled := s.settled[p := Rejected(s.pending.reason)])
      else if s.done then s.(promises := p + 1, settled := s.settled[p := Finished])
      else s.(promises := p + 1, waiters := s.waiters + [p])
    case Return =>
      var p := s.promises;
      s.(promises := p + 1, done := true, listening := false, waiters := [],
         settled := SettleAll(s.settled, s.waiters, |s.waiters|, Finished)[p := Finished])
  }

  /** The state after the first n steps. */
  function Run(start: State, steps: seq<Step>, n: nat): (s: State)
    requires n <= |steps|
  {
    if n == 0 then start else Apply(Run(start, steps, n - 1), steps[n - 1])
  }

  // ---------- What every step keeps ----------

  ghost predicate Increasing(ids: seq<nat>)
  {
    forall i, j :: 0 <= i < j < |ids| ==> ids[i] < ids[j]
  }

  function Ids(d: seq<(nat, Payload)>): (r: seq<nat>)
    ensures |r| == |d| && forall i :: 0 <= i < |d| ==> r[i] == d[i].0
  {
    seq(|d|, i requires 0 <= i < |d| => d[i].0)
  }

  function Payloads(d: seq<(nat, Payload)>): (r: seq<Payload>)
    ensures |r| == |d| && forall i :: 0 <= i < |d| ==> r[i] == d[i].1
  {
    seq(|d|, i requires 0 <= i < |d| => d[i].1)
  }

  /** Events wait for calls or calls wait for events, never both; a promise is either settled or waiting. */
  ghost predicate Meets(s: State)
  {
    && (s.queue == [] || s.waiters == [])
    && (forall p :: p in s.settled ==> p < s.promises && p !in s.waiters)
    && (forall p :: 0 <= p < s.promises ==> p in s.settled || p in s.waiters)
    && (forall i :: 0 <= i < |s.waiters| ==> s.waiters[i] < s.promises)
    && Increasing(s.waiters)
  }

  /** The payloads delivered and then those queued are the payloads emitted; they went to promises in the order
      of the calls, and these are the promises that have payloads. */
  ghost predicate InOrder(s: State)
  {
    && Payloads(s.delivered) + s.queue == s.emitted
    && Increasing(Ids(s.delivered))
    && (forall i, j :: 0 <= i < |s.delivered| && 0 <= j < |s.waiters| ==> s.delivered[i].0 < s.waiters[j])
    && (forall i :: 0 <= i < |s.delivered| ==> Got(s, s.delivered[i]))
    && (forall p :: p in s.settled && s.settled[p].Value? ==> (p, s.settled[p].payload) in s.delivered)
  }

  ghost predicate Got(s: State, d: (nat, Payload))
  {
    d.0 in s.settled && s.settled[d.0] == Value(d.1)
  }

  lemma {:induction false} SettleAllIs(settled: map<nat, Settlement>, ws: seq<nat>, n: nat, r: Settlement, p: nat)
    requires n <= |ws|
    ensures var m := SettleAll(settled, ws, n, r);
            if exists i :: 0 <= i < n && ws[i] == p then p in m && m[p] == r
            else (p in m <==> p in settled) && (p in m ==> m[p] == settled[p])
  {
    if n > 0 { SettleAllIs(settled, ws, n - 1, r, p); }
  }

  /** The waiters all settled, nothing else changed. */
  ghost predicate AllSettled(m: map<nat, Settlement>, settled: map<nat, Settlement>, ws: seq<nat>, r: Settlement)
  {
    forall p {:trigger p in m} :: if p in ws then p in m && m[p] == r
        else (p in m <==> p in settled) && (p in m ==> m[p] == settled[p])
  }

  lemma {:induction false} SettlesAll(settled: map<nat, Settlement>, ws: seq<nat>, r: Settlement)
    ensures AllSettled(SettleAll(settled, ws, |ws|, r), settled, ws, r)
  {
    hide SettleAll;
    var m := SettleAll(settled, ws, |ws|, r);
    forall p: nat
      ensures if p in ws then p in m && m[p] == r else (p in m <==> p in settled) && (p in m ==> m[p] == settled[p])
    {
      SettleAllIs(settled, ws, |ws|, r, p);
    }
  }

  /** Settling the first waiter. */
  lemma {:induction false} FirstWaiter(s: State, r: Settlement)
    requires Meets(s) && |s.waiters| > 0
    ensures Meets(s.(waiters := s.waiters[1..], settled := s.settled[s.waiters[0] := r]))
  {
    var w, rest := s.waiters[0], s.waiters[1..];
    assert forall p :: p in s.waiters <==> p == w || p in rest;
    assert forall i :: 0 <= i < |rest| ==> rest[i] == s.waiters[i + 1];
  }

  lemma {:induction false} NoWaiters(s: State, m: map<nat, Settlement>, r: Settlement)
    requires Meets(s) && AllSettled(m, s.settled, s.waiters, r)
    ensures Meets(s.(waiters := [], settled := m))
  {
    forall p | p in m
      ensures p < s.promises
    {
      if p in s.waiters { var i :| 0 <= i < |s.waiters| && s.waiters[i] == p; }
    }
    forall p | 0 <= p < s.promises
      ensures p in m
    {
    }
  }

  lemma {:induction false} NewSettled(s: State, r: Settlement)
    requires Meets(s)
    ensures Meets(s.(promises := s.promises + 1, settled := s.settled[s.promises := r]))
  {
  }

  lemma {:induction false} NewWaiter(s: State)
    requires Meets(s) && s.queue == []
    ensures Meets(s.(promises := s.promises + 1, waiters := s.waiters + [s.promises]))
  {
    var ws := s.waiters + [s.promises];
    assert forall p :: p in ws <==> p in s.waiters || p == s.promises;
  }

  lemma {:induction false} NextMeets(s: State)
    requires Meets(s)
    ensures Meets(Apply(s, Next))
  {
    hide SettleAll, Increasing;
    if |s.queue| > 0 {
      NewSettled(s, Value(s.queue[0]));
    } else if s.pending.Failure? {
      NewSettled(s, Rejected(s.pending.reason));
    } else if s.done {
      NewSettled(s, Finished);
    } else {
      NewWaiter(s);
    }
  }

  lemma {:induction false} StepMeets(s: State, step: Step)
    requires Meets(s)
    ensures Meets(Apply(s, step))
  {
    hide SettleAll, Increasing;
    match step
    case Event(v) =>
      if |s.waiters| > 0 { FirstWaiter(s, Value(v)); }
    case Error(e) =>
      if |s.waiters| > 0 { FirstWaiter(s, Rejected(e)); }
    case Abort(e) =>
      SettlesAll(s.settled, s.waiters, Rejected(e));
      NoWaiters(s, SettleAll(s.settled, s.waiters, |s.waiters|, Rejected(e)), Rejected(e));
    case Close =>
      SettlesAll(s.settled, s.waiters, Finished);
      NoWaiters(s, SettleAll(s.settled, s.waiters, |s.waiters|, Finished), Finished);
    case Next =>
      NextMeets(s);
    case Return =>
      var m := SettleAll(s.settled, s.waiters, |s.waiters|, Finished);
      SettlesAll(s.settled, s.waiters, Finished);
      NoWaiters(s, m, Finished);
      NewSettled(s.(waiters := [], settled := m), Finished);
  }

  /** One more delivery, to a promise after all earlier ones. */
  lemma {:induction false} Deliver(s: State, p: nat, v: Payload, queue: seq<Payload>, waiters: seq<nat>,
      emitted: seq<Payload>)
    requires InOrder(s) && p !in s.settled && (forall i :: 0 <= i < |s.delivered| ==> s.delivered[i].0 < p)
    requires Payloads(s.delivered) + ([v] + queue) == emitted
    requires forall j :: 0 <= j < |waiters| ==> p < waiters[j]
    ensures InOrder(s.(queue := queue, waiters := waiters, settled := s.settled[p := Value(v)],
              emitted := emitted, delivered := s.delivered + [(p, v)]))
  {
    hide Payloads, Ids;
    var t := s.(queue := queue, waiters := waiters, settled := s.settled[p := Value(v)],
        emitted := emitted, delivered := s.delivered + [(p, v)]);
    assert Payloads(t.delivered) == Payloads(s.delivered) + [v];
    assert (Payloads(s.delivered) + [v]) + queue == Payloads(s.delivered) + ([v] + queue);
    assert Ids(t.delivered) == Ids(s.delivered) + [p];
    forall i | 0 <= i < |t.delivered|
      ensures Got(t, t.delivered[i])
    {
      if i < |s.delivered| { assert Got(s, s.delivered[i]); }
    }
    assert t.delivered[|s.delivered|] == (p, v);
    forall q | q in t.settled && t.settled[q].Value?
      ensures (q, t.settled[q].payload) in t.delivered
    {
      if q != p { assert (q, s.settled[q].payload) in s.delivered; }
    }
  }

  /** Settlements without payload, of promises that had none, keep the order. */
  lemma {:induction false} SettleOthers(s: State, m: map<nat, Settlement>, waiters: seq<nat>)
    requires InOrder(s) && (forall p :: p in s.settled ==> p in m && m[p] == s.settled[p])
    requires forall p :: p in m && p !in s.settled ==> !m[p].Value?
    requires forall i, j :: 0 <= i < |s.delivered| && 0 <= j < |waiters| ==> s.delivered[i].0 < waiters[j]
    ensures InOrder(s.(settled := m, waiters := waiters))
  {
    hide Payloads, Ids;
    var t := s.(settled := m, waiters := waiters);
    forall i | 0 <= i < |t.delivered|
      ensures Got(t, t.delivered[i])
    {
      assert Got(s, s.delivered[i]);
    }
  }

  /** Promises delivered to are settled, so they are older than the next one. */
  lemma {:induction false} DeliveredBefore(s: State)
    requires Meets(s) && InOrder(s)
    ensures forall i :: 0 <= i < |s.delivered| ==> s.delivered[i].0 < s.promises && s.delivered[i].0 in s.settled
  {
    forall i | 0 <= i < |s.delivered|
      ensures s.delivered[i].0 < s.promises && s.delivered[i].0 in s.settled
    {
      assert Got(s, s.delivered[i]);
    }
  }

  lemma {:induction false} EventInOrder(s: State, v: Payload)
    requires Meets(s) && InOrder(s)
    ensures InOrder(Apply(s, Event(v)))
  {
    hide Payloads, Ids, Got;
    if s.listening {
      if |s.waiters| > 0 {
        var rest := s.waiters[1..];
        assert forall j :: 0 <= j < |rest| ==> rest[j] == s.waiters[j + 1];
        assert s.waiters[0] in s.waiters;
        assert Payloads(s.delivered) + ([v] + []) == s.emitted + [v];
        Deliver(s, s.waiters[0], v, [], rest, s.emitted + [v]);
      } else {
        assert Payloads(s.delivered) + (s.queue + [v]) == s.emitted + [v];
        QueueMore(s, v);
      }
    }
  }

  lemma {:induction false} QueueMore(s: State, v: Payload)
    requires InOrder(s) && Payloads(s.delivered) + (s.queue + [v]) == s.emitted + [v]
    ensures InOrder(s.(queue := s.queue + [v], emitted := s.emitted + [v]))
  {
    hide Payloads, Ids;
    var t := s.(queue := s.queue + [v], emitted := s.emitted + [v]);
    forall i | 0 <= i < |t.delivered|
      ensures Got(t, t.delivered[i])
    {
      assert Got(s, s.delivered[i]);
    }
  }

  lemma {:induction false} TakeQueued(s: State)
    requires Meets(s) && InOrder(s) && |s.queue| > 0
    ensures InOrder(Apply(s, Next))
  {
    hide Payloads, Ids, Got, Increasing;
    var p := s.promises;
    DeliveredBefore(s);
    assert [s.queue[0]] + s.queue[1..] == s.queue;
    Deliver(s, p, s.queue[0], s.queue[1..], s.waiters, s.emitted);
    Relabel(Apply(s, Next).(promises := s.promises), p + 1, s.pending);
  }

  lemma {:induction false} SettleNew(s: State, r: Settlement)
    requires Meets(s) && InOrder(s) && !r.Value?
    ensures InOrder(s.(settled := s.settled[s.promises := r]))
  {
    hide Payloads, Ids, Got, Increasing;
    SettleOthers(s, s.settled[s.promises := r], s.waiters);
  }

  lemma {:induction false} WaitNew(s: State)
    requires Meets(s) && InOrder(s)
    ensures InOrder(s.(waiters := s.waiters + [s.promises]))
  {
    hide Payloads, Ids, Got, Increasing;
    DeliveredBefore(s);
    SettleOthers(s, s.settled, s.waiters + [s.promises]);
  }

  lemma {:induction false} NextInOrder(s: State)
    requires Meets(s) && InOrder(s)
    ensures InOrder(Apply(s, Next))
  {
    hide InOrder, Meets;
    var p := s.promises;
    if |s.queue| > 0 {
      TakeQueued(s);
    } else if s.pending.Failure? {
      SettleNew(s, Rejected(s.pending.reason));
      Relabel(s.(settled := s.settled[p := Rejected(s.pending.reason)]), p + 1, NoFailure);
    } else if s.done {
      SettleNew(s, Finished);
      Relabel(s.(settled := s.settled[p := Finished]), p + 1, s.pending);
    } else {
      WaitNew(s);
      Relabel(s.(waiters := s.waiters + [p]), p + 1, s.pending);
    }
  }

  /** The order does not depend on the other fields. */
  lemma {:induction false} Relabel(s: State, promises: nat, pending: Failure)
    requires InOrder(s)
    ensures InOrder(s.(promises := promises, pending := pending))
    ensures InOrder(s.(done := true, pending := pending))
    ensures InOrder(s.(done := true, listening := false, promises := promises))
  {
    hide Payloads, Ids, Increasing;
    assert forall i :: 0 <= i < |s.delivered| ==> Got(s, s.delivered[i]);
    var t := s.(promises := promises, pending := pending);
    var u := s.(done := true, pending := pending);
    var v := s.(done := true, listening := false, promises := promises);
    forall i | 0 <= i < |s.delivered|
      ensures Got(t, t.delivered[i]) && Got(u, u.delivered[i]) && Got(v, v.delivered[i])
    {
    }
  }

  lemma {:induction false} EndInOrder(s: State, m: map<nat, Settlement>, r: Settlement)
    requires Meets(s) && InOrder(s) && AllSettled(m, s.settled, s.waiters, r) && !r.Value?
    ensures InOrder(s.(waiters := [], settled := m))
  {
    hide Payloads, Ids, Got, Increasing;
    SettleOthers(s, m, []);
  }

  lemma {:induction false} StepInOrder(s: State, step: Step)
    requires Meets(s) && InOrder(s)
    ensures InOrder(Apply(s, step))
  {
    hide SettleAll, InOrder, Increasing;
    match step
    case Event(v) =>
      EventInOrder(s, v);
    case Error(e) =>
      if |s.waiters| > 0 {
        RejectFirst(s, e);
        Relabel(s.(waiters := s.waiters[1..], settled := s.settled[s.waiters[0] := Rejected(e)]), s.promises,
            s.pending);
      } else {
        Relabel(s, s.promises, Failure(e));
      }
    case Abort(e) =>
      var m := SettleAll(s.settled, s.waiters, |s.waiters|, Rejected(e));
      SettlesAll(s.settled, s.waiters, Rejected(e));
      EndInOrder(s, m, Rejected(e));
      Relabel(s.(waiters := [], settled := m), s.promises, Failure(e));
    case Close =>
      var m := SettleAll(s.settled, s.waiters, |s.waiters|, Finished);
      SettlesAll(s.settled, s.waiters, Finished);
      EndInOrder(s, m, Finished);
      Relabel(s.(waiters := [], settled := m), s.promises, s.pending);
    case Next =>
      NextInOrder(s);
    case Return =>
      var m := SettleAll(s.settled, s.waiters, |s.waiters|, Finished);
      SettlesAll(s.settled, s.waiters, Finished);
      EndInOrder(s, m, Finished);
      ReturnPromise(s, m);
      Relabel(s.(waiters := [], settled := m[s.promises := Finished]), s.promises + 1, s.pending);
  }

  lemma {:induction false} RejectFirst(s: State, e: Reason)
    requires Meets(s) && InOrder(s) && |s.waiters| > 0
    ensures InOrder(s.(waiters := s.waiters[1..], settled := s.settled[s.waiters[0] := Rejected(e)]))
  {
    hide Payloads, Ids, Got, Increasing;
    var rest := s.waiters[1..];
    assert forall j :: 0 <= j < |rest| ==> rest[j] == s.waiters[j + 1];
    assert s.waiters[0] in s.waiters;
    SettleOthers(s, s.settled[s.waiters[0] := Rejected(e)], rest);
  }

  lemma {:induction false} ReturnPromise(s: State, m: map<nat, Settlement>)
    requires Meets(s) && InOrder(s) && AllSettled(m, s.settled, s.waiters, Finished)
    requires InOrder(s.(waiters := [], settled := m))
    ensures InOrder(s.(waiters := [], settled := m[s.promises := Finished]))
  {
    hide Payloads, Ids, Got, Increasing, InOrder;
    var t := s.(waiters := [], settled := m);
    NoWaiters(s, m, Finished);
    assert s.promises !in m by { assert Meets(t); }
    SettleOthers2(t, s.promises);
  }

  lemma {:induction false} SettleOthers2(t: State, p: nat)
    requires InOrder(t) && t.waiters == [] && p !in t.settled
    ensures InOrder(t.(settled := t.settled[p := Finished]))
  {
    hide Payloads, Ids, Got, Increasing;
    SettleOthers(t, t.settled[p := Finished], []);
  }

  /** No step settles a promise again. */
  lemma {:induction false} SettledStays(s: State, step: Step, p: nat)
    requires Meets(s) && p in s.settled
    ensures p in Apply(s, step).settled && Apply(s, step).settled[p] == s.settled[p]
  {
    hide SettleAll, Increasing;
    match step
    case Event(v) => if |s.waiters| > 0 { assert s.waiters[0] in s.waiters; }
    case Error(e) => if |s.waiters| > 0 { assert s.waiters[0] in s.waiters; }
    case Abort(e) => SettlesAll(s.settled, s.waiters, Rejected(e));
    case Close => SettlesAll(s.settled, s.waiters, Finished);
    case Next =>
    case Return => SettlesAll(s.settled, s.waiters, Finished);
  }

  // ---------- Whole runs ----------

  ghost predicate Inv(s: State)
  {
    Meets(s) && InOrder(s)
  }

  lemma {:induction false} StartInv(errors: bool, aborted: Failure)
    ensures Inv(Start(errors, aborted))
  {
  }

  /** Every state of every run keeps both invariants. */
  lemma {:induction false} RunInv(errors: bool, aborted: Failure, steps: seq<Step>, n: nat)
    requires n <= |steps|
    ensures Inv(Run(Start(errors, aborted), steps, n))
  {
    hide Apply, Meets, InOrder, Start;
    if n == 0 {
      StartInv(errors, aborted);
    } else {
      RunInv(errors, aborted, steps, n - 1);
      StepMeets(Run(Start(errors, aborted), steps, n - 1), steps[n - 1]);
      StepInOrder(Run(Start(errors, aborted), steps, n - 1), steps[n - 1]);
    }
  }

  /** A promise is settled once: what it was settled with stays for the rest of the run. */
  lemma {:induction false} SettledOnce(errors: bool, aborted: Failure, steps: seq<Step>, m: nat, n: nat, p: nat)
    requires m <= n <= |steps| && p in Run(Start(errors, aborted), steps, m).settled
    ensures p in Run(Start(errors, aborted), steps, n).settled
    ensures Run(Start(errors, aborted), steps, n).settled[p] == Run(Start(errors, aborted), steps, m).settled[p]
    decreases n
  {
    hide Apply, Meets, InOrder, Start;
    if m < n {
      SettledOnce(errors, aborted, steps, m, n - 1, p);
      RunInv(errors, aborted, steps, n - 1);
      SettledStays(Run(Start(errors, aborted), steps, n - 1), steps[n - 1], p);
    }
  }

  predicate ReturnedBefore(steps: seq<Step>, n: nat)
    requires n <= |steps|
  {
    n > 0 && (steps[n - 1].Return? || ReturnedBefore(steps, n - 1))
  }

  /** The payloads of the events among the first n steps that come before return is called. */
  function Emissions(steps: seq<Step>, n: nat): (r: seq<Payload>)
    requires n <= |steps|
  {
    if n == 0 then []
    else
      var last := steps[n - 1];
      Emissions(steps, n - 1) + (if last.Event? && !ReturnedBefore(steps, n - 1) then [last.payload] else [])
  }

  /** How many of the first n steps create a promise. */
  function Calls(steps: seq<Step>, n: nat): (c: nat)
    requires n <= |steps|
  {
    if n == 0 then 0 else Calls(steps, n - 1) + (if steps[n - 1].Next? || steps[n - 1].Return? then 1 else 0)
  }

  lemma {:induction false} StepRecords(s: State, step: Step)
    ensures var t := Apply(s, step);
            && t.emitted == s.emitted + (if step.Event? && s.listening then [step.payload] else [])
            && t.promises == s.promises + (if step.Next? || step.Return? then 1 else 0)
            && t.listening == (s.listening && !step.Return?)
  {
    hide SettleAll;
    match step
    case Event(_) =>
    case Error(_) =>
    case Abort(_) =>
    case Close =>
    case Next =>
    case Return =>
  }

  lemma {:induction false} RunRecords(errors: bool, aborted: Failure, steps: seq<Step>, n: nat)
    requires n <= |steps|
    ensures var s := Run(Start(errors, aborted), steps, n);
            s.emitted == Emissions(steps, n) && s.promises == Calls(steps, n) &&
                s.listening == !ReturnedBefore(steps, n)
  {
    hide Apply;
    if n > 0 {
      RunRecords(errors, aborted, steps, n - 1);
      StepRecords(Run(Start(errors, aborted), steps, n - 1), steps[n - 1]);
    }
  }

  /** In every run, the payloads delivered so far and then those still queued are the payloads emitted, in order;
      they went to promises in the order of the calls; and a promise has a payload exactly when it was delivered one. */
  lemma {:induction false} Fifo(errors: bool, aborted: Failure, steps: seq<Step>, n: nat, p: nat, v: Payload)
    requires n <= |steps|
    ensures var s := Run(Start(errors, aborted), steps, n);
            && Payloads(s.delivered) + s.queue == Emissions(steps, n)
            && Increasing(Ids(s.delivered)) && (s.queue == [] || s.waiters == [])
            && ((p, v) in s.delivered <==> p in s.settled && s.settled[p] == Value(v))
            && (p < Calls(steps, n) ==> (p in s.settled <==> p !in s.waiters))
  {
    hide Payloads, Ids, Increasing, Run, Emissions, Calls;
    RunInv(errors, aborted, steps, n);
    RunRecords(errors, aborted, steps, n);
    var s := Run(Start(errors, aborted), steps, n);
    if (p, v) in s.delivered {
      var i :| 0 <= i < |s.delivered| && s.delivered[i] == (p, v);
      assert Got(s, s.delivered[i]);
    }
  }

  // ---------- The iterator ----------

  /** The fields of the iterator object and the promises it has made. */
  class OnIterator {
    var queue: seq<Payload>
    var waiters: seq<nat>
    var done: bool
    var pending: Failure
    var listening: bool
    const errors: bool
    var promises: nat
    var settled: map<nat, Settlement>
    ghost var emitted: seq<Payload>
    ghost var delivered: seq<(nat, Payload)>

    ghost function Now(): (s: State)
      reads this
    {
      State(queue, waiters, done, pending, listening, errors, promises, settled, emitted, delivered)
    }

    constructor (errors: bool, aborted: Failure)
      ensures Now() == Start(errors, aborted) && Inv(Now())
    {
      queue, waiters, done, pending, listening := [], [], aborted.Failure?, aborted, true;
      this.errors := errors;
      promises, settled, emitted, delivered := 0, map[], [], [];
      new;
      StartInv(errors, aborted);
    }

    /** A promise is settled only once. */
    method Settle(p: nat, r: Settlement)
      requires p !in settled
      modifies this`settled
      ensures settled == old(settled)[p := r]
    {
      settled := settled[p := r];
    }

    method OnEvent(v: Payload)
      requires Inv(Now())
      modifies this
      ensures Inv(Now()) && Now() == Apply(old(Now()), Event(v))
    {
      hide InOrder, Increasing;
      StepMeets(Now(), Event(v));
      StepInOrder(Now(), Event(v));
      if !listening { return; }
      emitted := emitted + [v];
      if |waiters| > 0 {
        var p := waiters[0];
        assert p in waiters;
        waiters := waiters[1..];
        delivered := delivered + [(p, v)];
        Settle(p, Value(v));
      } else {
        queue := queue + [v];
      }
    }

    method OnError(e: Reason)
      requires Inv(Now())
      modifies this
      ensures Inv(Now()) && Now() == Apply(old(Now()), Error(e))
    {
      hide InOrder, Increasing;
      StepMeets(Now(), Error(e));
      StepInOrder(Now(), Error(e));
      if !listening || !errors { return; }
      done := true;
      if |waiters| > 0 {
        var p := waiters[0];
        assert p in waiters;
        waiters := waiters[1..];
        Settle(p, Rejected(e));
      } else {
        pending := Failure(e);
      }
    }

    /** All waiters, first to last. */
    method DrainWaiters(r: Settlement)
      requires Meets(Now())
      modifies this`waiters, this`settled
      ensures waiters == [] && settled == SettleAll(old(settled), old(waiters), |old(waiters)|, r)
    {
      ghost var all, was := waiters, settled;
      ghost var n := 0;
      while |waiters| > 0
        invariant 0 <= n <= |all| && waiters == all[n..] && settled == SettleAll(was, all, n, r)
        decreases |waiters|
      {
        var p := waiters[0];
        Unsettled(old(Now()), n, r);
        waiters := waiters[1..];
        Settle(p, r);
        n := n + 1;
      }
    }

    method OnAbort(e: Reason)
      requires Inv(Now())
      modifies this
      ensures Inv(Now()) && Now() == Apply(old(Now()), Abort(e))
    {
      hide InOrder, Meets, SettleAll;
      StepMeets(Now(), Abort(e));
      StepInOrder(Now(), Abort(e));
      ghost var before := Now();
      DoneIsFree(before);
      done := true;
      DrainWaiters(Rejected(e));
      pending := Failure(e);
    }

    method OnClose()
      requires Inv(Now())
      modifies this
      ensures Inv(Now()) && Now() == Apply(old(Now()), Close)
    {
      hide InOrder, Meets, SettleAll;
      StepMeets(Now(), Close);
      StepInOrder(Now(), Close);
      DoneIsFree(Now());
      done := true;
      DrainWaiters(Finished);
    }

    method CallNext() returns (p: nat)
      requires Inv(Now())
      modifies this
      ensures Inv(Now()) && Now() == Apply(old(Now()), Next) && p == old(promises)
    {
      hide InOrder, Increasing;
      StepMeets(Now(), Next);
      StepInOrder(Now(), Next);
      p := promises;
      promises := promises + 1;
      if |queue| > 0 {
        var v := queue[0];
        queue := queue[1..];
        delivered := delivered + [(p, v)];
        Settle(p, Value(v));
      } else if pending.Failure? {
        var e := pending.reason;
        pending := NoFailure;
        Settle(p, Rejected(e));
      } else if done {
        Settle(p, Finished);
      } else {
        waiters := waiters + [p];
      }
    }

    method CallReturn() returns (p: nat)
      requires Inv(Now())
      modifies this
      ensures Inv(Now()) && Now() == Apply(old(Now()), Return) && p == old(promises)
    {
      hide InOrder, Meets, SettleAll;
      StepMeets(Now(), Return);
      StepInOrder(Now(), Return);
      Fresh(Now(), Finished);
      DoneIsFree(Now());
      done, listening := true, false;
      DrainWaiters(Finished);
      p := promises;
      promises := promises + 1;
      Settle(p, Finished);
    }
  }

  lemma {:induction false} Unsettled(s: State, n: nat, r: Settlement)
    requires Meets(s) && n < |s.waiters|
    ensures s.waiters[n] !in SettleAll(s.settled, s.waiters, n, r)
  {
    SettleAllIs(s.settled, s.waiters, n, r, s.waiters[n]);
    assert s.waiters[n] in s.waiters;
  }

  lemma {:induction false} DoneIsFree(s: State)
    requires Meets(s)
    ensures Meets(s.(done := true)) && Meets(s.(done := true, listening := false))
  {
  }

  lemma {:induction false} Fresh(s: State, r: Settlement)
    requires Meets(s)
    ensures s.promises !in SettleAll(s.settled, s.waiters, |s.waiters|, r)
  {
    SettleAllIs(s.settled, s.waiters, |s.waiters|, r, s.promises);
  }
}
