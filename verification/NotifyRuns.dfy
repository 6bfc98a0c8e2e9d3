/** What every run of the notification machinery keeps, and where it falls short. */
module NotifyRuns {
  import opened Wrappers
  import opened Notify

  /** The run was possible and ends in `s`. */
  ghost predicate Reaches(steps: seq<Step>, s: State) {
    Run(steps) == Some(s)
  }

  lemma {:induction false} RunInv(steps: seq<Step>, s: State)
    requires Reaches(steps, s)
    ensures RequestInv(s) && StatusInv(s) && s.table == Outstanding(s.tableOps)
    decreases |steps|
  {
    if steps == [] {
      assert ViewInv(ViewOf(s));
    } else {
      var before, step := Run(steps[..|steps| - 1]).value, steps[|steps| - 1];
      RunInv(steps[..|steps| - 1], before);
      RequestStep(before, step);
      StatusStep(before, step);
      TableStep(before, step);
    }
  }

  // ---------------------------------------------------------------- queue and status

  /** Outside idle_mutex an idle source is pending exactly when helpers are queued, and never two. */
  lemma OneIdleSource(steps: seq<Step>, s: State)
    requires Reaches(steps, s)
    ensures s.pending <= 1
    ensures s.dispatching.None? ==> (s.pending == 1 <==> s.queue != []) && (s.idleId != 0 <==> s.queue != [])
  {
    RunInv(steps, s);
  }

  /** What was queued is what the queue has emitted followed by what it still holds: every helper is
      emitted exactly once and in queue order. */
  lemma EmittedOnceInOrder(steps: seq<Step>, s: State)
    requires Reaches(steps, s)
    ensures FromQueue(s.delivered) + Waiting(s) == s.posted
  {
    RunInv(steps, s);
  }

  /** With no status notification queued and no thread between its write and its notification, the
      last value on ::status-changed is the current status. */
  lemma StatusSettles(steps: seq<Step>, s: State)
    requires Reaches(steps, s)
    requires StatusHelper !in Waiting(s) && !StatusInFlight(s)
    ensures LastStatus(s.delivered) == s.status
  {
    RunInv(steps, s);
  }

  ghost predicate Quiet(s: State) {
    s.pending == 0 && s.dispatching.None? && forall c | c in s.calls :: s.calls[c].pc.Done?
  }

  /** Once all calls returned and no idle source is left the user has heard everything. */
  lemma QuietIsPublished(steps: seq<Step>, s: State)
    requires Reaches(steps, s) && Quiet(s)
    ensures s.queue == [] && FromQueue(s.delivered) == s.posted && LastStatus(s.delivered) == s.status
  {
    RunInv(steps, s);
    assert FromQueue(s.delivered) + [] == FromQueue(s.delivered);
  }

  // ---------------------------------------------------------------- the table of immediate requests

  function DeviceOf(op: TableOp): DeviceId {
    match op
    case Inserted(em) => em.Device()
    case Changed(d) => d
  }

  /** The requests a history of critical sections leaves outstanding. */
  ghost function Outstanding(ops: seq<TableOp>): map<DeviceId, Emission> {
    if ops == [] then map[]
    else
      var op, before := ops[|ops| - 1], Outstanding(ops[..|ops| - 1]);
      match op
      case Inserted(em) => before[em.Device() := em]
      case Changed(d) => before - {d}
  }

  /** `em` is the latest request for `d`, and `d` has not changed since. */
  ghost predicate LatestSinceChange(ops: seq<TableOp>, d: DeviceId, em: Emission) {
    exists i :: 0 <= i < |ops| && ops[i] == Inserted(em) && em.Device() == d
             && forall j :: i < j < |ops| ==> DeviceOf(ops[j]) != d
  }

  lemma {:induction false} OutstandingMeaning(ops: seq<TableOp>, d: DeviceId, em: Emission)
    ensures (d in Outstanding(ops) && Outstanding(ops)[d] == em) <==> LatestSinceChange(ops, d, em)
    decreases |ops|
  {
    if ops != [] {
      var n := |ops| - 1;
      var before := ops[..n];
      OutstandingMeaning(before, d, em);
      if DeviceOf(ops[n]) == d {
        assert LatestSinceChange(ops, d, em) ==> ops[n] == Inserted(em);
        assert ops[n] == Inserted(em) ==> LatestSinceChange(ops, d, em);
      } else {
        if LatestSinceChange(before, d, em) {
          var i :| 0 <= i < n && before[i] == Inserted(em) && em.Device() == d
                && forall j :: i < j < n ==> DeviceOf(before[j]) != d;
          assert ops[i] == Inserted(em) && forall j :: i < j < |ops| ==> DeviceOf(ops[j]) != d;
        }
        if LatestSinceChange(ops, d, em) {
          var i :| 0 <= i < |ops| && ops[i] == Inserted(em) && em.Device() == d
                && forall j :: i < j < |ops| ==> DeviceOf(ops[j]) != d;
          assert before[i] == Inserted(em) && forall j :: i < j < n ==> before[j] == ops[j];
        }
      }
    }
  }

  lemma TableStep(s: State, step: Step)
    requires Enabled(s, step) && s.table == Outstanding(s.tableOps)
    ensures Apply(s, step).table == Outstanding(Apply(s, step).tableOps)
  {
    var s' := Apply(s, step);
    if s'.tableOps != s.tableOps {
      assert s'.tableOps[..|s.tableOps|] == s.tableOps;
    }
  }

  /** The table refines the event history: an entry is the latest immediate request for its device
      since the device's last change to a status other than waiting-for-user. */
  lemma TableIsHistory(steps: seq<Step>, s: State, d: DeviceId, em: Emission)
    requires Reaches(steps, s)
    ensures (d in s.table && s.table[d] == em) <==> LatestSinceChange(s.tableOps, d, em)
  {
    RunInv(steps, s);
    OutstandingMeaning(s.tableOps, d, em);
  }

  /** The user never hears the same emission twice, nor its invalidation twice. */
  lemma InvalidatedAtMostOnce(steps: seq<Step>, s: State)
    requires Reaches(steps, s)
    ensures AtMostOnce(Helpers(s.delivered))
    ensures AtMostOnce(s.posted)
  {
    RunInv(steps, s);
    assert forall i :: 0 <= i < |s.delivered| ==> Helpers(s.delivered)[i] == Issued(s)[i];
    PostedOnce(s.delivered, Waiting(s));
  }

  lemma {:induction false} PostedOnce(ds: seq<Delivery>, rest: seq<Helper>)
    requires AtMostOnce(Helpers(ds) + rest)
    ensures AtMostOnce(FromQueue(ds) + rest)
    decreases |ds|
  {
    if ds == [] {
      assert FromQueue(ds) + rest == rest == Helpers(ds) + rest;
    } else {
      var n := |ds| - 1;
      var before, h := ds[..n], ds[n].h;
      assert Helpers(ds) + rest == Helpers(before) + [h] + rest;
      if ds[n].queued {
        assert Helpers(before) + [h] + rest == Helpers(before) + ([h] + rest);
        PostedOnce(before, [h] + rest);
        assert FromQueue(ds) + rest == FromQueue(before) + ([h] + rest);
      } else {
        Dropping(Helpers(before), h, rest);
        PostedOnce(before, rest);
      }
    }
  }

  lemma Dropping(a: seq<Helper>, h: Helper, b: seq<Helper>)
    requires AtMostOnce(a + [h] + b)
    ensures AtMostOnce(a + b)
  {
    var was, now := a + [h] + b, a + b;
    forall i, j | 0 <= i < j < |now| && AboutRequest(now[i])
      ensures now[i] != now[j]
    {
      assert now[i] == was[if i < |a| then i else i + 1] && now[j] == was[if j < |a| then j else j + 1];
    }
  }

  // ---------------------------------------------------------------- order of signal and invalidation

  /** No device change is announced from the thread that owns the main context. */
  ghost predicate ChangesFromWorkers(steps: seq<Step>) {
    forall i :: 0 <= i < |steps| && steps[i].EmitDeviceChanged? ==> !steps[i].owner
  }

  ghost predicate Changing(pc: Pc) {
    pc.Lookup? || pc.Remove? || ((pc.Emit? || pc.Post?) && (pc.h.DeviceChanged? || pc.h.Invalidate?))
  }

  ghost predicate WorkersInv(s: State) {
    forall c | c in s.calls && Changing(s.calls[c].pc) :: !s.calls[c].owner
  }

  lemma WorkersStep(s: State, step: Step)
    requires WorkersInv(s) && Enabled(s, step) && (step.EmitDeviceChanged? ==> !step.owner)
    ensures WorkersInv(Apply(s, step)) && !InvalidatesDirectly(s, step)
  {
  }

  lemma {:induction false} WorkersRun(steps: seq<Step>, s: State)
    requires Reaches(steps, s) && ChangesFromWorkers(steps)
    ensures WorkersInv(s) && SignalFirst(Issued(s))
    decreases |steps|
  {
    if steps != [] {
      var n := |steps| - 1;
      var before := Run(steps[..n]).value;
      WorkersRun(steps[..n], before);
      RunInv(steps[..n], before);
      WorkersStep(before, steps[n]);
      SignalFirstStep(before, steps[n]);
    }
  }

  /** No device request is announced from the thread that owns the main context. */
  ghost predicate RequestsFromWorkers(steps: seq<Step>) {
    forall i :: 0 <= i < |steps| && steps[i].EmitDeviceRequest? ==> !steps[i].owner
  }

  /** Every request that was issued went through the queue. */
  ghost predicate AllQueued(issued: seq<Helper>, posted: seq<Helper>) {
    forall h :: h in issued && h.DeviceRequest? ==> h in posted
  }

  ghost predicate RequestsByWorkers(s: State) {
    forall c | c in s.calls && (s.calls[c].pc.Emit? || s.calls[c].pc.Post?) && s.calls[c].pc.h.DeviceRequest? ::
      !s.calls[c].owner
  }

  ghost predicate QueuedInv(s: State) {
    RequestsByWorkers(s) && AllQueued(Issued(s), s.posted) && SignalFirst(s.posted)
  }

  lemma RequestsByWorkersStep(s: State, step: Step)
    requires RequestsByWorkers(s) && Enabled(s, step) && (step.EmitDeviceRequest? ==> !step.owner)
    ensures RequestsByWorkers(Apply(s, step))
  {
  }

  lemma AllQueuedPost(issued: seq<Helper>, posted: seq<Helper>, h: Helper)
    requires AllQueued(issued, posted)
    ensures AllQueued(issued + [h], posted + [h])
  {
  }

  lemma AllQueuedDirect(a: seq<Helper>, b: seq<Helper>, posted: seq<Helper>, h: Helper)
    requires AllQueued(a + b, posted) && !h.DeviceRequest?
    ensures AllQueued(a + [h] + b, posted)
  {
    forall x | x in a + [h] + b && x.DeviceRequest? ensures x in posted {
      assert x in a + b;
    }
  }

  lemma QueuedPost(s: State, c: CallId)
    requires RequestInv(s) && AllQueued(Issued(s), s.posted) && SignalFirst(s.posted)
    requires c in s.calls && s.calls[c].pc.Post? && Enabled(s, Advance(c))
    ensures AllQueued(Issued(Advanced(s, c)), Advanced(s, c).posted) && SignalFirst(Advanced(s, c).posted)
  {
    var h := s.calls[c].pc.h;
    IssuedFacts(s, c, h);
    IssueQueued(s, h);
    assert Issued(Advanced(s, c)) == Issued(s) + [h];
    AllQueuedPost(Issued(s), s.posted, h);
    SignalFirstAppend(s.posted, h);
  }

  lemma QueuedDirect(s: State, c: CallId)
    requires RequestInv(s) && AllQueued(Issued(s), s.posted) && c in s.calls && s.calls[c].owner
    requires s.calls[c].pc.Emit? && !s.calls[c].pc.h.DeviceRequest?
    ensures AllQueued(Issued(Advanced(s, c)), s.posted)
  {
    var h := s.calls[c].pc.h;
    IssuedFacts(s, c, h);
    IssueDirect(s, h);
    assert Issued(Advanced(s, c)) == Issued(Deliver(s, h, false));
    AllQueuedDirect(Helpers(s.delivered), Waiting(s), s.posted, h);
  }

  /** The step neither queues a helper nor emits one directly. */
  ghost predicate IssuesNothing(s: State, step: Step) {
    step.Advance? && step.c in s.calls ==>
      !s.calls[step.c].pc.Post? && !(s.calls[step.c].pc.Emit? && s.calls[step.c].owner)
  }

  lemma SameIssued(s: State, step: Step)
    requires QueueInv(s) && Enabled(s, step) && IssuesNothing(s, step)
    ensures Issued(Apply(s, step)) == Issued(s) && Apply(s, step).posted == s.posted
  {
    var s' := Apply(s, step);
    if step.Fire? || step.DispatchNext? || step.DispatchEnd? {
      IssueNothing(s, step);
    } else {
      assert s'.delivered == s.delivered && s'.queue == s.queue && s'.dispatching == s.dispatching;
    }
  }

  lemma QueuedStep(s: State, step: Step)
    requires RequestInv(s) && QueuedInv(s) && Enabled(s, step) && (step.EmitDeviceRequest? ==> !step.owner)
    ensures QueuedInv(Apply(s, step))
  {
    RequestsByWorkersStep(s, step);
    if IssuesNothing(s, step) {
      SameIssued(s, step);
    } else if s.calls[step.c].pc.Post? {
      QueuedPost(s, step.c);
    } else {
      QueuedDirect(s, step.c);
    }
  }

  lemma {:induction false} QueuedRun(steps: seq<Step>, s: State)
    requires Reaches(steps, s) && RequestsFromWorkers(steps)
    ensures QueuedInv(s)
    decreases |steps|
  {
    if steps != [] {
      var n := |steps| - 1;
      var before := Run(steps[..n]).value;
      QueuedRun(steps[..n], before);
      RunInv(steps[..n], before);
      QueuedStep(before, steps[n]);
    }
  }

  /** When device changes come from worker threads, a request is always signalled before it is
      invalidated, to the user and in what the user will be told next. */
  lemma WorkersKeepOrder(steps: seq<Step>, s: State)
    requires Reaches(steps, s) && ChangesFromWorkers(steps)
    ensures SignalFirst(Helpers(s.delivered)) && SignalFirst(Issued(s))
  {
    WorkersRun(steps, s);
    var ds := Helpers(s.delivered);
    assert forall j :: 0 <= j <= |ds| ==> Issued(s)[..j] == ds[..j];
    assert forall j :: 0 <= j < |ds| ==> Issued(s)[j] == ds[j];
  }

  /** When requests come from worker threads, the queue itself always holds a signal ahead of its
      invalidation, whoever announces the changes. */
  lemma QueueKeepsOrder(steps: seq<Step>, s: State)
    requires Reaches(steps, s) && RequestsFromWorkers(steps)
    ensures SignalFirst(s.posted)
  {
    QueuedRun(steps, s);
  }

  /** From any reachable state the owner's shortcut keeps that order exactly when the request it
      invalidates is not still waiting in the queue. */
  lemma ShortcutKeepsOrder(steps: seq<Step>, s: State, c: CallId)
    requires Reaches(steps, s) && SignalFirst(Helpers(s.delivered))
    requires Enabled(s, Advance(c)) && InvalidatesDirectly(s, Advance(c))
    ensures SignalFirst(Helpers(Apply(s, Advance(c)).delivered)) <==> DeviceRequest(s.calls[c].pc.h.em) !in Waiting(s)
  {
    RunInv(steps, s);
    ShortcutOrder(s, c);
  }

  lemma Extend(steps: seq<Step>, step: Step)
    requires Run(steps).Some? && Enabled(Run(steps).value, step)
    ensures Run(steps + [step]) == Some(Apply(Run(steps).value, step))
  {
    assert (steps + [step])[..|steps|] == steps;
  }

  lemma Extend2(steps: seq<Step>, a: Step, b: Step, s: State)
    requires Run(steps).Some? && Enabled(Run(steps).value, a) && Enabled(Apply(Run(steps).value, a), b)
    requires s == Apply(Apply(Run(steps).value, a), b)
    ensures Reaches(steps + [a, b], s)
  {
    Extend(steps, a);
    Extend(steps + [a], b);
    assert steps + [a] + [b] == steps + [a, b];
  }

  const SomeRequest := Emission(0, true, Some("d"))

  /** A worker has queued the signal of a request that is not in the table yet. */
  const SignalQueued: State :=
    State(0, 1, [DeviceRequest(SomeRequest)], None, 1, None, map[], map[0 := Call(false, Insert(SomeRequest))], 1,
          [], [DeviceRequest(SomeRequest)], [])

  const RequestSteps: seq<Step> := [EmitDeviceRequest(0, false, true, Some("d")), Advance(0), Advance(0)]

  lemma ReachSignalQueued() returns (steps: seq<Step>)
    ensures Reaches(steps, SignalQueued) && steps == RequestSteps
  {
    Extend([], EmitDeviceRequest(0, false, true, Some("d")));
    steps := [] + [EmitDeviceRequest(0, false, true, Some("d"))];
    Extend2(steps, Advance(0), Advance(0), SignalQueued);
    steps := steps + [Advance(0), Advance(0)];
  }

  /** The signal is still queued when the owner of the main context finds the request in the table. */
  const RequestFound: State :=
    State(0, 1, [DeviceRequest(SomeRequest)], None, 1, Some(1), map["d" := SomeRequest],
          map[0 := Call(false, Done), 1 := Call(true, Emit(Invalidate(SomeRequest)))], 1,
          [Delivery(DeviceChanged("d", false), false, 0)], [DeviceRequest(SomeRequest)], [Inserted(SomeRequest)])

  const FoundSteps: seq<Step> :=
    RequestSteps + [Advance(0), EmitDeviceChanged(1, true, "d", false)] + [Advance(1), Advance(1)]

  lemma ReachChangeBegun() returns (steps: seq<Step>)
    ensures steps == RequestSteps + [Advance(0), EmitDeviceChanged(1, true, "d", false)]
    ensures Reaches(steps, Apply(Apply(SignalQueued, Advance(0)), EmitDeviceChanged(1, true, "d", false)))
  {
    steps := ReachSignalQueued();
    var change := EmitDeviceChanged(1, true, "d", false);
    Extend2(steps, Advance(0), change, Apply(Apply(SignalQueued, Advance(0)), change));
    steps := steps + [Advance(0), change];
  }

  lemma ReachRequestFound() returns (steps: seq<Step>)
    ensures Reaches(steps, RequestFound) && steps == FoundSteps
  {
    steps := ReachChangeBegun();
    Extend2(steps, Advance(1), Advance(1), RequestFound);
    steps := steps + [Advance(1), Advance(1)];
  }

  /** A worker announces a request, then the owner announces the device changed: the user is told to
      drop a request they have not been shown yet. */
  lemma ShortcutOvertakesQueue()
    ensures exists steps, s :: Reaches(steps, s) && !SignalFirst(Helpers(s.delivered))
  {
    var steps := ReachRequestFound();
    var s := Apply(RequestFound, Advance(1));
    Extend(steps, Advance(1));
    assert Helpers(s.delivered)[1] == Invalidate(SomeRequest);
    assert Reaches(steps + [Advance(1)], s);
  }
}
