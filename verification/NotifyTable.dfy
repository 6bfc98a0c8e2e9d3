/** The table of immediate requests follows the order in which its mutex was taken, the user follows the
    order in which signals are delivered: when the two agree about a device. */
module NotifyTable {
  import opened Wrappers
  import opened Notify
  import opened NotifyRuns
  import opened CallSums

  /** What a signal says about immediate requests. */
  ghost function Said(h: Helper): seq<TableOp> {
    match h
    case DeviceRequest(em) => if em.Tracked() then [Inserted(em)] else []
    case DeviceChanged(d, waiting) => if waiting then [] else [Changed(d)]
    case _ => []
  }

  ghost function SignalOps(hs: seq<Helper>): seq<TableOp> {
    if hs == [] then [] else SignalOps(hs[..|hs| - 1]) + Said(hs[|hs| - 1])
  }

  /** What the user has been told and will be told next, in that order. */
  ghost function Signals(s: State): seq<TableOp> {
    SignalOps(Issued(s))
  }

  /** The operations about one device, in order. */
  ghost function OpsOn(ops: seq<TableOp>, d: DeviceId): seq<TableOp> {
    if ops == [] then []
    else OpsOn(ops[..|ops| - 1], d) + if DeviceOf(ops[|ops| - 1]) == d then [ops[|ops| - 1]] else []
  }

  ghost function LastAbout(ops: seq<TableOp>, d: DeviceId): Option<TableOp> {
    var on := OpsOn(ops, d);
    if on == [] then None else Some(on[|on| - 1])
  }

  /** The operation that a call has signalled and not yet carried out. */
  ghost function Owed(pc: Pc): Option<TableOp> {
    match pc
    case Insert(em) => Some(Inserted(em))
    case Lookup(d) => Some(Changed(d))
    case Remove(em) => Some(Changed(em.Device()))
    case Emit(h) => if h.Invalidate? then Some(Changed(h.em.Device())) else None
    case Post(h) => if h.Invalidate? then Some(Changed(h.em.Device())) else None
    case _ => None
  }

  /** The device a call is announcing something about. */
  ghost function About(pc: Pc): Option<DeviceId> {
    if Owed(pc).Some? then Some(DeviceOf(Owed(pc).value))
    else if (pc.Emit? || pc.Post?) && pc.h.DeviceRequest? then pc.h.em.target
    else if (pc.Emit? || pc.Post?) && pc.h.DeviceChanged? then Some(pc.h.device)
    else None
  }

  ghost predicate AnnouncingOn(s: State, d: DeviceId) {
    exists c :: c in s.calls && About(s.calls[c].pc) == Some(d)
  }

  // ---------------------------------------------------------------- sequences of operations

  lemma {:induction false} SignalOpsConcat(a: seq<Helper>, b: seq<Helper>)
    ensures SignalOps(a + b) == SignalOps(a) + SignalOps(b)
    decreases |b|
  {
    if b == [] {
      assert a + b == a;
    } else {
      assert (a + b)[..|a + b| - 1] == a + b[..|b| - 1];
      SignalOpsConcat(a, b[..|b| - 1]);
    }
  }

  lemma SignalOpsOne(h: Helper)
    ensures SignalOps([h]) == Said(h)
  {
    assert [h][..0] == [];
  }

  lemma {:induction false} OpsOnConcat(a: seq<TableOp>, b: seq<TableOp>, d: DeviceId)
    ensures OpsOn(a + b, d) == OpsOn(a, d) + OpsOn(b, d)
    decreases |b|
  {
    if b == [] {
      assert a + b == a;
    } else {
      assert (a + b)[..|a + b| - 1] == a + b[..|b| - 1];
      OpsOnConcat(a, b[..|b| - 1], d);
    }
  }

  lemma OpsOnOne(op: TableOp, d: DeviceId)
    ensures OpsOn([op], d) == if DeviceOf(op) == d then [op] else []
  {
    assert [op][..0] == [];
  }

  lemma {:induction false} OpsOnMember(ops: seq<TableOp>, d: DeviceId, op: TableOp)
    ensures op in OpsOn(ops, d) <==> op in ops && DeviceOf(op) == d
    decreases |ops|
  {
    if ops != [] {
      OpsOnMember(ops[..|ops| - 1], d, op);
      assert ops == ops[..|ops| - 1] + [ops[|ops| - 1]];
    }
  }

  lemma {:induction false} LatestIsLast(ops: seq<TableOp>, d: DeviceId, em: Emission)
    ensures LatestSinceChange(ops, d, em) <==> LastAbout(ops, d) == Some(Inserted(em))
    decreases |ops|
  {
    OutstandingMeaning(ops, d, em);
    if ops != [] {
      var before := ops[..|ops| - 1];
      OutstandingMeaning(before, d, em);
      LatestIsLast(before, d, em);
    }
  }

  // ---------------------------------------------------------------- what a step of a call does

  ghost predicate KeysMatch(table: map<DeviceId, Emission>) {
    forall d | d in table :: table[d].Device() == d
  }

  /** The signals before and behind the place where a call puts its own: the owner thread speaks at once,
      a worker behind everything that is queued. */
  ghost function Ahead(s: State, owner: bool): seq<TableOp> {
    if owner then SignalOps(Helpers(s.delivered)) else Signals(s)
  }

  ghost function Behind(s: State, owner: bool): seq<TableOp> {
    if owner then SignalOps(Waiting(s)) else []
  }

  lemma AheadBehind(s: State, owner: bool)
    ensures Signals(s) == Ahead(s, owner) + Behind(s, owner)
  {
    SignalOpsConcat(Helpers(s.delivered), Waiting(s));
  }

  ghost predicate Moves(s: State, s': State, pc: Pc, pc': Pc) {
    Signals(s') == Signals(s) && s'.tableOps == s.tableOps && Owed(pc') == Owed(pc)
  }

  ghost predicate Says(s: State, s': State, owner: bool, pc: Pc, pc': Pc) {
    && Owed(pc).None? && Owed(pc').Some? && s'.tableOps == s.tableOps
    && Signals(s') == Ahead(s, owner) + [Owed(pc').value] + Behind(s, owner)
  }

  ghost predicate Does(s: State, s': State, pc: Pc, pc': Pc) {
    && Owed(pc).Some? && Owed(pc').None? && Signals(s') == Signals(s)
    && s'.tableOps == s.tableOps + [Owed(pc).value]
  }

  ghost predicate Effect(s: State, s': State, owner: bool, pc: Pc, pc': Pc) {
    Moves(s, s', pc, pc') || Says(s, s', owner, pc, pc') || Does(s, s', pc, pc')
  }

  /** What is said is owed from then on. */
  lemma OwedAfter(h: Helper)
    ensures Said(h) == [] ==> Owed(After(h)) == Owed(Emit(h)) == Owed(Post(h))
    ensures Said(h) != [] ==> Owed(After(h)).Some? && Said(h) == [Owed(After(h)).value]
    ensures Said(h) != [] ==> Owed(Emit(h)).None? && Owed(Post(h)).None?
  {
  }

  lemma IssuedDeliver(s: State, h: Helper)
    ensures Issued(Deliver(s, h, false)) == Helpers(s.delivered) + [h] + Waiting(s)
  {
    assert Helpers(Deliver(s, h, false).delivered) == Helpers(s.delivered) + [h];
  }

  lemma IssuedEnqueue(s: State, h: Helper)
    requires s.dispatching.None?
    ensures Issued(Enqueue(s, h)) == Issued(s) + [h]
  {
    assert Helpers(s.delivered) + (s.queue + [h]) == Issued(s) + [h];
  }

  lemma SignalsDirect(a: seq<Helper>, h: Helper, b: seq<Helper>)
    ensures SignalOps(a + [h] + b) == SignalOps(a) + Said(h) + SignalOps(b)
  {
    SignalOpsConcat(a + [h], b);
    SignalOpsConcat(a, [h]);
    SignalOpsOne(h);
  }

  lemma EmitEffect(s: State, c: CallId)
    requires Enabled(s, Advance(c)) && s.calls[c].owner && s.calls[c].pc.Emit?
    ensures Effect(s, Advanced(s, c), true, s.calls[c].pc, Advanced(s, c).calls[c].pc)
  {
    var h := s.calls[c].pc.h;
    EmitIssued(s, c);
    IssuedDeliver(s, h);
    SignalsDirect(Helpers(s.delivered), h, Waiting(s));
    AheadBehind(s, true);
    OwedAfter(h);
    assert Said(h) == [] ==> SignalOps(Helpers(s.delivered)) + [] == SignalOps(Helpers(s.delivered));
  }

  lemma PostEffect(s: State, c: CallId)
    requires Enabled(s, Advance(c)) && s.calls[c].pc.Post?
    ensures Effect(s, Advanced(s, c), false, s.calls[c].pc, Advanced(s, c).calls[c].pc)
  {
    var h := s.calls[c].pc.h;
    PostIssued(s, c);
    IssuedEnqueue(s, h);
    SignalOpsConcat(Issued(s), [h]);
    SignalOpsOne(h);
    OwedAfter(h);
    assert Signals(s) + Said(h) + [] == Signals(s) + Said(h) && Signals(s) + [] == Signals(s);
  }

  lemma QuietEffect(s: State, c: CallId)
    requires KeysMatch(s.table) && Enabled(s, Advance(c)) && !s.calls[c].pc.Post?
    requires s.calls[c].pc.Emit? ==> !s.calls[c].owner
    ensures Effect(s, Advanced(s, c), s.calls[c].owner, s.calls[c].pc, Advanced(s, c).calls[c].pc)
  {
    QuietIssued(s, c);
    QuietTable(s, c);
  }

  lemma QuietTable(s: State, c: CallId)
    requires KeysMatch(s.table) && Enabled(s, Advance(c)) && !s.calls[c].pc.Post?
    requires s.calls[c].pc.Emit? ==> !s.calls[c].owner
    ensures var (s', pc) := (Advanced(s, c), s.calls[c].pc);
            || (s'.tableOps == s.tableOps && Owed(s'.calls[c].pc) == Owed(pc))
            || (Owed(pc).Some? && Owed(s'.calls[c].pc).None? && s'.tableOps == s.tableOps + [Owed(pc).value])
  {
  }

  /** Only the owner thread speaks at once, and it never queues. */
  ghost predicate OwnersSpeak(s: State) {
    forall c | c in s.calls && s.calls[c].pc.Post? :: !s.calls[c].owner
  }

  lemma AdvanceEffect(s: State, c: CallId)
    requires KeysMatch(s.table) && OwnersSpeak(s) && Enabled(s, Advance(c))
    ensures Effect(s, Advanced(s, c), s.calls[c].owner, s.calls[c].pc, Advanced(s, c).calls[c].pc)
  {
    if s.calls[c].pc.Post? {
      PostEffect(s, c);
    } else if s.calls[c].pc.Emit? && s.calls[c].owner {
      EmitEffect(s, c);
    } else {
      QuietEffect(s, c);
    }
  }

  lemma AdvanceSelf(s: State, c: CallId)
    requires Enabled(s, Advance(c))
    ensures var s' := Advanced(s, c);
            s'.calls == s.calls[c := s'.calls[c]] && s'.calls[c].owner == s.calls[c].owner
  {
  }

  lemma AdvanceAbout(s: State, c: CallId)
    requires KeysMatch(s.table) && Enabled(s, Advance(c))
    ensures var pc' := Advanced(s, c).calls[c].pc;
            About(pc').Some? ==> About(pc') == About(s.calls[c].pc)
  {
  }

  /** A call changes itself only, and goes on about the same device until it is done with it. */
  lemma AdvanceCalls(s: State, c: CallId)
    requires KeysMatch(s.table) && Enabled(s, Advance(c))
    ensures var s' := Advanced(s, c);
            && s'.calls == s.calls[c := s'.calls[c]] && s'.calls[c].owner == s.calls[c].owner
            && (About(s'.calls[c].pc).Some? ==> About(s'.calls[c].pc) == About(s.calls[c].pc))
  {
    AdvanceSelf(s, c);
    AdvanceAbout(s, c);
  }

  lemma OwnersSpeakStep(s: State, step: Step)
    requires OwnersSpeak(s) && Enabled(s, step)
    ensures OwnersSpeak(Apply(s, step))
  {
  }

  lemma TableKeys(steps: seq<Step>, s: State)
    requires Reaches(steps, s)
    ensures KeysMatch(s.table)
  {
    RunInv(steps, s);
    assert forall d | d in s.table :: EntryInv(ViewOf(s), d, s.table[d]);
  }

  // ---------------------------------------------------------------- every announcement is carried out once

  ghost function Owes(op: TableOp): Call -> nat {
    (call: Call) => if Owed(call.pc) == Some(op) then 1 else 0
  }

  /** What was signalled is what the table section has seen and what calls still owe it. */
  ghost predicate Balanced(s: State, op: TableOp) {
    multiset(Signals(s))[op] == multiset(s.tableOps)[op] + Total(s.calls, Owes(op))
  }

  lemma CountInsert(a: seq<TableOp>, more: TableOp, b: seq<TableOp>, op: TableOp)
    ensures multiset(a + [more] + b)[op] == multiset(a + b)[op] + if more == op then 1 else 0
  {
    assert multiset(a + [more] + b) == multiset(a) + multiset([more]) + multiset(b);
    assert multiset(a + b) == multiset(a) + multiset(b);
  }

  lemma CountAppend(a: seq<TableOp>, more: TableOp, op: TableOp)
    ensures multiset(a + [more])[op] == multiset(a)[op] + if more == op then 1 else 0
  {
  }

  lemma BalancedEffect(s: State, s': State, c: CallId, op: TableOp)
    requires Balanced(s, op) && c in s.calls && c in s'.calls && s'.calls == s.calls[c := s'.calls[c]]
    requires Effect(s, s', s.calls[c].owner, s.calls[c].pc, s'.calls[c].pc)
    ensures Balanced(s', op)
  {
    var (owner, pc, pc') := (s.calls[c].owner, s.calls[c].pc, s'.calls[c].pc);
    TotalMove(s.calls, Owes(op), c, s'.calls[c]);
    if Does(s, s', pc, pc') {
      CountAppend(s.tableOps, Owed(pc).value, op);
    } else if Says(s, s', owner, pc, pc') {
      AheadBehind(s, owner);
      CountInsert(Ahead(s, owner), Owed(pc').value, Behind(s, owner), op);
    }
  }

  lemma BalancedStep(s: State, step: Step, op: TableOp)
    requires QueueInv(s) && Balanced(s, op) && KeysMatch(s.table) && OwnersSpeak(s) && Enabled(s, step)
    ensures Balanced(Apply(s, step), op)
  {
    var s' := Apply(s, step);
    if step.Advance? {
      AdvanceEffect(s, step.c);
      AdvanceCalls(s, step.c);
      BalancedEffect(s, s', step.c, op);
    } else {
      SameIssued(s, step);
      if s'.calls != s.calls { TotalMove(s.calls, Owes(op), step.c, s'.calls[step.c]); }
    }
  }

  lemma {:induction false} BalancedRun(steps: seq<Step>, s: State, op: TableOp)
    requires Reaches(steps, s)
    ensures Balanced(s, op) && OwnersSpeak(s)
    decreases |steps|
  {
    if steps == [] {
      TotalZero(s.calls, Owes(op));
    } else {
      var n := |steps| - 1;
      var before := Run(steps[..n]).value;
      BalancedRun(steps[..n], before, op);
      TableKeys(steps[..n], before);
      RunInv(steps[..n], before);
      BalancedStep(before, steps[n], op);
      OwnersSpeakStep(before, steps[n]);
    }
  }

  /** In every run, once nothing about a device is in flight, what was signalled about it has been carried
      out, each announcement exactly as often as it was signalled. */
  lemma CarriedOut(steps: seq<Step>, s: State, op: TableOp)
    requires Reaches(steps, s) && !AnnouncingOn(s, DeviceOf(op))
    ensures multiset(Signals(s))[op] == multiset(s.tableOps)[op]
  {
    BalancedRun(steps, s, op);
    assert forall c | c in s.calls :: About(s.calls[c].pc) != Some(DeviceOf(op));
    TotalZero(s.calls, Owes(op));
  }

  // ---------------------------------------------------------------- when the two orders agree

  /** The table holds for `d` what the signals make the user expect. */
  ghost predicate AgreesOn(s: State, d: DeviceId) {
    forall em :: (d in s.table && s.table[d] == em) <==> LatestSinceChange(Signals(s), d, em)
  }

  /** In every run, once nothing about a device is in flight, the table agrees with the signals about it if
      and only if the last announcement about it that the user hears is the last that entered the table
      section, or both are changes. */
  lemma TableAgreesIff(steps: seq<Step>, s: State, d: DeviceId)
    requires Reaches(steps, s) && !AnnouncingOn(s, d)
    ensures AgreesOn(s, d) <==> LastAbout(Signals(s), d) == LastAbout(s.tableOps, d)
  {
    assert AgreesOn(s, d) <==> SameRequest(LastAbout(Signals(s), d), LastAbout(s.tableOps, d)) by {
      forall em
        ensures (d in s.table && s.table[d] == em) <==> LastAbout(s.tableOps, d) == Some(Inserted(em))
        ensures LatestSinceChange(Signals(s), d, em) <==> LastAbout(Signals(s), d) == Some(Inserted(em))
      {
        BothLast(steps, s, d, em);
      }
    }
    SomeOnBoth(steps, s, d);
    LastIsAbout(Signals(s), d);
    LastIsAbout(s.tableOps, d);
    SameLast(LastAbout(Signals(s), d), LastAbout(s.tableOps, d), d);
  }

  ghost predicate SameRequest(a: Option<TableOp>, b: Option<TableOp>) {
    forall em :: a == Some(Inserted(em)) <==> b == Some(Inserted(em))
  }

  lemma SameLast(a: Option<TableOp>, b: Option<TableOp>, d: DeviceId)
    requires (a.None? <==> b.None?) && (a.Some? ==> DeviceOf(a.value) == d) && (b.Some? ==> DeviceOf(b.value) == d)
    ensures SameRequest(a, b) <==> a == b
  {
    if a.Some? && a.value.Inserted? { assert a == Some(Inserted(a.value.em)); }
    if b.Some? && b.value.Inserted? { assert b == Some(Inserted(b.value.em)); }
  }

  lemma BothLast(steps: seq<Step>, s: State, d: DeviceId, em: Emission)
    requires Reaches(steps, s)
    ensures (d in s.table && s.table[d] == em) <==> LastAbout(s.tableOps, d) == Some(Inserted(em))
    ensures LatestSinceChange(Signals(s), d, em) <==> LastAbout(Signals(s), d) == Some(Inserted(em))
  {
    TableIsHistory(steps, s, d, em);
    LatestIsLast(s.tableOps, d, em);
    LatestIsLast(Signals(s), d, em);
  }

  lemma LastIsAbout(ops: seq<TableOp>, d: DeviceId)
    ensures LastAbout(ops, d).Some? ==> LastAbout(ops, d).value in ops && DeviceOf(LastAbout(ops, d).value) == d
  {
    var on := OpsOn(ops, d);
    if on != [] {
      assert on[|on| - 1] in on;
      OpsOnMember(ops, d, on[|on| - 1]);
    }
  }

  /** Something was signalled about the device exactly when something was carried out. */
  lemma SomeOnBoth(steps: seq<Step>, s: State, d: DeviceId)
    requires Reaches(steps, s) && !AnnouncingOn(s, d)
    ensures LastAbout(Signals(s), d).None? <==> LastAbout(s.tableOps, d).None?
  {
    LastIsAbout(Signals(s), d);
    LastIsAbout(s.tableOps, d);
    if LastAbout(Signals(s), d).Some? {
      CarriedOut(steps, s, LastAbout(Signals(s), d).value);
      AboutToo(Signals(s), s.tableOps, d, LastAbout(Signals(s), d).value);
    }
    if LastAbout(s.tableOps, d).Some? {
      CarriedOut(steps, s, LastAbout(s.tableOps, d).value);
      AboutToo(s.tableOps, Signals(s), d, LastAbout(s.tableOps, d).value);
    }
  }

  lemma AboutToo(a: seq<TableOp>, b: seq<TableOp>, d: DeviceId, op: TableOp)
    requires op in a && DeviceOf(op) == d && multiset(a)[op] == multiset(b)[op]
    ensures LastAbout(b, d).Some?
  {
    assert op in multiset(a) && op in multiset(b);
    OpsOnMember(b, d, op);
  }

  // ---------------------------------------------------------------- a condition on the callers

  ghost function StepDevice(step: Step): Option<DeviceId> {
    match step
    case EmitDeviceRequest(_, _, _, target) => target
    case EmitDeviceChanged(_, _, device, _) => Some(device)
    case _ => None
  }

  /** Announcements about `d` do not overlap; those about other devices may. */
  ghost predicate NoOverlapOn(steps: seq<Step>, d: DeviceId) {
    forall i :: 0 <= i < |steps| && StepDevice(steps[i]) == Some(d) && Run(steps[..i]).Some? ==>
      !AnnouncingOn(Run(steps[..i]).value, d)
  }

  /** Nothing about `d` is waiting in the queue. */
  ghost predicate NoneWaitingOn(s: State, d: DeviceId) {
    OpsOn(SignalOps(Waiting(s)), d) == []
  }

  /** The owner thread announces nothing about `d` while something about it is still queued. */
  ghost predicate NoOvertakingOn(steps: seq<Step>, d: DeviceId) {
    forall i :: 0 <= i < |steps| && StepDevice(steps[i]) == Some(d) && Run(steps[..i]).Some? ==>
      SpeaksInTurn(steps[i], Run(steps[..i]).value, d)
  }

  ghost predicate SpeaksInTurn(step: Step, s: State, d: DeviceId) {
    step.EmitDeviceRequest? || step.EmitDeviceChanged? ==> step.owner ==> NoneWaitingOn(s, d)
  }

  ghost function OwedSeq(pc: Pc): seq<TableOp> {
    if Owed(pc).Some? then [Owed(pc).value] else []
  }

  ghost function OwedBy(s: State, who: Option<CallId>): seq<TableOp> {
    if who.Some? && who.value in s.calls then OwedSeq(s.calls[who.value].pc) else []
  }

  /** The owner thread has yet to speak. */
  ghost predicate ToSpeak(s: State, who: Option<CallId>) {
    who.Some? && who.value in s.calls && s.calls[who.value].owner && Owed(s.calls[who.value].pc).None?
  }

  /** `who` is the one call that is announcing something about `d`, if any. */
  ghost predicate Alone(s: State, d: DeviceId, who: Option<CallId>) {
    && (forall c | c in s.calls && About(s.calls[c].pc) == Some(d) :: who == Some(c))
    && (who.Some? ==> who.value in s.calls && About(s.calls[who.value].pc) == Some(d))
  }

  ghost predicate SerialOn(s: State, d: DeviceId, who: Option<CallId>) {
    && Alone(s, d, who)
    && OpsOn(Signals(s), d) == OpsOn(s.tableOps, d) + OwedBy(s, who)
    && (ToSpeak(s, who) ==> NoneWaitingOn(s, d))
  }

  lemma AloneAdvance(s: State, s': State, d: DeviceId, c: CallId, who: Option<CallId>)
    requires Alone(s, d, who) && c in s.calls && c in s'.calls && s'.calls == s.calls[c := s'.calls[c]]
    requires About(s'.calls[c].pc).Some? ==> About(s'.calls[c].pc) == About(s.calls[c].pc)
    ensures Alone(s', d, if who == Some(c) && About(s'.calls[c].pc) != Some(d) then None else who)
  {
  }

  /** An operation is put between others: those about `d` stay as they are, or it comes last among them. */
  lemma OpsOnInsert(a: seq<TableOp>, op: TableOp, b: seq<TableOp>, d: DeviceId)
    ensures DeviceOf(op) != d ==> OpsOn(a + [op] + b, d) == OpsOn(a + b, d)
    ensures DeviceOf(op) == d && OpsOn(b, d) == [] ==> OpsOn(a + [op] + b, d) == OpsOn(a + b, d) + [op]
  {
    OpsOnConcat(a + [op], b, d);
    OpsOnConcat(a, [op], d);
    OpsOnOne(op, d);
    OpsOnConcat(a, b, d);
    assert OpsOn(a, d) + [] == OpsOn(a, d);
  }

  lemma OpsOnAppend(ops: seq<TableOp>, op: TableOp, d: DeviceId)
    ensures OpsOn(ops + [op], d) == OpsOn(ops, d) + if DeviceOf(op) == d then [op] else []
  {
    OpsOnConcat(ops, [op], d);
    OpsOnOne(op, d);
  }

  lemma SaysOn(s: State, s': State, d: DeviceId, owner: bool, pc: Pc, pc': Pc)
    requires Says(s, s', owner, pc, pc')
    ensures DeviceOf(Owed(pc').value) != d ==> OpsOn(Signals(s'), d) == OpsOn(Signals(s), d)
    ensures DeviceOf(Owed(pc').value) == d && OpsOn(Behind(s, owner), d) == [] ==>
        OpsOn(Signals(s'), d) == OpsOn(Signals(s), d) + [Owed(pc').value]
  {
    AheadBehind(s, owner);
    OpsOnInsert(Ahead(s, owner), Owed(pc').value, Behind(s, owner), d);
  }

  /** What a call about another device says or does is not about `d`. */
  lemma OtherSignals(s: State, s': State, d: DeviceId, owner: bool, pc: Pc, pc': Pc)
    requires Effect(s, s', owner, pc, pc') && About(pc) != Some(d) && About(pc') != Some(d)
    ensures OpsOn(Signals(s'), d) == OpsOn(Signals(s), d) && OpsOn(s'.tableOps, d) == OpsOn(s.tableOps, d)
  {
    if Does(s, s', pc, pc') {
      OpsOnAppend(s.tableOps, Owed(pc).value, d);
    } else if Says(s, s', owner, pc, pc') {
      SaysOn(s, s', d, owner, pc, pc');
    }
  }

  lemma OwnSays(s: State, s': State, d: DeviceId, owner: bool, pc: Pc, pc': Pc)
    requires Says(s, s', owner, pc, pc') && About(pc') == Some(d) && (owner ==> NoneWaitingOn(s, d))
    requires OpsOn(Signals(s), d) == OpsOn(s.tableOps, d)
    ensures OpsOn(Signals(s'), d) == OpsOn(s'.tableOps, d) + [Owed(pc').value]
  {
    SaysOn(s, s', d, owner, pc, pc');
  }

  lemma OwnDoes(s: State, s': State, d: DeviceId, pc: Pc, pc': Pc)
    requires Does(s, s', pc, pc') && About(pc) == Some(d)
    requires OpsOn(Signals(s), d) == OpsOn(s.tableOps, d) + [Owed(pc).value]
    ensures OpsOn(Signals(s'), d) == OpsOn(s'.tableOps, d)
  {
    OpsOnAppend(s.tableOps, Owed(pc).value, d);
  }

  /** What the call about `d` says comes last about it, and what it does it owed. */
  lemma OwnSignals(s: State, s': State, d: DeviceId, owner: bool, pc: Pc, pc': Pc)
    requires Effect(s, s', owner, pc, pc') && About(pc) == Some(d) && (About(pc').Some? ==> About(pc') == Some(d))
    requires owner && Owed(pc).None? ==> NoneWaitingOn(s, d)
    requires OpsOn(Signals(s), d) == OpsOn(s.tableOps, d) + OwedSeq(pc)
    ensures OpsOn(Signals(s'), d) == OpsOn(s'.tableOps, d) + OwedSeq(pc')
  {
    if Does(s, s', pc, pc') {
      OwnDoes(s, s', d, pc, pc');
      NothingMore(OpsOn(s'.tableOps, d));
    } else if Says(s, s', owner, pc, pc') {
      NothingMore(OpsOn(s.tableOps, d));
      OwnSays(s, s', d, owner, pc, pc');
    } else {
      assert OwedSeq(pc') == OwedSeq(pc) && s'.tableOps == s.tableOps;
    }
  }

  lemma NothingMore(ops: seq<TableOp>)
    ensures ops + [] == ops
  {
  }

  /** Another call queues nothing about `d`. */
  lemma OtherWaiting(s: State, c: CallId, d: DeviceId)
    requires Enabled(s, Advance(c)) && About(s.calls[c].pc) != Some(d) && NoneWaitingOn(s, d)
    ensures NoneWaitingOn(Advanced(s, c), d)
  {
    if s.calls[c].pc.Post? {
      var h := s.calls[c].pc.h;
      assert Waiting(Advanced(s, c)) == Waiting(s) + [h];
      SignalOpsConcat(Waiting(s), [h]);
      SignalOpsOne(h);
      OpsOnConcat(SignalOps(Waiting(s)), Said(h), d);
      SaidAbout(h, d);
    } else {
      assert Waiting(Advanced(s, c)) == Waiting(s);
    }
  }

  lemma SaidAbout(h: Helper, d: DeviceId)
    requires About(Post(h)) != Some(d)
    ensures OpsOn(Said(h), d) == []
  {
    if Said(h) != [] { OpsOnOne(Said(h)[0], d); }
  }

  lemma DispatchWaiting(s: State, step: Step, d: DeviceId)
    requires QueueInv(s) && Enabled(s, step) && !step.Advance? && NoneWaitingOn(s, d)
    ensures NoneWaitingOn(Apply(s, step), d)
  {
    if step.DispatchNext? {
      WaitingDispatch(s);
      var (h, rest) := (s.queue[s.dispatching.value], Waiting(Apply(s, step)));
      SignalOpsConcat([h], rest);
      OpsOnConcat(SignalOps([h]), SignalOps(rest), d);
    } else {
      assert Waiting(Apply(s, step)) == Waiting(s);
    }
  }

  /** The call about `d` moves on. */
  lemma SerialOwn(s: State, d: DeviceId, c: CallId)
    requires KeysMatch(s.table) && OwnersSpeak(s) && SerialOn(s, d, Some(c)) && Enabled(s, Advance(c))
    ensures var s' := Advanced(s, c);
            SerialOn(s', d, if About(s'.calls[c].pc) != Some(d) then None else Some(c))
  {
    var (s', owner) := (Advanced(s, c), s.calls[c].owner);
    AdvanceEffect(s, c);
    AdvanceCalls(s, c);
    AloneAdvance(s, s', d, c, Some(c));
    OwnSignals(s, s', d, owner, s.calls[c].pc, s'.calls[c].pc);
    if owner { HasSpoken(s, c); }
  }

  lemma HasSpoken(s: State, c: CallId)
    requires OwnersSpeak(s) && Enabled(s, Advance(c)) && s.calls[c].owner && About(s.calls[c].pc).Some?
    ensures Owed(Advanced(s, c).calls[c].pc).Some? || About(Advanced(s, c).calls[c].pc).None?
  {
  }

  /** Any other call moves on. */
  lemma SerialOther(s: State, d: DeviceId, c: CallId, who: Option<CallId>)
    requires KeysMatch(s.table) && OwnersSpeak(s) && SerialOn(s, d, who) && Enabled(s, Advance(c)) && who != Some(c)
    ensures SerialOn(Advanced(s, c), d, who)
  {
    var s' := Advanced(s, c);
    AdvanceEffect(s, c);
    AdvanceCalls(s, c);
    AloneAdvance(s, s', d, c, who);
    OtherSignals(s, s', d, s.calls[c].owner, s.calls[c].pc, s'.calls[c].pc);
    if ToSpeak(s, who) { OtherWaiting(s, c, d); }
    assert OwedBy(s', who) == OwedBy(s, who) && (ToSpeak(s', who) ==> ToSpeak(s, who));
  }

  /** A call about `d` starts, the one before it over. */
  lemma SerialStart(s: State, d: DeviceId, step: Step)
    requires QueueInv(s) && SerialOn(s, d, None) && Enabled(s, step)
    requires StepDevice(step) == Some(d) && SpeaksInTurn(step, s, d)
    ensures SerialOn(Apply(s, step), d, Some(step.c))
  {
    SameIssued(s, step);
    StartAlone(s, d, step, None);
    if NoneWaitingOn(s, d) { DispatchWaiting(s, step, d); }
  }

  /** Another call starts, or the owner thread moves on. */
  lemma SerialElsewhere(s: State, d: DeviceId, step: Step, who: Option<CallId>)
    requires QueueInv(s) && SerialOn(s, d, who) && Enabled(s, step) && !step.Advance?
    requires StepDevice(step) != Some(d)
    ensures SerialOn(Apply(s, step), d, who)
  {
    SameIssued(s, step);
    StartAlone(s, d, step, who);
    if NoneWaitingOn(s, d) { DispatchWaiting(s, step, d); }
  }

  lemma StartAlone(s: State, d: DeviceId, step: Step, who: Option<CallId>)
    requires Alone(s, d, who) && Enabled(s, step) && !step.Advance? && (StepDevice(step) == Some(d) ==> who.None?)
    ensures var (s', who') := (Apply(s, step), if StepDevice(step) == Some(d) then Some(step.c) else who);
            && Alone(s', d, who') && OwedBy(s', who') == OwedBy(s, who) && s'.tableOps == s.tableOps
            && (ToSpeak(s', who') ==> ToSpeak(s, who) || (StepDevice(step) == Some(d) && step.owner))
  {
  }

  /** A call goes on, the one about `d` or another. */
  lemma SerialAdvance(s: State, d: DeviceId, c: CallId, who: Option<CallId>) returns (who': Option<CallId>)
    requires KeysMatch(s.table) && OwnersSpeak(s) && SerialOn(s, d, who) && Enabled(s, Advance(c))
    ensures SerialOn(Advanced(s, c), d, who')
  {
    if who == Some(c) {
      SerialOwn(s, d, c);
      who' := if About(Advanced(s, c).calls[c].pc) != Some(d) then None else who;
    } else {
      SerialOther(s, d, c, who);
      who' := who;
    }
  }

  /** What every run gives each step. */
  lemma StepFacts(steps: seq<Step>, s: State)
    requires Reaches(steps, s)
    ensures QueueInv(s) && KeysMatch(s.table) && OwnersSpeak(s)
  {
    TableKeys(steps, s);
    BalancedRun(steps, s, Changed(""));
    RunInv(steps, s);
  }

  lemma {:induction false} SerialRun(steps: seq<Step>, s: State, d: DeviceId) returns (who: Option<CallId>)
    requires Reaches(steps, s) && NoOverlapOn(steps, d) && NoOvertakingOn(steps, d)
    ensures SerialOn(s, d, who)
    decreases |steps|
  {
    if steps == [] {
      who := None;
    } else {
      var n := |steps| - 1;
      var before := Run(steps[..n]).value;
      assert forall i :: 0 <= i <= n ==> steps[..n][..i] == steps[..i];
      who := SerialRun(steps[..n], before, d);
      StepFacts(steps[..n], before);
      if StepDevice(steps[n]) == Some(d) {
        SerialStart(before, d, steps[n]);
        who := Some(steps[n].c);
      } else if steps[n].Advance? {
        who := SerialAdvance(before, d, steps[n].c, who);
      } else {
        SerialElsewhere(before, d, steps[n], who);
      }
    }
  }

  /** When the announcements about a device do not overlap each other, and the owner thread makes none while
      one is still queued, the table agrees with the signals about the device as soon as none is in flight,
      whatever happens about other devices. */
  lemma SerialTableFollowsSignals(steps: seq<Step>, s: State, d: DeviceId)
    requires Reaches(steps, s) && NoOverlapOn(steps, d) && NoOvertakingOn(steps, d) && !AnnouncingOn(s, d)
    ensures AgreesOn(s, d)
  {
    var who := SerialRun(steps, s, d);
    TableAgreesIff(steps, s, d);
  }

  // ---------------------------------------------------------------- both conditions are needed

  /** Both signals are queued, the change is about to look at the table, the request is not in it. */
  const BothQueued: State :=
    State(0, 1, [DeviceRequest(SomeRequest), DeviceChanged("d", false)], None, 1, None, map[],
          map[0 := Call(false, Insert(SomeRequest)), 1 := Call(false, Lookup("d"))], 1,
          [], [DeviceRequest(SomeRequest), DeviceChanged("d", false)], [])

  lemma ReachBothQueued() returns (steps: seq<Step>)
    ensures Reaches(steps, BothQueued)
    ensures steps == RequestSteps + [EmitDeviceChanged(1, false, "d", false)] + [Advance(1), Advance(1)]
  {
    steps := ReachSignalQueued();
    Extend(steps, EmitDeviceChanged(1, false, "d", false));
    steps := steps + [EmitDeviceChanged(1, false, "d", false)];
    Extend2(steps, Advance(1), Advance(1), BothQueued);
    steps := steps + [Advance(1), Advance(1)];
  }

  lemma TwoSignals(a: Helper, b: Helper)
    ensures SignalOps([a, b]) == Said(a) + Said(b)
  {
    SignalOpsConcat([a], [b]);
    SignalOpsOne(a);
    SignalOpsOne(b);
    assert [a] + [b] == [a, b];
  }

  /** No announcement of the run comes from the owner thread. */
  ghost predicate WorkersAnnounce(steps: seq<Step>) {
    forall i :: 0 <= i < |steps| && (steps[i].EmitDeviceRequest? || steps[i].EmitDeviceChanged?) ==> !steps[i].owner
  }

  lemma WorkersInTurn(steps: seq<Step>, d: DeviceId)
    requires WorkersAnnounce(steps)
    ensures NoOvertakingOn(steps, d)
  {
  }

  lemma WorkersConcat(a: seq<Step>, b: seq<Step>)
    requires WorkersAnnounce(a) && WorkersAnnounce(b)
    ensures WorkersAnnounce(a + b)
  {
  }

  lemma WorkersOnly()
    ensures WorkersAnnounce(RequestSteps + [EmitDeviceChanged(1, false, "d", false)] + [Advance(1), Advance(1)] + [Advance(1), Advance(0)])
  {
    WorkersConcat(RequestSteps, [EmitDeviceChanged(1, false, "d", false)]);
    WorkersConcat(RequestSteps + [EmitDeviceChanged(1, false, "d", false)], [Advance(1), Advance(1)]);
    WorkersConcat(RequestSteps + [EmitDeviceChanged(1, false, "d", false)] + [Advance(1), Advance(1)], [Advance(1), Advance(0)]);
  }

  lemma ReachStale() returns (steps: seq<Step>, s: State)
    ensures Reaches(steps, s) && WorkersAnnounce(steps) && !AnnouncingOn(s, "d")
    ensures Issued(s) == [DeviceRequest(SomeRequest), DeviceChanged("d", false)]
    ensures "d" in s.table && s.table["d"] == SomeRequest
  {
    steps := ReachBothQueued();
    s := Apply(Apply(BothQueued, Advance(1)), Advance(0));
    Extend2(steps, Advance(1), Advance(0), s);
    WorkersOnly();
    steps := steps + [Advance(1), Advance(0)];
  }

  /** With overlap, even of workers alone, the two can disagree: a change announced between the signal of a
      request and its insertion leaves the request outstanding although the change was signalled after it. */
  lemma OverlapLeavesStaleRequest()
    ensures exists steps, s ::
        Reaches(steps, s) && NoOvertakingOn(steps, "d") && !AnnouncingOn(s, "d") && !AgreesOn(s, "d")
  {
    var steps, s := ReachStale();
    WorkersInTurn(steps, "d");
    TwoSignals(DeviceRequest(SomeRequest), DeviceChanged("d", false));
    assert Signals(s)[1] == Changed("d");
    assert !LatestSinceChange(Signals(s), "d", SomeRequest);
    assert Reaches(steps, s) && !AnnouncingOn(s, "d") && !AgreesOn(s, "d");
  }

  /** The owner thread has announced the change and invalidated the request, ahead of its signal. */
  const Overtaken: State :=
    State(0, 1, [DeviceRequest(SomeRequest)], None, 1, None, map[], map[0 := Call(false, Done), 1 := Call(true, Done)], 1,
          [Delivery(DeviceChanged("d", false), false, 0), Delivery(Invalidate(SomeRequest), false, 0)],
          [DeviceRequest(SomeRequest)], [Inserted(SomeRequest), Changed("d")])

  lemma ReachOvertaken() returns (steps: seq<Step>)
    ensures Reaches(steps, Overtaken) && steps == FoundSteps + [Advance(1), Advance(1)]
  {
    steps := ReachRequestFound();
    Extend2(steps, Advance(1), Advance(1), Overtaken);
    steps := steps + [Advance(1), Advance(1)];
  }

  lemma OvertakenApart(steps: seq<Step>)
    requires steps == FoundSteps + [Advance(1), Advance(1)]
    ensures NoOverlapOn(steps, "d")
  {
    var before := ReachSignalQueued();
    Extend(before, Advance(0));
    assert steps[..4] == RequestSteps + [Advance(0)];
    assert steps[..0] == [];
    forall i | 0 <= i < |steps| && StepDevice(steps[i]) == Some("d") && Run(steps[..i]).Some?
      ensures !AnnouncingOn(Run(steps[..i]).value, "d")
    {
      assert i == 0 || i == 4;
    }
  }

  /** Without overlap the owner thread can still break it: its signal goes past the queue.  A worker's
      request is over and done with when the owner announces the change, yet the user hears of the request
      after the change and the table has none. */
  lemma OwnerOvertakes()
    ensures exists steps, s ::
        Reaches(steps, s) && NoOverlapOn(steps, "d") && !AnnouncingOn(s, "d") && !AgreesOn(s, "d")
  {
    var steps := ReachOvertaken();
    OvertakenApart(steps);
    OvertakenSignals();
    assert Signals(Overtaken)[1] == Inserted(SomeRequest);
    assert "d" !in Overtaken.table && LatestSinceChange(Signals(Overtaken), "d", SomeRequest);
    assert Reaches(steps, Overtaken) && !AnnouncingOn(Overtaken, "d") && !AgreesOn(Overtaken, "d");
  }

  lemma OvertakenSignals()
    ensures Signals(Overtaken) == [Changed("d"), Inserted(SomeRequest)]
  {
    var hs := [DeviceChanged("d", false), Invalidate(SomeRequest)];
    assert Issued(Overtaken) == hs + [DeviceRequest(SomeRequest)];
    SignalOpsConcat(hs, [DeviceRequest(SomeRequest)]);
    TwoSignals(hs[0], hs[1]);
    SignalOpsOne(DeviceRequest(SomeRequest));
  }
}
