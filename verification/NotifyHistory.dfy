/** What the callers did and what became of it: runs described by their steps alone. */
module NotifyHistory {
  import opened Wrappers
  import opened Notify
  import opened NotifyRuns
  import opened NotifyTable
  import opened CallSums

  // ---------------------------------------------------------------- the steps of a call

  predicate Of(step: Step, c: CallId) {
    !(step.Fire? || step.DispatchNext? || step.DispatchEnd?) && step.c == c
  }

  /** The latest step of the call. */
  ghost function Latest(steps: seq<Step>, c: CallId): Option<Step> {
    if steps == [] then None
    else if Of(steps[|steps| - 1], c) then Some(steps[|steps| - 1])
    else Latest(steps[..|steps| - 1], c)
  }

  /** The call has done nothing since it entered set_status(). */
  ghost predicate Setting(steps: seq<Step>, c: CallId) {
    Latest(steps, c).Some? && Latest(steps, c).value.SetStatus?
  }

  /** What the callers announce, by the owner thread or by workers: what they say themselves, and a status
      notification when a set_status() call that had something to do goes on. */
  ghost function Announces(steps: seq<Step>, step: Step, owner: bool): Option<Helper> {
    match step
    case NotifyProperty(_, o, name) => if o == owner then Some(Property(name)) else None
    case EmitSignal(_, o, signal) => if o == owner then Some(Signal(signal)) else None
    case EmitDeviceRequest(_, o, immediate, target) =>
      if o == owner then Some(DeviceRequest(Emission(Requests(steps), immediate, target))) else None
    case EmitDeviceChanged(_, o, device, waiting) => if o == owner then Some(DeviceChanged(device, waiting)) else None
    case Advance(c) => if Setting(steps, c) && Latest(steps, c).value.owner == owner then Some(StatusHelper) else None
    case _ => None
  }

  ghost function Announced(steps: seq<Step>, owner: bool): seq<Helper> {
    if steps == [] then []
    else
      var (before, step) := (steps[..|steps| - 1], steps[|steps| - 1]);
      Announced(before, owner)
        + if Announces(before, step, owner).Some? then [Announces(before, step, owner).value] else []
  }

  /** How many requests were announced; the tag of the next one. */
  ghost function Requests(steps: seq<Step>): nat {
    if steps == [] then 0 else Requests(steps[..|steps| - 1]) + if steps[|steps| - 1].EmitDeviceRequest? then 1 else 0
  }

  /** The value of the set_status() call that was the last to go on. */
  ghost function Written(steps: seq<Step>): nat {
    if steps == [] then InitialStatus
    else
      var (before, step) := (steps[..|steps| - 1], steps[|steps| - 1]);
      if step.Advance? && Setting(before, step.c) then Latest(before, step.c).value.value else Written(before)
  }

  // ---------------------------------------------------------------- which status is stored

  ghost predicate SettingInv(steps: seq<Step>, s: State, c: CallId) {
    c in s.calls ==>
      && (s.calls[c].pc.WriteStatus? <==> Setting(steps, c))
      && (Setting(steps, c) ==> s.calls[c] == Call(Latest(steps, c).value.owner, WriteStatus(Latest(steps, c).value.value)))
  }

  ghost predicate StepsInv(steps: seq<Step>, s: State) {
    s.status == Written(steps) && s.nextTag == Requests(steps) && forall c :: SettingInv(steps, s, c)
  }

  lemma OneCall(s: State, step: Step, c: CallId)
    requires Enabled(s, step) && !Of(step, c)
    ensures c in Apply(s, step).calls <==> c in s.calls
    ensures c in s.calls ==> Apply(s, step).calls[c] == s.calls[c]
  {
  }

  lemma SettingStep(steps: seq<Step>, s: State, c: CallId)
    requires steps != [] && SettingInv(steps[..|steps| - 1], s, c) && Enabled(s, steps[|steps| - 1])
    ensures SettingInv(steps, Apply(s, steps[|steps| - 1]), c)
  {
    if !Of(steps[|steps| - 1], c) { OneCall(s, steps[|steps| - 1], c); }
  }

  lemma StatusWritten(s: State, step: Step)
    requires Enabled(s, step)
    ensures Apply(s, step).status
         == if step.Advance? && s.calls[step.c].pc.WriteStatus? then s.calls[step.c].pc.value else s.status
    ensures Apply(s, step).nextTag == s.nextTag + if step.EmitDeviceRequest? then 1 else 0
  {
  }

  lemma {:induction false} StepsRun(steps: seq<Step>, s: State)
    requires Reaches(steps, s)
    ensures StepsInv(steps, s)
    decreases |steps|
  {
    if steps != [] {
      var n := |steps| - 1;
      var before := Run(steps[..n]).value;
      StepsRun(steps[..n], before);
      StatusWritten(before, steps[n]);
      if steps[n].Advance? { assert SettingInv(steps[..n], before, steps[n].c); }
      forall c ensures SettingInv(steps, s, c) {
        assert SettingInv(steps[..n], before, c);
        SettingStep(steps, before, c);
      }
    }
  }

  /** The step at k is the first of its call behind the SetStatus step at j: it stores that value. */
  ghost predicate Writes(steps: seq<Step>, j: nat, k: nat) {
    && j < k < |steps| && steps[j].SetStatus? && steps[k] == Advance(steps[j].c)
    && forall i :: j < i < k ==> !Of(steps[i], steps[j].c)
  }

  lemma {:induction false} LatestAt(steps: seq<Step>, c: CallId) returns (j: nat)
    ensures if Latest(steps, c).None? then forall i :: 0 <= i < |steps| ==> !Of(steps[i], c)
            else && j < |steps| && Of(steps[j], c) && Latest(steps, c) == Some(steps[j])
                 && forall i :: j < i < |steps| ==> !Of(steps[i], c)
    decreases |steps|
  {
    j := 0;
    if steps != [] {
      var n := |steps| - 1;
      if Of(steps[n], c) {
        j := n;
      } else {
        j := LatestAt(steps[..n], c);
        assert forall i :: 0 <= i < n ==> steps[..n][i] == steps[i];
      }
    }
  }

  /** A step stores a value exactly when it goes on with a set_status() call that has done nothing yet. */
  lemma WritesIff(steps: seq<Step>, k: nat) returns (j: nat)
    requires k < |steps| && steps[k].Advance?
    ensures Setting(steps[..k], steps[k].c) ==>
        Writes(steps, j, k) && Latest(steps[..k], steps[k].c) == Some(steps[j])
    ensures !Setting(steps[..k], steps[k].c) ==> forall j: nat :: !Writes(steps, j, k)
  {
    j := LatestAt(steps[..k], steps[k].c);
    assert forall i :: 0 <= i < k ==> steps[..k][i] == steps[i];
    forall j': nat | Writes(steps, j', k) ensures Setting(steps[..k], steps[k].c) {
      assert Of(steps[..k][j'], steps[k].c);
    }
  }

  /** Nothing was stored from the k-th step on. */
  ghost predicate NoWriteFrom(steps: seq<Step>, k: nat) {
    forall j: nat, i: nat :: k <= i && Writes(steps, j, i) ==> false
  }

  /** The value `v` was stored by the step at k, for the SetStatus step at j, and none after it. */
  ghost predicate LastWrite(steps: seq<Step>, j: nat, k: nat, v: nat) {
    Writes(steps, j, k) && steps[j].value == v && NoWriteFrom(steps, k + 1)
  }

  /** `v` was stored last, or nothing was and it is the value the client begins with. */
  ghost predicate StoredLast(steps: seq<Step>, v: nat) {
    (v == InitialStatus && NoWriteFrom(steps, 0)) || exists j, k :: LastWrite(steps, j, k, v)
  }

  lemma WritesPrefix(steps: seq<Step>, j: nat, k: nat)
    requires steps != [] && k < |steps| - 1
    ensures Writes(steps, j, k) <==> Writes(steps[..|steps| - 1], j, k)
  {
    var before := steps[..|steps| - 1];
    assert forall i :: 0 <= i < |before| ==> before[i] == steps[i];
  }

  lemma {:induction false} WrittenMeaning(steps: seq<Step>)
    ensures StoredLast(steps, Written(steps))
    decreases |steps|
  {
    if steps != [] {
      var n := |steps| - 1;
      var before := steps[..n];
      if steps[n].Advance? && Setting(before, steps[n].c) {
        var j := WritesIff(steps, n);
        assert LastWrite(steps, j, n, steps[j].value);
      } else {
        WrittenMeaning(before);
        if NoWriteFrom(before, 0) { NoWriteStays(steps, 0); }
        if j, k :| LastWrite(before, j, k, Written(before)) { LastWriteStays(steps, j, k, Written(before)); }
      }
    }
  }

  /** A step that stores nothing. */
  ghost predicate Idle(steps: seq<Step>, step: Step) {
    step.Advance? ==> !Setting(steps, step.c)
  }

  lemma NoWriteStays(steps: seq<Step>, k: nat)
    requires steps != [] && NoWriteFrom(steps[..|steps| - 1], k) && Idle(steps[..|steps| - 1], steps[|steps| - 1])
    ensures NoWriteFrom(steps, k)
  {
    var n := |steps| - 1;
    if steps[n].Advance? { var j := WritesIff(steps, n); }
    forall j: nat, i: nat | k <= i && Writes(steps, j, i) ensures false {
      WritesPrefix(steps, j, i);
    }
  }

  lemma LastWriteStays(steps: seq<Step>, j: nat, k: nat, v: nat)
    requires steps != [] && LastWrite(steps[..|steps| - 1], j, k, v) && Idle(steps[..|steps| - 1], steps[|steps| - 1])
    ensures LastWrite(steps, j, k, v)
  {
    WritesPrefix(steps, j, k);
    NoWriteStays(steps, k + 1);
  }

  /** In every run the status is the value of the set_status() call that stored last, or the initial one
      when none did; and once everything is quiet that is the value the user heard last. */
  lemma StatusIsLastWrite(steps: seq<Step>, s: State)
    requires Reaches(steps, s)
    ensures StoredLast(steps, s.status)
    ensures Quiet(s) ==> LastStatus(s.delivered) == s.status
  {
    StepsRun(steps, s);
    WrittenMeaning(steps);
    if Quiet(s) { QuietIsPublished(steps, s); }
  }

  // ---------------------------------------------------------------- which set_status() calls store

  lemma {:induction false} PrefixRuns(steps: seq<Step>, i: nat)
    requires Run(steps).Some? && i <= |steps|
    ensures Run(steps[..i]).Some?
    decreases |steps|
  {
    if i == |steps| {
      assert steps[..i] == steps;
    } else {
      PrefixRuns(steps[..|steps| - 1], i);
      assert steps[..|steps| - 1][..i] == steps[..i];
    }
  }

  /** What has become of the set_status() call at j by the end of the run. */
  ghost predicate Fate(steps: seq<Step>, s: State, j: nat)
    requires j < |steps| && steps[j].SetStatus?
  {
    var (c, idle) := (steps[j].c, forall i :: j < i < |steps| ==> !Of(steps[i], steps[j].c));
    if Run(steps[..j]).Some? && Run(steps[..j]).value.status == steps[j].value
    then (idle ==> c !in s.calls) && forall k: nat :: !Writes(steps, j, k)
    else c in s.calls && ((idle && s.calls[c].pc.WriteStatus?) || exists k: nat :: Writes(steps, j, k))
  }

  lemma {:induction false} FateOf(steps: seq<Step>, s: State, j: nat)
    requires Reaches(steps, s) && j < |steps| && steps[j].SetStatus?
    ensures Fate(steps, s, j)
    decreases |steps|
  {
    var n := |steps| - 1;
    var before, c := Run(steps[..n]).value, steps[j].c;
    if j == n {
      assert steps[..j] == steps[..n];
    } else {
      FateOf(steps[..n], before, j);
      FateStep(steps, before, j);
    }
  }

  lemma StaysCalled(s: State, step: Step, c: CallId)
    requires Enabled(s, step) && c in s.calls
    ensures c in Apply(s, step).calls
  {
  }

  lemma FateStep(steps: seq<Step>, s: State, j: nat)
    requires steps != [] && j < |steps| - 1 && steps[j].SetStatus? && Enabled(s, steps[|steps| - 1])
    requires Fate(steps[..|steps| - 1], s, j)
    ensures Fate(steps, Apply(s, steps[|steps| - 1]), j)
  {
    var n, c := |steps| - 1, steps[j].c;
    var before := steps[..n];
    assert before[..j] == steps[..j] && forall i :: 0 <= i < n ==> before[i] == steps[i];
    forall k: nat | k < n ensures Writes(steps, j, k) <==> Writes(before, j, k) { WritesPrefix(steps, j, k); }
    if !Of(steps[n], c) {
      OneCall(s, steps[n], c);
      assert !Writes(steps, j, n);
    } else if c in s.calls {
      StaysCalled(s, steps[n], c);
      if forall i :: j < i < n ==> !Of(before[i], c) { assert s.calls[c].pc.WriteStatus? ==> Writes(steps, j, n); }
    }
    if k: nat :| Writes(before, j, k) { assert Writes(steps, j, k); }
  }

  /** Once everything is quiet, a set_status() call has stored its value if and only if the status was
      another one when it was made. */
  lemma SetStatusStores(steps: seq<Step>, s: State, j: nat)
    requires Reaches(steps, s) && Quiet(s) && j < |steps| && steps[j].SetStatus?
    ensures Run(steps[..j]).Some?
    ensures Run(steps[..j]).value.status != steps[j].value <==> exists k: nat :: Writes(steps, j, k)
  {
    PrefixRuns(steps, j);
    FateOf(steps, s, j);
  }

  // ---------------------------------------------------------------- everything announced is heard once

  /** What the owner thread emitted itself, oldest first. */
  ghost function Direct(ds: seq<Delivery>): seq<Helper> {
    if ds == [] then []
    else Direct(ds[..|ds| - 1]) + if ds[|ds| - 1].queued then [] else [ds[|ds| - 1].h]
  }

  /** What went the way of the owner thread, or of workers. */
  ghost function Sent(s: State, owner: bool): seq<Helper> {
    if owner then Direct(s.delivered) else s.posted
  }

  ghost function Carrying(h: Helper, owner: bool): Call -> nat {
    (call: Call) => if call.owner == owner && Carries(call.pc, h) then 1 else 0
  }

  ghost predicate Accounted(steps: seq<Step>, s: State, h: Helper, owner: bool) {
    multiset(Announced(steps, owner))[h] == multiset(Sent(s, owner))[h] + Total(s.calls, Carrying(h, owner))
  }

  ghost function One(b: bool): nat {
    if b then 1 else 0
  }

  lemma CountMore(hs: seq<Helper>, more: Option<Helper>, h: Helper)
    ensures multiset(hs + if more.Some? then [more.value] else [])[h] == multiset(hs)[h] + One(more == Some(h))
  {
    if more.None? { assert hs + [] == hs; }
  }

  lemma DirectDeliver(s: State, h: Helper, queued: bool)
    ensures Direct(Deliver(s, h, queued).delivered) == Direct(s.delivered) + if queued then [] else [h]
  {
    assert Deliver(s, h, queued).delivered[..|s.delivered|] == s.delivered;
  }

  /** What a step sends: the helper a call carries, at once or into the queue. */
  ghost function Sends(s: State, step: Step, owner: bool): Option<Helper> {
    if step.Advance? && step.c in s.calls && s.calls[step.c].owner == owner
       && (if owner then s.calls[step.c].pc.Emit? else s.calls[step.c].pc.Post?)
    then Some(s.calls[step.c].pc.h) else None
  }

  lemma SentStep(s: State, step: Step, owner: bool)
    requires Enabled(s, step) && OwnersSpeak(s)
    ensures Sent(Apply(s, step), owner)
         == Sent(s, owner) + if Sends(s, step, owner).Some? then [Sends(s, step, owner).value] else []
  {
    if step.Advance? && s.calls[step.c].pc.Emit? && s.calls[step.c].owner {
      DirectDeliver(s, s.calls[step.c].pc.h, false);
    } else if step.DispatchNext? {
      DirectDeliver(s, s.queue[s.dispatching.value], true);
    }
  }

  /** What a call carries before and after a step, against what it sends and what is announced. */
  lemma CarryingStep(steps: seq<Step>, s: State, step: Step, h: Helper, owner: bool)
    requires Enabled(s, step) && OwnersSpeak(s) && !h.Invalidate? && s.nextTag == Requests(steps)
    requires forall c :: SettingInv(steps, s, c)
    requires !(step.Fire? || step.DispatchNext? || step.DispatchEnd?) && step.c in Apply(s, step).calls
    ensures (if step.c in s.calls then Carrying(h, owner)(s.calls[step.c]) else 0) + One(Announces(steps, step, owner) == Some(h))
         == Carrying(h, owner)(Apply(s, step).calls[step.c]) + One(Sends(s, step, owner) == Some(h))
  {
    assert SettingInv(steps, s, step.c);
    if step.Advance? { CarryingAdvance(steps, s, step.c, h, owner); }
  }

  lemma CarryingAdvance(steps: seq<Step>, s: State, c: CallId, h: Helper, owner: bool)
    requires Enabled(s, Advance(c)) && OwnersSpeak(s) && !h.Invalidate? && SettingInv(steps, s, c)
    ensures Carrying(h, owner)(s.calls[c]) + One(Announces(steps, Advance(c), owner) == Some(h))
         == Carrying(h, owner)(Advanced(s, c).calls[c]) + One(Sends(s, Advance(c), owner) == Some(h))
  {
  }

  lemma OneEntry(s: State, step: Step)
    requires Enabled(s, step) && !(step.Fire? || step.DispatchNext? || step.DispatchEnd?)
    ensures var s' := Apply(s, step);
            if step.c in s'.calls then s'.calls == s.calls[step.c := s'.calls[step.c]] else s' == s && step.SetStatus?
  {
  }

  lemma AccountedStep(steps: seq<Step>, s: State, h: Helper, owner: bool)
    requires steps != [] && StepsInv(steps[..|steps| - 1], s) && OwnersSpeak(s) && Enabled(s, steps[|steps| - 1])
    requires !h.Invalidate? && Accounted(steps[..|steps| - 1], s, h, owner)
    ensures Accounted(steps, Apply(s, steps[|steps| - 1]), h, owner)
  {
    var (before, step) := (steps[..|steps| - 1], steps[|steps| - 1]);
    var s' := Apply(s, step);
    SentStep(s, step, owner);
    CountMore(Sent(s, owner), Sends(s, step, owner), h);
    CountMore(Announced(before, owner), Announces(before, step, owner), h);
    if !(step.Fire? || step.DispatchNext? || step.DispatchEnd?) {
      OneEntry(s, step);
      if step.c in s'.calls {
        TotalMove(s.calls, Carrying(h, owner), step.c, s'.calls[step.c]);
        CarryingStep(before, s, step, h, owner);
      }
    }
  }

  lemma {:induction false} AccountedRun(steps: seq<Step>, s: State, h: Helper, owner: bool)
    requires Reaches(steps, s) && !h.Invalidate?
    ensures Accounted(steps, s, h, owner)
    decreases |steps|
  {
    if steps == [] {
      TotalZero(s.calls, Carrying(h, owner));
    } else {
      var n := |steps| - 1;
      var before := Run(steps[..n]).value;
      AccountedRun(steps[..n], before, h, owner);
      StepsRun(steps[..n], before);
      BalancedRun(steps[..n], before, Changed(""));
      AccountedStep(steps, before, h, owner);
    }
  }

  /** Once everything is quiet, the user has heard all that the callers announced, each announcement exactly
      once: what workers announced through the queue, in the main context, and what the owner thread
      announced at once. */
  lemma HeardExactlyOnce(steps: seq<Step>, s: State, h: Helper)
    requires Reaches(steps, s) && Quiet(s) && !h.Invalidate?
    ensures multiset(FromQueue(s.delivered))[h] == multiset(Announced(steps, false))[h]
    ensures multiset(Direct(s.delivered))[h] == multiset(Announced(steps, true))[h]
  {
    QuietIsPublished(steps, s);
    AccountedRun(steps, s, h, false);
    AccountedRun(steps, s, h, true);
    TotalZero(s.calls, Carrying(h, false));
    TotalZero(s.calls, Carrying(h, true));
  }

  // ---------------------------------------------------------------- which requests are invalidated

  /** The device of the request changed while the request was the latest. */
  ghost predicate Overtaken(ops: seq<TableOp>, em: Emission) {
    exists i :: 0 <= i < |ops| && ops[i] == Changed(em.Device()) && LatestSinceChange(ops[..i], em.Device(), em)
  }

  lemma OvertakenAppend(ops: seq<TableOp>, op: TableOp, em: Emission)
    ensures Overtaken(ops + [op], em) <==>
        Overtaken(ops, em) || (op == Changed(em.Device()) && LatestSinceChange(ops, em.Device(), em))
  {
    var more := ops + [op];
    assert more[..|ops|] == ops && more[|ops|] == op;
    assert forall i :: 0 <= i < |ops| ==> more[i] == ops[i] && more[..i] == ops[..i];
  }

  ghost predicate InvalidInv(s: State, em: Emission) {
    Invalidate(em) in Issued(s) <==> Overtaken(s.tableOps, em) || Removing(ViewOf(s), em)
  }

  /** A call that issues a helper: only an invalidation changes anything, and its call holds the mutex. */
  lemma InvalidIssue(s: State, c: CallId, h: Helper, em: Emission)
    requires RequestInv(s) && InvalidInv(s, em) && Enabled(s, Advance(c)) && Carries(s.calls[c].pc, h)
    requires s.calls[c].pc.Post? || s.calls[c].owner
    ensures InvalidInv(Advanced(s, c), em)
  {
    var s' := Advanced(s, c);
    assert CallInv(ViewOf(s), c, s.calls[c].pc);
    IssuedMore(s, c, h, Invalidate(em));
    SendKeeps(s, c, h);
    if s.tableLock != Some(c) { assert Removing(ViewOf(s'), em) <==> Removing(ViewOf(s), em); }
  }

  lemma IssuedMore(s: State, c: CallId, h: Helper, x: Helper)
    requires Enabled(s, Advance(c)) && Carries(s.calls[c].pc, h) && (s.calls[c].pc.Post? || s.calls[c].owner)
    ensures x in Issued(Advanced(s, c)) <==> x in Issued(s) || h == x
  {
    if s.calls[c].pc.Post? {
      PostIssued(s, c);
      IssuedEnqueue(s, h);
    } else {
      EmitIssued(s, c);
      IssuedDeliver(s, h);
    }
  }

  lemma SendKeeps(s: State, c: CallId, h: Helper)
    requires Enabled(s, Advance(c)) && Carries(s.calls[c].pc, h) && (s.calls[c].pc.Post? || s.calls[c].owner)
    ensures var s' := Advanced(s, c);
            s'.tableOps == s.tableOps && s'.tableLock == s.tableLock && s'.calls == s.calls[c := Call(s.calls[c].owner, After(h))]
  {
  }

  /** A call in the table section. */
  lemma InvalidTable(s: State, c: CallId, em: Emission)
    requires RequestInv(s) && s.table == Outstanding(s.tableOps) && InvalidInv(s, em) && Enabled(s, Advance(c))
    requires s.calls[c].pc.Insert? || s.calls[c].pc.Lookup? || s.calls[c].pc.Remove?
    ensures InvalidInv(Advanced(s, c), em)
  {
    var (s', pc) := (Advanced(s, c), s.calls[c].pc);
    QuietIssued(s, c);
    OutstandingMeaning(s.tableOps, em.Device(), em);
    assert CallInv(ViewOf(s), c, pc);
    if s'.tableOps != s.tableOps {
      OvertakenAppend(s.tableOps, s'.tableOps[|s.tableOps|], em);
    }
    if pc.Lookup? && pc.device in s.table {
      assert EntryInv(ViewOf(s), pc.device, s.table[pc.device]);
    }
  }

  lemma InvalidOther(s: State, step: Step, em: Emission)
    requires RequestInv(s) && InvalidInv(s, em) && Enabled(s, step) && IssuesNothing(s, step)
    requires step.Advance? ==> s.calls[step.c].pc.Emit? || s.calls[step.c].pc.WriteStatus?
    ensures InvalidInv(Apply(s, step), em)
  {
    var s' := Apply(s, step);
    SameIssued(s, step);
    assert s'.tableOps == s.tableOps && s'.tableLock == s.tableLock;
    if s.tableLock.Some? && !Of(step, s.tableLock.value) { OneCall(s, step, s.tableLock.value); }
  }

  lemma InvalidStep(s: State, step: Step, em: Emission)
    requires RequestInv(s) && s.table == Outstanding(s.tableOps) && InvalidInv(s, em) && Enabled(s, step)
    ensures InvalidInv(Apply(s, step), em)
  {
    if !step.Advance? {
      InvalidOther(s, step, em);
    } else {
      var call := s.calls[step.c];
      if call.pc.Post? || (call.pc.Emit? && call.owner) {
        InvalidIssue(s, step.c, call.pc.h, em);
      } else if call.pc.Insert? || call.pc.Lookup? || call.pc.Remove? {
        InvalidTable(s, step.c, em);
      } else {
        InvalidOther(s, step, em);
      }
    }
  }

  lemma {:induction false} InvalidRun(steps: seq<Step>, s: State, em: Emission)
    requires Reaches(steps, s)
    ensures InvalidInv(s, em)
    decreases |steps|
  {
    if steps != [] {
      var n := |steps| - 1;
      var before := Run(steps[..n]).value;
      InvalidRun(steps[..n], before, em);
      RunInv(steps[..n], before);
      InvalidStep(before, steps[n], em);
    }
  }

  /** Whenever the table mutex is free, a request has been invalidated if and only if its device changed
      while it was the latest request for it. */
  lemma InvalidatedIff(steps: seq<Step>, s: State, em: Emission)
    requires Reaches(steps, s) && s.tableLock.None?
    ensures Invalidate(em) in Issued(s) <==> Overtaken(s.tableOps, em)
  {
    InvalidRun(steps, s, em);
  }
}
