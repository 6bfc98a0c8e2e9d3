/** When the two mutexes of the notification machinery deadlock, and when everything is sure to finish. */
module NotifyDeadlock {
  import opened Wrappers
  import opened Notify
  import opened NotifyRuns
  import opened NotifyStack
  import opened CallSums

  // ---------------------------------------------------------------- deadlock

  /** A call of the owner thread that is on its way into the table section. */
  ghost predicate NeedsTable(pc: Pc) {
    pc.Insert? || pc.Lookup? || (pc.Emit? && (After(pc.h).Insert? || After(pc.h).Lookup?))
  }

  ghost predicate OnStackBelow(stack: seq<Frame>, p: nat, who: Option<CallId>) {
    exists q :: 0 <= q < p && q < |stack| && stack[q].who == who
  }

  /** The holder of the table mutex cannot let go of it before the frame at p is done: it is further down
      the same stack, or a worker that still has to queue an invalidation while the idle callback, further
      down the stack, holds idle_mutex. */
  ghost predicate HeldAgainst(w: World, p: nat) {
    && w.s.tableLock.Some? && w.s.tableLock.value in w.s.calls
    && (|| OnStackBelow(w.stack, p, w.s.tableLock)
        || (&& !w.s.calls[w.s.tableLock.value].owner && !w.s.calls[w.s.tableLock.value].pc.Remove?
            && OnStackBelow(w.stack, p, None)))
  }

  ghost predicate DoomedAt(w: World, p: nat) {
    && p < |w.stack| && w.stack[p].who.Some? && w.stack[p].who.value in w.s.calls
    && NeedsTable(w.s.calls[w.stack[p].who.value].pc) && HeldAgainst(w, p)
  }

  /** Some frame needs the table mutex that will never be free again. */
  ghost predicate Doomed(w: World) {
    exists p :: DoomedAt(w, p)
  }

  /** No move touches a frame that is not the topmost. */
  lemma FramesBelow(w: World, m: Move, q: nat)
    requires CanMove(w, m) && q < |w.stack| - 1
    ensures q < |Moved(w, m).stack| && Moved(w, m).stack[q] == w.stack[q]
  {
  }

  lemma StaysBelow(w: World, m: Move, p: nat, who: Option<CallId>)
    requires CanMove(w, m) && p < |w.stack| && OnStackBelow(w.stack, p, who)
    ensures OnStackBelow(Moved(w, m).stack, p, who)
  {
    var q :| 0 <= q < p && w.stack[q].who == who;
    FramesBelow(w, m, q);
  }

  lemma BelowIsOn(w: World, p: nat, who: Option<CallId>)
    requires StackInv(w) && OnStackBelow(w.stack, p, who) && p < |w.stack|
    ensures who.None? ==> w.s.dispatching.Some?
    ensures who.Some? ==> who.value in w.s.calls && w.s.calls[who.value].owner && Some(who.value) != Top(w).who
    ensures who != Top(w).who
  {
    var q :| 0 <= q < p && w.stack[q].who == who;
    assert FrameOk(w.s, w.stack[q], false);
  }

  /** While the mutex is held against a frame its holder does not let go. */
  lemma StaysHeld(w: World, m: Move, p: nat)
    requires LocksInv(w.s) && StackInv(w) && CanMove(w, m) && p < |w.stack| && HeldAgainst(w, p)
    ensures HeldAgainst(Moved(w, m), p)
  {
    var h := w.s.tableLock.value;
    if OnStackBelow(w.stack, p, Some(h)) {
      BelowIsOn(w, p, Some(h));
      StaysBelow(w, m, p, Some(h));
    } else {
      BelowIsOn(w, p, None);
      StaysBelow(w, m, p, None);
    }
    if m == Do(Advance(h)) {
      WorkerHolds(w.s, h);
    } else if m.Do? {
      HolderStays(w.s, m.step, h);
    }
  }

  lemma HolderStays(s: State, step: Step, h: CallId)
    requires LocksInv(s) && Enabled(s, step) && s.tableLock == Some(h) && h in s.calls && step != Advance(h)
    ensures var s' := Apply(s, step); s'.tableLock == Some(h) && h in s'.calls && s'.calls[h] == s.calls[h]
  {
  }

  lemma WorkerHolds(s: State, h: CallId)
    requires LocksInv(s) && Enabled(s, Advance(h)) && s.tableLock == Some(h) && s.dispatching.Some?
    requires !s.calls[h].owner && !s.calls[h].pc.Remove?
    ensures var s' := Advanced(s, h);
            s'.tableLock == Some(h) && h in s'.calls && !s'.calls[h].owner && !s'.calls[h].pc.Remove?
  {
  }

  /** The frame that needs the mutex goes on needing it. */
  lemma StaysNeeding(w: World, m: Move, p: nat)
    requires StackInv(w) && CanMove(w, m) && DoomedAt(w, p)
    ensures var w' := Moved(w, m);
            && p < |w'.stack| && w'.stack[p].who == w.stack[p].who && w.stack[p].who.value in w'.s.calls
            && NeedsTable(w'.s.calls[w.stack[p].who.value].pc)
  {
    assert FrameOk(w.s, w.stack[p], p == |w.stack| - 1);
    if p < |w.stack| - 1 { FramesBelow(w, m, p); } else { TopStays(w, m, w.stack[p].who.value); }
    if m.Do? { NeedStays(w.s, m.step, w.stack[p].who.value); }
  }

  lemma NeedStays(s: State, step: Step, c: CallId)
    requires Enabled(s, step) && c in s.calls && s.calls[c].owner && NeedsTable(s.calls[c].pc) && s.tableLock.Some?
    ensures c in Apply(s, step).calls && NeedsTable(Apply(s, step).calls[c].pc)
  {
  }

  lemma TopStays(w: World, m: Move, c: CallId)
    requires CanMove(w, m) && w.stack != [] && Top(w).who == Some(c) && w.s.tableLock.Some?
    requires c in w.s.calls && w.s.calls[c].owner && NeedsTable(w.s.calls[c].pc)
    ensures var n := |w.stack| - 1; n < |Moved(w, m).stack| && Moved(w, m).stack[n].who == Some(c)
  {
  }

  /** A deadlock is for ever: whatever any thread does, the frame does not get the mutex. */
  lemma DoomedStays(w: World, m: Move)
    requires Inv(w) && CanMove(w, m) && Doomed(w)
    ensures Doomed(Moved(w, m))
  {
    LocksFromRequests(w.s);
    var p :| DoomedAt(w, p);
    StaysHeld(w, m, p);
    StaysNeeding(w, m, p);
    assert DoomedAt(Moved(w, m), p);
  }

  /** All calls have returned and nothing is queued. */
  ghost predicate Finished(w: World) {
    w.stack == [] && Quiet(w.s)
  }

  lemma {:induction false} DoomedNeverFinishes(w: World, moves: seq<Move>)
    requires Inv(w) && Doomed(w) && RunFrom(w, moves).Some?
    ensures !Finished(RunFrom(w, moves).value)
    decreases |moves|
  {
    if moves != [] {
      DoomedStays(w, moves[0]);
      InvStep(w, moves[0]);
      DoomedNeverFinishes(Moved(w, moves[0]), moves[1..]);
    }
  }

  // ---------------------------------------------------------------- how much is left to do

  ghost function AfterWeight(h: Helper): nat {
    match After(h)
    case Lookup(_) => 8
    case Done => 0
    case _ => 1
  }

  /** The steps a call has left, those of its queued helper and the source for it included. */
  ghost function Weight(pc: Pc): nat {
    match pc
    case WriteStatus(_) => 7
    case Emit(h) => 6 + AfterWeight(h)
    case Post(h) => 5 + AfterWeight(h)
    case Lookup(_) => 8
    case Insert(_) => 1
    case Remove(_) => 1
    case Done => 0
  }

  ghost function CallWeight(call: Call): nat {
    Weight(call.pc)
  }

  ghost function Handlers(stack: seq<Frame>): nat {
    if stack == [] then 0 else Handlers(stack[..|stack| - 1]) + if stack[|stack| - 1].inHandler then 1 else 0
  }

  ghost function QueueWork(s: State): nat {
    2 * |Waiting(s)| + 2 * s.pending + if s.dispatching.Some? then 1 else 0
  }

  ghost function Work(w: World): nat {
    Total(w.s.calls, CallWeight) + QueueWork(w.s) + Handlers(w.stack)
  }

  ghost predicate Finishing(m: Move) {
    m.Do? ==> !Starts(m.step)
  }

  lemma HandlersPush(stack: seq<Frame>, f: Frame)
    ensures Handlers(stack + [f]) == Handlers(stack) + if f.inHandler then 1 else 0
  {
    assert (stack + [f])[..|stack|] == stack;
  }

  lemma HandlersTop(w: World)
    requires w.stack != []
    ensures Handlers(w.stack) == Handlers(Below(w)) + if Top(w).inHandler then 1 else 0
  {
  }

  lemma AdvanceQueueWork(s: State, c: CallId)
    requires Enabled(s, Advance(c))
    ensures QueueWork(Advanced(s, c)) <= QueueWork(s) + if s.calls[c].pc.Post? then 4 else 0
  {
    var s' := Advanced(s, c);
    if s.calls[c].pc.Post? { EnqueueWork(s, s.calls[c].pc.h); } else { assert Waiting(s') == Waiting(s); }
  }

  lemma EnqueueWork(s: State, h: Helper)
    requires s.dispatching.None?
    ensures QueueWork(Enqueue(s, h)) <= QueueWork(s) + 4
  {
  }

  lemma AdvanceWeight(s: State, c: CallId)
    requires Enabled(s, Advance(c)) && (s.calls[c].owner ==> !s.calls[c].pc.Post?)
    ensures var (pc, s') := (s.calls[c].pc, Advanced(s, c));
            && s'.calls == s.calls[c := s'.calls[c]]
            && Weight(s'.calls[c].pc) + (if pc.Post? then 4 else 0) + (if pc.Emit? && s.calls[c].owner then 1 else 0) < Weight(pc)
  {
  }

  lemma AdvanceHandlers(w: World, c: CallId)
    requires CanDo(w, Advance(c))
    ensures Handlers(Moved(w, Do(Advance(c))).stack)
         <= Handlers(w.stack) + if w.s.calls[c].pc.Emit? && w.s.calls[c].owner then 1 else 0
  {
    if w.s.calls[c].owner {
      HandlersTop(w);
      HandlersPush(Below(w), Frame(Some(c), w.s.calls[c].pc.Emit?));
    }
  }

  lemma AdvanceWork(w: World, c: CallId)
    requires StackInv(w) && CanDo(w, Advance(c))
    ensures Work(Moved(w, Do(Advance(c)))) < Work(w)
  {
    if w.s.calls[c].owner { assert FrameOk(w.s, Top(w), true); }
    AdvanceWeight(w.s, c);
    AdvanceQueueWork(w.s, c);
    AdvanceHandlers(w, c);
    TotalMove(w.s.calls, CallWeight, c, Advanced(w.s, c).calls[c]);
  }

  lemma DispatchWork(w: World, step: Step)
    requires LocksInv(w.s) && CanDo(w, step) && (step.Fire? || step.DispatchNext? || step.DispatchEnd?)
    ensures Work(Moved(w, Do(step))) < Work(w)
  {
    if step.Fire? {
      HandlersPush(w.stack, Frame(None, false));
    } else {
      HandlersTop(w);
      HandlersPush(Below(w), Frame(None, true));
    }
  }

  /** Every move that starts nothing leaves less to do. */
  lemma LessWork(w: World, m: Move)
    requires Inv(w) && CanMove(w, m) && Finishing(m)
    ensures Work(Moved(w, m)) < Work(w)
  {
    LocksFromRequests(w.s);
    if m.Return? {
      HandlersTop(w);
      HandlersPush(Below(w), Frame(Top(w).who, false));
    } else if m.step.Advance? {
      AdvanceWork(w, m.step.c);
    } else {
      DispatchWork(w, m.step);
    }
  }

  // ---------------------------------------------------------------- what is not doomed can finish

  /** The stack has at most lost its topmost frame. */
  ghost predicate Shrunk(a: seq<Frame>, b: seq<Frame>) {
    |b| <= |a| && forall i :: 0 <= i < |b| ==> b[i].who == a[i].who
  }

  lemma ShrunkBelow(a: seq<Frame>, b: seq<Frame>, p: nat, who: Option<CallId>)
    requires Shrunk(a, b) && OnStackBelow(b, p, who)
    ensures OnStackBelow(a, p, who)
  {
    var q :| 0 <= q < p && q < |b| && b[q].who == who;
    assert a[q].who == who;
  }

  /** No frame needs the mutex that did not before, and it is not held by anybody new. */
  ghost predicate Eased(s: State, s': State) {
    && (forall c | c in s.calls && s.calls[c].owner && c in s'.calls && NeedsTable(s'.calls[c].pc) :: NeedsTable(s.calls[c].pc))
    && (s'.tableLock.Some? ==>
          && s'.tableLock == s.tableLock && s.tableLock.value in s.calls && s.tableLock.value in s'.calls
          && s'.calls[s.tableLock.value].owner == s.calls[s.tableLock.value].owner
          && (s.calls[s.tableLock.value].pc.Remove? ==> s'.calls[s.tableLock.value].pc.Remove?))
  }

  lemma DoomBack(w: World, w': World)
    requires StackInv(w) && Shrunk(w.stack, w'.stack) && Eased(w.s, w'.s) && Doomed(w')
    ensures Doomed(w)
  {
    var p: nat :| DoomedAt(w', p);
    assert w'.stack[p].who == w.stack[p].who;
    assert FrameOk(w.s, w.stack[p], p == |w.stack| - 1);
    if OnStackBelow(w'.stack, p, w'.s.tableLock) {
      ShrunkBelow(w.stack, w'.stack, p, w'.s.tableLock);
    } else {
      ShrunkBelow(w.stack, w'.stack, p, None);
    }
    assert DoomedAt(w, p);
  }

  lemma ShrunkMove(w: World, m: Move)
    requires CanMove(w, m) && Finishing(m) && (m.Do? ==> !m.step.Fire?)
    ensures Shrunk(w.stack, Moved(w, m).stack)
  {
  }

  /** The topmost frame takes the mutex: nothing is above it. */
  lemma TopTakesTable(w: World, c: CallId)
    requires StackInv(w) && CanDo(w, Advance(c)) && w.s.calls[c].owner && Advanced(w.s, c).tableLock == Some(c)
    ensures !Doomed(Moved(w, Do(Advance(c))))
  {
    var w' := Moved(w, Do(Advance(c)));
    StackAdvance(w, c);
    forall p: nat ensures !DoomedAt(w', p) {
      if p < |w'.stack| { BelowNotTop(w', p); }
    }
  }

  lemma EasedOwner(s: State, c: CallId)
    requires LocksInv(s) && Enabled(s, Advance(c)) && !s.calls[c].pc.Post? && s.calls[c].owner
    requires Advanced(s, c).tableLock != Some(c) || s.tableLock == Some(c)
    ensures Eased(s, Advanced(s, c))
  {
  }

  /** A move of the topmost frame dooms nothing. */
  lemma OwnerMoveSafe(w: World, c: CallId)
    requires LocksInv(w.s) && StackInv(w) && CanDo(w, Advance(c)) && w.s.calls[c].owner && !Doomed(w)
    ensures !Doomed(Moved(w, Do(Advance(c))))
  {
    assert FrameOk(w.s, Top(w), true);
    if Advanced(w.s, c).tableLock == Some(c) && w.s.tableLock != Some(c) {
      TopTakesTable(w, c);
    } else {
      EasedOwner(w.s, c);
      ShrunkMove(w, Do(Advance(c)));
      if Doomed(Moved(w, Do(Advance(c)))) { DoomBack(w, Moved(w, Do(Advance(c)))); }
    }
  }

  /** A move of the worker that holds the mutex dooms nothing. */
  lemma HolderMoveSafe(w: World, h: CallId)
    requires LocksInv(w.s) && StackInv(w) && w.s.tableLock == Some(h) && CanDo(w, Advance(h))
    requires !w.s.calls[h].owner && !Doomed(w)
    ensures !Doomed(Moved(w, Do(Advance(h))))
  {
    assert HoldsTable(w.s.calls[h].pc);
    if Doomed(Moved(w, Do(Advance(h)))) { DoomBack(w, Moved(w, Do(Advance(h)))); }
  }

  lemma NotDoomedEmpty(w: World)
    requires forall i :: 0 <= i < |w.stack| ==> w.stack[i].who.None?
    ensures !Doomed(w)
  {
  }

  /** The holder of the mutex that the topmost frame waits for can move. */
  lemma HolderMoves(w: World)
    requires LocksInv(w.s) && StackInv(w) && !Doomed(w) && w.stack != [] && w.s.tableLock.Some?
    requires Top(w).who.Some? && NeedsTable(w.s.calls[Top(w).who.value].pc) && w.s.tableLock != Top(w).who
    ensures var h := w.s.tableLock.value;
            !w.s.calls[h].owner && CanDo(w, Advance(h))
  {
    assert FrameOk(w.s, Top(w), true);
    assert !DoomedAt(w, |w.stack| - 1);
    assert HoldsTable(w.s.calls[w.s.tableLock.value].pc);
    OnButNotTop(w, w.s.tableLock);
    OnButNotTop(w, None);
  }

  lemma OnButNotTop(w: World, who: Option<CallId>)
    requires w.stack != []
    ensures OnStack(w.stack, who) && who != Top(w).who ==> OnStackBelow(w.stack, |w.stack| - 1, who)
  {
  }

  lemma MoveOfCall(w: World) returns (m: Move)
    requires LocksInv(w.s) && StackInv(w) && !Doomed(w) && w.stack != [] && Top(w).who.Some? && !Top(w).inHandler
    ensures CanMove(w, m) && Finishing(m) && !Doomed(Moved(w, m))
  {
    var c := Top(w).who.value;
    assert FrameOk(w.s, Top(w), true);
    if CanAdvance(w.s, w.s.calls[c].pc) {
      m := Do(Advance(c));
      OwnerMoveSafe(w, c);
    } else {
      assert !HoldsTable(w.s.calls[c].pc);
      HolderMoves(w);
      m := Do(Advance(w.s.tableLock.value));
      HolderMoveSafe(w, w.s.tableLock.value);
    }
  }

  lemma MoveOfCallback(w: World) returns (m: Move)
    requires LocksInv(w.s) && StackInv(w) && !Doomed(w) && w.stack != [] && Top(w).who.None? && !Top(w).inHandler
    ensures CanMove(w, m) && Finishing(m) && !Doomed(Moved(w, m))
  {
    assert FrameOk(w.s, Top(w), true);
    m := Do(if w.s.dispatching.value < |w.s.queue| then DispatchNext else DispatchEnd);
    ShrunkMove(w, m);
    if Doomed(Moved(w, m)) { DoomBack(w, Moved(w, m)); }
  }

  lemma MoveOfHandler(w: World)
    requires LocksInv(w.s) && StackInv(w) && !Doomed(w) && CanMove(w, Return)
    ensures !Doomed(Moved(w, Return))
  {
    ShrunkMove(w, Return);
    if Doomed(Moved(w, Return)) { DoomBack(w, Moved(w, Return)); }
  }

  /** Nothing on the stack: the main context may dispatch, or some worker can move. */
  lemma MoveOfOthers(w: World) returns (m: Move)
    requires LocksInv(w.s) && StackInv(w) && w.stack == [] && !Finished(w)
    ensures CanMove(w, m) && Finishing(m) && !Doomed(Moved(w, m))
  {
    if w.s.pending > 0 {
      m := Do(Fire);
    } else if w.s.tableLock.Some? {
      assert HoldsTable(w.s.calls[w.s.tableLock.value].pc);
      m := Do(Advance(w.s.tableLock.value));
    } else {
      var c :| c in w.s.calls && !w.s.calls[c].pc.Done?;
      m := Do(Advance(c));
    }
    NotDoomedEmpty(Moved(w, m));
  }

  /** What is unfinished and not deadlocked has a move that deadlocks nothing. */
  lemma NextMove(w: World) returns (m: Move)
    requires Inv(w) && !Doomed(w) && !Finished(w)
    ensures CanMove(w, m) && Finishing(m) && !Doomed(Moved(w, m))
  {
    LocksFromRequests(w.s);
    if w.stack == [] {
      m := MoveOfOthers(w);
    } else if Top(w).inHandler {
      m := Return;
      MoveOfHandler(w);
    } else if Top(w).who.None? {
      m := MoveOfCallback(w);
    } else {
      m := MoveOfCall(w);
    }
  }

  ghost predicate AllFinishing(moves: seq<Move>) {
    forall i :: 0 <= i < |moves| ==> Finishing(moves[i])
  }

  lemma RunCons(w: World, m: Move, moves: seq<Move>)
    requires CanMove(w, m)
    ensures RunFrom(w, [m] + moves) == RunFrom(Moved(w, m), moves)
  {
    assert ([m] + moves)[1..] == moves;
  }

  lemma {:induction false} FinishingRun(w: World) returns (moves: seq<Move>)
    requires Inv(w) && !Doomed(w)
    ensures AllFinishing(moves) && RunFrom(w, moves).Some? && Finished(RunFrom(w, moves).value)
    decreases Work(w)
  {
    moves := [];
    if !Finished(w) {
      var m := NextMove(w);
      InvStep(w, m);
      LessWork(w, m);
      moves := FinishingRun(Moved(w, m));
      RunCons(w, m, moves);
      moves := [m] + moves;
    }
  }

  /** Without starting anything new, all calls can return and everything queued can be delivered. */
  ghost predicate CanFinish(w: World) {
    exists moves :: AllFinishing(moves) && RunFrom(w, moves).Some? && Finished(RunFrom(w, moves).value)
  }

  /** Some run from one world ends in the other. */
  ghost predicate Leads(from: World, w: World) {
    exists moves :: RunFrom(from, moves) == Some(w)
  }

  ghost predicate Reachable(w: World) {
    Leads(Begun, w)
  }

  lemma LeadsInv(from: World, w: World)
    requires Inv(from) && Leads(from, w)
    ensures Inv(w)
  {
    var moves :| RunFrom(from, moves) == Some(w);
    InvRun(from, moves);
  }

  lemma ReachableInv(w: World)
    requires Reachable(w)
    ensures Inv(w)
  {
    InvBegun();
    LeadsInv(Begun, w);
  }

  /** No deadlock, exactly: from any reachable world everything can finish if and only if no frame of the
      owner thread is on its way into the table section while the table mutex is held further down its own
      stack, or by a worker that waits for the idle callback further down the stack. */
  lemma CanFinishIff(w: World)
    requires Reachable(w)
    ensures CanFinish(w) <==> !Doomed(w)
  {
    ReachableInv(w);
    if Doomed(w) {
      forall moves | RunFrom(w, moves).Some? ensures !Finished(RunFrom(w, moves).value) {
        DoomedNeverFinishes(w, moves);
      }
    } else {
      var moves := FinishingRun(w);
    }
  }

  // ---------------------------------------------------------------- a rule for handlers

  /** What a step begins with, when it begins a call that will enter the table section. */
  ghost predicate EntersTable(step: Step) {
    || (step.EmitDeviceRequest? && step.immediate && step.target.Some?)
    || (step.EmitDeviceChanged? && !step.waitingForUser)
  }

  /** A handler enters the table section although the idle callback, or the call that holds the table
      mutex, is among the frames it was called from. */
  ghost predicate Risky(w: World, step: Step) {
    && EntersTable(step) && step.owner
    && (OnStack(w.stack, None) || (w.s.tableLock.Some? && OnStack(w.stack, w.s.tableLock)))
  }

  /** No frame that needs the table mutex is above the idle callback or above the holder. */
  ghost predicate SafeAt(w: World, p: nat)
    requires p < |w.stack|
  {
    w.stack[p].who.Some? && w.stack[p].who.value in w.s.calls && NeedsTable(w.s.calls[w.stack[p].who.value].pc) ==>
      && !OnStackBelow(w.stack, p, None)
      && !(w.s.tableLock.Some? && OnStackBelow(w.stack, p, w.s.tableLock))
  }

  ghost predicate Safe(w: World) {
    forall p :: 0 <= p < |w.stack| ==> SafeAt(w, p)
  }

  lemma SafeNotDoomed(w: World)
    requires Safe(w)
    ensures !Doomed(w)
  {
    forall p: nat ensures !DoomedAt(w, p) {
      if p < |w.stack| { assert SafeAt(w, p); }
    }
  }

  /** The mutex is free, held as before, or held by nobody below the top of the stack. */
  ghost predicate HeldAside(w: World, s': State) {
    s'.tableLock.Some? && s'.tableLock != w.s.tableLock ==> !OnStack(w.stack, s'.tableLock) || s'.tableLock == Top0(w)
  }

  ghost function Top0(w: World): Option<CallId> {
    if w.stack == [] then None else Top(w).who
  }

  lemma SafeShrunk(w: World, w': World)
    requires StackInv(w) && Safe(w) && Shrunk(w.stack, w'.stack) && HeldAside(w, w'.s)
    requires forall c | c in w'.s.calls && NeedsTable(w'.s.calls[c].pc) && OnStack(w.stack, Some(c)) ::
      c in w.s.calls && NeedsTable(w.s.calls[c].pc)
    ensures Safe(w')
  {
    forall p | 0 <= p < |w'.stack| ensures SafeAt(w', p) {
      assert SafeAt(w, p) && w'.stack[p].who == w.stack[p].who;
      assert OnStack(w.stack, w.stack[p].who);
      BelowBack(w, w', p, None);
      BelowBack(w, w', p, w'.s.tableLock);
      BelowNotTop(w, p);
    }
  }

  lemma BelowBack(w: World, w': World, p: nat, who: Option<CallId>)
    requires Shrunk(w.stack, w'.stack)
    ensures OnStackBelow(w'.stack, p, who) ==> OnStackBelow(w.stack, p, who)
  {
    if OnStackBelow(w'.stack, p, who) { ShrunkBelow(w.stack, w'.stack, p, who); }
  }

  lemma BelowNotTop(w: World, p: nat)
    requires StackInv(w) && p < |w.stack|
    ensures forall who :: OnStackBelow(w.stack, p, who) ==> OnStack(w.stack, who) && who != Top(w).who
  {
  }

  lemma NeedsLess(s: State, c: CallId, d: CallId)
    requires Enabled(s, Advance(c)) && (s.calls[c].owner ==> !s.calls[c].pc.Post?)
    requires d in s.calls && NeedsTable(Advanced(s, c).calls[d].pc)
    ensures d != c || s.calls[c].owner ==> NeedsTable(s.calls[d].pc)
  {
  }

  lemma SafeAdvance(w: World, c: CallId)
    requires LocksInv(w.s) && StackInv(w) && Safe(w) && CanDo(w, Advance(c))
    ensures Safe(Moved(w, Do(Advance(c))))
  {
    var w' := Moved(w, Do(Advance(c)));
    if w.s.calls[c].owner { assert FrameOk(w.s, Top(w), true); }
    if OnStack(w.stack, Some(c)) { OnlyOwners(w, c); }
    ShrunkMove(w, Do(Advance(c)));
    forall d | d in w'.s.calls && NeedsTable(w'.s.calls[d].pc) && OnStack(w.stack, Some(d))
      ensures d in w.s.calls && NeedsTable(w.s.calls[d].pc)
    {
      NeedsLess(w.s, c, d);
    }
    SafeShrunk(w, w');
  }

  lemma OnlyOwners(w: World, c: CallId)
    requires StackInv(w) && OnStack(w.stack, Some(c))
    ensures c in w.s.calls && w.s.calls[c].owner
  {
    var i :| 0 <= i < |w.stack| && w.stack[i].who == Some(c);
    assert FrameOk(w.s, w.stack[i], i == |w.stack| - 1);
  }

  /** A frame is pushed: those below it are as safe as before. */
  lemma SafePushed(w: World, w': World, f: Frame)
    requires StackInv(w) && Safe(w) && w'.stack == w.stack + [f] && w'.s.tableLock == w.s.tableLock
    requires forall c | c in w.s.calls :: c in w'.s.calls && w'.s.calls[c] == w.s.calls[c]
    ensures Safe(w') <==> SafeAt(w', |w.stack|)
  {
    forall p | 0 <= p < |w.stack| ensures SafeAt(w', p) {
      assert SafeAt(w, p) && FrameOk(w.s, w.stack[p], p == |w.stack| - 1);
      assert OnStackBelow(w'.stack, p, None) ==> OnStackBelow(w.stack, p, None);
      assert OnStackBelow(w'.stack, p, w.s.tableLock) ==> OnStackBelow(w.stack, p, w.s.tableLock);
    }
  }

  /** Moves that start nothing keep every handler safe. */
  lemma SafeFinishing(w: World, m: Move)
    requires Inv(w) && Safe(w) && CanMove(w, m) && Finishing(m)
    ensures Safe(Moved(w, m))
  {
    LocksFromRequests(w.s);
    if m.Do? && m.step.Advance? {
      SafeAdvance(w, m.step.c);
    } else if m.Do? && m.step.Fire? {
      SafePushed(w, Moved(w, m), Frame(None, false));
    } else {
      ShrunkMove(w, m);
      SafeShrunk(w, Moved(w, m));
    }
  }

  lemma StartedNeeds(s: State, step: Step)
    requires Starts(step) && Enabled(s, step) && step.c in Apply(s, step).calls
    ensures NeedsTable(Apply(s, step).calls[step.c].pc) <==> EntersTable(step)
  {
  }

  /** Starting a call keeps it so if and only if it is not a risky re-entry. */
  lemma SafeStartIff(w: World, step: Step)
    requires Inv(w) && Safe(w) && CanDo(w, step) && Starts(step)
    ensures Safe(Moved(w, Do(step))) <==> !Risky(w, step)
  {
    var w' := Moved(w, Do(step));
    if step.owner && step.c in w'.s.calls {
      StartedNeeds(w.s, step);
      SafePushed(w, w', Frame(Some(step.c), false));
      BelowIsAll(w.stack, Frame(Some(step.c), false), None);
      BelowIsAll(w.stack, Frame(Some(step.c), false), w.s.tableLock);
    } else {
      SafeSame(w, w');
    }
  }

  lemma BelowIsAll(stack: seq<Frame>, f: Frame, who: Option<CallId>)
    ensures OnStackBelow(stack + [f], |stack|, who) <==> OnStack(stack, who)
  {
    if OnStack(stack, who) {
      var i :| 0 <= i < |stack| && stack[i].who == who;
      assert (stack + [f])[i].who == who;
    }
  }

  lemma SafeSame(w: World, w': World)
    requires StackInv(w) && Safe(w) && w'.stack == w.stack && w'.s.tableLock == w.s.tableLock
    requires forall c | c in w.s.calls :: c in w'.s.calls && w'.s.calls[c] == w.s.calls[c]
    ensures Safe(w')
  {
    forall p | 0 <= p < |w.stack| ensures SafeAt(w', p) {
      assert SafeAt(w, p) && FrameOk(w.s, w.stack[p], p == |w.stack| - 1);
    }
  }

  /** No move of the run is a risky re-entry. */
  ghost predicate Disciplined(w: World, moves: seq<Move>)
    decreases |moves|
  {
    moves != [] && CanMove(w, moves[0]) ==>
      && (moves[0].Do? ==> !Risky(w, moves[0].step))
      && Disciplined(Moved(w, moves[0]), moves[1..])
  }

  lemma {:induction false} DisciplinedSafe(w: World, moves: seq<Move>)
    requires Inv(w) && Safe(w) && Disciplined(w, moves) && RunFrom(w, moves).Some?
    ensures Safe(RunFrom(w, moves).value) && Inv(RunFrom(w, moves).value)
    decreases |moves|
  {
    if moves != [] {
      var m := moves[0];
      InvStep(w, m);
      if Finishing(m) { SafeFinishing(w, m); } else { SafeStartIff(w, m.step); }
      DisciplinedSafe(Moved(w, m), moves[1..]);
    }
  }

  lemma {:induction false} ScheduleEnds(w: World, moves: seq<Move>)
    requires Inv(w) && Safe(w) && AllFinishing(moves) && RunFrom(w, moves).Some?
    ensures var w' := RunFrom(w, moves).value;
            Inv(w') && Safe(w') && |moves| + Work(w') <= Work(w)
    decreases |moves|
  {
    if moves != [] {
      var m := moves[0];
      InvStep(w, m);
      LessWork(w, m);
      SafeFinishing(w, m);
      ScheduleEnds(Moved(w, m), moves[1..]);
    }
  }

  /** When no handler makes a risky re-entry there is no deadlock, and more: after any such run, every
      schedule of the work that is left ends after a bounded number of moves, and it does not end before
      all calls have returned and everything queued is delivered. */
  lemma DisciplinedFinishes(moves: seq<Move>, w: World, schedule: seq<Move>)
    requires RunFrom(Begun, moves) == Some(w) && Disciplined(Begun, moves)
    requires AllFinishing(schedule) && RunFrom(w, schedule).Some?
    ensures |schedule| <= Work(w)
    ensures var w' := RunFrom(w, schedule).value;
            && (Finished(w') || exists m :: Finishing(m) && CanMove(w', m))
            && (Finished(w') ==> FromQueue(w'.s.delivered) == w'.s.posted && LastStatus(w'.s.delivered) == w'.s.status)
  {
    InvBegun();
    DisciplinedSafe(Begun, moves);
    ScheduleEnds(w, schedule);
    var w' := RunFrom(w, schedule).value;
    SafeNotDoomed(w');
    if !Finished(w') {
      var m := NextMove(w');
    } else {
      var steps := Projected(Begun, [], moves);
      steps := Projected(w, steps, schedule);
      QuietIsPublished(steps, w'.s);
    }
  }

  /** The table mutex is held, by a call this handler was called from, or by a worker that waits for the
      idle callback this handler was called from. */
  ghost predicate HeldAgainstHandler(w: World) {
    && w.s.tableLock.Some? && w.s.tableLock.value in w.s.calls
    && (|| OnStack(w.stack, w.s.tableLock)
        || (&& !w.s.calls[w.s.tableLock.value].owner && !w.s.calls[w.s.tableLock.value].pc.Remove?
            && OnStack(w.stack, None)))
  }

  /** What a handler can check before it calls: the two emit functions deadlock there and then if and only
      if the mutex they need is held against it. */
  lemma ReentryDoomsIff(w: World, step: Step)
    requires Inv(w) && !Doomed(w) && CanDo(w, step) && Starts(step) && step.owner && EntersTable(step)
    ensures Doomed(Moved(w, Do(step))) <==> HeldAgainstHandler(w)
  {
    var (w', n, f) := (Moved(w, Do(step)), |w.stack|, Frame(Some(step.c), false));
    BelowIsAll(w.stack, f, None);
    BelowIsAll(w.stack, f, w.s.tableLock);
    StartedNeeds(w.s, step);
    LocksFromRequests(w.s);
    if HeldAgainstHandler(w) {
      assert DoomedAt(w', n);
    }
    forall p: nat | p < n && DoomedAt(w', p) ensures DoomedAt(w, p) {
      assert FrameOk(w.s, w.stack[p], p == n - 1);
      PushedBelow(w.stack, f, p, None);
      PushedBelow(w.stack, f, p, w.s.tableLock);
    }
  }

  lemma PushedBelow(stack: seq<Frame>, f: Frame, p: nat, who: Option<CallId>)
    requires p < |stack|
    ensures OnStackBelow(stack + [f], p, who) <==> OnStackBelow(stack, p, who)
  {
    if OnStackBelow(stack, p, who) {
      var q :| 0 <= q < p && stack[q].who == who;
      assert (stack + [f])[q].who == who;
    }
  }

  // ---------------------------------------------------------------- which moves deadlock

  /** A worker takes the table mutex to invalidate a request while a handler of the idle callback is on its
      way into the table section. */
  ghost predicate TakenFromHandler(w: World, c: CallId) {
    && c in w.s.calls && !w.s.calls[c].owner && w.s.calls[c].pc.Lookup? && w.s.calls[c].pc.device in w.s.table
    && exists p: nat :: HandlerNeeds(w, p)
  }

  ghost predicate HandlerNeeds(w: World, p: nat) {
    && p < |w.stack| && w.stack[p].who.Some? && w.stack[p].who.value in w.s.calls
    && NeedsTable(w.s.calls[w.stack[p].who.value].pc) && OnStackBelow(w.stack, p, None)
  }

  ghost predicate Dooms(w: World, m: Move) {
    && m.Do?
    && (|| (Starts(m.step) && m.step.owner && EntersTable(m.step) && HeldAgainstHandler(w))
        || (m.step.Advance? && TakenFromHandler(w, m.step.c)))
  }

  lemma WorkerEases(s: State, c: CallId)
    requires LocksInv(s) && Enabled(s, Advance(c)) && !s.calls[c].owner
    requires !(s.calls[c].pc.Lookup? && s.calls[c].pc.device in s.table)
    ensures Eased(s, Advanced(s, c))
  {
  }

  lemma WorkerTakes(w: World, c: CallId)
    requires LocksInv(w.s) && StackInv(w) && CanDo(w, Advance(c)) && !w.s.calls[c].owner
    requires w.s.calls[c].pc.Lookup? && w.s.calls[c].pc.device in w.s.table
    ensures Doomed(Moved(w, Do(Advance(c)))) <==> TakenFromHandler(w, c)
  {
    var w' := Moved(w, Do(Advance(c)));
    if OnStack(w.stack, Some(c)) { OnlyOwners(w, c); }
    forall p: nat | p < |w.stack| ensures DoomedAt(w', p) <==> HandlerNeeds(w, p) {
      assert FrameOk(w.s, w.stack[p], p == |w.stack| - 1);
      assert OnStackBelow(w.stack, p, Some(c)) ==> OnStack(w.stack, Some(c));
    }
  }

  lemma AdvanceDoomsIff(w: World, c: CallId)
    requires LocksInv(w.s) && StackInv(w) && !Doomed(w) && CanDo(w, Advance(c))
    ensures Doomed(Moved(w, Do(Advance(c)))) <==> TakenFromHandler(w, c)
  {
    if w.s.calls[c].owner {
      OwnerMoveSafe(w, c);
    } else if w.s.calls[c].pc.Lookup? && w.s.calls[c].pc.device in w.s.table {
      WorkerTakes(w, c);
    } else {
      WorkerEases(w.s, c);
      if Doomed(Moved(w, Do(Advance(c)))) { DoomBack(w, Moved(w, Do(Advance(c)))); }
    }
  }

  lemma OtherStart(w: World, step: Step)
    requires LocksInv(w.s) && StackInv(w) && !Doomed(w) && CanDo(w, step) && Starts(step)
    requires !(step.owner && EntersTable(step))
    ensures !Doomed(Moved(w, Do(step)))
  {
    var (w', f) := (Moved(w, Do(step)), Frame(Some(step.c), false));
    if step.c in w'.s.calls { StartedNeeds(w.s, step); }
    forall p: nat ensures !DoomedAt(w', p) {
      if p < |w.stack| {
        assert !DoomedAt(w, p) && FrameOk(w.s, w.stack[p], p == |w.stack| - 1);
        PushedBelow(w.stack, f, p, None);
        PushedBelow(w.stack, f, p, w.s.tableLock);
      }
    }
  }

  /** In every reachable world a move creates a deadlock if and only if it is one of two: a handler calls
      one of the two emit functions while the mutex they need is held against it, or a worker takes that
      mutex while a handler of the idle callback is on its way to it. */
  lemma DoomsIff(w: World, m: Move)
    requires Reachable(w) && !Doomed(w) && CanMove(w, m)
    ensures Doomed(Moved(w, m)) <==> Dooms(w, m)
  {
    ReachableInv(w);
    LocksFromRequests(w.s);
    if m.Return? {
      MoveOfHandler(w);
    } else if m.step.Advance? {
      AdvanceDoomsIff(w, m.step.c);
    } else if m.step.Fire? {
      FireDoomsNothing(w);
    } else if m.step.DispatchNext? || m.step.DispatchEnd? {
      ShrunkMove(w, m);
      if Doomed(Moved(w, m)) { DoomBack(w, Moved(w, m)); }
    } else if m.step.owner && EntersTable(m.step) {
      ReentryDoomsIff(w, m.step);
    } else {
      OtherStart(w, m.step);
    }
  }

  lemma FireDoomsNothing(w: World)
    requires StackInv(w) && !Doomed(w) && CanDo(w, Fire)
    ensures !Doomed(Moved(w, Do(Fire)))
  {
    forall p: nat ensures !DoomedAt(Moved(w, Do(Fire)), p) {
      if p < |w.stack| {
        assert !DoomedAt(w, p);
        PushedBelow(w.stack, Frame(None, false), p, None);
        PushedBelow(w.stack, Frame(None, false), p, w.s.tableLock);
      }
    }
  }

  // ---------------------------------------------------------------- two deadlocks

  lemma {:induction false} RunExtend(w: World, moves: seq<Move>, m: Move)
    requires RunFrom(w, moves).Some? && CanMove(RunFrom(w, moves).value, m)
    ensures RunFrom(w, moves + [m]) == Some(Moved(RunFrom(w, moves).value, m))
    decreases |moves|
  {
    if moves == [] {
      assert moves + [m] == [m] && [m][1..] == [];
    } else {
      assert (moves + [m])[1..] == moves[1..] + [m];
      RunExtend(Moved(w, moves[0]), moves[1..], m);
    }
  }

  lemma Stay(w: World)
    ensures Leads(w, w)
  {
    assert RunFrom(w, []) == Some(w);
  }

  lemma Go(from: World, w: World, m: Move)
    requires Leads(from, w) && CanMove(w, m)
    ensures Leads(from, Moved(w, m))
  {
    var moves :| RunFrom(from, moves) == Some(w);
    RunExtend(from, moves, m);
  }

  /** The owner thread announces something and its handlers run. */
  lemma Announce(from: World, w: World, step: Step) returns (w': World)
    requires Leads(from, w) && CanDo(w, step) && (step.EmitDeviceRequest? || step.EmitDeviceChanged?) && step.owner
    ensures Leads(from, w') && w'.stack == w.stack + [Frame(Some(step.c), true)]
    ensures var pc := if step.EmitDeviceRequest?
                      then After(DeviceRequest(Emission(w.s.nextTag, step.immediate, step.target)))
                      else After(DeviceChanged(step.device, step.waitingForUser));
            w'.s.calls == w.s.calls[step.c := Call(true, pc)]
    ensures w'.s.table == w.s.table && w'.s.tableLock == w.s.tableLock && w'.s.dispatching == w.s.dispatching
  {
    var begun := Moved(w, Do(step));
    Go(from, w, Do(step));
    Go(from, begun, Do(Advance(step.c)));
    w' := Moved(begun, Do(Advance(step.c)));
    assert begun.stack[..|w.stack|] == w.stack;
  }

  /** Its handlers return. */
  lemma HandlersReturn(from: World, w: World, c: CallId) returns (w': World)
    requires Leads(from, w) && w.stack != [] && Top(w) == Frame(Some(c), true)
    requires c in w.s.calls && !w.s.calls[c].pc.Done?
    ensures Leads(from, w') && w' == World(w.s, Below(w) + [Frame(Some(c), false)])
  {
    Go(from, w, Return);
    w' := Moved(w, Return);
  }

  /** Its handlers return and the call enters the table section. */
  lemma Enter(from: World, w: World, c: CallId) returns (w': World)
    requires Leads(from, w) && w.stack != [] && Top(w) == Frame(Some(c), true) && c in w.s.calls && w.s.calls[c].owner
    requires w.s.tableLock.None? && (w.s.calls[c].pc.Insert? || w.s.calls[c].pc.Lookup?)
    ensures Leads(from, w') && w'.s.calls.Keys == w.s.calls.Keys
    ensures w.s.calls[c].pc.Insert? ==>
        w'.s.tableLock.None? && w.s.calls[c].pc.em.Device() in w'.s.table && w'.stack == Below(w)
    ensures w.s.calls[c].pc.Lookup? && w.s.calls[c].pc.device in w.s.table ==>
        && w'.s.tableLock == Some(c) && w'.stack == Below(w) + [Frame(Some(c), false)]
        && w'.s.calls[c] == Call(true, Emit(Invalidate(w.s.table[w.s.calls[c].pc.device])))
  {
    var back := HandlersReturn(from, w, c);
    assert Below(back) == Below(w);
    Go(from, back, Do(Advance(c)));
    w' := Moved(back, Do(Advance(c)));
  }

  /** The owner thread invalidates a request, and the handlers of the invalidation run. */
  lemma Invalidates(from: World, w: World, c: CallId) returns (w': World)
    requires Leads(from, w) && w.stack != [] && Top(w) == Frame(Some(c), false) && w.s.tableLock == Some(c)
    requires c in w.s.calls && w.s.calls[c].owner && w.s.calls[c].pc.Emit?
    ensures Leads(from, w') && w'.s.calls.Keys == w.s.calls.Keys && w'.s.tableLock == Some(c)
    ensures w'.stack == Below(w) + [Frame(Some(c), true)]
  {
    Go(from, w, Do(Advance(c)));
    w' := Moved(w, Do(Advance(c)));
  }

  /** The owner thread waits for the table mutex, in a call it has on top of its stack. */
  ghost predicate Waits(w: World, c: CallId) {
    && w.stack != [] && Top(w) == Frame(Some(c), false) && w.s.tableLock.Some?
    && c in w.s.calls && (w.s.calls[c].pc.Insert? || w.s.calls[c].pc.Lookup?)
  }

  /** All that can still happen is for workers to do. */
  ghost predicate OwnerStuck(w: World) {
    forall m | CanMove(w, m) ::
      && m.Do?
      && (if m.step.Advance? then !w.s.calls[m.step.c].owner else Starts(m.step) && !m.step.owner)
  }

  lemma WaitingIsStuck(w: World, c: CallId)
    requires Waits(w, c)
    ensures OwnerStuck(w)
  {
  }

  /** From a handler, any announcement about an immediate request or a change gets as far as the mutex. */
  lemma ReentryWaits(from: World, w: World, step: Step) returns (w': World)
    requires Leads(from, w) && InUserCode(w) && w.s.tableLock.Some?
    requires EntersTable(step) && step.owner && step.c !in w.s.calls
    ensures Leads(from, w') && Waits(w', step.c) && OwnerStuck(w')
    ensures w'.stack == w.stack + [Frame(Some(step.c), false)] && w'.s.tableLock == w.s.tableLock
    ensures w'.s.dispatching == w.s.dispatching
    ensures forall c | c in w.s.calls :: c in w'.s.calls && w'.s.calls[c] == w.s.calls[c]
  {
    var w1 := Announce(from, w, step);
    assert Below(w1) == w.stack;
    w' := HandlersReturn(from, w1, step.c);
    WaitingIsStuck(w', step.c);
  }

  /** The owner thread waits in the call c' for the mutex that its own call c holds. */
  ghost predicate WaitsForItself(w: World, c: CallId, c': CallId) {
    && Doomed(w) && OwnerStuck(w) && Waits(w, c')
    && w.s.tableLock == Some(c) && c in w.s.calls && c != c' && OnStack(w.stack, Some(c))
  }

  /** The owner thread waits in the call c' for the mutex of the worker c, which waits for idle_mutex, which
      the idle callback holds while it waits for the handler that made the call c'. */
  ghost predicate WaitInCircle(w: World, c: CallId, c': CallId) {
    && Doomed(w) && OwnerStuck(w) && Waits(w, c')
    && w.s.tableLock == Some(c) && c in w.s.calls && !w.s.calls[c].owner && w.s.calls[c].pc.Post?
    && w.s.dispatching.Some? && OnStack(w.stack, None)
  }

  /** One mutex twice.  From any reachable world with an outstanding request whose table mutex is free, the
      owner thread can announce that the device changed, and a handler of the invalidation that announces
      anything about an immediate request or a change waits for the mutex its own thread holds. */
  lemma InvalidationDeadlock(w: World, d: DeviceId, c: CallId, step: Step) returns (w': World)
    requires Reachable(w) && InUserCode(w) && w.s.tableLock.None? && d in w.s.table && c !in w.s.calls
    requires EntersTable(step) && step.owner && step.c !in w.s.calls && step.c != c
    ensures Leads(w, w') && WaitsForItself(w', c, step.c)
  {
    Stay(w);
    var w1 := Announce(w, w, EmitDeviceChanged(c, true, d, false));
    var w2 := Enter(w, w1, c);
    var w3 := Invalidates(w, w2, c);
    w' := ReentryWaits(w, w3, step);
    var n := |w3.stack|;
    assert w'.stack[n - 1].who == Some(c);
    assert DoomedAt(w', n);
  }

  /** A worker announces a change, and comes to the table section. */
  lemma WorkerAnnounces(from: World, w: World, d: DeviceId, c: CallId) returns (w': World)
    requires Leads(from, w) && w.s.dispatching.None? && c !in w.s.calls
    ensures Leads(from, w') && w'.stack == w.stack && w'.s.dispatching.None? && w'.s.queue != []
    ensures w'.s.table == w.s.table && w'.s.tableLock == w.s.tableLock
    ensures w'.s.calls == w.s.calls[c := Call(false, Lookup(d))]
  {
    var step := EmitDeviceChanged(c, false, d, false);
    Go(from, w, Do(step));
    var w1 := WorkerMoves(from, Moved(w, Do(step)), c);
    assert w1.s.calls[c] == Call(false, Post(DeviceChanged(d, false)));
    w' := WorkerMoves(from, w1, c);
  }

  /** When the device has an outstanding request, it takes the mutex and is about to queue the invalidation. */
  lemma WorkerTakesTable(from: World, w: World, d: DeviceId, c: CallId) returns (w': World)
    requires Leads(from, w) && w.s.tableLock.None? && d in w.s.table
    requires c in w.s.calls && w.s.calls[c] == Call(false, Lookup(d))
    ensures Leads(from, w') && w'.stack == w.stack && w'.s.dispatching == w.s.dispatching && w'.s.queue == w.s.queue
    ensures w'.s.tableLock == Some(c) && w'.s.calls == w.s.calls[c := Call(false, Post(Invalidate(w.s.table[d])))]
  {
    var w1 := WorkerMoves(from, w, c);
    assert w1.s.calls[c] == Call(false, Emit(Invalidate(w.s.table[d])));
    w' := WorkerMoves(from, w1, c);
  }

  lemma WorkerMoves(from: World, w: World, c: CallId) returns (w': World)
    requires Leads(from, w) && c in w.s.calls && !w.s.calls[c].owner && CanAdvance(w.s, w.s.calls[c].pc)
    ensures Leads(from, w') && w' == World(Advanced(w.s, c), w.stack)
  {
    Go(from, w, Do(Advance(c)));
    w' := Moved(w, Do(Advance(c)));
  }

  /** The main context dispatches, and the handlers of the first helper run. */
  lemma Dispatches(from: World, w: World) returns (w': World)
    requires Inv(from) && Leads(from, w) && InUserCode(w) && w.s.dispatching.None? && w.s.queue != []
    ensures Leads(from, w') && w'.stack == w.stack + [Frame(None, true)] && w'.s.dispatching.Some?
    ensures w'.s.calls == w.s.calls && w'.s.tableLock == w.s.tableLock
  {
    LeadsInv(from, w);
    var fired := Fires(from, w);
    assert Below(fired) == w.stack;
    w' := DispatchesOne(from, fired);
  }

  lemma Fires(from: World, w: World) returns (w': World)
    requires Leads(from, w) && InUserCode(w) && w.s.dispatching.None? && w.s.pending > 0
    ensures Leads(from, w') && w'.stack == w.stack + [Frame(None, false)]
    ensures w'.s == w.s.(pending := w.s.pending - 1, dispatching := Some(0))
  {
    Go(from, w, Do(Fire));
    w' := Moved(w, Do(Fire));
  }

  lemma DispatchesOne(from: World, w: World) returns (w': World)
    requires Leads(from, w) && w.stack != [] && Top(w) == Frame(None, false)
    requires w.s.dispatching.Some? && w.s.dispatching.value < |w.s.queue|
    ensures Leads(from, w') && w'.stack == Below(w) + [Frame(None, true)] && w'.s.dispatching.Some?
    ensures w'.s.calls == w.s.calls && w'.s.tableLock == w.s.tableLock
  {
    Go(from, w, Do(DispatchNext));
    w' := Moved(w, Do(DispatchNext));
  }

  /** Two mutexes in opposite orders.  From any reachable world with an outstanding request in which both
      mutexes are free, a worker can announce that the device changed: it holds the table mutex and waits
      to queue the invalidation, the idle callback holds idle_mutex and waits for its handler, and a handler
      that announces anything about an immediate request or a change waits for the table mutex. */
  lemma CallbackDeadlock(w: World, d: DeviceId, c: CallId, step: Step) returns (w': World)
    requires Reachable(w) && InUserCode(w) && w.s.dispatching.None? && w.s.tableLock.None? && d in w.s.table
    requires c !in w.s.calls && EntersTable(step) && step.owner && step.c !in w.s.calls && step.c != c
    ensures Leads(w, w') && WaitInCircle(w', c, step.c)
  {
    Stay(w);
    ReachableInv(w);
    var w1 := WorkerAnnounces(w, w, d, c);
    var w2 := WorkerTakesTable(w, w1, d, c);
    var w3 := Dispatches(w, w2);
    w' := ReentryWaits(w, w3, step);
    var n := |w3.stack|;
    assert w'.stack[n - 1].who == None;
    assert DoomedAt(w', n);
  }

  /** Such a world is reached by announcing one immediate request. */
  lemma OutstandingRequest(d: DeviceId) returns (w: World)
    ensures Reachable(w) && w.stack == [] && w.s.dispatching.None? && w.s.tableLock.None? && d in w.s.table
    ensures w.s.calls.Keys == {0}
  {
    Stay(Begun);
    var w1 := Announce(Begun, Begun, EmitDeviceRequest(0, true, true, Some(d)));
    w := Enter(Begun, w1, 0);
    ReachableInv(w);
  }

  lemma {:induction false} LeadsOn(from: World, w: World, w': World, moves: seq<Move>)
    requires Leads(from, w) && RunFrom(w, moves) == Some(w')
    ensures Leads(from, w')
    decreases |moves|
  {
    if moves != [] {
      Go(from, w, moves[0]);
      LeadsOn(from, Moved(w, moves[0]), w', moves[1..]);
    }
  }

  /** So a client can deadlock from its very beginning, in either way. */
  lemma DeadlockReachable()
    ensures exists w, c, c' :: Reachable(w) && WaitsForItself(w, c, c')
    ensures exists w, c, c' :: Reachable(w) && WaitInCircle(w, c, c')
  {
    var w := OutstandingRequest("d");
    var step := EmitDeviceChanged(2, true, "d", false);
    var w1 := InvalidationDeadlock(w, "d", 1, step);
    var moves :| RunFrom(w, moves) == Some(w1);
    LeadsOn(Begun, w, w1, moves);
    var w2 := CallbackDeadlock(w, "d", 1, step);
    moves :| RunFrom(w, moves) == Some(w2);
    LeadsOn(Begun, w, w2, moves);
  }

  // ---------------------------------------------------------------- the stack only restricts

  /** Every run with a stack is a run of the transition system, so all that its runs keep holds here too. */
  lemma {:induction false} Projected(w: World, steps: seq<Step>, moves: seq<Move>) returns (steps': seq<Step>)
    requires Reaches(steps, w.s) && RunFrom(w, moves).Some?
    ensures Reaches(steps', RunFrom(w, moves).value.s)
    decreases |moves|
  {
    steps' := steps;
    if moves != [] {
      var m := moves[0];
      if m.Do? {
        Extend(steps, m.step);
        steps' := steps + [m.step];
      }
      steps' := Projected(Moved(w, m), steps', moves[1..]);
    }
  }
}
