/** Progress.  The transition system lets every call advance freely, which is right for what runs keep and
    too generous for whether they end: a handler that runs on the owner thread in the middle of an emission
    may call back into the client, and what it interrupted waits for it.  Here the owner thread has a stack,
    and only its topmost frame can move. */
module NotifyStack {
  import opened Wrappers
  import opened Notify
  import opened NotifyRuns

  /** A call on the owner thread, or the idle callback, and whether the handlers of an emission it made
      are still running. */
  datatype Frame = Frame(who: Option<CallId>, inHandler: bool)

  datatype World = World(s: State, stack: seq<Frame>)

  /** A step of some thread, or the handlers of the topmost frame come to their end. */
  datatype Move = Do(step: Step) | Return

  const Begun := World(Initial, [])

  function Top(w: World): Frame
    requires w.stack != []
  {
    w.stack[|w.stack| - 1]
  }

  /** The owner thread runs code of the user: nothing of the client, or a handler that may re-enter it or
      iterate the main context. */
  predicate InUserCode(w: World) {
    w.stack == [] || Top(w).inHandler
  }

  predicate Starts(step: Step) {
    !(step.Advance? || step.Fire? || step.DispatchNext? || step.DispatchEnd?)
  }

  predicate CanDo(w: World, step: Step) {
    && Enabled(w.s, step)
    && match step
       case Advance(c) => w.s.calls[c].owner ==> w.stack != [] && Top(w) == Frame(Some(c), false)
       case Fire => InUserCode(w)
       case DispatchNext => w.stack != [] && Top(w) == Frame(None, false)
       case DispatchEnd => w.stack != [] && Top(w) == Frame(None, false)
       case _ => step.owner ==> InUserCode(w)
  }

  predicate CanMove(w: World, m: Move) {
    match m
    case Do(step) => CanDo(w, step)
    case Return => w.stack != [] && Top(w).inHandler
  }

  function Below(w: World): seq<Frame>
    requires w.stack != []
  {
    w.stack[..|w.stack| - 1]
  }

  /** A call that is done leaves the stack. */
  function Settle(s: State, below: seq<Frame>, c: CallId): seq<Frame> {
    if c in s.calls && s.calls[c].pc.Done? then below else below + [Frame(Some(c), false)]
  }

  function Moved(w: World, m: Move): World
    requires CanMove(w, m)
  {
    match m
    case Return =>
      var who := Top(w).who;
      World(w.s, if who.None? then Below(w) + [Frame(None, false)] else Settle(w.s, Below(w), who.value))
    case Do(step) =>
      var s := Apply(w.s, step);
      match step
      case Advance(c) =>
        if !w.s.calls[c].owner then World(s, w.stack)
        else if w.s.calls[c].pc.Emit? then World(s, Below(w) + [Frame(Some(c), true)])
        else World(s, Settle(s, Below(w), c))
      case Fire => World(s, w.stack + [Frame(None, false)])
      case DispatchNext => World(s, Below(w) + [Frame(None, true)])
      case DispatchEnd => World(s, Below(w))
      case _ => World(s, if step.owner && step.c in s.calls then w.stack + [Frame(Some(step.c), false)] else w.stack)
  }

  /** The world after a sequence of moves, or None when some move was not possible. */
  ghost function RunFrom(w: World, moves: seq<Move>): Option<World>
    decreases |moves|
  {
    if moves == [] then Some(w)
    else if CanMove(w, moves[0]) then RunFrom(Moved(w, moves[0]), moves[1..])
    else None
  }

  // ---------------------------------------------------------------- what every world keeps

  /** A frame in its place: only the topmost is not waiting for handlers. */
  ghost predicate FrameOk(s: State, f: Frame, topmost: bool) {
    && (!topmost ==> f.inHandler)
    && (if f.who.None? then s.dispatching.Some? else f.who.value in s.calls && CallOk(s.calls[f.who.value], f.inHandler))
  }

  ghost predicate CallOk(call: Call, inHandler: bool) {
    && call.owner && !call.pc.Post?
    && if inHandler then !call.pc.Emit? && !call.pc.WriteStatus? else !call.pc.Done?
  }

  ghost predicate OnStack(stack: seq<Frame>, who: Option<CallId>) {
    exists i :: 0 <= i < |stack| && stack[i].who == who
  }

  ghost predicate Distinct(stack: seq<Frame>) {
    forall i, j :: 0 <= i < j < |stack| ==> stack[i].who != stack[j].who
  }

  /** The stack holds each unfinished call of the owner thread and the running callback, once. */
  ghost predicate StackInv(w: World) {
    && (forall i :: 0 <= i < |w.stack| ==> FrameOk(w.s, w.stack[i], i == |w.stack| - 1))
    && Distinct(w.stack)
    && (w.s.dispatching.Some? ==> OnStack(w.stack, None))
    && (forall c | c in w.s.calls && w.s.calls[c].owner && !w.s.calls[c].pc.Done? :: OnStack(w.stack, Some(c)))
  }

  /** Some other thread moved: what the owner thread has on its stack is as before. */
  lemma StackUntouched(w: World, s': State)
    requires StackInv(w) && s'.dispatching == w.s.dispatching
    requires forall c :: (c in w.s.calls && w.s.calls[c].owner) <==> (c in s'.calls && s'.calls[c].owner)
    requires forall c | c in w.s.calls && w.s.calls[c].owner :: s'.calls[c] == w.s.calls[c]
    ensures StackInv(World(s', w.stack))
  {
    forall i | 0 <= i < |w.stack| ensures FrameOk(s', w.stack[i], i == |w.stack| - 1) {
      assert FrameOk(w.s, w.stack[i], i == |w.stack| - 1);
    }
  }

  /** A call begins on the owner thread. */
  lemma StackPushed(w: World, c: CallId, call: Call)
    requires StackInv(w) && InUserCode(w) && c !in w.s.calls && CallOk(call, false)
    ensures StackInv(World(w.s.(calls := w.s.calls[c := call]), w.stack + [Frame(Some(c), false)]))
  {
    var (s', stack') := (w.s.(calls := w.s.calls[c := call]), w.stack + [Frame(Some(c), false)]);
    forall i | 0 <= i < |stack'|
      ensures FrameOk(s', stack'[i], i == |stack'| - 1) && (i < |w.stack| ==> stack'[i].who != Some(c))
    {
      if i < |w.stack| { assert FrameOk(w.s, w.stack[i], i == |w.stack| - 1); }
    }
    KeptOnStack(w.stack, stack');
    assert stack'[|w.stack|].who == Some(c);
  }

  lemma KeptOnStack(a: seq<Frame>, b: seq<Frame>)
    requires |a| <= |b| && forall i :: 0 <= i < |a| ==> a[i].who == b[i].who
    ensures forall who :: OnStack(a, who) ==> OnStack(b, who)
  {
    forall who | OnStack(a, who) ensures OnStack(b, who) {
      var i :| 0 <= i < |a| && a[i].who == who;
      assert b[i].who == who;
    }
  }

  /** The callback takes the lock. */
  lemma StackFired(w: World, s': State)
    requires StackInv(w) && InUserCode(w) && w.s.dispatching.None? && s'.dispatching.Some? && s'.calls == w.s.calls
    ensures StackInv(World(s', w.stack + [Frame(None, false)]))
  {
    var stack' := w.stack + [Frame(None, false)];
    forall i | 0 <= i < |stack'| ensures FrameOk(s', stack'[i], i == |stack'| - 1) {
      if i < |w.stack| { assert FrameOk(w.s, w.stack[i], i == |w.stack| - 1); }
    }
    KeptOnStack(w.stack, stack');
    assert stack'[|w.stack|].who == None;
  }

  /** The topmost frame moves and stays. */
  lemma StackTopMoved(w: World, s': State, f: Frame)
    requires StackInv(w) && w.stack != [] && f.who == Top(w).who && FrameOk(s', f, true)
    requires s'.dispatching.Some? == w.s.dispatching.Some? && s'.calls.Keys == w.s.calls.Keys
    requires forall c | c in w.s.calls && Some(c) != f.who :: s'.calls[c] == w.s.calls[c]
    requires forall c | c in w.s.calls :: s'.calls[c].owner == w.s.calls[c].owner
    ensures StackInv(World(s', Below(w) + [f]))
  {
    var (n, stack') := (|w.stack| - 1, Below(w) + [f]);
    forall i | 0 <= i < |stack'| ensures FrameOk(s', stack'[i], i == n) {
      if i < n {
        assert FrameOk(w.s, w.stack[i], false);
        assert w.stack[i].who != w.stack[n].who;
      }
    }
    KeptOnStack(w.stack, stack');
    forall c | c in s'.calls && s'.calls[c].owner && !s'.calls[c].pc.Done? ensures OnStack(stack', Some(c)) {
      if Some(c) == f.who { assert stack'[n].who == Some(c); } else { assert OnStack(w.stack, Some(c)); }
    }
  }

  /** The topmost frame is done. */
  lemma StackPopped(w: World, s': State)
    requires StackInv(w) && w.stack != []
    requires s'.dispatching == (if Top(w).who.None? then None else w.s.dispatching) && s'.calls.Keys == w.s.calls.Keys
    requires forall c | c in w.s.calls && Some(c) != Top(w).who :: s'.calls[c] == w.s.calls[c]
    requires Top(w).who.Some? ==> s'.calls[Top(w).who.value].pc.Done?
    ensures StackInv(World(s', Below(w)))
  {
    var (n, stack') := (|w.stack| - 1, Below(w));
    forall i | 0 <= i < |stack'| ensures FrameOk(s', stack'[i], i == |stack'| - 1) {
      assert FrameOk(w.s, w.stack[i], false);
      assert w.stack[i].who != w.stack[n].who;
    }
    forall who | OnStack(w.stack, who) && who != Top(w).who ensures OnStack(stack', who) {
      var i :| 0 <= i < |w.stack| && w.stack[i].who == who;
      assert stack'[i].who == who;
    }
  }

  lemma StackAdvance(w: World, c: CallId)
    requires StackInv(w) && CanDo(w, Advance(c))
    ensures StackInv(Moved(w, Do(Advance(c))))
  {
    var s' := Advanced(w.s, c);
    if !w.s.calls[c].owner {
      StackUntouched(w, s');
    } else {
      assert FrameOk(w.s, Top(w), true);
      if w.s.calls[c].pc.Emit? {
        StackTopMoved(w, s', Frame(Some(c), true));
      } else if s'.calls[c].pc.Done? {
        StackPopped(w, s');
      } else {
        StackTopMoved(w, s', Frame(Some(c), false));
      }
    }
  }

  lemma StackReturn(w: World)
    requires StackInv(w) && CanMove(w, Return)
    ensures StackInv(Moved(w, Return))
  {
    var who := Top(w).who;
    assert FrameOk(w.s, Top(w), true);
    if who.Some? && w.s.calls[who.value].pc.Done? { StackPopped(w, w.s); } else { StackTopMoved(w, w.s, Frame(who, false)); }
  }

  lemma StackStart(w: World, step: Step)
    requires StackInv(w) && CanDo(w, step) && Starts(step)
    ensures StackInv(Moved(w, Do(step)))
  {
    var s' := Apply(w.s, step);
    if step.owner && step.c in s'.calls {
      StackPushed(w, step.c, s'.calls[step.c]);
      StackUntouched(World(w.s.(calls := s'.calls), w.stack + [Frame(Some(step.c), false)]), s');
    } else {
      StackUntouched(w, s');
    }
  }

  lemma StackStep(w: World, m: Move)
    requires StackInv(w) && CanMove(w, m)
    ensures StackInv(Moved(w, m))
  {
    if m.Return? {
      StackReturn(w);
    } else if m.step.Advance? {
      StackAdvance(w, m.step.c);
    } else if m.step.Fire? {
      StackFired(w, Apply(w.s, Fire));
    } else if m.step.DispatchNext? {
      StackTopMoved(w, Apply(w.s, DispatchNext), Frame(None, true));
    } else if m.step.DispatchEnd? {
      StackPopped(w, Apply(w.s, DispatchEnd));
    } else {
      StackStart(w, m.step);
    }
  }

  /** What the two mutexes keep, from the invariants of the transition system. */
  ghost predicate LocksInv(s: State) {
    && (forall c | c in s.calls :: HoldsTable(s.calls[c].pc) <==> s.tableLock == Some(c))
    && (s.tableLock.Some? ==> s.tableLock.value in s.calls)
    && (s.dispatching.Some? ==> s.dispatching.value <= |s.queue|)
  }

  lemma LocksFromRequests(s: State)
    requires RequestInv(s)
    ensures LocksInv(s)
  {
    assert forall c | c in s.calls :: CallInv(ViewOf(s), c, s.calls[c].pc);
  }

  ghost predicate Inv(w: World) {
    RequestInv(w.s) && StackInv(w)
  }

  lemma InvStep(w: World, m: Move)
    requires Inv(w) && CanMove(w, m)
    ensures Inv(Moved(w, m))
  {
    StackStep(w, m);
    if m.Do? { RequestStep(w.s, m.step); }
  }

  lemma InvBegun()
    ensures Inv(Begun)
  {
    assert ViewInv(ViewOf(Initial));
  }

  lemma {:induction false} InvRun(w: World, moves: seq<Move>)
    requires Inv(w) && RunFrom(w, moves).Some?
    ensures Inv(RunFrom(w, moves).value)
    decreases |moves|
  {
    if moves != [] {
      InvStep(w, moves[0]);
      InvRun(Moved(w, moves[0]), moves[1..]);
    }
  }
}
