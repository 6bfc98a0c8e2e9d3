/** The cross-thread notification machinery of FwupdClient.
    A transition system: any number of client calls are in flight at once, each with its own program
    counter, and any of them may take the next step that the two mutexes allow.  Letting every call
    advance independently covers worker threads, and for what every run keeps also handlers that re-enter
    the client from the middle of an emission; whether runs end is a matter of NotifyStack, where a handler
    holds up what it interrupted.  A critical section that touches nothing but data guarded by its mutex is
    one step; the idle callback, which emits while it holds idle_mutex, is one step per helper. */
module Notify {
  import opened Wrappers

  type CallId = nat
  type DeviceId = string

  /** One call of emit_device_request(); the tag tells two emissions of the same request apart. */
  datatype Emission = Emission(tag: nat, immediate: bool, target: Option<DeviceId>) {
    /** Only immediate requests of a known device are remembered for invalidation. */
    predicate Tracked() { immediate && target.Some? }

    function Device(): DeviceId { if target.Some? then target.value else "" }
  }

  /** FwupdClientContextHelper: something to be emitted in the main context. */
  datatype Helper =
    | Property(name: string)
    | Signal(signal: nat)
    | DeviceRequest(em: Emission)
    | DeviceChanged(device: DeviceId, waitingForUser: bool)
    | Invalidate(em: Emission)

  const StatusHelper := Property("status")

  /** Program counters. */
  datatype Pc =
    | WriteStatus(value: nat)     // set_status() saw a different value and is about to store it
    | Emit(h: Helper)             // about to test for the context owner
    | Post(h: Helper)             // waiting for idle_mutex, to queue the helper
    | Insert(em: Emission)        // waiting for immediate_requests_mutex, to remember a request
    | Lookup(device: DeviceId)    // waiting for immediate_requests_mutex, to invalidate a request
    | Remove(em: Emission)        // holds immediate_requests_mutex, request invalidated
    | Done

  /** A client call, and whether its thread owns the main context. */
  datatype Call = Call(owner: bool, pc: Pc)

  /** Something that reached the user: for a status notification `value` is what it carried. */
  datatype Delivery = Delivery(h: Helper, queued: bool, value: nat)

  /** Critical sections of immediate_requests_mutex, in the order they were entered. */
  datatype TableOp = Inserted(em: Emission) | Changed(device: DeviceId)

  datatype State = State(
    status: nat,
    // guarded by idle_mutex
    idleId: nat,
    queue: seq<Helper>,
    // the idle callback holds idle_mutex and has emitted this many helpers
    dispatching: Option<nat>,
    // attached idle sources whose callback has not taken the lock yet
    pending: nat,
    // guarded by immediate_requests_mutex
    tableLock: Option<CallId>,
    table: map<DeviceId, Emission>,
    calls: map<CallId, Call>,
    nextTag: nat,
    // history
    delivered: seq<Delivery>,
    posted: seq<Helper>,
    tableOps: seq<TableOp>)

  const InitialStatus: nat := 0

  const Initial: State := State(InitialStatus, 0, [], None, 0, None, map[], map[], 0, [], [], [])

  datatype Step =
    | SetStatus(c: CallId, owner: bool, value: nat)
    | NotifyProperty(c: CallId, owner: bool, name: string)
    | EmitSignal(c: CallId, owner: bool, signal: nat)
    | EmitDeviceRequest(c: CallId, owner: bool, immediate: bool, target: Option<DeviceId>)
    | EmitDeviceChanged(c: CallId, owner: bool, device: DeviceId, waitingForUser: bool)
    | Advance(c: CallId)
    | Fire
    | DispatchNext
    | DispatchEnd

  // ---------------------------------------------------------------- transitions

  /** What the calling function does once its helper was emitted or queued. */
  function After(h: Helper): Pc {
    match h
    case DeviceRequest(em) => if em.Tracked() then Insert(em) else Done
    case DeviceChanged(d, waiting) => if waiting then Done else Lookup(d)
    case Invalidate(em) => Remove(em)
    case _ => Done
  }

  function SetPc(s: State, c: CallId, pc: Pc): State
    requires c in s.calls
  {
    s.(calls := s.calls[c := Call(s.calls[c].owner, pc)])
  }

  function Begin(s: State, c: CallId, owner: bool, pc: Pc): State {
    s.(calls := s.calls[c := Call(owner, pc)])
  }

  function Deliver(s: State, h: Helper, queued: bool): State {
    s.(delivered := s.delivered + [Delivery(h, queued, s.status)])
  }

  /** fwupd_client_context_helper() */
  function Enqueue(s: State, h: Helper): State {
    var s1 := if s.idleId == 0 then s.(idleId := |s.posted| + 1, pending := s.pending + 1) else s;
    s1.(queue := s.queue + [h], posted := s.posted + [h])
  }

  predicate CanAdvance(s: State, pc: Pc) {
    match pc
    case Post(_) => s.dispatching.None?
    case Insert(_) => s.tableLock.None?
    case Lookup(_) => s.tableLock.None?
    case Done => false
    case _ => true
  }

  predicate Enabled(s: State, step: Step) {
    match step
    case Advance(c) => c in s.calls && CanAdvance(s, s.calls[c].pc)
    case Fire => s.pending > 0 && s.dispatching.None?
    case DispatchNext => s.dispatching.Some? && s.dispatching.value < |s.queue|
    case DispatchEnd => s.dispatching.Some? && s.dispatching.value >= |s.queue|
    case _ => step.c !in s.calls
  }

  function Apply(s: State, step: Step): State
    requires Enabled(s, step)
  {
    match step
    case SetStatus(c, owner, v) =>
      if s.status == v then s else Begin(s, c, owner, WriteStatus(v))
    case NotifyProperty(c, owner, name) => Begin(s, c, owner, Emit(Property(name)))
    case EmitSignal(c, owner, signal) => Begin(s, c, owner, Emit(Signal(signal)))
    case EmitDeviceRequest(c, owner, immediate, target) =>
      Begin(s.(nextTag := s.nextTag + 1), c, owner, Emit(DeviceRequest(Emission(s.nextTag, immediate, target))))
    case EmitDeviceChanged(c, owner, device, waiting) =>
      Begin(s, c, owner, Emit(DeviceChanged(device, waiting)))
    case Advance(c) => Advanced(s, c)
    case Fire => s.(pending := s.pending - 1, dispatching := Some(0))
    case DispatchNext =>
      Deliver(s, s.queue[s.dispatching.value], true).(dispatching := Some(s.dispatching.value + 1))
    case DispatchEnd => s.(queue := [], idleId := 0, dispatching := None)
  }

  function Advanced(s: State, c: CallId): State
    requires c in s.calls && CanAdvance(s, s.calls[c].pc)
  {
    match s.calls[c].pc
    case WriteStatus(v) => SetPc(s.(status := v), c, Emit(StatusHelper))
    case Emit(h) =>
      if s.calls[c].owner then SetPc(Deliver(s, h, false), c, After(h)) else SetPc(s, c, Post(h))
    case Post(h) => SetPc(Enqueue(s, h), c, After(h))
    case Insert(em) =>
      SetPc(s.(table := s.table[em.Device() := em], tableOps := s.tableOps + [Inserted(em)]), c, Done)
    case Lookup(d) =>
      if d in s.table then SetPc(s.(tableLock := Some(c)), c, Emit(Invalidate(s.table[d])))
      else SetPc(s.(tableOps := s.tableOps + [Changed(d)]), c, Done)
    case Remove(em) =>
      SetPc(s.(table := s.table - {em.Device()}, tableOps := s.tableOps + [Changed(em.Device())], tableLock := None),
            c, Done)
  }

  /** The state after a sequence of steps, or None when some step was not possible. */
  function Run(steps: seq<Step>): Option<State> {
    if steps == [] then Some(Initial)
    else
      var before := Run(steps[..|steps| - 1]);
      var step := steps[|steps| - 1];
      if before.Some? && Enabled(before.value, step) then Some(Apply(before.value, step)) else None
  }

  // ---------------------------------------------------------------- the queue

  /** Helpers queued and not emitted yet. */
  ghost function Waiting(s: State): seq<Helper> {
    match s.dispatching
    case None => s.queue
    case Some(i) => if i <= |s.queue| then s.queue[i..] else []
  }

  /** The helpers that reached the user through the queue, oldest first. */
  ghost function FromQueue(ds: seq<Delivery>): seq<Helper> {
    if ds == [] then []
    else
      var last := ds[|ds| - 1];
      if last.queued then FromQueue(ds[..|ds| - 1]) + [last.h] else FromQueue(ds[..|ds| - 1])
  }

  ghost predicate QueueInv(s: State) {
    && s.posted == FromQueue(s.delivered) + Waiting(s)
    && (match s.dispatching
        case None => (s.idleId != 0 <==> s.queue != []) && s.pending == if s.queue != [] then 1 else 0
        case Some(i) => i <= |s.queue| && s.idleId != 0 && s.pending == 0)
  }

  lemma DeliverQueued(s: State, h: Helper, queued: bool)
    ensures FromQueue(Deliver(s, h, queued).delivered)
         == if queued then FromQueue(s.delivered) + [h] else FromQueue(s.delivered)
  {
    assert Deliver(s, h, queued).delivered[..|s.delivered|] == s.delivered;
  }

  lemma QueueStep(s: State, step: Step)
    requires QueueInv(s) && Enabled(s, step)
    ensures QueueInv(Apply(s, step))
  {
    match step
    case Advance(c) => QueueAdvance(s, c);
    case DispatchNext => QueueDispatch(s);
    case _ =>
  }

  lemma QueueAdvance(s: State, c: CallId)
    requires QueueInv(s) && Enabled(s, Advance(c))
    ensures QueueInv(Advanced(s, c))
  {
    var pc := s.calls[c].pc;
    if pc.Post? {
      QueueEnqueue(s, pc.h);
    } else if pc.Emit? && s.calls[c].owner {
      DeliverQueued(s, pc.h, false);
    } else {
      QueueSame(s, Advanced(s, c));
    }
  }

  lemma QueueSame(s: State, s': State)
    requires QueueInv(s) && s'.queue == s.queue && s'.dispatching == s.dispatching && s'.idleId == s.idleId
    requires s'.pending == s.pending && s'.delivered == s.delivered && s'.posted == s.posted
    ensures QueueInv(s')
  {
  }

  lemma QueueEnqueue(s: State, h: Helper)
    requires QueueInv(s) && s.dispatching.None?
    ensures QueueInv(Enqueue(s, h))
  {
    assert FromQueue(s.delivered) + (s.queue + [h]) == s.posted + [h];
  }

  lemma WaitingDispatch(s: State)
    requires Enabled(s, DispatchNext)
    ensures Waiting(s) == [s.queue[s.dispatching.value]] + Waiting(Apply(s, DispatchNext))
  {
    TakeFirst(s.queue, s.dispatching.value);
  }

  lemma QueueDispatch(s: State)
    requires QueueInv(s) && Enabled(s, DispatchNext)
    ensures QueueInv(Apply(s, DispatchNext))
    ensures Waiting(s) == [s.queue[s.dispatching.value]] + Waiting(Apply(s, DispatchNext))
  {
    var (s', h) := (Apply(s, DispatchNext), s.queue[s.dispatching.value]);
    WaitingDispatch(s);
    DeliverQueued(s, h, true);
    Regroup(FromQueue(s.delivered), h, Waiting(s'));
    assert FromQueue(s'.delivered) == FromQueue(s.delivered) + [h];
  }

  lemma TakeFirst(hs: seq<Helper>, i: nat)
    requires i < |hs|
    ensures hs[i..] == [hs[i]] + hs[i + 1..]
  {
  }

  lemma Regroup(a: seq<Helper>, h: Helper, b: seq<Helper>)
    ensures a + ([h] + b) == (a + [h]) + b
  {
  }

  // ---------------------------------------------------------------- status publication

  /** The call still has to emit or queue this helper. */
  ghost predicate Carries(pc: Pc, h: Helper) {
    (pc.Emit? || pc.Post?) && pc.h == h
  }

  /** What the user last heard on ::status-changed. */
  ghost function LastStatus(ds: seq<Delivery>): nat {
    if ds == [] then InitialStatus
    else if ds[|ds| - 1].h == StatusHelper then ds[|ds| - 1].value
    else LastStatus(ds[..|ds| - 1])
  }

  /** Some call wrote the status and has neither delivered nor queued its notification. */
  ghost predicate StatusInFlight(s: State) {
    exists c :: c in s.calls && Carries(s.calls[c].pc, StatusHelper)
  }

  ghost predicate StatusInv(s: State) {
    LastStatus(s.delivered) == s.status || StatusInFlight(s) || StatusHelper in Waiting(s)
  }

  lemma DeliverStatus(s: State, h: Helper, queued: bool)
    ensures LastStatus(Deliver(s, h, queued).delivered)
         == if h == StatusHelper then s.status else LastStatus(s.delivered)
  {
    assert Deliver(s, h, queued).delivered[..|s.delivered|] == s.delivered;
  }

  lemma StatusStep(s: State, step: Step)
    requires QueueInv(s) && StatusInv(s) && Enabled(s, step)
    ensures StatusInv(Apply(s, step))
  {
    var s' := Apply(s, step);
    match step
    case Advance(c) => StatusAdvance(s, c);
    case DispatchNext =>
      DeliverStatus(s, s.queue[s.dispatching.value], true);
      QueueDispatch(s);
    case _ =>
      if StatusInFlight(s) {
        var c :| c in s.calls && Carries(s.calls[c].pc, StatusHelper);
        assert c in s'.calls && Carries(s'.calls[c].pc, StatusHelper);
      }
  }

  /** Somebody else's notification is still in flight. */
  lemma StillInFlight(s: State, s': State, c: CallId)
    requires StatusInFlight(s) && (forall d | d in s.calls && d != c :: d in s'.calls && s'.calls[d] == s.calls[d])
    requires c in s.calls ==> !Carries(s.calls[c].pc, StatusHelper)
    ensures StatusInFlight(s')
  {
    var d :| d in s.calls && Carries(s.calls[d].pc, StatusHelper);
    assert d in s'.calls && Carries(s'.calls[d].pc, StatusHelper);
  }

  lemma StatusPost(s: State, c: CallId)
    requires QueueInv(s) && StatusInv(s) && Enabled(s, Advance(c)) && s.calls[c].pc.Post?
    ensures StatusInv(Advanced(s, c))
  {
    var (s', h) := (Advanced(s, c), s.calls[c].pc.h);
    assert s'.queue[|s.queue|] == h && s'.queue[..|s.queue|] == s.queue;
    if StatusInFlight(s) && h != StatusHelper { StillInFlight(s, s', c); }
  }

  lemma StatusEmit(s: State, c: CallId)
    requires StatusInv(s) && Enabled(s, Advance(c)) && s.calls[c].pc.Emit? && s.calls[c].owner
    ensures StatusInv(Advanced(s, c))
  {
    var h := s.calls[c].pc.h;
    DeliverStatus(s, h, false);
    if StatusInFlight(s) && h != StatusHelper { StillInFlight(s, Advanced(s, c), c); }
  }

  lemma StatusAdvance(s: State, c: CallId)
    requires QueueInv(s) && StatusInv(s) && Enabled(s, Advance(c))
    ensures StatusInv(Advanced(s, c))
  {
    var (s', pc) := (Advanced(s, c), s.calls[c].pc);
    if pc.Post? {
      StatusPost(s, c);
    } else if pc.Emit? && s.calls[c].owner {
      StatusEmit(s, c);
    } else if pc.WriteStatus? || Carries(pc, StatusHelper) {
      assert Carries(s'.calls[c].pc, StatusHelper);
    } else if StatusInFlight(s) {
      StillInFlight(s, s', c);
    }
  }

  // ---------------------------------------------------------------- immediate requests

  ghost function Helpers(ds: seq<Delivery>): seq<Helper> {
    seq(|ds|, i requires 0 <= i < |ds| => ds[i].h)
  }

  /** Everything the user has been told or will be told next, in that order. */
  ghost function Issued(s: State): seq<Helper> {
    Helpers(s.delivered) + Waiting(s)
  }

  ghost predicate AboutRequest(h: Helper) {
    h.DeviceRequest? || h.Invalidate?
  }

  /** No emission is signalled twice or invalidated twice. */
  ghost predicate AtMostOnce(hs: seq<Helper>) {
    forall i, j :: 0 <= i < j < |hs| && AboutRequest(hs[i]) ==> hs[i] != hs[j]
  }

  /** Every invalidation comes after the signal it takes back. */
  ghost predicate SignalFirst(hs: seq<Helper>) {
    forall j :: 0 <= j < |hs| && hs[j].Invalidate? ==> DeviceRequest(hs[j].em) in hs[..j]
  }

  /** The part of the state that decides the life of a request; `sent` is what was issued so far. */
  datatype View = View(
    calls: map<CallId, Call>, table: map<DeviceId, Emission>, tableLock: Option<CallId>, nextTag: nat, sent: set<Helper>)

  ghost function ViewOf(s: State): View {
    View(s.calls, s.table, s.tableLock, s.nextTag, set h | h in Issued(s))
  }

  /** The emission this call has not put into the table yet. */
  ghost predicate Owns(pc: Pc, em: Emission) {
    Carries(pc, DeviceRequest(em)) || pc == Insert(em)
  }

  ghost predicate InTable(v: View, em: Emission) {
    em.Device() in v.table && v.table[em.Device()] == em
  }

  ghost predicate HoldsTable(pc: Pc) {
    pc.Remove? || ((pc.Emit? || pc.Post?) && pc.h.Invalidate?)
  }

  ghost predicate CallInv(v: View, c: CallId, pc: Pc) {
    && (HoldsTable(pc) <==> v.tableLock == Some(c))
    && match pc
       case Insert(em) =>
         && em.Tracked() && em.tag < v.nextTag && !InTable(v, em)
         && DeviceRequest(em) in v.sent && Invalidate(em) !in v.sent
       case Remove(em) => em.Tracked() && InTable(v, em)
       case WriteStatus(_) => true
       case Lookup(_) => true
       case Done => true
       case _ =>
         match pc.h
         case DeviceRequest(em) =>
           em.tag < v.nextTag && !InTable(v, em) && pc.h !in v.sent && Invalidate(em) !in v.sent
         case Invalidate(em) => em.Tracked() && InTable(v, em) && pc.h !in v.sent
         case _ => true
  }

  ghost predicate CallsInv(v: View) {
    forall c | c in v.calls :: CallInv(v, c, v.calls[c].pc)
  }

  ghost predicate OwnersInv(v: View) {
    forall c, c', em | c in v.calls && c' in v.calls && Owns(v.calls[c].pc, em) && Owns(v.calls[c'].pc, em) :: c == c'
  }

  /** The holder of the table mutex has issued the invalidation of `em` and not yet dropped the entry. */
  ghost predicate Removing(v: View, em: Emission) {
    v.tableLock.Some? && v.tableLock.value in v.calls && v.calls[v.tableLock.value].pc == Remove(em)
  }

  ghost predicate EntryInv(v: View, d: DeviceId, em: Emission) {
    && em.Tracked() && em.Device() == d && em.tag < v.nextTag && DeviceRequest(em) in v.sent
    && (Invalidate(em) in v.sent ==> Removing(v, em))
  }

  ghost predicate TableInv(v: View) {
    forall d | d in v.table :: EntryInv(v, d, v.table[d])
  }

  ghost predicate SentInv(v: View) {
    forall h | h in v.sent && AboutRequest(h) :: h.em.tag < v.nextTag && DeviceRequest(h.em) in v.sent
  }

  ghost predicate ViewInv(v: View) {
    CallsInv(v) && OwnersInv(v) && TableInv(v) && SentInv(v) && (v.tableLock.Some? ==> v.tableLock.value in v.calls)
  }

  ghost predicate RequestInv(s: State) {
    QueueInv(s) && AtMostOnce(Issued(s)) && ViewInv(ViewOf(s))
  }

  ghost function WithPc(v: View, c: CallId, owner: bool, pc: Pc): View {
    v.(calls := v.calls[c := Call(owner, pc)])
  }

  /** Any step that changes one call and keeps what the call owns. */
  lemma ViewMove(v: View, c: CallId, owner: bool, pc: Pc)
    requires ViewInv(v) && CallInv(v, c, pc)
    requires c in v.calls ==> !v.calls[c].pc.Remove?
    requires forall em | Owns(pc, em) :: c in v.calls && Owns(v.calls[c].pc, em)
    ensures ViewInv(WithPc(v, c, owner, pc))
  {
    var v' := WithPc(v, c, owner, pc);
    forall c' | c' in v'.calls
      ensures CallInv(v', c', v'.calls[c'].pc)
    {
      if c' != c { assert CallInv(v, c', v.calls[c'].pc); }
    }
    forall d | d in v'.table
      ensures EntryInv(v', d, v'.table[d])
    {
      assert EntryInv(v, d, v.table[d]);
    }
  }

  /** emit_device_request() begins with an emission nobody has seen. */
  lemma ViewRequest(v: View, c: CallId, owner: bool, em: Emission)
    requires ViewInv(v) && c !in v.calls && em.tag == v.nextTag
    ensures ViewInv(WithPc(v.(nextTag := v.nextTag + 1), c, owner, Emit(DeviceRequest(em))))
  {
    var v' := WithPc(v.(nextTag := v.nextTag + 1), c, owner, Emit(DeviceRequest(em)));
    assert v.tableLock != Some(c);
    assert em.Device() in v.table ==> EntryInv(v, em.Device(), v.table[em.Device()]);
    forall c' | c' in v'.calls
      ensures CallInv(v', c', v'.calls[c'].pc)
    {
      if c' != c { assert CallInv(v, c', v.calls[c'].pc); }
    }
    forall d | d in v'.table
      ensures EntryInv(v', d, v'.table[d])
    {
      assert EntryInv(v, d, v.table[d]);
    }
  }

  /** A call emits or queues the helper it carries. */
  lemma ViewIssue(v: View, c: CallId, h: Helper)
    requires ViewInv(v) && c in v.calls && Carries(v.calls[c].pc, h)
    ensures AboutRequest(h) ==> h !in v.sent
    ensures h.Invalidate? ==> DeviceRequest(h.em) in v.sent
    ensures ViewInv(WithPc(v.(sent := v.sent + {h}), c, v.calls[c].owner, After(h)))
  {
    var v' := WithPc(v.(sent := v.sent + {h}), c, v.calls[c].owner, After(h));
    assert CallInv(v, c, v.calls[c].pc);
    forall c' | c' in v'.calls
      ensures CallInv(v', c', v'.calls[c'].pc)
    {
      assert CallInv(v, c', v.calls[c'].pc);
      if c' != c && h.DeviceRequest? { assert Owns(v.calls[c].pc, h.em); }
    }
    forall d | d in v'.table
      ensures EntryInv(v', d, v'.table[d])
    {
      assert EntryInv(v, d, v.table[d]);
    }
    forall c1, c2, em | c1 in v'.calls && c2 in v'.calls && Owns(v'.calls[c1].pc, em) && Owns(v'.calls[c2].pc, em)
      ensures c1 == c2
    {
      assert Owns(v.calls[c1].pc, em) && Owns(v.calls[c2].pc, em);
    }
  }

  lemma ViewInsert(v: View, c: CallId, em: Emission)
    requires ViewInv(v) && c in v.calls && v.calls[c].pc == Insert(em) && v.tableLock.None?
    ensures ViewInv(WithPc(v.(table := v.table[em.Device() := em]), c, v.calls[c].owner, Done))
  {
    var v' := WithPc(v.(table := v.table[em.Device() := em]), c, v.calls[c].owner, Done);
    assert CallInv(v, c, v.calls[c].pc);
    forall c' | c' in v'.calls
      ensures CallInv(v', c', v'.calls[c'].pc)
    {
      assert CallInv(v, c', v.calls[c'].pc);
      assert Owns(v.calls[c].pc, em);
    }
    forall d | d in v'.table
      ensures EntryInv(v', d, v'.table[d])
    {
      if d in v.table { assert EntryInv(v, d, v.table[d]); }
    }
  }

  lemma ViewLookup(v: View, c: CallId, d: DeviceId)
    requires ViewInv(v) && c in v.calls && v.calls[c].pc == Lookup(d) && v.tableLock.None? && d in v.table
    ensures ViewInv(WithPc(v.(tableLock := Some(c)), c, v.calls[c].owner, Emit(Invalidate(v.table[d]))))
  {
    var v' := WithPc(v.(tableLock := Some(c)), c, v.calls[c].owner, Emit(Invalidate(v.table[d])));
    assert EntryInv(v, d, v.table[d]);
    forall c' | c' in v'.calls
      ensures CallInv(v', c', v'.calls[c'].pc)
    {
      assert CallInv(v, c', v.calls[c'].pc);
    }
    forall d' | d' in v'.table
      ensures EntryInv(v', d', v'.table[d'])
    {
      assert EntryInv(v, d', v.table[d']);
    }
  }

  lemma ViewRemove(v: View, c: CallId, em: Emission)
    requires ViewInv(v) && c in v.calls && v.calls[c].pc == Remove(em)
    ensures ViewInv(WithPc(v.(table := v.table - {em.Device()}, tableLock := None), c, v.calls[c].owner, Done))
  {
    var v' := WithPc(v.(table := v.table - {em.Device()}, tableLock := None), c, v.calls[c].owner, Done);
    assert CallInv(v, c, v.calls[c].pc);
    forall c' | c' in v'.calls
      ensures CallInv(v', c', v'.calls[c'].pc)
    {
      assert CallInv(v, c', v.calls[c'].pc);
    }
    forall d | d in v'.table
      ensures EntryInv(v', d, v'.table[d])
    {
      assert EntryInv(v, d, v.table[d]);
    }
  }

  // ---------------------------------------------------------------- issuing helpers

  /** Where a newly issued helper lands: after what was delivered, or at the end of the queue. */
  lemma Inserting(a: seq<Helper>, h: Helper, b: seq<Helper>)
    requires AtMostOnce(a + b)
    requires AboutRequest(h) ==> h !in a + b
    ensures AtMostOnce(a + [h] + b)
    ensures (set x | x in a + [h] + b) == (set x | x in a + b) + {h}
  {
    var was, now := a + b, a + [h] + b;
    forall i, j | 0 <= i < j < |now| && AboutRequest(now[i])
      ensures now[i] != now[j]
    {
      var i', j' := if i < |a| then i else i - 1, if j < |a| then j else j - 1;
      if i == |a| {
        assert now[j] == was[j'];
      } else if j == |a| {
        assert now[i] == was[i'];
      } else {
        assert now[i] == was[i'] && now[j] == was[j'];
      }
    }
  }

  lemma IssueDirect(s: State, h: Helper)
    requires AtMostOnce(Issued(s))
    requires AboutRequest(h) ==> h !in Issued(s)
    ensures Issued(Deliver(s, h, false)) == Helpers(s.delivered) + [h] + Waiting(s)
    ensures AtMostOnce(Issued(Deliver(s, h, false)))
    ensures ViewOf(Deliver(s, h, false)).sent == ViewOf(s).sent + {h}
  {
    assert Helpers(Deliver(s, h, false).delivered) == Helpers(s.delivered) + [h];
    Inserting(Helpers(s.delivered), h, Waiting(s));
  }

  lemma IssueQueued(s: State, h: Helper)
    requires AtMostOnce(Issued(s)) && s.dispatching.None?
    requires AboutRequest(h) ==> h !in Issued(s)
    ensures Issued(Enqueue(s, h)) == Issued(s) + [h]
    ensures AtMostOnce(Issued(Enqueue(s, h)))
    ensures ViewOf(Enqueue(s, h)).sent == ViewOf(s).sent + {h}
  {
    assert Helpers(s.delivered) + (s.queue + [h]) == Issued(s) + [h] == Issued(s) + [h] + [];
    assert Issued(s) == Issued(s) + [];
    Inserting(Issued(s), h, []);
  }

  /** Dispatching moves helpers from the queue to the user and issues nothing new. */
  lemma IssueNothing(s: State, step: Step)
    requires QueueInv(s) && Enabled(s, step) && (step.Fire? || step.DispatchNext? || step.DispatchEnd?)
    ensures Issued(Apply(s, step)) == Issued(s)
  {
    if step.DispatchNext? { MoveOne(s); }
  }

  lemma MoveOne(s: State)
    requires Enabled(s, DispatchNext)
    ensures Issued(Apply(s, DispatchNext)) == Issued(s)
  {
    var s', ds, h := Apply(s, DispatchNext), Helpers(s.delivered), s.queue[s.dispatching.value];
    WaitingDispatch(s);
    Regroup(ds, h, Waiting(s'));
    assert Helpers(s'.delivered) == ds + [h];
  }

  lemma RequestStart(s: State, c: CallId, owner: bool, pc: Pc, s': State)
    requires RequestInv(s) && c !in s.calls && s' == Begin(s, c, owner, pc)
    requires pc.WriteStatus? || (pc.Emit? && !AboutRequest(pc.h))
    ensures RequestInv(s')
  {
    assert Issued(s') == Issued(s);
    ViewMove(ViewOf(s), c, owner, pc);
  }

  /** Where a call begins that announces no request. */
  ghost function FirstPc(step: Step): Pc {
    match step
    case SetStatus(_, _, value) => WriteStatus(value)
    case NotifyProperty(_, _, name) => Emit(Property(name))
    case EmitSignal(_, _, signal) => Emit(Signal(signal))
    case EmitDeviceChanged(_, _, device, waiting) => Emit(DeviceChanged(device, waiting))
    case _ => Done
  }

  lemma StartsAt(s: State, step: Step)
    requires Enabled(s, step) && (step.NotifyProperty? || step.EmitSignal? || step.EmitDeviceChanged? || step.SetStatus?)
    ensures if step.SetStatus? && step.value == s.status then Apply(s, step) == s
            else Apply(s, step) == Begin(s, step.c, step.owner, FirstPc(step))
  {
  }

  lemma RequestStarts(s: State, step: Step)
    requires RequestInv(s) && Enabled(s, step)
    requires !(step.Advance? || step.Fire? || step.DispatchNext? || step.DispatchEnd?)
    ensures RequestInv(Apply(s, step))
  {
    if step.EmitDeviceRequest? {
      RequestBorn(s, step.c, step.owner, Emission(s.nextTag, step.immediate, step.target), Apply(s, step));
    } else {
      StartsAt(s, step);
      if Apply(s, step) != s { RequestStart(s, step.c, step.owner, FirstPc(step), Apply(s, step)); }
    }
  }

  lemma RequestStep(s: State, step: Step)
    requires RequestInv(s) && Enabled(s, step)
    ensures RequestInv(Apply(s, step))
  {
    if step.Advance? {
      QueueAdvance(s, step.c);
      RequestAdvance(s, step.c);
    } else if step.Fire? || step.DispatchNext? || step.DispatchEnd? {
      RequestDispatch(s, step);
    } else {
      RequestStarts(s, step);
    }
  }

  lemma RequestBorn(s: State, c: CallId, owner: bool, em: Emission, s': State)
    requires RequestInv(s) && c !in s.calls && em.tag == s.nextTag
    requires s' == Begin(s.(nextTag := s.nextTag + 1), c, owner, Emit(DeviceRequest(em)))
    ensures RequestInv(s')
  {
    assert Issued(s') == Issued(s);
    ViewRequest(ViewOf(s), c, owner, em);
  }

  lemma RequestDispatch(s: State, step: Step)
    requires RequestInv(s) && Enabled(s, step) && (step.Fire? || step.DispatchNext? || step.DispatchEnd?)
    ensures RequestInv(Apply(s, step))
  {
    QueueStep(s, step);
    IssueNothing(s, step);
  }

  /** What the three kinds of advance do to what is issued. */
  lemma EmitIssued(s: State, c: CallId)
    requires Enabled(s, Advance(c)) && s.calls[c].owner && s.calls[c].pc.Emit?
    ensures Issued(Advanced(s, c)) == Issued(Deliver(s, s.calls[c].pc.h, false))
  {
  }

  lemma PostIssued(s: State, c: CallId)
    requires Enabled(s, Advance(c)) && s.calls[c].pc.Post?
    ensures Issued(Advanced(s, c)) == Issued(Enqueue(s, s.calls[c].pc.h))
  {
  }

  lemma QuietIssued(s: State, c: CallId)
    requires Enabled(s, Advance(c)) && !s.calls[c].pc.Post? && (s.calls[c].pc.Emit? ==> !s.calls[c].owner)
    ensures Issued(Advanced(s, c)) == Issued(s)
  {
  }

  /** The owner emits directly. */
  lemma RequestEmits(s: State, c: CallId)
    requires RequestInv(s) && Enabled(s, Advance(c)) && QueueInv(Advanced(s, c)) && s.calls[c].owner && s.calls[c].pc.Emit?
    ensures RequestInv(Advanced(s, c))
  {
    var h := s.calls[c].pc.h;
    ViewIssue(ViewOf(s), c, h);
    IssueDirect(s, h);
    EmitIssued(s, c);
  }

  /** A worker queues. */
  lemma RequestPosts(s: State, c: CallId)
    requires RequestInv(s) && Enabled(s, Advance(c)) && QueueInv(Advanced(s, c)) && s.calls[c].pc.Post?
    ensures RequestInv(Advanced(s, c))
  {
    var h := s.calls[c].pc.h;
    ViewIssue(ViewOf(s), c, h);
    IssueQueued(s, h);
    PostIssued(s, c);
  }

  /** Nothing is issued. */
  lemma ViewAdvance(s: State, c: CallId)
    requires ViewInv(ViewOf(s)) && Enabled(s, Advance(c)) && Issued(Advanced(s, c)) == Issued(s)
    requires !s.calls[c].pc.Post? && (s.calls[c].pc.Emit? ==> !s.calls[c].owner)
    ensures ViewInv(ViewOf(Advanced(s, c)))
  {
    var v := ViewOf(s);
    var owner, pc := s.calls[c].owner, s.calls[c].pc;
    assert CallInv(v, c, pc);
    match pc
    case Emit(h) => ViewMove(v, c, owner, Post(h));
    case WriteStatus(_) => ViewMove(v, c, owner, Emit(StatusHelper));
    case Insert(em) => ViewInsert(v, c, em);
    case Lookup(d) =>
      if d in s.table { ViewLookup(v, c, d); } else { ViewMove(v, c, owner, Done); }
    case Remove(em) => ViewRemove(v, c, em);
  }

  lemma RequestAdvance(s: State, c: CallId)
    requires RequestInv(s) && Enabled(s, Advance(c)) && QueueInv(Advanced(s, c))
    ensures RequestInv(Advanced(s, c))
  {
    if s.calls[c].pc.Post? {
      RequestPosts(s, c);
    } else if s.calls[c].pc.Emit? && s.calls[c].owner {
      RequestEmits(s, c);
    } else {
      RequestQuiet(s, c);
    }
  }

  lemma RequestQuiet(s: State, c: CallId)
    requires RequestInv(s) && Enabled(s, Advance(c)) && QueueInv(Advanced(s, c))
    requires !s.calls[c].pc.Post? && (s.calls[c].pc.Emit? ==> !s.calls[c].owner)
    ensures RequestInv(Advanced(s, c))
  {
    QuietIssued(s, c);
    ViewAdvance(s, c);
  }

  // ---------------------------------------------------------------- signal before invalidation

  /** An owner thread takes the shortcut and invalidates a request without queueing. */
  ghost predicate InvalidatesDirectly(s: State, step: Step) {
    && step.Advance? && step.c in s.calls
    && s.calls[step.c].owner && s.calls[step.c].pc.Emit? && s.calls[step.c].pc.h.Invalidate?
  }

  lemma SignalFirstInsert(a: seq<Helper>, h: Helper, b: seq<Helper>)
    requires SignalFirst(a + b)
    requires h.Invalidate? ==> DeviceRequest(h.em) in a
    ensures SignalFirst(a + [h] + b)
  {
    var was, now := a + b, a + [h] + b;
    forall j | 0 <= j < |now| && now[j].Invalidate?
      ensures DeviceRequest(now[j].em) in now[..j]
    {
      if j < |a| {
        assert now[j] == was[j] && now[..j] == was[..j];
      } else if j == |a| {
        assert now[..j] == a;
      } else {
        assert now[j] == was[j - 1];
        var i :| 0 <= i < j - 1 && was[i] == DeviceRequest(now[j].em);
        assert now[if i < |a| then i else i + 1] == was[i];
      }
    }
  }

  lemma SignalFirstAppend(hs: seq<Helper>, h: Helper)
    requires SignalFirst(hs) && (h.Invalidate? ==> DeviceRequest(h.em) in hs)
    ensures SignalFirst(hs + [h])
  {
    assert hs + [h] == hs + [h] + [] && hs == hs + [];
    SignalFirstInsert(hs, h, []);
  }

  lemma SignalFirstStep(s: State, step: Step)
    requires RequestInv(s) && SignalFirst(Issued(s)) && Enabled(s, step) && !InvalidatesDirectly(s, step)
    ensures SignalFirst(Issued(Apply(s, step)))
  {
    match step
    case Advance(c) => SignalFirstAdvance(s, c);
    case Fire => IssueNothing(s, step);
    case DispatchNext => IssueNothing(s, step);
    case DispatchEnd => IssueNothing(s, step);
    case _ => assert Issued(Apply(s, step)) == Issued(s);
  }

  lemma SignalFirstAdvance(s: State, c: CallId)
    requires RequestInv(s) && SignalFirst(Issued(s)) && Enabled(s, Advance(c)) && !InvalidatesDirectly(s, Advance(c))
    ensures SignalFirst(Issued(Advanced(s, c)))
  {
    var pc := s.calls[c].pc;
    if pc.Emit? && s.calls[c].owner {
      SignalFirstDirect(s, c, pc.h);
      EmitIssued(s, c);
    } else if pc.Post? {
      SignalFirstQueued(s, c, pc.h);
      PostIssued(s, c);
    } else {
      QuietIssued(s, c);
    }
  }

  lemma IssuedFacts(s: State, c: CallId, h: Helper)
    requires RequestInv(s) && c in s.calls && Carries(s.calls[c].pc, h)
    ensures AboutRequest(h) ==> h !in Issued(s)
    ensures h.Invalidate? ==> DeviceRequest(h.em) in Issued(s)
  {
    ViewIssue(ViewOf(s), c, h);
  }

  lemma SignalFirstDirect(s: State, c: CallId, h: Helper)
    requires RequestInv(s) && SignalFirst(Issued(s)) && c in s.calls && Carries(s.calls[c].pc, h)
    requires h.Invalidate? ==> DeviceRequest(h.em) in Helpers(s.delivered)
    ensures SignalFirst(Issued(Deliver(s, h, false)))
  {
    IssuedFacts(s, c, h);
    IssueDirect(s, h);
    SignalFirstInsert(Helpers(s.delivered), h, Waiting(s));
  }

  lemma SignalFirstQueued(s: State, c: CallId, h: Helper)
    requires RequestInv(s) && SignalFirst(Issued(s)) && c in s.calls && Carries(s.calls[c].pc, h)
    requires s.dispatching.None?
    ensures SignalFirst(Issued(Enqueue(s, h)))
  {
    IssuedFacts(s, c, h);
    IssueQueued(s, h);
    SignalFirstAppend(Issued(s), h);
  }

  lemma OnlyOneSide(a: seq<Helper>, b: seq<Helper>, h: Helper)
    requires AtMostOnce(a + b) && AboutRequest(h) && h in b
    ensures h !in a
  {
    var j :| 0 <= j < |b| && b[j] == h;
    assert (a + b)[|a| + j] == h;
    assert forall i :: 0 <= i < |a| ==> (a + b)[i] == a[i];
  }

  /** The shortcut keeps the order of what was delivered exactly when the request it invalidates is
      not still waiting in the queue. */
  lemma ShortcutOrder(s: State, c: CallId)
    requires RequestInv(s) && SignalFirst(Helpers(s.delivered)) && Enabled(s, Advance(c))
    requires InvalidatesDirectly(s, Advance(c))
    ensures SignalFirst(Helpers(Advanced(s, c).delivered)) <==> DeviceRequest(s.calls[c].pc.h.em) !in Waiting(s)
  {
    var h, ds := s.calls[c].pc.h, Helpers(s.delivered);
    var ds' := Helpers(Advanced(s, c).delivered);
    IssuedFacts(s, c, h);
    assert ds' == ds + [h];
    if DeviceRequest(h.em) in Waiting(s) {
      OnlyOneSide(ds, Waiting(s), DeviceRequest(h.em));
      assert ds'[|ds|] == h && ds'[..|ds|] == ds;
    } else {
      SignalFirstAppend(ds, h);
    }
  }
}
