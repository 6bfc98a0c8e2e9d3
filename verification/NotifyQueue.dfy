/** The two functions that hold idle_mutex, as they update the fields of the client: each is a run of
    steps of the transition system. */
module NotifyQueue {
  import opened Wrappers
  import opened Notify

  /** The steps of an idle callback that has taken the lock, to its end. */
  ghost function Drained(s: State): (r: State)
    requires s.dispatching.Some? && s.dispatching.value <= |s.queue|
    ensures r.dispatching.None? && r.queue == [] && r.idleId == 0
    decreases |s.queue| - s.dispatching.value
  {
    if Enabled(s, DispatchNext) then Drained(Apply(s, DispatchNext)) else Apply(s, DispatchEnd)
  }

  class Client {
    var status: nat
    var idleId: nat
    var idleSources: seq<Helper>
    // sources attached to the main context whose callback has not run
    var attached: nat
    // what the main context emitted
    var emitted: seq<Delivery>
    ghost var model: State

    /** Outside the lock the fields are those of a state of the system; only the numbers of the
        sources are its own. */
    ghost predicate Valid()
      reads this
    {
      && model.dispatching.None?
      && status == model.status && idleSources == model.queue && attached == model.pending
      && emitted == model.delivered && (idleId == 0 <==> model.idleId == 0)
    }

    constructor ()
      ensures Valid() && model == Initial
    {
      status, idleId, idleSources, attached, emitted, model := InitialStatus, 0, [], 0, [], Initial;
    }

    /** fwupd_client_context_helper(); the number of a source is never zero. */
    method ContextHelper(helper: Helper, source: nat)
      requires Valid() && source > 0
      modifies this
      ensures Valid() && model == Enqueue(old(model), helper)
    {
      if idleId == 0 {
        attached := attached + 1;
        idleId := source;
      }
      idleSources := idleSources + [helper];
      model := Enqueue(model, helper);
    }

    /** fwupd_client_context_idle_cb(), called by the main context for an attached source. */
    method IdleCb()
      requires Valid() && attached > 0
      modifies this
      ensures Valid() && model == Drained(Apply(old(model), Fire))
    {
      attached := attached - 1;
      ghost var s := Apply(model, Fire);
      for i := 0 to |idleSources|
        invariant s.dispatching == Some(i) && s.queue == idleSources == old(idleSources)
        invariant s.status == status == old(status) && s.pending == attached == old(attached) - 1
        invariant s.delivered == emitted && Drained(s) == Drained(Apply(old(model), Fire))
      {
        emitted := emitted + [Delivery(idleSources[i], true, status)];
        s := Apply(s, DispatchNext);
      }
      idleSources := [];
      idleId := 0;
      model := Apply(s, DispatchEnd);
    }
  }

  /** A whole callback keeps the queue invariant, emits everything that was waiting, in order, and
      leaves no source pending. */
  lemma DrainedEmitsAll(s: State)
    requires QueueInv(s) && s.pending > 0 && s.dispatching.None?
    ensures var r := Drained(Apply(s, Fire));
            QueueInv(r) && FromQueue(r.delivered) == FromQueue(s.delivered) + s.queue && r.pending == 0
  {
    QueueStep(s, Fire);
    DrainedFrom(Apply(s, Fire));
    assert s.queue[0..] == s.queue;
  }

  lemma {:induction false} DrainedFrom(s: State)
    requires QueueInv(s) && s.dispatching.Some?
    ensures QueueInv(Drained(s)) && FromQueue(Drained(s).delivered) == FromQueue(s.delivered) + Waiting(s)
    decreases |s.queue| - s.dispatching.value
  {
    if Enabled(s, DispatchNext) {
      QueueDispatch(s);
      DeliverQueued(s, s.queue[s.dispatching.value], true);
      DrainedFrom(Apply(s, DispatchNext));
    } else {
      QueueStep(s, DispatchEnd);
    }
  }
}
