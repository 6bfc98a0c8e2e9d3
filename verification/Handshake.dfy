/** The deferred feature-flags handshake of FwupdClient: proxy, then SetHints, then SetFeatureFlags,
    racing with set_feature_flags() calls.  Client calls and callbacks are atomic steps and the
    channel to the daemon keeps its order. */
module Handshake {
  import opened Wrappers

  type Flags = nat

  datatype Message = SetHints | SetFeatureFlags(flags: Flags)

  /** How far the SetHints call got. */
  datatype Hints = NotSent | Sent | Answered | Finished

  datatype State = State(
    // the client: priv->proxy, priv->feature_flags and unfinished connect calls
    proxy: bool,
    stored: Flags,
    connecting: nat,
    hints: Hints,
    // messages on their way, and what the daemon last accepted
    channel: seq<Message>,
    daemon: Option<Flags>,
    // history: the SetHints callback succeeded; a set_feature_flags() call found the proxy
    deferredSent: bool,
    updateSent: bool,
    log: seq<Message>)

  datatype Step =
    | Connect
    | ProxyReady(ok: bool)
    | SetFlags(flags: Flags)
    | DaemonTakes
    | HintsReply(ok: bool)

  const Initial: State := State(false, 0, 0, NotSent, [], None, false, false, [])

  function Send(s: State, m: Message): State {
    s.(channel := s.channel + [m], log := s.log + [m])
  }

  predicate Enabled(s: State, step: Step) {
    match step
    case ProxyReady(_) => s.connecting > 0
    case DaemonTakes => s.channel != []
    // a call may fail without the daemon having seen it, but only the daemon makes it succeed
    case HintsReply(ok) => s.hints.Answered? || (s.hints.Sent? && !ok)
    case _ => true
  }

  function Apply(s: State, step: Step): State
    requires Enabled(s, step)
  {
    match step
    case Connect => if s.proxy then s else s.(connecting := s.connecting + 1)
    case ProxyReady(ok) =>
      var s1 := s.(connecting := s.connecting - 1);
      // another connect call may have done this already
      if !ok || s.proxy then s1 else Send(s1.(proxy := true, hints := Sent), SetHints)
    case SetFlags(f) =>
      var s1 := s.(stored := f);
      if s.proxy then Send(s1.(updateSent := true), SetFeatureFlags(f)) else s1
    case DaemonTakes =>
      var s1 := s.(channel := s.channel[1..]);
      (match s.channel[0]
       case SetHints => if s.hints.Sent? then s1.(hints := Answered) else s1
       case SetFeatureFlags(f) => s1.(daemon := Some(f)))
    case HintsReply(ok) =>
      var s1 := s.(hints := Finished);
      if ok then Send(s1.(deferredSent := true), SetFeatureFlags(s.stored)) else s1
  }

  function Run(steps: seq<Step>): Option<State> {
    if steps == [] then Some(Initial)
    else
      var before := Run(steps[..|steps| - 1]);
      var step := steps[|steps| - 1];
      if before.Some? && Enabled(before.value, step) then Some(Apply(before.value, step)) else None
  }

  /** The flags the daemon will hold once it has taken every message. */
  ghost function Eventually(daemon: Option<Flags>, channel: seq<Message>): Option<Flags> {
    if channel == [] then daemon
    else
      match channel[|channel| - 1]
      case SetHints => Eventually(daemon, channel[..|channel| - 1])
      case SetFeatureFlags(f) => Some(f)
  }

  /** How often SetHints is among the messages. */
  ghost function HintsCount(ms: seq<Message>): nat {
    if ms == [] then 0 else HintsCount(ms[..|ms| - 1]) + if ms[|ms| - 1].SetHints? then 1 else 0
  }

  ghost predicate Inv(s: State) {
    && Eventually(s.daemon, s.channel) == (if s.deferredSent || s.updateSent then Some(s.stored) else None)
    && (!s.proxy ==> s.hints.NotSent? && !s.deferredSent && !s.updateSent)
    && (s.hints.NotSent? <==> !s.proxy)
    && (s.deferredSent ==> s.hints.Finished?)
    && (HintsCount(s.log) == if s.proxy then 1 else 0)
    && (!s.proxy ==> s.log == [])
  }

  lemma EventuallySend(s: State, m: Message)
    ensures Eventually(s.daemon, s.channel + [m])
         == if m.SetFeatureFlags? then Some(m.flags) else Eventually(s.daemon, s.channel)
    ensures HintsCount(s.log + [m]) == HintsCount(s.log) + if m.SetHints? then 1 else 0
  {
    assert (s.channel + [m])[..|s.channel|] == s.channel;
    assert (s.log + [m])[..|s.log|] == s.log;
  }

  /** Taking the oldest message changes nothing about the eventual outcome. */
  lemma {:induction false} EventuallyTake(daemon: Option<Flags>, channel: seq<Message>)
    requires channel != []
    ensures Eventually(daemon, channel)
         == Eventually(if channel[0].SetFeatureFlags? then Some(channel[0].flags) else daemon, channel[1..])
    decreases |channel|
  {
    var n := |channel| - 1;
    if n > 0 {
      assert channel[1..][..n - 1] == channel[..n][1..];
      EventuallyTake(daemon, channel[..n]);
    }
  }

  lemma StepInv(s: State, step: Step)
    requires Inv(s) && Enabled(s, step)
    ensures Inv(Apply(s, step))
  {
    match step
    case ProxyReady(_) => EventuallySend(s, SetHints);
    case SetFlags(f) => EventuallySend(s, SetFeatureFlags(f));
    case HintsReply(_) => EventuallySend(s, SetFeatureFlags(s.stored));
    case DaemonTakes => EventuallyTake(s.daemon, s.channel);
    case Connect =>
  }

  lemma {:induction false} RunInv(steps: seq<Step>, s: State)
    requires Run(steps) == Some(s)
    ensures Inv(s)
    decreases |steps|
  {
    if steps != [] {
      var before := Run(steps[..|steps| - 1]).value;
      RunInv(steps[..|steps| - 1], before);
      StepInv(before, steps[|steps| - 1]);
    }
  }

  // ---------------------------------------------------------------- what the callers did

  /** The flags of the last set_feature_flags() call, or those the client begins with. */
  ghost function LastSet(steps: seq<Step>): Flags {
    if steps == [] then 0
    else if steps[|steps| - 1].SetFlags? then steps[|steps| - 1].flags
    else LastSet(steps[..|steps| - 1])
  }

  /** Some set_feature_flags() call came after the proxy. */
  ghost predicate SetWithProxy(steps: seq<Step>) {
    exists i, j :: 0 <= i < j < |steps| && steps[i] == ProxyReady(true) && steps[j].SetFlags?
  }

  ghost predicate Replied(steps: seq<Step>) {
    HintsReply(true) in steps || HintsReply(false) in steps
  }

  /** The fields of the client, told by the steps alone. */
  ghost predicate Told(steps: seq<Step>, s: State) {
    && s.stored == LastSet(steps)
    && (s.proxy <==> ProxyReady(true) in steps)
    && (s.deferredSent <==> HintsReply(true) in steps)
    && (s.updateSent <==> SetWithProxy(steps))
    && (s.hints.Finished? <==> Replied(steps))
  }

  lemma SetWithProxyAppend(steps: seq<Step>, step: Step)
    ensures SetWithProxy(steps + [step]) <==> SetWithProxy(steps) || (step.SetFlags? && ProxyReady(true) in steps)
  {
    var more := steps + [step];
    assert forall i :: 0 <= i < |steps| ==> more[i] == steps[i];
    if step.SetFlags? && ProxyReady(true) in steps {
      var i :| 0 <= i < |steps| && steps[i] == ProxyReady(true);
      assert more[i] == ProxyReady(true) && more[|steps|].SetFlags?;
    }
    if SetWithProxy(steps) {
      var i, j :| 0 <= i < j < |steps| && steps[i] == ProxyReady(true) && steps[j].SetFlags?;
      assert more[i] == ProxyReady(true) && more[j].SetFlags?;
    }
  }

  lemma ToldStep(steps: seq<Step>, s: State, step: Step)
    requires Inv(s) && Told(steps, s) && Enabled(s, step)
    ensures Told(steps + [step], Apply(s, step))
  {
    assert (steps + [step])[..|steps|] == steps;
    SetWithProxyAppend(steps, step);
  }

  lemma {:induction false} ToldRun(steps: seq<Step>, s: State)
    requires Run(steps) == Some(s)
    ensures Told(steps, s)
    decreases |steps|
  {
    if steps != [] {
      var n := |steps| - 1;
      var before := Run(steps[..n]).value;
      RunInv(steps[..n], before);
      ToldRun(steps[..n], before);
      ToldStep(steps[..n], before, steps[n]);
      assert steps == steps[..n] + [steps[n]];
    }
  }

  /** However set_feature_flags() calls are timed, once SetHints was answered and the channel has drained
      the daemon holds the flags that were set last. */
  lemma FlagsReachDaemon(steps: seq<Step>, s: State)
    requires Run(steps) == Some(s) && HintsReply(true) in steps && s.channel == []
    ensures s.daemon == Some(LastSet(steps))
  {
    RunInv(steps, s);
    ToldRun(steps, s);
  }

  /** With SetHints allowed to fail: a drained daemon holds the flags that were set last if SetHints was
      answered or some set_feature_flags() call came after the proxy, and otherwise holds none. */
  lemma DrainedDaemon(steps: seq<Step>, s: State)
    requires Run(steps) == Some(s) && s.channel == []
    ensures s.daemon == if HintsReply(true) in steps || SetWithProxy(steps) then Some(LastSet(steps)) else None
  {
    RunInv(steps, s);
    ToldRun(steps, s);
  }

  /** However many connect calls race, SetHints is sent once when the first of them gets its proxy, and
      before that nothing is sent at all. */
  lemma HintsSentOnce(steps: seq<Step>, s: State)
    requires Run(steps) == Some(s)
    ensures HintsCount(s.log) == if ProxyReady(true) in steps then 1 else 0
    ensures ProxyReady(true) !in steps ==> s.log == []
  {
    RunInv(steps, s);
    ToldRun(steps, s);
  }

  // ---------------------------------------------------------------- what can still happen

  /** Whether SetHints is on its way, by how far the call got. */
  ghost predicate OnTheWay(s: State) {
    match s.hints
    case NotSent => HintsCount(s.channel) == 0
    case Sent => HintsCount(s.channel) == 1
    case Answered => HintsCount(s.channel) == 0
    case Finished => HintsCount(s.channel) <= 1
  }

  lemma HintsSend(ms: seq<Message>, m: Message)
    ensures HintsCount(ms + [m]) == HintsCount(ms) + if m.SetHints? then 1 else 0
  {
    assert (ms + [m])[..|ms|] == ms;
  }

  lemma {:induction false} HintsTake(ms: seq<Message>)
    requires ms != []
    ensures HintsCount(ms) == HintsCount(ms[1..]) + if ms[0].SetHints? then 1 else 0
    decreases |ms|
  {
    var n := |ms| - 1;
    if n > 0 {
      assert ms[1..][..n - 1] == ms[..n][1..];
      HintsTake(ms[..n]);
    }
  }

  lemma {:induction false} HintsMember(ms: seq<Message>)
    ensures HintsCount(ms) > 0 <==> SetHints in ms
    decreases |ms|
  {
    if ms != [] {
      HintsMember(ms[..|ms| - 1]);
      assert ms == ms[..|ms| - 1] + [ms[|ms| - 1]];
    }
  }

  lemma OnTheWayStep(s: State, step: Step)
    requires Inv(s) && OnTheWay(s) && Enabled(s, step)
    ensures OnTheWay(Apply(s, step))
  {
    match step
    case ProxyReady(_) => HintsSend(s.channel, SetHints);
    case SetFlags(f) => HintsSend(s.channel, SetFeatureFlags(f));
    case HintsReply(_) => HintsSend(s.channel, SetFeatureFlags(s.stored));
    case DaemonTakes => HintsTake(s.channel);
    case Connect =>
  }

  /** Connect calls that found no proxy, and replies to them. */
  ghost function Connects(steps: seq<Step>): nat {
    if steps == [] then 0
    else
      var before := steps[..|steps| - 1];
      Connects(before) + if steps[|steps| - 1].Connect? && ProxyReady(true) !in before then 1 else 0
  }

  ghost function Replies(steps: seq<Step>): nat {
    if steps == [] then 0 else Replies(steps[..|steps| - 1]) + if steps[|steps| - 1].ProxyReady? then 1 else 0
  }

  lemma {:induction false} OnTheWayRun(steps: seq<Step>, s: State)
    requires Run(steps) == Some(s)
    ensures OnTheWay(s) && Connects(steps) == Replies(steps) + s.connecting
    decreases |steps|
  {
    if steps != [] {
      var n := |steps| - 1;
      var before := Run(steps[..n]).value;
      RunInv(steps[..n], before);
      ToldRun(steps[..n], before);
      OnTheWayRun(steps[..n], before);
      OnTheWayStep(before, steps[n]);
    }
  }

  /** SetHints can be answered exactly when it was sent, the daemon has taken it, and there was no reply. */
  lemma AnswerableIff(steps: seq<Step>, s: State)
    requires Run(steps) == Some(s)
    ensures Enabled(s, HintsReply(true)) <==> ProxyReady(true) in steps && SetHints !in s.channel && !Replied(steps)
  {
    RunInv(steps, s);
    ToldRun(steps, s);
    OnTheWayRun(steps, s);
    HintsMember(s.channel);
  }

  /** A connect call can be answered exactly when there are more connect calls without a proxy than
      replies. */
  lemma ConnectableIff(steps: seq<Step>, s: State, ok: bool)
    requires Run(steps) == Some(s)
    ensures Enabled(s, ProxyReady(ok)) <==> Connects(steps) > Replies(steps)
  {
    OnTheWayRun(steps, s);
  }

  /** A failed SetHints loses flags that were stored before the proxy was there. */
  lemma FailedHintsLoseFlags()
    ensures exists steps, s ::
        Run(steps) == Some(s) && s.channel == [] && s.hints.Finished? && s.stored == 1 && s.daemon == None
  {
    var steps, s := Then([], Initial, SetFlags(1));
    steps, s := Then(steps, s, Connect);
    steps, s := Then(steps, s, ProxyReady(true));
    assert s.channel == [SetHints] && s.hints.Sent?;
    steps, s := Then(steps, s, DaemonTakes);
    assert s.channel == [] && s.hints.Answered?;
    steps, s := Then(steps, s, HintsReply(false));
  }

  lemma Then(steps: seq<Step>, s: State, step: Step) returns (steps': seq<Step>, s': State)
    requires Run(steps) == Some(s) && Enabled(s, step)
    ensures Run(steps') == Some(s') && s' == Apply(s, step)
  {
    steps', s' := steps + [step], Apply(s, step);
    assert steps'[..|steps|] == steps;
  }
}
