/**
 * The coalescing reconcile runner and its one-slot completion channel, as atomic steps at mutex and channel
 * boundaries. Any number of requesters, the runner loops, and the scheduler interleave freely.
 */
module Reconcile {
  import opened Options

  /** A set of reconcile kinds: the bits with values 1, 2 and 4 of the mode byte. */
  datatype Mode = Mode(local: bool, rss: bool, full: bool)
  {
    function Or(m: Mode): Mode {
      Mode(local || m.local, rss || m.rss, full || m.full)
    }

    function Without(m: Mode): Mode {
      Mode(local && !m.local, rss && !m.rss, full && !m.full)
    }

    predicate Covers(m: Mode) {
      (m.local ==> local) && (m.rss ==> rss) && (m.full ==> full)
    }
  }

  const NONE := Mode(false, false, false)
  const LOCAL := Mode(true, false, false)
  const RSS := Mode(false, true, false)
  const FULL := Mode(false, false, true)

  /** The kinds a caller asks for. */
  predicate Requestable(m: Mode) {
    m == LOCAL || m == RSS || m == FULL
  }

  /** The values running and pending ever take: none, local, rss, local+rss, full. */
  predicate Plausible(m: Mode) {
    m == NONE || m == LOCAL || m == RSS || m == LOCAL.Or(RSS) || m == FULL
  }

  /** A cycle of mode c does the work asked for by m: full work includes all other work. */
  predicate Includes(c: Mode, m: Mode) {
    c == FULL || c.Covers(m)
  }

  /** Remote work already being done by the running cycle is not asked for again. */
  predicate Subsumed(running: Mode, m: Mode) {
    m != LOCAL && ((running == FULL) || (m == RSS && running.rss))
  }

  // ---- the shared state and its critical sections ---------------------------------------------------

  datatype Shared = Shared(running: Mode, pending: Mode, completed: Option<Mode>)

  /** What a request adds to the pending work while a cycle runs. */
  function Coalesce(sh: Shared, m: Mode): Mode {
    var wanted := if sh.running == FULL && m != LOCAL then NONE else m;
    var asked := if m == RSS && sh.running.rss then NONE else wanted;
    if sh.pending == FULL then FULL else if asked == FULL then FULL else sh.pending.Or(asked)
  }

  /** A request either coalesces or starts a runner loop. */
  function Requested(sh: Shared, m: Mode): Shared {
    if sh.running != NONE then sh.(pending := Coalesce(sh, m)) else sh.(running := m)
  }

  /** The end of a cycle: the pending work becomes the next cycle, or the loop ends. */
  function Closed(sh: Shared, cancelled: bool): Shared {
    if sh.pending != NONE && !cancelled then sh.(running := sh.pending, pending := NONE)
    else sh.(running := NONE, pending := NONE)
  }

  class Service {
    var reconcileRunning: Mode
    var reconcilePending: Mode
    var reconcileCompleted: Option<Mode>

    constructor ()
      ensures State() == Shared(NONE, NONE, None)
    {
      reconcileRunning, reconcilePending, reconcileCompleted := NONE, NONE, None;
    }

    function State(): Shared
      reads this
    {
      Shared(reconcileRunning, reconcilePending, reconcileCompleted)
    }

    /** Returns whether the caller has to start a runner loop with this mode. */
    method RequestReconcile(mode: Mode) returns (started: bool)
      modifies this
      ensures State() == Requested(old(State()), mode)
      ensures started <==> old(reconcileRunning) == NONE
    {
      if reconcileRunning != NONE {
        var pending := mode;
        if reconcileRunning == FULL && mode != LOCAL {
          pending := NONE;
        }
        if mode == RSS && reconcileRunning.rss {
          pending := NONE;
        }
        if reconcilePending != FULL {
          if pending == FULL {
            reconcilePending := FULL;
          } else {
            reconcilePending := reconcilePending.Or(pending);
          }
        }
        return false;
      }
      reconcileRunning := mode;
      return true;
    }

    /** Returns the mode of the next cycle, or NONE when the loop returns. */
    method CloseCycle(cancelled: bool) returns (mode: Mode)
      modifies this
      ensures State() == Closed(old(State()), cancelled) && mode == reconcileRunning
    {
      if reconcilePending != NONE && !cancelled {
        mode := reconcilePending;
        reconcilePending := NONE;
        reconcileRunning := mode;
        return;
      }
      reconcileRunning := NONE;
      reconcilePending := NONE;
      return NONE;
    }

    /** The first, non-blocking send. */
    method TrySend(mode: Mode) returns (sent: bool)
      modifies this
      ensures sent <==> old(reconcileCompleted) == None
      ensures State() == if sent then old(State()).(completed := Some(mode)) else old(State())
    {
      if reconcileCompleted == None {
        reconcileCompleted := Some(mode);
        return true;
      }
      return false;
    }

    /** Takes back an unread completion, if the scheduler has not taken it meanwhile. */
    method Drain(mode: Mode) returns (merged: Mode)
      modifies this
      ensures State() == old(State()).(completed := None)
      ensures merged == match old(reconcileCompleted) case None => mode case Some(previous) => mode.Or(previous)
    {
      merged := mode;
      if reconcileCompleted.Some? {
        merged := mode.Or(reconcileCompleted.value);
        reconcileCompleted := None;
      }
    }

    /** The final send. It may only be reached with the slot free: the runner would block otherwise. */
    method Send(mode: Mode)
      requires reconcileCompleted == None
      modifies this
      ensures State() == old(State()).(completed := Some(mode))
    {
      reconcileCompleted := Some(mode);
    }
  }

  // ---- all interleavings ------------------------------------------------------------------------------

  /** Where a runner loop is: inside a cycle, in one of the notifier's steps, or about to close the cycle. */
  datatype Loop =
    | Working(mode: Mode)
    | Draining(mode: Mode)
    | Sending(mode: Mode, message: Mode)
    | Closing(mode: Mode)

  /** What happened, in order. `Asked` records what was running when the request came. */
  datatype Event =
    | Asked(mode: Mode, running: Mode)
    | Started(mode: Mode)
    | Completed(mode: Mode)
    | Received(mode: Mode)

  datatype World = World(shared: Shared, loops: seq<Loop>, cancelled: bool, log: seq<Event>)

  const START := World(Shared(NONE, NONE, None), [], false, [])

  /** One atomic step: a request, one step of some live loop, a receive by the scheduler, or cancellation. */
  datatype Step = Request(mode: Mode) | Runner(loop: nat) | Receive | Cancel

  function Set(w: World, i: nat, l: Loop): World
    requires i < |w.loops|
  {
    w.(loops := w.loops[i := l])
  }

  predicate Blocked(w: World, i: nat)
    requires i < |w.loops|
  {
    w.loops[i].Sending? && w.shared.completed.Some?
  }

  function RunnerStep(w: World, i: nat): World
    requires i < |w.loops|
  {
    match w.loops[i]
    case Working(m) =>
      var done := w.(log := w.log + [Completed(m)]);
      if w.shared.completed == None then Set(done.(shared := w.shared.(completed := Some(m))), i, Closing(m))
      else Set(done, i, Draining(m))
    case Draining(m) =>
      var message := match w.shared.completed case None => m case Some(previous) => m.Or(previous);
      Set(w.(shared := w.shared.(completed := None)), i, Sending(m, message))
    case Sending(m, message) =>
      if Blocked(w, i) then w else Set(w.(shared := w.shared.(completed := Some(message))), i, Closing(m))
    case Closing(_) =>
      var sh := Closed(w.shared, w.cancelled);
      if w.shared.pending != NONE && !w.cancelled
      then Set(w.(shared := sh, log := w.log + [Started(sh.running)]), i, Working(sh.running))
      else w.(shared := sh, loops := w.loops[..i] + w.loops[i + 1..])
  }

  /** A step that is not possible leaves the world as it is. */
  function Do(w: World, step: Step): World {
    match step
    case Request(m) =>
      if !Requestable(m) then w
      else
        var asked := w.(shared := Requested(w.shared, m), log := w.log + [Asked(m, w.shared.running)]);
        if w.shared.running == NONE then asked.(loops := w.loops + [Working(m)], log := asked.log + [Started(m)])
          else asked
    case Runner(i) => if i < |w.loops| then RunnerStep(w, i) else w
    case Receive =>
      (match w.shared.completed
       case None => w
       case Some(m) => w.(shared := w.shared.(completed := None), log := w.log + [Received(m)]))
    case Cancel => w.(cancelled := true)
  }

  function After(steps: seq<Step>): World {
    if steps == [] then START else Do(After(steps[..|steps| - 1]), steps[|steps| - 1])
  }

  // ---- what every reachable world keeps -----------------------------------------------------------------

  function InChannel(sh: Shared): Mode {
    match sh.completed case None => NONE case Some(m) => m
  }

  function InNotifier(loops: seq<Loop>): Mode {
    if loops == [] then NONE
    else match loops[0] case Draining(m) => m case Sending(_, message) => message case _ => NONE
  }

  /** The completions still held by the channel or by the notifier. */
  function Held(w: World): Mode {
    InChannel(w.shared).Or(InNotifier(w.loops))
  }

  function Delivering(undelivered: Mode, e: Event): Mode {
    if e.Completed? then undelivered.Or(e.mode)
    else if e.Received? then undelivered.Without(e.mode)
    else undelivered
  }

  /** The kinds completed since the scheduler last received them. */
  function Undelivered(log: seq<Event>): Mode {
    if log == [] then NONE else Delivering(Undelivered(log[..|log| - 1]), log[|log| - 1])
  }

  /** The union of all kinds handed to the notifier. */
  function SentKinds(log: seq<Event>): Mode {
    if log == [] then NONE
    else
      var e := log[|log| - 1];
      SentKinds(log[..|log| - 1]).Or(if e.Completed? then e.mode else NONE)
  }

  /** The union of all kinds the scheduler received. */
  function ReceivedKinds(log: seq<Event>): Mode {
    if log == [] then NONE
    else
      var e := log[|log| - 1];
      ReceivedKinds(log[..|log| - 1]).Or(if e.Received? then e.mode else NONE)
  }

  /** No completion kind is lost, and none is made up. */
  ghost predicate Balanced(w: World) {
    SentKinds(w.log) == ReceivedKinds(w.log).Or(Held(w))
  }

  /** A cycle that includes the request starts after it. */
  ghost predicate StartedLater(log: seq<Event>, t: nat) {
    t < |log| && log[t].Asked? && exists s :: t < s < |log| && log[s].Started? && Includes(log[s].mode, log[t].mode)
  }

  /** The request was already subsumed, has been followed by a cycle, or is still waiting with a live runner. */
  ghost predicate Kept(w: World, t: nat) {
    t < |w.log| && w.log[t].Asked? ==>
      Subsumed(w.log[t].running, w.log[t].mode) || StartedLater(w.log, t)
      || (w.shared.running != NONE && Includes(w.shared.pending, w.log[t].mode))
  }

  ghost predicate Invariant(w: World) {
    && Plausible(w.shared.running) && Plausible(w.shared.pending)
    && (w.shared.running == NONE ==> w.loops == [] && w.shared.pending == NONE)
    && (w.shared.running != NONE ==> |w.loops| == 1 && w.loops[0].mode == w.shared.running)
    && (forall i :: 0 <= i < |w.loops| && w.loops[i].Sending? ==> w.shared.completed == None)
    && Held(w).Covers(Undelivered(w.log))
  }

  lemma UndeliveredSnoc(log: seq<Event>, e: Event)
    ensures Undelivered(log + [e]) == Delivering(Undelivered(log), e)
  {
  }

  lemma KindsSnoc(log: seq<Event>, e: Event)
    ensures SentKinds(log + [e]) == SentKinds(log).Or(if e.Completed? then e.mode else NONE)
    ensures ReceivedKinds(log + [e]) == ReceivedKinds(log).Or(if e.Received? then e.mode else NONE)
  {
    assert (log + [e])[..|log|] == log;
  }

  lemma RequestKeepsInvariant(w: World, m: Mode)
    requires Invariant(w) && Requestable(m)
    ensures Invariant(Do(w, Request(m)))
  {
    UndeliveredSnoc(w.log, Asked(m, w.shared.running));
    UndeliveredSnoc(w.log + [Asked(m, w.shared.running)], Started(m));
    if w.shared.running == NONE {
      assert w.loops == [];
    } else {
      CoalescePlausible(w.shared, m);
    }
  }

  lemma CoalescePlausible(sh: Shared, m: Mode)
    requires Plausible(sh.running) && Plausible(sh.pending) && Requestable(m)
    ensures Plausible(Coalesce(sh, m))
    ensures Subsumed(sh.running, m) || Includes(Coalesce(sh, m), m)
    ensures forall n :: Requestable(n) && Includes(sh.pending, n) ==> Includes(Coalesce(sh, m), n)
  {
  }

  lemma CycleDoneKeepsInvariant(w: World)
    requires Invariant(w) && w.loops != [] && w.loops[0].Working?
    ensures Invariant(RunnerStep(w, 0))
  {
    UndeliveredSnoc(w.log, Completed(w.loops[0].mode));
  }

  lemma NotifyKeepsInvariant(w: World)
    requires Invariant(w) && w.loops != [] && (w.loops[0].Draining? || w.loops[0].Sending?)
    ensures Invariant(RunnerStep(w, 0))
  {
  }

  lemma CloseKeepsInvariant(w: World)
    requires Invariant(w) && w.loops != [] && w.loops[0].Closing?
    ensures Invariant(RunnerStep(w, 0))
  {
    UndeliveredSnoc(w.log, Started(w.shared.pending));
  }

  lemma ReceiveKeepsInvariant(w: World)
    requires Invariant(w)
    ensures Invariant(Do(w, Receive))
  {
    if w.shared.completed.Some? {
      UndeliveredSnoc(w.log, Received(w.shared.completed.value));
    }
  }

  lemma StepKeepsInvariant(w: World, step: Step)
    requires Invariant(w)
    ensures Invariant(Do(w, step))
  {
    hide RunnerStep; hide Requested; hide Closed; hide Undelivered; hide Plausible;
    match step {
      case Request(m) =>
        if Requestable(m) {
          RequestKeepsInvariant(w, m);
        }
      case Runner(i) =>
        if i < |w.loops| {
          match w.loops[0] {
            case Working(_) => CycleDoneKeepsInvariant(w);
            case Draining(_) => NotifyKeepsInvariant(w);
            case Sending(_, _) => NotifyKeepsInvariant(w);
            case Closing(_) => CloseKeepsInvariant(w);
          }
        }
      case Receive => ReceiveKeepsInvariant(w);
      case Cancel =>
    }
  }

  lemma RunnerStepBalanced(w: World)
    requires Invariant(w) && Balanced(w) && w.loops != []
    ensures Balanced(RunnerStep(w, 0))
  {
    hide Undelivered;
    hide SentKinds;
    hide ReceivedKinds;
    hide Plausible;
    KindsSnoc(w.log, Completed(w.loops[0].mode));
    KindsSnoc(w.log, Started(w.shared.pending));
  }

  /** The runner's own steps hand kinds from the cycle to the notifier and on to the channel, none lost or made up. */
  lemma RunnerKeepsBalance(w: World, i: nat)
    requires Invariant(w) && Balanced(w)
    ensures Balanced(Do(w, Runner(i)))
  {
    hide Undelivered;
    hide Balanced;
    hide Plausible;
    hide RunnerStep;
    if i < |w.loops| {
      RunnerStepBalanced(w);
    }
  }

  lemma RequestKeepsBalance(w: World, m: Mode)
    requires Balanced(w) && (w.shared.running == NONE ==> w.loops == [])
    ensures Balanced(Do(w, Request(m)))
  {
    hide Undelivered;
    hide SentKinds;
    hide ReceivedKinds;
    hide Plausible;
    hide Coalesce;
    KindsSnoc(w.log, Asked(m, w.shared.running));
    KindsSnoc(w.log + [Asked(m, w.shared.running)], Started(m));
  }

  lemma CancelKeepsBalance(w: World)
    requires Balanced(w)
    ensures Balanced(Do(w, Cancel))
  {
  }

  /** The scheduler takes exactly what the channel held. */
  lemma ReceiveKeepsBalance(w: World)
    requires Balanced(w)
    ensures Balanced(Do(w, Receive))
  {
    if w.shared.completed.Some? {
      KindsSnoc(w.log, Received(w.shared.completed.value));
    }
  }

  /**
   * In every interleaving at most one runner loop is live, running and pending are plausible, the notifier never
   * blocks on its final send, and no completed kind is lost: what has not been received is still held. The kinds
   * sent are exactly those received and those still held, and between cycles only the channel holds any.
   */
  lemma {:induction false} AlwaysSafe(steps: seq<Step>)
    ensures var w := After(steps);
            && Invariant(w) && |w.loops| <= 1
            && (forall i :: 0 <= i < |w.loops| ==> !Blocked(w, i))
            && Held(w).Covers(Undelivered(w.log))
            && SentKinds(w.log) == ReceivedKinds(w.log).Or(Held(w))
            && ((forall i :: 0 <= i < |w.loops| ==> !w.loops[i].Draining? && !w.loops[i].Sending?) ==>
                 Held(w) == InChannel(w.shared))
  {
    if steps != [] {
      AlwaysSafe(steps[..|steps| - 1]);
      hide Do;
      hide Undelivered;
      hide SentKinds;
      hide ReceivedKinds;
      hide Plausible;
      var w, step := After(steps[..|steps| - 1]), steps[|steps| - 1];
      StepKeepsInvariant(w, step);
      match step {
        case Request(m) => RequestKeepsBalance(w, m);
        case Runner(i) => RunnerKeepsBalance(w, i);
        case Receive => ReceiveKeepsBalance(w);
        case Cancel => CancelKeepsBalance(w);
      }
    }
  }

  // ---- no request is lost -------------------------------------------------------------------------------

  lemma LaterStill(a: seq<Event>, b: seq<Event>, t: nat)
    requires a <= b && t < |a|
    ensures b[t] == a[t]
    ensures StartedLater(a, t) ==> StartedLater(b, t)
  {
  }

  ghost predicate AskedProperly(log: seq<Event>) {
    forall t :: 0 <= t < |log| && log[t].Asked? ==> Requestable(log[t].mode)
  }

  lemma RequestKeepsRequests(w: World, m: Mode, t: nat)
    requires Invariant(w) && Requestable(m) && AskedProperly(w.log) && (t < |w.log| ==> Kept(w, t))
    ensures Kept(Do(w, Request(m)), t)
  {
    var v := Do(w, Request(m));
    assert v.log[|w.log|] == Asked(m, w.shared.running);
    CoalescePlausible(w.shared, m);
    if t < |w.log| {
      assert w.log <= v.log;
      LaterStill(w.log, v.log, t);
    } else if t == |w.log| && w.shared.running == NONE {
      assert v.log[t + 1] == Started(m);
    }
  }

  lemma RunnerKeepsRequests(w: World, t: nat)
    requires Invariant(w) && !w.cancelled && w.loops != [] && AskedProperly(w.log) && (t < |w.log| ==> Kept(w, t))
    ensures Kept(RunnerStep(w, 0), t)
  {
    var v := RunnerStep(w, 0);
    assert w.log <= v.log;
    if t < |w.log| {
      LaterStill(w.log, v.log, t);
      if w.loops[0].Closing? && w.shared.pending != NONE {
        assert v.log[|w.log|] == Started(w.shared.pending);
      }
    }
  }

  lemma StepKeepsRequests(w: World, step: Step, t: nat)
    requires Invariant(w) && !w.cancelled && step != Cancel && AskedProperly(w.log) && (t < |w.log| ==> Kept(w, t))
    ensures Kept(Do(w, step), t) && AskedProperly(Do(w, step).log)
  {
    match step {
      case Request(m) =>
        if Requestable(m) {
          RequestKeepsRequests(w, m, t);
        }
      case Runner(i) =>
        if i < |w.loops| {
          RunnerKeepsRequests(w, t);
        }
      case Receive =>
        if w.shared.completed.Some? && t < |w.log| {
          LaterStill(w.log, Do(w, step).log, t);
        }
      case Cancel =>
    }
  }

  /**
   * No lost intent: without cancellation, every request so far either was remote work the running cycle already
   * covered, or has been followed by a cycle that includes it, or still waits in pending with a live runner.
   * A local request is never subsumed.
   */
  lemma {:induction false} NoRequestLost(steps: seq<Step>, t: nat)
    requires Cancel !in steps
    ensures var w := After(steps);
            !w.cancelled && AskedProperly(w.log) && Kept(w, t)
  {
    if steps != [] {
      var before := steps[..|steps| - 1];
      NoRequestLost(before, t);
      AlwaysSafe(before);
      StepKeepsRequests(After(before), steps[|steps| - 1], t);
    }
  }

  // ---- no work is made up -------------------------------------------------------------------------------

  /** The request at `t` asks for this kind, and no cycle started after it and before `s`. */
  ghost predicate AskedAt(log: seq<Event>, t: nat, s: nat, kind: Mode) {
    t < s <= |log| && log[t].Asked? && log[t].mode == kind && forall u :: t < u < s ==> !log[u].Started?
  }

  /** The kind was asked for since the last cycle before `s` started. */
  ghost predicate AskedSince(log: seq<Event>, s: nat, kind: Mode) {
    exists t: nat :: AskedAt(log, t, s, kind)
  }

  /** Every kind of the mode was asked for since the last cycle before `s` started. */
  ghost predicate Wanted(log: seq<Event>, s: nat, m: Mode) {
    (m.local ==> AskedSince(log, s, LOCAL)) && (m.rss ==> AskedSince(log, s, RSS)) &&
      (m.full ==> AskedSince(log, s, FULL))
  }

  /**
   * While a cycle runs, full work is pending exactly if it was asked for since the cycle started and is not being done;
   * if none is, local work exactly if asked for, and rss work exactly if asked for and not being done.
   */
  ghost predicate PendingExact(w: World) {
    var running, pending, n := w.shared.running, w.shared.pending, |w.log|;
    running != NONE ==>
      && (pending.full <==> running != FULL && AskedSince(w.log, n, FULL))
      && (pending.local <==> !pending.full && AskedSince(w.log, n, LOCAL))
      && (pending.rss <==> !pending.full && running != FULL && !running.rss && AskedSince(w.log, n, RSS))
  }

  ghost predicate CyclesWanted(log: seq<Event>) {
    forall s :: 0 <= s < |log| && log[s].Started? ==> Wanted(log, s, log[s].mode)
  }

  lemma AskedSinceSnoc(log: seq<Event>, e: Event, kind: Mode)
    ensures AskedSince(log + [e], |log| + 1, kind) <==>
      !e.Started? && ((e.Asked? && e.mode == kind) || AskedSince(log, |log|, kind))
  {
    var next := log + [e];
    if !e.Started? && AskedSince(log, |log|, kind) {
      var t: nat :| AskedAt(log, t, |log|, kind);
      assert AskedAt(next, t, |log| + 1, kind);
    }
    if !e.Started? && e.Asked? && e.mode == kind {
      assert AskedAt(next, |log|, |log| + 1, kind);
    }
    if AskedSince(next, |log| + 1, kind) {
      var t: nat :| AskedAt(next, t, |log| + 1, kind);
      if t < |log| {
        assert !next[|log|].Started?;
        forall u | t < u < |log| ensures !log[u].Started? {
          assert next[u] == log[u];
        }
        assert AskedAt(log, t, |log|, kind);
      }
    }
  }

  lemma AskedEarlier(log: seq<Event>, e: Event, s: nat, kind: Mode)
    requires s <= |log|
    ensures AskedSince(log + [e], s, kind) <==> AskedSince(log, s, kind)
  {
    forall t: nat ensures AskedAt(log + [e], t, s, kind) <==> AskedAt(log, t, s, kind) {
      assert forall u :: t < u < s ==> (log + [e])[u].Started? == log[u].Started?;
    }
  }

  lemma CyclesWantedSnoc(log: seq<Event>, e: Event)
    requires CyclesWanted(log) && (e.Started? ==> Wanted(log, |log|, e.mode))
    ensures CyclesWanted(log + [e])
  {
    var next := log + [e];
    forall s | 0 <= s < |next| && next[s].Started? ensures Wanted(next, s, next[s].mode) {
      AskedEarlier(log, e, s, LOCAL);
      AskedEarlier(log, e, s, RSS);
      AskedEarlier(log, e, s, FULL);
      if s < |log| {
        assert Wanted(log, s, log[s].mode);
      }
    }
  }

  lemma AskedSinceSnocs(log: seq<Event>, e: Event)
    ensures var next := log + [e];
            && (AskedSince(next, |next|, LOCAL) <==>
                 !e.Started? && ((e.Asked? && e.mode == LOCAL) || AskedSince(log, |log|, LOCAL)))
            && (AskedSince(next, |next|, RSS) <==>
                 !e.Started? && ((e.Asked? && e.mode == RSS) || AskedSince(log, |log|, RSS)))
            && (AskedSince(next, |next|, FULL) <==>
                 !e.Started? && ((e.Asked? && e.mode == FULL) || AskedSince(log, |log|, FULL)))
  {
    AskedSinceSnoc(log, e, LOCAL);
    AskedSinceSnoc(log, e, RSS);
    AskedSinceSnoc(log, e, FULL);
  }

  lemma RequestKeepsExact(w: World, m: Mode)
    requires Invariant(w) && PendingExact(w) && CyclesWanted(w.log) && Requestable(m)
    ensures PendingExact(Do(w, Request(m))) && CyclesWanted(Do(w, Request(m)).log)
  {
    hide AskedSince;
    hide Held;
    hide Undelivered;
    var asked := w.log + [Asked(m, w.shared.running)];
    AskedSinceSnocs(w.log, Asked(m, w.shared.running));
    AskedSinceSnocs(asked, Started(m));
    CyclesWantedSnoc(w.log, Asked(m, w.shared.running));
    CyclesWantedSnoc(asked, Started(m));
  }

  lemma RunnerKeepsExact(w: World)
    requires Invariant(w) && PendingExact(w) && CyclesWanted(w.log) && w.loops != []
    ensures PendingExact(RunnerStep(w, 0)) && CyclesWanted(RunnerStep(w, 0).log)
  {
    hide AskedSince;
    hide Held;
    hide Undelivered;
    AskedSinceSnocs(w.log, Completed(w.loops[0].mode));
    AskedSinceSnocs(w.log, Started(w.shared.pending));
    CyclesWantedSnoc(w.log, Completed(w.loops[0].mode));
    if w.loops[0].Closing? && w.shared.pending != NONE {
      CyclesWantedSnoc(w.log, Started(w.shared.pending));
    }
  }

  lemma ReceiveKeepsExact(w: World)
    requires PendingExact(w) && CyclesWanted(w.log)
    ensures PendingExact(Do(w, Receive)) && CyclesWanted(Do(w, Receive).log)
  {
    hide AskedSince;
    if w.shared.completed.Some? {
      AskedSinceSnocs(w.log, Received(w.shared.completed.value));
      CyclesWantedSnoc(w.log, Received(w.shared.completed.value));
    }
  }

  /**
   * In every interleaving the pending work is exactly what was asked for since the running cycle started and is not
   * being done, full work standing for all. So no cycle does work that nobody asked for: each kind of its mode was
   * requested after the cycle before it had started.
   */
  lemma {:induction false} NoWorkMadeUp(steps: seq<Step>)
    ensures PendingExact(After(steps)) && CyclesWanted(After(steps).log)
    ensures Wanted(After(steps).log, |After(steps).log|, After(steps).shared.pending)
  {
    if steps != [] {
      NoWorkMadeUp(steps[..|steps| - 1]);
      AlwaysSafe(steps[..|steps| - 1]);
      hide Invariant;
      hide PendingExact;
      hide CyclesWanted;
      hide RunnerStep;
      var w, step := After(steps[..|steps| - 1]), steps[|steps| - 1];
      ExactStep(w, step);
    }
    AlwaysSafe(steps);
    PendingWanted(After(steps));
  }

  lemma PendingWanted(w: World)
    requires Invariant(w) && PendingExact(w)
    ensures Wanted(w.log, |w.log|, w.shared.pending)
  {
  }

  lemma ExactStep(w: World, step: Step)
    requires Invariant(w) && PendingExact(w) && CyclesWanted(w.log)
    ensures PendingExact(Do(w, step)) && CyclesWanted(Do(w, step).log)
  {
    match step {
      case Request(m) =>
        if Requestable(m) {
          RequestKeepsExact(w, m);
        }
      case Runner(i) =>
        if i < |w.loops| {
          RunnerKeepsExact(w);
        }
      case Receive => ReceiveKeepsExact(w);
      case Cancel =>
    }
  }

  // ---- cancellation -------------------------------------------------------------------------------------

  /** The cycle at `s` is the first of a loop that its request, just before it, started. */
  ghost predicate OwnRequest(log: seq<Event>, s: nat) {
    0 < s < |log| && log[s].Started? && log[s - 1] == Asked(log[s].mode, NONE)
  }

  lemma OwnRequestLater(log: seq<Event>, next: seq<Event>, s: nat)
    requires log <= next && OwnRequest(log, s)
    ensures OwnRequest(next, s)
  {
    assert next[s] == log[s] && next[s - 1] == log[s - 1];
  }

  /**
   * After cancellation no cycle follows another: whatever starts then is the first cycle of a loop that a new request
   * started.
   */
  lemma {:induction false} NoCycleFollowsCancel(before: seq<Step>, later: seq<Step>, s: nat)
    requires |After(before).log| <= s < |After(before + [Cancel] + later).log|
    requires After(before + [Cancel] + later).log[s].Started?
    ensures OwnRequest(After(before + [Cancel] + later).log, s)
    decreases later
  {
    var all := before + [Cancel] + later;
    StaysCancelled(before, later);
    if later == [] {
      CancelLogsNothing(before);
    } else {
      var n := |later| - 1;
      var was, now := After(before + [Cancel] + later[..n]), After(all);
      assert all[..|all| - 1] == before + [Cancel] + later[..n];
      StaysCancelled(before, later[..n]);
      AlwaysSafe(before + [Cancel] + later[..n]);
      assert now == Do(was, later[n]);
      StepExtendsLog(was, later[n]);
      if s < |was.log| {
        NoCycleFollowsCancel(before, later[..n], s);
        OwnRequestLater(was.log, now.log, s);
      }
    }
  }

  lemma CancelLogsNothing(before: seq<Step>)
    ensures After(before + [Cancel] + []).log == After(before).log
  {
    var all := before + [Cancel] + [];
    assert all[..|all| - 1] == before;
  }

  lemma StepExtendsLog(w: World, step: Step)
    requires Invariant(w)
    ensures w.log <= Do(w, step).log && (w.cancelled ==> Do(w, step).cancelled)
    ensures w.cancelled ==> forall s :: |w.log| <= s < |Do(w, step).log| && Do(w, step).log[s].Started? ==>
      OwnRequest(Do(w, step).log, s)
  {
    hide Undelivered;
    hide Plausible;
    hide Coalesce;
  }

  lemma {:induction false} StaysCancelled(before: seq<Step>, later: seq<Step>)
    ensures After(before + [Cancel] + later).cancelled
    ensures |After(before).log| <= |After(before + [Cancel] + later).log|
    decreases later
  {
    var all := before + [Cancel] + later;
    if later == [] {
      assert all[..|all| - 1] == before;
    } else {
      var n := |later| - 1;
      assert all[..|all| - 1] == before + [Cancel] + later[..n];
      StaysCancelled(before, later[..n]);
      AlwaysSafe(before + [Cancel] + later[..n]);
      StepExtendsLog(After(before + [Cancel] + later[..n]), later[n]);
    }
  }

  /** How many runner steps can follow before the loop has ended, if nothing new is asked. */
  function Rank(w: World): nat {
    if w.loops == [] then 0
    else
      (if w.shared.pending != NONE then 5 else 0)
      + match w.loops[0] case Working(_) => 4 case Draining(_) => 3 case Sending(_, _) => 2 case Closing(_) => 1
  }

  lemma RankDrops(w: World)
    requires Invariant(w) && w.loops != []
    ensures Rank(RunnerStep(w, 0)) < Rank(w) <= 9
  {
  }

  function Idling(n: nat): seq<Step> {
    seq(n, _ => Runner(0))
  }

  /**
   * Left alone, the runner ends after at most nine steps, and then every request so far was covered by the cycle
   * running when it came or has been followed by a cycle that includes it.
   */
  lemma {:induction false} EveryRequestServed(steps: seq<Step>) returns (n: nat)
    requires Cancel !in steps
    ensures n <= 9 && n <= Rank(After(steps))
    ensures var w := After(steps + Idling(n));
            && w.loops == [] && w.shared.running == NONE
            && forall t: nat :: t < |w.log| && w.log[t].Asked? ==>
                 Subsumed(w.log[t].running, w.log[t].mode) || StartedLater(w.log, t)
    decreases Rank(After(steps))
  {
    hide RunnerStep; hide Rank; hide Kept;
    AlwaysSafe(steps);
    var w := After(steps);
    if w.loops == [] {
      n := 0;
      assert steps + Idling(0) == steps;
      forall t: nat | t < |w.log| && w.log[t].Asked?
        ensures Subsumed(w.log[t].running, w.log[t].mode) || StartedLater(w.log, t)
      {
        NoRequestLost(steps, t);
      }
    } else {
      var next := steps + [Runner(0)];
      assert next[..|next| - 1] == steps;
      RankDrops(w);
      n := EveryRequestServed(next);
      assert next + Idling(n) == steps + Idling(n + 1);
      n := n + 1;
    }
  }
}
