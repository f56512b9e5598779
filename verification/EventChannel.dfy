/** The event channel of one run (internal/core/channel.go:19-142): any number of
    concurrent Send calls under a read lock, close under the write lock, one drain
    goroutine and a bounded queue, as atomic steps that may interleave in any order.
    An event is named by the number of the Send call that carries it. */
module EventChannel {
  import opened Common

  const EVENT_BUFFER := 256

  /** Progress is the one kind that may be dropped. */
  datatype Kind = Progress | Lasting

  /** What became of a call: it saw the channel closed, queued its event, or dropped it. */
  datatype Fate = Refused | Queued | Dropped
  datatype Phase = Entered | Locked | Passed | Leaving(fate: Fate) | Gone(fate: Fate)
  datatype Call = Call(kind: Kind, phase: Phase)

  datatype Drain = Receiving | InSink(event: nat) | Finished
  datatype Closer = NotCalled | WaitsForLock | HoldsLock | FlagSet | Unlocked | ChannelClosed | Drained | Reported

  datatype State = State(
    calls: seq<Call>,
    queue: seq<nat>,
    accepted: seq<nat>,
    handed: seq<nat>,
    drain: Drain,
    closer: Closer,
    closeCalls: nat,
    closeReturns: nat,
    closed: bool,
    channelClosed: bool,
    drops: nat,
    sinkPanic: Option<int>,
    panics: seq<int>,
    reports: seq<nat>,
    crashed: bool)

  const START := State([], [], [], [], Receiving, NotCalled, 0, 0, false, false, 0, None, [], [], false)

  datatype Action =
    | Arrive(kind: Kind)
    | TakeReadLock(call: nat)
    | CheckClosed(call: nat)
    | Put(call: nat)
    | DropReadLock(call: nat)
    | Receive
    | SinkReturns(panic: Option<int>)
    | Finish
    | CallClose
    | TakeLock
    | SetClosed
    | DropLock
    | CloseChannel
    | AwaitDrain
    | Report
    | ReturnClose

  // ---------- one step ----------

  predicate HoldsReadLock(p: Phase) {
    p.Locked? || p.Passed? || p.Leaving?
  }

  /** A waiting writer keeps new readers out, as sync.RWMutex does. */
  predicate WriterComes(c: Closer) {
    c.WaitsForLock? || c.HoldsLock? || c.FlagSet?
  }

  predicate Enabled(s: State, a: Action) {
    match a
    case Arrive(_) => true
    case TakeReadLock(i) => i < |s.calls| && s.calls[i].phase.Entered? && !WriterComes(s.closer)
    case CheckClosed(i) => i < |s.calls| && s.calls[i].phase.Locked?
    case Put(i) =>
      i < |s.calls| && s.calls[i].phase.Passed? &&
      (s.channelClosed || |s.queue| < EVENT_BUFFER || s.calls[i].kind.Progress?)
    case DropReadLock(i) => i < |s.calls| && s.calls[i].phase.Leaving?
    case Receive => s.drain.Receiving? && s.queue != []
    case SinkReturns(_) => s.drain.InSink?
    case Finish => s.drain.Receiving? && s.queue == [] && s.channelClosed
    case CallClose => true
    case TakeLock => s.closer.WaitsForLock? && forall i :: 0 <= i < |s.calls| ==> !HoldsReadLock(s.calls[i].phase)
    case SetClosed => s.closer.HoldsLock?
    case DropLock => s.closer.FlagSet?
    case CloseChannel => s.closer.Unlocked?
    case AwaitDrain => s.closer.ChannelClosed? && s.drain.Finished?
    case Report => s.closer.Drained?
    case ReturnClose => s.closer.Reported? && s.closeReturns < s.closeCalls
  }

  function Moved(calls: seq<Call>, i: nat, phase: Phase): seq<Call>
    requires i < |calls|
  {
    calls[i := calls[i].(phase := phase)]
  }

  /** The state after one enabled step. A send on the closed channel crashes the program. */
  function Step(s: State, a: Action): State
    requires Enabled(s, a)
  {
    match a
    case Arrive(k) => s.(calls := s.calls + [Call(k, Entered)])
    case TakeReadLock(i) => s.(calls := Moved(s.calls, i, Locked))
    case CheckClosed(i) => s.(calls := Moved(s.calls, i, if s.closed then Leaving(Refused) else Passed))
    case Put(i) =>
      if s.channelClosed then s.(crashed := true, calls := Moved(s.calls, i, Leaving(Refused)))
      else if |s.queue| < EVENT_BUFFER then
        s.(queue := s.queue + [i], accepted := s.accepted + [i], calls := Moved(s.calls, i, Leaving(Queued)))
      else s.(drops := s.drops + 1, calls := Moved(s.calls, i, Leaving(Dropped)))
    case DropReadLock(i) => s.(calls := Moved(s.calls, i, Gone(s.calls[i].phase.fate)))
    case Receive => s.(queue := s.queue[1..], handed := s.handed + [s.queue[0]], drain := InSink(s.queue[0]))
    case SinkReturns(p) =>
      var t := s.(drain := Receiving);
      if p.None? then t
      else t.(panics := s.panics + [p.value], sinkPanic := if s.sinkPanic.None? then p else s.sinkPanic)
    case Finish => s.(drain := Finished)
    case CallClose =>
      s.(closeCalls := s.closeCalls + 1, closer := if s.closer.NotCalled? then WaitsForLock else s.closer)
    case TakeLock => s.(closer := HoldsLock)
    case SetClosed => s.(closer := FlagSet, closed := true)
    case DropLock => s.(closer := Unlocked)
    case CloseChannel => s.(closer := ChannelClosed, channelClosed := true)
    case AwaitDrain => s.(closer := Drained)
    case Report => s.(closer := Reported, reports := if s.drops > 0 then s.reports + [s.drops] else s.reports)
    case ReturnClose => s.(closeReturns := s.closeReturns + 1)
  }

  // ---------- runs ----------

  ghost predicate Runs(s: State, steps: seq<Action>)
    decreases |steps|
  {
    steps == [] || (Enabled(s, steps[0]) && Runs(Step(s, steps[0]), steps[1..]))
  }

  ghost function After(s: State, steps: seq<Action>): State
    requires Runs(s, steps)
    decreases |steps|
  {
    if steps == [] then s else After(Step(s, steps[0]), steps[1..])
  }

  /** Reachable from a fresh channel by some interleaving. */
  ghost predicate Reachable(s: State) {
    s == START || exists steps :: Runs(START, steps) && After(START, steps) == s
  }

  type Reached = s: State | Reachable(s)
    witness START

  // ---------- what every step keeps ----------

  predicate WasQueued(c: Call) {
    (c.phase.Leaving? || c.phase.Gone?) && c.phase.fate == Queued
  }

  predicate WasDropped(c: Call) {
    (c.phase.Leaving? || c.phase.Gone?) && c.phase.fate == Dropped
  }

  predicate WasRefused(c: Call) {
    (c.phase.Leaving? || c.phase.Gone?) && c.phase.fate == Refused
  }

  /** The write lock excludes readers, and no call is past the check once the flag is set. */
  predicate LocksHold(s: State) {
    && (s.closer.HoldsLock? || s.closer.FlagSet? ==>
      forall i :: 0 <= i < |s.calls| ==> !HoldsReadLock(s.calls[i].phase))
    && (s.closed <==> s.closer.FlagSet? || s.closer.Unlocked? || s.channelClosed)
    && (s.channelClosed <==> s.closer.ChannelClosed? || s.closer.Drained? || s.closer.Reported?)
    && (s.closed ==> forall i :: 0 <= i < |s.calls| ==> !s.calls[i].phase.Passed?)
    && (!s.closed ==> forall i :: 0 <= i < |s.calls| ==> !WasRefused(s.calls[i]))
    && !s.crashed
    && (s.closeCalls == 0 <==> s.closer.NotCalled?)
    && (s.closeReturns > 0 ==> s.closer.Reported?)
    && s.closeReturns <= s.closeCalls
  }

  /** The queue and the drain together hold the accepted events, in order. */
  predicate PipeHolds(s: State) {
    && |s.queue| <= EVENT_BUFFER
    && s.accepted == s.handed + s.queue
    && (s.drain.InSink? ==> s.handed != [] && s.handed[|s.handed| - 1] == s.drain.event)
    && (s.drain.Finished? ==> s.channelClosed && s.queue == [])
    && (s.closer.Drained? || s.closer.Reported? ==> s.drain.Finished?)
  }

  /** The accepted events are those of the calls that queued one, each once. */
  predicate AcceptedAreQueued(s: State) {
    && (forall k :: 0 <= k < |s.accepted| ==> s.accepted[k] < |s.calls| && WasQueued(s.calls[s.accepted[k]]))
    && (forall i :: 0 <= i < |s.calls| && WasQueued(s.calls[i]) ==> i in s.accepted)
    && (forall j, k :: 0 <= j < k < |s.accepted| ==> s.accepted[j] != s.accepted[k])
  }

  function Dropping(calls: seq<Call>): nat {
    if calls == [] then 0
    else Dropping(calls[..|calls| - 1]) + (if WasDropped(calls[|calls| - 1]) then 1 else 0)
  }

  /** Calls with a Progress event that got past the closed check and have left it. */
  function ProgressAccepted(calls: seq<Call>): nat {
    if calls == [] then 0
    else
      var c := calls[|calls| - 1];
      ProgressAccepted(calls[..|calls| - 1]) + (if c.kind.Progress? && (WasQueued(c) || WasDropped(c)) then 1 else 0)
  }

  function ProgressAmong(calls: seq<Call>, events: seq<nat>): nat
    requires forall k :: 0 <= k < |events| ==> events[k] < |calls|
  {
    if events == [] then 0
    else
      ProgressAmong(calls, events[..|events| - 1]) +
      (if calls[events[|events| - 1]].kind.Progress? then 1 else 0)
  }

  predicate CountsHold(s: State)
    requires AcceptedAreQueued(s)
  {
    && s.drops == Dropping(s.calls)
    && ProgressAccepted(s.calls) == ProgressAmong(s.calls, s.accepted) + s.drops
    && (forall i :: 0 <= i < |s.calls| && WasDropped(s.calls[i]) ==> s.calls[i].kind.Progress?)
  }

  predicate ReportsHold(s: State) {
    && s.reports == (if s.closer.Reported? && s.drops > 0 then [s.drops] else [])
    && s.sinkPanic == (if s.panics == [] then None else Some(s.panics[0]))
  }

  predicate Inv(s: State) {
    LocksHold(s) && PipeHolds(s) && AcceptedAreQueued(s) && CountsHold(s) && ReportsHold(s)
  }

  /** A step of one call, by its number. */
  predicate OfACall(a: Action) {
    a.Arrive? || a.TakeReadLock? || a.CheckClosed? || a.Put? || a.DropReadLock?
  }

  lemma CallKeepsLocks(s: State, a: Action)
    requires LocksHold(s) && Enabled(s, a) && OfACall(a)
    ensures LocksHold(Step(s, a))
  {
    var t := Step(s, a);
    forall i | 0 <= i < |t.calls| && (i >= |s.calls| || t.calls[i] == s.calls[i]) && HoldsReadLock(t.calls[i].phase)
      ensures i < |s.calls| && HoldsReadLock(s.calls[i].phase) {}
  }

  lemma LocksKept(s: State, a: Action)
    requires LocksHold(s) && PipeHolds(s) && Enabled(s, a)
    ensures LocksHold(Step(s, a))
  {
    if OfACall(a) {
      CallKeepsLocks(s, a);
    } else {
      hide HoldsReadLock, WasRefused;
      assert Step(s, a).calls == s.calls;
    }
  }

  lemma CallKeepsPipe(s: State, a: Action)
    requires LocksHold(s) && PipeHolds(s) && Enabled(s, a) && OfACall(a)
    ensures PipeHolds(Step(s, a))
  {
    hide HoldsReadLock, WasRefused;
    if a.Put? && !s.channelClosed {
      assert s.handed + (s.queue + [a.call]) == s.handed + s.queue + [a.call];
    }
  }

  lemma PipeKept(s: State, a: Action)
    requires LocksHold(s) && PipeHolds(s) && Enabled(s, a)
    ensures PipeHolds(Step(s, a))
  {
    hide HoldsReadLock, WasRefused;
    if OfACall(a) {
      CallKeepsPipe(s, a);
    } else if a.Receive? {
      assert s.queue == [s.queue[0]] + s.queue[1..];
    }
  }

  /** A call that moves on, or a new one, with its fate as settled as before. */
  lemma AcceptedStay(s: State, t: State)
    requires AcceptedAreQueued(s) && t.accepted == s.accepted && |s.calls| <= |t.calls|
    requires forall i :: 0 <= i < |s.calls| ==> WasQueued(t.calls[i]) == WasQueued(s.calls[i])
    requires forall i :: |s.calls| <= i < |t.calls| ==> !WasQueued(t.calls[i])
    ensures AcceptedAreQueued(t)
  {
  }

  lemma AcceptedGrow(s: State, t: State, i: nat)
    requires AcceptedAreQueued(s) && i < |s.calls| && !WasQueued(s.calls[i])
    requires t.accepted == s.accepted + [i] && t.calls == Moved(s.calls, i, Leaving(Queued))
    ensures AcceptedAreQueued(t)
  {
    forall j | 0 <= j < |t.calls| && WasQueued(t.calls[j]) ensures j in t.accepted {
      assert j == i || j in s.accepted;
    }
  }

  lemma AcceptedKept(s: State, a: Action)
    requires LocksHold(s) && AcceptedAreQueued(s) && Enabled(s, a)
    ensures AcceptedAreQueued(Step(s, a))
  {
    hide AcceptedAreQueued;
    var t := Step(s, a);
    if a.Put? && t.accepted != s.accepted {
      AcceptedGrow(s, t, a.call);
    } else {
      AcceptedStay(s, t);
    }
  }

  lemma {:induction false} CountsMove(calls: seq<Call>, i: nat, c: Call)
    requires i < |calls| && c.kind == calls[i].kind && !WasQueued(calls[i]) && !WasDropped(calls[i])
    ensures Dropping(calls[i := c]) == Dropping(calls) + (if WasDropped(c) then 1 else 0)
    ensures ProgressAccepted(calls[i := c]) ==
      ProgressAccepted(calls) + (if c.kind.Progress? && (WasQueued(c) || WasDropped(c)) then 1 else 0)
  {
    var n := |calls| - 1;
    if i == n {
      assert calls[i := c][..n] == calls[..n];
    } else {
      assert calls[i := c][..n] == calls[..n][i := c];
      CountsMove(calls[..n], i, c);
    }
  }

  /** Leaving with the same fate counts as before. */
  lemma {:induction false} CountsStay(calls: seq<Call>, i: nat, c: Call)
    requires i < |calls| && c.kind == calls[i].kind
    requires WasQueued(c) == WasQueued(calls[i]) && WasDropped(c) == WasDropped(calls[i])
    ensures Dropping(calls[i := c]) == Dropping(calls)
    ensures ProgressAccepted(calls[i := c]) == ProgressAccepted(calls)
  {
    var n := |calls| - 1;
    if i == n {
      assert calls[i := c][..n] == calls[..n];
    } else {
      assert calls[i := c][..n] == calls[..n][i := c];
      CountsStay(calls[..n], i, c);
    }
  }

  lemma {:induction false} ProgressStays(calls: seq<Call>, later: seq<Call>, events: seq<nat>)
    requires |calls| <= |later| && forall i :: 0 <= i < |calls| ==> later[i].kind == calls[i].kind
    requires forall k :: 0 <= k < |events| ==> events[k] < |calls|
    ensures ProgressAmong(later, events) == ProgressAmong(calls, events)
  {
    if events != [] {
      ProgressStays(calls, later, events[..|events| - 1]);
    }
  }

  /** Calls that move on with their fate as settled as before leave the counts alone. */
  lemma CountsSame(s: State, t: State, i: nat, phase: Phase)
    requires AcceptedAreQueued(s) && CountsHold(s) && AcceptedAreQueued(t)
    requires i < |s.calls| && t == s.(calls := Moved(s.calls, i, phase))
    requires var c := s.calls[i].(phase := phase);
      WasQueued(c) == WasQueued(s.calls[i]) && WasDropped(c) == WasDropped(s.calls[i])
    ensures CountsHold(t)
  {
    hide Dropping, ProgressAccepted, ProgressAmong, AcceptedAreQueued;
    CountsStay(s.calls, i, t.calls[i]);
    AcceptedInRange(s);
    ProgressStays(s.calls, t.calls, s.accepted);
  }

  lemma CountsPut(s: State, i: nat)
    requires LocksHold(s) && AcceptedAreQueued(s) && CountsHold(s) && Enabled(s, Put(i)) && AcceptedAreQueued(Step(s, Put(i)))
    ensures CountsHold(Step(s, Put(i)))
  {
    hide Dropping, ProgressAccepted, ProgressAmong;
    var t := Step(s, Put(i));
    CountsMove(s.calls, i, t.calls[i]);
    ProgressStays(s.calls, t.calls, s.accepted);
    ProgressOfOneMore(t.calls, s.accepted, i);
  }

  lemma CountsKept(s: State, a: Action)
    requires LocksHold(s) && AcceptedAreQueued(s) && CountsHold(s) && Enabled(s, a)
    ensures AcceptedAreQueued(Step(s, a)) && CountsHold(Step(s, a))
  {
    hide Dropping, ProgressAccepted, ProgressAmong, AcceptedAreQueued;
    AcceptedKept(s, a);
    var t := Step(s, a);
    match a
    case Arrive(k) =>
      ArrivalCounts(s.calls, Call(k, Entered));
      AcceptedInRange(s);
      ProgressStays(s.calls, t.calls, s.accepted);
    case TakeReadLock(i) =>
      CountsSame(s, t, i, Locked);
    case CheckClosed(i) =>
      CountsSame(s, t, i, t.calls[i].phase);
    case DropReadLock(i) =>
      CountsSame(s, t, i, t.calls[i].phase);
    case Put(i) =>
      CountsPut(s, i);
    case _ =>
      AcceptedInRange(s);
  }

  lemma AcceptedInRange(s: State)
    requires AcceptedAreQueued(s)
    ensures forall k :: 0 <= k < |s.accepted| ==> s.accepted[k] < |s.calls|
  {
  }

  lemma ArrivalCounts(calls: seq<Call>, c: Call)
    requires c.phase.Entered?
    ensures Dropping(calls + [c]) == Dropping(calls) && ProgressAccepted(calls + [c]) == ProgressAccepted(calls)
  {
    assert (calls + [c])[..|calls|] == calls;
  }

  lemma ProgressOfOneMore(calls: seq<Call>, events: seq<nat>, i: nat)
    requires i < |calls| && forall k :: 0 <= k < |events| ==> events[k] < |calls|
    ensures ProgressAmong(calls, events + [i]) ==
      ProgressAmong(calls, events) + (if calls[i].kind.Progress? then 1 else 0)
  {
    assert (events + [i])[..|events|] == events;
  }

  lemma ReportsKept(s: State, a: Action)
    requires LocksHold(s) && PipeHolds(s) && ReportsHold(s) && Enabled(s, a)
    ensures ReportsHold(Step(s, a))
  {
  }

  lemma InvKept(s: State, a: Action)
    requires Inv(s) && Enabled(s, a)
    ensures Inv(Step(s, a))
  {
    hide Step, LocksHold, PipeHolds, AcceptedAreQueued, CountsHold, ReportsHold;
    ReportsKept(s, a);
    LocksKept(s, a);
    PipeKept(s, a);
    CountsKept(s, a);
  }

  lemma {:induction false} RunsKeepInv(s: State, steps: seq<Action>)
    requires Inv(s) && Runs(s, steps)
    ensures Inv(After(s, steps))
    decreases |steps|
  {
    if steps != [] {
      InvKept(s, steps[0]);
      RunsKeepInv(Step(s, steps[0]), steps[1..]);
    }
  }

  lemma StartHolds()
    ensures Inv(START)
  {
  }

  lemma ReachableInv(s: Reached)
    ensures Inv(s)
  {
    hide LocksHold, PipeHolds, AcceptedAreQueued, CountsHold, ReportsHold;
    StartHolds();
    if s != START {
      var steps :| Runs(START, steps) && After(START, steps) == s;
      RunsKeepInv(START, steps);
    }
  }

  // ---------- safety ----------

  /** No interleaving sends on the closed channel. */
  lemma NeverSendsOnClosed(s: Reached)
    ensures !s.crashed
    ensures s.channelClosed ==> forall i: nat :: !Enabled(s, Put(i))
  {
    ReachableInv(s);
  }

  /** The sink has been handed a prefix of the accepted events, each once and in queue
      order, and the queue holds exactly the rest. */
  lemma SinkSeesTheQueueInOrder(s: Reached)
    ensures s.handed <= s.accepted && s.accepted[|s.handed|..] == s.queue && |s.queue| <= EVENT_BUFFER
    ensures forall j, k :: 0 <= j < k < |s.handed| ==> s.handed[j] != s.handed[k]
    ensures forall i :: 0 <= i < |s.calls| ==> (WasQueued(s.calls[i]) <==> i in s.accepted)
  {
    ReachableInv(s);
    forall j, k | 0 <= j < k < |s.handed| ensures s.handed[j] != s.handed[k] {
      assert s.accepted[j] == s.handed[j] && s.accepted[k] == s.handed[k];
    }
  }

  /** A returned Send has queued its event, but for two cases: close had set its flag, or
      the event is a Progress one. So a lasting event past the check is never lost. */
  lemma OnlyProgressIsDropped(s: Reached, i: nat)
    requires i < |s.calls| && s.calls[i].phase.Gone?
    ensures match s.calls[i].phase.fate
      case Queued => i in s.accepted
      case Dropped => i !in s.accepted && s.calls[i].kind.Progress?
      case Refused => i !in s.accepted && s.closed
  {
    ReachableInv(s);
  }

  /** One step queues an event or, of a full queue alone, drops it. */
  lemma PutQueuesIfItCan(s: State, a: Action)
    requires Inv(s) && Enabled(s, a)
    ensures var t := Step(s, a);
      && (t.drops != s.drops ==> t.drops == s.drops + 1 && |s.queue| == 256 && a.Put? && s.calls[a.call].kind.Progress?)
      && (a.Put? && |s.queue| < 256 ==> t.queue == s.queue + [a.call] && t.accepted == s.accepted + [a.call])
  {
    hide AcceptedAreQueued, CountsHold, ReportsHold;
    if a.Put? {
      assert s.calls[a.call].phase.Passed?;
    }
  }

  /** At any point of any run a Progress event is dropped only if all 256 places are taken. */
  lemma DroppedOnlyWhenFull(s: Reached, steps: seq<Action>, a: Action)
    requires Runs(s, steps) && Enabled(After(s, steps), a)
    requires Step(After(s, steps), a).drops != After(s, steps).drops
    ensures |After(s, steps).queue| == 256
  {
    hide Inv;
    ReachableInv(s);
    RunsKeepInv(s, steps);
    PutQueuesIfItCan(After(s, steps), a);
  }

  /** A call can always go on but for a close that waits for its lock or holds it and, past
      the check, for room in the queue, and a Progress one does not wait for that. */
  lemma SendWaitsOnlyForRoomOrClose(s: Reached, i: nat)
    requires i < |s.calls|
    ensures match s.calls[i].phase
      case Entered => Enabled(s, TakeReadLock(i)) || s.closer in {WaitsForLock, HoldsLock, FlagSet}
      case Locked => Enabled(s, CheckClosed(i))
      case Passed => Enabled(s, Put(i)) || (s.calls[i].kind == Lasting && |s.queue| == 256)
      case Leaving(_) => Enabled(s, DropReadLock(i))
      case Gone(_) => true
  {
    ReachableInv(s);
    hide LocksHold, AcceptedAreQueued, CountsHold, ReportsHold;
  }

  lemma {:induction false} DropsFollowAFullQueue(s: State, steps: seq<Action>)
    requires Inv(s) && Runs(s, steps) && (s.drops > 0 ==> |s.accepted| >= 256)
    ensures After(s, steps).drops > 0 ==> |After(s, steps).accepted| >= 256
    decreases |steps|
  {
    hide Inv, Step, Enabled;
    if steps != [] {
      var t := Step(s, steps[0]);
      InvKept(s, steps[0]);
      PutQueuesIfItCan(s, steps[0]);
      QueueIsAccepted(s);
      AcceptedStays(s, steps[0]);
      DropsFollowAFullQueue(t, steps[1..]);
    }
  }

  lemma QueueIsAccepted(s: State)
    requires Inv(s)
    ensures |s.queue| <= |s.accepted|
  {
  }

  lemma AcceptedStays(s: State, a: Action)
    requires Enabled(s, a)
    ensures s.accepted <= Step(s, a).accepted
  {
  }

  lemma DropsNeedAFullQueue(s: Reached)
    ensures s.drops > 0 ==> |s.accepted| >= 256
  {
    hide Inv, Step, Enabled, Runs, After;
    if s != START {
      var steps :| Runs(START, steps) && After(START, steps) == s;
      StartHolds();
      DropsFollowAFullQueue(START, steps);
    }
  }

  lemma NoneIsDropped(s: State)
    requires s.drops == 0 && s.drops == Dropping(s.calls)
    ensures forall i :: 0 <= i < |s.calls| ==> !WasDropped(s.calls[i])
  {
    hide Dropping, WasDropped;
    forall i | 0 <= i < |s.calls| ensures !WasDropped(s.calls[i]) {
      if WasDropped(s.calls[i]) {
        DroppingCounts(s.calls, i);
      }
    }
  }

  /** So a run that sends at most 256 events past the check drops none. */
  lemma FewEventsAreAllKept(s: Reached)
    requires |s.accepted| + s.drops <= 256
    ensures s.drops == 0 && forall i :: 0 <= i < |s.calls| ==> !WasDropped(s.calls[i])
  {
    ReachableInv(s);
    assert s.drops == Dropping(s.calls) by {
      hide Dropping, LocksHold, PipeHolds, AcceptedAreQueued, ReportsHold;
    }
    hide Inv, Reachable, Dropping, WasDropped;
    DropsNeedAFullQueue(s);
    NoneIsDropped(s);
  }

  lemma {:induction false} DroppingCounts(calls: seq<Call>, i: nat)
    requires i < |calls| && WasDropped(calls[i])
    ensures Dropping(calls) > 0
  {
    if i < |calls| - 1 {
      DroppingCounts(calls[..|calls| - 1], i);
    }
  }

  /** When close has returned: the sink has had every event that passed the check, each
      once and in order, but for the counted Progress drops, reported once if any. */
  lemma CloseAccountsForEverything(s: Reached)
    requires s.closeReturns > 0
    ensures s.handed == s.accepted && s.queue == [] && s.drain.Finished?
    ensures forall i :: 0 <= i < |s.calls| ==> !s.calls[i].phase.Passed?
    ensures forall i :: 0 <= i < |s.calls| && WasQueued(s.calls[i]) ==> i in s.handed
    ensures forall k :: 0 <= k < |s.handed| ==> s.handed[k] < |s.calls| && WasQueued(s.calls[s.handed[k]])
    ensures ProgressAccepted(s.calls) == ProgressAmong(s.calls, s.handed) + Dropping(s.calls)
    ensures s.reports == if Dropping(s.calls) > 0 then [Dropping(s.calls)] else []
  {
    ReachableInv(s);
    assert s.handed + [] == s.handed;
  }

  /** Run is told of the first panic a sink raised, whatever came after it. */
  lemma FirstPanicIsKept(s: Reached)
    ensures s.sinkPanic == if s.panics == [] then None else Some(s.panics[0])
  {
    ReachableInv(s);
  }

  lemma {:induction false} AcceptedOnlyGrows(s: State, steps: seq<Action>)
    requires Runs(s, steps)
    ensures s.accepted <= After(s, steps).accepted && |s.calls| <= |After(s, steps).calls|
    decreases |steps|
  {
    if steps != [] {
      AcceptedOnlyGrows(Step(s, steps[0]), steps[1..]);
    }
  }

  /** A Send that returned before another was called is queued before it: the sink sees
      one goroutine's events in the order it sent them. */
  lemma EarlierSendsComeFirst(s: Reached, steps: seq<Action>, i: nat, j: nat)
    requires Runs(s, steps)
    requires i < |s.calls| && s.calls[i].phase == Gone(Queued)
    requires j in After(s, steps).accepted && j >= |s.calls|
    ensures var all := After(s, steps).accepted;
      exists p, q :: 0 <= p < q < |all| && all[p] == i && all[q] == j
  {
    hide Runs, Reachable, Step, Enabled, Dropping, ProgressAccepted, ProgressAmong;
    ReachableInv(s);
    AcceptedOnlyGrows(s, steps);
    var all := After(s, steps).accepted;
    assert i in s.accepted by { assert AcceptedAreQueued(s) && WasQueued(s.calls[i]); }
    hide Inv;
    var p :| 0 <= p < |s.accepted| && s.accepted[p] == i;
    var q :| 0 <= q < |all| && all[q] == j;
    assert all[p] == i;
  }

  // ---------- progress ----------

  /** A step of the calls already made, rather than a new one. */
  predicate Internal(a: Action) {
    !a.Arrive? && !a.CallClose?
  }

  /** Everything asked for is done: every Send has returned and so has every close. */
  predicate Settled(s: State) {
    && (forall i :: 0 <= i < |s.calls| ==> s.calls[i].phase.Gone?)
    && s.queue == [] && !s.drain.InSink?
    && s.closeReturns == s.closeCalls
    && (s.closeCalls > 0 ==> s.closer.Reported? && s.drain.Finished?)
  }

  function Weight(p: Phase): nat {
    match p
    case Entered => 6
    case Locked => 5
    case Passed => 4
    case Leaving(_) => 1
    case Gone(_) => 0
  }

  function Weights(calls: seq<Call>): nat {
    if calls == [] then 0 else Weights(calls[..|calls| - 1]) + Weight(calls[|calls| - 1].phase)
  }

  function Ahead(c: Closer): nat {
    match c
    case NotCalled => 8
    case WaitsForLock => 7
    case HoldsLock => 6
    case FlagSet => 5
    case Unlocked => 4
    case ChannelClosed => 3
    case Drained => 2
    case Reported => 1
  }

  /** An upper bound on the steps the calls already made can still take. */
  function StepsLeft(s: State): int {
    Weights(s.calls) + 2 * |s.queue| + (if s.drain.InSink? then 2 else if s.drain.Receiving? then 1 else 0)
    + Ahead(s.closer) + (s.closeCalls - s.closeReturns)
  }

  lemma {:induction false} WeightMoves(calls: seq<Call>, i: nat, c: Call)
    requires i < |calls|
    ensures Weights(calls[i := c]) == Weights(calls) - Weight(calls[i].phase) + Weight(c.phase)
  {
    var n := |calls| - 1;
    if i == n {
      assert calls[i := c][..n] == calls[..n];
    } else {
      assert calls[i := c][..n] == calls[..n][i := c];
      WeightMoves(calls[..n], i, c);
    }
  }

  /** While sink calls return, something can move until every Send and close has returned. */
  lemma SomethingCanMove(s: Reached) returns (a: Action)
    requires !Settled(s)
    ensures Internal(a) && Enabled(s, a)
  {
    ReachableInv(s);
    if s.drain.InSink? {
      return SinkReturns(None);
    }
    if s.queue != [] {
      return Receive;
    }
    if i :| 0 <= i < |s.calls| && HoldsReadLock(s.calls[i].phase) {
      if s.calls[i].phase.Locked? {
        return CheckClosed(i);
      }
      if s.calls[i].phase.Passed? {
        return Put(i);
      }
      return DropReadLock(i);
    }
    match s.closer
    case WaitsForLock => return TakeLock;
    case HoldsLock => return SetClosed;
    case FlagSet => return DropLock;
    case Unlocked => return CloseChannel;
    case ChannelClosed => return if s.drain.Finished? then AwaitDrain else Finish;
    case Drained => return Report;
    case _ =>
      if s.closeReturns < s.closeCalls {
        return ReturnClose;
      }
      var i :| 0 <= i < |s.calls| && !s.calls[i].phase.Gone?;
      return TakeReadLock(i);
  }

  lemma CallStepRunsOut(s: State, a: Action)
    requires LocksHold(s) && Enabled(s, a) && Internal(a) && OfACall(a)
    ensures StepsLeft(Step(s, a)) < StepsLeft(s)
  {
    hide Weights;
    WeightMoves(s.calls, a.call, Step(s, a).calls[a.call]);
  }

  lemma StepsAreLeft(s: State)
    requires LocksHold(s)
    ensures StepsLeft(s) >= 0
  {
    hide Weights;
  }

  lemma InvStepsAreLeft(s: State)
    requires Inv(s)
    ensures StepsLeft(s) >= 0
  {
    hide StepsLeft, LocksHold, PipeHolds, AcceptedAreQueued, CountsHold, ReportsHold;
    StepsAreLeft(s);
  }

  lemma StepsRunOut(s: State, a: Action)
    requires Inv(s) && Enabled(s, a) && Internal(a)
    ensures 0 <= StepsLeft(Step(s, a)) < StepsLeft(s)
  {
    hide Weights, PipeHolds, AcceptedAreQueued, CountsHold, ReportsHold;
    LocksKept(s, a) by {
      assert PipeHolds(s);
    }
    StepsAreLeft(Step(s, a));
    if OfACall(a) {
      CallStepRunsOut(s, a);
    } else {
      hide LocksHold;
    }
  }

  /** Without new calls, a run has at most StepsLeft steps, and one that cannot go on has
      settled: close has returned to every caller, and no Send is stuck. */
  lemma {:induction false} EveryRunSettles(s: Reached, steps: seq<Action>)
    requires Runs(s, steps)
    requires forall k :: 0 <= k < |steps| ==> Internal(steps[k])
    ensures |steps| <= StepsLeft(s)
    ensures (forall a :: Internal(a) ==> !Enabled(After(s, steps), a)) ==> Settled(After(s, steps))
    decreases |steps|
  {
    hide Inv, StepsLeft, Reachable, Internal, Step, Enabled, Settled;
    ReachableInv(s);
    assert StepsLeft(s) >= 0 by { InvStepsAreLeft(s); }
    if steps == [] {
      if !Settled(s) {
        var a := SomethingCanMove(s);
        assert Enabled(After(s, steps), a);
      }
    } else {
      StepsRunOut(s, steps[0]);
      OneMoreStep(s, steps[0]);
      EveryRunSettles(Step(s, steps[0]), steps[1..]);
    }
  }

  lemma {:induction false} RunsJoin(s: State, steps: seq<Action>, a: Action)
    requires Runs(s, steps) && Enabled(After(s, steps), a)
    ensures Runs(s, steps + [a]) && After(s, steps + [a]) == Step(After(s, steps), a)
    decreases |steps|
  {
    if steps == [] {
      assert Runs(Step(s, a), []);
      assert (steps + [a])[1..] == [];
    } else {
      assert (steps + [a])[1..] == steps[1..] + [a];
      RunsJoin(Step(s, steps[0]), steps[1..], a);
    }
  }

  lemma OneMoreStep(s: Reached, a: Action)
    requires Enabled(s, a)
    ensures Reachable(Step(s, a))
  {
    if s == START {
      RunsJoin(START, [], a);
      assert Runs(START, [] + [a]);
    } else {
      var steps :| Runs(START, steps) && After(START, steps) == s;
      RunsJoin(START, steps, a);
    }
  }
}
