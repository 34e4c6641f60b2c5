/** The hub's lifecycle protocol (internal/events/hub.go, internal/events/handler.go) as a
    step system: one atomic step per critical section. `mu` is the read-write lock over
    server and closed: Publish holds it for reading across the publish, Reset and Shutdown
    hold it for writing across snapshot and swap. `activeMu` guards the active set alone,
    so registering and unregistering interleave with everything. Servers, handlers and
    publishers are identifiers; server identifiers are allocated fresh, as build does. */
module HubProtocol {
  import opened Prelude

  /** Where one GET /events request stands: registerSub done; delegating to a server;
      ServeHTTP returned; own cancel done; entry deleted. */
  datatype Phase = Registered | Serving(server: nat) | Leaving | Cleaning | Finished

  /** `id` is the active-map key registerSub captured. */
  datatype Handler = Handler(id: nat, phase: Phase, cancelled: bool)

  /** A Publish call that holds mu for reading; an error frame also closes the
      subscribers it snapshotted. */
  datatype Publisher =
    | Publishing(server: nat, isError: bool)
    | Closing(server: nat, snapshot: set<nat>, todo: set<nat>)

  datatype Kind = Reset | Shutdown

  /** The one Reset or Shutdown that holds lifecycleMu. `pending` are the handlers whose
      cancel it took and has not called yet. */
  datatype Lifecycle =
    | Idle
    | Waiting(kind: Kind)
    | Locked(kind: Kind)
    | Taken(kind: Kind, pending: set<nat>)
    | Draining(retiring: nat, pending: set<nat>)

  /** `retired`, `shutDown` and `windowStart` are history: servers swapped out, servers
      shut down, and the value of nextSub when the counter was last zeroed. */
  datatype State = State(
    server: Option<nat>, closed: bool, nextServer: nat,
    retired: set<nat>, shutDown: set<nat>,
    handlers: map<nat, Handler>, active: map<nat, nat>,
    nextSub: nat, totalSubs: nat, windowStart: nat,
    publishers: map<nat, Publisher>, lifecycle: Lifecycle)
  {
    predicate WriteLocked() {
      lifecycle.Locked? || lifecycle.Taken?
    }

    function Pending(): set<nat> {
      if lifecycle.Taken? || lifecycle.Draining? then lifecycle.pending else {}
    }

    function ActiveHandlers(): set<nat> {
      set k | k in active :: active[k]
    }

    function SetPhase(h: nat, p: Phase): State
      requires h in handlers
    {
      this.(handlers := handlers[h := handlers[h].(phase := p)])
    }

    function Cancel(h: nat): State
      requires h in handlers
    {
      this.(handlers := handlers[h := handlers[h].(cancelled := true)])
    }
  }

  const INITIAL := State(Some(0), false, 1, {}, {}, map[], map[], 0, 0, 0, map[], Idle)

  datatype Step =
    | Register(h: nat)                      // handler.go:440-445
    | ReadServer(h: nat)                    // handler.go:411-419
    | EndServing(h: nat)                    // handler.go:426
    | CancelSelf(h: nat)                    // handler.go:447
    | Unregister(h: nat)                    // handler.go:448-450
    | PublishStart(p: nat, isError: bool)   // hub.go:260-264
    | ErrorSnapshot(p: nat)                 // hub.go:321-326
    | ErrorCancel(p: nat, h: nat)           // hub.go:327-329
    | PublishEnd(p: nat)                    // hub.go:261
    | CallLifecycle(kind: Kind)             // hub.go:347, 451
    | LockMu                                // hub.go:350-354, 456-460
    | TakeActive                            // hub.go:483-499
    | Swap                                  // hub.go:360-364, 463-466
    | CancelPending(h: nat)                 // hub.go:370-372, 468-470
    | ShutDownOld                           // hub.go:374-376, 472-474

  predicate InPhase(s: State, h: nat, p: Phase) {
    h in s.handlers && s.handlers[h].phase == p
  }

  predicate Enabled(s: State, step: Step) {
    match step
    case Register(h) => h !in s.handlers
    case ReadServer(h) => InPhase(s, h, Registered) && !s.WriteLocked()
    case EndServing(h) => h in s.handlers && s.handlers[h].phase.Serving?
    case CancelSelf(h) => InPhase(s, h, Leaving)
    case Unregister(h) => InPhase(s, h, Cleaning)
    case PublishStart(p, _) => p !in s.publishers && !s.WriteLocked() && s.server.Some?
    case ErrorSnapshot(p) => p in s.publishers && s.publishers[p].Publishing? && s.publishers[p].isError
    case ErrorCancel(p, h) => p in s.publishers && s.publishers[p].Closing? && h in s.publishers[p].todo
                              && h in s.handlers
    case PublishEnd(p) => p in s.publishers && (s.publishers[p].Publishing? || s.publishers[p].todo == {})
    case CallLifecycle(_) => s.lifecycle.Idle?
    case LockMu => s.lifecycle.Waiting? && s.publishers == map[]
    case TakeActive => s.lifecycle.Locked?
    case Swap => s.lifecycle.Taken? && s.server.Some?
    case CancelPending(h) => s.lifecycle.Draining? && h in s.lifecycle.pending && h in s.handlers
    case ShutDownOld => s.lifecycle.Draining? && s.lifecycle.pending == {}
  }

  function Next(s: State, step: Step): State
    requires Enabled(s, step)
  {
    match step
    case Register(h) =>
      s.(handlers := s.handlers[h := Handler(s.nextSub, Registered, false)],
         active := s.active[s.nextSub := h], nextSub := s.nextSub + 1, totalSubs := s.totalSubs + 1)
    case ReadServer(h) => s.SetPhase(h, if s.server.None? then Leaving else Serving(s.server.value))
    case EndServing(h) => s.SetPhase(h, Leaving)
    case CancelSelf(h) => s.Cancel(h).SetPhase(h, Cleaning)
    case Unregister(h) => s.SetPhase(h, Finished).(active := s.active - {s.handlers[h].id})
    case PublishStart(p, isError) => s.(publishers := s.publishers[p := Publishing(s.server.value, isError)])
    case ErrorSnapshot(p) =>
      s.(publishers := s.publishers[p := Closing(s.publishers[p].server, s.ActiveHandlers(), s.ActiveHandlers())])
    case ErrorCancel(p, h) =>
      s.Cancel(h).(publishers := s.publishers[p := s.publishers[p].(todo := s.publishers[p].todo - {h})])
    case PublishEnd(p) => s.(publishers := s.publishers - {p})
    case CallLifecycle(kind) => s.(lifecycle := Waiting(kind))
    case LockMu => s.(lifecycle := if s.closed then Idle else Locked(s.lifecycle.kind))
    case TakeActive =>
      s.(lifecycle := Taken(s.lifecycle.kind, s.ActiveHandlers()),
         active := map[], totalSubs := 0, windowStart := s.nextSub)
    case Swap =>
      s.(server := if s.lifecycle.kind == Reset then Some(s.nextServer) else None,
         closed := s.lifecycle.kind == Shutdown, nextServer := s.nextServer + 1,
         retired := s.retired + {s.server.value},
         lifecycle := Draining(s.server.value, s.lifecycle.pending))
    case CancelPending(h) =>
      s.Cancel(h).(lifecycle := s.lifecycle.(pending := s.lifecycle.pending - {h}))
    case ShutDownOld =>
      s.(shutDown := s.shutDown + {s.lifecycle.retiring}, lifecycle := Idle)
  }

  // ----------------------------------------------------------------- the invariant

  ghost predicate ServersInv(s: State) {
    && s.closed == s.server.None?
    && (s.server.Some? ==> s.server.value < s.nextServer && s.server.value !in s.retired)
    && (forall v :: v in s.retired ==> v < s.nextServer)
    && s.shutDown <= s.retired
    && (s.WriteLocked() ==> s.server.Some?)
    && (s.lifecycle.Draining? ==> s.lifecycle.retiring in s.retired && s.lifecycle.retiring !in s.shutDown)
  }

  /** Readers and the writer of mu exclude each other, so every publish in flight is on
      the current server. */
  ghost predicate PublishersInv(s: State) {
    && (s.WriteLocked() ==> s.publishers == map[])
    && (forall p :: p in s.publishers ==> s.server == Some(s.publishers[p].server))
  }

  /** Keys are never reused, so an active entry is its own handler's, and that handler has
      not cleaned up yet. */
  ghost predicate KeysInv(s: State) {
    && (forall h :: h in s.handlers ==> s.handlers[h].id < s.nextSub)
    && (forall h, g :: h in s.handlers && g in s.handlers && s.handlers[h].id == s.handlers[g].id ==> h == g)
    && (forall k :: k in s.active ==>
          s.active[k] in s.handlers && s.handlers[s.active[k]].id == k && !s.handlers[s.active[k]].phase.Finished?)
  }

  ghost predicate CleanupInv(s: State) {
    forall h :: h in s.handlers && (s.handlers[h].phase.Cleaning? || s.handlers[h].phase.Finished?) ==>
      s.handlers[h].cancelled
  }

  ghost predicate Live(s: State, h: nat) {
    h in s.handlers && !s.handlers[h].cancelled && (s.handlers[h].phase.Registered? || s.handlers[h].phase.Serving?)
  }

  predicate Listed(s: State, h: nat)
    requires h in s.handlers
  {
    s.handlers[h].id in s.active
  }

  /** Every subscriber nobody cancelled yet is one that somebody still can cancel. */
  ghost predicate ReachInv(s: State) {
    && s.Pending() <= s.handlers.Keys
    && (forall h :: Live(s, h) ==> Listed(s, h) || h in s.Pending())
  }

  /** Listed subscribers are never on a retired server, and those a lifecycle call took
      are on the server it retires or on the one after it. */
  ghost predicate ServingInv(s: State) {
    forall h :: h in s.handlers && s.handlers[h].phase.Serving? ==>
      var v := s.handlers[h].phase.server;
      && (Listed(s, h) ==> !s.lifecycle.Taken? && s.server == Some(v))
      && (h in s.Pending() ==> s.server == Some(v) || (s.lifecycle.Draining? && v == s.lifecycle.retiring))
      && (s.server == Some(v) || v in s.retired)
  }

  ghost predicate ClosingInv(s: State) {
    forall p, h :: p in s.publishers && s.publishers[p].Closing? && h in s.publishers[p].snapshot ==>
      h in s.handlers && (s.handlers[h].cancelled || h in s.publishers[p].todo)
  }

  ghost predicate CountInv(s: State) {
    && s.windowStart <= s.nextSub
    && s.totalSubs == s.nextSub - s.windowStart
    && (forall k :: k in s.active ==> s.windowStart <= k < s.nextSub)
  }

  /** Every retired server has been shut down, but for the one being drained. */
  ghost predicate RetiredInv(s: State) {
    s.retired == s.shutDown + if s.lifecycle.Draining? then {s.lifecycle.retiring} else {}
  }

  ghost predicate Inv(s: State) {
    && RetiredInv(s) && ServersInv(s) && PublishersInv(s) && KeysInv(s) && ReachInv(s)
    && ServingInv(s) && ClosingInv(s) && CountInv(s) && CleanupInv(s)
  }

  lemma ServersKept(s: State, step: Step)
    requires ServersInv(s) && Enabled(s, step)
    ensures ServersInv(Next(s, step))
  {
  }

  lemma RetiredKept(s: State, step: Step)
    requires RetiredInv(s) && Enabled(s, step)
    ensures RetiredInv(Next(s, step))
  {
  }

  lemma CountKept(s: State, step: Step)
    requires CountInv(s) && Enabled(s, step)
    ensures CountInv(Next(s, step))
  {
  }

  lemma CleanupKept(s: State, step: Step)
    requires CleanupInv(s) && Enabled(s, step)
    ensures CleanupInv(Next(s, step))
  {
  }

  lemma PublishersKept(s: State, step: Step)
    requires ServersInv(s) && PublishersInv(s) && Enabled(s, step)
    ensures PublishersInv(Next(s, step))
  {
  }

  predicate HandlerStep(step: Step) {
    step.Register? || step.ReadServer? || step.EndServing? || step.CancelSelf? || step.Unregister?
  }

  lemma KeysKeptByRegister(s: State, h: nat)
    requires KeysInv(s) && Enabled(s, Register(h))
    ensures KeysInv(Next(s, Register(h)))
  {
  }

  lemma KeysKeptByUnregister(s: State, h: nat)
    requires KeysInv(s) && Enabled(s, Unregister(h))
    ensures KeysInv(Next(s, Unregister(h)))
  {
  }

  lemma KeysKeptByHandlers(s: State, step: Step)
    requires KeysInv(s) && HandlerStep(step) && !step.Register? && Enabled(s, step)
    ensures KeysInv(Next(s, step))
  {
    if step.Unregister? {
      KeysKeptByUnregister(s, step.h);
    }
  }

  lemma KeysKept(s: State, step: Step)
    requires KeysInv(s) && Enabled(s, step)
    ensures KeysInv(Next(s, step))
  {
    if step.Register? {
      KeysKeptByRegister(s, step.h);
    } else if HandlerStep(step) {
      KeysKeptByHandlers(s, step);
    }
  }

  /** The handler part of a step: nothing else of the state moves. */
  lemma ReachKeptByHandlers(s: State, step: Step)
    requires KeysInv(s) && ReachInv(s) && HandlerStep(step) && Enabled(s, step)
    ensures ReachInv(Next(s, step))
  {
  }

  lemma ReachKept(s: State, step: Step)
    requires KeysInv(s) && ReachInv(s) && Enabled(s, step)
    ensures ReachInv(Next(s, step))
  {
    if HandlerStep(step) {
      ReachKeptByHandlers(s, step);
    } else if step.TakeActive? {
      forall h | h in s.handlers && Listed(s, h)
        ensures h in s.ActiveHandlers()
      {
        assert s.active[s.handlers[h].id] == h;
      }
    }
  }

  lemma ServingKeptByHandlers(s: State, step: Step)
    requires ServersInv(s) && KeysInv(s) && ServingInv(s) && HandlerStep(step) && Enabled(s, step)
    requires s.Pending() <= s.handlers.Keys
    ensures ServingInv(Next(s, step))
  {
  }

  lemma ServingKept(s: State, step: Step)
    requires ServersInv(s) && KeysInv(s) && ServingInv(s) && Enabled(s, step)
    requires s.Pending() <= s.handlers.Keys
    ensures ServingInv(Next(s, step))
  {
    if HandlerStep(step) {
      ServingKeptByHandlers(s, step);
    }
  }

  lemma ClosingKept(s: State, step: Step)
    requires KeysInv(s) && ClosingInv(s) && Enabled(s, step)
    ensures ClosingInv(Next(s, step))
  {
  }

  // ------------------------------------------------------------------- whole runs

  ghost predicate Execution(states: seq<State>, steps: seq<Step>) {
    && |states| == |steps| + 1
    && states[0] == INITIAL
    && forall i :: 0 <= i < |steps| ==> Enabled(states[i], steps[i]) && states[i + 1] == Next(states[i], steps[i])
  }

  lemma {:induction false} InvAlways(states: seq<State>, steps: seq<Step>, i: nat)
    requires Execution(states, steps) && i < |states|
    ensures Inv(states[i])
  {
    if i > 0 {
      InvAlways(states, steps, i - 1);
      var s, step := states[i - 1], steps[i - 1];
      ServersKept(s, step);
      RetiredKept(s, step);
      CountKept(s, step);
      CleanupKept(s, step);
      PublishersKept(s, step);
      KeysKept(s, step);
      ReachKept(s, step);
      ServingKept(s, step);
      ClosingKept(s, step);
    }
  }

  /** In every interleaving, a subscriber still holding a retired server has been
      cancelled, or the lifecycle call in progress is about to cancel it. So once no
      lifecycle call is in progress all of them are cancelled. */
  lemma RetiredServersAreDrained(states: seq<State>, steps: seq<Step>, i: nat, h: nat)
    requires Execution(states, steps) && i < |states| && h in states[i].handlers
    requires states[i].handlers[h].phase.Serving? && states[i].handlers[h].phase.server in states[i].retired
    ensures states[i].handlers[h].cancelled || h in states[i].Pending()
    ensures states[i].lifecycle.Idle? ==> states[i].handlers[h].cancelled
  {
    InvAlways(states, steps, i);
    assert states[i].handlers[h].cancelled || Live(states[i], h);
  }

  /** No server is shut down under a publish in flight, and none is shut down before
      every subscriber on it was cancelled. */
  lemma ShutDownServersAreQuiet(states: seq<State>, steps: seq<Step>, i: nat)
    requires Execution(states, steps) && i < |states|
    ensures forall p :: p in states[i].publishers ==>
              && states[i].server == Some(states[i].publishers[p].server)
              && states[i].publishers[p].server !in states[i].shutDown
    ensures forall h :: h in states[i].handlers && states[i].handlers[h].phase.Serving?
                        && states[i].handlers[h].phase.server in states[i].shutDown ==>
              states[i].handlers[h].cancelled
  {
    InvAlways(states, steps, i);
    forall h | h in states[i].handlers
      ensures Live(states[i], h) ==> Listed(states[i], h) || h in states[i].Pending()
    {
    }
  }

  /** A late cleanup deletes by its captured key: it leaves its subscriber cancelled and
      unlisted, and never removes somebody else's entry, however many Resets lie in
      between. */
  lemma CleanupRemovesOnlyItsOwn(states: seq<State>, steps: seq<Step>, i: nat, h: nat)
    requires Execution(states, steps) && i < |steps| && steps[i] == Unregister(h)
    ensures var s, t := states[i], states[i + 1];
            && t.handlers[h].cancelled && h !in t.ActiveHandlers()
            && forall k :: k in s.active && s.active[k] != h ==> k in t.active && t.active[k] == s.active[k]
  {
    InvAlways(states, steps, i);
    InvAlways(states, steps, i + 1);
  }

  lemma IntervalSize(lo: nat, hi: nat, ks: set<nat>)
    requires lo <= hi && forall k :: k in ks ==> lo <= k < hi
    ensures |ks| <= hi - lo
    decreases hi
  {
    if lo < hi {
      IntervalSize(lo, hi - 1, ks - {hi - 1});
    } else {
      assert ks == {};
    }
  }

  function Connects(steps: seq<Step>): nat {
    if steps == [] then 0
    else
      var last := steps[|steps| - 1];
      if last.TakeActive? then 0
      else Connects(steps[..|steps| - 1]) + if last.Register? then 1 else 0
  }

  lemma {:induction false} TotalCountsConnects(states: seq<State>, steps: seq<Step>, i: nat)
    requires Execution(states, steps) && i < |states|
    ensures states[i].totalSubs == Connects(steps[..i])
  {
    if i > 0 {
      TotalCountsConnects(states, steps, i - 1);
      assert steps[..i][..i - 1] == steps[..i - 1];
      TotalStep(states[i - 1], steps[i - 1]);
    }
  }

  /** totalSubs is the number of connects since the last drain, the active count never
      exceeds it, and only subscribers that have not cleaned up are counted. */
  lemma CountersAgree(states: seq<State>, steps: seq<Step>, i: nat)
    requires Execution(states, steps) && i < |states|
    ensures states[i].totalSubs == Connects(steps[..i])
    ensures |states[i].active| <= states[i].totalSubs
    ensures forall h :: h in states[i].ActiveHandlers() ==>
              h in states[i].handlers && !states[i].handlers[h].phase.Finished?
  {
    TotalCountsConnects(states, steps, i);
    InvAlways(states, steps, i);
    ActiveWithinTotal(states[i]);
  }

  lemma ActiveWithinTotal(s: State)
    requires CountInv(s)
    ensures |s.active| <= s.totalSubs
  {
    assert |s.active| == |s.active.Keys|;
    IntervalSize(s.windowStart, s.nextSub, s.active.Keys);
  }

  lemma TotalStep(s: State, step: Step)
    requires Enabled(s, step)
    ensures Next(s, step).totalSubs == if step.TakeActive? then 0 else s.totalSubs + if step.Register? then 1 else 0
  {
  }

  /** When an error publish has finished closing, every subscriber that was registered
      and uncancelled when it took its snapshot has been cancelled, or belongs to a drain
      in progress at that moment. */
  lemma ErrorClosesEveryone(states: seq<State>, steps: seq<Step>, i: nat, j: nat, p: nat, h: nat)
    requires Execution(states, steps) && i < j < |steps|
    requires steps[i] == ErrorSnapshot(p) && steps[j] == PublishEnd(p)
    requires forall m :: i < m < j ==> steps[m] != PublishEnd(p)
    requires Live(states[i], h) && h !in states[i].Pending()
    ensures h in states[j].handlers && states[j].handlers[h].cancelled
  {
    InvAlways(states, steps, i);
    assert Listed(states[i], h);
    assert states[i].active[states[i].handlers[h].id] == h;
    SnapshotStays(states, steps, i, j, p);
    InvAlways(states, steps, j);
  }

  lemma {:induction false} SnapshotStays(states: seq<State>, steps: seq<Step>, i: nat, j: nat, p: nat)
    requires Execution(states, steps) && i < j < |states| && steps[i] == ErrorSnapshot(p)
    requires forall m :: i < m < j ==> steps[m] != PublishEnd(p)
    ensures p in states[j].publishers && states[j].publishers[p].Closing?
    ensures states[j].publishers[p].snapshot == states[i].ActiveHandlers()
    decreases j
  {
    if i + 1 < j {
      SnapshotStays(states, steps, i, j - 1, p);
    }
  }

  /** The guards of Enabled that only keep its expressions well defined never block a
      reachable step. */
  lemma GuardsNeverBlock(states: seq<State>, steps: seq<Step>, i: nat)
    requires Execution(states, steps) && i < |states|
    ensures states[i].lifecycle.Taken? ==> states[i].server.Some?
    ensures states[i].Pending() <= states[i].handlers.Keys
    ensures !states[i].closed ==> states[i].server.Some?
  {
    InvAlways(states, steps, i);
  }

  /** A Reset puts a server in place that nobody has ever held, retires the old one and
      leaves the hub open; a Shutdown leaves none. */
  lemma SwapOutcome(states: seq<State>, steps: seq<Step>, i: nat)
    requires Execution(states, steps) && i < |steps| && steps[i] == Swap
    ensures var s, t := states[i], states[i + 1];
            && s.server.Some? && t.retired == s.retired + {s.server.value}
            && t.closed == (s.lifecycle.kind == Shutdown)
            && (s.lifecycle.kind == Reset ==>
                  && t.server.Some? && t.server.value !in t.retired
                  && forall h :: h in t.handlers ==> t.handlers[h].phase != Serving(t.server.value))
  {
    InvAlways(states, steps, i);
    assert ServingInv(states[i]);
  }

  /** Shutdown is final: from then on nothing is published and no server comes back. */
  lemma ClosedForever(states: seq<State>, steps: seq<Step>, i: nat, j: nat)
    requires Execution(states, steps) && i <= j < |states| && states[i].closed
    ensures states[j].closed && states[j].server.None? && states[j].publishers == map[]
  {
    ClosedStays(states, steps, i, j);
    ServersAlways(states, steps, j);
    NothingInFlight(states[j]);
  }

  lemma {:induction false} ClosedStays(states: seq<State>, steps: seq<Step>, i: nat, j: nat)
    requires Execution(states, steps) && i <= j < |states| && states[i].closed
    ensures states[j].closed
    decreases j
  {
    if i < j {
      ClosedStays(states, steps, i, j - 1);
      ClosedOneMore(states, steps, j - 1);
    }
  }

  lemma ClosedOneMore(states: seq<State>, steps: seq<Step>, k: nat)
    requires Execution(states, steps) && k < |steps| && states[k].closed
    ensures states[k + 1].closed
  {
    ServersAlways(states, steps, k);
    StepStaysClosed(states[k], steps[k], states[k + 1]);
  }

  lemma ServersAlways(states: seq<State>, steps: seq<Step>, i: nat)
    requires Execution(states, steps) && i < |states|
    ensures ServersInv(states[i]) && PublishersInv(states[i])
  {
    InvAlways(states, steps, i);
  }

  lemma NothingInFlight(s: State)
    requires ServersInv(s) && PublishersInv(s) && s.closed
    ensures s.server.None? && s.publishers == map[]
  {
    assert s.publishers.Keys == {};
  }

  lemma StepStaysClosed(s: State, step: Step, t: State)
    requires ServersInv(s) && s.closed && Enabled(s, step) && t == Next(s, step)
    ensures t.closed
  {
  }

  // ------------------------------------------------------------ what each call achieves

  /** A subscriber that connects is put on the hub's current server, and turned away only
      when the hub is closed. */
  lemma ConnectServes(states: seq<State>, steps: seq<Step>, i: nat, h: nat)
    requires Execution(states, steps) && i < |steps| && steps[i] == ReadServer(h)
    ensures h in states[i + 1].handlers
    ensures var p := states[i + 1].handlers[h].phase;
            if states[i].closed then p == Leaving
            else states[i].server.Some? && p == Serving(states[i].server.value)
  {
    ServersAlways(states, steps, i);
  }

  /** It stays on that server until its own stream ends, whoever swaps servers meanwhile. */
  lemma {:induction false} StaysOnItsServer(states: seq<State>, steps: seq<Step>, i: nat, j: nat, h: nat)
    requires Execution(states, steps) && i <= j < |states| && h in states[i].handlers
    requires states[i].handlers[h].phase.Serving? && forall m :: i <= m < j ==> steps[m] != EndServing(h)
    ensures h in states[j].handlers && states[j].handlers[h].phase == states[i].handlers[h].phase
    decreases j
  {
    if i < j {
      StaysOnItsServer(states, steps, i, j - 1, h);
      StepKeepsServing(states[j - 1], steps[j - 1], h);
    }
  }

  lemma StepKeepsServing(s: State, step: Step, h: nat)
    requires h in s.handlers && s.handlers[h].phase.Serving? && Enabled(s, step) && step != EndServing(h)
    ensures h in Next(s, step).handlers && Next(s, step).handlers[h].phase == s.handlers[h].phase
  {
  }

  lemma {:induction false} ServerStays(states: seq<State>, steps: seq<Step>, i: nat, j: nat)
    requires Execution(states, steps) && i <= j < |states| && forall m :: i <= m < j ==> steps[m] != Swap
    ensures states[j].server == states[i].server
    decreases j
  {
    if i < j {
      ServerStays(states, steps, i, j - 1);
      OnlySwapMovesServer(states[j - 1], steps[j - 1]);
    }
  }

  lemma OnlySwapMovesServer(s: State, step: Step)
    requires Enabled(s, step) && step != Swap
    ensures Next(s, step).server == s.server
  {
  }

  /** So a connected subscriber is on the current server until a lifecycle call swaps it. */
  lemma ConnectedIsCurrent(states: seq<State>, steps: seq<Step>, i: nat, j: nat, h: nat)
    requires Execution(states, steps) && i < j < |states| && steps[i] == ReadServer(h) && !states[i].closed
    requires forall m :: i < m < j ==> steps[m] != EndServing(h) && steps[m] != Swap
    ensures h in states[j].handlers && states[j].server.Some?
    ensures states[j].handlers[h].phase == Serving(states[j].server.value)
  {
    ConnectServes(states, steps, i, h);
    StaysOnItsServer(states, steps, i + 1, j, h);
    OnlySwapMovesServer(states[i], steps[i]);
    ServerStays(states, steps, i + 1, j);
  }

  /** A subscriber whose stream is over can always clean up, and is then off the list. */
  lemma LeavingCanFinish(s: State, h: nat)
    requires KeysInv(s) && InPhase(s, h, Leaving)
    ensures Enabled(s, CancelSelf(h)) && Enabled(Next(s, CancelSelf(h)), Unregister(h))
    ensures var t := Next(Next(s, CancelSelf(h)), Unregister(h));
            t.handlers[h] == Handler(s.handlers[h].id, Finished, true) && h !in t.ActiveHandlers()
  {
    var t := Next(Next(s, CancelSelf(h)), Unregister(h));
    forall k | k in t.active
      ensures t.active[k] != h
    {
      assert s.handlers[s.active[k]].id == k;
    }
  }

  predicate CancelsHandler(step: Step, h: nat) {
    step == CancelSelf(h) || step == CancelPending(h) || (step.ErrorCancel? && step.h == h)
  }

  /** Nobody is cancelled without a cause: its own leaving, a drain that took it, or an error
      publish. */
  lemma {:induction false} CancelHasACause(states: seq<State>, steps: seq<Step>, j: nat, h: nat) returns (i: nat)
    requires Execution(states, steps) && j < |states| && h in states[j].handlers && states[j].handlers[h].cancelled
    ensures i < j && CancelsHandler(steps[i], h)
    decreases j
  {
    CancelStep(states[j - 1], steps[j - 1], h);
    if CancelsHandler(steps[j - 1], h) {
      i := j - 1;
    } else {
      i := CancelHasACause(states, steps, j - 1, h);
    }
  }

  lemma CancelStep(s: State, step: Step, h: nat)
    requires Enabled(s, step) && h in Next(s, step).handlers && Next(s, step).handlers[h].cancelled
    ensures CancelsHandler(step, h) || (h in s.handlers && s.handlers[h].cancelled)
  {
  }

  /** A publish is in flight on the server it started on until it ends, and that server is
      the current one all the while. */
  lemma {:induction false} PublishKeepsItsServer(states: seq<State>, steps: seq<Step>, i: nat, j: nat, p: nat)
    requires Execution(states, steps) && i < j < |states| && steps[i].PublishStart? && steps[i].p == p
    requires forall m :: i < m < j ==> steps[m] != PublishEnd(p)
    ensures states[i].server.Some? && states[j].server == states[i].server
    ensures p in states[j].publishers && states[j].publishers[p].server == states[i].server.value
    ensures states[j].publishers[p].Closing? || states[j].publishers[p].isError == steps[i].isError
    decreases j
  {
    if i + 1 < j {
      PublishKeepsItsServer(states, steps, i, j - 1, p);
      PublishStep(states[j - 1], steps[j - 1], p);
      ServersAlways(states, steps, j);
    }
  }

  lemma PublishStep(s: State, step: Step, p: nat)
    requires Enabled(s, step) && p in s.publishers && step != PublishEnd(p)
    ensures p in Next(s, step).publishers
    ensures var a, b := s.publishers[p], Next(s, step).publishers[p];
            b.server == a.server && (b.Publishing? ==> a.Publishing? && b.isError == a.isError)
  {
  }

  /** Reset and Shutdown go through once they get the lock, and give up only on a closed hub. */
  lemma LockOutcome(states: seq<State>, steps: seq<Step>, i: nat)
    requires Execution(states, steps) && i < |steps| && steps[i] == LockMu
    ensures states[i + 1].lifecycle == if states[i].closed then Idle else Locked(states[i].lifecycle.kind)
    ensures !states[i].closed ==> Enabled(states[i + 1], TakeActive)
    ensures !states[i].closed ==> Enabled(Next(states[i + 1], TakeActive), Swap)
  {
    ServersAlways(states, steps, i);
  }

  /** Once no lifecycle call is in progress every server ever retired has been shut down. */
  lemma RetiredAreShutDown(states: seq<State>, steps: seq<Step>, i: nat)
    requires Execution(states, steps) && i < |states|
    ensures states[i].shutDown <= states[i].retired
    ensures !states[i].lifecycle.Draining? ==> states[i].retired == states[i].shutDown
  {
    InvAlways(states, steps, i);
  }

  /** The drain has cancelled this subscriber, or is about to. */
  predicate Drained(s: State, h: nat) {
    h in s.handlers && (s.handlers[h].cancelled || h in s.Pending())
  }

  lemma DrainedStep(s: State, step: Step, h: nat)
    requires Enabled(s, step) && Drained(s, h) && (s.lifecycle.Taken? || s.lifecycle.Draining?) && step != ShutDownOld
    ensures Drained(Next(s, step), h) && (Next(s, step).lifecycle.Taken? || Next(s, step).lifecycle.Draining?)
  {
  }

  lemma {:induction false} TakenAreDrained(states: seq<State>, steps: seq<Step>, i: nat, j: nat, h: nat)
    requires Execution(states, steps) && i < j < |states| && steps[i] == TakeActive
    requires h in states[i].ActiveHandlers() && forall m :: i < m < j ==> steps[m] != ShutDownOld
    ensures Drained(states[j], h) && (states[j].lifecycle.Taken? || states[j].lifecycle.Draining?)
    decreases j
  {
    if i + 1 == j {
      InvAlways(states, steps, i);
      TakeActiveDrains(states[i], h);
    } else {
      TakenAreDrained(states, steps, i, j - 1, h);
      DrainedStep(states[j - 1], steps[j - 1], h);
    }
  }

  lemma TakeActiveDrains(s: State, h: nat)
    requires KeysInv(s) && Enabled(s, TakeActive) && h in s.ActiveHandlers()
    ensures Drained(Next(s, TakeActive), h) && Next(s, TakeActive).lifecycle.Taken?
  {
  }

  /** When a Reset or Shutdown is over, every subscriber that was listed when it began has
      been cancelled, whether or not it had reached a server yet. */
  lemma DrainCancelsEveryone(states: seq<State>, steps: seq<Step>, i: nat, j: nat, h: nat)
    requires Execution(states, steps) && i < j < |steps| && steps[i] == TakeActive && steps[j] == ShutDownOld
    requires h in states[i].ActiveHandlers() && forall m :: i < m < j ==> steps[m] != ShutDownOld
    ensures h in states[j].handlers && states[j].handlers[h].cancelled
  {
    TakenAreDrained(states, steps, i, j, h);
  }
}
