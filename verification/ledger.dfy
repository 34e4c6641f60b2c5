/** The SDK's verification ledger (pkg/auth0mock/client.go:69-208,
    pkg/auth0mock/expectations.go:203-267): the handles Add returned, a count of those not
    verified yet, and a sticky flag that a Reset wiped some of them. */
module Ledger {
  import opened Prelude
  import opened Lists

  datatype Constraint = Unset | Exactly(n: int) | AtLeast(n: int) | AtMost(n: int)

  predicate Satisfied(c: Constraint, actual: int) {
    match c
    case Unset => true
    case Exactly(n) => actual == n
    case AtLeast(n) => actual >= n
    case AtMost(n) => actual <= n
  }

  predicate TooFew(c: Constraint, actual: int) {
    match c
    case Exactly(n) => actual < n
    case AtLeast(n) => actual < n
    case _ => false
  }

  /** A violation is too few hits exactly when more hits could still repair it. */
  lemma TooFewIsRepairable(c: Constraint, actual: int)
    ensures TooFew(c, actual) <==> !Satisfied(c, actual) && exists more :: more > actual && Satisfied(c, more)
  {
    if TooFew(c, actual) {
      assert Satisfied(c, c.n);
    }
  }

  /** The three constraints fit together: Exactly is both bounds at once, AtLeast is met from
      n on and AtMost up to n. */
  lemma BoundsAreTight(n: int, a: int, b: int)
    requires a <= b
    ensures Satisfied(Exactly(n), a) <==> Satisfied(AtLeast(n), a) && Satisfied(AtMost(n), a)
    ensures Satisfied(AtLeast(n), a) ==> Satisfied(AtLeast(n), b)
    ensures Satisfied(AtMost(n), b) ==> Satisfied(AtMost(n), a)
    ensures Satisfied(AtLeast(n), n) && !Satisfied(AtLeast(n), n - 1)
    ensures Satisfied(AtMost(n), n) && !Satisfied(AtMost(n), n + 1) && Satisfied(Unset, a)
  {
  }

  datatype Handle = Handle(id: string, verb: string, path: string, expected: Constraint)

  function OtherID(id: string): Handle -> bool {
    (h: Handle) => h.id != id
  }

  function OtherOp(verb: string, path: string): Handle -> bool {
    (h: Handle) => !EqualFold(h.verb, verb) || h.path != path
  }

  /** Clear keeps every handle but those with its id, ClearOp every handle but those of its
      path and, in whatever case, its method. */
  lemma ClearedIff(s: seq<Handle>, id: string, verb: string, path: string, h: Handle)
    ensures h in Filtered(s, OtherID(id)) <==> h in s && h.id != id
    ensures h in Filtered(s, OtherOp(verb, path)) <==> h in s && !(h.path == path && EqualFold(h.verb, verb))
  {
    FilteredHas(s, OtherID(id));
    FilteredHas(s, OtherOp(verb, path));
  }

  // ------------------------------------------------------------------ the step system

  /** `registered` and `pending` change together under registeredMu; Verify takes the flag,
      snapshots the ledger and zeroes `pending` in three separate steps. */
  datatype State = State(registered: seq<Handle>, pending: int, flag: bool, verifying: map<nat, Verification>)

  datatype Verification = Began(flag: bool) | EmptyLedger(orderingError: bool) | Checking(tracked: seq<Handle>) | Done

  datatype Step =
    | Track(h: Handle)
    | Untrack(keep: Handle -> bool)        // Clear on one handle, or ClearOp
    | UntrackAll
    | Reset
    | TakeFlag(v: nat)
    | Snapshot(v: nat)
    | Finish(v: nat)

  const INITIAL := State([], 0, false, map[])

  function Decremented(pending: int, n: int): int {
    if n <= 0 || pending == 0 then pending else if pending - n < 0 then 0 else pending - n
  }

  predicate Enabled(s: State, step: Step) {
    match step
    case TakeFlag(v) => v !in s.verifying
    case Snapshot(v) => v in s.verifying && s.verifying[v].Began?
    case Finish(v) => v in s.verifying && s.verifying[v].Checking?
    case _ => true
  }

  function Next(s: State, step: Step): State
    requires Enabled(s, step)
  {
    match step
    case Track(h) => s.(registered := s.registered + [h], pending := s.pending + 1)
    case Untrack(keep) =>
      var kept := Filtered(s.registered, keep);
      s.(registered := kept, pending := Decremented(s.pending, |s.registered| - |kept|))
    case UntrackAll => s.(registered := [], pending := 0)
    case Reset => s.(registered := [], pending := 0, flag := s.flag || s.pending > 0)
    case TakeFlag(v) => s.(flag := false, verifying := s.verifying[v := Began(s.flag)])
    case Snapshot(v) =>
      var found := if s.registered == [] then EmptyLedger(s.verifying[v].flag) else Checking(s.registered);
      s.(verifying := s.verifying[v := found])
    case Finish(v) => s.(pending := 0, verifying := s.verifying[v := Done])
  }

  ghost predicate Execution(states: seq<State>, steps: seq<Step>) {
    && |states| == |steps| + 1
    && states[0] == INITIAL
    && forall i :: 0 <= i < |steps| ==> Enabled(states[i], steps[i]) && states[i + 1] == Next(states[i], steps[i])
  }

  // --------------------------------------------------------------- what the counter is

  /** The steps that set the counter to zero. */
  predicate Zeroes(step: Step) {
    step.Finish? || step.Reset? || step.UntrackAll?
  }

  /** No Verify finished, and neither Reset nor a full Clear ran, between states k and i. */
  predicate Window(steps: seq<Step>, k: nat, i: nat) {
    k <= i <= |steps| && forall m :: k <= m < i ==> !Zeroes(steps[m])
  }

  /** The ledger at state k is as short as at any state of the window that ends at i. */
  ghost predicate Lowest(states: seq<State>, steps: seq<Step>, k: nat, i: nat)
    requires |states| == |steps| + 1
  {
    && Window(steps, k, i)
    && forall m: nat :: Window(steps, m, i) ==> |states[k].registered| <= |states[m].registered|
  }

  /** The counter is the rise of the ledger: how much longer it is now than it was at its
      shortest since the last Verify finished, or the last Reset or full Clear. */
  lemma {:induction false} PendingIsTheRise(states: seq<State>, steps: seq<Step>, i: nat) returns (k: nat)
    requires Execution(states, steps) && i < |states|
    ensures Lowest(states, steps, k, i)
    ensures states[i].pending == |states[i].registered| - |states[k].registered|
  {
    if i == 0 || Zeroes(steps[i - 1]) {
      k := i;
    } else {
      var low := PendingIsTheRise(states, steps, i - 1);
      RiseStep(states[i - 1], steps[i - 1], |states[low].registered|);
      k := if |states[low].registered| <= |states[i].registered| then low else i;
      forall m | Window(steps, m, i)
        ensures m == i || Window(steps, m, i - 1)
      {
      }
    }
  }

  lemma RiseStep(s: State, step: Step, low: nat)
    requires Enabled(s, step) && !Zeroes(step) && low <= |s.registered| && s.pending == |s.registered| - low
    ensures var t := Next(s, step);
            t.pending == if low <= |t.registered| then |t.registered| - low else 0
  {
    if step.Untrack? {
      FilteredIsShorter(s.registered, step.keep);
    }
  }

  /** The ledger was empty at some moment of the window. */
  ghost predicate WasEmpty(states: seq<State>, steps: seq<Step>, i: nat)
    requires |states| == |steps| + 1
  {
    exists k: nat :: Window(steps, k, i) && states[k].registered == []
  }

  /** No Verify has finished since construction, or since the ledger was last emptied by
      Reset or by clearing everything. */
  predicate Unverified(steps: seq<Step>) {
    steps == []
    || (var last := steps[|steps| - 1];
        last.Reset? || last.UntrackAll? || (!last.Finish? && Unverified(steps[..|steps| - 1])))
  }

  lemma {:induction false} UnverifiedWasEmpty(states: seq<State>, steps: seq<Step>, i: nat) returns (k: nat)
    requires Execution(states, steps) && i < |states| && Unverified(steps[..i])
    ensures Window(steps, k, i) && states[k].registered == []
  {
    k := i;
    if i > 0 {
      assert steps[..i][..i - 1] == steps[..i - 1];
      if !steps[i - 1].Reset? && !steps[i - 1].UntrackAll? {
        k := UnverifiedWasEmpty(states, steps, i - 1);
      }
    }
  }

  /** The counter never exceeds the ledger, and it is the ledger's length exactly when the
      ledger was empty at some moment since it was last zeroed. So it always is while no
      Verify has finished since construction or the last Reset. */
  lemma PendingCountsTheLedger(states: seq<State>, steps: seq<Step>, i: nat)
    requires Execution(states, steps) && i < |states|
    ensures 0 <= states[i].pending <= |states[i].registered|
    ensures states[i].pending == |states[i].registered| <==> WasEmpty(states, steps, i)
    ensures Unverified(steps[..i]) ==> states[i].pending == |states[i].registered|
  {
    var k := PendingIsTheRise(states, steps, i);
    assert Window(steps, i, i);
    if Unverified(steps[..i]) {
      var m := UnverifiedWasEmpty(states, steps, i);
    }
  }

  // --------------------------------------------- handles tracked since the last Verify

  /** The ledger in two parts: what was there when the counter was last zeroed, and what
      was tracked since. */
  datatype Parts = Parts(earlier: seq<Handle>, later: seq<Handle>)

  function Split(steps: seq<Step>): Parts {
    if steps == [] then Parts([], [])
    else
      var p := Split(steps[..|steps| - 1]);
      match steps[|steps| - 1]
      case Track(h) => p.(later := p.later + [h])
      case Untrack(keep) => Parts(Filtered(p.earlier, keep), Filtered(p.later, keep))
      case UntrackAll => Parts([], [])
      case Reset => Parts([], [])
      case Finish(_) => Parts(p.earlier + p.later, [])
      case _ => p
  }

  lemma {:induction false} SplitIsLedger(states: seq<State>, steps: seq<Step>, i: nat)
    requires Execution(states, steps) && i < |states|
    ensures states[i].registered == Split(steps[..i]).earlier + Split(steps[..i]).later
  {
    if i > 0 {
      SplitIsLedger(states, steps, i - 1);
      assert steps[..i][..i - 1] == steps[..i - 1];
      var p := Split(steps[..i - 1]);
      if steps[i - 1].Untrack? {
        FilteredConcat(p.earlier, p.later, steps[i - 1].keep);
      }
    }
  }

  lemma {:induction false} EarlierOnlyShrink(steps: seq<Step>, k: nat, i: nat)
    requires Window(steps, k, i)
    ensures |Split(steps[..i]).earlier| <= |Split(steps[..k]).earlier|
    decreases i
  {
    if k < i {
      EarlierOnlyShrink(steps, k, i - 1);
      assert steps[..i][..i - 1] == steps[..i - 1];
      if steps[i - 1].Untrack? {
        FilteredIsShorter(Split(steps[..i - 1]).earlier, steps[i - 1].keep);
      }
    }
  }

  /** At some moment of the window the ledger held earlier handles only, and none of those
      has been cleared since. */
  ghost predicate EarlierUntouched(steps: seq<Step>, i: nat)
    requires i <= |steps|
  {
    exists k: nat :: Window(steps, k, i) && Split(steps[..k]).later == []
                     && |Split(steps[..k]).earlier| == |Split(steps[..i]).earlier|
  }

  /** The counter never exceeds the number of handles tracked since it was last zeroed, and
      it is that number exactly when no earlier handle was cleared while a later one
      stayed. */
  lemma PendingCountsTheLater(states: seq<State>, steps: seq<Step>, i: nat)
    requires Execution(states, steps) && i < |states|
    ensures states[i].pending <= |Split(steps[..i]).later|
    ensures states[i].pending == |Split(steps[..i]).later| <==> EarlierUntouched(steps, i)
  {
    var k := PendingIsTheRise(states, steps, i);
    SplitIsLedger(states, steps, i);
    SplitIsLedger(states, steps, k);
    EarlierOnlyShrink(steps, k, i);
    if EarlierUntouched(steps, i) {
      var m: nat :| Window(steps, m, i) && Split(steps[..m]).later == []
                    && |Split(steps[..m]).earlier| == |Split(steps[..i]).earlier|;
      SplitIsLedger(states, steps, m);
    }
  }

  /** The later handles were tracked within the window. */
  lemma {:induction false} LaterWereTracked(steps: seq<Step>, i: nat, h: Handle) returns (m: nat)
    requires i <= |steps| && h in Split(steps[..i]).later
    ensures m < i && steps[m] == Track(h) && Window(steps, m, i)
  {
    assert steps[..i][..i - 1] == steps[..i - 1];
    var p := Split(steps[..i - 1]);
    if h in p.later {
      m := LaterWereTracked(steps, i - 1, h);
    } else {
      if steps[i - 1].Untrack? {
        FilteredHas(p.later, steps[i - 1].keep);
      }
      m := i - 1;
    }
  }

  // ---------------------------------------------------- the cleanup-ordering safety net

  /** The ledger is longer now than it was at some moment since the last Verify, Reset or
      full Clear. A caller can tell from its own Adds and Clears. */
  ghost predicate Rose(states: seq<State>, steps: seq<Step>, i: nat)
    requires |states| == |steps| + 1 && i < |states|
  {
    exists k: nat :: Window(steps, k, i) && |states[k].registered| < |states[i].registered|
  }

  lemma PendingIffRose(states: seq<State>, steps: seq<Step>, i: nat)
    requires Execution(states, steps) && i < |states|
    ensures states[i].pending > 0 <==> Rose(states, steps, i)
  {
    var k := PendingIsTheRise(states, steps, i);
  }

  predicate NoTake(steps: seq<Step>, i: nat, j: nat) {
    forall k :: i <= k < j && k < |steps| ==> !steps[k].TakeFlag?
  }

  /** A Reset that hit a ledger which had risen, with no Verify taking the flag since. */
  ghost predicate UnseenWipe(states: seq<State>, steps: seq<Step>, i: nat, j: nat)
    requires |states| == |steps| + 1
  {
    i < j < |states| && steps[i] == Reset && Rose(states, steps, i) && NoTake(steps, i + 1, j)
  }

  lemma FlagStep(states: seq<State>, steps: seq<Step>, j: nat)
    requires Execution(states, steps) && j < |steps|
    ensures states[j + 1].flag
            <==> (states[j].flag && !steps[j].TakeFlag?) || (steps[j] == Reset && Rose(states, steps, j))
  {
    PendingIffRose(states, steps, j);
  }

  lemma {:induction false} WipeRaisesFlag(states: seq<State>, steps: seq<Step>, i: nat, j: nat)
    requires Execution(states, steps) && UnseenWipe(states, steps, i, j)
    ensures states[j].flag
    decreases j
  {
    if i < j - 1 {
      WipeRaisesFlag(states, steps, i, j - 1);
    }
    FlagStep(states, steps, j - 1);
  }

  lemma {:induction false} FlagNeedsWipe(states: seq<State>, steps: seq<Step>, j: nat) returns (i: nat)
    requires Execution(states, steps) && j < |states| && states[j].flag
    ensures UnseenWipe(states, steps, i, j)
    decreases j
  {
    FlagStep(states, steps, j - 1);
    if steps[j - 1] == Reset && Rose(states, steps, j - 1) {
      i := j - 1;
    } else {
      i := FlagNeedsWipe(states, steps, j - 1);
    }
  }

  /** The flag is up exactly when there was such a Reset. */
  lemma FlagIff(states: seq<State>, steps: seq<Step>, j: nat)
    requires Execution(states, steps) && j < |states|
    ensures states[j].flag <==> exists i: nat :: UnseenWipe(states, steps, i, j)
  {
    if states[j].flag {
      var i := FlagNeedsWipe(states, steps, j);
    } else if i: nat :| UnseenWipe(states, steps, i, j) {
      WipeRaisesFlag(states, steps, i, j);
    }
  }

  lemma {:induction false} BeganWaits(states: seq<State>, steps: seq<Step>, j: nat, k: nat, v: nat)
    requires Execution(states, steps) && j < k < |states| && steps[j] == TakeFlag(v)
    requires forall m :: j < m < k ==> steps[m] != Snapshot(v)
    ensures v in states[k].verifying && states[k].verifying[v] == Began(states[j].flag)
    decreases k
  {
    if j + 1 < k {
      BeganWaits(states, steps, j, k - 1, v);
    }
  }

  /** A Verify that finds the ledger empty reports the ordering error exactly when, since
      the flag was last taken, a Reset hit a ledger that had risen. */
  lemma OrderingErrorIff(states: seq<State>, steps: seq<Step>, j: nat, k: nat, v: nat)
    requires Execution(states, steps) && j < k < |steps|
    requires steps[j] == TakeFlag(v) && steps[k] == Snapshot(v) && (forall m :: j < m < k ==> steps[m] != Snapshot(v))
    requires states[k].registered == []
    ensures v in states[k + 1].verifying && states[k + 1].verifying[v].EmptyLedger?
    ensures states[k + 1].verifying[v].orderingError <==> exists i: nat :: UnseenWipe(states, steps, i, j)
  {
    FlagIff(states, steps, j);
    BeganWaits(states, steps, j, k, v);
  }

  /** A raised flag has a cause: a Reset that dropped a handle tracked since the counter was
      last zeroed. So retracting every new constraint before Reset raises nothing. */
  lemma FlagHasACause(states: seq<State>, steps: seq<Step>, j: nat) returns (i: nat, m: nat, h: Handle)
    requires Execution(states, steps) && j < |states| && states[j].flag
    ensures m < i < j && steps[i] == Reset && NoTake(steps, i + 1, j)
    ensures steps[m] == Track(h) && Window(steps, m, i) && h in states[i].registered
  {
    FlagIff(states, steps, j);
    i :| UnseenWipe(states, steps, i, j);
    PendingIffRose(states, steps, i);
    PendingCountsTheLater(states, steps, i);
    SplitIsLedger(states, steps, i);
    h := Split(steps[..i]).later[0];
    m := LaterWereTracked(steps, i, h);
  }

  /** A Reset that drops a non-empty ledger no Verify has finished on is always noticed. */
  lemma WipedConstraintsAreReported(states: seq<State>, steps: seq<Step>, i: nat, j: nat, k: nat, v: nat)
    requires Execution(states, steps) && i < j < k < |steps|
    requires steps[i] == Reset && states[i].registered != [] && WasEmpty(states, steps, i)
    requires steps[j] == TakeFlag(v) && NoTake(steps, i + 1, j)
    requires steps[k] == Snapshot(v) && (forall m :: j < m < k ==> steps[m] != Snapshot(v))
    requires states[k].registered == []
    ensures states[k + 1].verifying[v] == EmptyLedger(true)
  {
    assert UnseenWipe(states, steps, i, j);
    OrderingErrorIff(states, steps, j, k, v);
  }

  // ---------------------------------------------------------- where the flag misleads

  /** Once a Verify has run the counter can undercount: clearing a verified handle takes
      one off for it, and a Reset then wipes an unverified one unnoticed. */
  lemma ClearedOldHandleHidesNewOne(a: Handle, b: Handle, s: State, t: State)
    requires a.id == "a" && b.id == "b"
    requires s == State([a, b], 1, false, map[0 := Done])
    requires t == Next(s, Untrack(OtherID("a")))
    ensures t.registered == [b] && t.pending == 0 && !Next(t, Reset).flag
  {
    OldOneGoes(a, b);
  }

  /** The state above is reached by Add a, a full Verify, Add b. */
  lemma UndercountIsReachable(a: Handle, b: Handle)
    ensures var s1 := Next(INITIAL, Track(a));
            var s2 := Next(Next(s1, TakeFlag(0)), Snapshot(0));
            Next(Next(s2, Finish(0)), Track(b)) == State([a, b], 1, false, map[0 := Done])
  {
    var s1 := Next(INITIAL, Track(a));
    assert s1.registered == [a];
    var s2 := Next(Next(s1, TakeFlag(0)), Snapshot(0));
    assert s2.verifying == map[0 := Checking([a])];
  }

  lemma OldOneGoes(a: Handle, b: Handle)
    requires a.id == "a" && b.id == "b"
    ensures Filtered([a, b], OtherID("a")) == [b]
  {
    var keep := OtherID("a");
    assert "a"[0] != "b"[0];
    assert [a, b][..1] == [a] && [a][..0] == [];
    assert Filtered([a], keep) == [];
  }

  /** Verify zeroes the counter without the lock and after its snapshot, so a handle added
      in between is neither checked nor counted, and a Reset wipes it unnoticed. */
  lemma AddDuringVerifyIsForgotten(a: Handle, b: Handle)
    ensures var s1 := Next(Next(Next(INITIAL, Track(a)), TakeFlag(0)), Snapshot(0));
            var s2 := Next(s1, Track(b));
            && s2.verifying[0] == Checking([a])
            && Next(s2, Finish(0)).registered == [a, b] && Next(s2, Finish(0)).pending == 0
            && !Next(Next(s2, Finish(0)), Reset).flag
  {
    assert Next(INITIAL, Track(a)).registered == [a];
  }

  /** A false alarm: a Reset that runs while a Verify still checks its snapshot raises the
      flag, although every handle it dropped is about to be checked, and the Verify that
      finishes leaves it up. */
  lemma ResetDuringVerifyRaisesFlag(a: Handle)
    ensures var s1 := Next(Next(Next(INITIAL, Track(a)), TakeFlag(0)), Snapshot(0));
            var s2 := Next(s1, Reset);
            s1.verifying[0] == Checking([a]) && Enabled(s2, Finish(0)) && Next(s2, Finish(0)).flag
  {
    assert Next(INITIAL, Track(a)).registered == [a];
  }
}
