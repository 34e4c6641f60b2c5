/** Concurrent use of the expectation store. Put, DeleteByID and the resets hold the
    store's lock for writing; a Find holds it for reading from its lookup until after its
    atomic counter increment (internal/matches/store.go:146-163), so any number of Finds
    interleave with one another but none with a writer. */
module Serving {
  import opened Prelude
  import opened Matching
  import opened Expectations

  /** One answered Find: the stub that served it and the hit number it got. */
  datatype Call = Call(exp: Expectation, hit: nat)

  /** `finding` maps the Finds holding the read lock to the stub they picked; `used` are
      the ids assigned so far; `log` lists the answered Finds in counter order. */
  datatype State = State(store: Store, finding: map<nat, Expectation>, used: set<string>, log: seq<Call>)

  const INITIAL := State(EMPTY, map[], {}, [])

  datatype Step =
    | PutStub(exp: Expectation, id: string)
    | DeleteStub(id: string)
    | ResetOne(kind: Kind, key: Key)
    | ResetEverything
    | Pick(f: nat, verb: string, path: string, opTemplate: string, req: Request)
    | Count(f: nat)

  predicate Enabled(s: State, step: Step) {
    match step
    case PutStub(_, id) => s.finding == map[] && id !in s.used   // uuids are fresh
    case DeleteStub(_) => s.finding == map[]
    case ResetOne(_, _) => s.finding == map[]
    case ResetEverything => s.finding == map[]
    case Pick(f, _, _, _, _) => f !in s.finding
    case Count(f) => f in s.finding
  }

  /** A Find that picked a stub without a counter would answer hit number 0. */
  function Bump(store: Store, id: string): (Store, nat) {
    if id in store.hits then (store.(hits := store.hits[id := store.hits[id] + 1]), store.hits[id] + 1)
    else (store, 0)
  }

  function Next(s: State, step: Step): State
    requires Enabled(s, step)
  {
    match step
    case PutStub(exp, id) => s.(store := Put(s.store, exp, id), used := s.used + {id})
    case DeleteStub(id) => s.(store := Delete(s.store, id))
    case ResetOne(kind, key) => s.(store := ResetEndpoint(s.store, kind, key))
    case ResetEverything => s.(store := ResetAll(s.store))
    case Pick(f, verb, path, opTemplate, req) =>
      var picked := Select(s.store, verb, path, opTemplate, req);
      if picked.None? then s else s.(finding := s.finding[f := picked.value])
    case Count(f) =>
      var (store, hit) := Bump(s.store, s.finding[f].id);
      s.(store := store, finding := s.finding - {f}, log := s.log + [Call(s.finding[f], hit)])
  }

  /** The answered calls of one expectation id, in order. */
  function CallsOf(log: seq<Call>, id: string): seq<Call> {
    if log == [] then []
    else CallsOf(log[..|log| - 1], id) + if log[|log| - 1].exp.id == id then [log[|log| - 1]] else []
  }

  // ------------------------------------------------------------------ the invariant

  /** The calls of one id are numbered 1, 2, 3, ... and all served by one stub. */
  ghost predicate Numbered(calls: seq<Call>) {
    && (forall i :: 0 <= i < |calls| ==> calls[i].hit == i + 1)
    && (forall i :: 0 <= i < |calls| ==> calls[i].exp == calls[0].exp)
  }

  ghost predicate LogInv(s: State, id: string) {
    && Numbered(CallsOf(s.log, id))
    && (id in s.store.hits ==> s.store.hits[id] == |CallsOf(s.log, id)|)
    && (id !in s.used ==> CallsOf(s.log, id) == [])
  }

  ghost predicate StubInv(s: State, e: Expectation) {
    s.store.Holds(e) ==> forall i :: 0 <= i < |CallsOf(s.log, e.id)| ==> CallsOf(s.log, e.id)[i].exp == e
  }

  ghost predicate StoreInv(s: State) {
    && Expectations.Inv(s.store)
    && s.store.hits.Keys <= s.used
    && (forall f :: f in s.finding ==> s.store.Holds(s.finding[f]))
  }

  ghost predicate LogsInv(s: State) {
    (forall id :: LogInv(s, id)) && (forall e :: StubInv(s, e))
  }

  ghost predicate Inv(s: State) {
    StoreInv(s) && LogsInv(s)
  }

  lemma BumpKeepsInv(store: Store, id: string)
    requires Expectations.Inv(store) && id in store.hits
    ensures Expectations.Inv(Bump(store, id).0)
    ensures forall e :: Bump(store, id).0.Holds(e) <==> store.Holds(e)
  {
    var t := Bump(store, id).0;
    forall e
      ensures t.Holds(e) <==> store.Holds(e)
    {
    }
    FewerKeepsInv(store, t);
  }

  lemma {:induction false} CallsOfAppend(log: seq<Call>, c: Call, id: string)
    ensures CallsOf(log + [c], id) == CallsOf(log, id) + if c.exp.id == id then [c] else []
  {
    assert (log + [c])[..|log + [c]| - 1] == log;
  }

  lemma NumberedAppend(calls: seq<Call>, c: Call)
    requires Numbered(calls) && c.hit == |calls| + 1 && (forall i :: 0 <= i < |calls| ==> calls[i].exp == c.exp)
    ensures Numbered(calls + [c])
  {
  }

  /** One more call of e, numbered by its counter. */
  lemma CountKeepsLog(s: State, t: State, e: Expectation, id: string)
    requires s.store.Holds(e) && e.id in s.store.hits && e.id in s.used && t.used == s.used
    requires LogInv(s, id) && StubInv(s, e)
    requires t.log == s.log + [Call(e, s.store.hits[e.id] + 1)]
    requires t.store.hits == s.store.hits[e.id := s.store.hits[e.id] + 1]
    ensures LogInv(t, id)
  {
    var c := Call(e, s.store.hits[e.id] + 1);
    CallsOfAppend(s.log, c, id);
    if id == e.id {
      NumberedAppend(CallsOf(s.log, id), c);
    }
  }

  lemma CountKeepsStub(s: State, t: State, e: Expectation, g: Expectation)
    requires s.store.Holds(e) && e.id in s.store.hits && StubInv(s, g)
    requires t.log == s.log + [Call(e, s.store.hits[e.id] + 1)]
    requires t.store.Holds(g) ==> s.store.Holds(g) && (g.id == e.id ==> g == e)
    ensures StubInv(t, g)
  {
    CallsOfAppend(s.log, Call(e, s.store.hits[e.id] + 1), g.id);
  }

  lemma CountKeepsLogs(s: State, t: State, e: Expectation)
    requires s.store.Holds(e) && e.id in s.store.hits && e.id in s.used && t.used == s.used
    requires LogsInv(s) && UniqueInv(s.store)
    requires t.log == s.log + [Call(e, s.store.hits[e.id] + 1)]
    requires t.store.hits == s.store.hits[e.id := s.store.hits[e.id] + 1]
    requires forall g :: t.store.Holds(g) ==> s.store.Holds(g)
    ensures LogsInv(t)
  {
    forall id
      ensures LogInv(t, id)
    {
      assert LogInv(s, id) && StubInv(s, e);
      CountKeepsLog(s, t, e, id);
    }
    forall g
      ensures StubInv(t, g)
    {
      assert StubInv(s, g);
      CountKeepsStub(s, t, e, g);
    }
  }

  lemma PickedHasCounter(s: State, f: nat)
    requires StoreInv(s) && f in s.finding
    ensures s.store.Holds(s.finding[f]) && s.finding[f].id in s.store.hits && s.finding[f].id in s.used
  {
  }

  /** What a Count step leaves of the state, without the log. */
  lemma CountEffect(s: State, f: nat)
    requires f in s.finding && s.finding[f].id in s.store.hits
    ensures var t, id := Next(s, Count(f)), s.finding[f].id;
            && t.store == s.store.(hits := s.store.hits[id := s.store.hits[id] + 1])
            && t.finding == s.finding - {f} && t.used == s.used
            && t.log == s.log + [Call(s.finding[f], s.store.hits[id] + 1)]
  {
  }

  lemma CountKeepsStore(s: State, t: State, id: string)
    requires StoreInv(s) && id in s.store.hits && t.used == s.used
    requires t.store == Bump(s.store, id).0
    requires forall f :: f in t.finding ==> f in s.finding && t.finding[f] == s.finding[f]
    ensures StoreInv(t)
  {
    BumpKeepsInv(s.store, id);
  }

  lemma CountedKeepsLogs(s: State, t: State, e: Expectation)
    requires s.store.Holds(e) && e.id in s.store.hits && e.id in s.used && t.used == s.used
    requires Expectations.Inv(s.store) && LogsInv(s)
    requires t.store == Bump(s.store, e.id).0 && t.log == s.log + [Call(e, s.store.hits[e.id] + 1)]
    ensures LogsInv(t)
  {
    BumpKeepsInv(s.store, e.id);
    CountKeepsLogs(s, t, e);
  }

  lemma CountKeepsStoreInv(s: State, f: nat)
    requires StoreInv(s) && f in s.finding
    ensures StoreInv(Next(s, Count(f)))
  {
    PickedHasCounter(s, f);
    CountEffect(s, f);
    CountKeepsStore(s, Next(s, Count(f)), s.finding[f].id);
  }

  lemma CountKeepsLogsInv(s: State, f: nat)
    requires StoreInv(s) && LogsInv(s) && f in s.finding
    ensures LogsInv(Next(s, Count(f)))
  {
    PickedHasCounter(s, f);
    CountEffect(s, f);
    CountedKeepsLogs(s, Next(s, Count(f)), s.finding[f]);
  }

  /** A Find counting its hit. */
  lemma CountKeepsInv(s: State, f: nat)
    requires Inv(s) && f in s.finding
    ensures Inv(Next(s, Count(f)))
  {
    CountKeepsStoreInv(s, f);
    CountKeepsLogsInv(s, f);
  }

  lemma PickKeepsInv(s: State, f: nat, verb: string, path: string, opTemplate: string, req: Request)
    requires Inv(s) && f !in s.finding
    ensures Inv(Next(s, Pick(f, verb, path, opTemplate, req)))
  {
    var step := Pick(f, verb, path, opTemplate, req);
    var t := Next(s, step);
    FindIsMaximal(s.store, verb, path, opTemplate, req);
    ListInv(s.store, Exact, Key(verb, path));
    ListInv(s.store, Template, Key(verb, opTemplate));
    SameCallsKeepLogInv(s, t);
  }

  /** Steps that answer nobody: what they leave of store and counters was there before. */
  lemma SameCallsKeepLogInv(s: State, t: State)
    requires Inv(s) && t.log == s.log && s.used <= t.used
    requires forall id :: id in t.store.hits ==>
               (id in s.store.hits && t.store.hits[id] == s.store.hits[id]) || (id !in s.used && t.store.hits[id] == 0)
    requires forall e :: t.store.Holds(e) ==> s.store.Holds(e) || e.id !in s.used
    ensures LogsInv(t)
  {
    forall id
      ensures LogInv(t, id)
    {
      assert LogInv(s, id);
    }
    forall e
      ensures StubInv(t, e)
    {
      assert StubInv(s, e) && LogInv(s, e.id);
    }
  }

  lemma PutStubKeepsInv(s: State, exp: Expectation, id: string)
    requires Inv(s) && s.finding == map[] && id !in s.used
    ensures Inv(Next(s, PutStub(exp, id)))
  {
    var t := Next(s, PutStub(exp, id));
    PutKeepsInv(s.store, exp, id);
    forall e | t.store.Holds(e)
      ensures s.store.Holds(e) || e.id !in s.used
    {
      PutHolds(s.store, exp, id, e);
    }
    SameCallsKeepLogInv(s, t);
  }

  lemma RemovalKeepsInv(s: State, step: Step)
    requires Inv(s) && Enabled(s, step) && (step.DeleteStub? || step.ResetOne? || step.ResetEverything?)
    ensures Inv(Next(s, step))
  {
    var t := Next(s, step);
    match step {
      case DeleteStub(id) =>
        DeleteKeepsInv(s.store, id);
        forall e | t.store.Holds(e) ensures s.store.Holds(e) { DeleteHolds(s.store, id, e); }
      case ResetOne(kind, key) =>
        ResetEndpointKeepsInv(s.store, kind, key);
        forall e | t.store.Holds(e) ensures s.store.Holds(e) { ResetEndpointHolds(s.store, kind, key, e); }
      case ResetEverything =>
    }
    SameCallsKeepLogInv(s, t);
  }

  lemma StepKeepsInv(s: State, step: Step)
    requires Inv(s) && Enabled(s, step)
    ensures Inv(Next(s, step))
  {
    match step {
      case PutStub(exp, id) => PutStubKeepsInv(s, exp, id);
      case Pick(f, verb, path, opTemplate, req) => PickKeepsInv(s, f, verb, path, opTemplate, req);
      case Count(f) => CountKeepsInv(s, f);
      case _ => RemovalKeepsInv(s, step);
    }
  }

  // ------------------------------------------------------------------- whole runs

  ghost predicate Execution(states: seq<State>, steps: seq<Step>) {
    && |states| == |steps| + 1
    && states[0] == INITIAL
    && forall i :: 0 <= i < |steps| ==> Enabled(states[i], steps[i]) && states[i + 1] == Next(states[i], steps[i])
  }

  lemma {:induction false} InvAlways(states: seq<State>, steps: seq<Step>, i: nat)
    requires Execution(states, steps) && i < |states|
    ensures Inv(states[i])
  {
    if i > 0 {
      InvAlways(states, steps, i - 1);
      StepKeepsInv(states[i - 1], steps[i - 1]);
    }
  }

  /** In any interleaving the calls served by one expectation id are numbered 1..k, each
      number once, and their answers are Response, then each further answer in turn, then
      the last one forever. */
  lemma AnswersComeInOrder(states: seq<State>, steps: seq<Step>, i: nat, id: string, n: nat)
    requires Execution(states, steps) && i < |states| && n < |CallsOf(states[i].log, id)|
    ensures var calls := CallsOf(states[i].log, id);
            var e := calls[0].exp;
            && calls[n].hit == n + 1
            && Served(calls[n].exp, calls[n].hit) == Answers(e)[if n < |e.further| then n else |e.further|]
  {
    InvAlways(states, steps, i);
    assert LogInv(states[i], id);
    ServedFollowsAnswers(CallsOf(states[i].log, id)[n].exp, n);
  }

  /** An id whose stub was superseded, deleted or reset never serves again. */
  lemma {:induction false} RemovedIdsStaySilent(states: seq<State>, steps: seq<Step>, i: nat, j: nat, id: string)
    requires Execution(states, steps) && i <= j < |states|
    requires id in states[i].used && id !in states[i].store.hits
    ensures id in states[j].used && id !in states[j].store.hits
    ensures CallsOf(states[j].log, id) == CallsOf(states[i].log, id)
    decreases j
  {
    if i < j {
      RemovedIdsStaySilent(states, steps, i, j - 1, id);
      InvAlways(states, steps, j - 1);
      SilentStep(states[j - 1], steps[j - 1], id);
    }
  }

  lemma SilentStep(s: State, step: Step, id: string)
    requires StoreInv(s) && Enabled(s, step) && id in s.used && id !in s.store.hits
    ensures var t := Next(s, step);
            id in t.used && id !in t.store.hits && CallsOf(t.log, id) == CallsOf(s.log, id)
  {
    if step.Count? {
      SilentCount(s, step.f, id);
    }
  }

  lemma SilentCount(s: State, f: nat, id: string)
    requires StoreInv(s) && f in s.finding && id in s.used && id !in s.store.hits
    ensures var t := Next(s, Count(f));
            id in t.used && id !in t.store.hits && CallsOf(t.log, id) == CallsOf(s.log, id)
  {
    PickedHasCounter(s, f);
    CountEffect(s, f);
    CallsOfAppend(s.log, Call(s.finding[f], s.store.hits[s.finding[f].id] + 1), id);
  }

  /** Re-registering an equal matcher restarts the sequence: the old stub's id is silenced
      and the new one starts with an empty history and its counter at zero. */
  lemma ReRegisteringRestarts(states: seq<State>, steps: seq<Step>, i: nat, exp: Expectation, id: string,
                              e: Expectation)
    requires Execution(states, steps) && i < |steps| && steps[i] == PutStub(exp, id)
    requires states[i].store.Holds(e)
    requires var n := Stamped(states[i].store, exp, id);
             e.kind == n.kind && e.key == n.key && MatcherEqual(e.request, n.request)
    ensures e.id !in states[i + 1].store.hits
    ensures states[i + 1].store.hits[id] == 0 && CallsOf(states[i + 1].log, id) == []
  {
    InvAlways(states, steps, i);
    InvAlways(states, steps, i + 1);
    assert LogInv(states[i], id);
    SupersededLosesCounter(states[i].store, exp, id, e);
  }

  lemma SupersededLosesCounter(s: Store, exp: Expectation, id: string, e: Expectation)
    requires Expectations.Inv(s) && id !in s.hits && s.Holds(e)
    requires var n := Stamped(s, exp, id);
             e.kind == n.kind && e.key == n.key && MatcherEqual(e.request, n.request)
    ensures e.id !in Put(s, exp, id).hits
  {
    assert e in s.List(e.kind, e.key);
    assert e.id != id;
  }

  // ------------------------------------------------------------ who serves which request

  /** The stub comes from the registration at step `k`. */
  ghost predicate RegisteredAt(states: seq<State>, steps: seq<Step>, k: nat, e: Expectation)
    requires |states| == |steps| + 1
  {
    k < |steps| && steps[k].PutStub? && steps[k].id == e.id && Registers(steps[k].exp, e)
  }

  lemma StubAppears(s: State, step: Step, e: Expectation)
    requires StoreInv(s) && Enabled(s, step) && Next(s, step).store.Holds(e)
    ensures s.store.Holds(e) || (step.PutStub? && step.id == e.id && Registers(step.exp, e))
  {
    match step {
      case PutStub(exp, id) =>
        PutHolds(s.store, exp, id, e);
        StampedRegisters(s.store, exp, id);
      case DeleteStub(id) => DeleteHolds(s.store, id, e);
      case ResetOne(kind, key) => ResetEndpointHolds(s.store, kind, key, e);
      case ResetEverything =>
      case Pick(_, _, _, _, _) =>
      case Count(f) => CountAppears(s, f, e);
    }
  }

  lemma NothingAtFirst(states: seq<State>, steps: seq<Step>, e: Expectation)
    requires Execution(states, steps)
    ensures !states[0].store.Holds(e)
  {
  }

  lemma StubAppearsAt(states: seq<State>, steps: seq<Step>, i: nat, e: Expectation)
    requires Execution(states, steps) && i < |steps| && states[i + 1].store.Holds(e)
    ensures states[i].store.Holds(e) || RegisteredAt(states, steps, i, e)
  {
    InvAlways(states, steps, i);
    StubAppears(states[i], steps[i], e);
  }

  lemma CountAppears(s: State, f: nat, e: Expectation)
    requires StoreInv(s) && f in s.finding && Next(s, Count(f)).store.Holds(e)
    ensures s.store.Holds(e)
  {
    PickedHasCounter(s, f);
    CountEffect(s, f);
    BumpKeepsInv(s.store, s.finding[f].id);
  }

  /** Every stored stub was registered, and is still what was registered. */
  lemma {:induction false} StubsWereRegistered(states: seq<State>, steps: seq<Step>, i: nat, e: Expectation)
    returns (k: nat)
    requires Execution(states, steps) && i < |states| && states[i].store.Holds(e)
    ensures k < i && RegisteredAt(states, steps, k, e)
  {
    NothingAtFirst(states, steps, e);
    StubAppearsAt(states, steps, i - 1, e);
    if states[i - 1].store.Holds(e) {
      k := StubsWereRegistered(states, steps, i - 1, e);
    } else {
      k := i - 1;
    }
  }

  /** From its lookup to its count a Find keeps the stub it picked, and nobody changes which
      stubs are stored. */
  lemma {:induction false} PickHolds(states: seq<State>, steps: seq<Step>, i: nat, j: nat, f: nat)
    requires Execution(states, steps) && i < j < |states| && steps[i].Pick? && steps[i].f == f
    requires forall m :: i < m < j ==> steps[m] != Count(f)
    requires f in states[i + 1].finding
    ensures f in states[j].finding && states[j].finding[f] == states[i + 1].finding[f]
    decreases j
  {
    if i + 1 < j {
      PickHolds(states, steps, i, j - 1, f);
    }
  }

  /** Every Find that some stored stub matches is served, and logged at its count: by the
      matching stub that outranks all others at its lookup, one that was registered with
      the answers it gives and with a matcher the request satisfies. A Find that nothing
      matches picks nothing. */
  lemma MatchedFindsAreServed(states: seq<State>, steps: seq<Step>, i: nat, j: nat, f: nat) returns (k: nat)
    requires Execution(states, steps) && i < j < |steps| && steps[i].Pick? && steps[i].f == f && steps[j] == Count(f)
    requires forall m :: i < m < j ==> steps[m] != Count(f)
    requires exists e :: Eligible(states[i].store, steps[i], e)
    ensures states[j + 1].log != []
    ensures var e := states[j + 1].log[|states[j + 1].log| - 1].exp;
            && Eligible(states[i].store, steps[i], e)
            && (forall g :: Eligible(states[i].store, steps[i], g) && g != e ==> Outranks(e, g))
            && k < i && RegisteredAt(states, steps, k, e) && Satisfies(steps[i].req, steps[k].exp.request)
  {
    var e := PicksBest(states, steps, i);
    PickHolds(states, steps, i, j, f);
    k := StubsWereRegistered(states, steps, i, e);
    LogsLast(states[j], f);
  }

  /** The stored stub is for the method and path of this lookup, or for its operation, and
      its matcher accepts the request. */
  predicate Eligible(s: Store, p: Step, e: Expectation)
    requires p.Pick?
  {
    && s.Holds(e) && Satisfies(p.req, e.request)
    && e.key == if e.kind == Template then Key(p.verb, p.opTemplate) else Key(p.verb, p.path)
  }

  lemma EligibleIffCandidate(s: Store, p: Step, e: Expectation)
    requires Expectations.Inv(s) && p.Pick?
    ensures Eligible(s, p, e) <==> Candidate(s, e, p.verb, p.path, p.opTemplate, p.req)
  {
    ListInv(s, Exact, Key(p.verb, p.path));
    ListInv(s, Template, Key(p.verb, p.opTemplate));
  }

  lemma BestMatch(s: Store, p: Step)
    requires Expectations.Inv(s) && p.Pick?
    ensures var r := Select(s, p.verb, p.path, p.opTemplate, p.req);
            && (r.None? <==> forall e :: !Eligible(s, p, e))
            && (r.Some? ==> Eligible(s, p, r.value))
            && (r.Some? ==> forall g :: Eligible(s, p, g) && g != r.value ==> Outranks(r.value, g))
  {
    FindIsMaximal(s, p.verb, p.path, p.opTemplate, p.req);
    forall e
      ensures Eligible(s, p, e) <==> Candidate(s, e, p.verb, p.path, p.opTemplate, p.req)
    {
      EligibleIffCandidate(s, p, e);
    }
  }

  lemma PicksBest(states: seq<State>, steps: seq<Step>, i: nat) returns (e: Expectation)
    requires Execution(states, steps) && i < |steps| && steps[i].Pick?
    requires exists g :: Eligible(states[i].store, steps[i], g)
    ensures steps[i].f in states[i + 1].finding && states[i + 1].finding[steps[i].f] == e
    ensures Eligible(states[i].store, steps[i], e)
    ensures forall g :: Eligible(states[i].store, steps[i], g) && g != e ==> Outranks(e, g)
  {
    InvAlways(states, steps, i);
    BestMatch(states[i].store, steps[i]);
    e := states[i + 1].finding[steps[i].f];
  }

  lemma LogsLast(s: State, f: nat)
    requires f in s.finding
    ensures var log := Next(s, Count(f)).log; log != [] && log[|log| - 1].exp == s.finding[f]
  {
  }

  lemma UnmatchedFindsPickNothing(s: State, p: Step)
    requires StoreInv(s) && p.Pick? && Enabled(s, p) && forall e :: !Eligible(s.store, p, e)
    ensures Next(s, p) == s
  {
    BestMatch(s.store, p);
  }

  /** After ResetAll every id handed out so far is silent for good. */
  lemma ResetSilencesAll(states: seq<State>, steps: seq<Step>, i: nat, j: nat, id: string)
    requires Execution(states, steps) && i < j < |states| && steps[i] == ResetEverything && id in states[i].used
    ensures id !in states[j].store.hits && CallsOf(states[j].log, id) == CallsOf(states[i].log, id)
  {
    RemovedIdsStaySilent(states, steps, i + 1, j, id);
  }

  /** What removes this stored stub: deleting its id, resetting its operation or everything,
      and registering an equal matcher for its operation. */
  ghost predicate Removes(s: State, step: Step, e: Expectation) {
    match step
    case PutStub(exp, id) =>
      exp.kind == e.kind && exp.key == e.key && MatcherEqual(e.request, Stamped(s.store, exp, id).request)
    case DeleteStub(id) => id == e.id
    case ResetOne(kind, key) => kind == e.kind && key == e.key
    case ResetEverything => true
    case _ => false
  }

  /** A stored stub is gone after a step exactly if the step removes it, and its counter goes
      with it. */
  lemma StubGoesIff(s: State, step: Step, e: Expectation)
    requires StoreInv(s) && Enabled(s, step) && s.store.Holds(e)
    ensures !Next(s, step).store.Holds(e) <==> Removes(s, step, e)
    ensures Removes(s, step, e) ==> e.id !in Next(s, step).store.hits
  {
    match step {
      case PutStub(exp, id) =>
        PutHolds(s.store, exp, id, e);
        if Removes(s, step, e) {
          SupersededLosesCounter(s.store, exp, id, e);
        }
      case DeleteStub(id) => DeleteHolds(s.store, id, e);
      case ResetOne(kind, key) =>
        ResetEndpointHolds(s.store, kind, key, e);
        OnlyItselfSharesId(s.store, e, kind, key);
        ListInv(s.store, kind, key);
      case ResetEverything =>
      case Pick(_, _, _, _, _) =>
      case Count(f) => CountKeeps(s, f, e);
    }
  }

  lemma CountKeeps(s: State, f: nat, e: Expectation)
    requires StoreInv(s) && f in s.finding && s.store.Holds(e)
    ensures Next(s, Count(f)).store.Holds(e)
  {
    PickedHasCounter(s, f);
    CountEffect(s, f);
    BumpKeepsInv(s.store, s.finding[f].id);
  }

  /** So deleting, resetting or re-registering silences a stub for good, and nothing else
      does: it stays stored until one of them hits it. */
  lemma RemovalSilences(states: seq<State>, steps: seq<Step>, i: nat, j: nat, e: Expectation)
    requires Execution(states, steps) && i < j < |states| && states[i].store.Holds(e) && Removes(states[i], steps[i], e)
    ensures e.id !in states[j].store.hits && CallsOf(states[j].log, e.id) == CallsOf(states[i + 1].log, e.id)
  {
    InvAlways(states, steps, i);
    StubGoesIff(states[i], steps[i], e);
    UsedStays(states[i], steps[i], e);
    RemovedIdsStaySilent(states, steps, i + 1, j, e.id);
  }

  lemma UsedStays(s: State, step: Step, e: Expectation)
    requires StoreInv(s) && Enabled(s, step) && s.store.Holds(e)
    ensures e.id in Next(s, step).used
  {
  }

  lemma {:induction false} StubsStayUntilRemoved(states: seq<State>, steps: seq<Step>, i: nat, j: nat, e: Expectation)
    requires Execution(states, steps) && i <= j < |states| && states[i].store.Holds(e)
    requires forall m :: i <= m < j ==> !Removes(states[m], steps[m], e)
    ensures states[j].store.Holds(e)
    decreases j
  {
    if i < j {
      StubsStayUntilRemoved(states, steps, i, j - 1, e);
      StaysOneMore(states, steps, j - 1, e);
    }
  }

  lemma StaysOneMore(states: seq<State>, steps: seq<Step>, i: nat, e: Expectation)
    requires Execution(states, steps) && i < |steps| && states[i].store.Holds(e) && !Removes(states[i], steps[i], e)
    ensures states[i + 1].store.Holds(e)
  {
    InvAlways(states, steps, i);
    StubGoesIff(states[i], steps[i], e);
  }
}
