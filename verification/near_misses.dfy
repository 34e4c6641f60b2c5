/** NearMisses (internal/matches/store.go:236-286): which stubs almost matched. The
    answer is specified without any iteration order, and shown to be the only list that
    meets its specification. */
module NearMisses {
  import opened Prelude
  import opened Matching
  import opened Expectations
  import opened TopOf

  const MAX_NEAR_MISSES := 3

  /** The failed request. `templateOf` resolves a concrete path to its operation. */
  datatype Query = Query(verb: string, path: string, opTemplate: string, req: Request,
                         templateOf: (string, string) -> string)

  function PathDiff(e: Expectation, path: string): seq<Difference> {
    if e.kind == Exact && e.key.path != path
    then [Difference("path", Mismatch, Some(Str(e.key.path)), Some(Str(path)))]
    else []
  }

  /** Why the stub does not apply: its path, and what Explain lists. */
  ghost function StubDiffs(e: Expectation, q: Query): multiset<Difference> {
    multiset(PathDiff(e, q.path)) + AllDiffs(e.request, q.req)
  }

  /** The keys whose stubs belong to the operation. */
  predicate OnOperation(kind: Kind, key: Key, q: Query) {
    && key.verb == q.verb
    && if kind == Template then key.path == q.opTemplate else q.templateOf(q.verb, key.path) == q.opTemplate
  }

  predicate Considered(s: Store, e: Expectation, q: Query) {
    s.Holds(e) && OnOperation(e.kind, e.key, q)
  }

  ghost predicate Miss(s: Store, e: Expectation, q: Query) {
    Considered(s, e, q) && StubDiffs(e, q) != multiset{}
  }

  /** Fewest differences first, then newest first. */
  ghost predicate Closer(e: Expectation, f: Expectation, q: Query) {
    |StubDiffs(e, q)| < |StubDiffs(f, q)| || (|StubDiffs(e, q)| == |StubDiffs(f, q)| && e.seqNo > f.seqNo)
  }

  ghost function MissOf(s: Store, q: Query): Expectation -> bool {
    e => Miss(s, e, q)
  }

  ghost function CloserTo(q: Query): (Expectation, Expectation) -> bool {
    (e, f) => Closer(e, f, q)
  }

  /** The first three misses in that order, or all of them when there are fewer. */
  ghost predicate TopThree(out: seq<Expectation>, s: Store, q: Query) {
    Top(out, MAX_NEAR_MISSES, MissOf(s, q), CloserTo(q))
  }

  lemma CloserIsStrict(s: Store, q: Query)
    requires Expectations.Inv(s)
    ensures StrictOrder(MissOf(s, q), CloserTo(q))
  {
    forall e, f | Miss(s, e, q) && Miss(s, f, q) && e != f
      ensures Closer(e, f, q) || Closer(f, e, q)
    {
      assert s.Holds(e) && s.Holds(f) && e.seqNo != f.seqNo;
    }
  }

  /** Only one list qualifies, so the answer cannot depend on map iteration order. */
  lemma TopThreeUnique(a: seq<Expectation>, b: seq<Expectation>, s: Store, q: Query)
    requires Expectations.Inv(s) && TopThree(a, s, q) && TopThree(b, s, q)
    ensures a == b
  {
    CloserIsStrict(s, q);
    TopUnique(a, b, MAX_NEAR_MISSES, MissOf(s, q), CloserTo(q));
  }

  lemma MissAfterFind(s: Store, q: Query, e: Expectation)
    requires Expectations.Inv(s) && Select(s, q.verb, q.path, q.opTemplate, q.req).None? && Considered(s, e, q)
    ensures Miss(s, e, q)
  {
    if PathDiff(e, q.path) == [] {
      assert e.key == if e.kind == Template then Key(q.verb, q.opTemplate) else Key(q.verb, q.path);
      FindIsMaximal(s, q.verb, q.path, q.opTemplate, q.req);
      assert !Candidate(s, e, q.verb, q.path, q.opTemplate, q.req);
      NoDifferencesIffSatisfies(e.request, q.req);
    } else {
      assert PathDiff(e, q.path)[0] in StubDiffs(e, q);
    }
  }

  /** Right after a Find miss on the same state every stub of the operation is a near
      miss, so the answer is empty exactly when nothing is registered for the operation. */
  lemma EmptyIffNothingRegistered(s: Store, q: Query, out: seq<Expectation>)
    requires Expectations.Inv(s) && Select(s, q.verb, q.path, q.opTemplate, q.req).None?
    requires TopThree(out, s, q)
    ensures forall e :: s.Holds(e) && ForOperation(e, q) ==> Miss(s, e, q)
    ensures out == [] <==> forall e :: s.Holds(e) ==> !ForOperation(e, q)
  {
    EveryStubMisses(s, q, out);
    assert forall e :: s.Holds(e) && ForOperation(e, q) <==> Considered(s, e, q);
    if out != [] {
      assert s.Holds(out[0]) && ForOperation(out[0], q);
    }
  }

  /** The stub is registered for the method and for the operation, by its template or by a
      concrete path that resolves to it. */
  predicate ForOperation(e: Expectation, q: Query) {
    && e.key.verb == q.verb
    && (e.kind == Template ==> e.key.path == q.opTemplate)
    && (e.kind == Exact ==> q.templateOf(q.verb, e.key.path) == q.opTemplate)
  }

  lemma EveryStubMisses(s: Store, q: Query, out: seq<Expectation>)
    requires Expectations.Inv(s) && Select(s, q.verb, q.path, q.opTemplate, q.req).None?
    requires TopThree(out, s, q)
    ensures forall e :: Considered(s, e, q) ==> Miss(s, e, q)
    ensures out == [] ==> forall e :: !Considered(s, e, q)
    ensures out != [] ==> Considered(s, out[0], q)
  {
    forall e | Considered(s, e, q)
      ensures Miss(s, e, q)
    {
      MissAfterFind(s, q, e);
    }
    assert forall e :: MissOf(s, q)(e) == Miss(s, e, q);
    if out != [] {
      assert MissOf(s, q)(out[0]) && Considered(s, out[0], q);
    }
  }

  /** The order of the answer, spelled out: fewer differences first, then newer stubs, and
      nothing left out comes before anything listed. */
  lemma TopThreeMeans(out: seq<Expectation>, s: Store, q: Query, i: nat, j: nat, e: Expectation)
    requires TopThree(out, s, q) && i < j < |out| && Miss(s, e, q) && e !in out
    ensures |out| == 3
    ensures var di, dj, de := |StubDiffs(out[i], q)|, |StubDiffs(out[j], q)|, |StubDiffs(e, q)|;
            && 0 < di <= dj <= de
            && (di == dj ==> out[i].seqNo > out[j].seqNo) && (dj == de ==> out[j].seqNo > e.seqNo)
  {
    assert CloserTo(q)(out[i], out[j]) && CloserTo(q)(out[j], e) && MissOf(s, q)(out[i]) && MissOf(s, q)(e);
  }

  /** A stub on another concrete path of the operation differs in its path, once, and says
      which path it wanted; no other stub does. */
  lemma PathDifferenceIff(e: Expectation, q: Query, d: Difference)
    requires d.field == "path"
    ensures d in StubDiffs(e, q)
            <==> e.kind == Exact && e.key.path != q.path
                 && d == Difference("path", Mismatch, Some(Str(e.key.path)), Some(Str(q.path)))
  {
    if d in AllDiffs(e.request, q.req) {
      OtherFields(e.request, q.req, d);
      assert false;
    }
  }

  lemma OtherFields(rm: Option<RequestMatcher>, req: Request, d: Difference)
    requires d in AllDiffs(rm, req)
    ensures d.field != "" && d.field[0] != 'p'
  {
    ExplainReports(rm.value, req, d);
    if !(exists k :: ReportsQuery(rm.value, req, k, d)) && !(exists k :: ReportsHeader(rm.value, req, k, d)) {
      BodyField(rm.value.body, req.body, d);
    }
  }

  lemma BodyField(want: Body, got: Body, d: Difference)
    requires ReportsBody(want, got, d)
    ensures d.field != "" && d.field[0] == 'b'
  {
    if want.Doc? && got.Doc? && !NoBody(want) {
      var path :| DiffersAt("body", want.value, got.value, path, d);
      JoinedStarts("body", path);
    }
  }

  lemma {:induction false} JoinedStarts(field: string, path: seq<string>)
    requires field != ""
    ensures Joined(field, path) != "" && Joined(field, path)[0] == field[0]
    decreases path
  {
    if path != [] {
      JoinedStarts(field + "." + path[0], path[1..]);
    }
  }
}
