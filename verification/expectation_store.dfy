/** The expectation store as the source writes it (internal/matches/store.go): two maps of
    ordered lists, a map of counters and a registration counter, updated in place by
    filtering, scanning and sorting loops. Each method is proved against Expectations and
    NearMisses. Each holds the store's lock throughout, so it is one atomic operation. */
module ExpectationStore {
  import opened Prelude
  import opened Sorting
  import opened Lists
  import opened Matching
  import opened Expectations
  import opened TopOf
  import opened NearMisses
  import opened Serving

  datatype NearMiss = NearMiss(id: string, key: Key, differences: seq<Difference>)

  /** A stub with the differences Explain listed for it. */
  datatype Ranked = Ranked(exp: Expectation, diffs: seq<Difference>)

  class StubStore {
    var exact: Bucket
    var template: Bucket
    var hits: map<string, nat>
    var seqNo: nat

    ghost function State(): Store
      reads this
    {
      Store(exact, template, hits, seqNo)
    }

    constructor ()
      ensures State() == EMPTY
    {
      exact, template, hits, seqNo := map[], map[], map[], 0;
    }

    /** Put, with the uuid it generated. */
    method Register(exp: Expectation, id: string) returns (stored: Expectation)
      modifies this
      ensures State() == Put(old(State()), exp, id) && stored == Stamped(old(State()), exp, id)
      ensures Registers(exp, stored) && stored.id == id
    {
      StampedRegisters(State(), exp, id);
      stored := exp.(id := id, request := Normalised(exp.request), seqNo := seqNo + 1);
      seqNo := seqNo + 1;
      var b := if exp.kind == Template then template else exact;
      b, hits := Supersede(b, stored, hits);
      if exp.kind == Template {
        template := b;
      } else {
        exact := b;
      }
      hits := hits[id := 0];
    }

    method ResetKey(kind: Kind, key: Key)
      modifies this
      ensures State() == ResetEndpoint(old(State()), kind, key)
    {
      hits := DropCounters(ListIn(if kind == Template then template else exact, key), hits);
      if kind == Template {
        template := template - {key};
      } else {
        exact := exact - {key};
      }
    }

    method Clear()
      modifies this
      ensures State() == ResetAll(old(State()))
    {
      exact, template, hits := map[], map[], map[];
    }

    /** DeleteByID: scan both buckets in whatever key order. */
    method DeleteByID(id: string) returns (removed: bool)
      requires Expectations.Inv(State())
      modifies this
      ensures removed == (id in old(hits)) && State() == Delete(old(State()), id)
    {
      removed, exact, template := RemoveStub(exact, template, id, State());
      hits := hits - {id};
    }

    /** Find: the four-tier lookup, then the hit counter of what it picked. A stub
        without a counter would be served uncounted. */
    method Find(verb: string, path: string, opTemplate: string, req: Request)
      returns (found: Option<Expectation>, hit: nat)
      modifies this`hits
      ensures found == Select(old(State()), verb, path, opTemplate, req)
      ensures State() == if found.Some? then Bump(old(State()), found.value.id).0 else old(State())
      ensures hit == if found.Some? then Bump(old(State()), found.value.id).1 else 0
    {
      found := Lookup(ListIn(exact, Key(verb, path)), ListIn(template, Key(verb, opTemplate)), req);
      hit := 0;
      if found.Some? && found.value.id in hits {
        hit := hits[found.value.id] + 1;
        hits := hits[found.value.id := hit];
      }
    }

    /** NearMisses, visiting the exact keys in whatever order. */
    method NearMissesFor(q: Query) returns (out: seq<NearMiss>)
      requires Expectations.Inv(State())
      ensures ClosestThree(out, State(), q)
    {
      var cands := RankAll(exact, ListIn(template, Key(q.verb, q.opTemplate)), q, State());
      out := FirstThree(cands, q, State());
    }
  }

  // -------------------------------------------------------------------- Put helpers

  method Supersede(b: Bucket, e: Expectation, hits: map<string, nat>) returns (b': Bucket, left: map<string, nat>)
    ensures b' == b[e.key := Filtered(ListIn(b, e.key), Unlike(e.request)) + [e]]
    ensures left == hits - Superseded(ListIn(b, e.key), e.request)
  {
    var kept;
    kept, left := DropEqual(ListIn(b, e.key), e.request, hits);
    b' := b[e.key := kept + [e]];
  }

  method DropEqual(list: seq<Expectation>, rm: Option<RequestMatcher>, hits: map<string, nat>)
    returns (kept: seq<Expectation>, left: map<string, nat>)
    ensures kept == Filtered(list, Unlike(rm))
    ensures left == hits - Superseded(list, rm)
  {
    kept, left := [], hits;
    for i := 0 to |list|
      invariant kept == Filtered(list[..i], Unlike(rm))
      invariant left == hits - Superseded(list[..i], rm)
    {
      assert list[..i + 1][..i] == list[..i];
      SupersededGrows(list, i, rm);
      if MatcherEqual(list[i].request, rm) {
        left := left - {list[i].id};
      } else {
        kept := kept + [list[i]];
      }
    }
    assert list[..|list|] == list;
  }

  lemma SupersededGrows(list: seq<Expectation>, i: nat, rm: Option<RequestMatcher>)
    requires i < |list|
    ensures Superseded(list[..i + 1], rm)
            == Superseded(list[..i], rm) + if MatcherEqual(list[i].request, rm) then {list[i].id} else {}
  {
    assert list[..i + 1] == list[..i] + [list[i]];
  }

  method DropCounters(list: seq<Expectation>, hits: map<string, nat>) returns (left: map<string, nat>)
    ensures left == hits - Ids(list)
  {
    left := hits;
    for i := 0 to |list|
      invariant left == hits - Ids(list[..i])
    {
      assert list[..i + 1] == list[..i] + [list[i]];
      left := left - {list[i].id};
    }
    assert list[..|list|] == list;
  }

  // ------------------------------------------------------------------- Find helpers

  method Lookup(exact: seq<Expectation>, tmpl: seq<Expectation>, req: Request) returns (r: Option<Expectation>)
    ensures r == FirstOf(exact, tmpl, req)
  {
    var exactMatcher := ScanNewest(exact, req, false);
    var exactAny := ScanNewest(exact, req, true);
    var tmplMatcher := ScanNewest(tmpl, req, false);
    var tmplAny := ScanNewest(tmpl, req, true);
    r := Or(exactMatcher, Or(exactAny, Or(tmplMatcher, tmplAny)));
  }

  method ScanNewest(list: seq<Expectation>, req: Request, catchAll: bool) returns (r: Option<Expectation>)
    ensures r == NewestMatch(list, req, catchAll)
  {
    var i := |list|;
    assert list[..i] == list;
    while i > 0
      invariant 0 <= i <= |list|
      invariant NewestMatch(list, req, catchAll) == NewestMatch(list[..i], req, catchAll)
    {
      i := i - 1;
      NewestOfPrefix(list, i, req, catchAll);
      if list[i].request.None? == catchAll {
        var ok := Matches(list[i].request, req);
        if ok {
          return Some(list[i]);
        }
      }
    }
    return None;
  }

  lemma NewestOfPrefix(list: seq<Expectation>, i: nat, req: Request, catchAll: bool)
    requires i < |list|
    ensures NewestMatch(list[..i + 1], req, catchAll)
            == if Qualifies(list[i], req, catchAll) then Some(list[i]) else NewestMatch(list[..i], req, catchAll)
  {
    assert list[..i + 1][..i] == list[..i];
  }

  // ----------------------------------------------------------------- Delete helpers

  lemma FilterRemovesOne(list: seq<Expectation>, i: nat, id: string)
    requires i < |list| && list[i].id == id && forall j :: 0 <= j < |list| && j != i ==> list[j].id != id
    ensures Filtered(list, NotId(id)) == list[..i] + list[i + 1..]
  {
    SplitAt(list, i);
    FilterAround(list[..i], list[i], list[i + 1..], NotId(id));
  }

  lemma SplitAt(list: seq<Expectation>, i: nat)
    requires i < |list|
    ensures list == list[..i] + [list[i]] + list[i + 1..]
  {
  }

  lemma FilterAround(a: seq<Expectation>, x: Expectation, b: seq<Expectation>, p: Expectation -> bool)
    requires !p(x) && (forall i :: 0 <= i < |a| ==> p(a[i])) && (forall i :: 0 <= i < |b| ==> p(b[i]))
    ensures Filtered(a + [x] + b, p) == a + b
  {
    FilteredKeepsAll(a, p);
    FilteredKeepsAll(b, p);
    FilterDropsLast(a, x, p);
    FilteredConcat(a + [x], b, p);
  }

  lemma FilterDropsLast(a: seq<Expectation>, x: Expectation, p: Expectation -> bool)
    requires !p(x)
    ensures Filtered(a + [x], p) == Filtered(a, p)
  {
    assert (a + [x])[..|a + [x]| - 1] == a;
  }

  ghost predicate StoredIn(s: Store, kind: Kind, id: string) {
    exists e :: s.Holds(e) && e.kind == kind && e.id == id
  }

  lemma WithoutAbsent(s: Store, kind: Kind, id: string)
    requires Expectations.Inv(s) && !StoredIn(s, kind, id)
    ensures Without(s.Bucket(kind), id) == s.Bucket(kind)
  {
    var b := s.Bucket(kind);
    forall k | k in b
      ensures Filtered(b[k], NotId(id)) == b[k] != []
    {
      ListInv(s, kind, k);
      FilteredKeepsAll(b[k], NotId(id));
    }
  }

  function Spliced(b: Bucket, k: Key, i: nat): Bucket
    requires k in b && i < |b[k]|
  {
    var list := b[k][..i] + b[k][i + 1..];
    if list == [] then b - {k} else b[k := list]
  }

  lemma SplicedIsWithout(s: Store, kind: Kind, k: Key, i: nat)
    requires Expectations.Inv(s) && k in s.Bucket(kind) && i < |s.Bucket(kind)[k]|
    ensures Spliced(s.Bucket(kind), k, i) == Without(s.Bucket(kind), s.Bucket(kind)[k][i].id)
    ensures StoredIn(s, kind, s.Bucket(kind)[k][i].id)
  {
    var b := s.Bucket(kind);
    var e: Expectation := b[k][i];
    OneCopyInList(s, kind, k, i);
    forall k' | k' in b && k' != k
      ensures Filtered(b[k'], NotId(e.id)) == b[k'] != []
    {
      OtherKeyLacks(s, kind, k', e);
    }
    SameMap(b, k, b[k][..i] + b[k][i + 1..], Without(b, e.id));
  }

  /** A map that differs from b at key k alone. */
  lemma SameMap(b: Bucket, k: Key, list: seq<Expectation>, w: Bucket)
    requires k in b
    requires forall k' :: k' in w <==> k' in b && (k' != k || list != [])
    requires forall k' :: k' in w ==> w[k'] == if k' == k then list else b[k']
    ensures w == if list == [] then b - {k} else b[k := list]
  {
  }

  lemma OneCopyInList(s: Store, kind: Kind, k: Key, i: nat)
    requires Expectations.Inv(s) && k in s.Bucket(kind) && i < |s.Bucket(kind)[k]|
    ensures var list := s.Bucket(kind)[k];
            && s.Holds(list[i]) && list[i].kind == kind && list[i].key == k
            && Filtered(list, NotId(list[i].id)) == list[..i] + list[i + 1..]
  {
    var list := s.Bucket(kind)[k];
    ListInv(s, kind, k);
    assert s.List(kind, k) == list;
    forall j | 0 <= j < |list| && j != i
      ensures list[j].id != list[i].id
    {
      assert s.Holds(list[j]) && s.Holds(list[i]);
      assert list[j].seqNo != list[i].seqNo;
    }
    FilterRemovesOne(list, i, list[i].id);
  }

  lemma OtherKeyLacks(s: Store, kind: Kind, k: Key, e: Expectation)
    requires Expectations.Inv(s) && k in s.Bucket(kind) && s.Holds(e) && e.key != k
    ensures Filtered(s.Bucket(kind)[k], NotId(e.id)) == s.Bucket(kind)[k] != []
  {
    ListInv(s, kind, k);
    assert BucketInv(s.Bucket(kind), kind);
    FilteredKeepsAll(s.Bucket(kind)[k], NotId(e.id));
  }

  method RemoveFirst(b: Bucket, kind: Kind, id: string, ghost s: Store) returns (found: bool, r: Bucket)
    requires Expectations.Inv(s) && b == s.Bucket(kind)
    ensures found == StoredIn(s, kind, id)
    ensures found ==> r == Without(b, id)
  {
    var rest := b.Keys;
    while rest != {}
      invariant rest <= b.Keys
      invariant forall k :: k in b && k !in rest ==> id !in Ids(b[k])
      decreases rest
    {
      var k :| k in rest;
      var i := IndexOfID(b[k], id);
      if i >= 0 {
        SplicedIsWithout(s, kind, k, i);
        return true, Spliced(b, k, i);
      }
      rest := rest - {k};
    }
    NowhereMeansAbsent(s, kind, id);
    return false, b;
  }

  method IndexOfID(list: seq<Expectation>, id: string) returns (i: int)
    ensures -1 <= i < |list|
    ensures if i < 0 then id !in Ids(list) else list[i].id == id
  {
    i := 0;
    while i < |list|
      invariant 0 <= i <= |list|
      invariant forall j :: 0 <= j < i ==> list[j].id != id
    {
      if list[i].id == id {
        return;
      }
      i := i + 1;
    }
    i := -1;
  }

  lemma NowhereMeansAbsent(s: Store, kind: Kind, id: string)
    requires forall k :: k in s.Bucket(kind) ==> id !in Ids(s.Bucket(kind)[k])
    ensures !StoredIn(s, kind, id)
  {
    forall e | s.Holds(e) && e.kind == kind
      ensures e.id != id
    {
      assert e.id in Ids(s.Bucket(kind)[e.key]);
    }
  }

  lemma StoredOnce(s: Store, id: string)
    requires Expectations.Inv(s)
    ensures StoredIn(s, Exact, id) ==> !StoredIn(s, Template, id)
    ensures id in s.hits <==> StoredIn(s, Exact, id) || StoredIn(s, Template, id)
  {
    if id in s.hits {
      assert Stores(s, id);
      var e :| s.Holds(e) && e.id == id;
      assert e.kind == Exact || e.kind == Template;
    }
  }

  method RemoveStub(exact: Bucket, template: Bucket, id: string, ghost s: Store)
    returns (removed: bool, exact': Bucket, template': Bucket)
    requires Expectations.Inv(s) && exact == s.exact && template == s.template
    ensures removed == (id in s.hits)
    ensures exact' == Without(exact, id) && template' == Without(template, id)
  {
    exact', template' := exact, template;
    StoredOnce(s, id);
    removed, exact' := RemoveFirst(exact, Exact, id, s);
    if removed {
      WithoutAbsent(s, Template, id);
    } else {
      WithoutAbsent(s, Exact, id);
      exact' := exact;
      removed, template' := RemoveFirst(template, Template, id, s);
      if !removed {
        WithoutAbsent(s, Template, id);
        template' := template;
      }
    }
  }

  // ------------------------------------------------------------- near-miss helpers

  ghost predicate Describes(nm: NearMiss, e: Expectation, q: Query) {
    nm.id == e.id && nm.key == e.key && multiset(nm.differences) == StubDiffs(e, q)
  }

  /** `out` describes, in order, the three closest misses. */
  ghost predicate ClosestThree(out: seq<NearMiss>, s: Store, q: Query) {
    exists top :: TopThree(top, s, q) && |out| == |top| && forall i :: 0 <= i < |out| ==> Describes(out[i], top[i], q)
  }

  ghost predicate IsRank(c: Ranked, s: Store, q: Query) {
    Miss(s, c.exp, q) && multiset(c.diffs) == StubDiffs(c.exp, q)
  }

  ghost predicate RankedOnce(cands: seq<Ranked>) {
    && (forall c, d :: c in cands && d in cands && c.exp == d.exp ==> c == d)
    && (forall c :: multiset(cands)[c] <= 1)
  }

  ghost predicate IsRanked(cands: seq<Ranked>, e: Expectation) {
    exists c :: c in cands && c.exp == e
  }

  lemma RankedTogether(a: seq<Ranked>, b: seq<Ranked>)
    requires RankedOnce(a) && RankedOnce(b)
    requires forall c, d :: c in a && d in b ==> c.exp != d.exp
    ensures RankedOnce(a + b)
    ensures forall e :: IsRanked(a + b, e) <==> IsRanked(a, e) || IsRanked(b, e)
  {
    forall c
      ensures multiset(a + b)[c] <= 1
    {
      assert multiset(a + b)[c] == multiset(a)[c] + multiset(b)[c];
      assert c in a ==> c !in b;
    }
    forall e
      ensures IsRanked(a + b, e) <==> IsRanked(a, e) || IsRanked(b, e)
    {
      assert forall c :: c in a + b <==> c in a || c in b;
    }
  }

  method RankList(list: seq<Expectation>, q: Query, ghost kind: Kind, ghost key: Key, ghost s: Store)
    returns (r: seq<Ranked>)
    requires Expectations.Inv(s) && list == s.List(kind, key) && OnOperation(kind, key, q)
    ensures RankedOnce(r)
    ensures forall c :: c in r ==> IsRank(c, s, q) && c.exp in list
    ensures forall e :: e in list && Miss(s, e, q) ==> IsRanked(r, e)
  {
    ListInv(s, kind, key);
    r := [];
    for i := 0 to |list|
      invariant RankedOnce(r)
      invariant forall c :: c in r ==> IsRank(c, s, q) && c.exp in list[..i]
      invariant forall e :: e in list[..i] && Miss(s, e, q) ==> IsRanked(r, e)
    {
      var e := list[i];
      var explained := Explain(e.request, q.req);
      var diffs := PathDiff(e, q.path) + explained;
      RankOne(list, i, r, e, diffs, s, q);
      if diffs != [] {
        r := r + [Ranked(e, diffs)];
      }
    }
    assert list[..|list|] == list;
  }

  /** Adding the stub at index i, if it has any differences. */
  lemma RankOne(list: seq<Expectation>, i: nat, r: seq<Ranked>, e: Expectation, diffs: seq<Difference>,
                s: Store, q: Query)
    requires i < |list| && e == list[i] && Increasing(list) && Considered(s, e, q)
    requires multiset(diffs) == StubDiffs(e, q)
    requires RankedOnce(r)
    requires forall c :: c in r ==> IsRank(c, s, q) && c.exp in list[..i]
    requires forall f :: f in list[..i] && Miss(s, f, q) ==> IsRanked(r, f)
    ensures var r' := if diffs == [] then r else r + [Ranked(e, diffs)];
            && RankedOnce(r')
            && (forall c :: c in r' ==> IsRank(c, s, q) && c.exp in list[..i + 1])
            && (forall f :: f in list[..i + 1] && Miss(s, f, q) ==> IsRanked(r', f))
  {
    assert list[..i + 1] == list[..i] + [e];
    assert e !in list[..i];
    if diffs != [] {
      assert diffs[0] in multiset(diffs);
      assert Ranked(e, diffs) in [Ranked(e, diffs)];
      RankedTogether(r, [Ranked(e, diffs)]);
    }
  }

  predicate RankLe(a: Ranked, b: Ranked) {
    |a.diffs| < |b.diffs| || (|a.diffs| == |b.diffs| && a.exp.seqNo >= b.exp.seqNo)
  }

  lemma RankLeIsPreorder()
    ensures TotalPreorder(RankLe)
  {
  }

  lemma TwiceInBag(s: seq<Ranked>, i: nat, j: nat)
    requires i < j < |s| && s[i] == s[j]
    ensures multiset(s)[s[i]] >= 2
  {
    assert s == s[..j] + s[j..];
    assert s[i] == s[..j][i] && s[j] == s[j..][0];
    assert s[i] in multiset(s[..j]) && s[i] in multiset(s[j..]);
  }

  lemma StrictlyRanked(cands: seq<Ranked>, sorted: seq<Ranked>, s: Store, q: Query, i: nat, j: nat)
    requires Expectations.Inv(s) && RankedOnce(cands) && multiset(sorted) == multiset(cands)
    requires Sorted(sorted, RankLe) && i < j < |sorted|
    requires IsRank(sorted[i], s, q) && IsRank(sorted[j], s, q)
    ensures Closer(sorted[i].exp, sorted[j].exp, q)
  {
    var c, d := sorted[i], sorted[j];
    assert c in multiset(cands) && d in multiset(cands);
    assert RankLe(c, d);
    SameBagSize(c.diffs, StubDiffs(c.exp, q));
    SameBagSize(d.diffs, StubDiffs(d.exp, q));
    if c.exp.seqNo == d.exp.seqNo {
      assert s.Holds(c.exp) && s.Holds(d.exp);
      assert c.exp == d.exp && c == d;
      TwiceInBag(sorted, i, j);
      assert false;
    }
  }

  lemma SameBagSize(diffs: seq<Difference>, bag: multiset<Difference>)
    requires multiset(diffs) == bag
    ensures |diffs| == |bag|
  {
    assert |multiset(diffs)| == |diffs|;
  }

  /** The first three of the sorted candidates are the three closest misses. */
  lemma RankedIsTop(cands: seq<Ranked>, sorted: seq<Ranked>, s: Store, q: Query, top: seq<Expectation>)
    requires Expectations.Inv(s) && RankedOnce(cands) && multiset(sorted) == multiset(cands)
    requires Sorted(sorted, RankLe)
    requires forall c :: c in cands ==> IsRank(c, s, q)
    requires forall e :: Miss(s, e, q) ==> IsRanked(cands, e)
    requires |top| == if |sorted| < MAX_NEAR_MISSES then |sorted| else MAX_NEAR_MISSES
    requires forall i :: 0 <= i < |top| ==> top[i] == sorted[i].exp
    ensures TopThree(top, s, q)
  {
    var exps := seq(|sorted|, i requires 0 <= i < |sorted| => sorted[i].exp);
    assert top == if |exps| < MAX_NEAR_MISSES then exps else exps[..MAX_NEAR_MISSES];
    SortedMisses(cands, sorted, s, q, exps);
    FirstOfSorted(exps, top, MAX_NEAR_MISSES, MissOf(s, q), CloserTo(q));
  }

  lemma SortedMisses(cands: seq<Ranked>, sorted: seq<Ranked>, s: Store, q: Query, exps: seq<Expectation>)
    requires Expectations.Inv(s) && RankedOnce(cands) && multiset(sorted) == multiset(cands)
    requires Sorted(sorted, RankLe)
    requires forall c :: c in cands ==> IsRank(c, s, q)
    requires forall e :: Miss(s, e, q) ==> IsRanked(cands, e)
    requires |exps| == |sorted| && forall i :: 0 <= i < |exps| ==> exps[i] == sorted[i].exp
    ensures forall i :: 0 <= i < |exps| ==> MissOf(s, q)(exps[i])
    ensures forall i, j :: 0 <= i < j < |exps| ==> CloserTo(q)(exps[i], exps[j])
    ensures forall e :: MissOf(s, q)(e) ==> e in exps
  {
    forall i | 0 <= i < |exps|
      ensures IsRank(sorted[i], s, q) && MissOf(s, q)(exps[i])
    {
      RankAt(cands, sorted, s, q, i);
    }
    forall i, j | 0 <= i < j < |exps|
      ensures CloserTo(q)(exps[i], exps[j])
    {
      StrictlyRanked(cands, sorted, s, q, i, j);
    }
    forall e | MissOf(s, q)(e)
      ensures e in exps
    {
      AllAreSorted(cands, sorted, e);
    }
  }

  lemma RankAt(cands: seq<Ranked>, sorted: seq<Ranked>, s: Store, q: Query, i: nat)
    requires multiset(sorted) == multiset(cands) && i < |sorted|
    requires forall c :: c in cands ==> IsRank(c, s, q)
    ensures IsRank(sorted[i], s, q)
  {
    assert sorted[i] in multiset(cands);
  }

  lemma AllAreSorted(cands: seq<Ranked>, sorted: seq<Ranked>, e: Expectation)
    requires multiset(sorted) == multiset(cands) && IsRanked(cands, e)
    ensures exists i :: 0 <= i < |sorted| && sorted[i].exp == e
  {
    var c :| c in cands && c.exp == e;
    assert c in multiset(sorted);
    var j :| 0 <= j < |sorted| && sorted[j] == c;
  }

  /** Every miss among the templates and under the exact keys seen so far is ranked once. */
  ghost predicate RankedSoFar(cands: seq<Ranked>, seen: set<Key>, s: Store, q: Query) {
    && RankedOnce(cands)
    && (forall c :: c in cands ==> IsRank(c, s, q) && (c.exp.kind == Template || c.exp.key in seen))
    && (forall e :: Miss(s, e, q) && (e.kind == Template || e.key in seen) ==> IsRanked(cands, e))
  }

  lemma RankKey(cands: seq<Ranked>, more: seq<Ranked>, seen: set<Key>, k: Key, s: Store, q: Query)
    requires Expectations.Inv(s) && RankedSoFar(cands, seen, s, q) && k !in seen && RankedOnce(more)
    requires forall c :: c in more ==> IsRank(c, s, q) && c.exp in s.List(Exact, k)
    requires forall e :: e in s.List(Exact, k) && Miss(s, e, q) ==> IsRanked(more, e)
    ensures RankedSoFar(cands + more, seen + {k}, s, q)
  {
    ListInv(s, Exact, k);
    RankedTogether(cands, more);
  }

  method RankAll(exact: Bucket, templates: seq<Expectation>, q: Query, ghost s: Store) returns (cands: seq<Ranked>)
    requires Expectations.Inv(s) && exact == s.exact && templates == s.List(Template, Key(q.verb, q.opTemplate))
    ensures RankedOnce(cands)
    ensures forall c :: c in cands ==> IsRank(c, s, q)
    ensures forall e :: Miss(s, e, q) ==> IsRanked(cands, e)
  {
    cands := RankList(templates, q, Template, Key(q.verb, q.opTemplate), s);
    ghost var seen: set<Key> := {};
    var rest := set k | k in exact && k.verb == q.verb && q.templateOf(q.verb, k.path) == q.opTemplate;
    while rest != {}
      invariant rest !! seen
      invariant forall k :: k in rest || k in seen <==> k in exact && OnOperation(Exact, k, q)
      invariant RankedSoFar(cands, seen, s, q)
      decreases rest
    {
      var k :| k in rest;
      var more := RankList(ListIn(exact, k), q, Exact, k, s);
      RankKey(cands, more, seen, k, s, q);
      cands, rest, seen := cands + more, rest - {k}, seen + {k};
    }
  }

  method FirstThree(cands: seq<Ranked>, q: Query, ghost s: Store) returns (out: seq<NearMiss>)
    requires Expectations.Inv(s) && RankedOnce(cands)
    requires forall c :: c in cands ==> IsRank(c, s, q)
    requires forall e :: Miss(s, e, q) ==> IsRanked(cands, e)
    ensures ClosestThree(out, s, q)
  {
    RankLeIsPreorder();
    var sorted := SortBy(cands, RankLe);
    var n := if |sorted| < MAX_NEAR_MISSES then |sorted| else MAX_NEAR_MISSES;
    ghost var top := seq(n, i requires 0 <= i < n => sorted[i].exp);
    out := seq(n, i requires 0 <= i < n => NearMiss(sorted[i].exp.id, sorted[i].exp.key, sorted[i].diffs));
    RankedIsTop(cands, sorted, s, q, top);
    DescribedBySorted(cands, sorted, s, q, out, top);
  }

  lemma DescribedBySorted(cands: seq<Ranked>, sorted: seq<Ranked>, s: Store, q: Query,
                          out: seq<NearMiss>, top: seq<Expectation>)
    requires multiset(sorted) == multiset(cands) && |out| == |top| <= |sorted|
    requires forall c :: c in cands ==> IsRank(c, s, q)
    requires forall i :: 0 <= i < |out| ==>
               out[i] == NearMiss(sorted[i].exp.id, sorted[i].exp.key, sorted[i].diffs) && top[i] == sorted[i].exp
    ensures forall i :: 0 <= i < |out| ==> Describes(out[i], top[i], q)
  {
    forall i | 0 <= i < |out|
      ensures Describes(out[i], top[i], q)
    {
      RankAt(cands, sorted, s, q, i);
    }
  }
}
