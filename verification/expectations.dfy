/** The expectation store (internal/matches/store.go, internal/matches/expectation.go) as
    a value: what each operation does to the two keyed buckets and the hit counters, the
    facts every operation keeps, and what Find therefore returns. */
module Expectations {
  import opened Prelude
  import opened Lists
  import opened Matching

  datatype Kind = Exact | Template

  datatype Key = Key(verb: string, path: string)

  datatype ResponseDef = ResponseDef(status: int, headers: map<string, string>, body: Body)

  /** `further` lists the answers after the first, `seqNo` is the registration counter. */
  datatype Expectation = Expectation(
    id: string, key: Key, kind: Kind, request: Option<RequestMatcher>,
    response: ResponseDef, further: seq<ResponseDef>, seqNo: nat)

  type Bucket = map<Key, seq<Expectation>>

  datatype Store = Store(exact: Bucket, template: Bucket, hits: map<string, nat>, seqNo: nat)
  {
    function Bucket(k: Kind): Bucket {
      if k == Template then template else exact
    }

    function WithBucket(k: Kind, b: Bucket): Store {
      if k == Template then this.(template := b) else this.(exact := b)
    }

    function List(kind: Kind, key: Key): seq<Expectation> {
      ListIn(Bucket(kind), key)
    }

    /** e is stored: it sits in the list its own kind and key name. */
    predicate Holds(e: Expectation) {
      e in List(e.kind, e.key)
    }
  }

  const EMPTY := Store(map[], map[], map[], 0)

  function ListIn(b: Bucket, key: Key): seq<Expectation> {
    if key in b then b[key] else []
  }

  // ------------------------------------------------------------------ operations

  predicate Increasing(list: seq<Expectation>) {
    forall i, j :: 0 <= i < j < |list| ==> list[i].seqNo < list[j].seqNo
  }

  predicate DistinctMatchers(list: seq<Expectation>) {
    forall i, j :: 0 <= i < j < |list| ==> !MatcherEqual(list[i].request, list[j].request)
  }

  lemma {:induction false} FilterKeepsOrder(list: seq<Expectation>, p: Expectation -> bool)
    requires Increasing(list) && DistinctMatchers(list)
    ensures Increasing(Filtered(list, p)) && DistinctMatchers(Filtered(list, p))
  {
    if list != [] {
      var front, last := list[..|list| - 1], list[|list| - 1];
      FilterKeepsOrder(front, p);
      FilteredHas(front, p);
      forall e | e in front
        ensures e.seqNo < last.seqNo && !MatcherEqual(e.request, last.request)
      {
        var i :| 0 <= i < |front| && list[i] == e;
      }
      AppendKeepsOrder(Filtered(front, p), last);
    }
  }

  lemma AppendKeepsOrder(list: seq<Expectation>, x: Expectation)
    requires Increasing(list) && DistinctMatchers(list)
    requires forall e :: e in list ==> e.seqNo < x.seqNo && !MatcherEqual(e.request, x.request)
    ensures Increasing(list + [x]) && DistinctMatchers(list + [x])
  {
    assert forall i :: 0 <= i < |list| ==> list[i] in list;
  }

  function Unlike(rm: Option<RequestMatcher>): Expectation -> bool {
    (e: Expectation) => !MatcherEqual(e.request, rm)
  }

  function NotId(id: string): Expectation -> bool {
    (e: Expectation) => e.id != id
  }

  function Ids(list: seq<Expectation>): set<string> {
    set e | e in list :: e.id
  }

  /** The ids of the stubs an equal matcher replaces. */
  function Superseded(list: seq<Expectation>, rm: Option<RequestMatcher>): set<string> {
    set e | e in list && MatcherEqual(e.request, rm) :: e.id
  }

  /** What Put stores: an empty matcher becomes nil, id and counter are assigned. */
  function Stamped(s: Store, exp: Expectation, id: string): Expectation {
    exp.(id := id, request := Normalised(exp.request), seqNo := s.seqNo + 1)
  }

  /** An empty matcher is a catch-all. */
  function Normalised(rm: Option<RequestMatcher>): Option<RequestMatcher> {
    if IsEmpty(rm) then None else rm
  }

  function Put(s: Store, exp: Expectation, id: string): Store {
    var e := Stamped(s, exp, id);
    var list := s.List(e.kind, e.key);
    s.WithBucket(e.kind, s.Bucket(e.kind)[e.key := Filtered(list, Unlike(e.request)) + [e]])
    .(hits := (s.hits - Superseded(list, e.request))[id := 0], seqNo := s.seqNo + 1)
  }

  function Without(b: Bucket, id: string): Bucket {
    map k | k in b && Filtered(b[k], NotId(id)) != [] :: Filtered(b[k], NotId(id))
  }

  function Delete(s: Store, id: string): Store {
    s.(exact := Without(s.exact, id), template := Without(s.template, id), hits := s.hits - {id})
  }

  function ResetEndpoint(s: Store, kind: Kind, key: Key): Store {
    s.WithBucket(kind, s.Bucket(kind) - {key}).(hits := s.hits - Ids(s.List(kind, key)))
  }

  function ResetAll(s: Store): Store {
    EMPTY.(seqNo := s.seqNo)
  }

  predicate Qualifies(e: Expectation, req: Request, catchAll: bool) {
    e.request.None? == catchAll && Satisfies(req, e.request)
  }

  function NewestMatch(list: seq<Expectation>, req: Request, catchAll: bool): (r: Option<Expectation>)
    ensures r.None? ==> forall e :: e in list ==> !Qualifies(e, req, catchAll)
    ensures r.Some? ==> r.value in list && Qualifies(r.value, req, catchAll)
    ensures r.Some? && Increasing(list) ==>
              forall e :: e in list && Qualifies(e, req, catchAll) && e != r.value ==> e.seqNo < r.value.seqNo
  {
    if list == [] then None
    else
      var front, last := list[..|list| - 1], list[|list| - 1];
      assert list == front + [last];
      if Qualifies(last, req, catchAll) then Some(last) else NewestMatch(front, req, catchAll)
  }

  function Or(a: Option<Expectation>, b: Option<Expectation>): Option<Expectation> {
    if a.Some? then a else b
  }

  /** The four tiers of Find. */
  function FirstOf(exact: seq<Expectation>, tmpl: seq<Expectation>, req: Request): Option<Expectation> {
    Or(NewestMatch(exact, req, false),
       Or(NewestMatch(exact, req, true),
          Or(NewestMatch(tmpl, req, false), NewestMatch(tmpl, req, true))))
  }

  function Select(s: Store, verb: string, path: string, opTemplate: string, req: Request): Option<Expectation> {
    FirstOf(s.List(Exact, Key(verb, path)), s.List(Template, Key(verb, opTemplate)), req)
  }

  // ---------------------------------------------------------------- the invariant

  ghost predicate BucketInv(b: Bucket, kind: Kind) {
    forall k :: k in b ==>
      && b[k] != []
      && Increasing(b[k])
      && DistinctMatchers(b[k])
      && (forall e :: e in b[k] ==> e.kind == kind && e.key == k)
  }

  ghost predicate EntriesInv(s: Store) {
    forall e :: s.Holds(e) ==>
      (e.request.None? || !IsEmpty(e.request)) && 1 <= e.seqNo <= s.seqNo && e.id in s.hits
  }

  ghost predicate UniqueInv(s: Store) {
    forall e, f :: s.Holds(e) && s.Holds(f) && (e.id == f.id || e.seqNo == f.seqNo) ==> e == f
  }

  ghost predicate Stores(s: Store, id: string) {
    exists e :: s.Holds(e) && e.id == id
  }

  ghost predicate Inv(s: Store) {
    && BucketInv(s.exact, Exact)
    && BucketInv(s.template, Template)
    && EntriesInv(s)
    && UniqueInv(s)
    && forall id :: id in s.hits ==> Stores(s, id)
  }

  /** Counter keys are exactly the stored ids. */
  lemma CountersAreTheStoredIds(s: Store, id: string)
    requires Inv(s)
    ensures id in s.hits <==> Stores(s, id)
  {
  }

  /** The stub is what the caller registered: same operation and answers, and it accepts the
      same requests. Only its id and its place in the order are new. */
  ghost predicate Registers(exp: Expectation, n: Expectation) {
    && n.key == exp.key && n.kind == exp.kind && n.response == exp.response && n.further == exp.further
    && forall req :: Satisfies(req, n.request) == Satisfies(req, exp.request)
  }

  lemma StampedRegisters(s: Store, exp: Expectation, id: string)
    ensures var n := Stamped(s, exp, id);
            Registers(exp, n) && n.id == id && n.seqNo == s.seqNo + 1
            && (n.request.None? <==> forall req :: Satisfies(req, exp.request))
  {
    EmptyIffCatchAll(exp.request);
  }

  /** What Put keeps and adds. */
  lemma PutHolds(s: Store, exp: Expectation, id: string, e: Expectation)
    requires Inv(s)
    ensures Registers(exp, Stamped(s, exp, id))
    ensures var n := Stamped(s, exp, id);
            Put(s, exp, id).Holds(e) <==>
            e == n || (s.Holds(e) && !(e.kind == n.kind && e.key == n.key && MatcherEqual(e.request, n.request)))
  {
    var n := Stamped(s, exp, id);
    StampedRegisters(s, exp, id);
    PutLists(s, exp, id, e.kind, e.key);
    if e.kind == n.kind && e.key == n.key {
      FilteredHas(s.List(n.kind, n.key), Unlike(n.request));
    }
  }

  /** Put rewrites one list and leaves every other alone. */
  lemma PutLists(s: Store, exp: Expectation, id: string, kind: Kind, key: Key)
    ensures var n := Stamped(s, exp, id);
            Put(s, exp, id).List(kind, key)
            == if kind == n.kind && key == n.key then Filtered(s.List(kind, key), Unlike(n.request)) + [n]
               else s.List(kind, key)
  {
  }

  lemma ListInv(s: Store, kind: Kind, key: Key)
    requires Inv(s)
    ensures Increasing(s.List(kind, key)) && DistinctMatchers(s.List(kind, key))
    ensures forall e :: e in s.List(kind, key) ==> e.kind == kind && e.key == key && s.Holds(e)
  {
    assert BucketInv(s.Bucket(kind), kind);
  }

  lemma PutKeepsList(s: Store, exp: Expectation, id: string)
    requires Inv(s)
    ensures var n := Stamped(s, exp, id);
            var list := Filtered(s.List(n.kind, n.key), Unlike(n.request)) + [n];
            && Increasing(list) && DistinctMatchers(list)
            && forall e :: e in list ==> e.kind == n.kind && e.key == n.key
  {
    var n := Stamped(s, exp, id);
    ListInv(s, n.kind, n.key);
    FilterKeepsOrder(s.List(n.kind, n.key), Unlike(n.request));
    FilteredHas(s.List(n.kind, n.key), Unlike(n.request));
    AppendKeepsOrder(Filtered(s.List(n.kind, n.key), Unlike(n.request)), n);
  }

  lemma PutKeepsBuckets(s: Store, exp: Expectation, id: string)
    requires Inv(s)
    ensures BucketInv(Put(s, exp, id).exact, Exact) && BucketInv(Put(s, exp, id).template, Template)
  {
    PutKeepsList(s, exp, id);
  }

  lemma PutKeepsEntries(s: Store, exp: Expectation, id: string, e: Expectation)
    requires Inv(s) && id !in s.hits && Put(s, exp, id).Holds(e)
    ensures (e.request.None? || !IsEmpty(e.request)) && 1 <= e.seqNo <= s.seqNo + 1 && e.id in Put(s, exp, id).hits
    ensures e != Stamped(s, exp, id) ==> s.Holds(e) && e.id != id && e.seqNo <= s.seqNo
  {
    var n := Stamped(s, exp, id);
    PutHolds(s, exp, id, e);
    if e != n {
      SurvivorKeepsCounter(s, n, e);
    }
  }

  /** A stub that Put keeps is not among those whose counters it drops. */
  lemma SurvivorKeepsCounter(s: Store, n: Expectation, e: Expectation)
    requires Inv(s) && s.Holds(e)
    requires !(e.kind == n.kind && e.key == n.key && MatcherEqual(e.request, n.request))
    ensures e.id !in Superseded(s.List(n.kind, n.key), n.request)
  {
    ListInv(s, n.kind, n.key);
  }

  lemma PutKeepsCounters(s: Store, exp: Expectation, id: string, x: string)
    requires Inv(s) && id !in s.hits && x in Put(s, exp, id).hits
    ensures Stores(Put(s, exp, id), x)
  {
    var n := Stamped(s, exp, id);
    if x == id {
      PutHolds(s, exp, id, n);
    } else {
      var e :| s.Holds(e) && e.id == x;
      PutHolds(s, exp, id, e);
    }
  }

  lemma PutKeepsUnique(s: Store, exp: Expectation, id: string)
    requires Inv(s) && id !in s.hits
    ensures EntriesInv(Put(s, exp, id)) && UniqueInv(Put(s, exp, id))
  {
    var t := Put(s, exp, id);
    forall e | t.Holds(e)
      ensures (e.request.None? || !IsEmpty(e.request)) && 1 <= e.seqNo <= t.seqNo && e.id in t.hits
      ensures e != Stamped(s, exp, id) ==> s.Holds(e) && e.id != id && e.seqNo <= s.seqNo
    {
      PutKeepsEntries(s, exp, id, e);
    }
  }

  lemma PutKeepsInv(s: Store, exp: Expectation, id: string)
    requires Inv(s) && id !in s.hits
    ensures Inv(Put(s, exp, id))
  {
    PutKeepsBuckets(s, exp, id);
    PutKeepsUnique(s, exp, id);
    forall x | x in Put(s, exp, id).hits
      ensures Stores(Put(s, exp, id), x)
    {
      PutKeepsCounters(s, exp, id, x);
    }
  }

  lemma DeleteHolds(s: Store, id: string, e: Expectation)
    ensures Delete(s, id).Holds(e) <==> s.Holds(e) && e.id != id
  {
    var b := s.Bucket(e.kind);
    if e.key in b {
      FilteredHas(b[e.key], NotId(id));
      assert e in Filtered(b[e.key], NotId(id)) <==> e in b[e.key] && e.id != id;
    }
  }

  lemma WithoutKeepsBucket(b: Bucket, kind: Kind, id: string)
    requires BucketInv(b, kind)
    ensures BucketInv(Without(b, id), kind)
  {
    forall k | k in b
      ensures Increasing(Filtered(b[k], NotId(id))) && DistinctMatchers(Filtered(b[k], NotId(id)))
      ensures forall e :: e in Filtered(b[k], NotId(id)) ==> e in b[k]
    {
      FilterKeepsOrder(b[k], NotId(id));
      FilteredHas(b[k], NotId(id));
    }
  }

  lemma DeleteKeepsInv(s: Store, id: string)
    requires Inv(s)
    ensures Inv(Delete(s, id))
  {
    var t := Delete(s, id);
    WithoutKeepsBucket(s.exact, Exact, id);
    WithoutKeepsBucket(s.template, Template, id);
    forall e
      ensures t.Holds(e) <==> s.Holds(e) && e.id != id
    {
      DeleteHolds(s, id, e);
    }
    FewerKeepsInv(s, t);
  }

  /** An operation that only removes stubs, along with exactly their counters, keeps
      the invariant. */
  lemma FewerKeepsInv(s: Store, t: Store)
    requires Inv(s) && t.seqNo == s.seqNo
    requires BucketInv(t.exact, Exact) && BucketInv(t.template, Template)
    requires forall e :: t.Holds(e) ==> s.Holds(e) && e.id in t.hits
    requires forall e :: s.Holds(e) && e.id in t.hits ==> t.Holds(e)
    requires t.hits.Keys <= s.hits.Keys
    ensures Inv(t)
  {
    forall id | id in t.hits
      ensures Stores(t, id)
    {
      assert Stores(s, id);
      var e :| s.Holds(e) && e.id == id;
      assert t.Holds(e);
    }
  }

  lemma ResetEndpointHolds(s: Store, kind: Kind, key: Key, e: Expectation)
    requires Inv(s)
    ensures ResetEndpoint(s, kind, key).Holds(e) <==> s.Holds(e) && e.id !in Ids(s.List(kind, key))
  {
    ListInv(s, kind, key);
    ResetLists(s, kind, key, e.kind, e.key);
    if s.Holds(e) {
      OnlyItselfSharesId(s, e, kind, key);
    }
  }

  lemma OnlyItselfSharesId(s: Store, e: Expectation, kind: Kind, key: Key)
    requires Inv(s) && s.Holds(e)
    ensures e.id in Ids(s.List(kind, key)) <==> e in s.List(kind, key)
  {
    ListInv(s, kind, key);
  }

  lemma ResetLists(s: Store, kind: Kind, key: Key, kind': Kind, key': Key)
    ensures ResetEndpoint(s, kind, key).List(kind', key')
            == if kind' == kind && key' == key then [] else s.List(kind', key')
  {
  }

  lemma ResetEndpointKeepsInv(s: Store, kind: Kind, key: Key)
    requires Inv(s)
    ensures Inv(ResetEndpoint(s, kind, key))
  {
    var t := ResetEndpoint(s, kind, key);
    forall e
      ensures t.Holds(e) <==> s.Holds(e) && e.id !in Ids(s.List(kind, key))
    {
      ResetEndpointHolds(s, kind, key, e);
    }
    FewerKeepsInv(s, t);
  }

  /** ResetAll leaves no stub and no counter, and numbers later stubs after earlier ones. */
  lemma ResetAllHolds(s: Store, e: Expectation, verb: string, path: string, opTemplate: string, req: Request)
    ensures !ResetAll(s).Holds(e) && ResetAll(s).hits == map[] && ResetAll(s).seqNo == s.seqNo
    ensures Select(ResetAll(s), verb, path, opTemplate, req).None?
  {
  }

  // ------------------------------------------------------------------------ Find

  /** e could answer this request. */
  predicate Candidate(s: Store, e: Expectation, verb: string, path: string, opTemplate: string, req: Request) {
    && (e in s.List(Exact, Key(verb, path)) || e in s.List(Template, Key(verb, opTemplate)))
    && Satisfies(req, e.request)
  }

  /** The documented precedence: exact path first, then a request matcher, then newest. */
  predicate Outranks(e: Expectation, f: Expectation) {
    if e.kind != f.kind then e.kind == Exact
    else if e.request.Some? != f.request.Some? then e.request.Some?
    else e.seqNo > f.seqNo
  }

  /** Find answers with the one candidate that outranks all others, and with nothing
      only when no stored stub matches. */
  lemma FindIsMaximal(s: Store, verb: string, path: string, opTemplate: string, req: Request)
    requires Inv(s)
    ensures var r := Select(s, verb, path, opTemplate, req);
            && (r.None? ==> forall e :: !Candidate(s, e, verb, path, opTemplate, req))
            && (r.Some? ==>
                  && Candidate(s, r.value, verb, path, opTemplate, req)
                  && forall e :: Candidate(s, e, verb, path, opTemplate, req) && e != r.value ==>
                       Outranks(r.value, e))
  {
    var exact, tmpl := s.List(Exact, Key(verb, path)), s.List(Template, Key(verb, opTemplate));
    ListInv(s, Exact, Key(verb, path));
    ListInv(s, Template, Key(verb, opTemplate));
    FirstOfIsMaximal(exact, tmpl, req);
  }

  /** The same on the two lists alone. */
  lemma FirstOfIsMaximal(exact: seq<Expectation>, tmpl: seq<Expectation>, req: Request)
    requires Increasing(exact) && Increasing(tmpl)
    requires (forall e :: e in exact ==> e.kind == Exact) && (forall e :: e in tmpl ==> e.kind == Template)
    ensures var r := FirstOf(exact, tmpl, req);
            && (r.None? ==> forall e :: e in exact || e in tmpl ==> !Satisfies(req, e.request))
            && (r.Some? ==>
                  && (r.value in exact || r.value in tmpl) && Satisfies(req, r.value.request)
                  && forall e :: (e in exact || e in tmpl) && Satisfies(req, e.request) && e != r.value ==>
                       Outranks(r.value, e))
  {
    assert forall e: Expectation :: Satisfies(req, e.request) ==> Qualifies(e, req, e.request.None?);
  }

  // -------------------------------------------------------------- answer sequences

  /** Expectation.Served for the hit number Find returned. */
  function Served(e: Expectation, hits: int): ResponseDef {
    if hits <= 1 || |e.further| == 0 then e.response
    else e.further[if hits - 2 < |e.further| - 1 then hits - 2 else |e.further| - 1]
  }

  /** The answers a caller sees, in order; the last one repeats forever. */
  function Answers(e: Expectation): seq<ResponseDef> {
    [e.response] + e.further
  }

  lemma ServedFollowsAnswers(e: Expectation, n: nat)
    ensures Served(e, n + 1) == Answers(e)[if n < |e.further| then n else |e.further|]
  {
  }
}
