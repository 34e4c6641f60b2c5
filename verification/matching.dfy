/** The request matcher (internal/matches/matcher.go, internal/matches/nearmiss.go): it
    decides by listing differences, and the list is empty exactly when the request
    satisfies a plain subset relation. Go ranges over maps in no fixed order, so the
    lists are specified by the bag of differences they hold. */
module Matching {
  import opened Prelude
  import opened Sorting

  datatype Json =
    | Null
    | Bool(b: bool)
    | Num(n: real)
    | Str(s: string)
    | Arr(items: seq<Json>)
    | Obj(fields: map<string, Json>)

  /** A body: no bytes at all, not JSON, or a document. A matcher's body is trimmed before
      it is judged; a request's is not, so one of white space only is Invalid. */
  datatype Body = Absent | Invalid | Doc(value: Json)

  /** A None map is Go's nil map, which reflect.DeepEqual tells apart from an empty one. */
  datatype RequestMatcher = RequestMatcher(
    query: Option<map<string, string>>, headers: Option<map<string, string>>, body: Body)

  datatype Request = Request(query: map<string, seq<string>>, headers: map<string, seq<string>>, body: Body)

  datatype Reason = Mismatch | Missing | InvalidJson

  datatype Difference = Difference(field: string, reason: Reason, want: Option<Json>, got: Option<Json>)

  // ------------------------------------------------------------------ JSON bodies

  /** want is a recursive sub-document of got: objects may have more keys, everything
      else is equal. */
  predicate SubDocument(want: Json, got: Json)
    decreases want
  {
    if want.Obj? then
      got.Obj? && forall k :: k in want.fields ==> k in got.fields && SubDocument(want.fields[k], got.fields[k])
    else
      want == got
  }

  lemma {:induction false} SubDocumentReflexive(a: Json)
    ensures SubDocument(a, a)
    decreases a
  {
    if a.Obj? {
      forall k | k in a.fields
        ensures SubDocument(a.fields[k], a.fields[k])
      {
        SubDocumentReflexive(a.fields[k]);
      }
    }
  }

  lemma {:induction false} SubDocumentTransitive(a: Json, b: Json, c: Json)
    requires SubDocument(a, b) && SubDocument(b, c)
    ensures SubDocument(a, c)
    decreases a
  {
    if a.Obj? {
      forall k | k in a.fields
        ensures k in c.fields && SubDocument(a.fields[k], c.fields[k])
      {
        SubDocumentTransitive(a.fields[k], b.fields[k], c.fields[k]);
      }
    }
  }

  lemma {:induction false} SubDocumentAntisymmetric(a: Json, b: Json)
    requires SubDocument(a, b) && SubDocument(b, a)
    ensures a == b
    decreases a
  {
    if a.Obj? {
      forall k | k in a.fields
        ensures a.fields[k] == b.fields[k]
      {
        SubDocumentAntisymmetric(a.fields[k], b.fields[k]);
      }
      assert a.fields == b.fields;
    }
  }

  function Differs(field: string, want: Json, got: Json): Difference {
    Difference(field, Mismatch, Some(want), Some(got))
  }

  /** The differences of two values. */
  ghost function Diffs(field: string, want: Json, got: Json): multiset<Difference>
    decreases want, 1, 0
  {
    if !want.Obj? then
      if want == got then multiset{} else multiset{Differs(field, want, got)}
    else if !got.Obj? then multiset{Differs(field, want, got)}
    else KeyDiffs(field, want, got, want.fields.Keys)
  }

  ghost function KeyDiff(field: string, want: Json, got: Json, k: string): multiset<Difference>
    requires want.Obj? && got.Obj? && k in want.fields
    decreases want, 0, 0
  {
    if k !in got.fields then multiset{Difference(field + "." + k, Missing, Some(want.fields[k]), None)}
    else Diffs(field + "." + k, want.fields[k], got.fields[k])
  }

  ghost function KeyDiffs(field: string, want: Json, got: Json, keys: set<string>): multiset<Difference>
    requires want.Obj? && got.Obj? && keys <= want.fields.Keys
    decreases want, 0, |keys| + 1
  {
    if keys == {} then multiset{}
    else
      var k :| k in keys;
      KeyDiff(field, want, got, k) + KeyDiffs(field, want, got, keys - {k})
  }

  /** Whichever key comes first, the bag is the same. */
  lemma {:induction false} KeyDiffsExtract(field: string, want: Json, got: Json, keys: set<string>, k: string)
    requires want.Obj? && got.Obj? && keys <= want.fields.Keys && k in keys
    ensures KeyDiffs(field, want, got, keys)
            == KeyDiff(field, want, got, k) + KeyDiffs(field, want, got, keys - {k})
    decreases |keys|
  {
    var c :| c in keys && KeyDiffs(field, want, got, keys)
                          == KeyDiff(field, want, got, c) + KeyDiffs(field, want, got, keys - {c});
    if c != k {
      KeyDiffsExtract(field, want, got, keys - {c}, k);
      KeyDiffsExtract(field, want, got, keys - {k}, c);
      assert keys - {c} - {k} == keys - {k} - {c};
    }
  }

  /** No differences exactly when want is a sub-document of got. */
  lemma {:induction false} DiffsEmptyIffSubDocument(field: string, want: Json, got: Json)
    ensures Diffs(field, want, got) == multiset{} <==> SubDocument(want, got)
    decreases want, 1, 0
  {
    if want.Obj? && got.Obj? {
      KeyDiffsEmpty(field, want, got, want.fields.Keys);
    }
  }

  lemma {:induction false} KeyDiffsEmpty(field: string, want: Json, got: Json, keys: set<string>)
    requires want.Obj? && got.Obj? && keys <= want.fields.Keys
    ensures KeyDiffs(field, want, got, keys) == multiset{}
            <==> forall k :: k in keys ==> k in got.fields && SubDocument(want.fields[k], got.fields[k])
    decreases want, 0, |keys| + 1
  {
    if keys != {} {
      var k :| k in keys;
      KeyDiffsExtract(field, want, got, keys, k);
      KeyDiffsEmpty(field, want, got, keys - {k});
      if k in got.fields {
        DiffsEmptyIffSubDocument(field + "." + k, want.fields[k], got.fields[k]);
      }
    }
  }

  /** explainValue, ranging over the wanted keys in whatever order. */
  method ExplainValue(field: string, want: Json, got: Json) returns (diffs: seq<Difference>)
    ensures multiset(diffs) == Diffs(field, want, got)
    decreases want
  {
    if !want.Obj? {
      return if want == got then [] else [Differs(field, want, got)];
    }
    if !got.Obj? {
      return [Differs(field, want, got)];
    }
    diffs := [];
    var rest := want.fields.Keys;
    while rest != {}
      invariant rest <= want.fields.Keys
      invariant multiset(diffs) + KeyDiffs(field, want, got, rest)
                == KeyDiffs(field, want, got, want.fields.Keys)
      decreases rest
    {
      var k :| k in rest;
      var inner;
      if k !in got.fields {
        inner := [Difference(field + "." + k, Missing, Some(want.fields[k]), None)];
      } else {
        inner := ExplainValue(field + "." + k, want.fields[k], got.fields[k]);
      }
      KeyDiffsExtract(field, want, got, rest, k);
      BagsAdd(diffs, inner, KeyDiffs(field, want, got, rest - {k}));
      diffs, rest := diffs + inner, rest - {k};
    }
  }

  lemma BagsAdd(a: seq<Difference>, b: seq<Difference>, c: multiset<Difference>)
    ensures multiset(a + b) + c == multiset(a) + (multiset(b) + c)
  {
  }

  predicate NoBody(body: Body) {
    body.Absent? || body == Doc(Null)
  }

  ghost function BodyDiffs(want: Body, got: Body): multiset<Difference> {
    if NoBody(want) then multiset{}
    else if got.Absent? then
      multiset{Difference("body", Missing, if want.Doc? then Some(want.value) else None, None)}
    else if want.Invalid? || got.Invalid? then multiset{Difference("body", InvalidJson, None, None)}
    else Diffs("body", want.value, got.value)
  }

  method ExplainBody(want: Body, got: Body) returns (diffs: seq<Difference>)
    ensures multiset(diffs) == BodyDiffs(want, got)
  {
    if NoBody(want) {
      return [];
    }
    if got.Absent? {
      return [Difference("body", Missing, if want.Doc? then Some(want.value) else None, None)];
    }
    if want.Invalid? || got.Invalid? {
      return [Difference("body", InvalidJson, None, None)];
    }
    diffs := ExplainValue("body", want.value, got.value);
  }

  // ------------------------------------------------------------ query and headers

  const TOKEN_MARKS := "!#$%&'*+-.^_`|~"

  predicate HeaderByte(c: char) {
    'a' <= c <= 'z' || 'A' <= c <= 'Z' || '0' <= c <= '9' || c in TOKEN_MARKS
  }

  function Cased(c: char, upper: bool): char {
    if upper && 'a' <= c <= 'z' then c - 'a' + 'A'
    else if !upper && 'A' <= c <= 'Z' then c - 'A' + 'a'
    else c
  }

  /** A letter is upper case at the start and after a hyphen. */
  function CaseAt(s: string, i: nat): char
    requires i < |s|
  {
    Cased(s[i], i == 0 || s[i - 1] == '-')
  }

  /** http.CanonicalHeaderKey. */
  function CanonicalKey(s: string): string {
    if forall i :: 0 <= i < |s| ==> HeaderByte(s[i])
    then seq(|s|, i requires 0 <= i < |s| => CaseAt(s, i))
    else s
  }

  predicate TokenName(s: string) {
    forall i :: 0 <= i < |s| ==> HeaderByte(s[i])
  }

  /** Header names are compared without case and in no other way: two token names have one
      canonical form, and so look up the same value, exactly if they differ in case only. */
  lemma HeaderNamesIgnoreCase(a: string, b: string)
    requires TokenName(a) && TokenName(b)
    ensures CanonicalKey(a) == CanonicalKey(b) <==> EqualFold(a, b)
  {
    if EqualFold(a, b) {
      forall i | 0 <= i < |a|
        ensures CaseAt(a, i) == CaseAt(b, i)
      {
        HeaderByteIsAscii(a[i]);
        HeaderByteIsAscii(b[i]);
        SameFold(a[i], b[i], i == 0 || a[i - 1] == '-');
        if i > 0 {
          HeaderByteIsAscii(a[i - 1]);
          HeaderByteIsAscii(b[i - 1]);
          SameFold(a[i - 1], b[i - 1], true);
        }
      }
      CanonicalFromCases(a, b);
    } else if CanonicalKey(a) == CanonicalKey(b) {
      CanonicalIsSpelling(a);
      CanonicalIsSpelling(b);
    }
  }

  /** The canonical form is a spelling of the name itself. */
  lemma CanonicalIsSpelling(s: string)
    ensures EqualFold(CanonicalKey(s), s)
  {
    forall i | 0 <= i < |s|
      ensures Fold(CaseAt(s, i)) == Fold(s[i])
    {
    }
  }

  /** A name that is no token is left as it is. */
  lemma OtherNamesAreLeftAlone(s: string, i: nat)
    requires i < |s| && !HeaderByte(s[i])
    ensures CanonicalKey(s) == s
  {
  }

  /** It is the one with capitals at the start and after hyphens, and nowhere else. */
  lemma CanonicalCapitals(s: string, i: nat)
    requires TokenName(s) && i < |s|
    ensures |CanonicalKey(s)| == |s|
    ensures var c := CanonicalKey(s)[i];
            if i == 0 || s[i - 1] == '-' then !('a' <= c <= 'z') else !('A' <= c <= 'Z')
  {
    assert CanonicalKey(s)[i] == CaseAt(s, i);
  }

  lemma HeaderByteIsAscii(c: char)
    requires HeaderByte(c)
    ensures c < '\U{0080}'
  {
  }

  lemma SameFold(c: char, d: char, upper: bool)
    requires c < '\U{0080}' && d < '\U{0080}' && Fold(c) == Fold(d)
    ensures Cased(c, upper) == Cased(d, upper) && (c == '-' <==> d == '-')
  {
  }

  lemma CanonicalFromCases(a: string, b: string)
    requires (forall i :: 0 <= i < |a| ==> HeaderByte(a[i])) && (forall i :: 0 <= i < |b| ==> HeaderByte(b[i]))
    requires |a| == |b| && forall i :: 0 <= i < |a| ==> CaseAt(a, i) == CaseAt(b, i)
    ensures CanonicalKey(a) == CanonicalKey(b)
  {
  }

  predicate IsRedactedHeader(name: string) {
    EqualFold(name, "Authorization") || EqualFold(name, "Cookie")
  }

  const REDACTED := Str("[REDACTED]")

  /** url.Values.Get: the first value, or "" when there is none. */
  function First(values: map<string, seq<string>>, k: string): string {
    if k in values && values[k] != [] then values[k][0] else ""
  }

  function Entries(m: Option<map<string, string>>): map<string, string> {
    if m.None? then map[] else m.value
  }

  function QueryDiff(k: string, want: string, req: Request): seq<Difference> {
    var got := First(req.query, k);
    if got == want then []
    else if k !in req.query then [Difference("query." + k, Missing, Some(Str(want)), None)]
    else [Difference("query." + k, Mismatch, Some(Str(want)), Some(Str(got)))]
  }

  function HeaderDiff(k: string, want: string, req: Request): seq<Difference> {
    var key := CanonicalKey(k);
    var got := First(req.headers, key);
    var shown := (v: string) => Some(if IsRedactedHeader(key) then REDACTED else Str(v));
    if got == want then []
    else if key !in req.headers then [Difference("headers." + key, Missing, shown(want), None)]
    else [Difference("headers." + key, Mismatch, shown(want), shown(got))]
  }

  lemma FoldedAlike(a: string, b: string, name: string)
    requires EqualFold(a, b)
    ensures EqualFold(a, name) <==> EqualFold(b, name)
  {
  }

  /** However a matcher spells it: a difference on Authorization or Cookie carries neither
      value, and a difference on any other header carries both. */
  lemma SensitiveHeadersAreNeverEchoed(k: string, want: string, req: Request, d: Difference)
    requires d in HeaderDiff(k, want, req)
    ensures if EqualFold(k, "Authorization") || EqualFold(k, "Cookie")
            then d.want == Some(Str("[REDACTED]")) && (d.got == None || d.got == Some(Str("[REDACTED]")))
            else d.want == Some(Str(want)) && (d.got == None || d.got == Some(Str(First(req.headers, CanonicalKey(k)))))
  {
    CanonicalIsSpelling(k);
    FoldedAlike(CanonicalKey(k), k, "Authorization");
    FoldedAlike(CanonicalKey(k), k, "Cookie");
  }

  ghost function SumOver(keys: set<string>, f: string -> seq<Difference>): multiset<Difference> {
    if keys == {} then multiset{}
    else
      var k :| k in keys;
      multiset(f(k)) + SumOver(keys - {k}, f)
  }

  lemma {:induction false} SumOverExtract(keys: set<string>, f: string -> seq<Difference>, k: string)
    requires k in keys
    ensures SumOver(keys, f) == multiset(f(k)) + SumOver(keys - {k}, f)
    decreases |keys|
  {
    var c :| c in keys && SumOver(keys, f) == multiset(f(c)) + SumOver(keys - {c}, f);
    if c != k {
      SumOverExtract(keys - {c}, f, k);
      SumOverExtract(keys - {k}, f, c);
      assert keys - {c} - {k} == keys - {k} - {c};
    }
  }

  lemma {:induction false} SumOverEmpty(keys: set<string>, f: string -> seq<Difference>)
    ensures SumOver(keys, f) == multiset{} <==> forall k :: k in keys ==> f(k) == []
    decreases |keys|
  {
    if keys != {} {
      var k :| k in keys;
      SumOverExtract(keys, f, k);
      SumOverEmpty(keys - {k}, f);
      assert f(k) != [] ==> f(k)[0] in multiset(f(k));
    }
  }

  method ConcatOver(keys: set<string>, f: string -> seq<Difference>) returns (diffs: seq<Difference>)
    ensures multiset(diffs) == SumOver(keys, f)
  {
    diffs := [];
    var rest := keys;
    while rest != {}
      invariant rest <= keys
      invariant multiset(diffs) + SumOver(rest, f) == SumOver(keys, f)
      decreases rest
    {
      var k :| k in rest;
      SumOverExtract(rest, f, k);
      diffs := diffs + f(k);
      rest := rest - {k};
    }
  }

  // ---------------------------------------------------------------- whole requests

  function QueryDiffAt(rm: RequestMatcher, req: Request): string -> seq<Difference> {
    k => if k in Entries(rm.query) then QueryDiff(k, Entries(rm.query)[k], req) else []
  }

  function HeaderDiffAt(rm: RequestMatcher, req: Request): string -> seq<Difference> {
    k => if k in Entries(rm.headers) then HeaderDiff(k, Entries(rm.headers)[k], req) else []
  }

  ghost function AllDiffs(rm: Option<RequestMatcher>, req: Request): multiset<Difference> {
    if rm.None? then multiset{}
    else
      SumOver(Entries(rm.value.query).Keys, QueryDiffAt(rm.value, req))
      + SumOver(Entries(rm.value.headers).Keys, HeaderDiffAt(rm.value, req))
      + BodyDiffs(rm.value.body, req.body)
  }

  predicate FieldLe(a: Difference, b: Difference) {
    StringLe(a.field, b.field)
  }

  lemma FieldLeIsPreorder()
    ensures TotalPreorder(FieldLe)
  {
    forall a, b
      ensures FieldLe(a, b) || FieldLe(b, a)
    {
      StringLeTotal(a.field, b.field);
    }
    forall a, b, c | FieldLe(a, b) && FieldLe(b, c)
      ensures FieldLe(a, c)
    {
      StringLeTransitive(a.field, b.field, c.field);
    }
  }

  /** Explain: every difference, sorted by field. */
  method Explain(rm: Option<RequestMatcher>, req: Request) returns (diffs: seq<Difference>)
    ensures multiset(diffs) == AllDiffs(rm, req) && Sorted(diffs, FieldLe)
  {
    if rm.None? {
      return [];
    }
    var query := ConcatOver(Entries(rm.value.query).Keys, QueryDiffAt(rm.value, req));
    var headers := ConcatOver(Entries(rm.value.headers).Keys, HeaderDiffAt(rm.value, req));
    var body := ExplainBody(rm.value.body, req.body);
    FieldLeIsPreorder();
    diffs := SortBy(query + headers + body, FieldLe);
  }

  predicate BodySatisfied(want: Body, got: Body) {
    NoBody(want) || (want.Doc? && got.Doc? && SubDocument(want.value, got.value))
  }

  /** The matching relation, without any list of differences. */
  predicate Satisfies(req: Request, rm: Option<RequestMatcher>) {
    rm.None?
    || (&& (forall k :: k in Entries(rm.value.query) ==> First(req.query, k) == Entries(rm.value.query)[k])
        && (forall k :: k in Entries(rm.value.headers) ==>
              First(req.headers, CanonicalKey(k)) == Entries(rm.value.headers)[k])
        && BodySatisfied(rm.value.body, req.body))
  }

  /** The list of differences is empty exactly when the request satisfies the matcher. */
  lemma NoDifferencesIffSatisfies(rm: Option<RequestMatcher>, req: Request)
    ensures AllDiffs(rm, req) == multiset{} <==> Satisfies(req, rm)
  {
    if rm.Some? {
      QueryDiffsEmpty(rm.value, req);
      HeaderDiffsEmpty(rm.value, req);
      BodyDiffsEmpty(rm.value.body, req.body);
    }
  }

  lemma QueryDiffsEmpty(rm: RequestMatcher, req: Request)
    ensures SumOver(Entries(rm.query).Keys, QueryDiffAt(rm, req)) == multiset{}
            <==> forall k :: k in Entries(rm.query) ==> First(req.query, k) == Entries(rm.query)[k]
  {
    var q, f := Entries(rm.query), QueryDiffAt(rm, req);
    SumOverEmpty(q.Keys, f);
    assert forall k :: k in q ==> (f(k) == [] <==> First(req.query, k) == q[k]);
  }

  lemma HeaderDiffsEmpty(rm: RequestMatcher, req: Request)
    ensures SumOver(Entries(rm.headers).Keys, HeaderDiffAt(rm, req)) == multiset{}
            <==> forall k :: k in Entries(rm.headers) ==>
                   First(req.headers, CanonicalKey(k)) == Entries(rm.headers)[k]
  {
    var h, f := Entries(rm.headers), HeaderDiffAt(rm, req);
    SumOverEmpty(h.Keys, f);
    assert forall k :: k in h ==> (f(k) == [] <==> First(req.headers, CanonicalKey(k)) == h[k]);
  }

  lemma BodyDiffsEmpty(want: Body, got: Body)
    ensures BodyDiffs(want, got) == multiset{} <==> BodySatisfied(want, got)
  {
    if want.Doc? && got.Doc? {
      DiffsEmptyIffSubDocument("body", want.value, got.value);
    }
  }

  method Matches(rm: Option<RequestMatcher>, req: Request) returns (ok: bool)
    ensures ok == Satisfies(req, rm)
  {
    var diffs := Explain(rm, req);
    NoDifferencesIffSatisfies(rm, req);
    ok := diffs == [];
    assert diffs != [] ==> diffs[0] in multiset(diffs);
  }

  // ------------------------------------------------------------- what a difference says

  /** The value at the end of a path of keys. */
  function Follow(v: Json, path: seq<string>): Option<Json>
    decreases path
  {
    if path == [] then Some(v)
    else if v.Obj? && path[0] in v.fields then Follow(v.fields[path[0]], path[1..])
    else None
  }

  function Joined(field: string, path: seq<string>): string
    decreases path
  {
    if path == [] then field else Joined(field + "." + path[0], path[1..])
  }

  /** The difference tells what is wanted at the end of this path and what is there: another
      value, two objects never being one, or an object without the last key. */
  predicate DiffersAt(field: string, want: Json, got: Json, path: seq<string>, d: Difference) {
    && d.field == Joined(field, path) && Follow(want, path).Some? && d.want == Follow(want, path)
    && match d.reason
       case Mismatch =>
         && Follow(got, path).Some? && d.got == Follow(got, path) && d.want != d.got
         && !(d.want.value.Obj? && d.got.value.Obj?)
       case Missing =>
         && path != [] && d.got == None && Follow(got, path) == None
         && Follow(got, path[..|path| - 1]).Some? && Follow(got, path[..|path| - 1]).value.Obj?
       case InvalidJson => false
  }

  lemma {:induction false} KeyDiffsHas(field: string, want: Json, got: Json, keys: set<string>, d: Difference)
    requires want.Obj? && got.Obj? && keys <= want.fields.Keys
    ensures d in KeyDiffs(field, want, got, keys) <==> exists k :: k in keys && d in KeyDiff(field, want, got, k)
    decreases |keys|
  {
    if keys != {} {
      var k :| k in keys;
      KeyDiffsExtract(field, want, got, keys, k);
      KeyDiffsHas(field, want, got, keys - {k}, d);
    }
  }

  lemma PathBelow(field: string, want: Json, got: Json, k: string, path: seq<string>, d: Difference)
    requires want.Obj? && got.Obj? && k in want.fields && k in got.fields
    ensures DiffersAt(field, want, got, [k] + path, d)
            <==> DiffersAt(field + "." + k, want.fields[k], got.fields[k], path, d)
  {
    var p := [k] + path;
    assert p[0] == k && p[1..] == path;
    assert Follow(want, p) == Follow(want.fields[k], path) && Follow(got, p) == Follow(got.fields[k], path);
    assert Joined(field, p) == Joined(field + "." + k, path);
    if path != [] {
      assert p[..|p| - 1][0] == k && p[..|p| - 1][1..] == path[..|path| - 1];
    } else {
      assert p[..|p| - 1] == [];
    }
  }

  /** Every reported difference is one, at a path that can be named. */
  lemma {:induction false} ReportedIsDifference(field: string, want: Json, got: Json, d: Difference)
    returns (path: seq<string>)
    requires d in Diffs(field, want, got)
    ensures DiffersAt(field, want, got, path, d)
    decreases want
  {
    if !want.Obj? || !got.Obj? {
      path := [];
    } else {
      KeyDiffsHas(field, want, got, want.fields.Keys, d);
      var k :| k in want.fields && d in KeyDiff(field, want, got, k);
      if k in got.fields {
        var rest := ReportedIsDifference(field + "." + k, want.fields[k], got.fields[k], d);
        path := [k] + rest;
        PathBelow(field, want, got, k, rest, d);
      } else {
        path := [k];
        assert path[1..] == [] && path[..|path| - 1] == [];
      }
    }
  }

  lemma NoWayPast(v: Json, path: seq<string>)
    requires path != [] && !(v.Obj? && path[0] in v.fields)
    ensures |path| > 1 ==> Follow(v, path[..|path| - 1]) == None
    ensures Follow(v, path) == None
  {
  }

  lemma MissingHere(field: string, want: Json, got: Json, path: seq<string>, d: Difference)
    requires DiffersAt(field, want, got, path, d) && path != [] && !(got.Obj? && path[0] in got.fields)
    ensures want.Obj? && path[0] in want.fields && got.Obj?
    ensures d == Difference(field + "." + path[0], Missing, Some(want.fields[path[0]]), None)
  {
    var k := path[0];
    NoWayPast(got, path);
    assert path[1..] == [];
    assert Joined(field, path) == Joined(field + "." + k, []);
    assert Follow(want, path) == Follow(want.fields[k], []);
  }

  /** And every one there is gets reported. */
  lemma {:induction false} DifferenceIsReported(field: string, want: Json, got: Json, path: seq<string>, d: Difference)
    requires DiffersAt(field, want, got, path, d)
    ensures d in Diffs(field, want, got)
    decreases path
  {
    if path != [] {
      var k, rest := path[0], path[1..];
      assert path == [k] + rest;
      assert path[..|path| - 1] == if rest == [] then [] else [k] + rest[..|rest| - 1];
      if got.Obj? && k in got.fields {
        PathBelow(field, want, got, k, rest, d);
        DifferenceIsReported(field + "." + k, want.fields[k], got.fields[k], rest, d);
      } else {
        MissingHere(field, want, got, path, d);
      }
      assert d in KeyDiff(field, want, got, k);
      KeyDiffsHas(field, want, got, want.fields.Keys, d);
    }
  }

  ghost predicate ReportsQuery(rm: RequestMatcher, req: Request, k: string, d: Difference) {
    && k in Entries(rm.query) && First(req.query, k) != Entries(rm.query)[k]
    && d.field == "query." + k && d.want == Some(Str(Entries(rm.query)[k]))
    && if k in req.query then d.reason == Mismatch && d.got == Some(Str(First(req.query, k)))
       else d.reason == Missing && d.got == None
  }

  ghost predicate ReportsHeader(rm: RequestMatcher, req: Request, k: string, d: Difference) {
    var key := CanonicalKey(k);
    var hidden := EqualFold(k, "Authorization") || EqualFold(k, "Cookie");
    && k in Entries(rm.headers) && First(req.headers, key) != Entries(rm.headers)[k]
    && d.field == "headers." + key
    && d.want == Some(Str(if hidden then "[REDACTED]" else Entries(rm.headers)[k]))
    && if key in req.headers
       then d.reason == Mismatch && d.got == Some(Str(if hidden then "[REDACTED]" else First(req.headers, key)))
       else d.reason == Missing && d.got == None
  }

  ghost predicate ReportsBody(want: Body, got: Body, d: Difference) {
    if NoBody(want) then false
    else if got.Absent? then
      d == Difference("body", Missing, if want.Doc? then Some(want.value) else None, None)
    else if want.Doc? && got.Doc? then exists path :: DiffersAt("body", want.value, got.value, path, d)
    else d == Difference("body", InvalidJson, None, None)
  }

  lemma {:induction false} SumOverHas(keys: set<string>, f: string -> seq<Difference>, d: Difference)
    ensures d in SumOver(keys, f) <==> exists k :: k in keys && d in f(k)
    decreases |keys|
  {
    if keys != {} {
      var k :| k in keys;
      SumOverExtract(keys, f, k);
      SumOverHas(keys - {k}, f, d);
    }
  }

  lemma BodyReports(want: Body, got: Body, d: Difference)
    ensures d in BodyDiffs(want, got) <==> ReportsBody(want, got, d)
  {
    if !NoBody(want) && want.Doc? && got.Doc? {
      if d in BodyDiffs(want, got) {
        var path := ReportedIsDifference("body", want.value, got.value, d);
      } else if path :| DiffersAt("body", want.value, got.value, path, d) {
        DifferenceIsReported("body", want.value, got.value, path, d);
      }
    }
  }

  lemma HeaderReports(rm: RequestMatcher, req: Request, k: string, d: Difference)
    requires k in Entries(rm.headers)
    ensures d in HeaderDiff(k, Entries(rm.headers)[k], req) <==> ReportsHeader(rm, req, k, d)
  {
    CanonicalIsSpelling(k);
    FoldedAlike(CanonicalKey(k), k, "Authorization");
    FoldedAlike(CanonicalKey(k), k, "Cookie");
  }

  lemma QueryReports(rm: RequestMatcher, req: Request, k: string, d: Difference)
    requires k in Entries(rm.query)
    ensures d in QueryDiff(k, Entries(rm.query)[k], req) <==> ReportsQuery(rm, req, k, d)
  {
  }

  /** What Explain lists, told from matcher and request alone: the query values and headers
      that differ, the paths at which the bodies do, what was wanted there and what was
      found. Nothing else is listed and nothing is left out. */
  lemma ExplainReports(rm: RequestMatcher, req: Request, d: Difference)
    ensures d in AllDiffs(Some(rm), req)
            <==> || (exists k :: ReportsQuery(rm, req, k, d))
                 || (exists k :: ReportsHeader(rm, req, k, d))
                 || ReportsBody(rm.body, req.body, d)
  {
    SumOverHas(Entries(rm.query).Keys, QueryDiffAt(rm, req), d);
    SumOverHas(Entries(rm.headers).Keys, HeaderDiffAt(rm, req), d);
    BodyReports(rm.body, req.body, d);
    forall k | k in Entries(rm.query)
      ensures d in QueryDiffAt(rm, req)(k) <==> ReportsQuery(rm, req, k, d)
    {
      QueryReports(rm, req, k, d);
    }
    forall k | k in Entries(rm.headers)
      ensures d in HeaderDiffAt(rm, req)(k) <==> ReportsHeader(rm, req, k, d)
    {
      HeaderReports(rm, req, k, d);
    }
  }

  // ------------------------------------------------------------------ consequences

  predicate Submap(a: map<string, string>, b: map<string, string>) {
    forall k :: k in a ==> k in b && a[k] == b[k]
  }

  /** A matcher that asks for less matches every request that one asking for more does. */
  lemma AskingLessMatchesMore(a: RequestMatcher, b: RequestMatcher, req: Request)
    requires Submap(Entries(a.query), Entries(b.query)) && Submap(Entries(a.headers), Entries(b.headers))
    requires NoBody(a.body) || (a.body.Doc? && b.body.Doc? && SubDocument(a.body.value, b.body.value))
    requires Satisfies(req, Some(b))
    ensures Satisfies(req, Some(a))
  {
    if !NoBody(a.body) {
      assert !NoBody(b.body);
      SubDocumentTransitive(a.body.value, b.body.value, req.body.value);
    }
  }

  predicate IsEmpty(rm: Option<RequestMatcher>) {
    rm.None? || (Entries(rm.value.query) == map[] && Entries(rm.value.headers) == map[] && NoBody(rm.value.body))
  }

  function CanonicalKeys(headers: map<string, string>): set<string> {
    set k | k in headers :: CanonicalKey(k)
  }

  /** A request that some criterion of any non-empty matcher rejects. */
  function Spoiler(rm: RequestMatcher): Request {
    var q, h := Entries(rm.query), Entries(rm.headers);
    Request(map k | k in q :: [q[k] + "!"],
            map key | key in CanonicalKeys(h) ::
              [if exists k :: k in h && CanonicalKey(k) == key && h[k] == "" then "!" else ""],
            Absent)
  }

  /** Put's normalisation changes no answer, and only catch-alls are normalised away: a
      matcher is empty exactly when it matches every request. */
  lemma EmptyIffCatchAll(rm: Option<RequestMatcher>)
    ensures IsEmpty(rm) <==> forall req :: Satisfies(req, rm)
  {
    if !IsEmpty(rm) {
      var bad := Spoiler(rm.value);
      var q, h := Entries(rm.value.query), Entries(rm.value.headers);
      if k :| k in q {
        assert First(bad.query, k) == q[k] + "!";
      } else if k :| k in h {
        var key := CanonicalKey(k);
        assert key in bad.headers && bad.headers[key] != [];
        assert h[k] == "" ==> First(bad.headers, key) == "!";
        if h[k] != "" && First(bad.headers, key) == h[k] {
          var k' :| k' in h && CanonicalKey(k') == key && h[k'] == "";
          assert First(bad.headers, CanonicalKey(k')) != h[k'];
        }
      }
      assert !Satisfies(bad, rm);
    }
  }

  /** The wanted value is the first one under the key, or it is empty and there is none. */
  predicate FirstOrNone(values: map<string, seq<string>>, k: string, want: string) {
    if k in values && values[k] != [] then values[k][0] == want else want == ""
  }

  /** The comments promise that a wanted key must be present. It must, unless the wanted
      value is empty: then a request without the key, or with no value under it, satisfies
      it too. For headers the key is the canonical one. */
  lemma WantedKeyRule(k: string, want: string, req: Request)
    ensures QueryDiff(k, want, req) == [] <==> FirstOrNone(req.query, k, want)
    ensures HeaderDiff(k, want, req) == [] <==> FirstOrNone(req.headers, CanonicalKey(k), want)
  {
  }

  /** What a matcher asks for, criterion by criterion: each wanted query value and each
      wanted header is the first one given, or empty and not given, and the wanted body, if
      there is one and it is not null, is a sub-document of the request's. */
  lemma MatchesIff(rm: RequestMatcher, req: Request)
    ensures Satisfies(req, Some(rm)) <==>
            && (rm.query.Some? ==> forall k :: k in rm.query.value ==> FirstOrNone(req.query, k, rm.query.value[k]))
            && (rm.headers.Some? ==>
                  forall k :: k in rm.headers.value ==>
                    FirstOrNone(req.headers, CanonicalKey(k), rm.headers.value[k]))
            && !rm.body.Invalid?
            && (rm.body.Doc? && rm.body.value != Null ==>
                  req.body.Doc? && SubDocument(rm.body.value, req.body.value))
  {
    var q, h := Entries(rm.query), Entries(rm.headers);
    assert (rm.query.Some? ==> q == rm.query.value) && (rm.headers.Some? ==> h == rm.headers.value);
    assert (rm.query.None? ==> q == map[]) && (rm.headers.None? ==> h == map[]);
    assert forall k, want :: FirstOrNone(req.query, k, want) <==> First(req.query, k) == want;
    assert forall k, want :: FirstOrNone(req.headers, k, want) <==> First(req.headers, k) == want;
    assert BodySatisfied(rm.body, req.body) <==>
        && !rm.body.Invalid?
        && (rm.body.Doc? && rm.body.value != Null ==> req.body.Doc? && SubDocument(rm.body.value, req.body.value));
  }

  // ------------------------------------------------------------- matcher equality

  predicate BodyEqual(a: Body, b: Body) {
    if a.Doc? && b.Doc? then a.value == b.value else !a.Doc? && !b.Doc?
  }

  predicate MatcherEqual(a: Option<RequestMatcher>, b: Option<RequestMatcher>) {
    if a.None? || b.None? then a.None? && b.None?
    else a.value.query == b.value.query && a.value.headers == b.value.headers
         && BodyEqual(a.value.body, b.value.body)
  }

  /** Equality of matchers without the parser: nil equals nil only, and otherwise query and
      headers are the same maps and each body is a sub-document of the other, or neither is
      a document. It is an equivalence. */
  lemma MatcherEqualIff(a: Option<RequestMatcher>, b: Option<RequestMatcher>)
    ensures MatcherEqual(a, b) <==>
            || (a.None? && b.None?)
            || (&& a.Some? && b.Some? && a.value.query == b.value.query && a.value.headers == b.value.headers
                && a.value.body.Doc? == b.value.body.Doc?
                && (a.value.body.Doc? ==> SubDocument(a.value.body.value, b.value.body.value)
                                          && SubDocument(b.value.body.value, a.value.body.value)))
    ensures MatcherEqual(a, a) && MatcherEqual(a, b) == MatcherEqual(b, a)
  {
    if a.Some? && b.Some? && a.value.body.Doc? && b.value.body.Doc? {
      var v, w := a.value.body.value, b.value.body.value;
      SubDocumentReflexive(v);
      if SubDocument(v, w) && SubDocument(w, v) {
        SubDocumentAntisymmetric(v, w);
      }
    }
  }

  lemma MatcherEqualTransitive(a: Option<RequestMatcher>, b: Option<RequestMatcher>, c: Option<RequestMatcher>)
    requires MatcherEqual(a, b) && MatcherEqual(b, c)
    ensures MatcherEqual(a, c)
  {
  }

  /** Spellings of one header name are asked to have one value, so some request can meet
      them all. */
  predicate Compatible(headers: map<string, string>) {
    forall k, l :: k in headers && l in headers && CanonicalKey(k) == CanonicalKey(l) ==> headers[k] == headers[l]
  }

  /** A request that has what a matcher wants of query and headers, if anything can. */
  ghost function Obliging(rm: RequestMatcher): Request {
    var q, h := Entries(rm.query), Entries(rm.headers);
    Request(map k | k in q :: [q[k]],
            map key | key in CanonicalKeys(h) :: [h[var k :| k in h && CanonicalKey(k) == key; k]],
            Absent)
  }

  lemma ObligingSatisfies(rm: RequestMatcher)
    requires Compatible(Entries(rm.headers))
    ensures Satisfies(Obliging(rm), Some(rm.(body := Absent)))
  {
    var h, req := Entries(rm.headers), Obliging(rm);
    forall k | k in h
      ensures First(req.headers, CanonicalKey(k)) == h[k]
    {
      assert CanonicalKey(k) in CanonicalKeys(h);
      var l :| l in h && CanonicalKey(l) == CanonicalKey(k) && req.headers[CanonicalKey(k)] == [h[l]];
    }
  }

  lemma ConflictingHeadersRejectAll(rm: RequestMatcher, req: Request)
    requires !Compatible(Entries(rm.headers))
    ensures !Satisfies(req, Some(rm))
  {
    var h := Entries(rm.headers);
    var k, l :| k in h && l in h && CanonicalKey(k) == CanonicalKey(l) && h[k] != h[l];
    assert First(req.headers, CanonicalKey(k)) == First(req.headers, CanonicalKey(l));
  }

  /** Exactly when equal matchers answer the same requests, so that one may supersede the
      other. A missing body compares equal to an unparseable one, yet the one accepts every
      body and the other none; that shows unless the headers reject everything anyway. */
  lemma EqualMatchersAgreeIff(a: Option<RequestMatcher>, b: Option<RequestMatcher>)
    requires MatcherEqual(a, b)
    ensures (forall req :: Satisfies(req, a) == Satisfies(req, b))
            <==> a.None? || a.value.body.Invalid? == b.value.body.Invalid? || !Compatible(Entries(a.value.headers))
  {
    if a.Some? && !Compatible(Entries(a.value.headers)) {
      forall req
        ensures !Satisfies(req, a) && !Satisfies(req, b)
      {
        ConflictingHeadersRejectAll(a.value, req);
        ConflictingHeadersRejectAll(b.value, req);
      }
    } else if a.Some? && a.value.body.Invalid? != b.value.body.Invalid? {
      var req := Obliging(a.value);
      ObligingSatisfies(a.value);
      assert Satisfies(req, a) != Satisfies(req, b);
    }
  }

  /** The smallest such pair. */
  lemma AbsentEqualsInvalidButDiffers(q: Option<map<string, string>>, req: Request)
    requires forall k :: k in Entries(q) ==> First(req.query, k) == Entries(q)[k]
    ensures var a, b := Some(RequestMatcher(q, None, Absent)), Some(RequestMatcher(q, None, Invalid));
            MatcherEqual(a, b) && Satisfies(req, a) && !Satisfies(req, b)
  {
  }
}
