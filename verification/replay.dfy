/** recordingReplayer.Replay and send (internal/events/replayer.go:372-454). The
    snapshot is taken under the lock, the writes happen without it, so expiries land
    anywhere between two sends. Puts cannot: go-sse runs Put and Replay on one
    goroutine. */
module Replay {
  import opened Prelude
  import opened ReplayBuffer

  datatype Outcome = Outcome(sent: seq<nat>, failed: bool)

  /** The send loop from message `k` on. `buffers(k)` is the buffer as the re-check of
      message `k` finds it and `buffers(|msgs|)` the buffer when Replay returns;
      `fails(k)` says that writing message `k` fails. */
  function Send(buffers: nat -> seq<Entry>, resume: bool, msgs: seq<nat>, fails: nat -> bool, k: nat): Outcome
    requires k <= |msgs|
    decreases |msgs| - k
  {
    if k == |msgs| then Outcome([], false)
    else if !HasMsg(buffers(k), msgs[k]) then
      if resume then Outcome([], false) else Send(buffers, resume, msgs, fails, k + 1)
    else if fails(k) then Outcome([], true)
    else
      var rest := Send(buffers, resume, msgs, fails, k + 1);
      rest.(sent := [msgs[k]] + rest.sent)
  }

  ghost predicate ExpiresInto(a: seq<Entry>, b: seq<Entry>) {
    exists xs :: b == ExpireMany(a, xs)
  }

  ghost predicate ExpiresBetween(buffers: nat -> seq<Entry>, k: nat) {
    ExpiresInto(buffers(k), buffers(k + 1))
  }

  /** From the snapshot `s` to the return of Replay only expiries touch the buffer. */
  ghost predicate OnlyExpiries(s: seq<Entry>, buffers: nat -> seq<Entry>, n: nat) {
    && ExpiresInto(s, buffers(0))
    && forall k :: 0 <= k < n ==> ExpiresBetween(buffers, k)
  }

  lemma SuffixTransitive(c: seq<Entry>, b: seq<Entry>, s: seq<Entry>)
    requires Suffix(c, b) && Suffix(b, s)
    ensures Suffix(c, s)
  {
    assert s[|s| - |b|..][|b| - |c|..] == s[|s| - |c|..];
  }

  /** Front-only removal: each buffer is a suffix of every earlier one. */
  lemma {:induction false} BuffersShrink(s: seq<Entry>, buffers: nat -> seq<Entry>, n: nat, j: nat, k: nat)
    requires OnlyExpiries(s, buffers, n) && j <= k <= n
    ensures Suffix(buffers(k), s) && Suffix(buffers(k), buffers(j))
    decreases k
  {
    var prior := if k == 0 then s else buffers(k - 1);
    assert k > 0 ==> ExpiresBetween(buffers, k - 1);
    var xs :| buffers(k) == ExpireMany(prior, xs);
    var d := ExpireManyIsSuffix(prior, xs);
    if k > 0 {
      BuffersShrink(s, buffers, n, if j < k then j else k - 1, k - 1);
      SuffixTransitive(buffers(k), prior, s);
      if j < k {
        SuffixTransitive(buffers(k), prior, buffers(j));
      }
    }
  }

  // ------------------------------------------------------------- resume by cursor

  /** The loop of a resume, in terms of where each message sits in the snapshot `s`:
      `pos[k]` is the index of `msgs[k]`. What was sent is a prefix, and a cut means that
      the entry to be sent next has left the buffer. */
  lemma {:induction false} ResumeLoop(s: seq<Entry>, buffers: nat -> seq<Entry>, msgs: seq<nat>,
                                      pos: seq<nat>, fails: nat -> bool, k: nat)
    requires OnlyExpiries(s, buffers, |msgs|) && |pos| == |msgs| && k <= |msgs|
    requires forall i :: 0 <= i < |pos| ==> pos[i] < |s| && s[pos[i]].msg == msgs[i]
    ensures var out := Send(buffers, true, msgs, fails, k);
            && k + |out.sent| <= |msgs| && out.sent == msgs[k..k + |out.sent|]
            && (!out.failed && k + |out.sent| < |msgs| ==> pos[k + |out.sent|] < |s| - |buffers(|msgs|)|)
    decreases |msgs| - k
  {
    if k < |msgs| {
      if HasMsg(buffers(k), msgs[k]) {
        ResumeLoop(s, buffers, msgs, pos, fails, k + 1);
      } else {
        BuffersShrink(s, buffers, |msgs|, k, |msgs|);
        BuffersShrink(s, buffers, |msgs|, k, k);
        NotHeldHasLeft(s, buffers(k), pos[k]);
      }
    }
  }

  lemma NotHeldHasLeft(s: seq<Entry>, b: seq<Entry>, p: nat)
    requires Suffix(b, s) && p < |s| && !HasMsg(b, s[p].msg)
    ensures p < |s| - |b|
  {
    assert forall i :: |s| - |b| <= i < |s| ==> s[i] == b[i - (|s| - |b|)];
  }

  /** Index of the entry the subscriber's position names after `n` visible messages
      behind index `c` went out. */
  function PositionFrom(s: seq<Entry>, c: nat, topics: seq<string>, n: nat): (i: nat)
    requires c < |s| && n <= |Collect(s[c + 1..], topics)|
    ensures i < |s|
  {
    PositionsOfCollect(s[c + 1..], topics);
    if n == 0 then c else c + 1 + Positions(s[c + 1..], topics)[n - 1]
  }

  /** The positions a resume moves through: its cursor, then each visible entry in turn. */
  lemma PositionsAdvance(s: seq<Entry>, c: nat, topics: seq<string>) returns (pos: seq<nat>)
    requires c < |s|
    ensures var msgs := Collect(s[c + 1..], topics);
            && |pos| == |msgs|
            && (forall i :: 0 <= i < |pos| ==> pos[i] < |s| && s[pos[i]].msg == msgs[i])
            && (forall i :: 0 <= i < |pos| ==> pos[i] == PositionFrom(s, c, topics, i + 1))
            && (forall i :: 0 <= i < |pos| ==> PositionFrom(s, c, topics, i) < PositionFrom(s, c, topics, i + 1))
  {
    var tail := Positions(s[c + 1..], topics);
    PositionsOfCollect(s[c + 1..], topics);
    pos := seq(|tail|, i requires 0 <= i < |tail| => c + 1 + tail[i]);
  }

  /** The resume stopped after `n` messages, at the entry `PositionFrom(.., n)`, because the
      one to be sent next has left the buffer; so has the one it stopped at. */
  predicate HasLeftBehind(s: seq<Entry>, c: nat, topics: seq<string>, n: nat, b: seq<Entry>)
    requires c < |s| && n < |Collect(s[c + 1..], topics)|
  {
    PositionFrom(s, c, topics, n) < PositionFrom(s, c, topics, n + 1) < |s| - |b|
  }

  lemma CutAfterIndex(s: seq<Entry>, c: nat, topics: seq<string>, buffers: nat -> seq<Entry>, fails: nat -> bool)
    requires c < |s|
    requires OnlyExpiries(s, buffers, |Collect(s[c + 1..], topics)|)
    ensures var msgs := Collect(s[c + 1..], topics);
            var out := Send(buffers, true, msgs, fails, 0);
            && out.sent <= msgs
            && Suffix(buffers(|msgs|), s)
            && (!out.failed && out.sent != msgs ==> HasLeftBehind(s, c, topics, |out.sent|, buffers(|msgs|)))
  {
    var pos := PositionsAdvance(s, c, topics);
    var msgs := Collect(s[c + 1..], topics);
    BuffersShrink(s, buffers, |msgs|, |msgs|, |msgs|);
    ResumeLoop(s, buffers, msgs, pos, fails, 0);
  }

  /** A resume sends a gap-free in-order prefix of what follows its cursor, whatever
      expires meanwhile, and if it is cut short without a broken connection the very
      entry it stopped at has left the buffer. This needs no assumption on ids. */
  lemma CutResumeHasLeftTheBuffer(s: seq<Entry>, cursor: string, topics: seq<string>,
                                  buffers: nat -> seq<Entry>, fails: nat -> bool)
    requires After(s, cursor, topics).Some?
    requires OnlyExpiries(s, buffers, |After(s, cursor, topics).value|)
    ensures var msgs := After(s, cursor, topics).value;
            var out := Send(buffers, true, msgs, fails, 0);
            && out.sent <= msgs
            && Suffix(buffers(|msgs|), s)
            && (!out.failed && out.sent != msgs ==>
                  HasLeftBehind(s, FirstIndex(s, cursor), topics, |out.sent|, buffers(|msgs|)))
  {
    CutAfterIndex(s, FirstIndex(s, cursor), topics, buffers, fails);
  }

  predicate UniqueIds(s: seq<Entry>) {
    forall i, j :: 0 <= i < j < |s| ==> s[i].id != s[j].id
  }

  /** With unique ids a cut resume leaves the subscriber holding an id the buffer no
      longer has, so reconnecting at that moment is answered 410 rather than 200 with
      the loss invisible. */
  lemma CutResumeReconnectIsGone(s: seq<Entry>, cursor: string, topics: seq<string>,
                                 buffers: nat -> seq<Entry>, fails: nat -> bool)
    requires UniqueIds(s) && After(s, cursor, topics).Some?
    requires OnlyExpiries(s, buffers, |After(s, cursor, topics).value|)
    ensures var msgs := After(s, cursor, topics).value;
            var out := Send(buffers, true, msgs, fails, 0);
            && out.sent <= msgs
            && (!out.failed && out.sent != msgs ==>
                  !Has(buffers(|msgs|), s[PositionFrom(s, FirstIndex(s, cursor), topics, |out.sent|)].id))
  {
    CutResumeHasLeftTheBuffer(s, cursor, topics, buffers, fails);
    var msgs := After(s, cursor, topics).value;
    var out := Send(buffers, true, msgs, fails, 0);
    UniqueIdHasLeft(s, buffers(|msgs|), PositionFrom(s, FirstIndex(s, cursor), topics, |out.sent|));
  }

  lemma UniqueIdHasLeft(s: seq<Entry>, b: seq<Entry>, p: nat)
    requires UniqueIds(s) && Suffix(b, s) && p < |s|
    ensures p < |s| - |b| ==> !Has(b, s[p].id)
  {
    forall i | 0 <= i < |b|
      ensures b[i] == s[|s| - |b| + i]
    {
    }
  }

  // --------------------------------------------- repeated ids, and exactly when they hurt

  /** Hub.Publish never buffers an empty id (internal/events/hub.go:266-268). */
  predicate NonEmptyIds(s: seq<Entry>) {
    forall i :: 0 <= i < |s| ==> s[i].id != ""
  }

  /** Message objects are allocated one per Publish. */
  predicate UniqueMsgs(s: seq<Entry>) {
    forall i, j :: 0 <= i < j < |s| ==> s[i].msg != s[j].msg
  }

  lemma LeftIsNotHeld(s: seq<Entry>, b: seq<Entry>, p: nat)
    requires UniqueMsgs(s) && Suffix(b, s) && p < |s| - |b|
    ensures !HasMsg(b, s[p].msg)
  {
    assert forall i :: 0 <= i < |b| ==> b[i] == s[|s| - |b| + i];
  }

  /** An expiry can stop in front of entry `d` only where the id changes. */
  predicate Stop(s: seq<Entry>, d: nat) {
    d == 0 || d >= |s| || s[d - 1].id != s[d].id
  }

  lemma {:induction false} ExpiriesStop(s: seq<Entry>, xs: seq<Expiry>, d: nat)
    requires d <= |s| && ExpireMany(s, xs) == s[d..]
    ensures Stop(s, d)
    decreases |xs|
  {
    if xs == [] {
      assert |ExpireMany(s, xs)| == |s|;
    } else {
      var n := ExpireCount(s, xs[0]);
      var rest := ExpireManyIsSuffix(s[n..], xs[1..]);
      assert |s| - n - rest == |s| - d;
      ExpiriesStop(s[n..], xs[1..], rest);
      if 0 < rest < |s| - n {
        assert s[n..][rest - 1] == s[d - 1] && s[n..][rest] == s[d];
      }
    }
  }

  lemma {:induction false} ExpireManyAppend(s: seq<Entry>, xs: seq<Expiry>, x: Expiry)
    ensures ExpireMany(s, xs + [x]) == Expire(ExpireMany(s, xs), x)
  {
    if xs == [] {
      assert ([] + [x])[1..] == [];
    } else {
      assert (xs + [x])[1..] == xs[1..] + [x];
      ExpireManyAppend(Expire(s, xs[0]), xs[1..], x);
    }
  }

  /** The start of the run of equal ids that entry `p` ends. */
  function RunStart(s: seq<Entry>, p: nat): (e: nat)
    requires p < |s|
    ensures e <= p && Stop(s, e) && forall i :: e <= i <= p ==> s[i].id == s[p].id
  {
    if p == 0 || s[p - 1].id != s[p].id then p else RunStart(s, p - 1)
  }

  lemma ExpireToChange(s: seq<Entry>, e: nat, d: nat)
    requires e < d < |s| && s[d].id != "" && forall i :: e <= i < d ==> s[i].id != s[d].id
    ensures Expire(s[e..], Before(s[d].id)) == s[d..]
  {
    FirstIndexAt(s[e..], s[d].id, d - e);
    assert s[e..][d - e..] == s[d..];
  }

  /** And at every such place some sequence of expiries does stop. */
  lemma {:induction false} StopsAreReached(s: seq<Entry>, d: nat) returns (xs: seq<Expiry>)
    requires d < |s| && Stop(s, d) && NonEmptyIds(s)
    ensures ExpireMany(s, xs) == s[d..]
  {
    if d == 0 {
      xs := [];
    } else {
      var e := RunStart(s, d - 1);
      var ys := StopsAreReached(s, e);
      ExpireToChange(s, e, d);
      xs := ys + [Before(s[d].id)];
      ExpireManyAppend(s, ys, Before(s[d].id));
    }
  }

  /** So whatever has expired by the check of message `k`, the buffer starts at a stop. */
  lemma {:induction false} BuffersStop(s: seq<Entry>, buffers: nat -> seq<Entry>, n: nat, k: nat)
    requires OnlyExpiries(s, buffers, n) && k <= n
    ensures Suffix(buffers(k), s) && Stop(s, |s| - |buffers(k)|)
    decreases k
  {
    if k == 0 {
      ExpiryStops(s, s, buffers(0));
    } else {
      BuffersStop(s, buffers, n, k - 1);
      assert ExpiresBetween(buffers, k - 1);
      ExpiryStops(s, buffers(k - 1), buffers(k));
    }
  }

  lemma ExpiryStops(s: seq<Entry>, a: seq<Entry>, b: seq<Entry>)
    requires Suffix(a, s) && Stop(s, |s| - |a|) && ExpiresInto(a, b)
    ensures Suffix(b, s) && Stop(s, |s| - |b|)
  {
    var xs :| b == ExpireMany(a, xs);
    var d := ExpireManyIsSuffix(a, xs);
    ExpiriesStop(a, xs, d);
    StopOfSuffix(s, a, d);
  }

  lemma StopOfSuffix(s: seq<Entry>, a: seq<Entry>, d: nat)
    requires d <= |a| && Suffix(a, s) && Stop(s, |s| - |a|) && Stop(a, d)
    ensures Suffix(a[d..], s) && Stop(s, |s| - |a[d..]|)
  {
    var e := |s| - |a|;
    assert s[e..][d..] == s[e + d..];
    if 0 < d < |a| {
      assert a[d - 1] == s[e + d - 1] && a[d] == s[e + d];
    }
  }

  /** A resume at entry `p` with `q` to be sent next: any later copy of p's id follows `q`
      without another id in between. */
  predicate NoCopyBehind(s: seq<Entry>, p: nat, q: nat)
    requires p < |s|
  {
    forall r, i :: q <= i < r < |s| && s[r].id == s[p].id ==> s[i].id == s[p].id
  }

  /** That is so at every position a resume from entry `c` can be left at. */
  ghost predicate NoCopiesBehind(s: seq<Entry>, c: nat, topics: seq<string>)
    requires c < |s|
  {
    forall n :: 0 <= n < |Collect(s[c + 1..], topics)| ==> NoCopyAfter(s, c, topics, n)
  }

  predicate NoCopyAfter(s: seq<Entry>, c: nat, topics: seq<string>, n: nat)
    requires c < |s| && n < |Collect(s[c + 1..], topics)|
  {
    NoCopyBehind(s, PositionFrom(s, c, topics, n), PositionFrom(s, c, topics, n + 1))
  }

  /** When this resume is cut short, the id it is left with is no longer buffered. */
  ghost predicate CutIsTold(s: seq<Entry>, c: nat, topics: seq<string>,
                            buffers: nat -> seq<Entry>, fails: nat -> bool)
    requires c < |s|
  {
    var msgs := Collect(s[c + 1..], topics);
    var out := Send(buffers, true, msgs, fails, 0);
    OnlyExpiries(s, buffers, |msgs|) && !out.failed && |out.sent| < |msgs| ==>
      !Has(buffers(|msgs|), s[PositionFrom(s, c, topics, |out.sent|)].id)
  }

  lemma ToldWithoutCopies(s: seq<Entry>, c: nat, topics: seq<string>, buffers: nat -> seq<Entry>, fails: nat -> bool)
    requires c < |s| && NoCopiesBehind(s, c, topics)
    ensures CutIsTold(s, c, topics, buffers, fails)
  {
    var msgs := Collect(s[c + 1..], topics);
    var out := Send(buffers, true, msgs, fails, 0);
    if OnlyExpiries(s, buffers, |msgs|) && !out.failed && |out.sent| < |msgs| {
      CutAfterIndex(s, c, topics, buffers, fails);
      BuffersStop(s, buffers, |msgs|, |msgs|);
      var p, q := PositionFrom(s, c, topics, |out.sent|), PositionFrom(s, c, topics, |out.sent| + 1);
      assert NoCopyAfter(s, c, topics, |out.sent|);
      NoCopyInSuffix(s, p, q, |s| - |buffers(|msgs|)|);
    }
  }

  lemma NoCopyInSuffix(s: seq<Entry>, p: nat, q: nat, d: nat)
    requires p < q < d <= |s| && NoCopyBehind(s, p, q) && Stop(s, d)
    ensures !Has(s[d..], s[p].id)
  {
    assert forall j :: d <= j < |s| ==> s[j].id != s[p].id;
    assert forall i :: 0 <= i < |s| - d ==> s[d..][i] == s[d + i];
  }

  /** One expiry, from `s` to `b`, just before message `n` is checked. */
  function DropAt(n: nat, s: seq<Entry>, b: seq<Entry>): nat -> seq<Entry> {
    (k: nat) => if k < n then s else b
  }

  lemma DropAtIsExpiry(n: nat, s: seq<Entry>, xs: seq<Expiry>, len: nat)
    ensures OnlyExpiries(s, DropAt(n, s, ExpireMany(s, xs)), len)
  {
    var b := ExpireMany(s, xs);
    assert ExpireMany(s, []) == s && ExpireMany(b, []) == b;
    assert ExpiresInto(s, s) && ExpiresInto(s, b) && ExpiresInto(b, b);
  }

  lemma {:induction false} SendsThenStops(s: seq<Entry>, b: seq<Entry>, msgs: seq<nat>, n: nat, k: nat)
    requires k <= n < |msgs| && !HasMsg(b, msgs[n]) && forall i :: 0 <= i < n ==> HasMsg(s, msgs[i])
    ensures Send(DropAt(n, s, b), true, msgs, _ => false, k) == Outcome(msgs[k..n], false)
    decreases n - k
  {
    if k < n {
      SendsThenStops(s, b, msgs, n, k + 1);
    }
  }

  lemma SentFromSnapshot(s: seq<Entry>, b: seq<Entry>, msgs: seq<nat>, pos: seq<nat>, n: nat)
    requires n < |msgs| == |pos| && !HasMsg(b, msgs[n])
    requires forall i :: 0 <= i < |pos| ==> pos[i] < |s| && s[pos[i]].msg == msgs[i]
    ensures Send(DropAt(n, s, b), true, msgs, _ => false, 0) == Outcome(msgs[..n], false)
  {
    SendsThenStops(s, b, msgs, n, 0);
    assert msgs[0..n] == msgs[..n];
  }

  lemma HeldBehind(s: seq<Entry>, d: nat, r: nat)
    requires d <= r < |s|
    ensures Has(s[d..], s[r].id)
  {
    assert s[d..][r - d] == s[r];
  }

  /** The expiry that leaves a resume with the id of a later copy: it falls after `n`
      messages and takes everything in front of the run of equal ids that copy is in. */
  lemma CopyHidesTheLoss(s: seq<Entry>, c: nat, topics: seq<string>, n: nat, d: nat, r: nat)
    requires c < |s| && UniqueMsgs(s) && NonEmptyIds(s)
    requires n < |Collect(s[c + 1..], topics)| && PositionFrom(s, c, topics, n + 1) < d <= r < |s|
    requires Stop(s, d) && s[r].id == s[PositionFrom(s, c, topics, n)].id
    ensures !CutIsTold(s, c, topics, DropAt(n, s, s[d..]), _ => false)
  {
    var msgs := Collect(s[c + 1..], topics);
    var pos := PositionsAdvance(s, c, topics);
    var xs := StopsAreReached(s, d);
    DropAtIsExpiry(n, s, xs, |msgs|);
    LeftIsNotHeld(s, s[d..], pos[n]);
    SentFromSnapshot(s, s[d..], msgs, pos, n);
    HeldBehind(s, d, r);
    CutAt(s, c, topics, n, DropAt(n, s, s[d..]));
  }

  lemma CutAt(s: seq<Entry>, c: nat, topics: seq<string>, n: nat, buffers: nat -> seq<Entry>)
    requires c < |s| && n < |Collect(s[c + 1..], topics)| && OnlyExpiries(s, buffers, |Collect(s[c + 1..], topics)|)
    requires Send(buffers, true, Collect(s[c + 1..], topics), _ => false, 0)
             == Outcome(Collect(s[c + 1..], topics)[..n], false)
    requires Has(buffers(|Collect(s[c + 1..], topics)|), s[PositionFrom(s, c, topics, n)].id)
    ensures !CutIsTold(s, c, topics, buffers, _ => false)
  {
  }

  /** Exactly when every cut is told: a resume's loss can hide behind a repeated id if and
      only if, somewhere along its way, a later copy of the id it stands at is separated
      from the next entry it is to be sent by an entry of another id. Unique ids are one
      way to have none. */
  lemma CutsAreToldIff(s: seq<Entry>, cursor: string, topics: seq<string>)
    requires After(s, cursor, topics).Some? && UniqueMsgs(s) && NonEmptyIds(s)
    ensures (forall buffers: nat -> seq<Entry>, fails: nat -> bool ::
               CutIsTold(s, FirstIndex(s, cursor), topics, buffers, fails))
            <==> NoCopiesBehind(s, FirstIndex(s, cursor), topics)
  {
    var c := FirstIndex(s, cursor);
    if NoCopiesBehind(s, c, topics) {
      forall buffers: nat -> seq<Entry>, fails: nat -> bool
        ensures CutIsTold(s, c, topics, buffers, fails)
      {
        ToldWithoutCopies(s, c, topics, buffers, fails);
      }
    } else {
      var buffers := SomeCutHides(s, c, topics);
    }
  }

  lemma CopyBehind(s: seq<Entry>, p: nat, q: nat) returns (d: nat, r: nat)
    requires p < q < |s| && !NoCopyBehind(s, p, q)
    ensures q < d <= r < |s| && Stop(s, d) && s[r].id == s[p].id
  {
    var r', i :| q <= i < r' < |s| && s[r'].id == s[p].id && s[i].id != s[p].id;
    r, d := r', RunStart(s, r');
  }

  lemma SomeCutHides(s: seq<Entry>, c: nat, topics: seq<string>) returns (buffers: nat -> seq<Entry>)
    requires c < |s| && UniqueMsgs(s) && NonEmptyIds(s)
    requires !NoCopiesBehind(s, c, topics)
    ensures !CutIsTold(s, c, topics, buffers, _ => false)
  {
    var pos := PositionsAdvance(s, c, topics);
    var n :| 0 <= n < |Collect(s[c + 1..], topics)| && !NoCopyAfter(s, c, topics, n);
    var d, r := CopyBehind(s, PositionFrom(s, c, topics, n), pos[n]);
    buffers := DropAt(n, s, s[d..]);
    CopyHidesTheLoss(s, c, topics, n, d, r);
  }

  /** A loss that hides: with offset "a" pushed twice, two expiries can remove "b" from
      under a resume while the second "a" still answers for the subscriber. */
  lemma DuplicateIdHidesTheLoss(c: Entry, a: Entry, b: Entry, a': Entry)
    requires c == Entry("c", 0, 1, ["t"]) && a == Entry("a", 0, 2, ["t"])
    requires b == Entry("b", 0, 3, ["t"]) && a' == Entry("a", 0, 4, ["t"])
    ensures OnlyExpiries([c, a, b, a'], DropAt(1, [c, a, b, a'], [a']), 3)
    ensures After([c, a, b, a'], "c", ["t"]) == Some([2, 3, 4])
    ensures Send(DropAt(1, [c, a, b, a'], [a']), true, [2, 3, 4], _ => false, 0) == Outcome([2], false)
    ensures Has([a'], a.id)
  {
    var s := [c, a, b, a'];
    assert s[1..] == [a, b, a'];
    CollectThree(a, b, a');
    assert s[0].msg == 1 && s[1].msg == 2;
    SendsThenStops(s, [a'], [2, 3, 4], 1, 0);
    TwoExpiries(c, a, b, a');
    DropAtIsExpiry(1, s, [Before("b"), Before("a")], 3);
  }

  lemma CollectThree(a: Entry, b: Entry, c: Entry)
    requires a.topics == ["t"] && b.topics == ["t"] && c.topics == ["t"]
    ensures Collect([a, b, c], ["t"]) == [a.msg, b.msg, c.msg]
  {
    assert "t" in ["t"];
    assert [a, b, c][..2] == [a, b] && [a, b][..1] == [a] && [a][..0] == [];
    assert Collect([a], ["t"]) == [a.msg];
    assert Collect([a, b], ["t"]) == [a.msg, b.msg];
  }

  lemma TwoExpiries(c: Entry, a: Entry, b: Entry, a': Entry)
    requires c.id == "c" && a.id == "a" && b.id == "b" && a'.id == "a"
    ensures ExpireMany([c, a, b, a'], [Before("b"), Before("a")]) == [a']
  {
    var xs := [Before("b"), Before("a")];
    FirstIndexAt([c, a, b, a'], "b", 2);
    assert Expire([c, a, b, a'], xs[0]) == [b, a'];
    FirstIndexAt([b, a'], "a", 1);
    assert Expire([b, a'], xs[1]) == [a'];
    assert xs[1..] == [xs[1]] && xs[1..][1..] == [];
    assert ExpireMany([a'], []) == [a'];
  }

  // --------------------------------------------------------- whole-buffer replay

  predicate Increasing(idx: seq<nat>) {
    forall i, j :: 0 <= i < j < |idx| ==> idx[i] < idx[j]
  }

  /** These are the positions of the snapshot that a whole-buffer replay wrote, given that
      it looked at every message from `k` up to `stop`: exactly those whose message was
      still buffered at its own check. */
  ghost predicate WrittenAt(buffers: nat -> seq<Entry>, msgs: seq<nat>, k: nat, stop: nat, idx: seq<nat>) {
    && k <= stop <= |msgs| && Increasing(idx)
    && (forall i :: 0 <= i < |idx| ==> k <= idx[i] < stop && HasMsg(buffers(idx[i]), msgs[idx[i]]))
    && (forall p :: k <= p < stop && HasMsg(buffers(p), msgs[p]) ==> p in idx)
  }

  /** Whatever expires and whichever write fails, a whole-buffer replay sends an in-order
      subsequence of its snapshot: each message still buffered at its own check, none of
      those left out, up to the end or to the first buffered message whose write fails. */
  lemma {:induction false} WholeReplaySendsWhatIsHeld(
    buffers: nat -> seq<Entry>, msgs: seq<nat>, fails: nat -> bool, k: nat) returns (idx: seq<nat>, stop: nat)
    requires k <= |msgs|
    ensures var out := Send(buffers, false, msgs, fails, k);
            && WrittenAt(buffers, msgs, k, stop, idx)
            && |out.sent| == |idx| && (forall i :: 0 <= i < |idx| ==> out.sent[i] == msgs[idx[i]])
            && (forall i :: 0 <= i < |idx| ==> !fails(idx[i]))
            && (if out.failed then stop < |msgs| && HasMsg(buffers(stop), msgs[stop]) && fails(stop)
                else stop == |msgs|)
    decreases |msgs| - k
  {
    if k == |msgs| || (HasMsg(buffers(k), msgs[k]) && fails(k)) {
      idx, stop := [], k;
    } else {
      idx, stop := WholeReplaySendsWhatIsHeld(buffers, msgs, fails, k + 1);
      if HasMsg(buffers(k), msgs[k]) {
        WrittenFirst(buffers, msgs, k, stop, idx);
        idx := [k] + idx;
      }
    }
  }

  lemma WrittenFirst(buffers: nat -> seq<Entry>, msgs: seq<nat>, k: nat, stop: nat, idx: seq<nat>)
    requires WrittenAt(buffers, msgs, k + 1, stop, idx) && HasMsg(buffers(k), msgs[k])
    ensures WrittenAt(buffers, msgs, k, stop, [k] + idx)
  {
    assert ([k] + idx)[0] == k;
    assert forall p :: p in idx ==> p in [k] + idx;
  }

  /** Buffers only shrink, so a message held later was held at every earlier check. */
  lemma HeldLaterWasHeldBefore(late: seq<Entry>, early: seq<Entry>, m: nat)
    requires Suffix(late, early) && HasMsg(late, m)
    ensures HasMsg(early, m)
  {
    var i :| 0 <= i < |late| && late[i].msg == m;
    assert early[|early| - |late| + i].msg == m;
  }

  /** Nothing that is still buffered when a whole-buffer replay returns was skipped: an
      expiry mid-replay cannot cost a survivor, only a failed write can, and that costs
      what lies from it on. */
  lemma WholeReplayMissesNothingBuffered(s: seq<Entry>, topics: seq<string>, buffers: nat -> seq<Entry>,
                                         fails: nat -> bool) returns (stop: nat)
    requires OnlyExpiries(s, buffers, |Collect(s, topics)|)
    ensures var msgs := Collect(s, topics);
            var out := Send(buffers, false, msgs, fails, 0);
            && stop <= |msgs| && (if out.failed then stop < |msgs| && fails(stop) else stop == |msgs|)
            && forall i :: 0 <= i < stop && HasMsg(buffers(|msgs|), msgs[i]) ==> msgs[i] in out.sent
  {
    var msgs := Collect(s, topics);
    var idx;
    idx, stop := WholeReplaySendsWhatIsHeld(buffers, msgs, fails, 0);
    var out := Send(buffers, false, msgs, fails, 0);
    forall p | 0 <= p < stop && HasMsg(buffers(|msgs|), msgs[p])
      ensures msgs[p] in out.sent
    {
      BuffersShrink(s, buffers, |msgs|, p, |msgs|);
      HeldLaterWasHeldBefore(buffers(|msgs|), buffers(p), msgs[p]);
      var i :| 0 <= i < |idx| && idx[i] == p;
      assert out.sent[i] == msgs[p];
    }
  }

  /** What a skip says about the buffer: the skipped entry and all of the snapshot in front
      of it have left, whether they were sent before or not. */
  lemma SkippedHaveLeftFromTheFront(s: seq<Entry>, topics: seq<string>, buffers: nat -> seq<Entry>, k: nat, p: nat)
    requires OnlyExpiries(s, buffers, |Collect(s, topics)|) && UniqueMsgs(s)
    requires p <= k < |Collect(s, topics)| && !HasMsg(buffers(k), Collect(s, topics)[k])
    ensures !HasMsg(buffers(k), Collect(s, topics)[p])
  {
    var pos := Positions(s, topics);
    PositionsOfCollect(s, topics);
    BuffersShrink(s, buffers, |Collect(s, topics)|, k, k);
    NotHeldHasLeft(s, buffers(k), pos[k]);
    LeftIsNotHeld(s, buffers(k), pos[p]);
  }

  /** Yet the skipped messages need not be a prefix of the snapshot, as dropFront's comment
      has it: the first is sent, an expiry takes it and the next two, and the replay skips
      those two and sends the last. */
  lemma SkippedNeedNotBeAPrefix(a: Entry, b: Entry, c: Entry, d: Entry)
    requires a.msg == 1 && b.msg == 2 && c.msg == 3 && d.msg == 4
    requires a.id == "a" && b.id == "b" && c.id == "c" && d.id == "d"
    ensures OnlyExpiries([a, b, c, d], DropAt(1, [a, b, c, d], [d]), 4)
    ensures Send(DropAt(1, [a, b, c, d], [d]), false, [1, 2, 3, 4], _ => false, 0) == Outcome([1, 4], false)
  {
    ExpireToLast(a, b, c, d);
    DropAtIsExpiry(1, [a, b, c, d], [Before("d")], 4);
    assert [a, b, c, d][0].msg == 1 && [d][0].msg == 4;
    SendsFirstAndLast([a, b, c, d], [d]);
  }

  /** What dropFront's comment claims: once a message is found buffered, none after it is
      skipped. */
  predicate SkipsArePrefix(buffers: nat -> seq<Entry>, msgs: seq<nat>) {
    forall i, j :: 0 <= i < j < |msgs| && !HasMsg(buffers(j), msgs[j]) ==> !HasMsg(buffers(i), msgs[i])
  }

  ghost predicate SkipsArePrefixIf(s: seq<Entry>, buffers: nat -> seq<Entry>, msgs: seq<nat>) {
    OnlyExpiries(s, buffers, |msgs|) ==> SkipsArePrefix(buffers, msgs)
  }

  /** Exactly when the claim holds whatever expires: for snapshots of at most one message.
      Any longer one can lose the rest of its entries after its first message was sent. */
  lemma SkipsArePrefixIff(s: seq<Entry>, topics: seq<string>)
    ensures (forall buffers: nat -> seq<Entry> :: SkipsArePrefixIf(s, buffers, Collect(s, topics)))
            <==> |Collect(s, topics)| <= 1
  {
    var msgs := Collect(s, topics);
    if |msgs| > 1 {
      PositionsOfCollect(s, topics);
      assert HasMsg(s, s[Positions(s, topics)[0]].msg);
      assert [All][1..] == [] && ExpireMany(s, [All]) == [];
      DropAtIsExpiry(1, s, [All], |msgs|);
      var buffers := DropAt(1, s, []);
      assert HasMsg(buffers(0), msgs[0]) && !HasMsg(buffers(1), msgs[1]);
      assert !SkipsArePrefixIf(s, buffers, msgs);
    }
  }

  lemma ExpireToLast(a: Entry, b: Entry, c: Entry, d: Entry)
    requires a.id == "a" && b.id == "b" && c.id == "c" && d.id == "d"
    ensures ExpireMany([a, b, c, d], [Before("d")]) == [d]
  {
    FirstIndexAt([a, b, c, d], "d", 3);
    assert Expire([a, b, c, d], Before("d")) == [d];
    assert [Before("d")][1..] == [];
  }

  lemma SendsFirstAndLast(s: seq<Entry>, b: seq<Entry>)
    requires HasMsg(s, 1) && !HasMsg(b, 2) && !HasMsg(b, 3) && HasMsg(b, 4)
    ensures Send(DropAt(1, s, b), false, [1, 2, 3, 4], _ => false, 0) == Outcome([1, 4], false)
  {
    assert Send(DropAt(1, s, b), false, [1, 2, 3, 4], _ => false, 3) == Outcome([4], false);
    assert Send(DropAt(1, s, b), false, [1, 2, 3, 4], _ => false, 1) == Outcome([4], false);
  }
}
