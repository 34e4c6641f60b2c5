/** The replay buffer of the event stream (internal/events/replayer.go): what each
    operation does to the ordered list of buffered events, and the laws every run of
    operations keeps. RingIndex is the in-place buffer that implements them. */
module ReplayBuffer {
  import opened Prelude
  import opened Lists

  /** One buffered event. `msg` is the identity of the message object (0 is nil). */
  datatype Entry = Entry(id: string, at: int, msg: nat, topics: seq<string>)

  datatype Expiry = All | Before(cursor: string)

  // ---------------------------------------------------------------- operations

  function FirstFrom(s: seq<Entry>, id: string, from: nat): (i: int)
    requires from <= |s|
    ensures i == -1 || from <= i < |s|
    ensures 0 <= i ==> s[i].id == id
    ensures forall j :: from <= j < |s| && (i < 0 || j < i) ==> s[j].id != id
    decreases |s| - from
  {
    if from == |s| then -1 else if s[from].id == id then from else FirstFrom(s, id, from + 1)
  }

  /** The first copy of an id, or -1: the entry every question about the id is about. */
  function FirstIndex(s: seq<Entry>, id: string): (i: int)
    ensures -1 <= i < |s|
    ensures 0 <= i ==> s[i].id == id
    ensures forall j :: 0 <= j < |s| && (i < 0 || j < i) ==> s[j].id != id
  {
    FirstFrom(s, id, 0)
  }

  predicate Has(s: seq<Entry>, id: string) {
    0 <= FirstIndex(s, id)
  }

  predicate HasMsg(s: seq<Entry>, m: nat) {
    exists i :: 0 <= i < |s| && s[i].msg == m
  }

  function Push(cap: nat, s: seq<Entry>, e: Entry): seq<Entry>
    requires 1 <= cap
  {
    (if |s| == cap then s[1..] else s) + [e]
  }

  /** dropFront's clamping: how many of `n` requested entries really go. */
  function Dropped(len: nat, n: int): (d: nat)
    ensures d <= len
  {
    if n <= 0 then 0 else if n > len then len else n
  }

  function ExpireCount(s: seq<Entry>, x: Expiry): (n: nat)
    ensures n <= |s|
  {
    match x
    case All => |s|
    case Before(c) => if c == "" then 0 else Dropped(|s|, FirstIndex(s, c))
  }

  function Expire(s: seq<Entry>, x: Expiry): seq<Entry> {
    s[ExpireCount(s, x)..]
  }

  function ExpireMany(s: seq<Entry>, xs: seq<Expiry>): seq<Entry> {
    if xs == [] then s else ExpireMany(Expire(s, xs[0]), xs[1..])
  }

  predicate TopicsIntersect(a: seq<string>, b: seq<string>) {
    exists t :: t in a && t in b
  }

  /** The messages a subscription to `topics` can see, in buffer order. */
  function Collect(s: seq<Entry>, topics: seq<string>): (r: seq<nat>) {
    if s == [] then []
    else
      var e := s[|s| - 1];
      Collect(s[..|s| - 1], topics) + (if TopicsIntersect(topics, e.topics) then [e.msg] else [])
  }

  /** None means "replay nothing": an unknown cursor, or the newest entry. */
  function After(s: seq<Entry>, id: string, topics: seq<string>): Option<seq<nat>> {
    var i := FirstIndex(s, id);
    if i < 0 || i == |s| - 1 then None else Some(Collect(s[i + 1..], topics))
  }

  /** Length of the longest prefix whose events all predate `t`. */
  function PredatingPrefix(s: seq<Entry>, t: int): (p: nat)
    ensures p <= |s|
    ensures forall i :: 0 <= i < p ==> s[i].at < t
    ensures p < |s| ==> t <= s[p].at
  {
    PredatingFrom(s, t, 0)
  }

  function PredatingFrom(s: seq<Entry>, t: int, from: nat): (p: nat)
    requires from <= |s|
    ensures from <= p <= |s|
    ensures forall i :: from <= i < p ==> s[i].at < t
    ensures p < |s| ==> t <= s[p].at
    decreases |s| - from
  {
    if from == |s| || t <= s[from].at then from else PredatingFrom(s, t, from + 1)
  }

  /** The last index below `p` that is the first copy of its id, or -1. */
  function LastFirstCopy(s: seq<Entry>, p: nat): (b: int)
    requires p <= |s|
    ensures -1 <= b < p
    ensures 0 <= b ==> FirstIndex(s, s[b].id) == b
    ensures forall j :: b < j < p ==> FirstIndex(s, s[j].id) != j
  {
    if p == 0 then -1
    else if FirstIndex(s, s[p - 1].id) == p - 1 then p - 1
    else LastFirstCopy(s, p - 1)
  }

  function IdBefore(s: seq<Entry>, t: int): Option<string> {
    var b := LastFirstCopy(s, PredatingPrefix(s, t));
    if b < 0 then None else Some(s[b].id)
  }

  // ------------------------------------------------------- whole runs of operations

  datatype Op = Put(e: Entry) | Expiring(x: Expiry)

  function Apply(cap: nat, s: seq<Entry>, op: Op): seq<Entry>
    requires 1 <= cap
  {
    match op
    case Put(e) => Push(cap, s, e)
    case Expiring(x) => Expire(s, x)
  }

  function Run(cap: nat, ops: seq<Op>): seq<Entry>
    requires 1 <= cap
  {
    if ops == [] then [] else Apply(cap, Run(cap, ops[..|ops| - 1]), ops[|ops| - 1])
  }

  /** Everything that was ever put, oldest first. */
  function History(ops: seq<Op>): seq<Entry> {
    if ops == [] then []
    else History(ops[..|ops| - 1]) + (if ops[|ops| - 1].Put? then [ops[|ops| - 1].e] else [])
  }

  /** The buffer is always a contiguous suffix of the history, no longer than the
      capacity: nothing is reordered, duplicated or lost from the middle. */
  lemma {:induction false} BufferIsSuffixOfHistory(cap: nat, ops: seq<Op>)
    requires 1 <= cap
    ensures |Run(cap, ops)| <= cap
    ensures Suffix(Run(cap, ops), History(ops))
  {
    if ops != [] {
      var front := ops[..|ops| - 1];
      BufferIsSuffixOfHistory(cap, front);
      ApplyToSuffix(cap, Run(cap, front), History(front), ops[|ops| - 1]);
    }
  }

  predicate Suffix(b: seq<Entry>, s: seq<Entry>) {
    |b| <= |s| && b == s[|s| - |b|..]
  }

  /** One operation on a suffix of the history leaves a suffix of the new history. */
  lemma ApplyToSuffix(cap: nat, b: seq<Entry>, h: seq<Entry>, op: Op)
    requires 1 <= cap && |b| <= cap && Suffix(b, h)
    ensures |Apply(cap, b, op)| <= cap
    ensures Suffix(Apply(cap, b, op), h + if op.Put? then [op.e] else [])
  {
    if op.Expiring? {
      assert b[ExpireCount(b, op.x)..] == h[|h| - |b| + ExpireCount(b, op.x)..];
      assert h + [] == h;
    }
  }

  /** The history position of the oldest entry still buffered. */
  function FrontPosition(cap: nat, ops: seq<Op>): (p: int)
    requires 1 <= cap
  {
    |History(ops)| - |Run(cap, ops)|
  }

  /** Entries leave only from the front and never return: over any run the window of
      history that is buffered only ever moves forward. */
  lemma {:induction false} EntriesNeverReturn(cap: nat, ops: seq<Op>, i: nat, j: nat)
    requires 1 <= cap && i <= j <= |ops|
    ensures FrontPosition(cap, ops[..i]) <= FrontPosition(cap, ops[..j])
    ensures History(ops[..i]) <= History(ops[..j])
    decreases j - i
  {
    if i < j {
      EntriesNeverReturn(cap, ops, i, j - 1);
      assert ops[..j][..j - 1] == ops[..j - 1];
      FrontMoves(cap, ops[..j]);
    }
  }

  lemma FrontMoves(cap: nat, ops: seq<Op>)
    requires 1 <= cap && ops != []
    ensures FrontPosition(cap, ops[..|ops| - 1]) <= FrontPosition(cap, ops)
    ensures History(ops[..|ops| - 1]) <= History(ops)
  {
    BufferIsSuffixOfHistory(cap, ops[..|ops| - 1]);
  }

  /** A put takes the oldest entry away exactly when the buffer is full. */
  lemma PutEvictsOnlyWhenFull(cap: nat, ops: seq<Op>, e: Entry)
    requires 1 <= cap
    ensures FrontPosition(cap, ops + [Put(e)])
            == FrontPosition(cap, ops) + if |Run(cap, ops)| == cap then 1 else 0
    ensures Run(cap, ops + [Put(e)])[|Run(cap, ops + [Put(e)])| - 1] == e
  {
    assert (ops + [Put(e)])[..|ops|] == ops;
    BufferIsSuffixOfHistory(cap, ops);
  }

  /** The operation at `k` is an expiry, and it took the entry at history position `h`. */
  predicate ExpiredAt(cap: nat, ops: seq<Op>, k: nat, h: nat)
    requires 1 <= cap
  {
    && k < |ops| && ops[k].Expiring?
    && FrontPosition(cap, ops[..k]) <= h < FrontPosition(cap, ops[..k + 1])
  }

  /** Entries leave for two reasons only: the entry at a history position is gone exactly if
      an expiry took it, or `cap` newer ones were put. */
  lemma {:induction false} GoneIff(cap: nat, ops: seq<Op>, h: nat)
    requires 1 <= cap && h < |History(ops)|
    ensures h < FrontPosition(cap, ops) <==> |History(ops)| - h > cap || exists k: nat :: ExpiredAt(cap, ops, k, h)
  {
    BufferIsSuffixOfHistory(cap, ops);
    assert ops[..|ops|] == ops;
    if h < FrontPosition(cap, ops) && |History(ops)| - h <= cap {
      var k := TakenByExpiry(cap, ops, h, |ops|);
    } else if k: nat :| ExpiredAt(cap, ops, k, h) {
      EntriesNeverReturn(cap, ops, k + 1, |ops|);
    }
  }

  lemma {:induction false} TakenByExpiry(cap: nat, ops: seq<Op>, h: nat, n: nat) returns (k: nat)
    requires 1 <= cap && n <= |ops|
    requires h < FrontPosition(cap, ops[..n]) && |History(ops[..n])| - h <= cap
    ensures ExpiredAt(cap, ops, k, h)
    decreases n
  {
    var front := ops[..n - 1];
    assert ops[..n] == front + [ops[n - 1]];
    GoneBefore(cap, front, ops[n - 1], h);
    if h < FrontPosition(cap, front) {
      k := TakenByExpiry(cap, ops, h, n - 1);
    } else {
      k := n - 1;
    }
  }

  lemma GoneBefore(cap: nat, ops: seq<Op>, op: Op, h: nat)
    requires 1 <= cap && h < FrontPosition(cap, ops + [op]) && |History(ops + [op])| - h <= cap
    ensures |History(ops)| - h <= cap && (op.Put? ==> h < FrontPosition(cap, ops))
  {
    assert (ops + [op])[..|ops|] == ops;
    if op.Put? {
      PutEvictsOnlyWhenFull(cap, ops, op.e);
    }
  }

  /** So a run without expiries holds exactly the newest `cap` of what was put. */
  lemma WithoutExpiryHoldsNewest(cap: nat, ops: seq<Op>)
    requires 1 <= cap && forall i :: 0 <= i < |ops| ==> ops[i].Put?
    ensures Run(cap, ops) == Newest(History(ops), cap)
  {
    var p := FrontPosition(cap, ops);
    BufferIsSuffixOfHistory(cap, ops);
    if p > 0 {
      GoneIff(cap, ops, p - 1);
    }
    FullSuffixIsNewest(cap, Run(cap, ops), History(ops));
  }

  lemma FullSuffixIsNewest(cap: nat, b: seq<Entry>, h: seq<Entry>)
    requires Suffix(b, h) && |b| <= cap && (|b| < |h| ==> |b| == cap)
    ensures b == Newest(h, cap)
  {
  }

  // --------------------------------------------------------------- expireBefore

  lemma FirstIndexAt(s: seq<Entry>, id: string, i: nat)
    requires i < |s| && s[i].id == id
    requires forall j :: 0 <= j < i ==> s[j].id != id
    ensures FirstIndex(s, id) == i
  {
  }

  /** Dropping `n` entries moves every first copy at or behind `n` forward by `n`. */
  lemma FirstIndexAfterDrop(s: seq<Entry>, id: string, n: nat)
    requires n <= |s| && n <= FirstIndex(s, id)
    ensures FirstIndex(s[n..], id) == FirstIndex(s, id) - n
  {
    FirstIndexAt(s[n..], id, FirstIndex(s, id) - n);
  }

  /** expireBefore(c) on a held cursor drops exactly what precedes its first copy and
      keeps c; anything else drops nothing. */
  lemma ExpireBeforeIsExact(s: seq<Entry>, c: string)
    ensures c != "" && Has(s, c) ==>
              && Expire(s, Before(c)) == s[FirstIndex(s, c)..]
              && FirstIndex(Expire(s, Before(c)), c) == 0
    ensures c == "" || !Has(s, c) ==> Expire(s, Before(c)) == s
    ensures Expire(Expire(s, Before(c)), Before(c)) == Expire(s, Before(c))
    ensures Has(Expire(s, Before(c)), c) == Has(s, c)
  {
    if c != "" && Has(s, c) {
      FirstIndexAfterDrop(s, c, FirstIndex(s, c));
    }
  }

  /** The replay answer of every id whose first copy survives an expiry is unchanged. */
  lemma ExpiryKeepsSurvivingAnswers(s: seq<Entry>, x: Expiry, id: string, topics: seq<string>)
    requires ExpireCount(s, x) <= FirstIndex(s, id)
    ensures After(Expire(s, x), id, topics) == After(s, id, topics)
  {
    AnswerAfterDrop(s, id, topics, ExpireCount(s, x));
  }

  lemma AnswerAfterDrop(s: seq<Entry>, id: string, topics: seq<string>, n: nat)
    requires n <= FirstIndex(s, id)
    ensures After(s[n..], id, topics) == After(s, id, topics)
  {
    var i := FirstIndex(s, id);
    FirstIndexAfterDrop(s, id, n);
    assert s[n..][i - n + 1..] == s[i + 1..];
  }

  /** An id whose copies all precede the cut is gone, so its resume replays nothing. */
  lemma ExpiryForgetsDroppedIds(s: seq<Entry>, x: Expiry, id: string, topics: seq<string>)
    requires forall j :: ExpireCount(s, x) <= j < |s| ==> s[j].id != id
    ensures !Has(Expire(s, x), id) && After(Expire(s, x), id, topics) == None
  {
    var t := Expire(s, x);
    forall j | 0 <= j < |t|
      ensures t[j].id != id
    {
      assert t[j] == s[j + ExpireCount(s, x)];
    }
  }

  lemma {:induction false} ExpireManyIsSuffix(s: seq<Entry>, xs: seq<Expiry>) returns (d: nat)
    ensures d <= |s| && ExpireMany(s, xs) == s[d..]
  {
    if xs == [] {
      d := 0;
    } else {
      var n := ExpireCount(s, xs[0]);
      var rest := ExpireManyIsSuffix(Expire(s, xs[0]), xs[1..]);
      d := n + rest;
      assert s[n..][rest..] == s[d..];
    }
  }

  // ------------------------------------------------------ positions of visible entries

  /** Indices of the entries Collect keeps. */
  function Positions(s: seq<Entry>, topics: seq<string>): seq<nat> {
    if s == [] then []
    else Positions(s[..|s| - 1], topics)
         + (if TopicsIntersect(topics, s[|s| - 1].topics) then [|s| - 1] else [])
  }

  /** Collect is the messages at those indices: increasing, visible, and complete. */
  lemma {:induction false} PositionsOfCollect(s: seq<Entry>, topics: seq<string>)
    ensures |Positions(s, topics)| == |Collect(s, topics)|
    ensures forall k :: 0 <= k < |Positions(s, topics)| ==>
              && Positions(s, topics)[k] < |s|
              && s[Positions(s, topics)[k]].msg == Collect(s, topics)[k]
              && TopicsIntersect(topics, s[Positions(s, topics)[k]].topics)
    ensures forall j, k :: 0 <= j < k < |Positions(s, topics)| ==>
              Positions(s, topics)[j] < Positions(s, topics)[k]
    ensures forall i :: 0 <= i < |s| && TopicsIntersect(topics, s[i].topics) ==> i in Positions(s, topics)
  {
    if s != [] {
      PositionsOfCollect(s[..|s| - 1], topics);
    }
  }
}
