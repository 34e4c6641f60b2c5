/** ringIndex as the source writes it: a fixed backing array whose live prefix is
    shifted, cleared and truncated in place (internal/events/replayer.go:27-294), and
    the replay loop that reads it between expiries. Every method is proved against the
    functions of ReplayBuffer and Replay. */
module RingIndex {
  import opened Prelude
  import opened ReplayBuffer
  import opened Replay

  /** What Go's clear leaves behind. */
  const ZERO_ENTRY := Entry("", 0, 0, [])

  class Ring {
    const cap: nat
    const data: array<Entry>
    var len: nat

    ghost predicate Valid()
      reads this
    {
      1 <= cap == data.Length && len <= cap
    }

    ghost function Contents(): seq<Entry>
      requires Valid()
      reads this, data
    {
      data[..len]
    }

    /** newRingIndex: the capacity is floored at 1. */
    constructor (capacity: int)
      ensures Valid() && fresh(data) && Contents() == []
      ensures cap == if capacity < 1 then 1 else capacity
    {
      var c: nat := if capacity < 1 then 1 else capacity;
      cap := c;
      data := new Entry[c](_ => ZERO_ENTRY);
      len := 0;
    }

    /** Go's copy(entries, entries[n:]): move the survivors to the front. */
    method ShiftDown(n: nat)
      requires Valid() && n <= len
      modifies data
      ensures data[..len - n] == old(data[n..len])
      ensures data[len - n..] == old(data[len - n..])
    {
      var i := 0;
      while i < len - n
        invariant 0 <= i <= len - n
        invariant data[..i] == old(data[n..n + i])
        invariant data[i..] == old(data[i..])
      {
        data[i] := data[i + n];
        i := i + 1;
      }
    }

    method Put(e: Entry)
      requires Valid()
      modifies this, data
      ensures Valid() && Contents() == Push(cap, old(Contents()), e)
    {
      if len == cap {
        ShiftDown(1);
        len := cap - 1;
      }
      data[len] := e;
      len := len + 1;
    }

    method First(id: string) returns (i: int)
      requires Valid()
      ensures i == FirstIndex(Contents(), id)
    {
      i := 0;
      while i < len
        invariant 0 <= i <= len
        invariant forall j :: 0 <= j < i ==> data[j].id != id
      {
        if data[i].id == id {
          FirstIndexAt(Contents(), id, i);
          return;
        }
        i := i + 1;
      }
      i := -1;
    }

    method Holds(m: nat) returns (held: bool)
      requires Valid()
      ensures held == HasMsg(Contents(), m)
    {
      var i := 0;
      while i < len
        invariant 0 <= i <= len
        invariant forall j :: 0 <= j < i ==> data[j].msg != m
      {
        if data[i].msg == m {
          assert Contents()[i].msg == m;
          return true;
        }
        i := i + 1;
      }
      return false;
    }

    method IDBefore(t: int) returns (id: Option<string>)
      requires Valid()
      ensures id == IdBefore(Contents(), t)
    {
      id := ScanBefore(data[..len], t);
    }

    method CollectFrom(from: nat, topics: seq<string>) returns (out: seq<nat>)
      requires Valid() && from <= len
      ensures out == Collect(Contents()[from..], topics)
    {
      out := [];
      var i := from;
      while i < len
        invariant from <= i <= len
        invariant out == Collect(data[from..i], topics)
      {
        assert data[from..i + 1][..i - from] == data[from..i];
        if exists t :: t in topics && t in data[i].topics {
          out := out + [data[i].msg];
        }
        i := i + 1;
      }
      assert data[from..len] == Contents()[from..];
    }

    method MessagesAfter(id: string, topics: seq<string>) returns (r: Option<seq<nat>>)
      requires Valid()
      ensures r == After(Contents(), id, topics)
    {
      var i := First(id);
      if i < 0 || i == len - 1 {
        return None;
      }
      var out := CollectFrom(i + 1, topics);
      r := Some(out);
    }

    /** Drops from the front, zeroes the vacated tail, and reports how many went. */
    method DropFront(n: int) returns (dropped: nat)
      requires Valid()
      modifies this, data
      ensures Valid() && dropped == Dropped(old(len), n)
      ensures Contents() == old(Contents())[dropped..]
      ensures forall i :: len <= i < old(len) ==> data[i] == ZERO_ENTRY
    {
      if n <= 0 {
        return 0;
      }
      dropped := if n > len then len else n;
      ShiftDown(dropped);
      ghost var kept := data[..len - dropped];
      var i := len - dropped;
      while i < len
        invariant len - dropped <= i <= len
        invariant data[..len - dropped] == kept
        invariant forall j :: len - dropped <= j < i ==> data[j] == ZERO_ENTRY
        modifies data
      {
        data[i] := ZERO_ENTRY;
        i := i + 1;
      }
      len := len - dropped;
    }

    method ExpireAll() returns (dropped: nat)
      requires Valid()
      modifies this, data
      ensures Valid() && dropped == old(len) && Contents() == Expire(old(Contents()), All)
    {
      dropped := DropFront(len);
    }

    method ExpireBefore(cursor: string) returns (dropped: nat, found: bool)
      requires Valid()
      modifies this, data
      ensures Valid() && Contents() == Expire(old(Contents()), Before(cursor))
      ensures dropped == ExpireCount(old(Contents()), Before(cursor))
      ensures found == (cursor != "" && Has(old(Contents()), cursor))
    {
      if cursor == "" {
        return 0, false;
      }
      var i := First(cursor);
      if i < 0 {
        return 0, false;
      }
      dropped := DropFront(i);
      found := true;
    }

    /** Another goroutine's expiries, landing in one unlocked window. */
    method Interfere(xs: seq<Expiry>)
      requires Valid()
      modifies this, data
      ensures Valid() && Contents() == ExpireMany(old(Contents()), xs)
      decreases xs
    {
      if xs != [] {
        match xs[0] {
          case All => var _ := ExpireAll();
          case Before(c) => var _, _ := ExpireBefore(c);
        }
        Interfere(xs[1..]);
      }
    }

    /** The send loop over a snapshot; `gaps(k)` are the expiries landing before the
        re-check of message `k`, `gaps(|msgs|)` those before the return. */
    method SendSnapshot(resume: bool, msgs: seq<nat>, gaps: nat -> seq<Expiry>, fails: nat -> bool)
      returns (sent: seq<nat>, failed: bool, ghost buffers: nat -> seq<Entry>)
      requires Valid()
      modifies this, data
      ensures Valid()
      ensures OnlyExpiries(old(Contents()), buffers, |msgs|)
      ensures Contents() == buffers(|msgs|)
      ensures Outcome(sent, failed) == Send(buffers, resume, msgs, fails, 0)
    {
      ghost var s := Contents();
      buffers := (k: nat) => BufferAt(s, gaps, k);
      BuffersAreDriven(s, gaps, buffers);
      DrivenOnlyExpire(s, gaps, buffers, |msgs|);
      var k;
      sent, failed, k := SendWhileHeld(resume, msgs, gaps, fails, s, buffers);
      Settle(gaps, k, |msgs| - k, s, buffers);
    }

    /** The loop itself: stops at the first message a resume no longer finds buffered, or
        when a write fails; `k` is the number of checks made. */
    method SendWhileHeld(resume: bool, msgs: seq<nat>, gaps: nat -> seq<Expiry>, fails: nat -> bool,
                         ghost s: seq<Entry>, ghost buffers: nat -> seq<Entry>)
      returns (sent: seq<nat>, failed: bool, k: nat)
      requires Valid() && Contents() == s && forall j :: Driven(s, gaps, buffers, j)
      modifies this, data
      ensures Valid() && k <= |msgs| && Contents() == PriorBuffer(s, buffers, k)
      ensures Outcome(sent, failed) == Send(buffers, resume, msgs, fails, 0)
    {
      sent, failed, k := [], false, 0;
      var stopped := false;
      while k < |msgs| && !stopped
        invariant k <= |msgs| && Valid() && Contents() == PriorBuffer(s, buffers, k)
        invariant Progress(buffers, resume, msgs, fails, k, sent, failed, stopped)
        decreases |msgs| - k
      {
        assert Driven(s, gaps, buffers, k);
        var held := CheckAfter(gaps(k), msgs[k]);
        ProgressStep(buffers, resume, msgs, fails, k, sent);
        if !held {
          stopped := resume;
        } else if fails(k) {
          stopped, failed := true, true;
        } else {
          sent := sent + [msgs[k]];
        }
        k := k + 1;
      }
    }

    /** The re-check of one message, with the expiries that landed before it. */
    method CheckAfter(xs: seq<Expiry>, m: nat) returns (held: bool)
      requires Valid()
      modifies this, data
      ensures Valid() && Contents() == ExpireMany(old(Contents()), xs) && held == HasMsg(Contents(), m)
    {
      Interfere(xs);
      held := Holds(m);
    }

    /** The unlocked time between the end of the loop and the return. */
    method Settle(gaps: nat -> seq<Expiry>, from: nat, more: nat, ghost s: seq<Entry>, ghost buffers: nat -> seq<Entry>)
      requires Valid() && Contents() == PriorBuffer(s, buffers, from) && forall j :: Driven(s, gaps, buffers, j)
      modifies this, data
      ensures Valid() && Contents() == buffers(from + more)
      decreases more
    {
      assert Driven(s, gaps, buffers, from);
      Interfere(gaps(from));
      if more > 0 {
        Settle(gaps, from + 1, more - 1, s, buffers);
      }
    }
  }

  /** One pass with the set of ids already visited, so only first copies count. */
  method ScanBefore(s: seq<Entry>, t: int) returns (id: Option<string>)
    ensures id == IdBefore(s, t)
  {
    var i, seen, best: int := 0, {}, -1;
    while i < |s| && s[i].at < t
      invariant 0 <= i <= |s| && Scanned(s, t, i, seen, best)
    {
      ScanStep(s, t, i, seen, best);
      if s[i].id !in seen {
        seen, best := seen + {s[i].id}, i;
      }
      i := i + 1;
    }
    ScanEndsAt(s, t, i, seen, best);
    id := if best < 0 then None else Some(s[best].id);
  }

  /** What the scan knows after `i` predating entries. */
  ghost predicate Scanned(s: seq<Entry>, t: int, i: nat, seen: set<string>, best: int)
    requires i <= |s|
  {
    (forall j :: 0 <= j < i ==> s[j].at < t) && seen == IdsBelow(s, i) && best == LastFirstCopy(s, i)
  }

  lemma ScanStep(s: seq<Entry>, t: int, i: nat, seen: set<string>, best: int)
    requires i < |s| && s[i].at < t && Scanned(s, t, i, seen, best)
    ensures Scanned(s, t, i + 1, seen + {s[i].id}, if s[i].id in seen then best else i)
    ensures s[i].id in seen ==> seen + {s[i].id} == seen
  {
    NextFirstCopy(s, i);
  }

  ghost function IdsBelow(s: seq<Entry>, i: nat): set<string>
    requires i <= |s|
  {
    if i == 0 then {} else IdsBelow(s, i - 1) + {s[i - 1].id}
  }

  lemma {:induction false} IdsBelowAre(s: seq<Entry>, i: nat, id: string)
    requires i <= |s|
    ensures id in IdsBelow(s, i) <==> exists j :: 0 <= j < i && s[j].id == id
  {
    if i > 0 {
      IdsBelowAre(s, i - 1, id);
    }
  }

  lemma NextFirstCopy(s: seq<Entry>, i: nat)
    requires i < |s|
    ensures LastFirstCopy(s, i + 1) == if s[i].id in IdsBelow(s, i) then LastFirstCopy(s, i) else i
  {
    IdsBelowAre(s, i, s[i].id);
    if s[i].id !in IdsBelow(s, i) {
      FirstIndexAt(s, s[i].id, i);
    }
  }

  lemma ScanEndsAt(s: seq<Entry>, t: int, i: nat, seen: set<string>, best: int)
    requires i <= |s| && Scanned(s, t, i, seen, best) && (i < |s| ==> t <= s[i].at)
    ensures -1 <= best < |s| && IdBefore(s, t) == if best < 0 then None else Some(s[best].id)
  {
    assert PredatingPrefix(s, t) == i;
  }

  /** The buffer at the re-check of message `k`. */
  ghost function BufferAt(s: seq<Entry>, gaps: nat -> seq<Expiry>, k: nat): seq<Entry> {
    ExpireMany(if k == 0 then s else BufferAt(s, gaps, k - 1), gaps(k))
  }

  ghost function PriorBuffer(s: seq<Entry>, buffers: nat -> seq<Entry>, k: nat): seq<Entry> {
    if k == 0 then s else buffers(k - 1)
  }

  /** The buffer at check `k` is the one before it less what gaps(k) expires. */
  ghost predicate Driven(s: seq<Entry>, gaps: nat -> seq<Expiry>, buffers: nat -> seq<Entry>, k: nat) {
    buffers(k) == ExpireMany(PriorBuffer(s, buffers, k), gaps(k))
  }

  lemma BuffersAreDriven(s: seq<Entry>, gaps: nat -> seq<Expiry>, buffers: nat -> seq<Entry>)
    requires forall k :: buffers(k) == BufferAt(s, gaps, k)
    ensures forall k :: Driven(s, gaps, buffers, k)
  {
  }

  lemma DrivenOnlyExpire(s: seq<Entry>, gaps: nat -> seq<Expiry>, buffers: nat -> seq<Entry>, n: nat)
    requires forall k :: Driven(s, gaps, buffers, k)
    ensures OnlyExpiries(s, buffers, n)
  {
    assert Driven(s, gaps, buffers, 0);
    forall k | 0 <= k < n
      ensures ExpiresBetween(buffers, k)
    {
      assert Driven(s, gaps, buffers, k + 1);
    }
  }

  ghost function Prepend(sent: seq<nat>, o: Outcome): Outcome {
    o.(sent := sent + o.sent)
  }

  /** What the loop has decided so far, and what it leaves to the rest. */
  ghost predicate Progress(buffers: nat -> seq<Entry>, resume: bool, msgs: seq<nat>, fails: nat -> bool,
                           k: nat, sent: seq<nat>, failed: bool, stopped: bool)
    requires k <= |msgs|
  {
    var whole := Send(buffers, resume, msgs, fails, 0);
    if stopped then whole == Outcome(sent, failed)
    else !failed && whole == Prepend(sent, Send(buffers, resume, msgs, fails, k))
  }

  /** One turn of the loop, seen from what had been sent before it. */
  lemma SendStep(buffers: nat -> seq<Entry>, resume: bool, msgs: seq<nat>, fails: nat -> bool,
                 k: nat, sent: seq<nat>)
    requires k < |msgs|
    ensures var now := Prepend(sent, Send(buffers, resume, msgs, fails, k));
            var later := Send(buffers, resume, msgs, fails, k + 1);
            if !HasMsg(buffers(k), msgs[k]) then now == if resume then Outcome(sent, false) else Prepend(sent, later)
            else if fails(k) then now == Outcome(sent, true)
            else now == Prepend(sent + [msgs[k]], later)
  {
  }

  lemma ProgressStep(buffers: nat -> seq<Entry>, resume: bool, msgs: seq<nat>, fails: nat -> bool,
                     k: nat, sent: seq<nat>)
    requires k < |msgs| && Progress(buffers, resume, msgs, fails, k, sent, false, false)
    ensures !HasMsg(buffers(k), msgs[k]) ==> Progress(buffers, resume, msgs, fails, k + 1, sent, false, resume)
    ensures HasMsg(buffers(k), msgs[k]) && fails(k) ==> Progress(buffers, resume, msgs, fails, k + 1, sent, true, true)
    ensures HasMsg(buffers(k), msgs[k]) && !fails(k) ==>
              Progress(buffers, resume, msgs, fails, k + 1, sent + [msgs[k]], false, false)
  {
    SendStep(buffers, resume, msgs, fails, k, sent);
  }
}
