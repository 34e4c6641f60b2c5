/** The ledger inside the SDK client (pkg/auth0mock/client.go:69-208) and Verify
    (pkg/auth0mock/expectations.go:203-267): a slice filtered in place, its vacated tail
    nilled, a clamped counter and a flag. Each method is one critical section and is proved
    against the steps of Ledger. */
module ClientLedger {
  import opened Prelude
  import opened Lists
  import opened Ledger

  datatype Verdict = Passed | OrderingError | ListFailed | Violated(handles: seq<Handle>)

  /** What Verify holds against a handle. */
  predicate Violates(h: Handle, hits: map<string, int>) {
    h.expected != Unset && (h.id !in hits || !Satisfied(h.expected, hits[h.id]))
  }

  function Violating(hits: map<string, int>): Handle -> bool {
    (h: Handle) => Violates(h, hits)
  }

  /** The verdict on a copy of the ledger: exactly the handles that violate. */
  function Judged(tracked: seq<Handle>, hits: map<string, int>): Verdict {
    var bad := Filtered(tracked, Violating(hits));
    if bad == [] then Passed else Violated(bad)
  }

  /** Who is held to account: a handle is reported exactly if it is in the copy, carries a
      constraint, and the server lists no such expectation or one with the wrong count. */
  lemma JudgedIff(tracked: seq<Handle>, hits: map<string, int>, h: Handle)
    ensures var verdict := Judged(tracked, hits);
            && (verdict == Passed || verdict.Violated?)
            && ((verdict.Violated? && h in verdict.handles)
                <==> && h in tracked && h.expected != Unset
                     && (h.id in hits ==> !Satisfied(h.expected, hits[h.id])))
  {
    FilteredHas(tracked, Violating(hits));
    if h in tracked && Violates(h, hits) {
      assert Filtered(tracked, Violating(hits)) != [];
    }
  }

  /** What a nilled slot is read as. */
  const NIL_HANDLE := Handle("", "", "", Unset)

  /** The state an Untrack acts on, when a Verify's store of zero may race with it. */
  function ZeroedFirst(s: State, keep: Handle -> bool, raced: bool): State {
    if raced && |Filtered(s.registered, keep)| < |s.registered| then s.(pending := 0) else s
  }

  class Client {
    var slots: array<Handle>
    var len: nat
    var pending: int
    var flag: bool
    /** How far each Verify in progress has come. */
    ghost var verifying: map<nat, Verification>

    ghost predicate Valid()
      reads this, slots
    {
      len <= slots.Length && 0 <= pending <= len
    }

    ghost function View(): State
      requires Valid()
      reads this, slots
    {
      State(slots[..len], pending, flag, verifying)
    }

    constructor ()
      ensures Valid() && View() == INITIAL && fresh(slots)
    {
      slots := new Handle[0];
      len, pending, flag := 0, 0, false;
      verifying := map[];
    }

    /** append, growing the backing array when it is full. */
    method TrackRegistered(h: Handle)
      requires Valid()
      modifies this, slots
      ensures Valid() && (slots == old(slots) || fresh(slots))
      ensures View() == Next(old(View()), Track(h))
    {
      if len == slots.Length {
        slots := Grown(slots);
      }
      slots[len] := h;
      len, pending := len + 1, pending + 1;
    }

    /** Compact the kept handles to the front, nil the rest, and take the difference off
        the counter. A Verify that zeroes the counter while it is being taken off has the
        effect of one that did so before. */
    method UntrackWhere(keep: Handle -> bool, zeroed: nat -> bool)
      requires Valid()
      modifies this, slots
      ensures Valid() && slots == old(slots)
      ensures View() == Next(ZeroedFirst(old(View()), keep, zeroed(0)), Untrack(keep))
      ensures forall i :: len <= i < old(len) ==> slots[i] == NIL_HANDLE
    {
      ghost var was := slots[..len];
      FilteredIsShorter(was, keep);
      var before := len;
      var kept := Compact(slots, len, keep);
      NilOut(slots, kept, before);
      len := kept;
      DecrementPendingAdds(before - kept, zeroed);
    }

    method UntrackByID(id: string, zeroed: nat -> bool)
      requires Valid()
      modifies this, slots
      ensures Valid()
      ensures View() == Next(ZeroedFirst(old(View()), OtherID(id), zeroed(0)), Untrack(OtherID(id)))
    {
      UntrackWhere(OtherID(id), zeroed);
    }

    method UntrackByMethodPath(verb: string, path: string, zeroed: nat -> bool)
      requires Valid()
      modifies this, slots
      ensures Valid()
      ensures View() == Next(ZeroedFirst(old(View()), OtherOp(verb, path), zeroed(0)), Untrack(OtherOp(verb, path)))
    {
      UntrackWhere(OtherOp(verb, path), zeroed);
    }

    /** The compare-and-swap loop. Only Verify's unlocked store of zero can fall between the
        load and the swap of a round; `zeroed` says in which rounds it does. Then the swap
        fails, the next round reads zero and stops. */
    method DecrementPendingAdds(n: int, zeroed: nat -> bool)
      modifies `pending
      ensures pending == Decremented(if n > 0 && zeroed(0) then 0 else old(pending), n)
    {
      if n <= 0 {
        return;
      }
      var round := 0;
      while true
        invariant if round == 0 then pending == old(pending) else zeroed(0) && pending == 0
        decreases if round == 0 then 1 else 0
      {
        var cur := pending;
        if cur == 0 {
          return;
        }
        if zeroed(round) {
          pending := 0;
        }
        if pending == cur {
          pending := if cur - n < 0 then 0 else cur - n;
          return;
        }
        round := round + 1;
      }
    }

    method UntrackEverything()
      requires Valid()
      modifies this, slots
      ensures Valid() && View() == Next(old(View()), UntrackAll)
    {
      NilOut(slots, 0, len);
      len, pending := 0, 0;
    }

    /** Reset's half: swap the counter out, raise the flag if it was positive, drop the slice. */
    method DropRegistered()
      requires Valid()
      modifies this
      ensures Valid() && fresh(slots)
      ensures View() == Next(old(View()), Reset)
    {
      if pending > 0 {
        flag := true;
      }
      pending, len := 0, 0;
      slots := new Handle[0];
    }

    /** The three critical sections of Verify. Other calls may run between them; `v` tells
        one Verify from another. First, swap the flag out. */
    method TakeResetFlag(ghost v: nat) returns (raised: bool)
      requires Valid() && Enabled(View(), TakeFlag(v))
      modifies `flag, `verifying
      ensures Valid() && View() == Next(old(View()), TakeFlag(v)) && raised == old(flag)
    {
      raised := flag;
      flag := false;
      verifying := verifying[v := Began(raised)];
    }

    /** Second, copy the ledger under the lock. */
    method RegisteredSnapshot(ghost v: nat) returns (tracked: seq<Handle>)
      requires Valid() && Enabled(View(), Snapshot(v))
      modifies `verifying
      ensures Valid() && View() == Next(old(View()), Snapshot(v)) && tracked == old(View()).registered
    {
      tracked := slots[..len];
      verifying := verifying[v := if tracked == [] then EmptyLedger(verifying[v].flag) else Checking(tracked)];
    }

    /** Last, judge the copy, whatever the ledger has become, and zero the counter without
        the lock. */
    method Conclude(ghost v: nat, tracked: seq<Handle>, hits: map<string, int>) returns (verdict: Verdict)
      requires Valid() && Enabled(View(), Finish(v)) && verifying[v].tracked == tracked
      modifies `pending, `verifying
      ensures Valid() && View() == Next(old(View()), Finish(v))
      ensures verdict == Judged(tracked, hits)
    {
      var bad := Selected(tracked, Violating(hits));
      pending := 0;
      verifying := verifying[v := Done];
      verdict := if bad == [] then Passed else Violated(bad);
    }

    /** Verify when nothing runs between its critical sections; `listed` is the server's
        answer, None when the list request fails. */
    method Verify(ghost v: nat, listed: Option<map<string, int>>) returns (verdict: Verdict)
      requires Valid() && v !in verifying
      modifies `pending, `flag, `verifying
      ensures Valid() && !flag && View().registered == old(View()).registered
      ensures var tracked := old(View()).registered;
              if tracked == [] then verdict == (if old(flag) then OrderingError else Passed) && pending == old(pending)
              else if listed.None? then verdict == ListFailed && pending == old(pending)
              else verdict == Judged(tracked, listed.value) && pending == 0
    {
      var resetFlag := TakeResetFlag(v);
      var tracked := RegisteredSnapshot(v);
      if tracked == [] {
        return if resetFlag then OrderingError else Passed;
      }
      if listed.None? {
        return ListFailed;
      }
      verdict := Conclude(v, tracked, listed.value);
    }
  }

  method Grown(a: array<Handle>) returns (b: array<Handle>)
    ensures fresh(b) && b.Length == 2 * a.Length + 1 && b[..a.Length] == a[..]
  {
    b := new Handle[2 * a.Length + 1](_ => NIL_HANDLE);
    for i := 0 to a.Length
      invariant b[..i] == a[..i]
    {
      b[i] := a[i];
    }
  }

  /** kept := registered[:0], then append what survives: the writes never overtake the reads. */
  method Compact(a: array<Handle>, n: nat, keep: Handle -> bool) returns (kept: nat)
    requires n <= a.Length
    modifies a
    ensures kept <= n && a[..kept] == Filtered(old(a[..n]), keep)
  {
    ghost var was := a[..n];
    kept := 0;
    for i := 0 to n
      invariant kept <= i && a[..kept] == Filtered(was[..i], keep)
      invariant a[i..n] == was[i..]
    {
      assert was[..i + 1][..i] == was[..i];
      assert a[i] == a[i..n][0] == was[i];
      assert a[i + 1..n] == a[i..n][1..];
      if keep(a[i]) {
        a[kept] := a[i];
        kept := kept + 1;
        assert a[..kept] == a[..kept - 1] + [was[i]];
      }
    }
    assert was[..n] == was;
  }

  method NilOut(a: array<Handle>, from: nat, to: nat)
    requires from <= to <= a.Length
    modifies a
    ensures a[..from] == old(a[..from])
    ensures forall i :: from <= i < to ==> a[i] == NIL_HANDLE
  {
    for i := from to to
      invariant a[..from] == old(a[..from])
      invariant forall j :: from <= j < i ==> a[j] == NIL_HANDLE
    {
      a[i] := NIL_HANDLE;
    }
  }

  method Selected(s: seq<Handle>, p: Handle -> bool) returns (out: seq<Handle>)
    ensures out == Filtered(s, p)
  {
    out := [];
    for i := 0 to |s|
      invariant out == Filtered(s[..i], p)
    {
      assert s[..i + 1][..i] == s[..i];
      if p(s[i]) {
        out := out + [s[i]];
      }
    }
    assert s[..|s|] == s;
  }
}
