/** The request journal (internal/journal/journal.go): a ring over a fixed array with
    modular indices. Whatever was added, reading it back gives the newest `size` entries
    since the last Clear, oldest first, filtered. */
module Journal {
  import opened Prelude
  import opened Lists

  datatype Outcome = Matched | NoMatch | Rejected

  /** One recorded call; the payload stands for the fields nothing filters on. */
  datatype Entry = Entry(id: string, verb: string, path: string, operation: string, outcome: Outcome, payload: string)

  datatype Filter = Filter(verb: string, path: string)

  predicate Admits(f: Filter, e: Entry) {
    && (f.verb == "" || EqualFold(f.verb, e.verb))
    && (f.path == "" || f.path == if IsTemplate(f.path) then e.operation else e.path)
  }

  /** What a listing shows: the admitted entries, or only the unmatched ones among them. */
  function Shown(f: Filter, unmatchedOnly: bool): Entry -> bool {
    (e: Entry) => Admits(f, e) && (unmatchedOnly ==> e.outcome == NoMatch)
  }

  const NO_ENTRY := Entry("", "", "", "", Rejected, "")

  function At(start: nat, i: nat, size: nat): (k: nat)
    requires 0 < size
    ensures k < size
  {
    (start + i) % size
  }

  /** For an offset below the size, the index wraps at most once. */
  lemma AtOnce(start: nat, i: nat, size: nat)
    requires start < size && i <= size
    ensures start + i < size ==> At(start, i, size) == start + i
    ensures size <= start + i ==> At(start, i, size) == start + i - size
  {
    if start + i < size {
      SmallMod(start + i, size);
    } else {
      OneWrap(start + i, size);
    }
  }

  lemma SmallMod(x: nat, m: nat)
    requires x < m
    ensures x % m == x
  {
  }

  lemma OneWrap(x: nat, m: nat)
    requires 0 < m <= x < 2 * m
    ensures x % m == x - m
  {
    var q := x / m;
    assert x == m * q + x % m;
    assert q >= 2 ==> m * q >= m * 2;
    assert q < 1 ==> m * q <= 0;
  }

  /** Read from `start` on, wrapping around, the buffer holds the newest of what was added. */
  ghost predicate Holds(b: seq<Entry>, start: nat, n: nat, added: seq<Entry>) {
    && n == |Newest(added, |b|)|
    && (|b| == 0 || start < |b|)
    && forall i :: 0 <= i < n ==> b[At(start, i, |b|)] == Newest(added, |b|)[i]
  }

  lemma AtDistinct(start: nat, i: nat, j: nat, size: nat)
    requires start < size && i < size && j < size && i != j
    ensures At(start, i, size) != At(start, j, size)
  {
    AtOnce(start, i, size);
    AtOnce(start, j, size);
  }

  lemma AddWhileRoom(b: seq<Entry>, start: nat, n: nat, added: seq<Entry>, e: Entry)
    requires Holds(b, start, n, added) && n < |b|
    ensures Holds(b[At(start, n, |b|) := e], start, n + 1, added + [e])
  {
    forall i | 0 <= i < n
      ensures At(start, i, |b|) != At(start, n, |b|)
    {
      AtDistinct(start, i, n, |b|);
    }
  }

  lemma AddWhenFull(b: seq<Entry>, start: nat, added: seq<Entry>, e: Entry)
    requires 0 < |b| && Holds(b, start, |b|, added)
    ensures Holds(b[start := e], At(start, 1, |b|), |b|, added + [e])
  {
    var size, b', next := |b|, b[start := e], At(start, 1, |b|);
    forall i | 0 <= i < size
      ensures b'[At(next, i, size)] == Newest(added + [e], size)[i]
    {
      Shifted(start, i, size);
      if i < size - 1 {
        AtOnce(start, 0, size);
        AtDistinct(start, 0, i + 1, size);
        assert Newest(added + [e], size)[i] == Newest(added, size)[i + 1];
      }
    }
  }

  lemma Shifted(start: nat, i: nat, size: nat)
    requires start < size && i < size
    ensures At(At(start, 1, size), i, size) == if i == size - 1 then start else At(start, i + 1, size)
  {
    AtOnce(start, 1, size);
    AtOnce(At(start, 1, size), i, size);
    AtOnce(start, i + 1, size);
  }

  class Ring {
    const buf: array<Entry>
    var start: nat
    var n: nat
    /** Everything added since the last Clear, oldest first. */
    ghost var added: seq<Entry>

    ghost predicate Valid()
      reads this, buf
    {
      Holds(buf[..], start, n, added)
    }

    constructor (size: int)
      ensures Valid() && added == [] && buf.Length == if size < 0 then 0 else size
    {
      buf := new Entry[if size < 0 then 0 else size](_ => NO_ENTRY);
      start, n, added := 0, 0, [];
    }

    method Add(e: Entry)
      requires Valid()
      modifies this, buf
      ensures Valid() && added == old(added) + [e]
    {
      ghost var was := buf[..];
      if buf.Length == 0 {
        added := added + [e];
        return;
      }
      if n < buf.Length {
        AddWhileRoom(was, start, n, added, e);
        buf[At(start, n, buf.Length)] := e;
        assert buf[..] == was[At(start, n, |was|) := e];
        n := n + 1;
      } else {
        AddWhenFull(was, start, added, e);
        buf[start] := e;
        assert buf[..] == was[start := e];
        start := At(start, 1, buf.Length);
      }
      added := added + [e];
    }

    /** collect: walk the ring oldest first. */
    method Collect(f: Filter, unmatchedOnly: bool) returns (out: seq<Entry>)
      requires Valid()
      ensures out == Filtered(Newest(added, buf.Length), Shown(f, unmatchedOnly))
    {
      ghost var all := Newest(added, buf.Length);
      out := [];
      var i := 0;
      while i < n
        invariant 0 <= i <= n && out == Filtered(all[..i], Shown(f, unmatchedOnly))
      {
        var e := buf[At(start, i, buf.Length)];
        assert e == all[i] && all[..i + 1][..i] == all[..i];
        if Admits(f, e) && (unmatchedOnly ==> e.outcome == NoMatch) {
          out := out + [e];
        }
        i := i + 1;
      }
      assert all[..n] == all;
    }

    method List(f: Filter) returns (out: seq<Entry>)
      requires Valid()
      ensures out == Filtered(Newest(added, buf.Length), Shown(f, false))
    {
      out := Collect(f, false);
    }

    method Unmatched(f: Filter) returns (out: seq<Entry>)
      requires Valid()
      ensures out == Filtered(Newest(added, buf.Length), Shown(f, true))
    {
      out := Collect(f, true);
    }

    method Clear()
      requires Valid()
      modifies this, buf
      ensures Valid() && added == []
      ensures forall i :: 0 <= i < buf.Length ==> buf[i] == NO_ENTRY
    {
      forall i | 0 <= i < buf.Length {
        buf[i] := NO_ENTRY;
      }
      start, n, added := 0, 0, [];
    }
  }

  /** What a listing shows, filter by filter: the method is compared without case, a path
      with a brace names an operation and any other the concrete path, an empty one
      nothing. */
  lemma ListedIff(s: seq<Entry>, verb: string, path: string, unmatchedOnly: bool, e: Entry)
    ensures e in Filtered(s, Shown(Filter(verb, path), unmatchedOnly))
            <==> && e in s
                 && (verb != "" ==> EqualFold(verb, e.verb))
                 && ('{' in path || '}' in path ==> e.operation == path)
                 && (path != "" && '{' !in path && '}' !in path ==> e.path == path)
                 && (unmatchedOnly ==> e.outcome == NoMatch)
  {
    FilteredHas(s, Shown(Filter(verb, path), unmatchedOnly));
  }
}
