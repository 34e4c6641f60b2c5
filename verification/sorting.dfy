/** Sorting as the callers of Go's slices.SortFunc rely on it, and the string order. */
module Sorting {

  ghost predicate TotalPreorder<T(!new)>(le: (T, T) -> bool) {
    && (forall a, b :: le(a, b) || le(b, a))
    && (forall a, b, c :: le(a, b) && le(b, c) ==> le(a, c))
  }

  ghost predicate Sorted<T>(s: seq<T>, le: (T, T) -> bool) {
    forall i, j :: 0 <= i < j < |s| ==> le(s[i], s[j])
  }

  /** Some ordered rearrangement; which one, for elements that tie, is not promised. */
  method SortBy<T(!new)>(s: seq<T>, le: (T, T) -> bool) returns (r: seq<T>)
    requires TotalPreorder(le)
    ensures multiset(r) == multiset(s) && Sorted(r, le)
  {
    r := [];
    for i := 0 to |s|
      invariant multiset(r) == multiset(s[..i]) && Sorted(r, le)
    {
      r := Insert(r, s[i], le);
      assert s[..i + 1] == s[..i] + [s[i]];
    }
    assert s[..|s|] == s;
  }

  method Insert<T(!new)>(s: seq<T>, x: T, le: (T, T) -> bool) returns (r: seq<T>)
    requires TotalPreorder(le) && Sorted(s, le)
    ensures multiset(r) == multiset(s) + multiset{x} && Sorted(r, le)
  {
    var i := 0;
    while i < |s| && le(s[i], x)
      invariant 0 <= i <= |s|
      invariant forall j :: 0 <= j < i ==> le(s[j], x)
    {
      i := i + 1;
    }
    r := s[..i] + [x] + s[i..];
    Splice(s, x, i, le);
  }

  lemma Splice<T(!new)>(s: seq<T>, x: T, i: nat, le: (T, T) -> bool)
    requires TotalPreorder(le) && Sorted(s, le) && i <= |s|
    requires (forall j :: 0 <= j < i ==> le(s[j], x)) && (i < |s| ==> !le(s[i], x))
    ensures var r := s[..i] + [x] + s[i..];
            multiset(r) == multiset(s) + multiset{x} && Sorted(r, le)
  {
    assert s == s[..i] + s[i..];
    forall j | i <= j < |s|
      ensures le(x, s[j])
    {
      assert le(x, s[i]);
    }
    SplicedIsSorted(s, x, i, le);
  }

  lemma SplicedIsSorted<T>(s: seq<T>, x: T, i: nat, le: (T, T) -> bool)
    requires Sorted(s, le) && i <= |s|
    requires (forall j :: 0 <= j < i ==> le(s[j], x)) && (forall j :: i <= j < |s| ==> le(x, s[j]))
    ensures Sorted(s[..i] + [x] + s[i..], le)
  {
  }

  /** strings.Compare(a, b) <= 0. */
  predicate StringLe(a: string, b: string) {
    if a == "" then true
    else if b == "" then false
    else if a[0] != b[0] then a[0] < b[0]
    else StringLe(a[1..], b[1..])
  }

  lemma {:induction false} StringLeTotal(a: string, b: string)
    ensures StringLe(a, b) || StringLe(b, a)
  {
    if a != "" && b != "" {
      StringLeTotal(a[1..], b[1..]);
    }
  }

  lemma {:induction false} StringLeTransitive(a: string, b: string, c: string)
    requires StringLe(a, b) && StringLe(b, c)
    ensures StringLe(a, c)
  {
    if a != "" && b != "" && c != "" && a[0] == b[0] == c[0] {
      StringLeTransitive(a[1..], b[1..], c[1..]);
    }
  }

  /** The first difference decides, and a proper prefix comes first. */
  lemma {:induction false} StringLeIff(a: string, b: string)
    ensures StringLe(a, b) <==> a <= b || exists i :: DecidedAt(a, b, i)
  {
    if a != "" && b != "" {
      if a[0] != b[0] {
        assert DecidedAt(a, b, 0) <==> a[0] < b[0];
        assert forall i :: 0 < i < |a| && i < |b| ==> a[..i][0] != b[..i][0];
      } else {
        StringLeIff(a[1..], b[1..]);
        assert a <= b <==> a[1..] <= b[1..];
        forall i: nat
          ensures DecidedAt(a, b, i + 1) <==> DecidedAt(a[1..], b[1..], i)
        {
          DecidedLater(a, b, i);
        }
        if i :| DecidedAt(a, b, i) {
          assert i > 0;
          assert DecidedAt(a[1..], b[1..], i - 1);
        }
      }
    }
  }

  predicate DecidedAt(a: string, b: string, i: int) {
    0 <= i < |a| && i < |b| && a[..i] == b[..i] && a[i] < b[i]
  }

  lemma DecidedLater(a: string, b: string, i: nat)
    requires a != "" && b != "" && a[0] == b[0]
    ensures DecidedAt(a, b, i + 1) <==> DecidedAt(a[1..], b[1..], i)
  {
    if i + 1 < |a| && i + 1 < |b| {
      assert a[..i + 1] == [a[0]] + a[1..][..i] && b[..i + 1] == [b[0]] + b[1..][..i];
      assert a[..i + 1] == b[..i + 1] ==> a[..i + 1][1..] == b[..i + 1][1..];
      assert a[1..][..i] == a[..i + 1][1..] && b[1..][..i] == b[..i + 1][1..];
    }
  }
}
