/** What Go's filtering loops and bounded lists compute, shared by the stores that use
    them. */
module Lists {

  /** The elements that satisfy `keep`, in their order. */
  function Filtered<T>(s: seq<T>, keep: T -> bool): seq<T> {
    if s == [] then []
    else Filtered(s[..|s| - 1], keep) + if keep(s[|s| - 1]) then [s[|s| - 1]] else []
  }

  /** The newest `max` of a list, oldest first. */
  function Newest<T>(s: seq<T>, max: nat): seq<T> {
    if |s| <= max then s else s[|s| - max..]
  }

  lemma {:induction false} FilteredHas<T(!new)>(s: seq<T>, keep: T -> bool)
    ensures forall x :: x in Filtered(s, keep) <==> x in s && keep(x)
  {
    if s != [] {
      FilteredHas(s[..|s| - 1], keep);
      assert s == s[..|s| - 1] + [s[|s| - 1]];
    }
  }

  lemma {:induction false} FilteredIsShorter<T>(s: seq<T>, keep: T -> bool)
    ensures |Filtered(s, keep)| <= |s|
  {
    if s != [] {
      FilteredIsShorter(s[..|s| - 1], keep);
    }
  }

  lemma {:induction false} FilteredConcat<T>(a: seq<T>, b: seq<T>, keep: T -> bool)
    ensures Filtered(a + b, keep) == Filtered(a, keep) + Filtered(b, keep)
  {
    if b == [] {
      assert a + b == a;
    } else {
      assert (a + b)[..|a + b| - 1] == a + b[..|b| - 1];
      FilteredConcat(a, b[..|b| - 1], keep);
    }
  }

  lemma {:induction false} FilteredKeepsAll<T>(s: seq<T>, keep: T -> bool)
    requires forall i :: 0 <= i < |s| ==> keep(s[i])
    ensures Filtered(s, keep) == s
  {
    if s != [] {
      var front, last := s[..|s| - 1], s[|s| - 1];
      FilteredKeepsAll(front, keep);
      assert Filtered(s, keep) == Filtered(front, keep) + [last];
      assert s == front + [last];
    }
  }
}
