/** The first n members of a collection in a strict order. */
module TopOf {

  ghost predicate StrictOrder<T(!new)>(member: T -> bool, before: (T, T) -> bool) {
    && (forall x, y :: before(x, y) ==> !before(y, x))
    && (forall x, y :: member(x) && member(y) && x != y ==> before(x, y) || before(y, x))
  }

  /** `out` lists the first n members in order, or all of them when there are fewer. */
  ghost predicate Top<T(!new)>(out: seq<T>, n: nat, member: T -> bool, before: (T, T) -> bool) {
    && |out| <= n
    && (forall i :: 0 <= i < |out| ==> member(out[i]))
    && (forall i, j :: 0 <= i < j < |out| ==> before(out[i], out[j]))
    && (forall e :: member(e) && e !in out ==> |out| == n && forall i :: 0 <= i < |out| ==> before(out[i], e))
  }

  lemma TopUnique<T(!new)>(a: seq<T>, b: seq<T>, n: nat, member: T -> bool, before: (T, T) -> bool)
    requires StrictOrder(member, before) && Top(a, n, member, before) && Top(b, n, member, before)
    ensures a == b
  {
    if |a| <= |b| {
      TopPrefix(a, b, n, member, before, |a|);
      TopLength(a, b, n, member, before);
    } else {
      TopPrefix(b, a, n, member, before, |b|);
      TopLength(b, a, n, member, before);
    }
  }

  lemma {:induction false} TopPrefix<T(!new)>(
    a: seq<T>, b: seq<T>, n: nat, member: T -> bool, before: (T, T) -> bool, k: nat)
    requires StrictOrder(member, before) && Top(a, n, member, before) && Top(b, n, member, before)
    requires k <= |a| && k <= |b|
    ensures a[..k] == b[..k]
  {
    if k > 0 {
      TopPrefix(a, b, n, member, before, k - 1);
      NotBefore(a, b, n, member, before, k - 1);
      NotBefore(b, a, n, member, before, k - 1);
      assert member(a[k - 1]) && member(b[k - 1]);
      assert a[..k] == a[..k - 1] + [a[k - 1]] && b[..k] == b[..k - 1] + [b[k - 1]];
    }
  }

  /** Behind a common prefix neither list can hold something that comes sooner. */
  lemma NotBefore<T(!new)>(a: seq<T>, b: seq<T>, n: nat, member: T -> bool, before: (T, T) -> bool, k: nat)
    requires StrictOrder(member, before) && Top(a, n, member, before) && Top(b, n, member, before)
    requires k < |a| && k < |b| && a[..k] == b[..k]
    ensures !before(a[k], b[k])
  {
    assert forall j :: 0 <= j < k ==> a[..k][j] == b[..k][j];
  }

  lemma TopLength<T(!new)>(a: seq<T>, b: seq<T>, n: nat, member: T -> bool, before: (T, T) -> bool)
    requires StrictOrder(member, before) && Top(a, n, member, before) && Top(b, n, member, before)
    requires |a| <= |b| && a == b[..|a|]
    ensures a == b
  {
    if |a| < |b| {
      NextIsNew(b, n, member, before, |a|);
      assert false;
    }
  }

  /** The first n of a complete sorted listing. */
  lemma FirstOfSorted<T(!new)>(all: seq<T>, out: seq<T>, n: nat, member: T -> bool, before: (T, T) -> bool)
    requires forall i :: 0 <= i < |all| ==> member(all[i])
    requires forall i, j :: 0 <= i < j < |all| ==> before(all[i], all[j])
    requires forall e :: member(e) ==> e in all
    requires out == if |all| < n then all else all[..n]
    ensures Top(out, n, member, before)
  {
  }

  lemma NextIsNew<T(!new)>(b: seq<T>, n: nat, member: T -> bool, before: (T, T) -> bool, k: nat)
    requires StrictOrder(member, before) && Top(b, n, member, before) && k < |b|
    ensures member(b[k]) && b[k] !in b[..k]
  {
  }
}
