/** Single-use entries with an expiry, as kept for authorization codes
    (internal/pkce/pkce.go) and for mfa_tokens (internal/mfa/mfa.go). Both stores sweep
    expired entries when a new one arrives; times are nanoseconds. */
module ExpiringStore {
  import opened Prelude

  /** Ten minutes, the lifetime both stores use. */
  const TTL := 600_000_000_000

  datatype Timed<+V> = Timed(value: V, expiresAt: int)

  type Table<V> = map<string, Timed<V>>

  predicate Expired<V>(e: Timed<V>, now: int) {
    now > e.expiresAt
  }

  function Swept<V>(t: Table<V>, now: int): Table<V> {
    map k | k in t && !Expired(t[k], now) :: t[k]
  }

  /** Put and Issue: sweep, then store. The clock is read once for each. */
  function Stored<V>(t: Table<V>, key: string, v: V, sweepNow: int, now: int): Table<V> {
    Swept(t, sweepNow)[key := Timed(v, now + TTL)]
  }

  /** Consume's answer; the entry goes whether it had expired or not. */
  function Taken<V>(t: Table<V>, key: string, now: int): Option<V> {
    if key in t && !Expired(t[key], now) then Some(t[key].value) else None
  }

  class Store<V> {
    var entries: Table<V>

    constructor ()
      ensures entries == map[]
    {
      entries := map[];
    }

    /** sweepLocked: range over the map, deleting what has expired. */
    method Sweep(now: int)
      modifies this
      ensures entries == Swept(old(entries), now)
    {
      var rest := entries.Keys;
      while rest != {}
        invariant rest <= old(entries).Keys
        invariant entries
                  == map k | k in old(entries) && (k in rest || !Expired(old(entries)[k], now)) :: old(entries)[k]
        decreases rest
      {
        var k :| k in rest;
        if Expired(entries[k], now) {
          entries := entries - {k};
        }
        rest := rest - {k};
      }
    }

    method Put(key: string, v: V, sweepNow: int, now: int)
      modifies this
      ensures entries == Stored(old(entries), key, v, sweepNow, now)
    {
      Sweep(sweepNow);
      entries := entries[key := Timed(v, now + TTL)];
    }

    method Consume(key: string, now: int) returns (r: Option<V>)
      modifies this
      ensures r == Taken(old(entries), key, now) && entries == old(entries) - {key}
    {
      if key !in entries {
        return None;
      }
      var e := entries[key];
      entries := entries - {key};
      r := if now > e.expiresAt then None else Some(e.value);
    }

    method Reset()
      modifies this
      ensures entries == map[]
    {
      entries := map[];
    }
  }

  // ------------------------------------------------------ when sweeping is unobservable

  datatype Op<V> =
    | Putting(key: string, value: V, sweepNow: int, now: int)
    | Consuming(key: string, now: int)
    | Resetting

  /** The table a run leaves, with sweeping or without it. */
  function After<V>(ops: seq<Op<V>>, sweeping: bool): Table<V> {
    if ops == [] then map[]
    else
      var t := After(ops[..|ops| - 1], sweeping);
      match ops[|ops| - 1]
      case Putting(key, v, sweepNow, now) =>
        if sweeping then Stored(t, key, v, sweepNow, now) else t[key := Timed(v, now + TTL)]
      case Consuming(key, _) => t - {key}
      case Resetting => map[]
  }

  /** What the Consume calls of a run return. */
  function Answers<V>(ops: seq<Op<V>>, sweeping: bool): seq<Option<V>> {
    if ops == [] then []
    else
      var front, last := ops[..|ops| - 1], ops[|ops| - 1];
      Answers(front, sweeping)
      + if last.Consuming? then [Taken(After(front, sweeping), last.key, last.now)] else []
  }

  predicate Touches<V>(op: Op<V>, key: string) {
    op.Resetting? || op.key == key
  }

  /** The entry under `key` just before operation `j` is the one that operation `i` put. */
  predicate PutBy<V>(ops: seq<Op<V>>, i: nat, j: nat, key: string) {
    && i < j <= |ops| && ops[i].Putting? && ops[i].key == key
    && forall m :: i < m < j ==> !Touches(ops[m], key)
  }

  /** A later Put, before operation `j`, swept at a time when that entry had expired. */
  predicate SweptBefore<V>(ops: seq<Op<V>>, i: nat, j: nat)
    requires i < j <= |ops| && ops[i].Putting?
  {
    exists m :: i < m < j && ops[m].Putting? && ops[m].sweepNow > ops[i].now + TTL
  }

  /** The operation that put the entry under `key`, or -1 when there is none. */
  function PutIndex<V>(ops: seq<Op<V>>, j: nat, key: string): (i: int)
    requires j <= |ops|
    ensures -1 <= i < j
    ensures i >= 0 ==> PutBy(ops, i, j, key)
    ensures forall k: nat :: PutBy(ops, k, j, key) ==> k == i
  {
    if j == 0 then -1
    else if Touches(ops[j - 1], key) then (if ops[j - 1].Putting? then j - 1 else -1)
    else
      assert forall k: nat :: PutBy(ops, k, j, key) ==> PutBy(ops, k, j - 1, key);
      PutIndex(ops, j - 1, key)
  }

  /** What both tables say about one key, told from the operations alone. */
  ghost predicate Described<V(!new)>(ops: seq<Op<V>>, j: nat, key: string)
    requires j <= |ops|
  {
    var i, full, swept := PutIndex(ops, j, key), After(ops[..j], false), After(ops[..j], true);
    if i < 0 then key !in full && key !in swept
    else
      && key in full && full[key] == Timed(ops[i].value, ops[i].now + TTL)
      && (key in swept <==> !SweptBefore(ops, i, j))
      && (key in swept ==> swept[key] == full[key])
  }

  lemma {:induction false} TablesAreDescribed<V(!new)>(ops: seq<Op<V>>, j: nat, key: string)
    requires j <= |ops|
    ensures Described(ops, j, key)
  {
    if j > 0 {
      TablesAreDescribed(ops, j - 1, key);
      assert ops[..j][..j - 1] == ops[..j - 1];
      var i := PutIndex(ops, j - 1, key);
      if i >= 0 && !Touches(ops[j - 1], key) {
        SweptOneMore(ops, i, j - 1);
      }
    }
  }

  lemma SweptOneMore<V>(ops: seq<Op<V>>, i: nat, j: nat)
    requires i < j < |ops| && ops[i].Putting?
    ensures SweptBefore(ops, i, j + 1)
            <==> SweptBefore(ops, i, j) || (ops[j].Putting? && ops[j].sweepNow > ops[i].now + TTL)
  {
  }

  predicate AgreeAt<V(==)>(ops: seq<Op<V>>, j: nat)
    requires j < |ops|
  {
    ops[j].Consuming? ==>
      Taken(After(ops[..j], true), ops[j].key, ops[j].now) == Taken(After(ops[..j], false), ops[j].key, ops[j].now)
  }

  lemma {:induction false} AnswersAgreeAt<V(!new)>(ops: seq<Op<V>>, n: nat)
    requires n <= |ops|
    ensures |Answers(ops[..n], true)| == |Answers(ops[..n], false)|
    ensures Answers(ops[..n], true) == Answers(ops[..n], false) <==> forall j :: 0 <= j < n ==> AgreeAt(ops, j)
  {
    if n > 0 {
      AnswersAgreeAt(ops, n - 1);
      assert ops[..n][..n - 1] == ops[..n - 1];
      var a, b := Answers(ops[..n - 1], true), Answers(ops[..n - 1], false);
      if ops[n - 1].Consuming? {
        var x := Taken(After(ops[..n - 1], true), ops[n - 1].key, ops[n - 1].now);
        var y := Taken(After(ops[..n - 1], false), ops[n - 1].key, ops[n - 1].now);
        SameWithLast(a, b, x, y);
        assert AgreeAt(ops, n - 1) <==> x == y;
      } else {
        assert Answers(ops[..n], true) == a && Answers(ops[..n], false) == b && AgreeAt(ops, n - 1);
      }
    }
  }

  lemma SameWithLast<T>(a: seq<T>, b: seq<T>, x: T, y: T)
    requires |a| == |b|
    ensures a + [x] == b + [y] <==> a == b && x == y
  {
    if a + [x] == b + [y] {
      assert a == (a + [x])[..|a|] && b == (b + [y])[..|b|];
      assert x == (a + [x])[|a|] && y == (b + [y])[|b|];
    }
  }

  /** A Consume that would still find an entry in time finds one no sweep took for expired. */
  predicate NotMisled<V>(ops: seq<Op<V>>, i: nat, j: nat) {
    j < |ops| && ops[j].Consuming? && PutBy(ops, i, j, ops[j].key) && SweptBefore(ops, i, j) ==>
      ops[j].now > ops[i].now + TTL
  }

  lemma AgreeIffNotMisled<V(!new)>(ops: seq<Op<V>>, j: nat)
    requires j < |ops|
    ensures AgreeAt(ops, j) <==> forall i: nat :: NotMisled(ops, i, j)
  {
    if ops[j].Consuming? {
      var i := PutIndex(ops, j, ops[j].key);
      TablesAreDescribed(ops, j, ops[j].key);
      assert i >= 0 ==> (AgreeAt(ops, j) <==> NotMisled(ops, i, j));
    }
  }

  /** Exactly when no sequence of operations can tell a sweeping store from one that never
      sweeps: when every Consume of an entry that some sweep since its Put took for expired
      comes after its expiry too. */
  lemma SweepingIsUnobservableIff<V(!new)>(ops: seq<Op<V>>)
    ensures Answers(ops, true) == Answers(ops, false) <==> forall i: nat, j: nat :: NotMisled(ops, i, j)
  {
    assert ops[..|ops|] == ops;
    AnswersAgreeAt(ops, |ops|);
    forall j: nat | j < |ops|
      ensures AgreeAt(ops, j) <==> forall i: nat :: NotMisled(ops, i, j)
    {
      AgreeIffNotMisled(ops, j);
    }
    if Answers(ops, true) == Answers(ops, false) {
      forall i: nat, j: nat
        ensures NotMisled(ops, i, j)
      {
        assert j < |ops| ==> AgreeAt(ops, j);
      }
    }
  }

  function FirstReading<V>(op: Op<V>): int
    requires !op.Resetting?
  {
    if op.Putting? then op.sweepNow else op.now
  }

  /** Every clock reading of the run is at or after the ones before it. */
  predicate ClockRuns<V>(ops: seq<Op<V>>) {
    && (forall i :: 0 <= i < |ops| && ops[i].Putting? ==> ops[i].sweepNow <= ops[i].now)
    && (forall i, j :: 0 <= i < j < |ops| && !ops[i].Resetting? && !ops[j].Resetting? ==>
          ops[i].now <= FirstReading(ops[j]))
  }

  /** So it is under a clock that never runs backwards. */
  lemma SweepingIsUnobservable<V(!new)>(ops: seq<Op<V>>)
    requires ClockRuns(ops)
    ensures Answers(ops, true) == Answers(ops, false)
  {
    forall i: nat, j: nat
      ensures NotMisled(ops, i, j)
    {
    }
    SweepingIsUnobservableIff(ops);
  }

  /** The mock clock can be set back, and then they can differ: a sweep in the future loses
      an entry that is valid again afterwards. */
  lemma BackwardClockExposesSweeping()
    ensures var ops := [Putting("a", 1, 0, 0), Putting("b", 2, TTL + 1, TTL + 1), Consuming("a", 5)];
            Answers(ops, true) == [None] && Answers(ops, false) == [Some(1)]
  {
    var one: seq<Op<int>> := [Putting("a", 1, 0, 0)];
    var two: seq<Op<int>> := [Putting("a", 1, 0, 0), Putting("b", 2, TTL + 1, TTL + 1)];
    var ops: seq<Op<int>> := [Putting("a", 1, 0, 0), Putting("b", 2, TTL + 1, TTL + 1), Consuming("a", 5)];
    assert ops[..2] == two && two[..1] == one && one[..0] == [];
    assert After(one, true) == map["a" := Timed(1, TTL)] && After(one, false) == map["a" := Timed(1, TTL)];
    assert "a" !in After(two, true) && After(two, false)["a"] == Timed(1, TTL);
    assert Answers(one, true) == [] && Answers(one, false) == [];
    assert Answers(two, true) == [] && Answers(two, false) == [];
  }
}
