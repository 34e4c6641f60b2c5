/** The bounded insertion-ordered maps of the session store
    (internal/session/session.go): a map plus a slice of its keys, oldest first. */
module SessionStore {
  import opened Lists

  const MAX_ENTRIES := 10000

  /** A map and the order its keys were inserted in. */
  datatype Fifo<+V> = Fifo(entries: map<string, V>, order: seq<string>)

  /** RememberProfile, RememberRefresh, RememberAccess: a known key keeps its place, a
      new one goes last and evicts the oldest when the map is full. */
  function Remember<V>(f: Fifo<V>, max: nat, key: string, v: V): Fifo<V>
    requires 1 <= max
  {
    if key in f.entries then f.(entries := f.entries[key := v])
    else Append(f, max, key, v)
  }

  /** StartLogin: no check for an existing key, because ids are random. */
  function Append<V>(f: Fifo<V>, max: nat, key: string, v: V): Fifo<V>
    requires 1 <= max
  {
    if |f.order| >= max
    then Fifo((f.entries - {f.order[0]})[key := v], f.order[1..] + [key])
    else Fifo(f.entries[key := v], f.order + [key])
  }

  /** slices.Index. */
  function IndexOf(order: seq<string>, key: string): (i: int)
    ensures -1 <= i < |order|
    ensures 0 <= i ==> order[i] == key
    ensures i < 0 ==> key !in order
  {
    if order == [] then -1
    else if order[0] == key then 0
    else var r := IndexOf(order[1..], key); if r < 0 then -1 else r + 1
  }

  /** EndLogin. */
  function Forget<V>(f: Fifo<V>, key: string): Fifo<V> {
    if key !in f.entries then f
    else
      var i := IndexOf(f.order, key);
      Fifo(f.entries - {key}, if i < 0 then f.order else RemovedAt(f.order, i))
  }

  // ------------------------------------------------------------------ the invariant

  predicate Distinct(order: seq<string>) {
    forall i, j :: 0 <= i < j < |order| ==> order[i] != order[j]
  }

  ghost predicate Inv<V>(f: Fifo<V>, max: nat) {
    && Distinct(f.order)
    && |f.order| <= max
    && (forall k :: k in f.entries <==> k in f.order)
  }

  lemma AppendKeepsInv<V>(f: Fifo<V>, max: nat, key: string, v: V)
    requires 1 <= max && Inv(f, max) && key !in f.entries
    ensures Inv(Append(f, max, key, v), max)
  {
    if |f.order| >= max {
      assert f.order == [f.order[0]] + f.order[1..];
    }
  }

  function RemovedAt(order: seq<string>, i: nat): seq<string>
    requires i < |order|
  {
    order[..i] + order[i + 1..]
  }

  lemma RemovedAtKeys(order: seq<string>, i: nat, k: string)
    requires Distinct(order) && i < |order|
    ensures k in RemovedAt(order, i) <==> k in order && k != order[i]
  {
    assert order == order[..i] + [order[i]] + order[i + 1..];
  }

  lemma RemovedAtDistinct(order: seq<string>, i: nat)
    requires Distinct(order) && i < |order|
    ensures Distinct(RemovedAt(order, i))
  {
    var r := RemovedAt(order, i);
    assert forall j :: 0 <= j < |r| ==> r[j] == order[if j < i then j else j + 1];
  }

  lemma ForgetKeepsInv<V>(f: Fifo<V>, max: nat, key: string)
    requires Inv(f, max)
    ensures Inv(Forget(f, key), max)
  {
    if key in f.entries {
      var i := IndexOf(f.order, key);
      RemovedAtDistinct(f.order, i);
      forall k
        ensures k in RemovedAt(f.order, i) <==> k in f.order && k != key
      {
        RemovedAtKeys(f.order, i, k);
      }
    }
  }

  // --------------------------------------------------- refinement of a plain list

  /** The same contents as a list of pairs, oldest first. */
  function Pairs<V>(f: Fifo<V>): seq<(string, V)>
    requires forall k :: k in f.order ==> k in f.entries
  {
    seq(|f.order|, i requires 0 <= i < |f.order| => (f.order[i], f.entries[f.order[i]]))
  }

  datatype Op<V> = Remembering(key: string, value: V) | Starting(key: string, value: V) | Ending(key: string) | Clearing

  function Apply<V>(f: Fifo<V>, max: nat, op: Op<V>): Fifo<V>
    requires 1 <= max
  {
    match op
    case Remembering(k, v) => Remember(f, max, k, v)
    case Starting(k, v) => Append(f, max, k, v)
    case Ending(k) => Forget(f, k)
    case Clearing => Fifo(map[], [])
  }

  function Without<V>(list: seq<(string, V)>, key: string): seq<(string, V)> {
    if list == [] then []
    else (if list[0].0 == key then [] else [list[0]]) + Without(list[1..], key)
  }

  function Replaced<V>(list: seq<(string, V)>, key: string, v: V): seq<(string, V)> {
    seq(|list|, i requires 0 <= i < |list| => if list[i].0 == key then (key, v) else list[i])
  }

  predicate HasKey<V>(list: seq<(string, V)>, key: string) {
    exists i :: 0 <= i < |list| && list[i].0 == key
  }

  /** The simple form: a list of pairs, oldest first, cut to the newest max. */
  function ApplyList<V>(list: seq<(string, V)>, max: nat, op: Op<V>): seq<(string, V)> {
    match op
    case Remembering(k, v) => if HasKey(list, k) then Replaced(list, k, v) else Newest(list + [(k, v)], max)
    case Starting(k, v) => Newest(list + [(k, v)], max)
    case Ending(k) => Without(list, k)
    case Clearing => []
  }

  lemma {:induction false} WithoutAbsent<V>(list: seq<(string, V)>, key: string)
    requires forall i :: 0 <= i < |list| ==> list[i].0 != key
    ensures Without(list, key) == list
  {
    if list != [] {
      WithoutAbsent(list[1..], key);
    }
  }

  lemma {:induction false} WithoutAt<V>(list: seq<(string, V)>, key: string, i: nat)
    requires i < |list| && list[i].0 == key && forall j :: 0 <= j < |list| && j != i ==> list[j].0 != key
    ensures Without(list, key) == list[..i] + list[i + 1..]
  {
    if i == 0 {
      WithoutAbsent(list[1..], key);
    } else {
      WithoutAt(list[1..], key, i - 1);
      assert list[..i] == [list[0]] + list[1..][..i - 1];
      assert list[1..][i..] == list[i + 1..];
    }
  }

  /** One operation on the map and its order slice is one operation on the list. Login
      ids are assumed fresh, as StartLogin assumes. */
  lemma ApplyRefinesList<V>(f: Fifo<V>, max: nat, op: Op<V>)
    requires 1 <= max && Inv(f, max) && (op.Starting? ==> op.key !in f.entries)
    ensures Inv(Apply(f, max, op), max)
    ensures Pairs(Apply(f, max, op)) == ApplyList(Pairs(f), max, op)
  {
    match op {
      case Remembering(k, v) =>
        if k in f.entries {
          RememberKnown(f, max, k, v);
        } else {
          AppendRefines(f, max, k, v);
          assert forall i :: 0 <= i < |Pairs(f)| ==> Pairs(f)[i].0 == f.order[i];
        }
      case Starting(k, v) => AppendRefines(f, max, k, v);
      case Ending(k) => ForgetRefines(f, max, k);
      case Clearing =>
    }
  }

  lemma RememberKnown<V>(f: Fifo<V>, max: nat, k: string, v: V)
    requires 1 <= max && Inv(f, max) && k in f.entries
    ensures Inv(Remember(f, max, k, v), max)
    ensures HasKey(Pairs(f), k) && Pairs(Remember(f, max, k, v)) == Replaced(Pairs(f), k, v)
  {
    var i :| 0 <= i < |f.order| && f.order[i] == k;
    assert Pairs(f)[i].0 == k;
  }

  lemma PairsAppend<V>(f: Fifo<V>, k: string, v: V)
    requires (forall x :: x in f.order ==> x in f.entries) && k !in f.order
    ensures Pairs(Fifo(f.entries[k := v], f.order + [k])) == Pairs(f) + [(k, v)]
  {
  }

  lemma PairsDropFirst<V>(f: Fifo<V>)
    requires (forall x :: x in f.order ==> x in f.entries) && Distinct(f.order) && f.order != []
    ensures Pairs(Fifo(f.entries - {f.order[0]}, f.order[1..])) == Pairs(f)[1..]
  {
  }

  lemma AppendRefines<V>(f: Fifo<V>, max: nat, k: string, v: V)
    requires 1 <= max && Inv(f, max) && k !in f.entries
    ensures Inv(Append(f, max, k, v), max)
    ensures Pairs(Append(f, max, k, v)) == Newest(Pairs(f) + [(k, v)], max)
  {
    AppendKeepsInv(f, max, k, v);
    if |f.order| >= max {
      PairsDropFirst(f);
      PairsAppend(Fifo(f.entries - {f.order[0]}, f.order[1..]), k, v);
    } else {
      PairsAppend(f, k, v);
    }
  }

  lemma PairsRemove<V>(f: Fifo<V>, i: nat)
    requires (forall x :: x in f.order ==> x in f.entries) && Distinct(f.order) && i < |f.order|
    ensures forall x :: x in RemovedAt(f.order, i) ==> x in f.entries - {f.order[i]}
    ensures Pairs(Fifo(f.entries - {f.order[i]}, RemovedAt(f.order, i))) == Pairs(f)[..i] + Pairs(f)[i + 1..]
  {
    forall x
      ensures x in RemovedAt(f.order, i) <==> x in f.order && x != f.order[i]
    {
      RemovedAtKeys(f.order, i, x);
    }
  }

  lemma ForgetRefines<V>(f: Fifo<V>, max: nat, k: string)
    requires Inv(f, max)
    ensures Inv(Forget(f, k), max)
    ensures Pairs(Forget(f, k)) == Without(Pairs(f), k)
  {
    ForgetKeepsInv(f, max, k);
    if k in f.entries {
      PairsRemove(f, IndexOf(f.order, k));
      WithoutAt(Pairs(f), k, IndexOf(f.order, k));
    } else {
      WithoutAbsent(Pairs(f), k);
    }
  }

  // -------------------------------------------------------------------- whole runs

  function Run<V>(ops: seq<Op<V>>, max: nat): Fifo<V>
    requires 1 <= max
  {
    if ops == [] then Fifo(map[], []) else Apply(Run(ops[..|ops| - 1], max), max, ops[|ops| - 1])
  }

  function RunList<V>(ops: seq<Op<V>>, max: nat): seq<(string, V)> {
    if ops == [] then [] else ApplyList(RunList(ops[..|ops| - 1], max), max, ops[|ops| - 1])
  }

  /** Every login id is new when it is handed out. */
  predicate FreshStarts<V>(ops: seq<Op<V>>, max: nat)
    requires 1 <= max
  {
    forall i :: 0 <= i < |ops| && ops[i].Starting? ==> ops[i].key !in Run(ops[..i], max).entries
  }

  /** After any sequence of operations the map and its order slice hold exactly what the
      bounded list holds: distinct keys, at most max of them, and an overflowing insert
      evicts the earliest inserted. */
  lemma {:induction false} RunRefinesList<V>(ops: seq<Op<V>>, max: nat)
    requires 1 <= max && FreshStarts(ops, max)
    ensures Inv(Run(ops, max), max)
    ensures Pairs(Run(ops, max)) == RunList(ops, max)
  {
    if ops != [] {
      var front := ops[..|ops| - 1];
      assert forall i :: 0 <= i < |front| ==> front[..i] == ops[..i];
      RunRefinesList(front, max);
      ApplyRefinesList(Run(front, max), max, ops[|ops| - 1]);
    }
  }

  /** What a reused login id would do: the order slice holds it twice, so evicting the
      first copy deletes a session that the slice still counts as live. */
  lemma ReusedIdBreaksTheOrder(f: Fifo<int>)
    requires f == Append(Append(Fifo(map[], []), 2, "a", 1), 2, "a", 2)
    ensures f.order == ["a", "a"] && Append(f, 2, "b", 3).order == ["a", "b"]
    ensures "a" !in Append(f, 2, "b", 3).entries
  {
  }

  // ----------------------------------------------------------------- the four maps

  /** A claim value of an id_token. */
  datatype Value = S(s: string) | B(b: bool) | I(i: int)

  type Claims = map<string, Value>

  datatype Login = Login(subject: string, authTime: int)

  datatype Grant = Grant(subject: string, clientID: string, realm: string, authTime: int, profile: Claims)

  datatype Access = Access(subject: string, clientID: string, scope: string, issuer: string, expiresAt: int)

  class Sessions {
    var profiles: map<string, Claims>
    var order: seq<string>
    var refresh: map<string, Grant>
    var refreshOrder: seq<string>
    var access: map<string, Access>
    var accessOrder: seq<string>
    var logins: map<string, Login>
    var loginOrder: seq<string>

    constructor ()
      ensures profiles == map[] && refresh == map[] && access == map[] && logins == map[]
      ensures order == [] && refreshOrder == [] && accessOrder == [] && loginOrder == []
    {
      profiles, refresh, access, logins := map[], map[], map[], map[];
      order, refreshOrder, accessOrder, loginOrder := [], [], [], [];
    }

    method RememberProfile(subject: string, profile: Claims)
      modifies `profiles, `order
      ensures Fifo(profiles, order) == Remember(old(Fifo(profiles, order)), MAX_ENTRIES, subject, profile)
    {
      if subject !in profiles {
        if |order| >= MAX_ENTRIES {
          profiles := profiles - {order[0]};
          order := order[1..];
        }
        order := order + [subject];
      }
      profiles := profiles[subject := profile];
    }

    method RememberRefresh(token: string, g: Grant)
      modifies `refresh, `refreshOrder
      ensures Fifo(refresh, refreshOrder) == Remember(old(Fifo(refresh, refreshOrder)), MAX_ENTRIES, token, g)
    {
      if token !in refresh {
        if |refreshOrder| >= MAX_ENTRIES {
          refresh := refresh - {refreshOrder[0]};
          refreshOrder := refreshOrder[1..];
        }
        refreshOrder := refreshOrder + [token];
      }
      refresh := refresh[token := g];
    }

    method RememberAccess(token: string, a: Access)
      modifies `access, `accessOrder
      ensures Fifo(access, accessOrder) == Remember(old(Fifo(access, accessOrder)), MAX_ENTRIES, token, a)
    {
      if token !in access {
        if |accessOrder| >= MAX_ENTRIES {
          access := access - {accessOrder[0]};
          accessOrder := accessOrder[1..];
        }
        accessOrder := accessOrder + [token];
      }
      access := access[token := a];
    }

    /** StartLogin with the random id it drew. */
    method StartLogin(id: string, subject: string, authTime: int)
      modifies `logins, `loginOrder
      ensures Fifo(logins, loginOrder)
              == Append(old(Fifo(logins, loginOrder)), MAX_ENTRIES, id, Login(subject, authTime))
    {
      if |loginOrder| >= MAX_ENTRIES {
        logins := logins - {loginOrder[0]};
        loginOrder := loginOrder[1..];
      }
      loginOrder := loginOrder + [id];
      logins := logins[id := Login(subject, authTime)];
    }

    method EndLogin(id: string)
      modifies `logins, `loginOrder
      ensures Fifo(logins, loginOrder) == Forget(old(Fifo(logins, loginOrder)), id)
    {
      if id !in logins {
        return;
      }
      logins := logins - {id};
      var i := IndexOf(loginOrder, id);
      if i >= 0 {
        loginOrder := loginOrder[..i] + loginOrder[i + 1..];
      }
    }

    method Clear()
      modifies this
      ensures Fifo(profiles, order) == Fifo(map[], []) && Fifo(refresh, refreshOrder) == Fifo(map[], [])
      ensures Fifo(access, accessOrder) == Fifo(map[], []) && Fifo(logins, loginOrder) == Fifo(map[], [])
    {
      profiles, refresh, access, logins := map[], map[], map[], map[];
      order, refreshOrder, accessOrder, loginOrder := [], [], [], [];
    }
  }
}
