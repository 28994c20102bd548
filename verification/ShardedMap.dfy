/** The sharded concurrent map, against one plain map. */
module ShardedMap {
  import opened Bytes
  import opened Wrappers

  type Key = seq<byte>

  const SHARD_COUNT: nat := 32
  const BITS: nat := 32
  const OFFSET32: nat := 2166136261
  const PRIME32: nat := 16777619

  function Pow2(n: nat): (r: nat)
    ensures r > 0
  {
    if n == 0 then 1 else 2 * Pow2(n - 1)
  }

  /** Exclusive or of the low `n` bits. */
  function Xor(a: nat, b: nat, n: nat): (r: nat)
    ensures r < Pow2(n)
  {
    if n == 0 then 0 else 2 * Xor(a / 2, b / 2, n - 1) + (a + b) % 2
  }

  function Bit(a: nat, i: nat): nat { if i == 0 then a % 2 else Bit(a / 2, i - 1) }

  /** Bit by bit: a bit of the result is set exactly when the two bits differ. */
  lemma {:induction false} XorBit(a: nat, b: nat, n: nat, i: nat)
    requires i < n
    ensures Bit(Xor(a, b, n), i) == if Bit(a, i) == Bit(b, i) then 0 else 1
    decreases n
  {
    var x, y := Xor(a / 2, b / 2, n - 1), (a + b) % 2;
    Halve(x, y);
    if i == 0 { Parity(a, b); } else { XorBit(a / 2, b / 2, n - 1, i - 1); }
  }

  lemma Halve(x: nat, y: nat)
    requires y < 2
    ensures (2 * x + y) / 2 == x && (2 * x + y) % 2 == y
  {
  }

  lemma Parity(a: nat, b: nat)
    ensures (a + b) % 2 == if a % 2 == b % 2 then 0 else 1
  {
  }

  /** One round: a multiplication that wraps at 32 bits, then one byte mixed in. */
  function Mix(hash: nat, b: byte): nat { Xor((hash * PRIME32) % TWO32, b as nat, BITS) }

  /** A round on bits: the product modulo 2^32, with the bits of the byte flipped. */
  lemma MixBit(hash: nat, b: byte, i: nat)
    requires i < BITS
    ensures Bit(Mix(hash, b), i) == if Bit(b as nat, i) == 1 then 1 - Bit((hash * PRIME32) % TWO32, i)
                                    else Bit((hash * PRIME32) % TWO32, i)
  {
    XorBit((hash * PRIME32) % TWO32, b as nat, BITS, i);
    BitIsBit(b as nat, i);
    BitIsBit((hash * PRIME32) % TWO32, i);
  }

  lemma {:induction false} BitIsBit(a: nat, i: nat)
    ensures Bit(a, i) == 0 || Bit(a, i) == 1
    decreases i
  {
    if i > 0 { BitIsBit(a / 2, i - 1); }
  }

  function Fnv(key: Key): nat {
    if key == [] then OFFSET32 else Mix(Fnv(key[..|key| - 1]), key[|key| - 1])
  }

  method Fnv32(key: Key) returns (hash: nat)
    ensures hash == Fnv(key)
  {
    hash := OFFSET32;
    for i := 0 to |key|
      invariant hash == Fnv(key[..i])
    {
      assert key[..i + 1][..i] == key[..i];
      hash := Mix(hash, key[i]);
    }
    assert key[..|key|] == key;
  }

  function ShardOf(key: Key): (i: nat)
    ensures i < SHARD_COUNT
  {
    Fnv(key) % SHARD_COUNT
  }

  // ---------- Shards as values ----------

  type Shards<V> = seq<map<Key, V>>

  /** A key lives only in the shard its hash selects. */
  predicate Placed<V>(s: Shards<V>) {
    |s| == SHARD_COUNT && forall i :: 0 <= i < |s| ==> InShard(s[i], i)
  }

  predicate InShard<V>(m: map<Key, V>, i: nat) { forall k :: k in m ==> ShardOf(k) == i }

  /** The first `n` shards as one map. */
  function Merged<V>(s: Shards<V>, n: nat): map<Key, V>
    requires n <= |s|
  {
    if n == 0 then map[] else Merged(s, n - 1) + s[n - 1]
  }

  function Contents<V>(s: Shards<V>): map<Key, V> { Merged(s, |s|) }

  lemma {:induction false} MergedAt<V>(s: Shards<V>, n: nat, k: Key)
    requires Placed(s) && n <= |s|
    ensures k in Merged(s, n) <==> ShardOf(k) < n && k in s[ShardOf(k)]
    ensures k in Merged(s, n) ==> Merged(s, n)[k] == s[ShardOf(k)][k]
  {
    if n > 0 {
      MergedAt(s, n - 1, k);
      assert InShard(s[n - 1], n - 1);
    }
  }

  function Sizes<V>(s: Shards<V>, n: nat): nat
    requires n <= |s|
  {
    if n == 0 then 0 else Sizes(s, n - 1) + |s[n - 1]|
  }

  lemma DisjointUnionSize<V>(a: map<Key, V>, b: map<Key, V>)
    requires a.Keys !! b.Keys
    ensures |a + b| == |a| + |b|
  {
    assert (a + b).Keys == a.Keys + b.Keys;
  }

  lemma NextShardIsApart<V>(s: Shards<V>, n: nat)
    requires Placed(s) && n < |s|
    ensures Merged(s, n).Keys !! s[n].Keys
  {
    var a, b := Merged(s, n), s[n];
    assert InShard(b, n);
    forall k | k in a.Keys ensures k !in b.Keys {
      MergedAt(s, n, k);
    }
  }

  lemma NextShardAdds<V>(s: Shards<V>, n: nat)
    requires Placed(s) && 0 < n <= |s|
    ensures |Merged(s, n)| == |Merged(s, n - 1)| + |s[n - 1]|
  {
    NextShardIsApart(s, n - 1);
    DisjointUnionSize(Merged(s, n - 1), s[n - 1]);
  }

  /** Counting shard by shard counts the union, because the shards are disjoint. */
  lemma {:induction false} CountIsCardinality<V>(s: Shards<V>, n: nat)
    requires Placed(s) && n <= |s|
    ensures Sizes(s, n) == |Merged(s, n)|
  {
    if n > 0 {
      CountIsCardinality(s, n - 1);
      NextShardAdds(s, n);
    }
  }

  // ---------- Operations ----------

  datatype Op<!V> =
    | Set(k: Key, v: V)
    | MSet(data: map<Key, V>)
    | Upsert(k: Key, v: V, cb: (Option<V>, V) -> V)
    | SetIfAbsent(k: Key, v: V)
    | Get(k: Key)
    | Has(k: Key)
    | Remove(k: Key)
    | Pop(k: Key)
    | Count
    | IsEmpty
    | Keys

  datatype Result<V> = Done | Value(v: Option<V>) | Flag(b: bool) | Number(n: nat) | KeySet(ks: set<Key>)

  function At<V>(m: map<Key, V>, k: Key): Option<V> { if k in m then Some(m[k]) else None }

  /** One plain map. */
  function Plain<V>(m: map<Key, V>, op: Op<V>): (map<Key, V>, Result<V>) {
    match op
    case Set(k, v) => (m[k := v], Done)
    case MSet(data) => (m + data, Done)
    case Upsert(k, v, cb) => (m[k := cb(At(m, k), v)], Value(Some(cb(At(m, k), v))))
    case SetIfAbsent(k, v) => (if k in m then m else m[k := v], Flag(k !in m))
    case Get(k) => (m, Value(At(m, k)))
    case Has(k) => (m, Flag(k in m))
    case Remove(k) => (m - {k}, Done)
    case Pop(k) => (m - {k}, Value(At(m, k)))
    case Count => (m, Number(|m|))
    case IsEmpty => (m, Flag(|m| == 0))
    case Keys => (m, KeySet(m.Keys))
  }

  /** What the operations on a key do to it, as a later look-up sees it, and what they report. */
  lemma PlainLaws<V>(m: map<Key, V>, k: Key, v: V, cb: (Option<V>, V) -> V)
    ensures At(Plain(m, Set(k, v)).0, k) == Some(v)
    ensures k in m ==> Plain(m, SetIfAbsent(k, v)) == (m, Flag(false))
    ensures k !in m ==> Plain(m, SetIfAbsent(k, v)) == (Plain(m, Set(k, v)).0, Flag(true))
    ensures Plain(m, Upsert(k, v, cb)).1 == Value(At(Plain(m, Upsert(k, v, cb)).0, k))
    ensures Plain(m, Upsert(k, v, (_, x) => x)).0 == Plain(m, Set(k, v)).0
    ensures k !in Plain(m, Remove(k)).0 && Plain(m, Pop(k)).0 == Plain(m, Remove(k)).0
    ensures Plain(m, Pop(k)).1 == Plain(m, Get(k)).1 == Value(At(m, k))
    ensures Plain(Plain(m, Remove(k)).0, Set(k, v)).0 == Plain(m, Set(k, v)).0
    ensures Plain(m, MSet(map[k := v])).0 == Plain(m, Set(k, v)).0
  {
  }

  function Spread<V>(data: map<Key, V>, i: nat): map<Key, V> { map k | k in data && ShardOf(k) == i :: data[k] }

  function AllKeys<V>(s: Shards<V>, n: nat): set<Key>
    requires n <= |s|
  {
    if n == 0 then {} else AllKeys(s, n - 1) + s[n - 1].Keys
  }

  /** The same operation on shards: one shard for one key, all of them for the rest. */
  function Sharded<V>(s: Shards<V>, op: Op<V>): (Shards<V>, Result<V>)
    requires |s| == SHARD_COUNT
  {
    match op
    case MSet(data) => (seq(|s|, i requires 0 <= i < |s| => s[i] + Spread(data, i)), Done)
    case Count => (s, Number(Sizes(s, |s|)))
    case IsEmpty => (s, Flag(Sizes(s, |s|) == 0))
    case Keys => (s, KeySet(AllKeys(s, |s|)))
    case _ =>
      var i := ShardOf(op.k);
      var r := Plain(s[i], op);
      (s[i := r.0], r.1)
  }

  lemma ContentsAt<V>(s: Shards<V>, k: Key)
    requires Placed(s)
    ensures At(Contents(s), k) == At(s[ShardOf(k)], k)
  {
    MergedAt(s, |s|, k);
  }

  /** Two maps that agree at every key are the same map. */
  lemma SameLookups<V>(a: map<Key, V>, b: map<Key, V>)
    requires forall k :: At(a, k) == At(b, k)
    ensures a == b
  {
    forall k ensures k in a <==> k in b { assert At(a, k) == At(b, k); }
    forall k | k in a ensures a[k] == b[k] { assert At(a, k) == At(b, k); }
  }

  /** Changing one shard under one key changes the union under that key alone. */
  lemma OneShard<V>(s: Shards<V>, k: Key, m: map<Key, V>, whole: map<Key, V>)
    requires Placed(s)
    requires forall j :: j != k ==> At(m, j) == At(s[ShardOf(k)], j) && At(whole, j) == At(Contents(s), j)
    requires At(m, k) == At(whole, k)
    ensures Placed(s[ShardOf(k) := m]) && Contents(s[ShardOf(k) := m]) == whole
  {
    var i := ShardOf(k);
    var t := s[i := m];
    assert InShard(s[i], i);
    forall j | j in m ensures ShardOf(j) == i {
      if j != k { assert At(m, j) == At(s[i], j); }
    }
    assert InShard(m, i);
    forall j ensures At(Contents(t), j) == At(whole, j) {
      ContentsAt(t, j);
      ContentsAt(s, j);
    }
    SameLookups(Contents(t), whole);
  }

  lemma {:induction false} AllKeysIsKeys<V>(s: Shards<V>, n: nat)
    requires n <= |s|
    ensures AllKeys(s, n) == Merged(s, n).Keys
  {
    if n > 0 { AllKeysIsKeys(s, n - 1); }
  }

  lemma MSetRefines<V>(s: Shards<V>, data: map<Key, V>)
    requires Placed(s)
    ensures var t := Sharded(s, MSet(data)).0;
      Placed(t) && Contents(t) == Contents(s) + data
  {
    var t := Sharded(s, MSet(data)).0;
    forall i | 0 <= i < |t| ensures InShard(t[i], i) {
      assert InShard(s[i], i);
    }
    forall k ensures At(Contents(t), k) == At(Contents(s) + data, k) {
      ContentsAt(t, k);
      ContentsAt(s, k);
    }
    SameLookups(Contents(t), Contents(s) + data);
  }

  /** One operation: the same answer as the plain map, and the shards still stand for it. */
  lemma OpRefines<V>(s: Shards<V>, op: Op<V>)
    requires Placed(s)
    ensures Placed(Sharded(s, op).0)
    ensures Contents(Sharded(s, op).0) == Plain(Contents(s), op).0
    ensures Sharded(s, op).1 == Plain(Contents(s), op).1
  {
    match op
    case MSet(data) => MSetRefines(s, data);
    case Count => CountIsCardinality(s, |s|);
    case IsEmpty => CountIsCardinality(s, |s|);
    case Keys => AllKeysIsKeys(s, |s|);
    case _ =>
      var m, whole := s[ShardOf(op.k)], Contents(s);
      ContentsAt(s, op.k);
      LocalOp(m, whole, op);
      forall j | j != op.k ensures At(Plain(m, op).0, j) == At(m, j) && At(Plain(whole, op).0, j) == At(whole, j) {
        OtherKeys(m, op, j);
        OtherKeys(whole, op, j);
      }
      OneShard(s, op.k, Plain(m, op).0, Plain(whole, op).0);
  }

  predicate OnOneKey<V>(op: Op<V>) { !(op.MSet? || op.Count? || op.IsEmpty? || op.Keys?) }

  lemma OtherKeys<V>(m: map<Key, V>, op: Op<V>, j: Key)
    requires OnOneKey(op) && j != op.k
    ensures At(Plain(m, op).0, j) == At(m, j)
  {
  }

  /** A one-key operation sees only its key. */
  lemma LocalOp<V>(m: map<Key, V>, n: map<Key, V>, op: Op<V>)
    requires OnOneKey(op) && At(m, op.k) == At(n, op.k)
    ensures At(Plain(m, op).0, op.k) == At(Plain(n, op).0, op.k)
    ensures Plain(m, op).1 == Plain(n, op).1
  {
  }

  function PlainRun<V>(m: map<Key, V>, ops: seq<Op<V>>): seq<Result<V>>
    decreases |ops|
  {
    if ops == [] then [] else [Plain(m, ops[0]).1] + PlainRun(Plain(m, ops[0]).0, ops[1..])
  }

  function ShardedRun<V>(s: Shards<V>, ops: seq<Op<V>>): seq<Result<V>>
    requires Placed(s)
    decreases |ops|
  {
    if ops == [] then []
    else
      OpRefines(s, ops[0]);
      [Sharded(s, ops[0]).1] + ShardedRun(Sharded(s, ops[0]).0, ops[1..])
  }

  /** Every sequence of operations answers as one plain map would. */
  lemma {:induction false} RunRefines<V>(s: Shards<V>, ops: seq<Op<V>>)
    requires Placed(s)
    ensures ShardedRun(s, ops) == PlainRun(Contents(s), ops)
    decreases |ops|
  {
    if ops != [] {
      OpRefines(s, ops[0]);
      RunRefines(Sharded(s, ops[0]).0, ops[1..]);
    }
  }

  // ---------- The map object ----------

  class Shard<V> {
    var items: map<Key, V>

    constructor ()
      ensures items == map[]
    {
      items := map[];
    }
  }

  class ConcurrentMap<V> {
    const shards: seq<Shard<V>>

    ghost predicate Valid()
      reads this, shards
    {
      && |shards| == SHARD_COUNT
      && (forall i, j :: 0 <= i < j < |shards| ==> shards[i] != shards[j])
      && Placed(View())
    }

    ghost function View(): Shards<V>
      reads this, shards
    {
      seq(|shards|, i requires 0 <= i < |shards| reads this, shards => shards[i].items)
    }

    constructor ()
      ensures Valid() && Contents(View()) == map[] && fresh(shards)
    {
      var made: seq<Shard<V>> := [];
      for i := 0 to SHARD_COUNT
        invariant |made| == i && fresh(made)
        invariant forall j, k :: 0 <= j < k < i ==> made[j] != made[k]
        invariant forall j :: 0 <= j < i ==> made[j].items == map[]
      {
        var shard := new Shard<V>();
        made := made + [shard];
      }
      shards := made;
      new;
      EmptyShards(View());
    }

    /** The one place where a shard changes. */
    method Store(i: nat, m: map<Key, V>)
      requires |shards| == SHARD_COUNT && i < SHARD_COUNT
      requires forall i, j :: 0 <= i < j < |shards| ==> shards[i] != shards[j]
      modifies shards[i]
      ensures View() == old(View())[i := m]
    {
      shards[i].items := m;
    }

    method SetKey(k: Key, v: V)
      requires Valid()
      modifies shards
      ensures Valid() && Contents(View()) == old(Contents(View()))[k := v]
      ensures (Contents(View()), Done) == Plain(old(Contents(View())), Set(k, v))
    {
      OpRefines(View(), Set(k, v));
      var h := Fnv32(k);
      var i := h % SHARD_COUNT;
      Store(i, shards[i].items[k := v]);
    }

    method UpsertKey(k: Key, v: V, cb: (Option<V>, V) -> V) returns (r: V)
      requires Valid()
      modifies shards
      ensures Valid() && Contents(View()) == old(Contents(View()))[k := r]
      ensures k in old(Contents(View())) ==> r == cb(Some(old(Contents(View()))[k]), v)
      ensures k !in old(Contents(View())) ==> r == cb(None, v)
      ensures (Contents(View()), Value(Some(r))) == Plain(old(Contents(View())), Upsert(k, v, cb))
    {
      OpRefines(View(), Upsert(k, v, cb));
      var h := Fnv32(k);
      var i := h % SHARD_COUNT;
      r := cb(At(shards[i].items, k), v);
      Store(i, shards[i].items[k := r]);
    }

    method SetKeyIfAbsent(k: Key, v: V) returns (added: bool)
      requires Valid()
      modifies shards
      ensures Valid() && (added <==> k !in old(Contents(View())))
      ensures Contents(View()) == if added then old(Contents(View()))[k := v] else old(Contents(View()))
      ensures (Contents(View()), Flag(added)) == Plain(old(Contents(View())), SetIfAbsent(k, v))
    {
      OpRefines(View(), SetIfAbsent(k, v));
      var h := Fnv32(k);
      var i := h % SHARD_COUNT;
      added := k !in shards[i].items;
      Store(i, if added then shards[i].items[k := v] else shards[i].items);
    }

    method GetKey(k: Key) returns (r: Option<V>)
      requires Valid()
      ensures if k in Contents(View()) then r == Some(Contents(View())[k]) else r == None
      ensures Value(r) == Plain(Contents(View()), Get(k)).1
    {
      ContentsAt(View(), k);
      var h := Fnv32(k);
      var i := h % SHARD_COUNT;
      r := if k in shards[i].items then Some(shards[i].items[k]) else None;
    }

    method PopKey(k: Key) returns (r: Option<V>)
      requires Valid()
      modifies shards
      ensures Valid() && Contents(View()) == old(Contents(View())) - {k}
      ensures if k in old(Contents(View())) then r == Some(old(Contents(View()))[k]) else r == None
      ensures (Contents(View()), Value(r)) == Plain(old(Contents(View())), Pop(k))
    {
      OpRefines(View(), Pop(k));
      var h := Fnv32(k);
      var i := h % SHARD_COUNT;
      r := At(shards[i].items, k);
      Store(i, shards[i].items - {k});
    }

    method HasKey(k: Key) returns (r: bool)
      requires Valid()
      ensures r <==> k in Contents(View())
      ensures Flag(r) == Plain(Contents(View()), Has(k)).1
    {
      var v := GetKey(k);
      r := v.Some?;
    }

    method RemoveKey(k: Key)
      requires Valid()
      modifies shards
      ensures Valid() && Contents(View()) == old(Contents(View())) - {k}
      ensures (Contents(View()), Done) == Plain(old(Contents(View())), Remove(k))
    {
      var _ := PopKey(k);
    }

    method SetAll(data: map<Key, V>)
      requires Valid()
      modifies shards
      ensures Valid() && Contents(View()) == old(Contents(View())) + data
      ensures (Contents(View()), Done) == Plain(old(Contents(View())), MSet(data))
    {
      var keys := data.Keys;
      ghost var stored: map<Key, V> := map[];
      assert Contents(View()) + stored == Contents(View());
      while keys != {}
        invariant Valid() && keys <= data.Keys
        invariant stored == map k | k in data && k !in keys :: data[k]
        invariant Contents(View()) == old(Contents(View())) + stored
        decreases keys
      {
        var k :| k in keys;
        SetKey(k, data[k]);
        AddLate(old(Contents(View())), stored, k, data[k]);
        keys := keys - {k};
        stored := stored[k := data[k]];
      }
      assert stored == data;
    }

    method CountAll() returns (n: nat)
      requires Valid()
      ensures n == |Contents(View())| && Number(n) == Plain(Contents(View()), Count).1
    {
      n := 0;
      for i := 0 to SHARD_COUNT
        invariant n == Sizes(View(), i)
      {
        n := n + |shards[i].items|;
      }
      CountIsCardinality(View(), SHARD_COUNT);
    }

    /** `Keys`, gathered shard by shard. */
    method AllKeysOf() returns (keys: seq<Key>)
      requires Valid()
      ensures (set k | k in keys) == Contents(View()).Keys
      ensures KeySet(set k | k in keys) == Plain(Contents(View()), Keys).1
      ensures forall i, j :: 0 <= i < j < |keys| ==> keys[i] != keys[j]
    {
      keys := [];
      for i := 0 to SHARD_COUNT
        invariant (set k | k in keys) == Merged(View(), i).Keys
        invariant forall a, b :: 0 <= a < b < |keys| ==> keys[a] != keys[b]
      {
        NextShardIsApart(View(), i);
        keys := AppendKeys(keys, shards[i].items.Keys);
      }
    }

    method AppendKeys(before: seq<Key>, more: set<Key>) returns (keys: seq<Key>)
      requires (set k | k in before) !! more && forall a, b :: 0 <= a < b < |before| ==> before[a] != before[b]
      ensures (set k | k in keys) == (set k | k in before) + more
      ensures forall a, b :: 0 <= a < b < |keys| ==> keys[a] != keys[b]
    {
      keys := before;
      var left := more;
      while left != {}
        invariant left <= more && (set k | k in keys) == (set k | k in before) + (more - left)
        invariant forall a, b :: 0 <= a < b < |keys| ==> keys[a] != keys[b]
        decreases left
      {
        var k :| k in left;
        assert k !in (set k | k in keys);
        keys, left := keys + [k], left - {k};
      }
    }

    method IsEmptyMap() returns (r: bool)
      requires Valid()
      ensures r <==> Contents(View()) == map[]
      ensures Flag(r) == Plain(Contents(View()), IsEmpty).1
    {
      var n := CountAll();
      r := n == 0;
    }
  }

  lemma AddLate<V>(a: map<Key, V>, b: map<Key, V>, k: Key, v: V)
    ensures (a + b)[k := v] == a + b[k := v]
  {
  }

  lemma EmptyShards<V>(s: Shards<V>)
    requires |s| == SHARD_COUNT && forall i :: 0 <= i < |s| ==> s[i] == map[]
    ensures Placed(s) && Contents(s) == map[]
  {
    forall k ensures At(Contents(s), k) == At(map[], k) {
      ContentsAt(s, k);
    }
    SameLookups(Contents(s), map[]);
  }
}
