/** The self-organising hash table of xf86drmHash.c: chains of buckets relinked in place so
    that a found bucket is at the front of its chain. */
module HashTables {
  import opened Arithmetic
  import opened LehmerRandom

  const HASH_SIZE: nat := 512
  const HASH_MAGIC: nat := 0xdeadbeef
  const WORD: nat := 0x1_0000_0000_0000_0000

  // ----- HashHash

  /** Entry `i` of the scatter table: the draws of a generator seeded with 37. */
  ghost function Scatter(i: nat): nat {
    Iterate(i + 1, 37)
  }

  method BuildScatter() returns (scatter: seq<nat>)
    ensures |scatter| == 256 && forall i :: 0 <= i < 256 ==> scatter[i] == Scatter(i)
  {
    var state := new RandomState(WORD, 37);
    scatter := [];
    for i := 0 to 256
      invariant |scatter| == i && forall j :: 0 <= j < i ==> scatter[j] == Scatter(j)
      invariant state.Valid() && state.seed == Iterate(i, 37) && fresh(state)
    {
      var draw := state.Random();
      scatter := scatter + [draw];
    }
  }

  /** The hash of the bytes of `tmp`, lowest first, on top of `hash`, on 64-bit words. */
  ghost function HashBytes(tmp: nat, hash: nat): nat {
    if tmp == 0 then hash else HashBytes(tmp / 256, (hash * 2 + Scatter(tmp % 256)) % WORD)
  }

  ghost function HashOf(key: nat): (h: nat)
    ensures h < HASH_SIZE
  {
    HashBytes(key, 0) % HASH_SIZE
  }

  /** `HashHash`. */
  method HashHash(key: nat, scatter: seq<nat>) returns (hash: nat)
    requires |scatter| == 256 && forall i :: 0 <= i < 256 ==> scatter[i] == Scatter(i)
    ensures hash == HashOf(key)
  {
    hash := 0;
    var tmp := key;
    while tmp != 0
      invariant HashBytes(tmp, hash) == HashBytes(key, 0)
    {
      hash := (hash * 2 + scatter[tmp % 256]) % WORD;
      tmp := tmp / 256;
    }
    hash := hash % HASH_SIZE;
  }

  /** The polynomial without wrap-around. */
  ghost function Polynomial(tmp: nat, hash: nat): nat {
    if tmp == 0 then hash else Polynomial(tmp / 256, hash * 2 + Scatter(tmp % 256))
  }

  lemma Shift512(t: int, k: int)
    ensures (t + 512 * k) % 512 == t % 512
  {
    DivModUnique(t + 512 * k, t / 512 + k, t % 512, 512);
  }

  lemma WrapStep(hash: nat, wide: nat, s: nat)
    requires hash % HASH_SIZE == wide % HASH_SIZE
    ensures (hash * 2 + s) % WORD % HASH_SIZE == (wide * 2 + s) % HASH_SIZE
  {
    var t, x := hash * 2 + s, hash % 512 * 2 + s;
    Shift512(t, -0x80_0000_0000_0000 * (t / WORD));
    Shift512(x, 2 * (hash / 512));
    Shift512(x, 2 * (wide / 512));
  }

  /** Wrap-around does not affect the chain: 512 divides the word size. */
  lemma {:induction false} WrapIsHarmless(tmp: nat, hash: nat, wide: nat)
    requires hash % HASH_SIZE == wide % HASH_SIZE
    ensures HashBytes(tmp, hash) % HASH_SIZE == Polynomial(tmp, wide) % HASH_SIZE
    decreases tmp
  {
    if tmp != 0 {
      WrapStep(hash, wide, Scatter(tmp % 256));
      WrapIsHarmless(tmp / 256, (hash * 2 + Scatter(tmp % 256)) % WORD, wide * 2 + Scatter(tmp % 256));
    }
  }

  // ----- chains

  class Bucket {
    const key: nat
    const value: nat
    ghost const home: nat  // the hash of the key
    var next: Bucket?

    constructor (k: nat, v: nat, n: Bucket?)
      ensures key == k && value == v && next == n && Proper(this)
    {
      key, value, next := k, v, n;
      home := HashOf(k);
    }
  }

  ghost predicate Proper(b: Bucket) {
    b.home == HashOf(b.key)
  }

  ghost function BucketAt(c: seq<Bucket>, i: nat): Bucket? {
    if i < |c| then c[i] else null
  }

  ghost predicate KeysDiffer(c: seq<Bucket>, i: nat, j: nat)
    requires i < |c| && j < |c|
  {
    c[i].key != c[j].key
  }

  /** Distinct keys, all hashing to `h`. */
  ghost predicate ChainOf(c: seq<Bucket>, h: nat) {
    && (forall i :: 0 <= i < |c| ==> c[i].home == h)
    && (forall i {:trigger Proper(c[i])} :: 0 <= i < |c| ==> Proper(c[i]))
    && Unique(c)
  }

  ghost predicate Unique(c: seq<Bucket>) {
    (forall i, j :: 0 <= i < |c| && 0 <= j < |c| && i != j ==> KeysDiffer(c, i, j))
  }

  ghost predicate Linked(c: seq<Bucket>)
    reads c
  {
    forall i {:trigger c[i].next} :: 0 <= i < |c| ==> c[i].next == BucketAt(c, i + 1)
  }

  /** The chain with the bucket at `p` moved to the front. */
  ghost function ToFront(c: seq<Bucket>, p: nat): (d: seq<Bucket>)
    requires p < |c|
    ensures |d| == |c| && d[0] == c[p]
    ensures forall i {:trigger d[i]} :: 0 < i < |d| ==> d[i] == c[if i <= p then i - 1 else i]
  {
    [c[p]] + c[..p] + c[p + 1..]
  }

  ghost predicate HasKey(c: seq<Bucket>, k: nat) {
    exists i :: 0 <= i < |c| && c[i].key == k
  }

  lemma ToFrontChain(c: seq<Bucket>, p: nat, h: nat)
    requires p < |c| && ChainOf(c, h)
    ensures ChainOf(ToFront(c, p), h)
  {
    var d := ToFront(c, p);
    forall i, j | 0 <= i < |d| && 0 <= j < |d| && i != j ensures KeysDiffer(d, i, j) {
      var a := if i == 0 then p else if i <= p then i - 1 else i;
      var b := if j == 0 then p else if j <= p then j - 1 else j;
      assert KeysDiffer(c, a, b);
    }
    forall i | 0 <= i < |d| ensures Proper(d[i]) {
      assert Proper(c[if i == 0 then p else if i <= p then i - 1 else i]);
    }
  }

  lemma ToFrontHolds(c: seq<Bucket>, p: nat, h: nat, m: map<nat, nat>)
    requires p < |c| && Holds(c, h, m)
    ensures Holds(ToFront(c, p), h, m)
  {
    var d := ToFront(c, p);
    forall k: nat | k in m && HasKey(c, k) ensures HasKey(d, k) {
      var i :| 0 <= i < |c| && c[i].key == k;
      assert d[if i == p then 0 else if i < p then i + 1 else i] == c[i];
    }
  }

  // ----- recency

  ghost predicate TouchedAfter(c: seq<Bucket>, t: map<nat, nat>, i: nat, j: nat)
    requires i < |c| && j < |c| && c[i].key in t && c[j].key in t
  {
    t[c[i].key] > t[c[j].key]
  }

  /** The chain is ordered by most recent touch. */
  ghost predicate Recent(c: seq<Bucket>, t: map<nat, nat>, clock: nat) {
    && (forall i :: 0 <= i < |c| ==> c[i].key in t && t[c[i].key] < clock)
    && (forall i, j :: 0 <= i < j < |c| ==> TouchedAfter(c, t, i, j))
  }

  lemma ToFrontRecent(c: seq<Bucket>, p: nat, h: nat, t: map<nat, nat>, clock: nat)
    requires p < |c| && ChainOf(c, h) && Recent(c, t, clock)
    ensures Recent(ToFront(c, p), t[c[p].key := clock], clock + 1)
  {
    var d, u := ToFront(c, p), t[c[p].key := clock];
    forall i | 0 < i < |d| ensures d[i].key in t && u[d[i].key] == t[d[i].key] {
      assert KeysDiffer(c, if i <= p then i - 1 else i, p);
    }
    forall i, j | 0 <= i < j < |d| ensures TouchedAfter(d, u, i, j) {
      if i > 0 {
        assert TouchedAfter(c, t, if i <= p then i - 1 else i, if j <= p then j - 1 else j);
      }
    }
  }

  lemma OtherRecent(c: seq<Bucket>, h: nat, t: map<nat, nat>, clock: nat, key: nat)
    requires ChainOf(c, h) && HashOf(key) != h && Recent(c, t, clock)
    ensures Recent(c, t[key := clock], clock + 1)
  {
    forall i | 0 <= i < |c| ensures c[i].key != key { assert Proper(c[i]); }
    forall i, j | 0 <= i < j < |c| ensures c[i].key in t && c[j].key in t && TouchedAfter(c, t[key := clock], i, j) {
      assert TouchedAfter(c, t, i, j);
    }
  }

  /** The chain holds the part of the map that hashes to `h`. */
  ghost predicate Holds(c: seq<Bucket>, h: nat, m: map<nat, nat>) {
    && (forall i :: 0 <= i < |c| ==> c[i].key in m && m[c[i].key] == c[i].value)
    && (forall k: nat :: k in m && HashOf(k) == h ==> HasKey(c, k))
  }

  /** Everything about one chain but its pointers. */
  ghost predicate ChainOk(c: seq<Bucket>, h: nat, m: map<nat, nat>, t: map<nat, nat>, clock: nat) {
    ChainOf(c, h) && Holds(c, h, m) && Recent(c, t, clock)
  }

  lemma FrontOk(c: seq<Bucket>, h: nat, m: map<nat, nat>, t: map<nat, nat>, clock: nat, p: nat)
    requires ChainOk(c, h, m, t, clock) && p < |c|
    ensures ChainOk(ToFront(c, p), h, m, t[c[p].key := clock], clock + 1)
  {
    ToFrontChain(c, p, h);
    ToFrontRecent(c, p, h, t, clock);
    ToFrontHolds(c, p, h, m);
  }

  lemma PushedOk(c: seq<Bucket>, h: nat, m: map<nat, nat>, t: map<nat, nat>, clock: nat, b: Bucket)
    requires ChainOk(c, h, m, t, clock) && Proper(b) && b.home == h && b.key !in m
    ensures ChainOk([b] + c, h, m[b.key := b.value], t[b.key := clock], clock + 1)
  {
    var d, u := [b] + c, t[b.key := clock];
    forall i, j | 0 <= i < |d| && 0 <= j < |d| && i != j ensures KeysDiffer(d, i, j) {
      if i > 0 && j > 0 { assert KeysDiffer(c, i - 1, j - 1); }
    }
    forall i | 0 <= i < |d| ensures Proper(d[i]) {
      if i > 0 { assert Proper(c[i - 1]); }
    }
    forall i, j | 0 <= i < j < |d| ensures d[i].key in u && d[j].key in u && TouchedAfter(d, u, i, j) {
      if i > 0 { assert TouchedAfter(c, t, i - 1, j - 1); }
    }
    forall k: nat | k in m[b.key := b.value] && HashOf(k) == h ensures HasKey(d, k) {
      if k == b.key {
        assert d[0].key == k;
      } else {
        assert HasKey(c, k);
        var i :| 0 <= i < |c| && c[i].key == k;
        assert d[i + 1].key == k;
      }
    }
  }

  lemma PoppedOk(c: seq<Bucket>, h: nat, m: map<nat, nat>, t: map<nat, nat>, clock: nat)
    requires ChainOk(c, h, m, t, clock) && c != []
    ensures ChainOk(c[1..], h, m - {c[0].key}, t, clock)
  {
    var d := c[1..];
    forall i, j | 0 <= i < |d| && 0 <= j < |d| && i != j ensures KeysDiffer(d, i, j) {
      assert KeysDiffer(c, i + 1, j + 1);
    }
    forall i | 0 <= i < |d| ensures Proper(d[i]) { assert Proper(c[i + 1]); }
    forall i | 0 <= i < |d| ensures d[i].key != c[0].key { assert KeysDiffer(c, 0, i + 1); }
    forall i, j | 0 <= i < j < |d| ensures TouchedAfter(d, t, i, j) {
      assert TouchedAfter(c, t, i + 1, j + 1);
    }
    forall k: nat | k in m - {c[0].key} && HashOf(k) == h ensures HasKey(d, k) {
      assert HasKey(c, k);
      var i :| 0 <= i < |c| && c[i].key == k;
      assert d[i - 1].key == k;
    }
  }

  /** Adding or removing a key of another chain leaves this one alone. */
  lemma OtherOk(c: seq<Bucket>, h: nat, m: map<nat, nat>, t: map<nat, nat>, clock: nat, key: nat, value: nat)
    requires ChainOk(c, h, m, t, clock) && HashOf(key) != h
    ensures ChainOk(c, h, m[key := value], t[key := clock], clock + 1)
    ensures ChainOk(c, h, m - {key}, t, clock)
  {
    OtherRecent(c, h, t, clock, key);
    forall i | 0 <= i < |c| ensures c[i].key != key { assert Proper(c[i]); }
  }

  // ----- the table

  datatype Op = Insert(key: nat, value: nat) | Delete(key: nat) | Lookup(key: nat)

  ghost function SpecStep(m: map<nat, nat>, op: Op): (map<nat, nat>, (int, nat)) {
    match op
    case Insert(k, v) => if k in m then (m, (1, 0)) else (m[k := v], (0, 0))
    case Delete(k) => if k in m then (m - {k}, (0, 0)) else (m, (1, 0))
    case Lookup(k) => if k in m then (m, (0, m[k])) else (m, (1, 0))
  }

  ghost function SpecRun(m: map<nat, nat>, ops: seq<Op>): (map<nat, nat>, seq<(int, nat)>) {
    if ops == [] then (m, [])
    else
      var (n, results) := SpecRun(m, ops[..|ops| - 1]);
      var (next, result) := SpecStep(n, ops[|ops| - 1]);
      (next, results + [result])
  }

  /** An operation touches its key if it finds or adds it. */
  ghost function Touch(m: map<nat, nat>, t: map<nat, nat>, clock: nat, op: Op): (map<nat, nat>, nat) {
    if op.Insert? || op.key in m then (t[op.key := clock], clock + 1) else (t, clock)
  }

  /** When each key was last touched over a run, and the number of touches. */
  ghost function Touches(m: map<nat, nat>, t: map<nat, nat>, clock: nat, ops: seq<Op>): (map<nat, nat>, nat) {
    if ops == [] then (t, clock)
    else
      var (u, now) := Touches(m, t, clock, ops[..|ops| - 1]);
      Touch(SpecRun(m, ops[..|ops| - 1]).0, u, now, ops[|ops| - 1])
  }

  /** The position behind the last operation that names a key, or 0. */
  ghost function LastUse(ops: seq<Op>, key: nat): nat {
    if ops == [] then 0 else if ops[|ops| - 1].key == key then |ops| else LastUse(ops[..|ops| - 1], key)
  }

  ghost predicate UsedAfter(ops: seq<Op>, k: nat, l: nat) {
    LastUse(ops, k) > LastUse(ops, l)
  }

  /** From an empty table, what is in it was touched by the last operation that names it. */
  lemma {:induction false} TouchIsLastUse(ops: seq<Op>, k: nat, l: nat)
    requires k in SpecRun(map[], ops).0 && l in SpecRun(map[], ops).0 && k != l
    ensures var (t, clock) := Touches(map[], map[], 0, ops);
      k in t && l in t && t[k] < clock && t[l] < clock && (t[k] > t[l] <==> UsedAfter(ops, k, l))
  {
    if ops != [] {
      var n := |ops| - 1;
      LastUseBound(ops[..n], k);
      LastUseBound(ops[..n], l);
      TouchedBefore(ops[..n], k);
      TouchedBefore(ops[..n], l);
      if ops[n].key != k && ops[n].key != l { TouchIsLastUse(ops[..n], k, l); }
    }
  }

  lemma {:induction false} LastUseBound(ops: seq<Op>, key: nat)
    ensures LastUse(ops, key) <= |ops|
  {
    if ops != [] { LastUseBound(ops[..|ops| - 1], key); }
  }

  lemma {:induction false} TouchedBefore(ops: seq<Op>, k: nat)
    ensures var (t, clock) := Touches(map[], map[], 0, ops);
      (k in SpecRun(map[], ops).0 ==> k in t) && (k in t ==> t[k] < clock)
  {
    if ops != [] { TouchedBefore(ops[..|ops| - 1], k); }
  }

  /** What iteration visits once `p0` chains have been loaded: the last chain is loaded
      only when the loop ends. */
  ghost function Rest(chains: seq<seq<Bucket>>, p0: nat): seq<Bucket>
    requires |chains| == HASH_SIZE
    decreases |chains| - p0
  {
    if p0 >= |chains| - 1 then [] else chains[p0] + Rest(chains, p0 + 1)
  }

  ghost function Visited(chains: seq<seq<Bucket>>): seq<Bucket>
    requires |chains| == HASH_SIZE
  {
    chains[0] + Rest(chains, 0)
  }

  /** An iteration step reports the first pending bucket and leaves the others pending. */
  ghost predicate Emits(pending: seq<Bucket>, after: seq<Bucket>, ret: int, key: nat, value: nat) {
    if pending == [] then ret == 0
    else ret == 1 && key == pending[0].key && value == pending[0].value && after == pending[1..]
  }

  ghost function Pairs(s: seq<Bucket>): seq<(nat, nat)> {
    seq(|s|, i requires 0 <= i < |s| => (s[i].key, s[i].value))
  }

  lemma PairsNext(s: seq<Bucket>, n: nat)
    requires n < |s|
    ensures Pairs(s[..n + 1]) == Pairs(s[..n]) + [(s[n].key, s[n].value)] && s[n..][0] == s[n]
    ensures s[n..][1..] == s[n + 1..]
  {
  }

  class HashTable {
    const scatter: seq<nat>
    const buckets: array<Bucket?>
    var magic: nat
    var hits: nat
    var partials: nat
    var misses: nat
    var p0: nat
    var p1: Bucket?
    ghost var chains: seq<seq<Bucket>>
    ghost var contents: map<nat, nat>
    ghost var touched: map<nat, nat>
    ghost var clock: nat

    ghost function Nodes(): set<Bucket>
      reads `chains
    {
      AllNodes(chains)
    }

    /** What holds of chain `h`. */
    ghost predicate ChainValid(h: nat)
      requires h < |chains| && h < buckets.Length
      reads `chains, `contents, `touched, `clock, buckets, Nodes()
    {
      && ChainOk(chains[h], h, contents, touched, clock)
      && Linked(chains[h])
      && buckets[h] == BucketAt(chains[h], 0)
    }

    ghost predicate Valid()
      reads `chains, `contents, `touched, `clock, buckets, Nodes()
    {
      && |scatter| == 256 && (forall i :: 0 <= i < 256 ==> scatter[i] == Scatter(i))
      && buckets.Length == |chains| == HASH_SIZE
      && forall h :: 0 <= h < HASH_SIZE ==> ChainValid(h)
    }

    constructor ()
      ensures Valid() && fresh(buckets) && magic == HASH_MAGIC && contents == map[] && Nodes() == {}
      ensures touched == map[] && clock == 0
      ensures hits == partials == misses == 0
    {
      var table := BuildScatter();
      scatter := table;
      buckets := new Bucket?[HASH_SIZE](_ => null);
      magic, hits, partials, misses, p0, p1 := HASH_MAGIC, 0, 0, 0, 0, null;
      chains := seq(HASH_SIZE, _ => []);
      contents, touched, clock := map[], map[], 0;
    }

    /** The key is already the first of its chain. */
    ghost predicate AtHead(key: nat)
      requires |chains| == HASH_SIZE
      reads `chains
    {
      chains[HashOf(key)] != [] && chains[HashOf(key)][0].key == key
    }

    /** `HashFind`: a found bucket ends up at the front of its chain. */
    method HashFind(key: nat) returns (bucket: Bucket?, hash: nat)
      requires Valid()
      modifies `hits, `partials, `misses, `chains, `touched, `clock, buckets, Nodes()`next
      ensures Valid() && Nodes() == old(Nodes()) && hash == HashOf(key)
      ensures bucket != null <==> key in contents
      ensures bucket != null ==> bucket.key == key && bucket.value == contents[key]
      ensures bucket != null ==> chains[hash] != [] && chains[hash][0] == bucket
      ensures bucket == null ==> chains == old(chains) && touched == old(touched) && clock == old(clock)
      ensures bucket != null ==> touched == old(touched)[key := old(clock)] && clock == old(clock) + 1
      ensures misses == old(misses) + if key in contents then 0 else 1
      ensures hits == old(hits) + if old(AtHead(key)) then 1 else 0
      ensures hits + partials + misses == old(hits + partials + misses) + 1
    {
      hash := HashHash(key, scatter);
      ghost var p: nat;
      var prev;
      prev, bucket, p := Search(key, hash);
      if bucket != null {
        if prev != null {
          Promote(hash, prev, bucket, p);
          partials := partials + 1;
        } else {
          TouchHead(hash);
          hits := hits + 1;
        }
      } else {
        misses := misses + 1;
      }
    }

    method Promote(h: nat, prev: Bucket, bucket: Bucket, ghost p: nat)
      requires Valid() && h < HASH_SIZE && 0 < p < |chains[h]| && chains[h][p] == bucket && chains[h][p - 1] == prev
      modifies `chains, `touched, `clock, buckets, prev`next, bucket`next
      ensures Valid() && Nodes() == old(Nodes()) && chains[h] == ToFront(old(chains[h]), p)
      ensures touched == old(touched)[bucket.key := old(clock)] && clock == old(clock) + 1
    {
      forall g | 0 <= g < HASH_SIZE ensures ChainOk(chains[g], g, contents, touched, clock) && Linked(chains[g]) &&
        buckets[g] == BucketAt(chains[g], 0) {
        assert ChainValid(g);
      }
      Organize(h, prev, bucket, p, chains[h]);
      forall g | 0 <= g < HASH_SIZE && g != h ensures Linked(chains[g]) {
        assert old(Linked(chains[g]));
        assert forall i :: 0 <= i < |chains[g]| ==> chains[g][i].home == g;
      }
      MoveToFront(h, p);
    }

    ghost method TouchHead(h: nat)
      requires Valid() && h < HASH_SIZE && chains[h] != []
      modifies `chains, `touched, `clock
      ensures Valid() && Nodes() == old(Nodes()) && chains[h] == ToFront(old(chains[h]), 0)
      ensures touched == old(touched)[old(chains[h][0].key) := old(clock)] && clock == old(clock) + 1
    {
      forall g | 0 <= g < HASH_SIZE ensures ChainOk(chains[g], g, contents, touched, clock) && Linked(chains[g]) &&
        buckets[g] == BucketAt(chains[g], 0) {
        assert ChainValid(g);
      }
      assert ToFront(chains[h], 0) == chains[h];
      MoveToFront(h, 0);
    }

    /** `drmHashLookup`. */
    method Lookup(key: nat) returns (ret: int, value: nat)
      requires Valid()
      modifies `hits, `partials, `misses, `chains, `touched, `clock, buckets, Nodes()`next
      ensures Valid() && Nodes() == old(Nodes())
      ensures ret == if magic != HASH_MAGIC then -1 else if key in contents then 0 else 1
      ensures ret == 0 ==> value == contents[key]
      ensures touched == if ret == 0 then old(touched)[key := old(clock)] else old(touched)
      ensures clock == old(clock) + if ret == 0 then 1 else 0
    {
      value := 0;
      if magic != HASH_MAGIC {
        return -1, 0;
      }
      var bucket, hash := HashFind(key);
      if bucket == null {
        return 1, 0;
      }
      return 0, bucket.value;
    }

    /** `drmHashInsert`; `memory` says whether the bucket can be allocated. */
    method Insert(key: nat, value: nat, memory: bool) returns (ret: int)
      requires Valid()
      modifies `hits, `partials, `misses, `chains, `contents, `touched, `clock, buckets, Nodes()`next
      ensures Valid() && forall b :: b in Nodes() ==> b in old(Nodes()) || fresh(b)
      ensures ret == if magic != HASH_MAGIC then -1 else if key in old(contents) then 1 else if memory then 0 else -1
      ensures contents == if ret == 0 then old(contents)[key := value] else old(contents)
      ensures touched == if ret == 0 || ret == 1 then old(touched)[key := old(clock)] else old(touched)
      ensures clock == old(clock) + if ret == 0 || ret == 1 then 1 else 0
    {
      if magic != HASH_MAGIC {
        return -1;
      }
      var bucket, hash := HashFind(key);
      if bucket != null {
        return 1;
      }
      if !memory {
        return -1;
      }
      var b := new Bucket(key, value, buckets[hash]);
      Push(hash, b);
      return 0;
    }

    /** Linking a new bucket in at the front of its chain. */
    method Push(h: nat, b: Bucket)
      requires Valid() && h < HASH_SIZE && Proper(b) && b.home == h && b.key !in contents
      requires b !in Nodes() && b.next == buckets[h]
      modifies `chains, `contents, `touched, `clock, buckets
      ensures Valid() && contents == old(contents)[b.key := b.value] && Nodes() == old(Nodes()) + {b}
      ensures touched == old(touched)[b.key := old(clock)] && clock == old(clock) + 1
    {
      ghost var before, m, t, n := chains, contents[b.key := b.value], touched[b.key := clock], clock + 1;
      PushedAll(h, b);
      assert ChainValid(h);
      NodesPushed(before, h, b);
      buckets[h] := b;
      chains := before[h := [b] + before[h]];
      contents, touched, clock := m, t, n;
      LinkedPush(before[h], b);
      forall g | 0 <= g < HASH_SIZE ensures ChainValid(g) {
        if g != h { assert old(ChainValid(g)); }
      }
    }

    lemma PushedAll(h: nat, b: Bucket)
      requires Valid() && h < HASH_SIZE && Proper(b) && b.home == h && b.key !in contents
      ensures forall g :: 0 <= g < HASH_SIZE ==>
        ChainOk(if g == h then [b] + chains[h]
          else chains[g], g, contents[b.key := b.value], touched[b.key := clock], clock + 1)
    {
      forall g | 0 <= g < HASH_SIZE ensures
          ChainOk(if g == h then [b] + chains[h]
            else chains[g], g, contents[b.key := b.value], touched[b.key := clock], clock + 1) {
        assert ChainValid(g);
        if g == h {
          PushedOk(chains[h], h, contents, touched, clock, b);
        } else {
          OtherOk(chains[g], g, contents, touched, clock, b.key, b.value);
        }
      }
    }

    /** `drmHashDelete`: the found bucket is at the front, so unlinking the front is right. */
    method Delete(key: nat) returns (ret: int)
      requires Valid()
      modifies `hits, `partials, `misses, `chains, `contents, `touched, `clock, buckets, Nodes()`next
      ensures Valid() && Nodes() <= old(Nodes())
      ensures ret == if magic != HASH_MAGIC then -1 else if key in old(contents) then 0 else 1
      ensures contents == if ret == 0 then old(contents) - {key} else old(contents)
      ensures touched == if ret == 0 then old(touched)[key := old(clock)] else old(touched)
      ensures clock == old(clock) + if ret == 0 then 1 else 0
    {
      if magic != HASH_MAGIC {
        return -1;
      }
      var bucket, hash := HashFind(key);
      if bucket == null {
        return 1;
      }
      Pop(hash, bucket);
      return 0;
    }

    method Pop(h: nat, b: Bucket)
      requires Valid() && h < HASH_SIZE && chains[h] != [] && chains[h][0] == b
      modifies `chains, `contents, buckets
      ensures Valid() && contents == old(contents) - {b.key} && Nodes() <= old(Nodes())
    {
      forall g | 0 <= g < HASH_SIZE ensures
          ChainOk(if g == h then chains[h][1..] else chains[g], g, contents - {b.key}, touched, clock) {
        assert ChainValid(g);
        if g == h {
          PoppedOk(chains[h], h, contents, touched, clock);
        } else {
          assert ChainValid(h);
          assert Proper(chains[h][0]);
          OtherOk(chains[g], g, contents, touched, clock, b.key, b.value);
        }
      }
      assert ChainValid(h);
      NodesPopped(chains, h);
      buckets[h] := b.next;
      chains := chains[h := chains[h][1..]];
      contents := contents - {b.key};
      forall g | 0 <= g < HASH_SIZE ensures ChainValid(g) {
        assert old(ChainValid(g));
      }
    }

    /** Moving the iteration position does not touch the table. */
    twostate lemma StillValid()
      requires old(Valid())
      requires unchanged(`chains, `contents, `touched, `clock, buckets) && unchanged(Nodes())
      ensures Valid()
    {
      forall h | 0 <= h < HASH_SIZE ensures ChainValid(h) {
        assert old(ChainValid(h));
      }
    }

    lemma ChainLinked(h: nat)
      requires Valid() && h < HASH_SIZE
      ensures Linked(chains[h]) && buckets[h] == BucketAt(chains[h], 0)
    {
      assert ChainValid(h);
    }

    /** `drmHashNext`.  `tail` is what is left of the chain that `p1` points into. */
    method NextEntry(ghost tail: seq<Bucket>) returns (ret: int, key: nat, value: nat, ghost left: seq<Bucket>)
      requires Valid() && Linked(tail) && p1 == BucketAt(tail, 0)
      modifies `p0, `p1
      ensures Linked(left) && p1 == BucketAt(left, 0) && (ret == 1 ==> p0 < HASH_SIZE)
      ensures Emits(if old(p0) < HASH_SIZE then tail + Rest(chains, old(p0))
        else [], left + Rest(chains, p0), ret, key, value)
    {
      ret, key, value, left := 0, 0, 0, tail;
      while p0 < HASH_SIZE
        invariant Valid() && Linked(left) && p1 == BucketAt(left, 0) && old(p0) <= p0
        invariant old(p0) < HASH_SIZE ==> p0 <= HASH_SIZE
        invariant p0 < HASH_SIZE ==> left + Rest(chains, p0) == tail + Rest(chains, old(p0))
        invariant p0 >= HASH_SIZE && old(p0) < HASH_SIZE ==> tail + Rest(chains, old(p0)) == []
        decreases HASH_SIZE - p0
      {
        if p1 != null {
          ret, key, value := 1, p1.key, p1.value;
          p1 := p1.next;
          ghost var front := left;
          left := left[1..];
          assert front + Rest(chains, p0) == [front[0]] + (left + Rest(chains, p0));
          return;
        }
        ChainLinked(p0);
        assert left + Rest(chains, p0) == Rest(chains, p0);
        left := chains[p0];
        p1 := buckets[p0];
        p0 := p0 + 1;
        StillValid();
      }
    }

    /** `drmHashFirst`. */
    method FirstEntry() returns (ret: int, key: nat, value: nat, ghost left: seq<Bucket>)
      requires Valid() && magic == HASH_MAGIC
      modifies `p0, `p1
      ensures Linked(left) && p1 == BucketAt(left, 0) && (ret == 1 ==> p0 < HASH_SIZE)
      ensures Emits(Visited(chains), left + Rest(chains, p0), ret, key, value)
    {
      ChainLinked(0);
      p0 := 0;
      p1 := buckets[0];
      StillValid();
      ret, key, value, left := NextEntry(chains[0]);
    }

    /** A client's walk: `drmHashFirst`, then `drmHashNext` until it returns 0.  It visits
        chain 0 twice, chains 1 to 510 once, and chain 511 never. */
    method Traverse() returns (items: seq<(nat, nat)>)
      requires Valid() && magic == HASH_MAGIC
      modifies `p0, `p1
      ensures items == Pairs(Visited(chains))
    {
      items := [];
      ghost var all, left, n := Visited(chains), chains[0], 0;
      var ret, key, value;
      ret, key, value, left := FirstEntry();
      while ret == 1
        invariant 0 <= n <= |all| && items == Pairs(all[..n])
        invariant Linked(left) && p1 == BucketAt(left, 0) && (ret == 1 ==> p0 < HASH_SIZE)
        invariant Emits(all[n..], left + Rest(chains, p0), ret, key, value)
        decreases |all| - n
      {
        PairsNext(all, n);
        items := items + [(key, value)];
        n := n + 1;
        StillValid();
        ret, key, value, left := NextEntry(left);
      }
      assert all[..n] == all;
    }

    /** Every run of inserts, deletes and lookups gives what a finite map would and touches the
        keys that are found or added, in order. */
    method Run(ops: seq<Op>) returns (results: seq<(int, nat)>)
      requires Valid() && magic == HASH_MAGIC
      modifies this, buckets, Nodes()`next
      ensures Valid() && (contents, results) == SpecRun(old(contents), ops)
      ensures (touched, clock) == Touches(old(contents), old(touched), old(clock), ops)
    {
      results := [];
      for i := 0 to |ops|
        invariant Valid() && magic == HASH_MAGIC
        invariant forall b :: b in Nodes() ==> b in old(Nodes()) || fresh(b)
        invariant (contents, results) == SpecRun(old(contents), ops[..i])
        invariant (touched, clock) == Touches(old(contents), old(touched), old(clock), ops[..i])
      {
        assert ops[..i + 1][..i] == ops[..i];
        var ret, value := Step(ops[i]);
        results := results + [(ret, value)];
      }
      assert ops[..|ops|] == ops;
    }

    method Step(op: Op) returns (ret: int, value: nat)
      requires Valid() && magic == HASH_MAGIC
      modifies `hits, `partials, `misses, `chains, `contents, `touched, `clock, buckets, Nodes()`next
      ensures Valid() && forall b :: b in Nodes() ==> b in old(Nodes()) || fresh(b)
      ensures (contents, (ret, value)) == SpecStep(old(contents), op)
      ensures (touched, clock) == Touch(old(contents), old(touched), old(clock), op)
    {
      value := 0;
      match op {
        case Insert(k, v) => ret := Insert(k, v, true);
        case Delete(k) => ret := Delete(k);
        case Lookup(k) =>
          ret, value := Lookup(k);
          if ret != 0 { value := 0; }
      }
    }

    /** The loop of `HashFind`, with the predecessor it tracks. */
    method Search(key: nat, hash: nat) returns (prev: Bucket?, bucket: Bucket?, ghost p: nat)
      requires Valid() && hash == HashOf(key)
      ensures p <= |chains[hash]| && bucket == BucketAt(chains[hash], p) && (p > 0 ==> chains[hash][0].key != key)
      ensures prev == if p == 0 then null else chains[hash][p - 1]
      ensures bucket != null ==> bucket.key == key
      ensures bucket != null <==> key in contents
      ensures bucket != null ==> bucket.value == contents[key]
    {
      ghost var c := chains[hash];
      assert ChainValid(hash);
      prev, bucket, p := null, buckets[hash], 0;
      while bucket != null
        invariant p <= |c| && bucket == BucketAt(c, p)
        invariant prev == if p == 0 then null else c[p - 1]
        invariant forall i :: 0 <= i < p ==> c[i].key != key
        decreases |c| - p
      {
        if bucket.key == key {
          return;
        }
        prev := bucket;
        bucket := bucket.next;
        p := p + 1;
      }
      assert !HasKey(c, key);
    }

    /** The relinking step of `HashFind`. */
    method Organize(h: nat, prev: Bucket, bucket: Bucket, ghost p: nat, ghost c: seq<Bucket>)
      requires h < buckets.Length && Unique(c) && Linked(c) && buckets[h] == BucketAt(c, 0)
      requires 0 < p < |c| && c[p] == bucket && c[p - 1] == prev
      modifies buckets, prev`next, bucket`next
      ensures Linked(ToFront(c, p)) && buckets[h] == bucket
      ensures forall g :: 0 <= g < buckets.Length && g != h ==> buckets[g] == old(buckets[g])
    {
      forall i | 0 <= i < |c| ensures (c[i] == bucket <==> i == p) && (c[i] == prev <==> i == p - 1) {
        if i != p { assert KeysDiffer(c, i, p); }
        if i != p - 1 { assert KeysDiffer(c, i, p - 1); }
      }
      prev.next := bucket.next;
      bucket.next := buckets[h];
      buckets[h] := bucket;
    }

    /** The bookkeeping of a find: chain `h` now has its bucket `p` in front. */
    ghost method MoveToFront(h: nat, p: nat)
      requires h < |chains| == HASH_SIZE == buckets.Length && p < |chains[h]|
      requires |scatter| == 256 && (forall i :: 0 <= i < 256 ==> scatter[i] == Scatter(i))
      requires forall g :: 0 <= g < HASH_SIZE ==> ChainOk(chains[g], g, contents, touched, clock)
      requires forall g :: 0 <= g < HASH_SIZE && g != h ==> Linked(chains[g]) && buckets[g] == BucketAt(chains[g], 0)
      requires Linked(ToFront(chains[h], p)) && buckets[h] == chains[h][p]
      modifies `chains, `touched, `clock
      ensures Valid() && Nodes() == old(Nodes())
      ensures chains[h] == ToFront(old(chains[h]), p)
      ensures touched == old(touched)[old(chains[h][p].key) := old(clock)] && clock == old(clock) + 1
    {
      ghost var c, key := chains[h], chains[h][p].key;
      FrontOk(c, h, contents, touched, clock, p);
      forall g | 0 <= g < HASH_SIZE &&
        g != h ensures ChainOk(chains[g], g, contents, touched[key := clock], clock + 1) {
        assert Proper(c[p]);
        OtherRecent(chains[g], g, touched, clock, key);
      }
      ghost var old1 := chains;
      chains := chains[h := ToFront(c, p)];
      touched := touched[key := clock];
      clock := clock + 1;
      NodesToFront(old1, h, p);
    }
  }

  ghost function AllNodes(chains: seq<seq<Bucket>>): set<Bucket> {
    set h, i | 0 <= h < |chains| && 0 <= i < |chains[h]| :: chains[h][i]
  }

  lemma NodesToFront(chains: seq<seq<Bucket>>, h: nat, p: nat)
    requires h < |chains| && p < |chains[h]|
    ensures AllNodes(chains[h := ToFront(chains[h], p)]) == AllNodes(chains)
  {
    var c, d := chains[h], ToFront(chains[h], p);
    var after := chains[h := d];
    forall b | b in AllNodes(chains) ensures b in AllNodes(after) {
      var g, i :| 0 <= g < |chains| && 0 <= i < |chains[g]| && chains[g][i] == b;
      if g == h {
        assert after[h][if i == p then 0 else if i < p then i + 1 else i] == b;
      } else {
        assert after[g][i] == b;
      }
    }
    forall b | b in AllNodes(after) ensures b in AllNodes(chains) {
      var g, i :| 0 <= g < |after| && 0 <= i < |after[g]| && after[g][i] == b;
      if g == h {
        assert chains[h][if i == 0 then p else if i <= p then i - 1 else i] == b;
      } else {
        assert chains[g][i] == b;
      }
    }
  }

  lemma LinkedPush(c: seq<Bucket>, b: Bucket)
    requires Linked(c) && b.next == BucketAt(c, 0)
    ensures Linked([b] + c)
  {
  }

  lemma NodesPushed(chains: seq<seq<Bucket>>, h: nat, b: Bucket)
    requires h < |chains|
    ensures AllNodes(chains[h := [b] + chains[h]]) == AllNodes(chains) + {b}
  {
    var after := chains[h := [b] + chains[h]];
    assert after[h][0] == b;
    forall x | x in AllNodes(chains) ensures x in AllNodes(after) {
      var g, i :| 0 <= g < |chains| && 0 <= i < |chains[g]| && chains[g][i] == x;
      assert after[g][if g == h then i + 1 else i] == x;
    }
    forall x | x in AllNodes(after) ensures x == b || x in AllNodes(chains) {
      var g, i :| 0 <= g < |after| && 0 <= i < |after[g]| && after[g][i] == x;
      if !(g == h && i == 0) { assert chains[g][if g == h then i - 1 else i] == x; }
    }
  }

  lemma NodesPopped(chains: seq<seq<Bucket>>, h: nat)
    requires h < |chains| && chains[h] != []
    ensures AllNodes(chains[h := chains[h][1..]]) <= AllNodes(chains)
  {
    var after := chains[h := chains[h][1..]];
    forall x | x in AllNodes(after) ensures x in AllNodes(chains) {
      var g, i :| 0 <= g < |after| && 0 <= i < |after[g]| && after[g][i] == x;
      assert chains[g][if g == h then i + 1 else i] == x;
    }
  }

  // ----- what iteration visits

  lemma {:induction false} ChainCount(c: seq<Bucket>, b: Bucket)
    requires Unique(c)
    ensures multiset(c)[b] == if b in c then 1 else 0
  {
    if c != [] {
      var t := c[1..];
      assert c == [c[0]] + t;
      forall i, j | 0 <= i < |t| && 0 <= j < |t| && i != j ensures KeysDiffer(t, i, j) {
        assert KeysDiffer(c, i + 1, j + 1);
      }
      forall i | 0 <= i < |t| ensures t[i] != c[0] { assert KeysDiffer(c, 0, i + 1); }
      ChainCount(t, b);
    }
  }

  ghost predicate Homed(chains: seq<seq<Bucket>>) {
    |chains| == HASH_SIZE && forall h :: 0 <= h < |chains| ==> ChainOf(chains[h], h)
  }

  lemma {:induction false} RestCount(chains: seq<seq<Bucket>>, p0: nat, b: Bucket)
    requires Homed(chains)
    ensures multiset(Rest(chains, p0))[b] ==
            if p0 <= b.home < HASH_SIZE - 1 && b in chains[b.home] then 1 else 0
    decreases |chains| - p0
  {
    if p0 < |chains| - 1 {
      RestCount(chains, p0 + 1, b);
      assert ChainOf(chains[p0], p0);
      ChainCount(chains[p0], b);
      assert b in chains[p0] ==> b.home == p0;
    }
  }

  /** The walk reports every entry exactly once precisely when the first and the last
      chain are empty. */
  lemma VisitsOnceIff(table: HashTable)
    requires table.Valid()
    ensures (forall b :: b in table.Nodes() ==> multiset(Visited(table.chains))[b] == 1) <==>
            table.chains[0] == [] && table.chains[HASH_SIZE - 1] == []
  {
    var chains := table.chains;
    forall h | 0 <= h < HASH_SIZE ensures ChainOf(chains[h], h) { assert table.ChainValid(h); }
    forall b: Bucket ensures multiset(Visited(chains))[b] == multiset(chains[0])[b] + multiset(Rest(chains, 0))[b] {}
    if chains[0] != [] {
      VisitedTwice(chains, chains[0][0]);
      assert chains[0][0] in AllNodes(chains);
    }
    if chains[HASH_SIZE - 1] != [] {
      NeverVisited(chains, chains[HASH_SIZE - 1][0]);
      assert chains[HASH_SIZE - 1][0] in AllNodes(chains);
    }
    if chains[0] == [] && chains[HASH_SIZE - 1] == [] {
      forall b | b in AllNodes(chains) ensures multiset(Visited(chains))[b] == 1 {
        var h, i :| 0 <= h < |chains| && 0 <= i < |chains[h]| && chains[h][i] == b;
        RestCount(chains, 0, b);
      }
    }
  }

  lemma VisitedTwice(chains: seq<seq<Bucket>>, b: Bucket)
    requires Homed(chains) && b in chains[0]
    ensures multiset(Visited(chains))[b] == 2
  {
    assert ChainOf(chains[0], 0);
    ChainCount(chains[0], b);
    RestCount(chains, 0, b);
  }

  lemma NeverVisited(chains: seq<seq<Bucket>>, b: Bucket)
    requires Homed(chains) && b in chains[HASH_SIZE - 1]
    ensures multiset(Visited(chains))[b] == 0
  {
    assert ChainOf(chains[HASH_SIZE - 1], HASH_SIZE - 1) && ChainOf(chains[0], 0);
    ChainCount(chains[0], b);
    RestCount(chains, 0, b);
  }

  lemma {:induction false} RestOfEmpty(chains: seq<seq<Bucket>>, p0: nat)
    requires |chains| == HASH_SIZE && forall h :: p0 <= h < HASH_SIZE ==> chains[h] == []
    ensures Rest(chains, p0) == []
    decreases |chains| - p0
  {
    if p0 < |chains| - 1 { RestOfEmpty(chains, p0 + 1); }
  }

  /** A table that holds only key 0 has one entry, in its first chain. */
  lemma OnlyKeyZero(table: HashTable, value: nat)
    requires table.Valid() && table.contents == map[0 := value]
    ensures |table.chains[0]| == 1 && table.chains[0][0].key == 0 && table.chains[0][0].value == value
    ensures forall h :: 0 < h < HASH_SIZE ==> table.chains[h] == []
  {
    assert HashOf(0) == 0;
    forall h | 0 <= h < HASH_SIZE ensures ChainOk(table.chains[h], h, table.contents, table.touched, table.clock) {
      assert table.ChainValid(h);
    }
    var c := table.chains[0];
    forall h | 0 <= h < HASH_SIZE && table.chains[h] != [] ensures h == 0 { assert Proper(table.chains[h][0]); }
    assert |c| > 1 ==> KeysDiffer(c, 0, 1);
  }

  /** The iteration over a table that holds only key 0 reports it twice. */
  method KeyZeroTwice(value: nat) returns (items: seq<(nat, nat)>)
    ensures items == [(0, value), (0, value)]
  {
    var table := new HashTable();
    var ret := table.Insert(0, value, true);
    OnlyKeyZero(table, value);
    var chains := table.chains;
    items := table.Traverse();
    RestOfEmpty(chains, 1);
    assert Rest(chains, 0) == chains[0] + [];
    assert Visited(chains) == [chains[0][0], chains[0][0]];
  }

  /** Chain `h` lists exactly the keys of the map that hash to `h`, the one last named by an
      operation first. */
  ghost predicate ByLastUse(c: seq<Bucket>, h: nat, m: map<nat, nat>, ops: seq<Op>) {
    && Holds(c, h, m)
    && (forall i :: 0 <= i < |c| ==> HashOf(c[i].key) == h)
    && forall i, j :: 0 <= i < j < |c| ==> UsedAfter(ops, c[i].key, c[j].key)
  }

  lemma ChainByLastUse(c: seq<Bucket>, h: nat, ops: seq<Op>)
    requires ChainOk(c, h, SpecRun(map[], ops).0, Touches(map[], map[], 0, ops).0, Touches(map[], map[], 0, ops).1)
    ensures ByLastUse(c, h, SpecRun(map[], ops).0, ops)
  {
    var t := Touches(map[], map[], 0, ops).0;
    forall i | 0 <= i < |c| ensures HashOf(c[i].key) == h { assert Proper(c[i]); }
    forall i, j | 0 <= i < j < |c| ensures UsedAfter(ops, c[i].key, c[j].key) {
      assert KeysDiffer(c, i, j) && TouchedAfter(c, t, i, j);
      TouchIsLastUse(ops, c[i].key, c[j].key);
    }
  }

  /** After any run on a new table every chain is in the order of last use. */
  method RunFromEmpty(ops: seq<Op>) returns (table: HashTable, results: seq<(int, nat)>)
    ensures fresh(table) && table.Valid() && (table.contents, results) == SpecRun(map[], ops)
    ensures forall h :: 0 <= h < HASH_SIZE ==> ByLastUse(table.chains[h], h, table.contents, ops)
  {
    table := new HashTable();
    results := table.Run(ops);
    forall h | 0 <= h < HASH_SIZE ensures ByLastUse(table.chains[h], h, table.contents, ops) {
      assert table.ChainValid(h);
      ChainByLastUse(table.chains[h], h, ops);
    }
  }
}
