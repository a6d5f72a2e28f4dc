/** The skip list of xf86drmSL.c: towers of forward pointers, proved to behave as a sorted
    finite map whatever heights the random generator chooses. */
module SkipLists {
  import opened LehmerRandom

  const SL_MAX_LEVEL: nat := 16
  const SL_LIST_MAGIC: nat := 0xfacade00

  /** A list entry; `forward` has one pointer per level of the tower.  Values are opaque
      pointers, with 0 for NULL. */
  class Entry {
    const key: nat
    const value: nat
    const levels: nat
    var forward: seq<Entry?>

    constructor (maxLevel: nat, k: nat, v: nat)
      requires maxLevel <= SL_MAX_LEVEL
      ensures key == k && value == v && levels == maxLevel + 1
      ensures |forward| == levels && forall i :: 0 <= i < levels ==> forward[i] == null
    {
      key, value, levels := k, v, maxLevel + 1;
      forward := seq(maxLevel + 1, _ => null);
    }
  }

  // ----- chains: the head followed by the entries in level-0 order

  /** The first position after `p` whose tower reaches level `i`. */
  ghost function NextAt(c: seq<Entry>, p: nat, i: nat): (q: nat)
    requires p < |c|
    ensures p < q <= |c|
    ensures q < |c| ==> c[q].levels > i
    decreases |c| - p
  {
    if p + 1 == |c| then |c|
    else if c[p + 1].levels > i then p + 1
    else NextAt(c, p + 1, i)
  }

  lemma NextAtSkips(c: seq<Entry>, p: nat, i: nat)
    requires p < |c|
    ensures forall m :: p < m < NextAt(c, p, i) ==> c[m].levels <= i
    decreases |c| - p
  {
    if p + 1 < |c| && c[p + 1].levels <= i { NextAtSkips(c, p + 1, i); }
  }

  /** The last position up to `p` whose tower reaches level `i`. */
  ghost function LastAt(c: seq<Entry>, p: nat, i: nat): (q: nat)
    requires p < |c| && c[0].levels > i
    ensures q <= p && c[q].levels > i
    decreases p
  {
    if c[p].levels > i then p else LastAt(c, p - 1, i)
  }

  lemma LastAtSkips(c: seq<Entry>, p: nat, i: nat)
    requires p < |c| && c[0].levels > i
    ensures forall m :: LastAt(c, p, i) < m <= p ==> c[m].levels <= i
    decreases p
  {
    if c[p].levels <= i { LastAtSkips(c, p - 1, i); }
  }

  lemma NextAtUnique(c: seq<Entry>, p: nat, i: nat, q: nat)
    requires p < q <= |c|
    requires q < |c| ==> c[q].levels > i
    requires forall m :: p < m < q ==> c[m].levels <= i
    ensures NextAt(c, p, i) == q
  {
    NextAtSkips(c, p, i);
  }

  /** A sequence with `x` spliced in after position `r`. */
  ghost function Splice<T>(c: seq<T>, r: nat, x: T): (s: seq<T>)
    requires r < |c|
    ensures |s| == |c| + 1 && s[r + 1] == x
    ensures forall m {:trigger s[m]} :: 0 <= m <= r ==> s[m] == c[m]
    ensures forall m {:trigger s[m]} :: r + 1 < m < |s| ==> s[m] == c[m - 1]
  {
    c[..r + 1] + [x] + c[r + 1..]
  }

  /** How splicing an entry changes the successor at each level: before the splice... */
  lemma SpliceNextBelow(c: seq<Entry>, r: nat, e: Entry, p: nat, i: nat)
    requires p <= r < |c|
    ensures NextAt(Splice(c, r, e), p, i) ==
            if NextAt(c, p, i) <= r then NextAt(c, p, i)
            else if e.levels > i then r + 1
            else NextAt(c, p, i) + 1
  {
    var s, n := Splice(c, r, e), NextAt(c, p, i);
    NextAtSkips(c, p, i);
    NextAtUnique(s, p, i, if n <= r then n else if e.levels > i then r + 1 else n + 1);
  }

  /** ... and from it on. */
  lemma SpliceNextAbove(c: seq<Entry>, r: nat, e: Entry, p: nat, i: nat)
    requires r <= p < |c|
    ensures NextAt(Splice(c, r, e), p + 1, i) == NextAt(c, p, i) + 1
  {
    var s := Splice(c, r, e);
    NextAtSkips(c, p, i);
    NextAtUnique(s, p + 1, i, NextAt(c, p, i) + 1);
  }

  lemma LastThenNext(c: seq<Entry>, r: nat, i: nat)
    requires r < |c| && c[0].levels > i
    ensures NextAt(c, LastAt(c, r, i), i) == NextAt(c, r, i)
  {
    LastAtSkips(c, r, i);
    NextAtSkips(c, r, i);
    NextAtUnique(c, LastAt(c, r, i), i, NextAt(c, r, i));
  }

  lemma LastIsUnique(c: seq<Entry>, r: nat, i: nat, p: nat)
    requires p <= r < |c| && c[0].levels > i && c[p].levels > i && NextAt(c, p, i) > r
    ensures LastAt(c, r, i) == p
  {
    NextAtSkips(c, p, i);
    LastAtSkips(c, r, i);
  }

  ghost function EntryAt(c: seq<Entry>, q: nat): Entry? {
    if q < |c| then c[q] else null
  }

  ghost function Forwards(c: seq<Entry>): seq<seq<Entry?>>
    reads c
  {
    seq(|c|, p requires 0 <= p < |c| reads c => c[p].forward)
  }

  /** Every pointer leads to the next tower that reaches its level. */
  ghost predicate LinkedVia(c: seq<Entry>, f: seq<seq<Entry?>>) {
    |f| == |c| && forall p :: 0 <= p < |c| ==> RowOk(c, f[p], p)
  }

  ghost predicate RowOk(c: seq<Entry>, row: seq<Entry?>, p: nat)
    requires p < |c|
  {
    |row| == c[p].levels && forall i :: 0 <= i < |row| ==> row[i] == EntryAt(c, NextAt(c, p, i))
  }

  ghost predicate Linked(c: seq<Entry>)
    reads c
  {
    forall p :: 0 <= p < |c| ==> RowOk(c, c[p].forward, p)
  }

  lemma LinkedIsVia(c: seq<Entry>)
    ensures Linked(c) <==> LinkedVia(c, Forwards(c))
  {
    var f := Forwards(c);
    assert forall p :: 0 <= p < |c| ==> f[p] == c[p].forward;
  }

  ghost predicate KeyLess(c: seq<Entry>, p: nat, q: nat)
    requires p < |c| && q < |c|
  {
    c[p].key < c[q].key
  }

  /** Keys strictly ascend after the head, which is its own entry. */
  ghost predicate Ascending(c: seq<Entry>) {
    && |c| > 0
    && (forall p, q :: 0 < p < q < |c| ==> KeyLess(c, p, q))
    && (forall p :: 0 < p < |c| ==> c[p] != c[0])
  }

  ghost predicate TowersFit(c: seq<Entry>, level: nat) {
    && |c| > 0 && level <= SL_MAX_LEVEL
    && c[0].levels == SL_MAX_LEVEL + 1 && c[0].key == 0 && c[0].value == 0
    && (forall p :: 0 < p < |c| ==> 1 < c[p].levels <= level + 1)
  }

  /** No tower is above `level`, and unless it is 0 some tower reaches it. */
  ghost predicate TowersOk(c: seq<Entry>, level: nat) {
    && TowersFit(c, level)
    && (level > 0 ==> exists p :: 0 < p < |c| && c[p].levels == level + 1)
  }

  lemma MapConsistent(c: seq<Entry>)
    requires Ascending(c)
    ensures forall p, q :: 0 < p < |c| && 0 < q < |c| && c[p].key == c[q].key ==> c[p].value == c[q].value
  {
    forall p, q | 0 < p < |c| && 0 < q < |c| && p != q ensures c[p].key != c[q].key {
      assert if p < q then KeyLess(c, p, q) else KeyLess(c, q, p);
    }
  }

  /** The map an ascending chain stands for. */
  ghost function MapOf(c: seq<Entry>): map<nat, nat>
    requires Ascending(c)
  {
    MapConsistent(c);
    map p | 0 < p < |c| :: c[p].key := c[p].value
  }

  /** Where a key belongs: the last position whose key is smaller, or the head. */
  ghost predicate Before(c: seq<Entry>, r: nat, key: nat) {
    && r < |c|
    && (r == 0 || c[r].key < key)
    && (forall m :: r < m < |c| ==> key <= c[m].key)
  }

  /** How `SLRandomLevel` reads its draws: one level more per odd number, up to the cap. */
  ghost function LevelFrom(seed: nat, level: nat): nat
    requires level <= SL_MAX_LEVEL
    decreases SL_MAX_LEVEL - level
  {
    if Next(seed) % 2 == 1 && level < SL_MAX_LEVEL then LevelFrom(Next(seed), level + 1) else level
  }

  method RandomLevel(rng: RandomState) returns (level: nat)
    requires rng.Valid()
    modifies rng`seed
    ensures rng.Valid() && 1 <= level <= SL_MAX_LEVEL && level == LevelFrom(old(rng.seed), 1)
  {
    level := 1;
    var draw := rng.Random();
    while draw % 2 == 1 && level < SL_MAX_LEVEL
      invariant rng.Valid() && 1 <= level <= SL_MAX_LEVEL
      invariant LevelFrom(old(rng.seed), 1) == if draw % 2 == 1 && level < SL_MAX_LEVEL
        then LevelFrom(rng.seed, level + 1) else level
      decreases SL_MAX_LEVEL - level
    {
      level := level + 1;
      draw := rng.Random();
    }
  }

  datatype Op = Insert(key: nat, value: nat) | Delete(key: nat) | Lookup(key: nat)

  /** What a finite map answers: a return code, and the value for a lookup. */
  ghost function SpecStep(m: map<nat, nat>, op: Op): (map<nat, nat>, (int, nat)) {
    match op
    case Insert(k, v) => if k in m then (m, (1, 0)) else (m[k := v], (0, 0))
    case Delete(k) => if k in m then (m - {k}, (0, 0)) else (m, (1, 0))
    case Lookup(k) => if k in m then (m, (0, m[k])) else (m, (-1, 0))
  }

  ghost function SpecRun(m: map<nat, nat>, ops: seq<Op>): (map<nat, nat>, seq<(int, nat)>) {
    if ops == [] then (m, [])
    else
      var (n, results) := SpecRun(m, ops[..|ops| - 1]);
      var (next, result) := SpecStep(n, ops[|ops| - 1]);
      (next, results + [result])
  }

  class SkipList {
    var magic: nat
    var level: nat
    var count: nat
    var head: Entry
    var p0: Entry?
    ghost var chain: seq<Entry>  // the head and the entries in level-0 order

    ghost predicate Valid()
      reads this, chain
    {
      && Ascending(chain)
      && TowersOk(chain, level)
      && Linked(chain)
      && chain[0] == head
      && count == |chain| - 1
    }

    ghost function Contents(): map<nat, nat>
      reads this, chain
      requires Valid()
    {
      MapOf(chain)
    }

    constructor ()
      ensures Valid() && fresh(chain) && magic == SL_LIST_MAGIC && Contents() == map[] && p0 == null
    {
      magic, level, count, p0 := SL_LIST_MAGIC, 0, 0, null;
      var h := new Entry(SL_MAX_LEVEL, 0, 0);
      head := h;
      chain := [h];
    }

    /** The inner loop of `SLLocate`: along one level to the last entry below the key. */
    method Walk(start: Entry, i: nat, key: nat, ghost p: nat, ghost r: nat) returns (entry: Entry)
      requires Ascending(chain) && Linked(chain) && Before(chain, r, key)
      requires p <= r && chain[p] == start && i < start.levels && i < chain[0].levels
      ensures entry == chain[LastAt(chain, r, i)]
    {
      ghost var c, q := chain, p;
      entry := start;
      WalkStep(c, q, i, r, key);
      while entry.forward[i] != null && entry.forward[i].key < key
        invariant 0 <= q <= r && c[q] == entry && i < entry.levels == |entry.forward|
        invariant entry.forward[i] == EntryAt(c, NextAt(c, q, i))
        invariant entry.forward[i] != null && entry.forward[i].key < key <==> NextAt(c, q, i) <= r
        decreases r - q
      {
        q := NextAt(c, q, i);
        entry := entry.forward[i];
        WalkStep(c, q, i, r, key);
      }
      LastIsUnique(c, r, i, q);
    }

    /** `SLLocate`: descends from the top level, leaving in `update[i]` the last entry
        below the key on level i, and returns the first entry at or above the key. */
    method Locate(key: nat) returns (found: Entry?, update: seq<Entry?>, ghost r: nat)
      requires Valid()
      ensures |update| == SL_MAX_LEVEL + 1
      ensures magic != SL_LIST_MAGIC ==> found == null && forall i :: 0 <= i < |update| ==> update[i] == null
      ensures magic == SL_LIST_MAGIC ==> Before(chain, r, key) && found == EntryAt(chain, r + 1)
      ensures magic == SL_LIST_MAGIC ==> forall i :: 0 <= i <= level ==> update[i] == chain[LastAt(chain, r, i)]
      ensures magic == SL_LIST_MAGIC ==> (key in Contents() <==> found != null && found.key == key)
      ensures magic == SL_LIST_MAGIC && key in Contents() ==> Contents()[key] == found.value
    {
      update := seq(SL_MAX_LEVEL + 1, _ => null);
      if magic != SL_LIST_MAGIC {
        return null, update, 0;
      }
      ghost var c := chain;
      r := Rank(c, key);
      var i: int := level;
      var entry := head;
      ghost var p: nat := 0;
      while i >= 0
        invariant -1 <= i <= level && |update| == SL_MAX_LEVEL + 1
        invariant p <= r && c[p] == entry && i < entry.levels && 0 < entry.levels
        invariant i < 0 ==> p == LastAt(c, r, 0)
        invariant forall j :: i < j <= level ==> update[j] == c[LastAt(c, r, j)]
      {
        entry := Walk(entry, i, key, p, r);
        p := LastAt(c, r, i);
        update := update[i := entry];
        i := i - 1;
      }
      LastAtBase(c, r, key);
      KeyAt(c, r, key);
      found := entry.forward[0];
    }

    /** The pointer fix-up of `drmSLInsert`, level by level; `at` names the positions of
        the entries in `update`. */
    method LinkTower(e: Entry, update: seq<Entry?>, ghost c: seq<Entry>, ghost f: seq<seq<Entry?>>, ghost at: seq<nat>)
      requires e !in c && Distinct(c) && f == Forwards(c)
      requires |e.forward| == |at| <= |update| && Positions(at, f)
      requires forall i :: 0 <= i < |at| ==> update[i] == c[at[i]]
      modifies c`forward, e`forward
      ensures Forwards(c) == Relinked(f, at, e, |at|)
      ensures e.forward == TowerPointers(f, at)
    {
      RelinkNone(f, at, e);
      for i := 0 to |e.forward|
        invariant |e.forward| == |at| && Forwards(c) == Relinked(f, at, e, i)
        invariant forall j :: 0 <= j < i ==> e.forward[j] == f[at[j]][j]
      {
        ghost var g := Relinked(f, at, e, i);
        assert update[i].forward == g[at[i]];
        forall p | 0 <= p < |c| && p != at[i] ensures c[p] != update[i] {
          assert Apart(c, p, at[i]);
        }
        LinkLevel(e, update[i], i);
        assert Forwards(c) == g[at[i] := g[at[i]][i := e]];
        RelinkStep(f, at, e, i);
      }
    }

    /** `drmSLInsert`: 1 if the key is present, otherwise 0 and the key is added.  The
        outcome does not depend on the generator, which only picks tower heights. */
    method Insert(key: nat, value: nat, rng: RandomState) returns (ret: int, ghost r: nat, ghost e: Entry)
      requires Valid() && rng.Valid()
      modifies `level, `count, `chain, chain`forward, rng`seed
      ensures Valid() && rng.Valid()
      ensures ret == if old(magic) != SL_LIST_MAGIC then -1 else if key in old(Contents()) then 1 else 0
      ensures ret != 0 ==> chain == old(chain)
      ensures ret == 0 ==> fresh(e) && r < |old(chain)| && chain == Splice(old(chain), r, e)
      ensures ret == 0 ==> Contents() == old(Contents())[key := value]
    {
      if magic != SL_LIST_MAGIC {
        return -1, 0, head;
      }
      var found, update;
      found, update, r := Locate(key);
      if found != null && found.key == key {
        return 1, r, head;
      }
      var height := RandomLevel(rng);
      e := AddEntry(key, value, height, update, r);
      ret := 0;
    }

    /** The rest of `drmSLInsert`, for a tower of any height the generator may pick. */
    method AddEntry(key: nat, value: nat, height: nat, path: seq<Entry?>, ghost r: nat) returns (e: Entry)
      requires Valid() && Before(chain, r, key) && key !in Contents() && 1 <= height <= SL_MAX_LEVEL
      requires |path| == SL_MAX_LEVEL + 1
      requires forall i :: 0 <= i <= level ==> path[i] == chain[LastAt(chain, r, i)]
      modifies `level, `count, `chain, chain`forward
      ensures fresh(e) && chain == Splice(old(chain), r, e)
      ensures Valid()
      ensures Contents() == old(Contents())[key := value]
    {
      var lv, update := height, path;
      ghost var c, f, oldLevel := chain, Forwards(chain), level;
      if lv > level {
        level := level + 1;
        lv := level;
        update := update[lv := head];
      }
      e := new Entry(lv, key, value);
      ghost var at := LastPositionsUpTo(c, r, lv + 1);
      InsertReady(c, f, r, oldLevel, lv, update, at);
      LinkTower(e, update, c, f, at);
      CountEntry(e, f, r, at, oldLevel);
    }

    /** The last step of `drmSLInsert`: with the tower linked in, the entry is counted. */
    method CountEntry(e: Entry, ghost f: seq<seq<Entry?>>, ghost r: nat, ghost at: seq<nat>, ghost oldLevel: nat)
      requires Ascending(chain) && TowersOk(chain, oldLevel) && LinkedVia(chain, f)
      requires chain[0] == head && count == |chain| - 1
      requires Before(chain, r, e.key) && e !in chain && e.key !in MapOf(chain)
      requires e.levels == |at| <= chain[0].levels && LastPositions(chain, r, at) && Positions(at, f)
      requires oldLevel <= level <= oldLevel + 1 && level <= SL_MAX_LEVEL
      requires 1 < e.levels <= level + 1 && (level > oldLevel ==> e.levels == level + 1)
      requires Forwards(chain) == Relinked(f, at, e, |at|) && e.forward == TowerPointers(f, at)
      modifies `count, `chain
      ensures chain == Splice(old(chain), r, e)
      ensures Valid() && Contents() == old(MapOf(chain))[e.key := e.value]
    {
      ghost var c := chain;
      count := count + 1;
      chain := Splice(c, r, e);
      assert Forwards(c) == Relinked(f, at, e, |at|);
      InsertDone(c, f, r, e, at, oldLevel, level);
    }

    /** `drmSLDelete`: 1 if the key is absent, otherwise 0 and the key is removed. */
    method Delete(key: nat) returns (ret: int, ghost r: nat)
      requires Valid()
      modifies `level, `count, `chain, chain`forward
      ensures Valid()
      ensures ret == if old(magic) != SL_LIST_MAGIC then -1 else if key in old(Contents()) then 0 else 1
      ensures ret != 0 ==> chain == old(chain)
      ensures ret == 0 ==> r + 1 < |old(chain)| && old(chain)[r + 1].key == key && chain == Without(old(chain), r)
      ensures ret == 0 ==> Contents() == old(Contents()) - {key}
    {
      if magic != SL_LIST_MAGIC {
        return -1, 0;
      }
      var found, update;
      found, update, r := Locate(key);
      if found == null || found.key != key {
        return 1, r;
      }
      RemoveEntry(found, update, r);
      ret := 0;
    }

    /** The rest of `drmSLDelete` once the entry is found. */
    method RemoveEntry(e: Entry, update: seq<Entry?>, ghost r: nat)
      requires Valid() && Before(chain, r, e.key) && r + 1 < |chain| && chain[r + 1] == e
      requires |update| == SL_MAX_LEVEL + 1
      requires forall i :: 0 <= i <= level ==> update[i] == chain[LastAt(chain, r, i)]
      modifies `level, `count, `chain, chain`forward
      ensures Valid()
      ensures chain == Without(old(chain), r)
      ensures Contents() == old(Contents()) - {e.key}
    {
      ghost var c, f := chain, Forwards(chain);
      ghost var at := LastPositionsUpTo(c, r, level + 1);
      DeleteReady(c, f, r, e, at, level);
      UnlinkTower(e, update, level, c, f, at);
      UncountEntry(e, f, r, at);
    }

    /** The pointer fix-up of `drmSLDelete`, level by level. */
    method UnlinkTower(e: Entry, update: seq<Entry?>, top: nat, ghost c: seq<Entry>, ghost f: seq<seq<Entry?>>,
        ghost at: seq<nat>)
      requires Distinct(c) && f == Forwards(c) && top + 1 == |at| <= |update| && Positions(at, f)
      requires forall i :: 0 <= i < |at| ==> update[i] == c[at[i]] && c[at[i]] != e
      requires forall i :: 0 <= i < |at| && f[at[i]][i] == e ==> i < |e.forward|
      modifies c`forward
      ensures Forwards(c) == Unlinked(f, at, e, old(e.forward), |at|)
    {
      ghost var fe := e.forward;
      UnlinkNone(f, at, e, fe);
      for i := 0 to top + 1
        invariant Forwards(c) == Unlinked(f, at, e, fe, i) && e.forward == fe
      {
        ghost var g := Unlinked(f, at, e, fe, i);
        assert update[i].forward == g[at[i]];
        forall p | 0 <= p < |c| && p != at[i] ensures c[p] != update[i] {
          assert Apart(c, p, at[i]);
        }
        UnlinkStep(f, at, e, fe, i);
        if update[i].forward[i] == e {
          update[i].forward := update[i].forward[i := e.forward[i]];
          assert Forwards(c) == g[at[i] := g[at[i]][i := fe[i]]];
        }
      }
    }

    method UncountEntry(e: Entry, ghost f: seq<seq<Entry?>>, ghost r: nat, ghost at: seq<nat>)
      requires Ascending(chain) && TowersFit(chain, level) && LinkedVia(chain, f)
      requires Before(chain, r, e.key) && r + 1 < |chain| && chain[r + 1] == e
      requires count == |chain| - 1 && chain[0] == head
      requires |at| == level + 1 && LastPositions(chain, r, at)
      requires Forwards(chain) == Unlinked(f, at, e, f[r + 1], |at|)
      modifies `level, `count, `chain
      ensures chain == Without(old(chain), r)
      ensures Valid() && Contents() == old(MapOf(chain)) - {e.key}
    {
      ghost var c := chain;
      chain := Without(c, r);
      count := count - 1;
      assert Forwards(c) == Unlinked(f, at, e, f[r + 1], |at|);
      DeleteDone(c, f, r, e, at, level);
      Shrink();
    }

    /** The end of `drmSLDelete`: the level drops to the highest tower left. */
    method Shrink()
      requires |chain| > 0 && TowersFit(chain, level) && Linked(chain) && chain[0] == head
      modifies `level
      ensures TowersOk(chain, level)
    {
      assert RowOk(chain, head.forward, 0);
      while level != 0 && head.forward[level] == null
        invariant TowersFit(chain, level)
        decreases level
      {
        NextAtSkips(chain, 0, level);
        level := level - 1;
      }
    }

    /** `drmSLLookup`: hands back the entry itself, not its value. */
    method Lookup(key: nat) returns (ret: int, entry: Entry?)
      requires Valid()
      ensures magic != SL_LIST_MAGIC ==> ret == -1 && entry == null
      ensures magic == SL_LIST_MAGIC ==> ret == (if key in Contents() then 0 else -1) && (ret == 0 <==> entry != null)
      ensures ret == 0 ==> entry.key == key && entry.value == Contents()[key]
    {
      var found, update, r := Locate(key);
      if found != null && found.key == key {
        return 0, found;
      }
      return -1, null;
    }

    /** `drmSLLookupNeighbors`: the greatest key below and the least key at or above.  With
        no key below it reports the head's key 0 and value NULL, and still counts it. */
    method LookupNeighbors(key: nat)
      returns (ret: int, prevKey: nat, prevValue: nat, nextKey: nat, nextValue: nat)
      requires Valid()
      ensures magic != SL_LIST_MAGIC ==> ret == 0 && prevKey == nextKey == key && prevValue == nextValue == 0
      ensures magic == SL_LIST_MAGIC ==> GreatestBelow(Contents(), key, prevKey, prevValue)
      ensures magic == SL_LIST_MAGIC ==> ret == if exists k :: k in Contents() && key <= k then 2 else 1
      ensures ret == 2 ==> LeastFrom(Contents(), key, nextKey, nextValue)
      ensures ret != 2 ==> nextKey == key && nextValue == 0
    {
      var found, update, r := Locate(key);
      ret, prevKey, nextKey, prevValue, nextValue := 0, key, key, 0, 0;
      if update[0] != null {
        LastAtBase(chain, r, key);
        NeighborsAt(chain, r, key);
        prevKey, prevValue, ret := update[0].key, update[0].value, 1;
        if update[0].forward[0] != null {
          nextKey, nextValue, ret := update[0].forward[0].key, update[0].forward[0].value, 2;
        }
      }
    }

    /** The iteration position is an entry still in the list, or the end. */
    ghost predicate IterValid()
      reads this
    {
      p0 != null ==> exists q :: 0 < q < |chain| && chain[q] == p0
    }

    /** `drmSLNext`; `key` and `value` are meaningful when it returns 1. */
    method NextEntry() returns (ret: int, key: nat, value: nat)
      requires Valid() && IterValid()
      modifies `p0
      ensures IterValid()
      ensures ret == if magic != SL_LIST_MAGIC then -1 else if old(p0) == null then 0 else 1
      ensures ret != 1 ==> p0 == old(p0)
      ensures ret == 1 ==> key == old(p0).key && value == old(p0).value
      ensures ret == 1 ==> forall q :: 0 < q < |chain| && chain[q] == old(p0) ==> p0 == EntryAt(chain, q + 1)
    {
      ret, key, value := 0, 0, 0;
      if magic != SL_LIST_MAGIC {
        return -1, 0, 0;
      }
      var entry := p0;
      if entry != null {
        ghost var q :| 0 < q < |chain| && chain[q] == entry;
        BaseLink(chain, q);
        p0 := entry.forward[0];
        PositionUnique(chain, q);
        return 1, entry.key, entry.value;
      }
      p0 := null;
    }

    /** `drmSLFirst`. */
    method FirstEntry() returns (ret: int, key: nat, value: nat)
      requires Valid()
      modifies `p0
      ensures magic == SL_LIST_MAGIC ==> IterValid() && ret == (if |chain| > 1 then 1 else 0)
      ensures magic == SL_LIST_MAGIC && ret == 1 ==>
        key == chain[1].key && value == chain[1].value && p0 == EntryAt(chain, 2)
      ensures magic != SL_LIST_MAGIC ==> ret == -1 && p0 == old(p0)
    {
      if magic != SL_LIST_MAGIC {
        return -1, 0, 0;
      }
      BaseLink(chain, 0);
      p0 := head.forward[0];
      ret, key, value := NextEntry();
    }

    /** A client's walk with `drmSLFirst` and `drmSLNext` lists every pair once, in
        ascending order of keys. */
    method Traverse() returns (items: seq<(nat, nat)>)
      requires Valid() && magic == SL_LIST_MAGIC
      modifies `p0
      ensures items == Items(chain) && p0 == null
    {
      items := [];
      var ret, key, value := FirstEntry();
      ghost var q := 1;
      while ret == 1
        invariant 1 <= q <= |chain| && items == Items(chain)[..q - 1] && IterValid()
        invariant ret == (if q < |chain| then 1 else 0)
        invariant ret == 1 ==> key == chain[q].key && value == chain[q].value && p0 == EntryAt(chain, q + 1)
        invariant ret == 0 ==> p0 == null
        decreases |chain| - q
      {
        ItemsNext(chain, q);
        items := items + [(key, value)];
        ret, key, value := NextEntry();
        q := q + 1;
      }
    }

    /** Any run of inserts, deletes and lookups gives the results and leaves the contents
        that a finite map would, whatever the generator's state. */
    method Run(ops: seq<Op>, rng: RandomState) returns (results: seq<(int, nat)>)
      requires Valid() && rng.Valid() && magic == SL_LIST_MAGIC
      modifies this, chain`forward, rng`seed
      ensures Valid() && rng.Valid()
      ensures Contents() == SpecRun(old(Contents()), ops).0 && results == SpecRun(old(Contents()), ops).1
    {
      results := [];
      assert ops[..|ops|] == ops;
      for i := 0 to |ops|
        invariant Valid() && rng.Valid() && magic == SL_LIST_MAGIC
        invariant forall x :: x in chain ==> x in old(chain) || fresh(x)
        invariant (Contents(), results) == SpecRun(old(Contents()), ops[..i])
      {
        assert ops[..i + 1][..i] == ops[..i];
        forall p | 0 <= p < |chain| ensures chain[p] in old(chain) || fresh(chain[p]) { assert chain[p] in chain; }
        var result := Step(ops[i], rng);
        results := results + [result];
      }
    }

    method Step(op: Op, rng: RandomState) returns (result: (int, nat))
      requires Valid() && rng.Valid() && magic == SL_LIST_MAGIC
      modifies `level, `count, `chain, chain`forward, rng`seed
      ensures Valid() && rng.Valid()
      ensures forall x :: x in chain ==> x in old(chain) || fresh(x)
      ensures (Contents(), result) == SpecStep(old(Contents()), op)
    {
      match op
      case Insert(key, value) =>
        var ret := InsertKey(key, value, rng);
        result := (ret, 0);
      case Delete(key) =>
        var ret := DeleteKey(key);
        result := (ret, 0);
      case Lookup(key) =>
        result := LookupKey(key);
    }

    method InsertKey(key: nat, value: nat, rng: RandomState) returns (ret: int)
      requires Valid() && rng.Valid() && magic == SL_LIST_MAGIC
      modifies `level, `count, `chain, chain`forward, rng`seed
      ensures Valid() && rng.Valid()
      ensures forall x :: x in chain ==> x in old(chain) || fresh(x)
      ensures (Contents(), ret) == if key in old(Contents()) then (old(Contents()), 1)
        else (old(Contents())[key := value], 0)
    {
      ghost var r, e;
      ret, r, e := Insert(key, value, rng);
      if ret == 0 { SpliceMembers(old(chain), r, e); }
    }

    method LookupKey(key: nat) returns (result: (int, nat))
      requires Valid() && magic == SL_LIST_MAGIC
      ensures result == if key in Contents() then (0, Contents()[key]) else (-1, 0)
    {
      var ret, entry := Lookup(key);
      result := (ret, if entry != null then entry.value else 0);
    }

    method DeleteKey(key: nat) returns (ret: int)
      requires Valid() && magic == SL_LIST_MAGIC
      modifies `level, `count, `chain, chain`forward
      ensures Valid()
      ensures forall x :: x in chain ==> x in old(chain)
      ensures (Contents(), ret) == if key in old(Contents()) then (old(Contents()) - {key}, 0) else (old(Contents()), 1)
    {
      ghost var r;
      ret, r := Delete(key);
      if ret == 0 { WithoutAt(old(chain), r); }
    }

    method LinkLevel(e: Entry, u: Entry, i: nat)
      requires e != u && i < |e.forward| && i < |u.forward|
      modifies e`forward, u`forward
      ensures e.forward == old(e.forward)[i := old(u.forward[i])]
      ensures u.forward == old(u.forward)[i := e]
    {
      e.forward := e.forward[i := u.forward[i]];
      u.forward := u.forward[i := e];
    }
  }

  ghost function Items(c: seq<Entry>): seq<(nat, nat)>
    requires |c| > 0
  {
    seq(|c| - 1, i requires 0 <= i < |c| - 1 => (c[i + 1].key, c[i + 1].value))
  }

  /** The pairs in chain order are sorted and are exactly the map. */
  lemma ItemsAreTheMap(c: seq<Entry>)
    requires Ascending(c)
    ensures forall i, j :: 0 <= i < j < |c| - 1 ==> Items(c)[i].0 < Items(c)[j].0
    ensures |Items(c)| == |MapOf(c)|
    ensures forall k: nat, v: nat :: (k, v) in Items(c) <==> k in MapOf(c) && MapOf(c)[k] == v
  {
    forall i, j | 0 <= i < j < |c| - 1 ensures Items(c)[i].0 < Items(c)[j].0 {
      assert KeyLess(c, i + 1, j + 1);
    }
    forall k: nat, v: nat ensures (k, v) in Items(c) <==> k in MapOf(c) && MapOf(c)[k] == v {
      MapPair(c, k, v);
      ItemPair(c, k, v);
    }
    MapSize(c);
  }

  lemma ItemPair(c: seq<Entry>, k: nat, v: nat)
    requires |c| > 0
    ensures (k, v) in Items(c) <==> HasPair(c, k, v)
  {
    if HasPair(c, k, v) {
      var p :| 0 < p < |c| && c[p].key == k && c[p].value == v;
      assert Items(c)[p - 1] == (k, v);
    }
  }

  lemma {:induction false} MapSize(c: seq<Entry>)
    requires Ascending(c)
    ensures |MapOf(c)| == |c| - 1
    decreases |c|
  {
    if |c| > 1 {
      var r := |c| - 2;
      assert Before(c, r, c[r + 1].key) by {
        if r > 0 { assert KeyLess(c, r, r + 1); }
      }
      WithoutMap(c, r);
      MapSize(Without(c, r));
      KeyAt(c, r, c[r + 1].key);
      assert MapOf(c).Keys == MapOf(Without(c, r)).Keys + {c[r + 1].key};
    } else {
      assert MapOf(c) == map[];
    }
  }

  /** The greatest key below `key` with its value, or the head's 0 and NULL. */
  ghost predicate GreatestBelow(m: map<nat, nat>, key: nat, k: nat, v: nat) {
    if exists j :: j in m && j < key
    then k in m && m[k] == v && k < key && forall j :: j in m && j < key ==> j <= k
    else k == 0 && v == 0
  }

  ghost predicate LeastFrom(m: map<nat, nat>, key: nat, k: nat, v: nat) {
    k in m && m[k] == v && key <= k && forall j :: j in m && key <= j ==> k <= j
  }

  lemma NeighborsAt(c: seq<Entry>, r: nat, key: nat)
    requires Ascending(c) && Before(c, r, key) && c[0].key == 0 && c[0].value == 0
    ensures GreatestBelow(MapOf(c), key, c[r].key, c[r].value)
    ensures r + 1 < |c| ==> LeastFrom(MapOf(c), key, c[r + 1].key, c[r + 1].value)
    ensures (exists k :: k in MapOf(c) && key <= k) <==> r + 1 < |c|
  {
    MapKeys(c);
    forall j | j in MapOf(c) ensures j < key ==> r > 0 && j <= c[r].key {
      var p :| 0 < p < |c| && c[p].key == j;
      assert p < r ==> KeyLess(c, p, r);
    }
    forall j | j in MapOf(c) ensures key <= j ==> r + 1 < |c| && c[r + 1].key <= j {
      var p :| 0 < p < |c| && c[p].key == j;
      assert r + 1 < p ==> KeyLess(c, r + 1, p);
      assert p < r ==> KeyLess(c, p, r);
    }
  }

  lemma MapKeys(c: seq<Entry>)
    requires Ascending(c)
    ensures forall p :: 0 < p < |c| ==> c[p].key in MapOf(c) && MapOf(c)[c[p].key] == c[p].value
  {
    forall p | 0 < p < |c| ensures c[p].key in MapOf(c) && MapOf(c)[c[p].key] == c[p].value {
      assert HasPair(c, c[p].key, c[p].value);
      MapPair(c, c[p].key, c[p].value);
    }
  }

  lemma BaseLink(c: seq<Entry>, q: nat)
    requires Linked(c) && q < |c|
    requires forall m :: 0 <= m < |c| ==> c[m].levels > 0
    ensures |c[q].forward| > 0 && c[q].forward[0] == EntryAt(c, q + 1)
  {
    assert RowOk(c, c[q].forward, q);
    NextAtUnique(c, q, 0, q + 1);
  }

  lemma PositionUnique(c: seq<Entry>, q: nat)
    requires Ascending(c) && q < |c|
    ensures forall p :: 0 <= p < |c| && c[p] == c[q] ==> p == q
  {
    AscendingDistinct(c);
    forall p | 0 <= p < |c| && p != q ensures c[p] != c[q] {
      assert Apart(c, p, q);
    }
  }

  // ----- the levels as lists

  /** From position `p` the pointers of level `i` lead through the positions `ps`, in
      ascending order of keys, and then end. */
  ghost predicate Threaded(c: seq<Entry>, i: nat, p: nat, ps: seq<nat>)
    reads c
    decreases |ps|
  {
    && p < |c| && i < |c[p].forward|
    && if ps == [] then c[p].forward[i] == null
       else
         && p < ps[0] < |c| && c[p].forward[i] == c[ps[0]]
         && (p > 0 ==> c[p].key < c[ps[0]].key)
         && Threaded(c, i, ps[0], ps[1..])
  }

  /** The positions in `ps` are those after `p` whose towers reach level `i`. */
  ghost predicate Reach(c: seq<Entry>, i: nat, p: nat, ps: seq<nat>) {
    forall m :: m in ps <==> p < m < |c| && c[m].levels > i
  }

  lemma {:induction false} ThreadFrom(c: seq<Entry>, i: nat, p: nat) returns (ps: seq<nat>)
    requires Ascending(c) && Linked(c) && p < |c| && i < c[p].levels
    ensures Threaded(c, i, p, ps) && Reach(c, i, p, ps)
    decreases |c| - p
  {
    assert RowOk(c, c[p].forward, p);
    NextAtSkips(c, p, i);
    var q := NextAt(c, p, i);
    if q == |c| {
      ps := [];
    } else {
      var rest := ThreadFrom(c, i, q);
      ps := [q] + rest;
      assert ps[1..] == rest;
      if p > 0 { assert KeyLess(c, p, q); }
      forall m ensures m in ps <==> p < m < |c| && c[m].levels > i {
        assert m in ps <==> m == q || m in rest;
      }
    }
  }

  /** Read level by level, the pointers of a valid list are a stack of sorted linked
      lists: each level is threaded through exactly the towers that reach it, so it is
      contained in the level below, and it is empty above `level` but not at it. */
  lemma LevelsAreSortedLists(list: SkipList, i: nat) returns (ps: seq<nat>)
    requires list.Valid() && i <= SL_MAX_LEVEL
    ensures Threaded(list.chain, i, 0, ps) && list.chain[0] == list.head
    ensures forall m :: m in ps <==> 0 < m < |list.chain| && list.chain[m].levels > i
    ensures 0 < i <= list.level ==> ps != []
    ensures i > list.level ==> ps == []
  {
    var c := list.chain;
    ps := ThreadFrom(c, i, 0);
    if 0 < i <= list.level {
      var p :| 0 < p < |c| && c[p].levels == list.level + 1;
      assert p in ps;
    }
    if ps != [] { assert ps[0] in ps; }
  }

  /** Deleting leaves an iteration position in the list exactly when it was not at the
      deleted entry. */
  lemma IterationAfterDelete(c: seq<Entry>, r: nat, q: nat)
    requires Ascending(c) && r + 1 < |c| && 0 < q < |c|
    ensures c[q] in Without(c, r) <==> c[q] != c[r + 1]
  {
    WithoutEntry(c, r);
    WithoutAt(c, r);
    if c[q] != c[r + 1] {
      assert c[q] == Without(c, r)[if q <= r then q else q - 1];
    }
  }

  ghost predicate Apart(c: seq<Entry>, p: nat, q: nat)
    requires p < |c| && q < |c|
  {
    c[p] != c[q]
  }

  ghost predicate Distinct(c: seq<Entry>) {
    forall p, q :: 0 <= p < |c| && 0 <= q < |c| && p != q ==> Apart(c, p, q)
  }

  /** Position `at[i]` has a pointer at level `i`. */
  ghost predicate Positions(at: seq<nat>, f: seq<seq<Entry?>>) {
    forall i :: 0 <= i < |at| ==> at[i] < |f| && i < |f[at[i]]|
  }

  /** The pointers a new tower takes over from the entries before it. */
  ghost function TowerPointers(f: seq<seq<Entry?>>, at: seq<nat>): seq<Entry?>
    requires Positions(at, f)
  {
    seq(|at|, i requires 0 <= i < |at| => f[at[i]][i])
  }

  /** All pointers once the levels below `n` lead to `e` from the positions `at`. */
  ghost function Relinked(f: seq<seq<Entry?>>, at: seq<nat>, e: Entry, n: nat): (g: seq<seq<Entry?>>)
    requires n <= |at|
    ensures |g| == |f| && forall p :: 0 <= p < |f| ==> |g[p]| == |f[p]|
  {
    seq(|f|, p requires 0 <= p < |f| =>
      seq(|f[p]|, i requires 0 <= i < |f[p]| => if i < n && p == at[i] then e else f[p][i]))
  }

  lemma RelinkNone(f: seq<seq<Entry?>>, at: seq<nat>, e: Entry)
    ensures Relinked(f, at, e, 0) == f
  {
    forall p | 0 <= p < |f| ensures Relinked(f, at, e, 0)[p] == f[p] {}
  }

  lemma RelinkStep(f: seq<seq<Entry?>>, at: seq<nat>, e: Entry, i: nat)
    requires i < |at| && Positions(at, f)
    ensures var g := Relinked(f, at, e, i); Relinked(f, at, e, i + 1) == g[at[i] := g[at[i]][i := e]]
  {
    var g, h := Relinked(f, at, e, i), Relinked(f, at, e, i + 1);
    forall p | 0 <= p < |f| && p != at[i] ensures h[p] == g[p] {}
    assert h[at[i]] == g[at[i]][i := e];
  }

  /** `at` holds the last position up to `r` on each level. */
  ghost predicate LastPositions(c: seq<Entry>, r: nat, at: seq<nat>)
    requires r < |c| && |at| <= c[0].levels
  {
    forall i :: 0 <= i < |at| ==> at[i] == LastAt(c, r, i)
  }

  /** The chain without the entry after position `r`. */
  ghost function Without(c: seq<Entry>, r: nat): (d: seq<Entry>)
    requires r + 1 < |c|
    ensures r < |d| == |c| - 1 && d[0] == c[0]
  {
    c[..r + 1] + c[r + 2..]
  }

  lemma WithoutAt(c: seq<Entry>, r: nat)
    requires r + 1 < |c|
    ensures var d := Without(c, r); forall p {:trigger d[p]} :: 0 <= p < |d| ==> d[p] == c[if p <= r then p else p + 1]
  {
  }

  lemma WithoutSplice(c: seq<Entry>, r: nat)
    requires r + 1 < |c|
    ensures Splice(Without(c, r), r, c[r + 1]) == c
  {
  }

  /** All pointers once those leading from the positions `at` to `e` on the levels below
      `n` have been replaced by the pointers of `e`. */
  ghost function Unlinked(f: seq<seq<Entry?>>, at: seq<nat>, e: Entry, fe: seq<Entry?>, n: nat): (g: seq<seq<Entry?>>)
    requires n <= |at|
    ensures |g| == |f| && forall p :: 0 <= p < |f| ==> |g[p]| == |f[p]|
  {
    seq(|f|, p requires 0 <= p < |f| =>
      seq(|f[p]|, i requires 0 <= i < |f[p]| =>
        if i < n && p == at[i] && f[p][i] == e && i < |fe| then fe[i] else f[p][i]))
  }

  lemma UnlinkNone(f: seq<seq<Entry?>>, at: seq<nat>, e: Entry, fe: seq<Entry?>)
    ensures Unlinked(f, at, e, fe, 0) == f
  {
    forall p | 0 <= p < |f| ensures Unlinked(f, at, e, fe, 0)[p] == f[p] {}
  }

  lemma UnlinkStep(f: seq<seq<Entry?>>, at: seq<nat>, e: Entry, fe: seq<Entry?>, i: nat)
    requires i < |at| && Positions(at, f) && (f[at[i]][i] == e ==> i < |fe|)
    ensures var g := Unlinked(f, at, e, fe, i);
            && g[at[i]][i] == f[at[i]][i]
            && Unlinked(f, at, e, fe, i + 1) == if g[at[i]][i] == e then g[at[i] := g[at[i]][i := fe[i]]] else g
  {
    var g, h := Unlinked(f, at, e, fe, i), Unlinked(f, at, e, fe, i + 1);
    forall p | 0 <= p < |f| && p != at[i] ensures h[p] == g[p] {}
    if g[at[i]][i] == e {
      assert h[at[i]] == g[at[i]][i := fe[i]];
    } else {
      assert h[at[i]] == g[at[i]];
    }
  }

  lemma {:induction false} LastAtPrefix(d: seq<Entry>, r: nat, e: Entry, q: nat, i: nat)
    requires q <= r < |d| && d[0].levels > i
    ensures LastAt(Splice(d, r, e), q, i) == LastAt(d, q, i)
    decreases q
  {
    assert Splice(d, r, e)[q] == d[q];
    if d[q].levels <= i { LastAtPrefix(d, r, e, q - 1, i); }
  }

  lemma DeleteReady(c: seq<Entry>, f: seq<seq<Entry?>>, r: nat, e: Entry, at: seq<nat>, level: nat)
    requires Ascending(c) && Linked(c) && TowersFit(c, level) && f == Forwards(c)
    requires r + 1 < |c| && c[r + 1] == e && |at| == level + 1 && LastPositions(c, r, at)
    ensures Distinct(c) && LinkedVia(c, f) && Positions(at, f) && e.forward == f[r + 1]
    ensures forall i :: 0 <= i < |at| ==> c[at[i]] != e
    ensures forall i :: 0 <= i < |at| && f[at[i]][i] == e ==> i < |e.forward|
  {
    AscendingDistinct(c);
    LinkedIsVia(c);
    LastPositionsFit(c, f, r, at);
    assert RowOk(c, f[r + 1], r + 1);
    forall i | 0 <= i < |at| ensures c[at[i]] != e && (f[at[i]][i] == e ==> i < |e.forward|) {
      assert Apart(c, at[i], r + 1);
      PointerToEntry(c, f, r, at[i], i);
    }
  }

  lemma PointerToEntry(c: seq<Entry>, f: seq<seq<Entry?>>, r: nat, p: nat, i: nat)
    requires LinkedVia(c, f) && Distinct(c) && r + 1 < |c| && p < |c| && i < |f[p]|
    ensures f[p][i] == c[r + 1] <==> NextAt(c, p, i) == r + 1
  {
    assert RowOk(c, f[p], p);
    var q := NextAt(c, p, i);
    if q < |c| && q != r + 1 { assert Apart(c, q, r + 1); }
  }

  lemma UnlinkedRowBelow(d: seq<Entry>, f: seq<seq<Entry?>>, r: nat, e: Entry, at: seq<nat>, p: nat)
    requires p <= r < |d|
    requires var c := Splice(d, r, e);
      && LinkedVia(c, f) && Distinct(c) && |at| <= c[0].levels && LastPositions(c, r, at) && e.levels <= |at|
    ensures RowOk(d, Unlinked(f, at, e, f[r + 1], |at|)[p], p)
  {
    var c, g := Splice(d, r, e), Unlinked(f, at, e, f[r + 1], |at|);
    assert RowOk(c, f[p], p) && RowOk(c, f[r + 1], r + 1);
    forall i | 0 <= i < |f[p]| ensures g[p][i] == EntryAt(d, NextAt(d, p, i)) {
      SpliceNextBelow(d, r, e, p, i);
      PointerToEntry(c, f, r, p, i);
      if NextAt(c, p, i) == r + 1 {
        RedirectedPointer(d, p, r, i);
        LastThenNext(d, r, i);
        LastAtPrefix(d, r, e, r, i);
        SpliceNextAbove(d, r, e, r, i);
      }
    }
  }

  lemma UnlinkedRowAbove(d: seq<Entry>, f: seq<seq<Entry?>>, r: nat, e: Entry, at: seq<nat>, p: nat)
    requires r < p < |d|
    requires var c := Splice(d, r, e);
      && LinkedVia(c, f) && |at| <= c[0].levels && LastPositions(c, r, at)
    ensures RowOk(d, Unlinked(f, at, e, f[r + 1], |at|)[p + 1], p)
  {
    var c, g := Splice(d, r, e), Unlinked(f, at, e, f[r + 1], |at|);
    assert RowOk(c, f[p + 1], p + 1);
    forall i | 0 <= i < |f[p + 1]| ensures g[p + 1][i] == EntryAt(d, NextAt(d, p, i)) {
      SpliceNextAbove(d, r, e, p, i);
    }
  }

  /** Unlinking keeps every remaining pointer right. */
  lemma DeleteLinked(c: seq<Entry>, f: seq<seq<Entry?>>, r: nat, e: Entry, at: seq<nat>)
    requires r + 1 < |c| && c[r + 1] == e && LinkedVia(c, f) && Distinct(c)
    requires |at| <= c[0].levels && LastPositions(c, r, at) && e.levels <= |at|
    requires Forwards(c) == Unlinked(f, at, e, f[r + 1], |at|)
    ensures Linked(Without(c, r))
  {
    var d := Without(c, r);
    WithoutSplice(c, r);
    forall p | 0 <= p < |d| ensures RowOk(d, d[p].forward, p) {
      if p <= r {
        UnlinkedRowBelow(d, f, r, e, at, p);
        assert d[p] == c[p] && Forwards(c)[p] == d[p].forward;
      } else {
        UnlinkedRowAbove(d, f, r, e, at, p);
        assert d[p] == c[p + 1] && Forwards(c)[p + 1] == d[p].forward;
      }
    }
  }

  lemma WithoutAscending(c: seq<Entry>, r: nat)
    requires Ascending(c) && r + 1 < |c|
    ensures Ascending(Without(c, r))
  {
    var d := Without(c, r);
    WithoutAt(c, r);
    forall p, q | 0 < p < q < |d| ensures KeyLess(d, p, q) {
      assert KeyLess(c, if p <= r then p else p + 1, if q <= r then q else q + 1);
    }
  }

  lemma WithoutEntry(c: seq<Entry>, r: nat)
    requires Ascending(c) && r + 1 < |c|
    ensures c[r + 1] !in Without(c, r)
    ensures r + 1 < |Without(c, r)| ==> Without(c, r)[r + 1].key != c[r + 1].key
  {
    var d := Without(c, r);
    AscendingDistinct(c);
    WithoutAt(c, r);
    forall p | 0 <= p < |d| ensures d[p] != c[r + 1] {
      assert Apart(c, if p <= r then p else p + 1, r + 1);
    }
    if r + 1 < |d| { assert KeyLess(c, r + 1, r + 2); }
  }

  lemma WithoutBefore(c: seq<Entry>, r: nat, key: nat)
    requires r + 1 < |c| && Before(c, r, key)
    ensures Before(Without(c, r), r, key)
  {
    WithoutAt(c, r);
  }

  lemma WithoutMap(c: seq<Entry>, r: nat)
    requires Ascending(c) && r + 1 < |c| && Before(c, r, c[r + 1].key)
    ensures Ascending(Without(c, r)) && MapOf(Without(c, r)) == MapOf(c) - {c[r + 1].key}
  {
    WithoutAscending(c, r);
    WithoutEntry(c, r);
    WithoutBefore(c, r, c[r + 1].key);
    WithoutSplice(c, r);
    SpliceMap(Without(c, r), r, c[r + 1]);
    UpdateThenRemove(MapOf(Without(c, r)), c[r + 1].key, c[r + 1].value);
  }

  lemma UpdateThenRemove(m: map<nat, nat>, k: nat, v: nat)
    requires k !in m
    ensures m[k := v] - {k} == m
  {
  }

  lemma DeleteDone(c: seq<Entry>, f: seq<seq<Entry?>>, r: nat, e: Entry, at: seq<nat>, level: nat)
    requires Ascending(c) && TowersFit(c, level) && LinkedVia(c, f) && r + 1 < |c| && c[r + 1] == e
    requires Before(c, r, e.key)
    requires |at| == level + 1 && LastPositions(c, r, at)
    requires Forwards(c) == Unlinked(f, at, e, f[r + 1], |at|)
    ensures var d := Without(c, r);
      Ascending(d) && TowersFit(d, level) && Linked(d) && MapOf(d) == MapOf(c) - {e.key}
  {
    AscendingDistinct(c);
    DeleteLinked(c, f, r, e, at);
    WithoutMap(c, r);
    WithoutAt(c, r);
  }

  ghost function LastPositionsUpTo(c: seq<Entry>, r: nat, n: nat): (at: seq<nat>)
    requires r < |c| && n <= c[0].levels
    ensures |at| == n && LastPositions(c, r, at)
  {
    seq(n, i requires 0 <= i < n => LastAt(c, r, i))
  }

  /** After the optional level raise, `update` names the last entries on every level of
      the new tower. */
  lemma TowerUpdate(c: seq<Entry>, r: nat, level: nat, lv: nat, update: seq<Entry?>, at: seq<nat>)
    requires TowersOk(c, level) && r < |c| && lv <= level + 1 && lv <= SL_MAX_LEVEL
    requires |update| == SL_MAX_LEVEL + 1 && |at| == lv + 1 && LastPositions(c, r, at)
    requires forall i :: 0 <= i <= level && i <= lv ==> update[i] == c[LastAt(c, r, i)]
    requires lv == level + 1 ==> update[lv] == c[0]
    ensures forall i :: 0 <= i <= lv ==> update[i] == c[at[i]]
  {
    if lv == level + 1 {
      assert LastAt(c, r, lv) == 0;
    }
  }

  lemma AscendingDistinct(c: seq<Entry>)
    requires Ascending(c)
    ensures Distinct(c)
  {
    forall p, q | 0 <= p < |c| && 0 <= q < |c| && p != q ensures Apart(c, p, q) {
      if 0 < p < q { assert KeyLess(c, p, q); }
      if 0 < q < p { assert KeyLess(c, q, p); }
    }
  }

  lemma ForwardsSplice(c: seq<Entry>, r: nat, e: Entry)
    requires r < |c|
    ensures Forwards(Splice(c, r, e)) == Splice(Forwards(c), r, e.forward)
  {
  }

  lemma SpliceTowers(c: seq<Entry>, r: nat, e: Entry, level: nat, raised: nat)
    requires TowersOk(c, level) && r < |c| && level <= raised <= level + 1 && raised <= SL_MAX_LEVEL
    requires 1 < e.levels <= raised + 1 && (raised > level ==> e.levels == raised + 1)
    ensures TowersOk(Splice(c, r, e), raised)
  {
    var s := Splice(c, r, e);
    if raised > level {
      assert s[r + 1].levels == raised + 1;
    } else if level > 0 {
      var p :| 0 < p < |c| && c[p].levels == level + 1;
      assert s[if p <= r then p else p + 1] == c[p];
    }
  }

  lemma InsertReady(c: seq<Entry>, f: seq<seq<Entry?>>, r: nat, level: nat, lv: nat, update: seq<Entry?>, at: seq<nat>)
    requires Ascending(c) && Linked(c) && TowersOk(c, level) && f == Forwards(c) && r < |c|
    requires lv <= level + 1 && lv <= SL_MAX_LEVEL
    requires |update| == SL_MAX_LEVEL + 1 && |at| == lv + 1 && LastPositions(c, r, at)
    requires forall i :: 0 <= i <= level && i <= lv ==> update[i] == c[LastAt(c, r, i)]
    requires lv == level + 1 ==> update[lv] == c[0]
    ensures Distinct(c) && LinkedVia(c, f) && Positions(at, f)
    ensures forall i :: 0 <= i <= lv ==> update[i] == c[at[i]]
  {
    AscendingDistinct(c);
    LinkedIsVia(c);
    TowerUpdate(c, r, level, lv, update, at);
    LastPositionsFit(c, f, r, at);
  }

  lemma LastPositionsFit(c: seq<Entry>, f: seq<seq<Entry?>>, r: nat, at: seq<nat>)
    requires LinkedVia(c, f) && r < |c| && |at| <= c[0].levels && LastPositions(c, r, at)
    ensures Positions(at, f)
  {
    forall i | 0 <= i < |at| ensures at[i] < |f| && i < |f[at[i]]| {
      assert RowOk(c, f[at[i]], at[i]);
    }
  }

  lemma InsertDone(c: seq<Entry>, f: seq<seq<Entry?>>, r: nat, e: Entry, at: seq<nat>, level: nat, raised: nat)
    requires Ascending(c) && TowersOk(c, level) && LinkedVia(c, f) && Before(c, r, e.key) && e !in c
    requires e.key !in MapOf(c)
    requires e.levels == |at| <= c[0].levels && LastPositions(c, r, at) && Positions(at, f)
    requires level <= raised <= level + 1 && raised <= SL_MAX_LEVEL
    requires 1 < e.levels <= raised + 1 && (raised > level ==> e.levels == raised + 1)
    requires Forwards(c) == Relinked(f, at, e, |at|) && e.forward == TowerPointers(f, at)
    ensures var s := Splice(c, r, e);
      Ascending(s) && TowersOk(s, raised) && Linked(s) && MapOf(s) == MapOf(c)[e.key := e.value]
  {
    KeyAt(c, r, e.key);
    SpliceLinked(c, f, r, e, at);
    SpliceMap(c, r, e);
    SpliceTowers(c, r, e, level, raised);
    ForwardsSplice(c, r, e);
    LinkedIsVia(Splice(c, r, e));
  }

  lemma ItemsNext(c: seq<Entry>, q: nat)
    requires 1 <= q < |c|
    ensures |Items(c)| == |c| - 1 && Items(c)[..q] == Items(c)[..q - 1] + [(c[q].key, c[q].value)]
  {
  }

  lemma SpliceMembers<T>(c: seq<T>, r: nat, x: T)
    requires r < |c|
    ensures forall y :: y in Splice(c, r, x) ==> y in c || y == x
  {
  }

  ghost function SplicedPointers(f: seq<seq<Entry?>>, r: nat, e: Entry, at: seq<nat>): seq<seq<Entry?>>
    requires r < |f| && Positions(at, f)
  {
    Splice(Relinked(f, at, e, |at|), r, TowerPointers(f, at))
  }

  /** An entry up to `r`: its pointer at level `i` is redirected exactly when it is the
      last one there. */
  lemma RedirectedPointer(c: seq<Entry>, p: nat, r: nat, i: nat)
    requires p <= r < |c| && c[0].levels > i && c[p].levels > i
    ensures p == LastAt(c, r, i) <==> NextAt(c, p, i) > r
  {
    LastThenNext(c, r, i);
    if NextAt(c, p, i) > r { LastIsUnique(c, r, i, p); }
  }

  lemma SplicedRowBelow(c: seq<Entry>, f: seq<seq<Entry?>>, r: nat, e: Entry, at: seq<nat>, p: nat)
    requires |f| == |c| && p <= r < |c| && RowOk(c, f[p], p)
    requires e.levels == |at| <= c[0].levels && LastPositions(c, r, at)
    ensures RowOk(Splice(c, r, e), Relinked(f, at, e, |at|)[p], p)
  {
    forall i | 0 <= i < |f[p]| ensures
        Relinked(f, at, e, |at|)[p][i] == EntryAt(Splice(c, r, e), NextAt(Splice(c, r, e), p, i)) {
      SpliceNextBelow(c, r, e, p, i);
      if i < |at| {
        RedirectedPointer(c, p, r, i);
      }
    }
  }

  lemma SplicedRowNew(c: seq<Entry>, f: seq<seq<Entry?>>, r: nat, e: Entry, at: seq<nat>)
    requires LinkedVia(c, f) && r < |c| && e.levels == |at| <= c[0].levels && LastPositions(c, r, at)
    requires Positions(at, f)
    ensures RowOk(Splice(c, r, e), TowerPointers(f, at), r + 1)
  {
    forall i | 0 <= i < |at| ensures
        TowerPointers(f, at)[i] == EntryAt(Splice(c, r, e), NextAt(Splice(c, r, e), r + 1, i)) {
      assert RowOk(c, f[at[i]], at[i]);
      SpliceNextAbove(c, r, e, r, i);
      LastThenNext(c, r, i);
    }
  }

  lemma SplicedRowAbove(c: seq<Entry>, f: seq<seq<Entry?>>, r: nat, e: Entry, at: seq<nat>, p: nat)
    requires |f| == |c| && r < p < |c| && RowOk(c, f[p], p)
    requires e.levels == |at| <= c[0].levels && LastPositions(c, r, at)
    ensures RowOk(Splice(c, r, e), Relinked(f, at, e, |at|)[p], p + 1)
  {
    forall i | 0 <= i < |f[p]| ensures f[p][i] == EntryAt(Splice(c, r, e), NextAt(Splice(c, r, e), p + 1, i)) {
      SpliceNextAbove(c, r, e, p, i);
    }
  }

  /** Relinking the towers at `at` around `e` keeps every pointer right. */
  lemma SpliceLinked(c: seq<Entry>, f: seq<seq<Entry?>>, r: nat, e: Entry, at: seq<nat>)
    requires LinkedVia(c, f) && r < |c| && e.levels == |at| <= c[0].levels && LastPositions(c, r, at)
    requires Positions(at, f)
    ensures LinkedVia(Splice(c, r, e), SplicedPointers(f, r, e, at))
  {
    var s, h := Splice(c, r, e), SplicedPointers(f, r, e, at);
    forall p | 0 <= p < |s| ensures RowOk(s, h[p], p) {
      if p <= r {
        SplicedRowBelow(c, f, r, e, at, p);
      } else if p == r + 1 {
        SplicedRowNew(c, f, r, e, at);
      } else {
        SplicedRowAbove(c, f, r, e, at, p - 1);
      }
    }
  }

  // ----- the map a chain stands for

  lemma KeyPosition(c: seq<Entry>, r: nat, key: nat, p: nat)
    requires Ascending(c) && Before(c, r, key) && 0 < p < |c|
    ensures c[p].key == key <==> p == r + 1 && c[r + 1].key == key
  {
    assert p < r ==> KeyLess(c, p, r);
    assert r + 1 < p ==> KeyLess(c, r + 1, p);
  }

  lemma KeyAt(c: seq<Entry>, r: nat, key: nat)
    requires Ascending(c) && Before(c, r, key)
    ensures key in MapOf(c) <==> r + 1 < |c| && c[r + 1].key == key
    ensures key in MapOf(c) ==> MapOf(c)[key] == c[r + 1].value
  {
    forall p | 0 < p < |c| ensures c[p].key == key <==> p == r + 1 && c[r + 1].key == key {
      KeyPosition(c, r, key, p);
    }
  }

  ghost predicate HasPair(c: seq<Entry>, k: nat, v: nat) {
    exists p :: 0 < p < |c| && c[p].key == k && c[p].value == v
  }

  lemma MapPair(c: seq<Entry>, k: nat, v: nat)
    requires Ascending(c)
    ensures HasPair(c, k, v) <==> k in MapOf(c) && MapOf(c)[k] == v
  {
    MapConsistent(c);
  }

  lemma SplicePair(c: seq<Entry>, r: nat, e: Entry, k: nat, v: nat)
    requires r < |c|
    ensures HasPair(Splice(c, r, e), k, v) <==> (k == e.key && v == e.value) || HasPair(c, k, v)
  {
    var s := Splice(c, r, e);
    assert s[r + 1] == e;
    if HasPair(c, k, v) {
      var p :| 0 < p < |c| && c[p].key == k && c[p].value == v;
      assert s[if p <= r then p else p + 1] == c[p];
    }
    if HasPair(s, k, v) && !(k == e.key && v == e.value) {
      var p :| 0 < p < |s| && s[p].key == k && s[p].value == v;
      assert s[p] == c[if p <= r then p else p - 1];
    }
  }

  lemma SpliceMap(c: seq<Entry>, r: nat, e: Entry)
    requires Ascending(c) && Before(c, r, e.key) && e !in c && !(r + 1 < |c| && c[r + 1].key == e.key)
    ensures Ascending(Splice(c, r, e)) && e.key !in MapOf(c)
    ensures MapOf(Splice(c, r, e)) == MapOf(c)[e.key := e.value]
  {
    KeyAt(c, r, e.key);
    SpliceAscending(c, r, e);
    var m, n := MapOf(c)[e.key := e.value], MapOf(Splice(c, r, e));
    forall k | k in m ensures k in n && n[k] == m[k] {
      MapPair(c, k, m[k]);
      MapPair(Splice(c, r, e), k, m[k]);
      SplicePair(c, r, e, k, m[k]);
    }
    forall k | k in n ensures k in m {
      MapPair(c, k, n[k]);
      MapPair(Splice(c, r, e), k, n[k]);
      SplicePair(c, r, e, k, n[k]);
    }
  }

  lemma SpliceAscending(c: seq<Entry>, r: nat, e: Entry)
    requires Ascending(c) && Before(c, r, e.key) && e !in c && !(r + 1 < |c| && c[r + 1].key == e.key)
    ensures Ascending(Splice(c, r, e))
  {
    var s := Splice(c, r, e);
    forall p, q | 0 < p < q < |s| ensures KeyLess(s, p, q) {
      var a := if p <= r then p else p - 1;
      var b := if q <= r then q else q - 1;
      assert p != r + 1 ==> s[p] == c[a];
      assert q != r + 1 ==> s[q] == c[b];
      if q == r + 1 {
        assert a < r ==> KeyLess(c, a, r);
      } else if p == r + 1 {
        assert r + 1 < b ==> KeyLess(c, r + 1, b);
      } else {
        assert KeyLess(c, a, b);
      }
    }
  }

  /** What following one pointer tells about the position sought. */
  lemma WalkStep(c: seq<Entry>, p: nat, i: nat, r: nat, key: nat)
    requires Ascending(c) && Linked(c) && Before(c, r, key) && p <= r && i < c[p].levels
    ensures i < |c[p].forward| == c[p].levels
    ensures c[p].forward[i] == EntryAt(c, NextAt(c, p, i))
    ensures c[p].forward[i] != null && c[p].forward[i].key < key <==> NextAt(c, p, i) <= r
  {
    assert RowOk(c, c[p].forward, p);
    var n := NextAt(c, p, i);
    if n < r { assert KeyLess(c, n, r); }
  }

  lemma LastAtBase(c: seq<Entry>, r: nat, key: nat)
    requires Ascending(c) && Linked(c) && Before(c, r, key)
    requires forall m :: 0 <= m < |c| ==> c[m].levels > 0
    ensures LastAt(c, r, 0) == r && |c[r].forward| > 0 && c[r].forward[0] == EntryAt(c, r + 1)
  {
    WalkStep(c, r, 0, r, key);
    NextAtUnique(c, r, 0, r + 1);
  }

  ghost function Rank(c: seq<Entry>, key: nat): (r: nat)
    requires Ascending(c)
    ensures Before(c, r, key)
  {
    RankFrom(c, key, 0)
  }

  lemma RankEnds(c: seq<Entry>, key: nat, p: nat)
    requires Ascending(c) && p < |c| && !(p + 1 < |c| && c[p + 1].key < key)
    ensures forall m :: p < m < |c| ==> key <= c[m].key
  {
    forall m | p < m < |c| ensures key <= c[m].key {
      assert p + 1 < m ==> KeyLess(c, p + 1, m);
    }
  }

  ghost function RankFrom(c: seq<Entry>, key: nat, p: nat): (r: nat)
    requires Ascending(c) && p < |c| && (p == 0 || c[p].key < key)
    ensures Before(c, r, key)
    decreases |c| - p
  {
    if p + 1 < |c| && c[p + 1].key < key then RankFrom(c, key, p + 1)
    else
      RankEnds(c, key, p);
      p
  }
}
