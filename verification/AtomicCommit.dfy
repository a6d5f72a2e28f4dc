/** Atomic modeset requests of xf86drmMode.c as values: the log of property writes, its
    sorting, the one-pass removal of overwritten entries, and the grouped arrays handed to
    the kernel, with the last-writer-wins meaning of each. */
module AtomicCommit {

  const U31: nat := 0x8000_0000
  const U32: nat := 0x1_0000_0000

  datatype Item = Item(objectId: nat, propertyId: nat, value: nat, cursor: nat) {
    function Key(): (nat, nat) { (objectId, propertyId) }
  }

  type Settings = map<(nat, nat), nat>

  // ----- meaning: apply the writes in order

  ghost function Apply(s: seq<Item>): Settings {
    if s == [] then map[]
    else
      var last := s[|s| - 1];
      Apply(s[..|s| - 1])[last.Key() := last.value]
  }

  /** Position `i` is the last write to its key. */
  ghost predicate LastWrite(s: seq<Item>, i: nat) {
    i < |s| && forall j :: i < j < |s| ==> s[j].Key() != s[i].Key()
  }

  /** Applying is last-writer-wins. */
  lemma {:induction false} ApplyIsLastWriter(s: seq<Item>, k: (nat, nat)) returns (i: nat)
    ensures k !in Apply(s) ==> forall j :: 0 <= j < |s| ==> s[j].Key() != k
    ensures k in Apply(s) ==> LastWrite(s, i) && s[i].Key() == k && Apply(s)[k] == s[i].value
  {
    i := 0;
    if s != [] {
      var n := |s| - 1;
      if s[n].Key() == k {
        i := n;
      } else {
        i := ApplyIsLastWriter(s[..n], k);
        if k in Apply(s) {
          assert s[..n][i] == s[i];
          assert forall j :: i < j < n ==> s[j] == s[..n][j];
        } else {
          assert forall j :: 0 <= j < n ==> s[j] == s[..n][j];
        }
      }
    }
  }

  // ----- the comparator

  /** The conversion of a 32-bit unsigned difference to int. */
  function ToInt32(d: int): int {
    var w := d % U32;
    if w < U31 then w else w - U32
  }

  /** `sort_req_list`. */
  function Compare(a: Item, b: Item): int {
    if a.objectId != b.objectId then ToInt32(a.objectId - b.objectId)
    else if a.propertyId != b.propertyId then ToInt32(a.propertyId - b.propertyId)
    else ToInt32(a.cursor - b.cursor)
  }

  predicate Less(a: Item, b: Item) {
    || a.objectId < b.objectId
    || (a.objectId == b.objectId && a.propertyId < b.propertyId)
    || (a.objectId == b.objectId && a.propertyId == b.propertyId && a.cursor < b.cursor)
  }

  /** The subtraction keeps the order of two 32-bit numbers exactly when they differ by
      less than 2^31, or by 2^31 with the smaller one first. */
  lemma DifferenceOrder(x: nat, y: nat)
    requires x < U32 && y < U32
    ensures (ToInt32(x - y) < 0 <==> x < y) <==> x - y < U31 && y - x <= U31
    ensures ToInt32(x - y) == 0 <==> x == y
  {
  }

  predicate Small(a: Item) {
    a.objectId < U31 && a.propertyId < U31 && a.cursor < U31
  }

  lemma CompareIsOrder(a: Item, b: Item)
    requires Small(a) && Small(b)
    ensures Compare(a, b) < 0 <==> Less(a, b)
    ensures Compare(a, b) == 0 <==> !Less(a, b) && !Less(b, a)
  {
    DifferenceOrder(a.objectId, b.objectId);
    DifferenceOrder(a.propertyId, b.propertyId);
    DifferenceOrder(a.cursor, b.cursor);
  }

  /** With identifiers of 2^31 and above the comparator can run in a circle, so that no
      sorted order exists. */
  lemma CompareCircle()
    ensures var a, b, c := Item(1, 1, 0, 0), Item(0x6000_0000, 1, 0, 1), Item(0xc000_0000, 1, 0, 2);
      Compare(a, b) < 0 && Compare(b, c) < 0 && Compare(c, a) < 0
  {
  }

  // ----- sorting

  ghost predicate InOrder(s: seq<Item>, i: nat, j: nat)
    requires i < |s| && j < |s|
  {
    Compare(s[i], s[j]) <= 0
  }

  ghost predicate Sorted(s: seq<Item>) {
    forall i, j :: 0 <= i < j < |s| ==> InOrder(s, i, j)
  }

  ghost predicate CursorBefore(s: seq<Item>, i: nat, j: nat)
    requires i < |s| && j < |s|
  {
    s[i].Key() == s[j].Key() ==> s[i].cursor < s[j].cursor
  }

  /** Writes to the same key stand in the order in which they were recorded. */
  ghost predicate Recorded(s: seq<Item>) {
    forall i, j :: 0 <= i < j < |s| ==> CursorBefore(s, i, j)
  }

  /** Items as a request holds them: small identifiers and the position as cursor. */
  ghost predicate Log(s: seq<Item>) {
    forall i :: 0 <= i < |s| ==> Small(s[i]) && s[i].cursor == i && s[i].objectId != 0 && s[i].propertyId != 0
  }

  /** Every item carries its own position. */
  ghost predicate Numbered(s: seq<Item>) {
    forall i :: 0 <= i < |s| ==> s[i].cursor == i
  }

  ghost predicate AllSmall(s: seq<Item>) {
    forall i :: 0 <= i < |s| ==> Small(s[i])
  }

  ghost predicate CursorsDiffer(s: seq<Item>, i: nat, j: nat)
    requires i < |s| && j < |s|
  {
    s[i].cursor != s[j].cursor
  }

  ghost predicate DistinctCursors(s: seq<Item>) {
    forall i, j :: 0 <= i < j < |s| ==> CursorsDiffer(s, i, j)
  }

  /** What a stable or unstable `qsort` may return for the comparator. */
  ghost predicate IsSortOf(t: seq<Item>, s: seq<Item>) {
    multiset(t) == multiset(s) && Sorted(t)
  }

  function Insert(x: Item, s: seq<Item>): (r: seq<Item>)
    ensures multiset(r) == multiset(s) + multiset{x}
  {
    if s == [] then [x]
    else if Compare(x, s[0]) <= 0 then [x] + s
    else
      assert s == [s[0]] + s[1..];
      [s[0]] + Insert(x, s[1..])
  }

  /** One sorting of the log; `SortUnique` shows it is the only one. */
  function SortItems(s: seq<Item>): (r: seq<Item>)
    ensures multiset(r) == multiset(s)
  {
    if s == [] then []
    else
      assert s == [s[0]] + s[1..];
      Insert(s[0], SortItems(s[1..]))
  }

  lemma MemberOfPermutation(s: seq<Item>, t: seq<Item>, i: nat) returns (j: nat)
    requires multiset(s) == multiset(t) && i < |s|
    ensures j < |t| && t[j] == s[i]
  {
    assert s[i] in multiset(s);
    assert s[i] in multiset(t);
    j :| 0 <= j < |t| && t[j] == s[i];
  }

  lemma PermutationSmall(s: seq<Item>, t: seq<Item>)
    requires multiset(s) == multiset(t) && AllSmall(s)
    ensures AllSmall(t)
  {
    forall i | 0 <= i < |t| ensures Small(t[i]) {
      var j := MemberOfPermutation(t, s, i);
    }
  }

  lemma {:induction false} InsertSorted(x: Item, s: seq<Item>)
    requires Small(x) && AllSmall(s) && Sorted(s)
    ensures Sorted(Insert(x, s))
  {
    var r := Insert(x, s);
    if s != [] {
      forall j | 0 < j < |s| ensures Compare(s[0], s[j]) <= 0 { assert InOrder(s, 0, j); }
      if Compare(x, s[0]) <= 0 {
        forall i, j | 0 <= i < j < |r| ensures InOrder(r, i, j) {
          if i > 0 { assert InOrder(s, i - 1, j - 1); }
          else { CompareTransitive(x, s[0], s[j - 1]); }
        }
      } else {
        TailSorted(s);
        InsertSorted(x, s[1..]);
        CompareTotal(x, s[0]);
        var t := Insert(x, s[1..]);
        forall i, j | 0 <= i < j < |r| ensures InOrder(r, i, j) {
          if i > 0 { assert InOrder(t, i - 1, j - 1); }
          else {
            assert t[j - 1] in multiset(t);
            assert t[j - 1] == x || t[j - 1] in multiset(s[1..]);
            if t[j - 1] != x {
              var k :| 0 <= k < |s[1..]| && s[1..][k] == t[j - 1];
              assert s[k + 1] == t[j - 1];
            }
          }
        }
      }
    }
  }

  lemma TailSorted(s: seq<Item>)
    requires s != [] && Sorted(s) && AllSmall(s)
    ensures Sorted(s[1..]) && AllSmall(s[1..])
  {
    forall i, j | 0 <= i < j < |s[1..]| ensures InOrder(s[1..], i, j) {
      assert InOrder(s, i + 1, j + 1);
    }
  }

  lemma CompareTransitive(a: Item, b: Item, c: Item)
    requires Small(a) && Small(b) && Small(c) && Compare(a, b) <= 0 && Compare(b, c) <= 0
    ensures Compare(a, c) <= 0
  {
    CompareIsOrder(a, b);
    CompareIsOrder(b, c);
    CompareIsOrder(a, c);
  }

  lemma CompareTotal(a: Item, b: Item)
    requires Small(a) && Small(b) && Compare(a, b) > 0
    ensures Compare(b, a) <= 0
  {
    CompareIsOrder(a, b);
    CompareIsOrder(b, a);
  }

  lemma {:induction false} SortIsSort(s: seq<Item>)
    requires AllSmall(s)
    ensures IsSortOf(SortItems(s), s)
  {
    if s != [] {
      SortIsSort(s[1..]);
      PermutationSmall(s[1..], SortItems(s[1..]));
      InsertSorted(s[0], SortItems(s[1..]));
    }
  }

  /** Sorting keeps the recorded order of the writes to each key, whatever the identifiers. */
  lemma SortedIsRecorded(s: seq<Item>)
    requires Sorted(s) && DistinctCursors(s) && forall i :: 0 <= i < |s| ==> s[i].cursor < U31
    ensures Recorded(s)
  {
    forall i, j | 0 <= i < j < |s| ensures CursorBefore(s, i, j) {
      assert InOrder(s, i, j) && CursorsDiffer(s, i, j);
      DifferenceOrder(s[i].cursor, s[j].cursor);
    }
  }

  /** The meaning depends only on which writes there are and on their recorded order. */
  lemma SameWritesSameMeaning(s: seq<Item>, t: seq<Item>)
    requires multiset(s) == multiset(t) && Recorded(s) && Recorded(t)
    ensures Apply(s) == Apply(t)
  {
    forall k | k in Apply(s) ensures k in Apply(t) && Apply(t)[k] == Apply(s)[k] {
      WriteCarriesOver(s, t, k);
    }
    forall k | k in Apply(t) ensures k in Apply(s) {
      WriteCarriesOver(t, s, k);
    }
  }

  lemma WriteCarriesOver(s: seq<Item>, t: seq<Item>, k: (nat, nat))
    requires multiset(s) == multiset(t) && Recorded(s) && Recorded(t) && k in Apply(s)
    ensures k in Apply(t) && Apply(t)[k] == Apply(s)[k]
  {
    var i := ApplyIsLastWriter(s, k);
    var j' := MemberOfPermutation(s, t, i);
    var j := ApplyIsLastWriter(t, k);
    var i' := MemberOfPermutation(t, s, j);
    // s[i] is the last in s and t[j] the last in t, and each occurs in the other
    assert i' <= i && j' <= j;
    if i' < i { assert CursorBefore(s, i', i); }
    if j' < j { assert CursorBefore(t, j', j); }
  }

  // ----- the sorted log is unique

  lemma NumberedDistinct(s: seq<Item>)
    requires Numbered(s)
    ensures DistinctCursors(s) && Recorded(s)
  {
    forall i, j | 0 <= i < j < |s| ensures CursorsDiffer(s, i, j) && CursorBefore(s, i, j) {}
  }

  lemma LogDistinct(s: seq<Item>)
    requires Log(s)
    ensures Numbered(s) && DistinctCursors(s) && AllSmall(s) && Recorded(s)
  {
    NumberedDistinct(s);
  }

  lemma {:induction false} LogMultiplicity(s: seq<Item>, x: Item)
    requires Numbered(s)
    ensures multiset(s)[x] <= 1
  {
    if s != [] {
      var n := |s| - 1;
      assert s == s[..n] + [s[n]];
      LogMultiplicity(s[..n], x);
      if s[n] == x { assert x !in s[..n]; }
    }
  }

  lemma TwiceMultiplicity(t: seq<Item>, i: nat, j: nat)
    requires i < j < |t| && t[i] == t[j]
    ensures multiset(t)[t[i]] >= 2
  {
    assert t == t[..i] + [t[i]] + t[i + 1..j] + [t[j]] + t[j + 1..];
  }

  lemma PermutationDistinct(s: seq<Item>, t: seq<Item>)
    requires Numbered(s) && multiset(s) == multiset(t)
    ensures DistinctCursors(t)
  {
    forall i, j | 0 <= i < j < |t| ensures CursorsDiffer(t, i, j) {
      var m := MemberOfPermutation(t, s, i);
      var n := MemberOfPermutation(t, s, j);
      LogMultiplicity(s, t[i]);
      if t[i] == t[j] { TwiceMultiplicity(t, i, j); }
    }
  }

  lemma SameFirst(t: seq<Item>, u: seq<Item>)
    requires multiset(t) == multiset(u) && Sorted(t) && Sorted(u) && AllSmall(t) && AllSmall(u)
    requires DistinctCursors(t) && t != [] && u != []
    ensures t[0] == u[0]
  {
    var i := MemberOfPermutation(u, t, 0);
    var j := MemberOfPermutation(t, u, 0);
    if i > 0 && j > 0 {
      assert InOrder(t, 0, i) && InOrder(u, 0, j) && CursorsDiffer(t, 0, i);
      CompareIsOrder(t[0], u[0]);
      CompareIsOrder(u[0], t[0]);
    }
  }

  lemma TailDistinct(t: seq<Item>)
    requires t != [] && DistinctCursors(t)
    ensures DistinctCursors(t[1..])
  {
    forall i, j | 0 <= i < j < |t[1..]| ensures CursorsDiffer(t[1..], i, j) {
      assert CursorsDiffer(t, i + 1, j + 1);
    }
  }

  lemma {:induction false} SortedUnique(t: seq<Item>, u: seq<Item>)
    requires multiset(t) == multiset(u) && Sorted(t) && Sorted(u) && AllSmall(t) && AllSmall(u)
    requires DistinctCursors(t)
    ensures t == u
    decreases |t|
  {
    assert |multiset(t)| == |t| && |multiset(u)| == |u|;
    if t != [] {
      SameFirst(t, u);
      TailSorted(t);
      TailSorted(u);
      TailDistinct(t);
      assert t == [t[0]] + t[1..] && u == [u[0]] + u[1..];
      assert multiset(t[1..]) == multiset(t) - multiset{t[0]} == multiset(u[1..]);
      SortedUnique(t[1..], u[1..]);
    }
  }

  /** Whatever sorting algorithm `qsort` uses, it returns this sequence. */
  lemma SortUnique(s: seq<Item>, t: seq<Item>)
    requires Log(s) && IsSortOf(t, s)
    ensures t == SortItems(s)
  {
    LogDistinct(s);
    SortIsSort(s);
    PermutationSmall(s, t);
    PermutationSmall(s, SortItems(s));
    PermutationDistinct(s, t);
    SortedUnique(t, SortItems(s));
  }

  /** Any sorted permutation of a request's items has their meaning, whatever the identifiers
      are, as long as the positions fit in 31 bits. */
  lemma SortedMeaning(s: seq<Item>, t: seq<Item>)
    requires Numbered(s) && |s| <= U31 && IsSortOf(t, s)
    ensures Apply(t) == Apply(s)
  {
    forall i | 0 <= i < |t| ensures t[i].cursor < U31 { var j := MemberOfPermutation(t, s, i); }
    PermutationDistinct(s, t);
    SortedIsRecorded(t);
    NumberedDistinct(s);
    SameWritesSameMeaning(t, s);
  }

  // ----- the removal pass

  /** One pass of the removal loop: an item whose successor has the same key is dropped,
      and the pass goes on behind that successor. */
  function Thin(s: seq<Item>): (r: seq<Item>)
    ensures |r| <= |s| && (s != [] ==> r != [] && r[0].objectId == s[0].objectId)
  {
    if |s| < 2 then s
    else if s[0].Key() == s[1].Key() then [s[1]] + Thin(s[2..])
    else [s[0]] + Thin(s[1..])
  }

  lemma {:induction false} ApplyConcat(s: seq<Item>, t: seq<Item>)
    ensures Apply(s + t) == Apply(s) + Apply(t)
  {
    if t == [] {
      assert s + t == s;
    } else {
      var n := |t| - 1;
      assert (s + t)[..|s + t| - 1] == s + t[..n];
      ApplyConcat(s, t[..n]);
    }
  }

  lemma ApplyOne(x: Item)
    ensures Apply([x]) == map[x.Key() := x.value]
  {
    assert [x][..0] == [];
  }

  /** Removing overwritten items keeps the meaning, for runs of any length. */
  lemma {:induction false} ThinMeaning(s: seq<Item>)
    ensures Apply(Thin(s)) == Apply(s)
    decreases |s|
  {
    if |s| >= 2 {
      ApplyOne(s[0]);
      ApplyOne(s[1]);
      assert s == [s[0]] + s[1..];
      if s[0].Key() == s[1].Key() {
        assert s[1..] == [s[1]] + s[2..];
        ThinMeaning(s[2..]);
        ApplyConcat([s[0]], s[1..]);
        ApplyConcat([s[1]], s[2..]);
        ApplyConcat([s[1]], Thin(s[2..]));
      } else {
        ThinMeaning(s[1..]);
        ApplyConcat([s[0]], s[1..]);
        ApplyConcat([s[0]], Thin(s[1..]));
      }
    }
  }

  ghost function Count(s: seq<Item>, k: (nat, nat)): nat {
    if s == [] then 0 else (if s[0].Key() == k then 1 else 0) + Count(s[1..], k)
  }

  /** Equal keys are adjacent. */
  ghost predicate Grouped(s: seq<Item>) {
    |s| >= 2 ==> (s[0].Key() == s[1].Key() || Count(s[1..], s[0].Key()) == 0) && Grouped(s[1..])
  }

  lemma {:induction false} CountZero(s: seq<Item>, k: (nat, nat))
    requires forall i :: 0 <= i < |s| ==> s[i].Key() != k
    ensures Count(s, k) == 0
  {
    if s != [] { CountZero(s[1..], k); }
  }

  lemma {:induction false} SortedIsGrouped(s: seq<Item>)
    requires Sorted(s) && AllSmall(s)
    ensures Grouped(s)
    decreases |s|
  {
    if |s| >= 2 {
      TailSorted(s);
      SortedIsGrouped(s[1..]);
      if s[0].Key() != s[1].Key() {
        forall i | 0 <= i < |s[1..]| ensures s[1..][i].Key() != s[0].Key() {
          assert InOrder(s, 0, 1);
          CompareIsOrder(s[0], s[1]);
          if i > 0 {
            assert InOrder(s, 1, i + 1);
            CompareIsOrder(s[1], s[i + 1]);
          }
        }
        CountZero(s[1..], s[0].Key());
      }
    }
  }

  /** The pass halves each run, rounding up. */
  lemma {:induction false} ThinHalvesRuns(s: seq<Item>, k: (nat, nat))
    requires Grouped(s)
    ensures Count(Thin(s), k) == (Count(s, k) + 1) / 2
    decreases |s|
  {
    if |s| >= 2 {
      if s[0].Key() == s[1].Key() {
        assert s[1..][1..] == s[2..];
        ThinHalvesRuns(s[2..], k);
        assert ([s[1]] + Thin(s[2..]))[1..] == Thin(s[2..]);
      } else {
        ThinHalvesRuns(s[1..], k);
        assert ([s[0]] + Thin(s[1..]))[1..] == Thin(s[1..]);
      }
    }
  }

  lemma {:induction false} InsertCount(x: Item, s: seq<Item>, k: (nat, nat))
    ensures Count(Insert(x, s), k) == Count(s, k) + if x.Key() == k then 1 else 0
  {
    if s == [] {
      assert [x][1..] == [];
    } else if Compare(x, s[0]) <= 0 {
      assert ([x] + s)[1..] == s;
    } else {
      InsertCount(x, s[1..], k);
      assert ([s[0]] + Insert(x, s[1..]))[1..] == Insert(x, s[1..]);
    }
  }

  lemma {:induction false} SortCount(s: seq<Item>, k: (nat, nat))
    ensures Count(SortItems(s), k) == Count(s, k)
  {
    if s != [] {
      SortCount(s[1..], k);
      InsertCount(s[0], SortItems(s[1..]), k);
    }
  }

  /** Of the writes to a property that a request has recorded, a commit submits half, rounding
      up: no duplicate is left if and only if no property was set more than twice. */
  lemma DuplicatesLeft(log: seq<Item>, k: (nat, nat))
    requires Log(log)
    ensures Count(Thin(SortItems(log)), k) == (Count(log, k) + 1) / 2
    ensures Count(Thin(SortItems(log)), k) <= 1 <==> Count(log, k) <= 2
  {
    LogDistinct(log);
    SortIsSort(log);
    PermutationSmall(log, SortItems(log));
    SortedIsGrouped(SortItems(log));
    ThinHalvesRuns(SortItems(log), k);
    SortCount(log, k);
  }

  /** Three writes to one property: two of them are submitted. */
  lemma ThreeWrites()
    ensures var log := [Item(1, 2, 10, 0), Item(1, 2, 11, 1), Item(1, 2, 12, 2)];
      Log(log) && Count(Thin(SortItems(log)), (1, 2)) == 2
  {
    var log := [Item(1, 2, 10, 0), Item(1, 2, 11, 1), Item(1, 2, 12, 2)];
    assert log[1..] == [log[1], log[2]] && log[1..][1..] == [log[2]] && log[1..][1..][1..] == [];
    assert Count(log, (1, 2)) == 3;
    DuplicatesLeft(log, (1, 2));
  }

  // ----- object groups

  function LastObject(s: seq<Item>): nat {
    if s == [] then 0 else s[|s| - 1].objectId
  }

  /** How many times the object identifier changes, starting from 0. */
  function Groups(s: seq<Item>): nat {
    if s == [] then 0
    else Groups(s[..|s| - 1]) + if s[|s| - 1].objectId != LastObject(s[..|s| - 1]) then 1 else 0
  }

  // ----- the arrays handed to the kernel

  /** The four parallel arrays of an atomic ioctl. */
  datatype Submission = Submission(objs: seq<nat>, counts: seq<nat>, props: seq<nat>, values: seq<nat>)

  ghost function Sum(counts: seq<nat>): nat {
    if counts == [] then 0 else Sum(counts[..|counts| - 1]) + counts[|counts| - 1]
  }

  /** A write as the kernel sees it. */
  datatype Write = Write(objectId: nat, propertyId: nat, value: nat)

  ghost function Writes(s: seq<Item>): seq<Write> {
    seq(|s|, i requires 0 <= i < |s| => Write(s[i].objectId, s[i].propertyId, s[i].value))
  }

  /** The writes the arrays list: for each object in turn, its share of the properties. */
  ghost function Listed(sub: Submission, groups: nat): seq<Write>
    requires groups <= |sub.objs| == |sub.counts| && |sub.props| == |sub.values|
    requires Sum(sub.counts[..groups]) <= |sub.props|
  {
    if groups == 0 then []
    else
      assert sub.counts[..groups][..groups - 1] == sub.counts[..groups - 1];
      var from := Sum(sub.counts[..groups - 1]);
      Listed(sub, groups - 1) +
      seq(sub.counts[groups - 1], j requires 0 <= j < sub.counts[groups - 1] =>
        Write(sub.objs[groups - 1], sub.props[from + j], sub.values[from + j]))
  }

  ghost function ApplyWrites(w: seq<Write>): Settings {
    if w == [] then map[]
    else
      var last := w[|w| - 1];
      ApplyWrites(w[..|w| - 1])[(last.objectId, last.propertyId) := last.value]
  }

  lemma {:induction false} ApplyWritesIsApply(s: seq<Item>)
    ensures ApplyWrites(Writes(s)) == Apply(s)
  {
    if s != [] {
      ApplyWritesIsApply(s[..|s| - 1]);
      assert Writes(s)[..|s| - 1] == Writes(s[..|s| - 1]);
    }
  }

  /** The arrays are consistent and list exactly the writes of `s`. */
  ghost predicate Encodes(sub: Submission, s: seq<Item>) {
    && |sub.objs| == |sub.counts| == Groups(s)
    && |sub.props| == |sub.values| == Sum(sub.counts) == |s|
    && sub.counts[..|sub.counts|] == sub.counts
    && Listed(sub, |sub.objs|) == Writes(s)
  }
}
