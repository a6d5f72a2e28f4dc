/** The request object of xf86drmMode.c: recording, merging and rolling back writes, and
    the commit that sorts, thins and flattens them. */
module AtomicRequest {
  import opened AtomicCommit

  const EINVAL: int := 22
  const ENOMEM: int := 12

  /** Where a commit ends; `Submit` carries what the ioctl would be given. */
  datatype CommitResult = Invalid | Nothing | NoMemory | Submit(sub: Submission)

  // ----- the in-place removal pass

  /** The first loop of `drmModeAtomicCommit`: the array shrinks while the objects are
      counted. */
  method RemoveOverwritten(a: array<Item>, n: nat) returns (m: nat, objects: nat)
    requires n <= a.Length
    modifies a
    ensures m <= n && a[..m] == Thin(old(a[..n]))
    ensures objects == Groups(a[..m])
  {
    m, objects := n, 0;
    var i, last := 0, 0;
    ghost var s, t := a[..n], a[..n];
    while i < m
      invariant 0 <= i <= m <= n && t == a[..m]
      invariant t[..i] + Thin(t[i..]) == Thin(s)
      invariant objects == Groups(t[..i]) && last == LastObject(t[..i])
      decreases n - i
    {
      if a[i].objectId != last {
        objects := objects + 1;
        last := a[i].objectId;
      }
      if i == m - 1 || a[i].Key() != a[i + 1].Key() {
        KeepStep(t, i);
        GroupsNext(t, i);
      } else {
        DropStep(t, i);
        ShiftDown(a, i, m, t);
        m := m - 1;
        t := t[..i] + t[i + 1..];
        GroupsNext(t, i);
      }
      i := i + 1;
    }
    assert t[i..] == [] && t[..i] == t;
  }

  /** The memmove that closes the gap at `i`. */
  method ShiftDown(a: array<Item>, i: nat, m: nat, ghost t: seq<Item>)
    requires i < m <= a.Length && t == a[..m]
    modifies a
    ensures a[..m - 1] == t[..i] + t[i + 1..]
  {
    forall j | i <= j < m - 1 { a[j] := a[j + 1]; }
  }

  lemma KeepStep(t: seq<Item>, i: nat)
    requires i < |t| && (i == |t| - 1 || t[i].Key() != t[i + 1].Key())
    ensures t[..i + 1] + Thin(t[i + 1..]) == t[..i] + Thin(t[i..])
  {
    Slices(t, i);
    assert Thin(t[i..]) == [t[i]] + Thin(t[i + 1..]);
    Assoc(t[..i], [t[i]], Thin(t[i + 1..]));
  }

  lemma Slices<T>(t: seq<T>, i: nat)
    requires i < |t|
    ensures |t[i..]| == |t| - i && t[i..][0] == t[i] && t[i..][1..] == t[i + 1..] && t[..i + 1] == t[..i] + [t[i]]
    ensures i + 1 < |t| ==> t[i..][1] == t[i + 1] && t[i..][2..] == t[i + 2..]
  {
  }

  lemma Assoc<T>(a: seq<T>, b: seq<T>, c: seq<T>)
    ensures a + b + c == a + (b + c)
  {
  }

  lemma DropStep(t: seq<Item>, i: nat)
    requires i + 1 < |t| && t[i].Key() == t[i + 1].Key()
    ensures var u := t[..i] + t[i + 1..];
      u[..i] == t[..i] && u[i].objectId == t[i].objectId && u[..i + 1] + Thin(u[i + 1..]) == t[..i] + Thin(t[i..])
  {
    var u := t[..i] + t[i + 1..];
    assert t[i..][2..] == t[i + 2..] == u[i + 1..];
    assert u[..i + 1] == t[..i] + [t[i + 1]];
    assert Thin(t[i..]) == [t[i + 1]] + Thin(t[i + 2..]);
  }

  lemma GroupsNext(t: seq<Item>, i: nat)
    requires i < |t|
    ensures Groups(t[..i + 1]) == Groups(t[..i]) + if t[i].objectId != LastObject(t[..i]) then 1 else 0
    ensures LastObject(t[..i + 1]) == t[i].objectId
  {
    assert t[..i + 1][..i] == t[..i];
  }

  // ----- the flattening loop

  lemma {:induction false} GroupsMonotone(s: seq<Item>, i: nat)
    requires i <= |s|
    ensures Groups(s[..i]) <= Groups(s)
    decreases |s|
  {
    if i < |s| {
      assert s[..|s| - 1][..i] == s[..i];
      GroupsMonotone(s[..|s| - 1], i);
    } else {
      assert s[..i] == s;
    }
  }

  lemma SumPrefix(counts: seq<nat>, g: nat)
    requires 0 < g <= |counts|
    ensures Sum(counts[..g]) == Sum(counts[..g - 1]) + counts[g - 1]
  {
    assert counts[..g][..g - 1] == counts[..g - 1];
  }

  /** The arrays agree on the first `g` groups and the first `n` writes. */
  ghost predicate Agree(a: Submission, b: Submission, g: nat, n: nat) {
    && |a.objs| == |a.counts| && |b.objs| == |b.counts| && |a.props| == |a.values| && |b.props| == |b.values|
    && g <= |a.objs| && g <= |b.objs| && n <= |a.props| && n <= |b.props|
    && (forall j :: 0 <= j < g ==> a.objs[j] == b.objs[j])
    && (forall j :: 0 <= j < g ==> a.counts[j] == b.counts[j])
    && (forall j :: 0 <= j < n ==> a.props[j] == b.props[j])
    && (forall j :: 0 <= j < n ==> a.values[j] == b.values[j])
  }

  lemma AgreeSum(a: Submission, b: Submission, g: nat, n: nat)
    requires Agree(a, b, g, n)
    ensures Sum(a.counts[..g]) == Sum(b.counts[..g])
  {
    assert a.counts[..g] == b.counts[..g];
  }

  /** The listing of the first groups does not look beyond them. */
  lemma {:induction false} ListedLocal(a: Submission, b: Submission, g: nat, n: nat)
    requires Agree(a, b, g, n) && Sum(a.counts[..g]) <= n
    ensures Sum(b.counts[..g]) <= n && Listed(a, g) == Listed(b, g)
  {
    AgreeSum(a, b, g, n);
    if g > 0 {
      SumPrefix(a.counts, g);
      SumPrefix(b.counts, g);
      ListedLocal(a, b, g - 1, n);
    }
  }

  /** Opening a new group with one write appends that write. */
  lemma OpenGroup(a: Submission, g: nat, i: nat, w: Write)
    requires g < |a.objs| == |a.counts| && i < |a.props| == |a.values| && Sum(a.counts[..g]) == i && a.counts[g] == 0
    ensures var b := Submission(a.objs[g := w.objectId], a.counts[g := 1], a.props[i := w.propertyId],
      a.values[i := w.value]);
      Sum(b.counts[..g + 1]) == i + 1 && Listed(b, g + 1) == Listed(a, g) + [w]
  {
    var b := Submission(a.objs[g := w.objectId], a.counts[g := 1], a.props[i := w.propertyId], a.values[i := w.value]);
    SumPrefix(b.counts, g + 1);
    AgreeSum(a, b, g, i);
    ListedLocal(a, b, g, i);
  }

  /** One more property counted in the last group. */
  ghost function Extended(a: Submission, g: nat, i: nat, w: Write): Submission
    requires 0 < g <= |a.objs| == |a.counts| && i < |a.props| == |a.values|
  {
    Submission(a.objs, a.counts[g - 1 := a.counts[g - 1] + 1], a.props[i := w.propertyId], a.values[i := w.value])
  }

  lemma ExtendSum(a: Submission, g: nat, i: nat, w: Write)
    requires 0 < g <= |a.objs| == |a.counts| && i < |a.props| == |a.values| && Sum(a.counts[..g]) == i
    ensures var b := Extended(a, g, i, w);
      && Sum(b.counts[..g]) == i + 1 && Sum(b.counts[..g - 1]) == Sum(a.counts[..g - 1]) == i - a.counts[g - 1]
      && Agree(a, b, g - 1, i)
  {
    var b := Extended(a, g, i, w);
    SumPrefix(a.counts, g);
    SumPrefix(b.counts, g);
    AgreeSum(a, b, g - 1, i);
  }

  /** It appends its write. */
  lemma ExtendGroup(a: Submission, g: nat, i: nat, w: Write)
    requires 0 < g <= |a.objs| == |a.counts| && i < |a.props| == |a.values| && Sum(a.counts[..g]) == i
    requires a.objs[g - 1] == w.objectId
    ensures var b := Extended(a, g, i, w); Sum(b.counts[..g]) == i + 1 && Listed(b, g) == Listed(a, g) + [w]
  {
    var b := Extended(a, g, i, w);
    ExtendSum(a, g, i, w);
    ListedLocal(a, b, g - 1, i);
    GroupPlusOne(a, b, i - a.counts[g - 1], a.counts[g - 1], w);
    Assoc(Listed(a, g - 1),
      seq(a.counts[g - 1], j requires 0 <= j < a.counts[g - 1] =>
      Write(w.objectId, a.props[i - a.counts[g - 1] + j], a.values[i - a.counts[g - 1] + j])), [w]);
  }

  lemma GroupPlusOne(a: Submission, b: Submission, k: nat, c: nat, w: Write)
    requires k + c < |a.props| == |a.values| && b.props == a.props[k + c := w.propertyId]
    requires b.values == a.values[k + c := w.value]
    ensures seq(c + 1, j requires 0 <= j < c + 1 => Write(w.objectId, b.props[k + j], b.values[k + j])) ==
            seq(c, j requires 0 <= j < c => Write(w.objectId, a.props[k + j], a.values[k + j])) + [w]
  {
  }

  ghost predicate NonZero(s: seq<Item>) {
    forall i :: 0 <= i < |s| ==> s[i].objectId != 0
  }

  /** The arrays after `i` items, with `index` the last object opened. */
  ghost predicate Partial(sub: Submission, s: seq<Item>, objects: nat, i: nat, index: int, last: nat) {
    && i <= |s| && |sub.objs| == |sub.counts| == objects && |sub.props| == |sub.values| == |s|
    && -1 <= index < objects && index + 1 == Groups(s[..i]) && last == LastObject(s[..i])
    && (i == 0 <==> index == -1)
    && (index >= 0 ==> sub.objs[index] == last)
    && (forall j :: index < j < objects ==> sub.counts[j] == 0)
    && Sum(sub.counts[..index + 1]) == i
    && Listed(sub, index + 1) == Writes(s[..i])
  }

  /** The second loop of `drmModeAtomicCommit`.  Every write is within the arrays because
      `objects` was counted right. */
  method Flatten(s: seq<Item>, objects: nat) returns (sub: Submission)
    requires objects == Groups(s) && NonZero(s)
    ensures Encodes(sub, s)
  {
    sub := Submission(seq(objects, _ => 0), seq(objects, _ => 0), seq(|s|, _ => 0), seq(|s|, _ => 0));
    var index, last := -1, 0;
    for i := 0 to |s|
      invariant Partial(sub, s, objects, i, index, last)
    {
      sub, index, last := Place(sub, s, objects, i, index, last);
    }
    assert s[..|s|] == s;
    assert sub.counts[..objects] == sub.counts;
  }

  /** The body of that loop. */
  method Place(before: Submission, s: seq<Item>, objects: nat, i: nat, oldIndex: int, oldLast: nat)
    returns (sub: Submission, index: int, last: nat)
    requires i < |s| && objects == Groups(s) && s[i].objectId != 0 && Partial(before, s, objects, i, oldIndex, oldLast)
    ensures last == s[i].objectId && (index == oldIndex <==> oldLast == s[i].objectId)
    ensures Partial(sub, s, objects, i + 1, index, last)
  {
    sub, index, last := before, oldIndex, oldLast;
    GroupsNext(s, i);
    GroupsMonotone(s, i + 1);
    WritesNext(s, i);
    ghost var w := Write(s[i].objectId, s[i].propertyId, s[i].value);
    if s[i].objectId != last {
      OpenGroup(before, index + 1, i, w);
      index := index + 1;
      sub := sub.(objs := sub.objs[index := s[i].objectId]);
      last := sub.objs[index];
    } else {
      ExtendGroup(before, index + 1, i, w);
    }
    sub := Submission(sub.objs, sub.counts[index := sub.counts[index] + 1], sub.props[i := s[i].propertyId],
      sub.values[i := s[i].value]);
  }

  lemma WritesNext(s: seq<Item>, i: nat)
    requires i < |s|
    ensures Writes(s[..i + 1]) == Writes(s[..i]) + [Write(s[i].objectId, s[i].propertyId, s[i].value)]
  {
  }

  // ----- requests

  /** `s` moved up by `k` positions. */
  function Renumber(s: seq<Item>, k: nat): seq<Item> {
    seq(|s|, i requires 0 <= i < |s| => s[i].(cursor := k + i))
  }

  lemma {:induction false} RenumberMeaning(s: seq<Item>, k: nat)
    ensures Apply(Renumber(s, k)) == Apply(s)
  {
    if s != [] {
      RenumberMeaning(s[..|s| - 1], k);
      assert Renumber(s, k)[..|s| - 1] == Renumber(s[..|s| - 1], k);
    }
  }

  lemma {:induction false} RenumberGroups(s: seq<Item>)
    ensures Groups(Renumber(s, 0)) == Groups(s) && LastObject(Renumber(s, 0)) == LastObject(s)
  {
    if s != [] {
      RenumberGroups(s[..|s| - 1]);
      assert Renumber(s, 0)[..|s| - 1] == Renumber(s[..|s| - 1], 0);
    }
  }

  /** Positions play no part in what the kernel is told. */
  lemma RenumberKeepsWrites(s: seq<Item>)
    ensures Groups(Renumber(s, 0)) == Groups(s) && Writes(Renumber(s, 0)) == Writes(s)
  {
    RenumberGroups(s);
  }

  ghost predicate Recordable(item: Item, i: nat) {
    item.cursor == i && item.objectId != 0 && item.propertyId != 0
  }

  lemma MergedOk(items: seq<Item>, before: seq<Item>, copied: seq<Item>)
    requires |before| + |copied| <= |items| && items[..|before| + |copied|] == before + Renumber(copied, |before|)
    requires forall i :: 0 <= i < |before| ==> Recordable(before[i], i)
    requires forall i :: 0 <= i < |copied| ==> Recordable(copied[i], i)
    ensures forall i :: 0 <= i < |before| + |copied| ==> Recordable(items[i], i)
  {
    var all := before + Renumber(copied, |before|);
    forall i | 0 <= i < |before| + |copied| ensures Recordable(items[i], i) {
      assert items[i] == all[i];
      if i < |before| {
        assert all[i] == before[i];
      } else {
        assert all[i] == copied[i - |before|].(cursor := i);
      }
    }
  }

  class AtomicReq {
    var cursor: nat
    var items: seq<Item>  // the allocated items; those from `cursor` on are stale

    /** What the request has recorded. */
    ghost function Recording(): seq<Item>
      reads this
    {
      if cursor <= |items| then items[..cursor] else items
    }

    /** Every item carries its own position, and no identifier is 0. */
    ghost predicate Valid()
      reads this
    {
      && cursor <= |items| < U32
      && forall i :: 0 <= i < cursor ==> Recordable(items[i], i)
    }

    ghost predicate SmallIds()
      reads this
    {
      cursor <= U31 && forall i :: 0 <= i < cursor && i < |items| ==>
        items[i].objectId < U31 && items[i].propertyId < U31
    }

    /** `drmModeAtomicAlloc`. */
    constructor ()
      ensures Valid() && Recording() == []
    {
      cursor, items := 0, [];
    }

    /** `drmModeAtomicAddProperty`; `pageItems` is how many items fit in a page. */
    static method AddProperty(req: AtomicReq?, objectId: nat, propertyId: nat, value: nat, pageItems: nat, memory: bool)
      returns (ret: int)
      requires req != null ==> req.Valid() && |req.items| + pageItems < U32 && pageItems > 0
      modifies if req != null then {req} else {}
      ensures req == null || objectId == 0 || propertyId == 0 ==> ret == -EINVAL
      ensures req != null ==> req.Valid() && (ret < 0 ==> req.Recording() == old(req.Recording()))
      ensures ret >= 0 ==> req != null && ret == req.cursor == old(req.cursor) + 1
      ensures ret >= 0 ==>
        req.Recording() == old(req.Recording()) + [Item(objectId, propertyId, value, old(req.cursor))]
      ensures req != null && objectId != 0 && propertyId != 0 && ret < 0 ==> ret == -ENOMEM && !memory
    {
      if req == null {
        return -EINVAL;
      }
      if objectId == 0 || propertyId == 0 {
        return -EINVAL;
      }
      if req.cursor >= |req.items| {
        if !memory {
          return -ENOMEM;
        }
        req.items := req.items + seq(pageItems, _ => Item(0, 0, 0, 0));
      }
      req.items := req.items[req.cursor := Item(objectId, propertyId, value, req.cursor)];
      req.cursor := req.cursor + 1;
      ret := req.cursor;
    }

    /** `drmModeAtomicSetCursor`: a position within the recording rolls it back. */
    static method SetCursor(req: AtomicReq?, position: nat)
      requires req != null ==> req.Valid()
      modifies if req != null then {req} else {}
      ensures req != null ==> req.cursor == position && req.items == old(req.items)
      ensures req != null && position <= old(req.cursor) ==>
        req.Valid() && req.Recording() == old(req.Recording())[..position]
    {
      if req != null {
        req.cursor := position;
      }
    }

    /** `drmModeAtomicDuplicate`. */
    static method Duplicate(req: AtomicReq?, memory: bool) returns (copy: AtomicReq?)
      requires req != null ==> req.Valid()
      ensures copy != null <==> req != null && memory
      ensures copy != null ==>
        fresh(copy) && copy.Valid() && copy.Recording() == req.Recording() && |copy.items| == |req.items|
    {
      if req == null || !memory {
        return null;
      }
      copy := new AtomicReq();
      copy.cursor := req.cursor;
      copy.items := req.items[..req.cursor] + seq(|req.items| - req.cursor, _ => Item(0, 0, 0, 0));
    }

    /** `drmModeAtomicMerge`: the writes of `augment` follow those of `base`, which may be
        the same request. */
    static method Merge(base: AtomicReq?, augment: AtomicReq?, memory: bool) returns (ret: int)
      requires base != null ==> base.Valid()
      requires augment != null ==> augment.Valid()
      requires base != null && augment != null ==> base.cursor + augment.cursor < U32
      modifies base
      ensures base == null ==> ret == -EINVAL
      ensures base != null ==> base.Valid() && (ret == 0 || (ret == -ENOMEM && !memory))
      ensures base != null && ret != 0 ==> base.Recording() == old(base.Recording())
      ensures base != null && ret == 0 && augment == null ==> base.Recording() == old(base.Recording())
      ensures base != null && ret == 0 && augment != null ==>
        base.Recording() == old(base.Recording()) + Renumber(old(augment.Recording()), old(base.cursor))
    {
      if base == null {
        return -EINVAL;
      }
      if augment == null || augment.cursor == 0 {
        return 0;
      }
      if base.cursor + augment.cursor >= |base.items| {
        if !memory {
          return -ENOMEM;
        }
      }
      ghost var before, copied := base.items[..base.cursor], augment.items[..augment.cursor];
      base.items := Append(base.items, base.cursor, augment.items[..augment.cursor]);
      base.cursor := base.cursor + augment.cursor;
      MergedOk(base.items, before, copied);
      ret := 0;
    }

    /** The copying part of `drmModeAtomicMerge`, growing the items when they are full. */
    static method Append(items: seq<Item>, from: nat, copied: seq<Item>) returns (r: seq<Item>)
      requires from <= |items|
      ensures |r| == if from + |copied| >= |items| then from + |copied| else |items|
      ensures r[..from + |copied|] == items[..from] + Renumber(copied, from)
    {
      var total := from + |copied|;
      var grown := if total >= |items| then items[..from] + seq(|copied|, _ => Item(0, 0, 0, 0)) else items;
      grown := grown[..from] + copied + grown[total..];
      assert grown[from..total] == copied;
      r := RenumberTail(grown, from, total);
    }

    /** The loop of `drmModeAtomicMerge` that gives the copied items their positions. */
    static method RenumberTail(copied: seq<Item>, from: nat, to: nat) returns (items: seq<Item>)
      requires from <= to <= |copied|
      ensures items == copied[..from] + Renumber(copied[from..to], from) + copied[to..]
    {
      items := copied;
      for i := from to to
        invariant |items| == |copied|
        invariant forall j :: 0 <= j < |items| ==>
          items[j] == if from <= j < i then copied[j].(cursor := j) else copied[j]
      {
        items := items[i := items[i].(cursor := i)];
      }
    }

    /** The items that are left get new positions and are flattened. */
    static method NumberAndFlatten(s: seq<Item>, objects: nat) returns (sub: Submission)
      requires objects == Groups(s) && NonZero(s)
      ensures Encodes(sub, s)
    {
      var final := RenumberTail(s, 0, |s|);
      assert s[0..|s|] == s;
      assert final == Renumber(s, 0);
      RenumberKeepsWrites(s);
      sub := Flatten(final, objects);
    }

    /** `drmModeAtomicCommit` up to the ioctl, with the contents of `sorted` whatever
        `qsort` leaves there: a permutation that the comparator calls sorted. */
    static method Commit(req: AtomicReq?, sortedItems: seq<Item>, memory: bool, arrays: bool)
        returns (result: CommitResult)
      requires req != null ==> req.Valid() && req.cursor <= U31 && IsSortOf(sortedItems, req.Recording())
      ensures req == null <==> result.Invalid?
      ensures result.Nothing? <==> req != null && req.cursor == 0
      ensures result.NoMemory? ==> !memory || !arrays
      ensures result.Submit? ==>
        && req != null
        && Encodes(result.sub, Thin(sortedItems))
        && ApplyWrites(Listed(result.sub, |result.sub.objs|)) == Apply(req.Recording())
      ensures result.Submit? && req.SmallIds() ==> Encodes(result.sub, Thin(SortItems(req.Recording())))
    {
      if req == null {
        return Invalid;
      }
      if req.cursor == 0 {
        return Nothing;
      }
      if !memory {
        return NoMemory;
      }
      req.RecordingIsNumbered();
      var kept, objects := Thinned(sortedItems);
      if !arrays {
        return NoMemory;
      }
      ThinNonZero(req.Recording(), sortedItems);
      var sub := NumberAndFlatten(kept, objects);
      CommitMeaning(req.Recording(), sortedItems);
      if req.SmallIds() {
        req.RecordingIsLog();
        SortUnique(req.Recording(), sortedItems);
      }
      return Submit(sub);
    }

    lemma RecordingIsNumbered()
      requires Valid()
      ensures Numbered(Recording()) && NonZero(Recording())
    {
      forall i | 0 <= i < cursor ensures Recordable(Recording()[i], i) { assert Recordable(items[i], i); }
    }

    lemma RecordingIsLog()
      requires Valid() && SmallIds()
      ensures Log(Recording())
    {
      forall i | 0 <= i < cursor ensures Small(Recording()[i]) && Recordable(Recording()[i], i) {
        assert Recordable(items[i], i);
      }
    }

    /** The removal pass on a copy of the sorted items. */
    static method Thinned(sortedItems: seq<Item>) returns (kept: seq<Item>, objects: nat)
      ensures kept == Thin(sortedItems) && objects == Groups(kept)
    {
      var a := new Item[|sortedItems|](i requires 0 <= i < |sortedItems| => sortedItems[i]);
      assert a[..a.Length] == sortedItems;
      var m;
      m, objects := RemoveOverwritten(a, a.Length);
      kept := a[..m];
    }
  }

  lemma ThinNonZero(log: seq<Item>, t: seq<Item>)
    requires NonZero(log) && multiset(t) == multiset(log)
    ensures NonZero(Thin(t))
  {
    forall i | 0 <= i < |t| ensures t[i].objectId != 0 {
      var j := MemberOfPermutation(t, log, i);
    }
    ThinKeepsNonZero(t);
  }

  lemma {:induction false} ThinKeepsNonZero(s: seq<Item>)
    requires NonZero(s)
    ensures NonZero(Thin(s))
    decreases |s|
  {
    if |s| >= 2 {
      if s[0].Key() == s[1].Key() { ThinKeepsNonZero(s[2..]); } else { ThinKeepsNonZero(s[1..]); }
    }
  }

  /** Sorting and thinning together keep last-writer-wins. */
  lemma CommitMeaning(log: seq<Item>, t: seq<Item>)
    requires Numbered(log) && |log| <= U31 && IsSortOf(t, log)
    ensures ApplyWrites(Writes(Thin(t))) == Apply(log)
  {
    SortedMeaning(log, t);
    ThinMeaning(t);
    ApplyWritesIsApply(Thin(t));
  }

  /** Merging and committing: what `augment` sets overrides what `base` set. */
  lemma MergeOverrides(base: seq<Item>, augment: seq<Item>)
    ensures Apply(base + Renumber(augment, |base|)) == Apply(base) + Apply(augment)
  {
    ApplyConcat(base, Renumber(augment, |base|));
    RenumberMeaning(augment, |base|);
  }
}
