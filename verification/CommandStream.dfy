/** The command streams of etnaviv_cmd_stream.c: buffer tables with a per-buffer index
    cache, shared by several streams, and the submissions they flush. */
module CommandStreams {

  const U32: nat := 0x1_0000_0000

  /** A row of the buffer table given to the kernel. */
  datatype SubmitBo = SubmitBo(handle: nat, read: bool, write: bool)

  datatype Reloc = Reloc(relocIdx: nat, relocOffset: nat, submitOffset: nat)

  datatype Pmr = Pmr(readIdx: nat, readOffset: nat, sequence: nat)

  /** What one flush hands over; `asked` and `watched` record the handles of the buffers
      that the relocations and the performance requests were made for. */
  datatype Submission = Submission(bos: seq<SubmitBo>, relocs: seq<Reloc>, pmrs: seq<Pmr>, words: nat,
                                     asked: seq<nat>, watched: seq<nat>)

  /** A relocation names a row with the handle of its buffer, inside the stream. */
  ghost predicate RelocGood(sub: Submission, k: nat)
    requires k < |sub.relocs| == |sub.asked|
  {
    && sub.relocs[k].relocIdx < |sub.bos|
    && sub.bos[sub.relocs[k].relocIdx].handle == sub.asked[k]
    && sub.relocs[k].submitOffset + 4 <= 4 * sub.words
  }

  ghost predicate PmrGood(sub: Submission, k: nat)
    requires k < |sub.pmrs| == |sub.watched|
  {
    sub.pmrs[k].readIdx < |sub.bos| && sub.bos[sub.pmrs[k].readIdx].handle == sub.watched[k]
  }

  ghost predicate OffsetsAscend(relocs: seq<Reloc>, j: nat, k: nat)
    requires j < |relocs| && k < |relocs|
  {
    relocs[j].submitOffset < relocs[k].submitOffset
  }

  /** Relocations and performance requests name the rows of their buffers. */
  ghost predicate RowsGood(sub: Submission) {
    && |sub.relocs| == |sub.asked|
    && (forall k :: 0 <= k < |sub.relocs| ==> RelocGood(sub, k))
    && |sub.pmrs| == |sub.watched|
    && (forall k :: 0 <= k < |sub.pmrs| ==> PmrGood(sub, k))
  }

  ghost predicate Ascending(relocs: seq<Reloc>) {
    forall j, k :: 0 <= j < k < |relocs| ==> OffsetsAscend(relocs, j, k)
  }

  /** What the kernel demands of a submission. */
  ghost predicate Good(sub: Submission) {
    RowsGood(sub) && Ascending(sub.relocs)
  }

  /** The offset of a word in bytes, in 32 bits. */
  function ByteOffset(word: nat): nat {
    4 * word % U32
  }

  /** Byte offsets of later words are greater if and only if the stream is at most 4 GiB. */
  lemma OffsetsFit(size: nat)
    ensures (forall j, k :: 0 <= j < k < size ==> ByteOffset(j) < ByteOffset(k)) <==> 4 * size <= U32
  {
    if 4 * size > U32 {
      assert ByteOffset(0) == ByteOffset(U32 / 4) == 0;
    }
  }

  /** `grow`: the new capacity for a table of `nr` rows about to take one more. */
  function Grow(nr: nat, max: nat): (r: nat)
    ensures nr < r && max <= r
  {
    if nr + 1 > max then (if max * 2 < nr + 1 then nr + 5 else max * 2) else max
  }

  /** A size rounded up to an even number of words, in 32 bits. */
  function Even(words: nat): nat {
    (words + words % 2) % U32
  }

  class Bo {
    const handle: nat
    var refcnt: nat
    var currentStream: Stream?
    var idx: nat
    var owned: nat  // how many of the references clients hold; the streams hold the others

    constructor (h: nat)
      ensures handle == h && refcnt == owned == 1 && currentStream == null && idx == 0
    {
      handle, refcnt, owned, currentStream, idx := h, 1, 1, null, 0;
    }
  }

  class Stream {
    const size: nat
    var offset: nat
    var submitBos: seq<SubmitBo>
    var maxSubmitBos: nat
    var relocs: seq<Reloc>
    var maxRelocs: nat
    var pmrs: seq<Pmr>
    var maxPmrs: nat
    var bos: seq<Bo>
    var maxBos: nat
    ghost var asked: seq<nat>
    ghost var watched: seq<nat>
    ghost var history: seq<Submission>

    constructor (words: nat)
      requires 0 < words < U32
      ensures size == Even(words) && Pending() == Submission([], [], [], 0, [], []) && bos == [] && history == []
      ensures TableOk() && RelocsOk()
    {
      size := Even(words);
      offset, submitBos, relocs, pmrs, bos, asked, watched, history := 0, [], [], [], [], [], [], [];
      maxSubmitBos, maxRelocs, maxPmrs, maxBos := 0, 0, 0, 0;
    }

    /** Both buffer tables agree row by row and stay within their capacity. */
    ghost predicate TableOk()
      reads this
    {
      && |bos| == |submitBos| && |bos| <= maxBos && |submitBos| <= maxSubmitBos
      && |relocs| <= maxRelocs && |pmrs| <= maxPmrs
      && (forall i :: 0 <= i < |bos| ==> submitBos[i].handle == bos[i].handle)
      && Distinct(bos)
    }

    ghost function Pending(): Submission
      reads this
    {
      Submission(submitBos, relocs, pmrs, offset, asked, watched)
    }

    ghost predicate RelocsOk()
      reads this
    {
      && offset <= size && RowsGood(Pending()) && (4 * size <= U32 ==> Ascending(relocs))
      && forall n :: 0 <= n < |history| ==> RowsGood(history[n]) && (4 * size <= U32 ==> Good(history[n]))
    }
  }

  ghost predicate Differ(bos: seq<Bo>, i: nat, j: nat)
    requires i < |bos| && j < |bos|
  {
    bos[i] != bos[j]
  }

  ghost predicate Distinct(bos: seq<Bo>) {
    forall i, j :: 0 <= i < |bos| && 0 <= j < |bos| && i != j ==> Differ(bos, i, j)
  }

  /** The linear search of the slow path. */
  ghost function Find(bos: seq<Bo>, bo: Bo): (i: nat)
    ensures i <= |bos| && (i < |bos| ==> bos[i] == bo)
  {
    if bos == [] then 0
    else if bos[0] == bo then 0
    else
      var i := Find(bos[1..], bo);
      i + 1
  }

  lemma {:induction false} FindFirst(bos: seq<Bo>, bo: Bo, i: nat)
    requires i <= |bos| && (i < |bos| ==> bos[i] == bo) && forall j :: 0 <= j < i ==> bos[j] != bo
    ensures Find(bos, bo) == i
  {
    if bos != [] && i > 0 {
      FindFirst(bos[1..], bo, i - 1);
    }
  }

  lemma FindInDistinct(bos: seq<Bo>, i: nat)
    requires Distinct(bos) && i < |bos|
    ensures Find(bos, bos[i]) == i
  {
    forall j | 0 <= j < i ensures bos[j] != bos[i] { assert Differ(bos, j, i); }
    FindFirst(bos, bos[i], i);
  }

  // ----- several streams over shared buffers

  /** The streams and buffers in existence. */
  datatype World = World(streams: set<Stream>, bos: set<Bo>)

  /** The buffer tables of all streams. */
  type Tabs = map<Stream, seq<Bo>>

  ghost function TabsOf(w: World): Tabs
    reads w.streams`bos
  {
    map s | s in w.streams :: s.bos
  }

  ghost function Holders(tabs: Tabs, b: Bo): set<Stream> {
    set s | s in tabs && b in tabs[s]
  }

  ghost predicate StreamOk(w: World, s: Stream)
    reads s
  {
    s.TableOk() && s.RelocsOk() && forall i :: 0 <= i < |s.bos| ==> s.bos[i] in w.bos
  }

  ghost predicate Streams(w: World)
    reads w.streams
  {
    forall s :: s in w.streams ==> StreamOk(w, s)
  }

  /** The mutable part of a buffer. */
  datatype BoState = BoState(refcnt: nat, owned: nat, current: Stream?, idx: nat)

  ghost function Referenced(state: BoState): BoState {
    state.(refcnt := state.refcnt + 1)
  }

  ghost function CachedAs(state: BoState, s: Stream, i: nat): BoState {
    state.(current := s, idx := i)
  }

  type States = map<Bo, BoState>

  ghost function StatesOf(w: World): States
    reads w.bos
  {
    map b | b in w.bos :: BoState(b.refcnt, b.owned, b.currentStream, b.idx)
  }

  /** The cached index of a buffer is its row in the table of its current stream. */
  ghost predicate CacheIn(tabs: Tabs, b: Bo, state: BoState) {
    state.current != null ==>
      state.current in tabs && state.idx < |tabs[state.current]| && tabs[state.current][state.idx] == b
  }

  /** Each table row holds exactly one reference. */
  ghost predicate RefsIn(tabs: Tabs, b: Bo, state: BoState) {
    state.refcnt == state.owned + |Holders(tabs, b)|
  }

  ghost predicate Consistent(tabs: Tabs, states: States) {
    forall b :: b in states ==> CacheIn(tabs, b, states[b]) && RefsIn(tabs, b, states[b])
  }

  ghost predicate Valid(w: World)
    reads w.streams, w.bos
  {
    Streams(w) && Consistent(TabsOf(w), StatesOf(w))
  }

  /** The fast path agrees with the linear search. */
  lemma CacheAgrees(w: World, s: Stream, b: Bo)
    requires Valid(w) && b in w.bos && b.currentStream == s
    ensures b.idx == Find(s.bos, b) < |s.bos|
  {
    assert CacheIn(TabsOf(w), b, StatesOf(w)[b]);
    assert StreamOk(w, s);
    FindInDistinct(s.bos, b.idx);
  }

  /** A buffer nobody references is cached nowhere, so it can be reused. */
  lemma UnreferencedIsUncached(w: World, b: Bo)
    requires Valid(w) && b in w.bos && b.refcnt == 0
    ensures b.currentStream == null && forall s :: s in w.streams ==> b !in s.bos
  {
    var tabs, state := TabsOf(w), StatesOf(w)[b];
    assert CacheIn(tabs, b, state) && RefsIn(tabs, b, state);
    assert Holders(tabs, b) == {};
    forall s | s in w.streams ensures b !in s.bos {
      assert s in tabs && tabs[s] == s.bos && s !in Holders(tabs, b);
    }
  }

  lemma HoldersAppend(tabs: Tabs, s: Stream, b: Bo, c: Bo)
    requires s in tabs && b !in tabs[s]
    ensures |Holders(tabs[s := tabs[s] + [b]], c)| == |Holders(tabs, c)| + if c == b then 1 else 0
  {
    var after := tabs[s := tabs[s] + [b]];
    if c == b {
      assert Holders(after, c) == Holders(tabs, c) + {s};
    } else {
      assert Holders(after, c) == Holders(tabs, c);
    }
  }

  lemma AppendConsistent(tabs: Tabs, states: States, s: Stream, b: Bo)
    requires Consistent(tabs, states) && s in tabs && b in states && b !in tabs[s]
    ensures Consistent(tabs[s := tabs[s] + [b]], states[b := Referenced(states[b])])
  {
    var after, now := tabs[s := tabs[s] + [b]], states[b := Referenced(states[b])];
    forall c | c in now ensures CacheIn(after, c, now[c]) && RefsIn(after, c, now[c]) {
      assert CacheIn(tabs, c, states[c]) && RefsIn(tabs, c, states[c]);
      HoldersAppend(tabs, s, b, c);
    }
  }

  lemma CacheConsistent(tabs: Tabs, states: States, s: Stream, b: Bo, i: nat)
    requires Consistent(tabs, states) && s in tabs && i < |tabs[s]| && tabs[s][i] == b && b in states
    ensures Consistent(tabs, states[b := CachedAs(states[b], s, i)])
  {
    var now := states[b := CachedAs(states[b], s, i)];
    forall c | c in now ensures CacheIn(tabs, c, now[c]) && RefsIn(tabs, c, now[c]) {
      assert CacheIn(tabs, c, states[c]) && RefsIn(tabs, c, states[c]);
    }
  }

  /** `append_bo`. */
  method AppendBo(s: Stream, b: Bo, ghost w: World) returns (idx: nat)
    requires Valid(w) && s in w.streams && b in w.bos && b !in s.bos
    modifies s`submitBos, s`maxSubmitBos, s`bos, s`maxBos, b`refcnt
    ensures Valid(w)
    ensures idx == old(|s.bos|) && s.bos == old(s.bos) + [b]
    ensures s.submitBos == old(s.submitBos) + [SubmitBo(b.handle, false, false)]
  {
    ghost var tabs, states := TabsOf(w), StatesOf(w);
    assert tabs[s] == s.bos;
    idx := AddRowIn(s, b, w);
    Ref(b, w);
    AppendConsistent(tabs, states, s, b);
  }

  /** `etna_bo_ref`. */
  method Ref(b: Bo, ghost w: World)
    requires b in w.bos && Streams(w)
    modifies b`refcnt
    ensures Streams(w) && TabsOf(w) == old(TabsOf(w))
    ensures StatesOf(w) == old(StatesOf(w))[b := Referenced(old(StatesOf(w))[b])]
  {
    b.refcnt := b.refcnt + 1;
  }

  method AddRowIn(s: Stream, b: Bo, ghost w: World) returns (idx: nat)
    requires Streams(w) && s in w.streams && b in w.bos && b !in s.bos
    modifies s`submitBos, s`maxSubmitBos, s`bos, s`maxBos
    ensures Streams(w) && TabsOf(w) == old(TabsOf(w))[s := old(s.bos) + [b]] && StatesOf(w) == old(StatesOf(w))
    ensures idx == old(|s.bos|) && s.bos == old(s.bos) + [b]
    ensures s.submitBos == old(s.submitBos) + [SubmitBo(b.handle, false, false)]
  {
    assert StreamOk(w, s);
    idx := AddRow(s, b);
    assert StreamOk(w, s);
    forall t | t in w.streams && t != s ensures StreamOk(w, t) {
      assert old(StreamOk(w, t));
    }
  }

  /** The two appends of `append_bo`, which must stay in step. */
  method AddRow(s: Stream, b: Bo) returns (idx: nat)
    requires s.TableOk() && s.RelocsOk() && b !in s.bos
    modifies s`submitBos, s`maxSubmitBos, s`bos, s`maxBos
    ensures s.TableOk() && s.RelocsOk()
    ensures idx == old(|s.bos|) && s.bos == old(s.bos) + [b]
    ensures s.submitBos == old(s.submitBos) + [SubmitBo(b.handle, false, false)]
  {
    ghost var before := s.Pending();
    idx := |s.submitBos|;
    s.maxSubmitBos := Grow(|s.submitBos|, s.maxSubmitBos);
    s.submitBos := s.submitBos + [SubmitBo(b.handle, false, false)];
    idx := |s.bos|;
    s.maxBos := Grow(|s.bos|, s.maxBos);
    s.bos := s.bos + [b];
    AppendDistinct(old(s.bos), b);
    AppendKeepsGood(before, s.Pending());
  }

  lemma AppendDistinct(bos: seq<Bo>, b: Bo)
    requires Distinct(bos) && b !in bos
    ensures Distinct(bos + [b])
  {
    forall i, j | 0 <= i < |bos + [b]| && 0 <= j < |bos + [b]| && i != j ensures Differ(bos + [b], i, j) {
      if i < |bos| && j < |bos| { assert Differ(bos, i, j); }
    }
  }

  /** Rows may be added and flags set: what refers to the old rows stays right. */
  lemma AppendKeepsGood(a: Submission, b: Submission)
    requires RowsGood(a) && b.relocs == a.relocs && b.pmrs == a.pmrs && b.asked == a.asked && b.watched == a.watched
    requires b.words == a.words
    requires |a.bos| <= |b.bos| && forall i :: 0 <= i < |a.bos| ==> a.bos[i].handle == b.bos[i].handle
    ensures RowsGood(b)
  {
    forall k | 0 <= k < |b.relocs| ensures RelocGood(b, k) { assert RelocGood(a, k); }
    forall k | 0 <= k < |b.pmrs| ensures PmrGood(b, k) { assert PmrGood(a, k); }
  }

  // ----- bo2idx

  method SetCache(b: Bo, s: Stream, i: nat, ghost w: World)
    requires Valid(w) && s in w.streams && i < |s.bos| && s.bos[i] == b && b in w.bos
    modifies b`currentStream, b`idx
    ensures Valid(w) && b.currentStream == s && b.idx == i
  {
    ghost var tabs, states := TabsOf(w), StatesOf(w);
    assert tabs[s] == s.bos;
    WriteCache(b, s, i, w);
    CacheConsistent(tabs, states, s, b, i);
  }

  method WriteCache(b: Bo, s: Stream, i: nat, ghost w: World)
    requires b in w.bos && Streams(w)
    modifies b`currentStream, b`idx
    ensures Streams(w) && TabsOf(w) == old(TabsOf(w))
    ensures StatesOf(w) == old(StatesOf(w))[b := CachedAs(old(StatesOf(w))[b], s, i)]
    ensures b.currentStream == s && b.idx == i
  {
    b.currentStream := s;
    b.idx := i;
  }

  /** Flags are only ever added to a row. */
  function WithFlags(row: SubmitBo, read: bool, write: bool): SubmitBo {
    row.(read := row.read || read, write := row.write || write)
  }

  method SetFlags(s: Stream, i: nat, read: bool, write: bool, ghost w: World)
    requires Streams(w) && s in w.streams && i < |s.submitBos|
    modifies s`submitBos
    ensures Streams(w) && TabsOf(w) == old(TabsOf(w)) && StatesOf(w) == old(StatesOf(w))
    ensures s.submitBos == old(s.submitBos)[i := WithFlags(old(s.submitBos[i]), read, write)]
  {
    assert StreamOk(w, s);
    SetRowFlags(s, i, read, write);
    assert StreamOk(w, s);
    forall t | t in w.streams && t != s ensures StreamOk(w, t) {
      assert old(StreamOk(w, t));
    }
  }

  method SetRowFlags(s: Stream, i: nat, read: bool, write: bool)
    requires s.TableOk() && s.RelocsOk() && i < |s.submitBos|
    modifies s`submitBos
    ensures s.TableOk() && s.RelocsOk()
    ensures s.submitBos == old(s.submitBos)[i := WithFlags(old(s.submitBos[i]), read, write)]
  {
    ghost var before := s.Pending();
    if read { s.submitBos := s.submitBos[i := s.submitBos[i].(read := true)]; }
    if write { s.submitBos := s.submitBos[i := s.submitBos[i].(write := true)]; }
    AppendKeepsGood(before, s.Pending());
  }

  /** The rows once `b` has one. */
  ghost function Rows(bos: seq<Bo>, rows: seq<SubmitBo>, b: Bo): seq<SubmitBo> {
    if b in bos then rows else rows + [SubmitBo(b.handle, false, false)]
  }

  /** The rows once the row `i` has flags added. */
  ghost function Flagged(rows: seq<SubmitBo>, i: nat, read: bool, write: bool): seq<SubmitBo> {
    if i < |rows| then rows[i := WithFlags(rows[i], read, write)] else rows
  }

  /** `bo2idx`: the row of `b` in the table of `s`, added if it is missing.  Fast path and
      slow path give the index a linear search would. */
  method Bo2Idx(s: Stream, b: Bo, read: bool, write: bool, ghost w: World) returns (idx: nat)
    requires Valid(w) && s in w.streams && b in w.bos
    modifies s`submitBos, s`maxSubmitBos, s`bos, s`maxBos, b`refcnt, b`currentStream, b`idx
    ensures Valid(w)
    ensures s.bos == if b in old(s.bos) then old(s.bos) else old(s.bos) + [b]
    ensures idx == Find(s.bos, b) < |s.bos| == |s.submitBos| && b.currentStream == s && b.idx == idx
    ensures s.submitBos[idx].handle == b.handle
    ensures s.submitBos == Flagged(Rows(old(s.bos), old(s.submitBos), b), idx, read, write)
  {
    idx := Locate(s, b, w);
    assert StreamOk(w, s);
    SetFlags(s, idx, read, write, w);
  }

  method Locate(s: Stream, b: Bo, ghost w: World) returns (idx: nat)
    requires Valid(w) && s in w.streams && b in w.bos
    modifies s`submitBos, s`maxSubmitBos, s`bos, s`maxBos, b`refcnt, b`currentStream, b`idx
    ensures Valid(w)
    ensures s.bos == if b in old(s.bos) then old(s.bos) else old(s.bos) + [b]
    ensures s.submitBos == Rows(old(s.bos), old(s.submitBos), b)
    ensures idx == Find(s.bos, b) < |s.bos| && b.currentStream == s && b.idx == idx
  {
    if b.currentStream == s {
      idx := b.idx;
      CacheAgrees(w, s, b);
    } else {
      idx := 0;
      while idx < |s.bos| && s.bos[idx] != b
        invariant 0 <= idx <= |s.bos|
        invariant forall j :: 0 <= j < idx ==> s.bos[j] != b
      {
        idx := idx + 1;
      }
      if idx == |s.bos| {
        idx := AppendBo(s, b, w);
      }
      FindFirst(s.bos, b, idx);
      SetCache(b, s, idx, w);
    }
  }

  // ----- emit, reloc and perf

  method Emit(s: Stream, ghost w: World)
    requires Valid(w) && s in w.streams && s.offset < s.size
    modifies s`offset
    ensures Valid(w) && s.offset == old(s.offset) + 1
  {
    assert StreamOk(w, s);
    PushWord(s);
    assert StreamOk(w, s);
    forall t | t in w.streams && t != s ensures StreamOk(w, t) {
      assert old(StreamOk(w, t));
    }
  }

  method PushWord(s: Stream)
    requires s.TableOk() && s.RelocsOk() && s.offset < s.size
    modifies s`offset
    ensures s.TableOk() && s.RelocsOk() && s.offset == old(s.offset) + 1
  {
    ghost var before := s.Pending();
    s.offset := s.offset + 1;
    EmitKeepsGood(before, s.Pending());
  }

  lemma EmitKeepsGood(a: Submission, b: Submission)
    requires RowsGood(a) && b == a.(words := a.words + 1)
    ensures RowsGood(b)
  {
    forall k | 0 <= k < |b.relocs| ensures RelocGood(b, k) { assert RelocGood(a, k); }
    forall k | 0 <= k < |b.pmrs| ensures PmrGood(b, k) { assert PmrGood(a, k); }
  }

  /** `etna_cmd_stream_reloc`. */
  method Relocate(s: Stream, b: Bo, offset: nat, read: bool, write: bool, ghost w: World)
    requires Valid(w) && s in w.streams && b in w.bos && s.offset < s.size
    modifies s`submitBos, s`maxSubmitBos, s`bos, s`maxBos, b`refcnt, b`currentStream, b`idx
    modifies s`relocs, s`maxRelocs, s`asked, s`offset
    ensures Valid(w)
    ensures s.bos == if b in old(s.bos) then old(s.bos) else old(s.bos) + [b]
    ensures s.submitBos == Flagged(Rows(old(s.bos), old(s.submitBos), b), Find(s.bos, b), read, write)
    ensures s.relocs == old(s.relocs) + [Reloc(Find(s.bos, b), offset, ByteOffset(old(s.offset)))]
    ensures s.asked == old(s.asked) + [b.handle] && s.offset == old(s.offset) + 1
    ensures b.currentStream == s && b.idx == Find(s.bos, b)
  {
    var idx := Bo2Idx(s, b, read, write, w);
    PushRelocIn(s, b, Reloc(idx, offset, ByteOffset(s.offset)), w);
  }

  method PushRelocIn(s: Stream, b: Bo, r: Reloc, ghost w: World)
    requires Streams(w) && s in w.streams && s.offset < s.size
    requires r.relocIdx < |s.bos| && s.bos[r.relocIdx] == b && r.submitOffset == ByteOffset(s.offset)
    modifies s`relocs, s`maxRelocs, s`asked, s`offset
    ensures Streams(w) && TabsOf(w) == old(TabsOf(w)) && StatesOf(w) == old(StatesOf(w))
    ensures s.relocs == old(s.relocs) + [r] && s.asked == old(s.asked) + [b.handle] && s.offset == old(s.offset) + 1
  {
    assert StreamOk(w, s);
    PushReloc(s, b, r);
    assert StreamOk(w, s);
    forall t | t in w.streams && t != s ensures StreamOk(w, t) {
      assert old(StreamOk(w, t));
    }
  }

  method PushReloc(s: Stream, b: Bo, r: Reloc)
    requires s.TableOk() && s.RelocsOk() && s.offset < s.size
    requires r.relocIdx < |s.bos| && s.bos[r.relocIdx] == b && r.submitOffset == ByteOffset(s.offset)
    modifies s`relocs, s`maxRelocs, s`asked, s`offset
    ensures s.TableOk() && s.RelocsOk()
    ensures s.relocs == old(s.relocs) + [r] && s.asked == old(s.asked) + [b.handle] && s.offset == old(s.offset) + 1
  {
    ghost var before := s.Pending();
    s.maxRelocs := Grow(|s.relocs|, s.maxRelocs);
    s.relocs := s.relocs + [r];
    s.asked := s.asked + [b.handle];
    s.offset := s.offset + 1;
    RelocKeepsGood(before, s.Pending(), r, b.handle);
  }

  /** A relocation is placed after all words emitted so far, hence after every earlier one. */
  lemma RelocKeepsGood(a: Submission, b: Submission, r: Reloc, handle: nat)
    requires RowsGood(a) && b == a.(relocs := a.relocs + [r], asked := a.asked + [handle], words := a.words + 1)
    requires r.relocIdx < |a.bos| && a.bos[r.relocIdx].handle == handle && r.submitOffset == ByteOffset(a.words)
    ensures RowsGood(b) && (Good(a) && 4 * a.words < U32 ==> Good(b))
  {
    forall k | 0 <= k < |b.relocs| ensures RelocGood(b, k) {
      if k < |a.relocs| { assert RelocGood(a, k); }
    }
    if Good(a) && 4 * a.words < U32 {
      forall j, k | 0 <= j < k < |b.relocs| ensures OffsetsAscend(b.relocs, j, k) {
        assert RelocGood(a, j);
        if k < |a.relocs| { assert OffsetsAscend(a.relocs, j, k); }
      }
    }
    forall k | 0 <= k < |b.pmrs| ensures PmrGood(b, k) { assert PmrGood(a, k); }
  }

  /** `etna_cmd_stream_perf`. */
  method Perf(s: Stream, b: Bo, offset: nat, sequence: nat, ghost w: World)
    requires Valid(w) && s in w.streams && b in w.bos
    modifies s`submitBos, s`maxSubmitBos, s`bos, s`maxBos, b`refcnt, b`currentStream, b`idx
    modifies s`pmrs, s`maxPmrs, s`watched
    ensures Valid(w)
    ensures s.bos == if b in old(s.bos) then old(s.bos) else old(s.bos) + [b]
    ensures s.submitBos == Flagged(Rows(old(s.bos), old(s.submitBos), b), Find(s.bos, b), true, true)
    ensures s.pmrs == old(s.pmrs) + [Pmr(Find(s.bos, b), offset, sequence)]
    ensures s.watched == old(s.watched) + [b.handle]
    ensures b.currentStream == s && b.idx == Find(s.bos, b)
  {
    var idx := Bo2Idx(s, b, true, true, w);
    PushPmrIn(s, b, Pmr(idx, offset, sequence), w);
  }

  method PushPmrIn(s: Stream, b: Bo, p: Pmr, ghost w: World)
    requires Streams(w) && s in w.streams && p.readIdx < |s.bos| && s.bos[p.readIdx] == b
    modifies s`pmrs, s`maxPmrs, s`watched
    ensures Streams(w) && TabsOf(w) == old(TabsOf(w)) && StatesOf(w) == old(StatesOf(w))
    ensures s.pmrs == old(s.pmrs) + [p] && s.watched == old(s.watched) + [b.handle]
  {
    assert StreamOk(w, s);
    PushPmr(s, b, p);
    assert StreamOk(w, s);
    forall t | t in w.streams && t != s ensures StreamOk(w, t) {
      assert old(StreamOk(w, t));
    }
  }

  method PushPmr(s: Stream, b: Bo, p: Pmr)
    requires s.TableOk() && s.RelocsOk() && p.readIdx < |s.bos| && s.bos[p.readIdx] == b
    modifies s`pmrs, s`maxPmrs, s`watched
    ensures s.TableOk() && s.RelocsOk()
    ensures s.pmrs == old(s.pmrs) + [p] && s.watched == old(s.watched) + [b.handle]
  {
    ghost var before := s.Pending();
    s.maxPmrs := Grow(|s.pmrs|, s.maxPmrs);
    s.pmrs := s.pmrs + [p];
    s.watched := s.watched + [b.handle];
    PmrKeepsGood(before, s.Pending(), p, b.handle);
  }

  lemma PmrKeepsGood(a: Submission, b: Submission, p: Pmr, handle: nat)
    requires RowsGood(a) && b == a.(pmrs := a.pmrs + [p], watched := a.watched + [handle])
    requires p.readIdx < |a.bos| && a.bos[p.readIdx].handle == handle
    ensures RowsGood(b)
  {
    forall k | 0 <= k < |b.relocs| ensures RelocGood(b, k) { assert RelocGood(a, k); }
    forall k | 0 <= k < |b.pmrs| ensures PmrGood(b, k) {
      if k < |a.pmrs| { assert PmrGood(a, k); }
    }
  }

  // ----- flush

  ghost function Freed(state: BoState): BoState {
    state.(refcnt := if state.refcnt > 0 then state.refcnt - 1 else 0, current := null)
  }

  /** The buffers after a flush has gone through the table `bos`. */
  ghost function Released(states: States, bos: seq<Bo>): States
    requires forall b :: b in bos ==> b in states
    ensures Released(states, bos).Keys == states.Keys
  {
    if bos == [] then states
    else
      var last := bos[|bos| - 1];
      var before := Released(states, bos[..|bos| - 1]);
      before[last := Freed(before[last])]
  }

  lemma {:induction false} ReleasedAt(states: States, bos: seq<Bo>, b: Bo)
    requires (forall c :: c in bos ==> c in states) && Distinct(bos) && b in states
    ensures Released(states, bos)[b] == if b in bos then Freed(states[b]) else states[b]
  {
    if bos != [] {
      var n := |bos| - 1;
      DistinctPrefix(bos, n);
      assert bos == bos[..n] + [bos[n]];
      ReleasedAt(states, bos[..n], b);
      NotInPrefix(bos, n);
    }
  }

  lemma DistinctPrefix(bos: seq<Bo>, n: nat)
    requires Distinct(bos) && n <= |bos|
    ensures Distinct(bos[..n])
  {
    forall i, j | 0 <= i < n && 0 <= j < n && i != j ensures Differ(bos[..n], i, j) { assert Differ(bos, i, j); }
  }

  lemma NotInPrefix(bos: seq<Bo>, n: nat)
    requires Distinct(bos) && n < |bos|
    ensures bos[n] !in bos[..n]
  {
    forall i | 0 <= i < n ensures bos[..n][i] != bos[n] { assert Differ(bos, i, n); }
  }

  lemma HoldersFlush(tabs: Tabs, s: Stream, c: Bo)
    requires s in tabs
    ensures |Holders(tabs, c)| == |Holders(tabs[s := []], c)| + if c in tabs[s] then 1 else 0
  {
    var after := tabs[s := []];
    if c in tabs[s] {
      assert Holders(tabs, c) == Holders(after, c) + {s};
    } else {
      assert Holders(tabs, c) == Holders(after, c);
    }
  }

  /** A flush gives back one reference per row and forgets the cache entry of every buffer in
      its table, also one that another stream has set. */
  lemma FlushConsistent(tabs: Tabs, states: States, s: Stream)
    requires Consistent(tabs, states) && s in tabs && Distinct(tabs[s]) && forall b :: b in tabs[s] ==> b in states
    ensures Consistent(tabs[s := []], Released(states, tabs[s]))
    ensures forall c :: c in states ==>
      Released(states, tabs[s])[c].current == if c in tabs[s] then null else states[c].current
  {
    var after, now := tabs[s := []], Released(states, tabs[s]);
    forall c | c in now
      ensures CacheIn(after, c, now[c]) && RefsIn(after, c, now[c]) && now[c].current == if c in tabs[s] then null
        else states[c].current
    {
      assert CacheIn(tabs, c, states[c]) && RefsIn(tabs, c, states[c]);
      ReleasedAt(states, tabs[s], c);
      HoldersFlush(tabs, s, c);
    }
  }

  /** The end of a table row: its cache entry is dropped and its reference given back. */
  method Release(b: Bo, ghost w: World)
    requires b in w.bos && b.refcnt > 0
    modifies b`currentStream, b`refcnt
    ensures TabsOf(w) == old(TabsOf(w))
    ensures StatesOf(w) == old(StatesOf(w))[b := Freed(old(StatesOf(w))[b])]
  {
    b.currentStream := null;
    b.refcnt := b.refcnt - 1;
  }

  lemma RowHoldsReference(w: World, states: States, s: Stream, i: nat)
    requires Streams(w) && s in w.streams && i < |s.bos| && Consistent(TabsOf(w), states) && states.Keys == w.bos
    ensures s.bos[i] in w.bos && Released(states, s.bos[..i])[s.bos[i]].refcnt > 0
  {
    var b := s.bos[i];
    assert StreamOk(w, s);
    assert CacheIn(TabsOf(w), b, states[b]) && RefsIn(TabsOf(w), b, states[b]);
    assert s in Holders(TabsOf(w), b);
    DistinctPrefix(s.bos, i);
    NotInPrefix(s.bos, i);
    ReleasedAt(states, s.bos[..i], b);
  }

  method ReleaseRow(s: Stream, b: Bo, ghost i: nat, ghost states: States, ghost w: World)
    requires Streams(w) && s in w.streams && i < |s.bos| && s.bos[i] == b && Consistent(TabsOf(w), states)
    requires states.Keys == w.bos
    requires (forall b :: b in s.bos ==> b in w.bos) && StatesOf(w) == Released(states, s.bos[..i])
    modifies b`currentStream, b`refcnt
    ensures Streams(w) && TabsOf(w) == old(TabsOf(w)) && StatesOf(w) == Released(states, s.bos[..i + 1])
  {
    RowHoldsReference(w, states, s, i);
    assert StatesOf(w)[b].refcnt == b.refcnt;
    Release(b, w);
    assert s.bos[..i + 1][..i] == s.bos[..i];
  }

  /** The loop of `flush`. */
  method ReleaseAll(s: Stream, ghost w: World)
    requires Valid(w) && s in w.streams
    modifies w.bos`currentStream, w.bos`refcnt
    ensures Streams(w) && TabsOf(w) == old(TabsOf(w))
    ensures (forall b :: b in s.bos ==> b in w.bos) && StatesOf(w) == Released(old(StatesOf(w)), s.bos)
  {
    ghost var states := StatesOf(w);
    assert StreamOk(w, s);
    var i := 0;
    while i < |s.bos|
      invariant i <= |s.bos|
      invariant Streams(w) && TabsOf(w) == old(TabsOf(w)) && StatesOf(w) == Released(states, s.bos[..i])
    {
      ReleaseRow(s, s.bos[i], i, states, w);
      i := i + 1;
    }
    assert s.bos[..i] == s.bos;
  }

  /** `flush` followed by `reset_buffer`. */
  method Flush(s: Stream, ghost w: World)
    requires Valid(w) && s in w.streams
    modifies w.bos`currentStream, w.bos`refcnt
    modifies s`offset, s`submitBos, s`relocs, s`pmrs, s`bos, s`asked, s`watched, s`history
    ensures Valid(w)
    ensures s.history == old(s.history) + [old(s.Pending())]
    ensures s.Pending() == Submission([], [], [], 0, [], []) && s.bos == []
    ensures OneFewer(old(StatesOf(w)), StatesOf(w), old(s.bos))
    ensures forall b :: b in w.bos ==> b.currentStream == (if b in old(s.bos) then null else old(b.currentStream))
  {
    ghost var tabs, states := TabsOf(w), StatesOf(w);
    assert tabs[s] == s.bos && StreamOk(w, s);
    FlushConsistent(tabs, states, s);
    FlushCounts(tabs, states, s);
    ReleaseAll(s, w);
    Reset(s, w);
  }

  /** Exactly the buffers of the table have lost a reference, one each, and their cache entry. */
  ghost predicate OneFewer(states: States, now: States, bos: seq<Bo>) {
    && now.Keys == states.Keys
    && (forall b :: b in states ==> now[b].refcnt == states[b].refcnt - if b in bos then 1 else 0)
    && (forall b :: b in states ==> now[b].current == if b in bos then null else states[b].current)
  }

  lemma FlushCounts(tabs: Tabs, states: States, s: Stream)
    requires Consistent(tabs, states) && s in tabs && Distinct(tabs[s]) && forall b :: b in tabs[s] ==> b in states
    ensures OneFewer(states, Released(states, tabs[s]), tabs[s])
  {
    var now := Released(states, tabs[s]);
    forall b | b in states
      ensures now[b].refcnt == states[b].refcnt - if b in tabs[s] then 1 else 0
      ensures now[b].current == if b in tabs[s] then null else states[b].current
    {
      ReleasedAt(states, tabs[s], b);
      assert RefsIn(tabs, b, states[b]);
      assert b in tabs[s] ==> s in Holders(tabs, b);
    }
  }

  method Reset(s: Stream, ghost w: World)
    requires Streams(w) && s in w.streams
    modifies s`offset, s`submitBos, s`relocs, s`pmrs, s`bos, s`asked, s`watched, s`history
    ensures Streams(w) && TabsOf(w) == old(TabsOf(w))[s := []] && StatesOf(w) == old(StatesOf(w))
    ensures s.history == old(s.history) + [old(s.Pending())]
    ensures s.Pending() == Submission([], [], [], 0, [], []) && s.bos == []
  {
    assert StreamOk(w, s);
    ResetBuffer(s);
    assert StreamOk(w, s);
    forall t | t in w.streams && t != s ensures StreamOk(w, t) {
      assert old(StreamOk(w, t));
    }
  }

  /** `reset_buffer`, and the submission as the kernel saw it. */
  method ResetBuffer(s: Stream)
    requires s.TableOk() && s.RelocsOk()
    modifies s`offset, s`submitBos, s`relocs, s`pmrs, s`bos, s`asked, s`watched, s`history
    ensures s.TableOk() && s.RelocsOk()
    ensures s.history == old(s.history) + [old(s.Pending())]
    ensures s.Pending() == Submission([], [], [], 0, [], []) && s.bos == []
  {
    s.history := s.history + [s.Pending()];
    s.offset, s.submitBos, s.relocs, s.pmrs, s.bos, s.asked, s.watched := 0, [], [], [], [], [], [];
  }

  /** Deleting a stream drops its table without touching the buffers: this is safe exactly
      when the table is empty, that is, when the stream has been flushed. */
  lemma DeletedStream(tabs: Tabs, states: States, s: Stream)
    requires Consistent(tabs, states) && s in tabs && forall b :: b in tabs[s] ==> b in states
    ensures Consistent(tabs - {s}, states) <==> tabs[s] == []
  {
    var after := tabs - {s};
    if tabs[s] == [] {
      forall c | c in states ensures CacheIn(after, c, states[c]) && RefsIn(after, c, states[c]) {
        assert CacheIn(tabs, c, states[c]) && RefsIn(tabs, c, states[c]);
        assert Holders(after, c) == Holders(tabs, c);
      }
    } else {
      var b := tabs[s][0];
      assert RefsIn(tabs, b, states[b]);
      assert Holders(tabs, b) == Holders(after, b) + {s};
      assert !RefsIn(after, b, states[b]);
    }
  }

  // ----- every run

  ghost predicate HandlesDiffer(rows: seq<SubmitBo>, i: nat, j: nat)
    requires i < |rows| && j < |rows|
  {
    rows[i].handle != rows[j].handle
  }

  /** When handles identify buffers, every buffer has one and only one row. */
  lemma OneRowPerHandle(w: World, s: Stream, i: nat, j: nat)
    requires Valid(w) && s in w.streams && i < |s.submitBos| && j < |s.submitBos| && i != j
    requires forall b, c :: b in w.bos && c in w.bos && b.handle == c.handle ==> b == c
    ensures HandlesDiffer(s.submitBos, i, j)
  {
    assert StreamOk(w, s) && Differ(s.bos, i, j);
    assert s.bos[i] in w.bos && s.bos[j] in w.bos;
  }

  /** A client's own reference (`etna_bo_ref` by a client, or reuse from the cache of
      unreferenced buffers). */
  method ClientRef(b: Bo, ghost w: World)
    requires Valid(w) && b in w.bos
    modifies b`refcnt, b`owned
    ensures Valid(w) && b.refcnt == old(b.refcnt) + 1 && b.owned == old(b.owned) + 1
  {
    ghost var tabs, states := TabsOf(w), StatesOf(w);
    CountClient(b, 1, w);
    ClientConsistent(tabs, states, b, 1);
  }

  /** `etna_bo_del` by a client. */
  method ClientDel(b: Bo, ghost w: World)
    requires Valid(w) && b in w.bos && b.owned > 0 && b.refcnt > 0
    modifies b`refcnt, b`owned
    ensures Valid(w) && b.refcnt == old(b.refcnt) - 1 && b.owned == old(b.owned) - 1
  {
    ghost var tabs, states := TabsOf(w), StatesOf(w);
    CountClient(b, -1, w);
    ClientConsistent(tabs, states, b, -1);
  }

  ghost function Owned(state: BoState, delta: int): BoState
    requires 0 <= state.refcnt + delta && 0 <= state.owned + delta
  {
    state.(refcnt := state.refcnt + delta, owned := state.owned + delta)
  }

  method CountClient(b: Bo, delta: int, ghost w: World)
    requires b in w.bos && Streams(w) && 0 <= b.refcnt + delta && 0 <= b.owned + delta
    modifies b`refcnt, b`owned
    ensures Streams(w) && TabsOf(w) == old(TabsOf(w))
    ensures StatesOf(w) == old(StatesOf(w))[b := Owned(old(StatesOf(w))[b], delta)]
    ensures b.refcnt == old(b.refcnt) + delta && b.owned == old(b.owned) + delta
  {
    b.refcnt := b.refcnt + delta;
    b.owned := b.owned + delta;
  }

  lemma ClientConsistent(tabs: Tabs, states: States, b: Bo, delta: int)
    requires Consistent(tabs, states) && b in states && 0 <= states[b].refcnt + delta && 0 <= states[b].owned + delta
    ensures Consistent(tabs, states[b := Owned(states[b], delta)])
  {
    var now := states[b := Owned(states[b], delta)];
    forall c | c in now ensures CacheIn(tabs, c, now[c]) && RefsIn(tabs, c, now[c]) {
      assert CacheIn(tabs, c, states[c]) && RefsIn(tabs, c, states[c]);
    }
  }

  lemma NewBoConsistent(tabs: Tabs, states: States, b: Bo)
    requires Consistent(tabs, states) && b !in states && Holders(tabs, b) == {}
    ensures Consistent(tabs, states[b := BoState(1, 1, null, 0)])
  {
    var now := states[b := BoState(1, 1, null, 0)];
    forall c | c in now ensures CacheIn(tabs, c, now[c]) && RefsIn(tabs, c, now[c]) {
      if c != b { assert CacheIn(tabs, c, states[c]) && RefsIn(tabs, c, states[c]); }
    }
  }

  lemma NewStreamConsistent(tabs: Tabs, states: States, s: Stream)
    requires Consistent(tabs, states) && s !in tabs
    ensures Consistent(tabs[s := []], states)
  {
    var after := tabs[s := []];
    forall c | c in states ensures CacheIn(after, c, states[c]) && RefsIn(after, c, states[c]) {
      assert CacheIn(tabs, c, states[c]) && RefsIn(tabs, c, states[c]);
      assert Holders(after, c) == Holders(tabs, c);
    }
  }

  /** A buffer from the kernel, referenced once by its client. */
  method NewBo(handle: nat, ghost w: World) returns (b: Bo)
    requires Valid(w)
    ensures fresh(b) && b.handle == handle && b.owned == 1 && Valid(World(w.streams, w.bos + {b}))
  {
    ghost var tabs, states := TabsOf(w), StatesOf(w);
    b := new Bo(handle);
    ghost var after := World(w.streams, w.bos + {b});
    forall s | s in w.streams ensures StreamOk(after, s) && b !in s.bos {
      assert StreamOk(w, s);
    }
    NewBoConsistent(tabs, states, b);
    assert TabsOf(after) == tabs;
    assert StatesOf(after) == states[b := BoState(1, 1, null, 0)];
  }

  /** `etna_cmd_stream_new`: a size of 0 is refused. */
  method NewStream(words: nat, ghost w: World) returns (s: Stream?)
    requires Valid(w) && words < U32
    ensures s == null <==> words == 0
    ensures s != null ==> fresh(s) && s.size == Even(words) && Valid(World(w.streams + {s}, w.bos))
    ensures s != null ==> s.Pending() == Submission([], [], [], 0, [], []) && s.bos == [] && s.history == []
  {
    if words == 0 { return null; }
    ghost var tabs, states := TabsOf(w), StatesOf(w);
    s := new Stream(words);
    ghost var after := World(w.streams + {s}, w.bos);
    forall t | t in after.streams ensures StreamOk(after, t) {
      if t != s { assert StreamOk(w, t); }
    }
    NewStreamConsistent(tabs, states, s);
    assert TabsOf(after) == tabs[s := []];
    assert StatesOf(after) == states;
  }

  method StreamAndBo(words: nat, handle: nat) returns (s: Stream, b: Bo)
    requires 0 < words < U32 - 1
    ensures fresh(s) && fresh(b) && Valid(World({s}, {b})) && s.bos == [] && s.offset == 0 < s.size && b.owned == 1
  {
    var made := NewStream(words, World({}, {}));
    s := made;
    assert World({} + {s}, {}) == World({s}, {});
    b := NewBo(handle, World({s}, {}));
    assert World({s}, {} + {b}) == World({s}, {b});
  }

  lemma OneHolder(s: Stream, b: Bo)
    requires Valid(World({s}, {b})) && s.bos == [b]
    ensures b.refcnt == b.owned + 1 && !Consistent(TabsOf(World({s}, {b})) - {s}, StatesOf(World({s}, {b})))
  {
    var tabs, states := TabsOf(World({s}, {b})), StatesOf(World({s}, {b}));
    assert RefsIn(tabs, b, states[b]);
    assert Holders(tabs, b) == {s};
    DeletedStream(tabs, states, s);
  }

  /** A stream with one relocation that is deleted before it is flushed: its buffer keeps a
      reference nobody will give back and a cache entry for a stream that is gone. */
  method DeleteUnflushed() returns (s: Stream, b: Bo)
    ensures Valid(World({s}, {b})) && s.bos == [b] && b.refcnt == 2 && b.owned == 1 && b.currentStream == s
    ensures !Consistent(TabsOf(World({s}, {b})) - {s}, StatesOf(World({s}, {b})))
  {
    s, b := StreamAndBo(2, 7);
    Relocate(s, b, 0, true, false, World({s}, {b}));
    assert s.bos == [b];
    OneHolder(s, b);
  }

  /** Commands name streams and buffers by their position. */
  datatype Command =
    | MakeStream(words: nat)
    | MakeBo(handle: nat)
    | EmitWord(stream: nat)
    | RelocTo(stream: nat, bo: nat, offset: nat, read: bool, write: bool)
    | PerfOf(stream: nat, bo: nat, offset: nat, sequence: nat)
    | FlushStream(stream: nat)
    | DeleteStream(stream: nat)
    | RefBo(bo: nat)
    | DelBo(bo: nat)

  // ----- the reference: tables of positions, and no cache

  /** A stream on its own; its table names buffers by their position.  Once it is deleted it is
      no longer open. */
  datatype Sheet = Sheet(size: nat, pending: Submission, table: seq<nat>, history: seq<Submission>, open: bool)

  /** A buffer: its handle and the references clients hold. */
  datatype Shared = Shared(handle: nat, owned: nat)

  datatype State = State(sheets: seq<Sheet>, shared: seq<Shared>)

  ghost function Empty(): Submission {
    Submission([], [], [], 0, [], [])
  }

  ghost function FindAt(table: seq<nat>, b: nat): nat {
    if table == [] || table[0] == b then 0 else FindAt(table[1..], b) + 1
  }

  ghost function Table(table: seq<nat>, b: nat): seq<nat> {
    if b in table then table else table + [b]
  }

  /** The sheet once the buffer has a row with the flags. */
  ghost function Rowed(x: Sheet, b: nat, handle: nat, read: bool, write: bool): Sheet {
    var rows := if b in x.table then x.pending.bos else x.pending.bos + [SubmitBo(handle, false, false)];
    var table := Table(x.table, b);
    x.(table := table, pending := x.pending.(bos := Flagged(rows, FindAt(table, b), read, write)))
  }

  ghost function Emitted(x: Sheet): Sheet {
    x.(pending := x.pending.(words := x.pending.words + 1))
  }

  ghost function Relocated(x: Sheet, b: nat, handle: nat, offset: nat, read: bool, write: bool): Sheet {
    var y := Rowed(x, b, handle, read, write);
    var r := Reloc(FindAt(y.table, b), offset, ByteOffset(x.pending.words));
    y.(pending := y.pending.(relocs := x.pending.relocs + [r], asked := x.pending.asked + [handle], words :=
      x.pending.words + 1))
  }

  ghost function Watched(x: Sheet, b: nat, handle: nat, offset: nat, sequence: nat): Sheet {
    var y := Rowed(x, b, handle, true, true);
    y.(pending := y.pending.(pmrs := x.pending.pmrs + [Pmr(FindAt(y.table, b), offset, sequence)], watched :=
      x.pending.watched + [handle]))
  }

  ghost function Flushed(x: Sheet): Sheet {
    x.(pending := Empty(), table := [], history := x.history + [x.pending])
  }

  /** What a command does to the stream it names. */
  ghost function OnSheet(x: Sheet, shared: seq<Shared>, c: Command): Sheet {
    match c
    case EmitWord(_) => if x.pending.words < x.size then Emitted(x) else x
    case RelocTo(_, b, offset, read, write) =>
      if b < |shared| && x.pending.words < x.size then Relocated(x, b, shared[b].handle, offset, read, write) else x
    case PerfOf(_, b, offset, sequence) => if b < |shared| then Watched(x, b, shared[b].handle, offset, sequence) else x
    case FlushStream(_) => Flushed(x)
    case DeleteStream(_) => if x.table == [] then x.(open := false) else x
    case _ => x
  }

  predicate Names(c: Command) {
    c.EmitWord? || c.RelocTo? || c.PerfOf? || c.FlushStream? || c.DeleteStream?
  }

  ghost function NewSheet(words: nat): Sheet {
    Sheet(Even(words), Empty(), [], [], true)
  }

  ghost function NextSheets(st: State, c: Command): seq<Sheet> {
    if c.MakeStream? && 0 < c.words < U32 then st.sheets + [NewSheet(c.words)]
    else if Names(c) && c.stream < |st.sheets| && st.sheets[c.stream].open
      then st.sheets[c.stream := OnSheet(st.sheets[c.stream], st.shared, c)]
    else st.sheets
  }

  ghost function NextShared(shared: seq<Shared>, c: Command): seq<Shared> {
    match c
    case MakeBo(handle) => shared + [Shared(handle, 1)]
    case RefBo(b) => if b < |shared| then shared[b := shared[b].(owned := shared[b].owned + 1)] else shared
    case DelBo(b) => if b < |shared| && shared[b].owned > 0 then shared[b := shared[b].(owned := shared[b].owned - 1)]
      else shared
    case _ => shared
  }

  /** A command a caller may not give (a full stream, a reference not held, a missing object,
      the deletion of a stream that has not been flushed) is skipped. */
  ghost function Next(st: State, c: Command): State {
    State(NextSheets(st, c), NextShared(st.shared, c))
  }

  ghost function After(commands: seq<Command>): State {
    if commands == [] then State([], []) else Next(After(commands[..|commands| - 1]), commands[|commands| - 1])
  }

  lemma AfterNext(commands: seq<Command>, i: nat)
    requires i < |commands|
    ensures After(commands[..i + 1]) == Next(After(commands[..i]), commands[i])
  {
    assert commands[..i + 1][..i] == commands[..i];
  }

  // ----- streams do not disturb each other

  /** The commands without those that name another stream. */
  function Alone(commands: seq<Command>, k: nat): seq<Command> {
    if commands == [] then []
    else
      var c := commands[|commands| - 1];
      Alone(commands[..|commands| - 1], k) + if Names(c) && c.stream != k then [] else [c]
  }

  ghost predicate SameFor(st: State, st': State, k: nat) {
    && |st.sheets| == |st'.sheets| && st.shared == st'.shared
    && (k < |st.sheets| ==> st.sheets[k] == st'.sheets[k])
  }

  lemma SameNext(st: State, st': State, c: Command, k: nat)
    requires SameFor(st, st', k)
    ensures if Names(c) && c.stream != k then SameFor(Next(st, c), st', k) else SameFor(Next(st, c), Next(st', c), k)
  {
  }

  /** However the streams are interleaved, each submits exactly what it would submit if no
      other stream were used, although they share the buffers and the index cached in them. */
  lemma {:induction false} StreamsIndependent(commands: seq<Command>, k: nat)
    ensures SameFor(After(commands), After(Alone(commands, k)), k)
  {
    if commands != [] {
      var n := |commands| - 1;
      var c := commands[n];
      var rest := Alone(commands[..n], k);
      StreamsIndependent(commands[..n], k);
      SameNext(After(commands[..n]), After(rest), c, k);
      if Names(c) && c.stream != k {
        assert rest + [] == rest;
      } else {
        assert (rest + [c])[..|rest|] == rest;
      }
    }
  }

  // ----- when the offsets of a submission ascend

  ghost predicate Below(relocs: seq<Reloc>, limit: nat) {
    forall k :: 0 <= k < |relocs| ==> relocs[k].submitOffset < limit
  }

  ghost predicate HistoryAscends(history: seq<Submission>) {
    forall n :: 0 <= n < |history| ==> Ascending(history[n].relocs)
  }

  /** What every sheet keeps as long as its byte offsets fit in 32 bits. */
  ghost predicate SheetAscends(x: Sheet) {
    && x.pending.words <= x.size && HistoryAscends(x.history)
    && Ascending(x.pending.relocs) && Below(x.pending.relocs, 4 * x.pending.words)
  }

  lemma AppendAscending(relocs: seq<Reloc>, r: Reloc)
    requires Ascending(relocs) && Below(relocs, r.submitOffset + 1)
    requires (forall k :: 0 <= k < |relocs| ==> relocs[k].submitOffset != r.submitOffset)
    ensures Ascending(relocs + [r])
  {
    var more := relocs + [r];
    forall j, k | 0 <= j < k < |more| ensures OffsetsAscend(more, j, k) {
      if k < |relocs| { assert OffsetsAscend(relocs, j, k); }
    }
  }

  lemma OnSheetAscends(x: Sheet, shared: seq<Shared>, c: Command)
    requires SheetAscends(x) && 4 * x.size <= U32
    ensures SheetAscends(OnSheet(x, shared, c)) && OnSheet(x, shared, c).size == x.size
  {
    if c.RelocTo? && c.bo < |shared| && x.pending.words < x.size {
      AppendAscending(x.pending.relocs,
        Reloc(FindAt(Table(x.table, c.bo), c.bo), c.offset, ByteOffset(x.pending.words)));
    }
  }

  lemma {:induction false} SheetsAscend(commands: seq<Command>, k: nat)
    requires k < |After(commands).sheets| && 4 * After(commands).sheets[k].size <= U32
    ensures SheetAscends(After(commands).sheets[k])
  {
    var n := |commands| - 1;
    var st, c := After(commands[..n]), commands[n];
    if k < |st.sheets| {
      OnSheetSize(st.sheets[k], st.shared, c);
      SheetsAscend(commands[..n], k);
      OnSheetAscends(st.sheets[k], st.shared, c);
    }
  }

  lemma OnSheetSize(x: Sheet, shared: seq<Shared>, c: Command)
    ensures OnSheet(x, shared, c).size == x.size
  {
  }

  /** A relocation in the first word, one 4 GiB further on, and a flush. */
  function FarRelocs(words: nat): seq<Command> {
    NearReloc(words, U32 / 4 - 1) + [RelocTo(0, 0, 0, true, false), FlushStream(0)]
  }

  function NearReloc(words: nat, n: nat): seq<Command> {
    [MakeStream(words), MakeBo(7), RelocTo(0, 0, 0, true, false)] + seq(n, _ => EmitWord(0))
  }

  /** The sheet after the first relocation and `n` words. */
  ghost function NearSheet(words: nat, n: nat): Sheet {
    Sheet(Even(words), Submission([SubmitBo(7, true, false)], [Reloc(0, 0, 0)], [], n + 1, [7], []), [0], [], true)
  }

  lemma FirstReloc(words: nat)
    ensures Relocated(NewSheet(words), 0, 7, 0, true, false) == NearSheet(words, 0)
  {
    assert Table([], 0) == [0] && FindAt([0], 0) == 0;
    assert Flagged([] + [SubmitBo(7, false, false)], 0, true, false) == [SubmitBo(7, true, false)];
  }

  lemma SecondReloc(words: nat, n: nat)
    ensures Relocated(NearSheet(words, n), 0, 7, 0, true, false).pending.relocs ==
      [Reloc(0, 0, 0), Reloc(0, 0, ByteOffset(n + 1))]
  {
    assert Table([0], 0) == [0] && FindAt([0], 0) == 0;
  }

  lemma {:induction false} AfterNear(words: nat, n: nat)
    requires 0 < words < U32 && n < Even(words)
    ensures After(NearReloc(words, n)) == State([NearSheet(words, n)], [Shared(7, 1)])
    decreases n
  {
    var commands := NearReloc(words, n);
    if n == 0 {
      var a, b, c := MakeStream(words), MakeBo(7), RelocTo(0, 0, 0, true, false);
      assert commands == [a, b, c] && commands[..2] == [a, b] && commands[..2][..1] == [a] &&
        commands[..2][..1][..0] == [];
      assert After([a]) == State([NewSheet(words)], []);
      assert After([a, b]) == State([NewSheet(words)], [Shared(7, 1)]);
      FirstReloc(words);
    } else {
      assert commands[..|commands| - 1] == NearReloc(words, n - 1);
      AfterNear(words, n - 1);
    }
  }

  /** Beyond 4 GiB the two relocations are submitted with the same offset. */
  lemma FarRelocsCollide(words: nat)
    requires 0 < words < U32 && 4 * Even(words) > U32
    ensures var sheets := After(FarRelocs(words)).sheets;
      |sheets| == 1 && sheets[0].size == Even(words) && |sheets[0].history| == 1 &&
        !Ascending(sheets[0].history[0].relocs)
  {
    var n := U32 / 4 - 1;
    AfterNear(words, n);
    AfterTwo(NearReloc(words, n), RelocTo(0, 0, 0, true, false), FlushStream(0));
    FarSteps(words, n);
    SecondReloc(words, n);
    assert !OffsetsAscend(Relocated(NearSheet(words, n), 0, 7, 0, true, false).pending.relocs, 0, 1);
  }

  lemma AfterTwo(commands: seq<Command>, c: Command, d: Command)
    ensures After(commands + [c, d]) == Next(Next(After(commands), c), d)
  {
    var all := commands + [c, d];
    assert all[..|all| - 1] == commands + [c] && (commands + [c])[..|commands|] == commands;
  }

  lemma FarSteps(words: nat, n: nat)
    requires n + 1 < Even(words)
    ensures var x, y := NearSheet(words, n), Relocated(NearSheet(words, n), 0, 7, 0, true, false);
      Next(Next(State([x], [Shared(7, 1)]), RelocTo(0, 0, 0, true, false)), FlushStream(0)) ==
        State([Flushed(y)], [Shared(7, 1)])
  {
    var x, y := NearSheet(words, n), Relocated(NearSheet(words, n), 0, 7, 0, true, false);
    assert [x][0 := y] == [y] && [y][0 := Flushed(y)] == [Flushed(y)];
  }

  ghost predicate Ascends(commands: seq<Command>, size: nat) {
    forall k :: 0 <= k < |After(commands).sheets| && After(commands).sheets[k].size == size ==>
      HistoryAscends(After(commands).sheets[k].history)
  }

  /** All submissions of streams of a size have ascending offsets, in every run, if and only if
      the stream is at most 4 GiB. */
  lemma SubmissionsAscend(words: nat)
    requires 0 < words < U32
    ensures (forall commands :: Ascends(commands, Even(words))) <==> 4 * Even(words) <= U32
  {
    if 4 * Even(words) <= U32 {
      forall commands ensures Ascends(commands, Even(words)) {
        forall k | 0 <= k < |After(commands).sheets| && After(commands).sheets[k].size == Even(words)
          ensures HistoryAscends(After(commands).sheets[k].history)
        {
          SheetsAscend(commands, k);
        }
      }
    } else {
      FarRelocsCollide(words);
      assert !Ascends(FarRelocs(words), Even(words));
    }
  }

  // ----- the code keeps to the reference

  ghost function WorldOf(streams: seq<Stream>, bos: seq<Bo>): World {
    World(set s | s in streams, set b | b in bos)
  }

  ghost predicate Apart(streams: seq<Stream>, i: nat, j: nat)
    requires i < |streams| && j < |streams|
  {
    streams[i] != streams[j]
  }

  ghost predicate AllApart(streams: seq<Stream>) {
    forall i, j :: 0 <= i < |streams| && 0 <= j < |streams| && i != j ==> Apart(streams, i, j)
  }

  ghost predicate Listed(table: seq<Bo>, bos: seq<Bo>, positions: seq<nat>) {
    |table| == |positions| && forall i :: 0 <= i < |table| ==> positions[i] < |bos| && table[i] == bos[positions[i]]
  }

  ghost predicate IsSheet(s: Stream, bos: seq<Bo>, x: Sheet)
    reads s
  {
    s.size == x.size && s.Pending() == x.pending && s.history == x.history && Listed(s.bos, bos, x.table)
  }

  ghost predicate AreSheets(streams: seq<Stream>, bos: seq<Bo>, sheets: seq<Sheet>)
    reads streams
  {
    |streams| == |sheets| && forall k :: 0 <= k < |streams| ==> IsSheet(streams[k], bos, sheets[k])
  }

  ghost predicate AreShared(bos: seq<Bo>, shared: seq<Shared>)
    reads bos
  {
    |bos| == |shared| && forall k :: 0 <= k < |bos| ==>
      bos[k].handle == shared[k].handle && bos[k].owned == shared[k].owned
  }

  /** The objects are what the reference says; the cache, the counts and the submissions are
      right. */
  ghost predicate Refines(streams: seq<Stream>, bos: seq<Bo>, st: State)
    reads streams, bos
  {
    && Valid(WorldOf(streams, bos)) && AllApart(streams) && Distinct(bos)
    && AreSheets(streams, bos, st.sheets) && AreShared(bos, st.shared)
  }

  lemma {:induction false} FindAgrees(table: seq<Bo>, bos: seq<Bo>, positions: seq<nat>, b: nat)
    requires Listed(table, bos, positions) && Distinct(bos) && b < |bos|
    ensures Find(table, bos[b]) == FindAt(positions, b) && (bos[b] in table <==> b in positions)
  {
    if table != [] {
      assert table[0] == bos[positions[0]];
      assert positions[0] != b ==> Differ(bos, positions[0], b);
      assert positions == [positions[0]] + positions[1..] && table == [table[0]] + table[1..];
      FindAgrees(table[1..], bos, positions[1..], b);
    }
  }

  /** The row of a buffer in the table that results. */
  lemma RowAgrees(table: seq<Bo>, bos: seq<Bo>, positions: seq<nat>, b: nat)
    requires Listed(table, bos, positions) && Distinct(bos) && b < |bos|
    ensures bos[b] in table <==> b in positions
    ensures var after := if bos[b] in table then table else table + [bos[b]];
      Listed(after, bos, Table(positions, b)) && Find(after, bos[b]) == FindAt(Table(positions, b), b)
  {
    FindAgrees(table, bos, positions, b);
    var after := if bos[b] in table then table else table + [bos[b]];
    FindAgrees(after, bos, Table(positions, b), b);
  }

  /** Deleted streams have nothing in their tables. */
  ghost predicate AreOpen(open: seq<bool>, sheets: seq<Sheet>) {
    |open| == |sheets| && forall k :: 0 <= k < |open| ==>
      open[k] == sheets[k].open && (!open[k] ==> sheets[k].table == [])
  }

  /** The world without the streams that have been deleted. */
  ghost function OpenWorld(streams: seq<Stream>, bos: seq<Bo>, open: seq<bool>): World
    requires |open| == |streams|
  {
    World(set k | 0 <= k < |streams| && open[k] :: streams[k], set b | b in bos)
  }

  /** Streams with empty tables can be left out: no cache entry refers to them. */
  lemma LeaveOut(w: World, streams: set<Stream>)
    requires Valid(w) && streams <= w.streams && forall s :: s in w.streams && s !in streams ==> s.bos == []
    ensures Valid(World(streams, w.bos))
  {
    var v := World(streams, w.bos);
    forall s | s in streams ensures StreamOk(v, s) { assert StreamOk(w, s); }
    var tabs, left, states := TabsOf(w), TabsOf(v), StatesOf(w);
    forall b | b in states ensures CacheIn(left, b, states[b]) && RefsIn(left, b, states[b]) {
      assert CacheIn(tabs, b, states[b]) && RefsIn(tabs, b, states[b]);
      assert Holders(left, b) == Holders(tabs, b);
    }
    assert StatesOf(v) == states;
  }

  lemma OpenIsValid(streams: seq<Stream>, bos: seq<Bo>, open: seq<bool>, st: State)
    requires Refines(streams, bos, st) && AreOpen(open, st.sheets)
    ensures |open| == |streams| && Valid(OpenWorld(streams, bos, open))
  {
    var w, v := WorldOf(streams, bos), OpenWorld(streams, bos, open);
    forall s | s in w.streams && s !in v.streams ensures s.bos == [] {
      var k :| 0 <= k < |streams| && streams[k] == s;
      assert IsSheet(streams[k], bos, st.sheets[k]);
    }
    LeaveOut(w, v.streams);
  }

  /** Every interleaving of commands on any number of streams gives the streams, the buffers
      and the submissions of the reference, keeps every cache entry and reference count right,
      also once flushed streams are deleted, and makes only submissions that name the right
      rows, with ascending offsets up to 4 GiB. */
  method Run(commands: seq<Command>) returns (streams: seq<Stream>, bos: seq<Bo>, open: seq<bool>)
    ensures fresh(streams) && fresh(bos) && Refines(streams, bos, After(commands))
    ensures AreOpen(open, After(commands).sheets)
    ensures |open| == |streams| && Valid(OpenWorld(streams, bos, open))
    ensures forall s, n :: s in streams && 0 <= n < |s.history| ==>
      RowsGood(s.history[n]) && (4 * s.size <= U32 ==> Good(s.history[n]))
  {
    streams, bos, open := [], [], [];
    for i := 0 to |commands|
      invariant Refines(streams, bos, After(commands[..i])) && AreOpen(open, After(commands[..i]).sheets)
      invariant fresh(streams) && fresh(bos)
    {
      AfterNext(commands, i);
      streams, bos, open := Step(commands[i], streams, bos, open, After(commands[..i]));
    }
    assert commands[..|commands|] == commands;
    OpenIsValid(streams, bos, open, After(commands));
    AllGood(streams, bos);
  }

  /** The code, with its shared cache: each stream has the same pending and past submissions as
      if no other stream were used. */
  method RunAlone(commands: seq<Command>, k: nat)
    returns (streams: seq<Stream>, bos: seq<Bo>, streams': seq<Stream>, bos': seq<Bo>)
    ensures Refines(streams, bos, After(commands)) && Refines(streams', bos', After(Alone(commands, k)))
    ensures |streams| == |streams'|
    ensures k < |streams| ==> streams[k].Pending() == streams'[k].Pending() && streams[k].history == streams'[k].history
  {
    StreamsIndependent(commands, k);
    var open;
    streams, bos, open := Run(commands);
    streams', bos', open := Run(Alone(commands, k));
    if k < |streams| {
      assert IsSheet(streams[k], bos, After(commands).sheets[k]);
      assert IsSheet(streams'[k], bos', After(Alone(commands, k)).sheets[k]);
    }
  }

  lemma AllGood(streams: seq<Stream>, bos: seq<Bo>)
    requires Valid(WorldOf(streams, bos))
    ensures forall s, n :: s in streams && 0 <= n < |s.history| ==>
      RowsGood(s.history[n]) && (4 * s.size <= U32 ==> Good(s.history[n]))
  {
    forall s, n | s in streams && 0 <= n < |s.history| ensures RowsGood(s.history[n]) &&
      (4 * s.size <= U32 ==> Good(s.history[n])) {
      assert StreamOk(WorldOf(streams, bos), s);
    }
  }

  lemma OpenNext(open: seq<bool>, st: State, c: Command)
    requires AreOpen(open, st.sheets) && !c.DeleteStream?
    ensures AreOpen(if |NextSheets(st, c)| > |st.sheets| then open + [true] else open, NextSheets(st, c))
  {
  }

  method Step(c: Command, streams: seq<Stream>, bos: seq<Bo>, open: seq<bool>, ghost st: State)
    returns (streams': seq<Stream>, bos': seq<Bo>, open': seq<bool>)
    requires Refines(streams, bos, st) && AreOpen(open, st.sheets)
    modifies streams, bos
    ensures Refines(streams', bos', Next(st, c)) && AreOpen(open', Next(st, c).sheets)
    ensures streams' == streams ||
      (|streams'| == |streams| + 1 && streams' == streams + [streams'[|streams|]] && fresh(streams'[|streams|]))
    ensures bos' == bos || (|bos'| == |bos| + 1 && bos' == bos + [bos'[|bos|]] && fresh(bos'[|bos|]))
  {
    if c.DeleteStream? {
      streams', bos', open' := streams, bos, open;
      if c.stream < |streams| && open[c.stream] { open' := CloseStream(c.stream, streams, bos, open, st); }
    } else {
      OpenNext(open, st, c);
      streams', bos' := StepOpen(c, streams, bos, open, st);
      open' := if |streams'| > |streams| then open + [true] else open;
    }
  }

  method StepOpen(c: Command, streams: seq<Stream>, bos: seq<Bo>, open: seq<bool>, ghost st: State)
    returns (streams': seq<Stream>, bos': seq<Bo>)
    requires Refines(streams, bos, st) && AreOpen(open, st.sheets) && !c.DeleteStream?
    modifies streams, bos
    ensures Refines(streams', bos', Next(st, c))
    ensures streams' == streams ||
      (|streams'| == |streams| + 1 && streams' == streams + [streams'[|streams|]] && fresh(streams'[|streams|]))
    ensures bos' == bos || (|bos'| == |bos| + 1 && bos' == bos + [bos'[|bos|]] && fresh(bos'[|bos|]))
  {
    streams', bos' := streams, bos;
    if c.MakeStream? {
      streams' := AddStream(c.words, streams, bos, st);
    } else if c.MakeBo? {
      bos' := AddBo(c.handle, streams, bos, st);
    } else if c.RefBo? || c.DelBo? {
      if c.bo < |bos| && (c.RefBo? || bos[c.bo].owned > 0) { Count(streams, bos, c.bo, c.RefBo?, st); }
    } else if c.stream < |streams| && open[c.stream] {
      OnStream(c, streams, bos, st);
    }
  }

  /** `etna_cmd_stream_del` for a stream that has been flushed. */
  method CloseStream(s: nat, streams: seq<Stream>, bos: seq<Bo>, open: seq<bool>, ghost st: State)
      returns (open': seq<bool>)
    requires Refines(streams, bos, st) && AreOpen(open, st.sheets) && s < |streams| && open[s]
    ensures Refines(streams, bos, Next(st, DeleteStream(s))) && AreOpen(open', Next(st, DeleteStream(s)).sheets)
  {
    assert IsSheet(streams[s], bos, st.sheets[s]);
    open' := open;
    if streams[s].bos == [] { open' := open[s := false]; }
  }

  lemma AppendApart(streams: seq<Stream>, s: Stream)
    requires AllApart(streams) && s !in streams
    ensures AllApart(streams + [s])
  {
    var more := streams + [s];
    forall i, j | 0 <= i < |more| && 0 <= j < |more| && i != j ensures Apart(more, i, j) {
      if i < |streams| && j < |streams| { assert Apart(streams, i, j); }
    }
  }

  lemma AppendSheet(streams: seq<Stream>, bos: seq<Bo>, sheets: seq<Sheet>, s: Stream, x: Sheet)
    requires AreSheets(streams, bos, sheets) && IsSheet(s, bos, x)
    ensures AreSheets(streams + [s], bos, sheets + [x])
  {
  }

  method AddStream(words: nat, streams: seq<Stream>, bos: seq<Bo>, ghost st: State) returns (streams': seq<Stream>)
    requires Refines(streams, bos, st)
    ensures Refines(streams', bos, Next(st, MakeStream(words)))
    ensures streams' == streams ||
      (|streams'| == |streams| + 1 && streams' == streams + [streams'[|streams|]] && fresh(streams'[|streams|]))
  {
    streams' := streams;
    if 0 < words < U32 {
      var s := AddOne(words, streams, bos, st);
      streams' := streams + [s];
    } else if words == 0 {
      var _ := NewStream(words, WorldOf(streams, bos));
    }
  }

  method AddOne(words: nat, streams: seq<Stream>, bos: seq<Bo>, ghost st: State) returns (s: Stream)
    requires Refines(streams, bos, st) && 0 < words < U32
    ensures fresh(s) && Refines(streams + [s], bos, State(st.sheets + [NewSheet(words)], st.shared))
  {
    ghost var w := WorldOf(streams, bos);
    var made := NewStream(words, w);
    s := made;
    assert WorldOf(streams + [s], bos) == World(w.streams + {s}, w.bos);
    AppendApart(streams, s);
    AppendSheet(streams, bos, st.sheets, s, NewSheet(words));
  }

  method AddBo(handle: nat, streams: seq<Stream>, bos: seq<Bo>, ghost st: State) returns (bos': seq<Bo>)
    requires Refines(streams, bos, st)
    ensures Refines(streams, bos', Next(st, MakeBo(handle)))
    ensures |bos'| == |bos| + 1 && bos' == bos + [bos'[|bos|]] && fresh(bos'[|bos|])
  {
    ghost var w := WorldOf(streams, bos);
    var b := NewBo(handle, w);
    bos' := bos + [b];
    assert WorldOf(streams, bos') == World(w.streams, w.bos + {b});
    AppendDistinct(bos, b);
    forall k | 0 <= k < |streams| ensures IsSheet(streams[k], bos', st.sheets[k]) {
      assert IsSheet(streams[k], bos, st.sheets[k]);
    }
  }

  /** A client takes or gives back a reference. */
  method Count(streams: seq<Stream>, bos: seq<Bo>, b: nat, more: bool, ghost st: State)
    requires Refines(streams, bos, st) && b < |bos| && (!more ==> bos[b].owned > 0)
    modifies bos`refcnt, bos`owned
    ensures Refines(streams, bos, Next(st, if more then RefBo(b) else DelBo(b)))
  {
    ghost var w := WorldOf(streams, bos);
    if more {
      ClientRef(bos[b], w);
    } else {
      OwnedIsCounted(w, bos[b]);
      ClientDel(bos[b], w);
    }
    OthersDiffer(bos, b);
  }

  lemma OthersDiffer(bos: seq<Bo>, b: nat)
    requires Distinct(bos) && b < |bos|
    ensures forall k :: 0 <= k < |bos| && k != b ==> bos[k] != bos[b]
  {
    forall k | 0 <= k < |bos| && k != b ensures bos[k] != bos[b] { assert Differ(bos, k, b); }
  }

  lemma OtherStreams(streams: seq<Stream>, s: nat)
    requires AllApart(streams) && s < |streams|
    ensures forall k :: 0 <= k < |streams| && k != s ==> streams[k] != streams[s]
  {
    forall k | 0 <= k < |streams| && k != s ensures streams[k] != streams[s] { assert Apart(streams, k, s); }
  }

  method OnStream(c: Command, streams: seq<Stream>, bos: seq<Bo>, ghost st: State)
    requires Refines(streams, bos, st) && Names(c) && !c.DeleteStream? && c.stream < |streams|
    requires st.sheets[c.stream].open
    modifies streams[c.stream], bos`currentStream, bos`refcnt, bos`idx
    ensures Refines(streams, bos, Next(st, c))
  {
    ghost var sheets, x := st.sheets, st.sheets[c.stream];
    OtherStreams(streams, c.stream);
    assert IsSheet(streams[c.stream], bos, x);
    Obey(c, streams[c.stream], bos, x, st.shared, WorldOf(streams, bos));
    assert AreSheets(streams, bos, sheets[c.stream := OnSheet(x, st.shared, c)]);
  }

  method ObeyReloc(s: Stream, bos: seq<Bo>, b: nat, offset: nat, read: bool, write: bool, ghost x: Sheet,
      ghost w: World)
    requires Valid(w) && s in w.streams && b < |bos| && bos[b] in w.bos && Distinct(bos) && IsSheet(s, bos, x)
    requires s.offset < s.size
    modifies s, bos`currentStream, bos`refcnt, bos`idx
    ensures Valid(w) && IsSheet(s, bos, Relocated(x, b, bos[b].handle, offset, read, write))
  {
    RowAgrees(s.bos, bos, x.table, b);
    Relocate(s, bos[b], offset, read, write, w);
  }

  method ObeyPerf(s: Stream, bos: seq<Bo>, b: nat, offset: nat, sequence: nat, ghost x: Sheet, ghost w: World)
    requires Valid(w) && s in w.streams && b < |bos| && bos[b] in w.bos && Distinct(bos) && IsSheet(s, bos, x)
    modifies s, bos`currentStream, bos`refcnt, bos`idx
    ensures Valid(w) && IsSheet(s, bos, Watched(x, b, bos[b].handle, offset, sequence))
  {
    RowAgrees(s.bos, bos, x.table, b);
    Perf(s, bos[b], offset, sequence, w);
  }

  method Obey(c: Command, s: Stream, bos: seq<Bo>, ghost x: Sheet, ghost shared: seq<Shared>, ghost w: World)
    requires Valid(w) && s in w.streams && (forall b :: b in bos <==> b in w.bos) && Distinct(bos)
    requires AreShared(bos, shared)
    requires IsSheet(s, bos, x) && Names(c) && !c.DeleteStream?
    modifies s, bos`currentStream, bos`refcnt, bos`idx
    ensures Valid(w) && IsSheet(s, bos, OnSheet(x, shared, c))
  {
    match c {
      case EmitWord(_) =>
        if s.offset < s.size { Emit(s, w); }
      case RelocTo(_, b, offset, read, write) =>
        if b < |bos| && s.offset < s.size { ObeyReloc(s, bos, b, offset, read, write, x, w); }
      case PerfOf(_, b, offset, sequence) =>
        if b < |bos| { ObeyPerf(s, bos, b, offset, sequence, x, w); }
      case FlushStream(_) => Flush(s, w);
    }
  }

  lemma OwnedIsCounted(w: World, b: Bo)
    requires Valid(w) && b in w.bos
    ensures b.owned <= b.refcnt
  {
    assert RefsIn(TabsOf(w), b, StatesOf(w)[b]);
  }
}
