/** Clipboard persistence of selection_persist.cc: the selection of an owner is read through
    pipes, installed once the owner is gone, and streamed to readers. */
module SelectionPersist {

  const MAX_SELECTION_SIZE: nat := 64 * 1024 * 1024

  type Byte = x: int | 0 <= x < 256

  /** What a `read` can return; the bytes are not empty. */
  datatype Read = Bytes(bytes: seq<Byte>) | ReadInterrupted | ReadBlocked | EndOfFile | ReadError

  /** What a `write` can return; `Wrote(n)` takes `n` bytes, or all that is left. */
  datatype Write = Wrote(n: nat) | WriteInterrupted | WriteBlocked | WriteFailed

  /** A reader's pipe: how far it has been served and what has been written into it. */
  datatype Writer = Writer(fd: nat, offset: nat, received: seq<Byte>)

  /** One mime type; `arrived` is everything that came out of the owner's pipe. */
  datatype Entry = Entry(mime: string, data: seq<Byte>, complete: bool, failed: bool, reading: bool,
    writers: seq<Writer>, arrived: seq<Byte>)

  // ----- reading

  /** One result of `read` on an entry that is still being read. */
  function Take(e: Entry, total: nat, r: Read): (Entry, nat) {
    match r
    case Bytes(bytes) =>
      if total + |bytes| > MAX_SELECTION_SIZE
        then (e.(failed := true, reading := false, arrived := e.arrived + bytes), total)
      else (e.(data := e.data + bytes, arrived := e.arrived + bytes), total + |bytes|)
    case ReadInterrupted => (e, total)
    case ReadBlocked => (e, total)
    case EndOfFile => (e.(complete := true, failed := false, reading := false), total)
    case ReadError => (e.(complete := false, failed := true, reading := false), total)
  }

  /** An entry after a number of reads, however they were spread over wake-ups. */
  ghost function Fed(e: Entry, total: nat, script: seq<Read>): (Entry, nat)
    decreases |script|
  {
    if script == [] || !e.reading then (e, total)
    else
      var (e', total') := Take(e, total, script[0]);
      Fed(e', total', script[1..])
  }

  /** What one wake-up sees of a schedule: up to the first time the owner makes it wait. */
  ghost function Wake(script: seq<Read>): seq<Read> {
    if script == [] then []
    else if script[0].ReadBlocked? then [script[0]]
    else [script[0]] + Wake(script[1..])
  }

  /** The bytes of a schedule of reads. */
  ghost function Flat(script: seq<Read>): seq<Byte> {
    if script == [] then [] else (if script[0].Bytes? then script[0].bytes else []) + Flat(script[1..])
  }

  /** A schedule of partial reads, interruptions and waits. */
  ghost predicate Going(script: seq<Read>) {
    forall i :: 0 <= i < |script| ==> script[i].Bytes? || script[i].ReadInterrupted? || script[i].ReadBlocked?
  }

  lemma {:induction false} FedAll(e: Entry, total: nat, script: seq<Read>)
    requires e.reading && Going(script) && total + |Flat(script)| <= MAX_SELECTION_SIZE
    ensures Fed(e, total, script) ==
      (e.(data := e.data + Flat(script), arrived := e.arrived + Flat(script)), total + |Flat(script)|)
    decreases |script|
  {
    if script == [] {
      assert e.data + [] == e.data && e.arrived + [] == e.arrived;
    } else {
      var (e', total') := Take(e, total, script[0]);
      var b := if script[0].Bytes? then script[0].bytes else [];
      assert Flat(script) == b + Flat(script[1..]);
      FedAll(e', total', script[1..]);
      assert e.data + b + Flat(script[1..]) == e.data + (b + Flat(script[1..]));
      assert e.arrived + b + Flat(script[1..]) == e.arrived + (b + Flat(script[1..]));
      assert e.data + [] == e.data && e.arrived + [] == e.arrived;
    }
  }

  lemma {:induction false} FedTooMuch(e: Entry, total: nat, script: seq<Read>)
    requires e.reading && Going(script) && total + |Flat(script)| > MAX_SELECTION_SIZE >= total
    ensures Fed(e, total, script).0.failed && !Fed(e, total, script).0.reading
    ensures Fed(e, total, script).1 <= MAX_SELECTION_SIZE
    decreases |script|
  {
    var (e', total') := Take(e, total, script[0]);
    if e'.reading {
      assert |Flat(script)| == |if script[0].Bytes? then script[0].bytes else []| + |Flat(script[1..])|;
      FedTooMuch(e', total', script[1..]);
    }
  }

  lemma {:induction false} FedSplit(e: Entry, total: nat, a: seq<Read>, b: seq<Read>)
    ensures var (e', total') := Fed(e, total, a); Fed(e, total, a + b) == Fed(e', total', b)
    decreases |a|
  {
    if a == [] {
      assert a + b == b;
    } else if e.reading {
      var (e', total') := Take(e, total, a[0]);
      assert (a + b)[1..] == a[1..] + b;
      FedSplit(e', total', a[1..], b);
    } else {
      assert Fed(e, total, b) == (e, total);
    }
  }

  /** However the owner's bytes are cut up and delayed, at the end of file the copy is exactly
      those bytes, if and only if they fit under what the limit leaves for this entry. */
  lemma FaithfulCopy(e: Entry, total: nat, script: seq<Read>)
    requires e.reading && e.data == [] && !e.failed && !e.complete && Going(script) && total <= MAX_SELECTION_SIZE
    ensures var e' := Fed(e, total, script + [EndOfFile]).0;
      && !e'.reading && (e'.complete <==> total + |Flat(script)| <= MAX_SELECTION_SIZE)
      && (e'.complete ==> e'.data == Flat(script)) && (!e'.complete ==> e'.failed)
  {
    FedSplit(e, total, script, [EndOfFile]);
    if total + |Flat(script)| <= MAX_SELECTION_SIZE {
      FedAll(e, total, script);
      var (e', total') := Fed(e, total, script);
      assert Fed(e', total', [EndOfFile]) == Fed(Take(e', total', EndOfFile).0, total', []);
    } else {
      FedTooMuch(e, total, script);
      FedFlags(e, total, script);
    }
  }

  lemma {:induction false} FedFlags(e: Entry, total: nat, script: seq<Read>)
    requires e.reading && !e.failed && !e.complete && Going(script)
    ensures !Fed(e, total, script).0.complete
    decreases |script|
  {
    if script != [] {
      var (e', total') := Take(e, total, script[0]);
      if e'.reading { FedFlags(e', total', script[1..]); }
    }
  }

  // ----- several entries read in any order

  /** A result of `read` on the pipe of an entry. */
  datatype Chunk = Chunk(entry: nat, read: Read)

  /** The entries after reads on their pipes in the given order; the total is shared. */
  ghost function Interleaved(entries: seq<Entry>, total: nat, schedule: seq<Chunk>): (r: (seq<Entry>, nat))
    ensures |r.0| == |entries|
  {
    if schedule == [] then (entries, total)
    else
      var n := |schedule| - 1;
      var (es, t) := Interleaved(entries, total, schedule[..n]);
      var c := schedule[n];
      if c.entry < |es| && es[c.entry].reading then
        var (e, t') := Take(es[c.entry], t, c.read);
        (es[c.entry := e], t')
      else (es, t)
  }

  /** What came out of the pipe of entry `i`. */
  ghost function Sent(schedule: seq<Chunk>, i: nat): seq<Byte> {
    if schedule == [] then []
    else
      var n := |schedule| - 1;
      Sent(schedule[..n], i) + if schedule[n].entry == i && schedule[n].read.Bytes? then schedule[n].read.bytes else []
  }

  /** All bytes of the schedule. */
  ghost function Volume(schedule: seq<Chunk>): nat {
    if schedule == [] then 0
    else Volume(schedule[..|schedule| - 1]) + if schedule[|schedule| - 1].read.Bytes?
      then |schedule[|schedule| - 1].read.bytes| else 0
  }

  /** The end of file of entry `i` is in the schedule. */
  ghost predicate Ended(schedule: seq<Chunk>, i: nat) {
    schedule != [] && (schedule[|schedule| - 1] == Chunk(i, EndOfFile) || Ended(schedule[..|schedule| - 1], i))
  }

  /** Every owner keeps its pipe going until its end of file, after which it sends nothing. */
  ghost predicate Orderly(schedule: seq<Chunk>, n: nat) {
    schedule == [] ||
    var m := |schedule| - 1;
    var c := schedule[m];
    Orderly(schedule[..m], n) && c.entry < n && !Ended(schedule[..m], c.entry) && !c.read.ReadError?
  }

  ghost predicate Fresh(e: Entry) {
    e.reading && e.data == [] && !e.complete && !e.failed
  }

  /** One entry: it is still exact, or the limit was exceeded. */
  ghost predicate Exact(e: Entry, sent: seq<Byte>, ended: bool) {
    if e.failed then !e.complete && !e.reading else e.data == sent && e.complete == ended && e.reading == !ended
  }

  lemma {:induction false} InterleavedExact(entries: seq<Entry>, total: nat, schedule: seq<Chunk>, i: nat)
    requires i < |entries| && Fresh(entries[i]) && Orderly(schedule, |entries|)
    ensures Exact(Interleaved(entries, total, schedule).0[i], Sent(schedule, i), Ended(schedule, i))
  {
    if schedule != [] { InterleavedExact(entries, total, schedule[..|schedule| - 1], i); }
  }

  ghost predicate NoneFailed(entries: seq<Entry>) {
    forall i :: 0 <= i < |entries| ==> !entries[i].failed
  }

  /** The limit is exceeded exactly when all bytes together exceed it. */
  lemma {:induction false} InterleavedFits(entries: seq<Entry>, total: nat, schedule: seq<Chunk>)
    requires total <= MAX_SELECTION_SIZE && Orderly(schedule, |entries|) && forall i :: 0 <= i < |entries| ==>
      Fresh(entries[i])
    ensures var (es, t) := Interleaved(entries, total, schedule);
      && (NoneFailed(es) <==> total + Volume(schedule) <= MAX_SELECTION_SIZE)
      && (NoneFailed(es) ==> t == total + Volume(schedule)) && t <= MAX_SELECTION_SIZE
  {
    if schedule != [] {
      var n := |schedule| - 1;
      InterleavedFits(entries, total, schedule[..n]);
      var i := schedule[n].entry;
      InterleavedExact(entries, total, schedule[..n], i);
      InterleavedStep(Interleaved(entries, total, schedule[..n]).0, Interleaved(entries, total, schedule[..n]).1,
        schedule[n]);
    }
  }

  lemma InterleavedStep(es: seq<Entry>, t: nat, c: Chunk)
    requires c.entry < |es| && !c.read.ReadError?
    requires es[c.entry].reading ==> !es[c.entry].failed
    ensures var e := es[c.entry]; var (e', t') := Take(e, t, c.read);
      e.reading ==> (NoneFailed(es[c.entry := e']) <==>
        NoneFailed(es) && (c.read.Bytes? ==> t + |c.read.bytes| <= MAX_SELECTION_SIZE))
  {
    var e := es[c.entry];
    var (e', t') := Take(e, t, c.read);
    if e.reading {
      var es' := es[c.entry := e'];
      assert es'[c.entry] == e';
      if NoneFailed(es') { forall i | 0 <= i < |es| ensures !es[i].failed { assert !es'[i].failed; } }
    }
  }

  /** Whatever the order of the reads, each entry that is read to its end is exactly what its
      owner sent, or has failed; none fails if and only if everything fits under the limit. */
  lemma InterleavedCopy(entries: seq<Entry>, total: nat, schedule: seq<Chunk>)
    requires total <= MAX_SELECTION_SIZE && Orderly(schedule, |entries|)
    requires forall i :: 0 <= i < |entries| ==> Fresh(entries[i]) && Ended(schedule, i)
    ensures var es := Interleaved(entries, total, schedule).0;
      && (forall i :: 0 <= i < |es| ==>
        if es[i].failed then !es[i].complete else es[i].complete && es[i].data == Sent(schedule, i))
      && (AllComplete(es) <==> total + Volume(schedule) <= MAX_SELECTION_SIZE)
  {
    var es := Interleaved(entries, total, schedule).0;
    InterleavedFits(entries, total, schedule);
    forall i | 0 <= i < |es| ensures Exact(es[i], Sent(schedule, i), true) {
      InterleavedExact(entries, total, schedule, i);
    }
  }

  // ----- writing

  function Min(a: nat, b: nat): nat {
    if a < b then a else b
  }

  /** A reader has received exactly the data up to the writer's offset. */
  ghost predicate WriterOk(data: seq<Byte>, w: Writer) {
    w.offset <= |data| && w.received == data[..w.offset]
  }

  /** The kernel takes the next `n` bytes. */
  function Advanced(data: seq<Byte>, w: Writer, n: nat): (r: Writer)
    requires w.offset + n <= |data|
  {
    w.(offset := w.offset + n, received := w.received + data[w.offset..w.offset + n])
  }

  lemma AdvanceOk(data: seq<Byte>, w: Writer, n: nat)
    requires WriterOk(data, w) && w.offset + n <= |data|
    ensures WriterOk(data, Advanced(data, w, n))
  {
    assert data[..w.offset] + data[w.offset..w.offset + n] == data[..w.offset + n];
  }

  ghost predicate Healthy(script: seq<Write>) {
    forall i :: 0 <= i < |script| ==> !script[i].WriteFailed? && (script[i].Wrote? ==> script[i].n > 0)
  }

  /** A writer after a number of results of `write`, and whether it is done. */
  ghost function Flushed(data: seq<Byte>, w: Writer, script: seq<Write>): (bool, Writer)
    decreases |script|
  {
    if w.offset >= |data| then (true, w)
    else if script == [] then (false, w)
    else
      match script[0]
      case Wrote(n) => if n == 0 then (true, w)
        else Flushed(data, Advanced(data, w, Min(n, |data| - w.offset)), script[1..])
      case WriteInterrupted => Flushed(data, w, script[1..])
      case WriteBlocked => (false, w)
      case WriteFailed => (true, w)
  }

  /** Whatever the kernel takes and however often it interrupts, the reader gets the data in
      order; on a healthy pipe it is done exactly when it has all of it. */
  lemma {:induction false} FlushedInOrder(data: seq<Byte>, w: Writer, script: seq<Write>)
    requires WriterOk(data, w)
    ensures var (done, w') := Flushed(data, w, script);
      && WriterOk(data, w') && w'.fd == w.fd && w.received <= w'.received
      && (w'.received == data ==> done) && (Healthy(script) && done ==> w'.received == data)
    decreases |script|
  {
    if w.offset >= |data| {
      assert data[..|data|] == data;
    } else if script != [] {
      if script[0].Wrote? && script[0].n > 0 {
        var m := Min(script[0].n, |data| - w.offset);
        AdvanceOk(data, w, m);
        FlushedInOrder(data, Advanced(data, w, m), script[1..]);
      } else if script[0].WriteInterrupted? {
        FlushedInOrder(data, w, script[1..]);
      }
    }
  }

  /** `FlushWriter`. */
  method FlushWriter(data: seq<Byte>, w: Writer, script: seq<Write>) returns (done: bool, w': Writer)
    requires WriterOk(data, w)
    ensures (done, w') == Flushed(data, w, script) && WriterOk(data, w') && w'.fd == w.fd
  {
    w' := w;
    var i := 0;
    while w'.offset < |data|
      invariant i <= |script| && WriterOk(data, w') && w'.fd == w.fd
      invariant Flushed(data, w', script[i..]) == Flushed(data, w, script)
      decreases |script| - i
    {
      if i == |script| { return false, w'; }
      assert script[i..][1..] == script[i + 1..];
      match script[i] {
        case Wrote(n) =>
          if n == 0 { return true, w'; }
          var m := Min(n, |data| - w'.offset);
          AdvanceOk(data, w', m);
          w' := Advanced(data, w', m);
        case WriteInterrupted =>
        case WriteBlocked => return false, w';
        case WriteFailed => return true, w';
      }
      i := i + 1;
    }
    done := true;
  }

  // ----- descriptors

  lemma TakeDrop<T>(s: seq<T>, i: nat)
    requires i <= |s|
    ensures s[..i] + s[i..] == s
  {
  }

  /** Removing an element and removing the last one, in either order. */
  lemma RemoveInit<T>(s: seq<T>, i: nat)
    requires i < |s|
    ensures var n, left := |s| - 1, s[..i] + s[i + 1..];
      if i < n then |left| == n && left[..n - 1] == s[..n][..i] + s[..n][i + 1..] && left[n - 1] == s[n]
        else left == s[..n]
  {
  }

  /** Replacing an element and removing the last one, in either order. */
  lemma SetInit<T>(s: seq<T>, i: nat, x: T)
    requires i < |s|
    ensures var n := |s| - 1; s[i := x][..n] == if i < n then s[..n][i := x] else s[..n]
  {
  }

  ghost function OpenIn(writers: seq<Writer>, fd: nat): nat {
    if writers == [] then 0 else OpenIn(writers[..|writers| - 1], fd) + if writers[|writers| - 1].fd == fd then 1 else 0
  }

  /** How often a descriptor is held by a writer. */
  ghost function Open(entries: seq<Entry>, fd: nat): nat {
    if entries == [] then 0 else Open(entries[..|entries| - 1], fd) + OpenIn(entries[|entries| - 1].writers, fd)
  }

  lemma {:induction false} OpenSet(entries: seq<Entry>, i: nat, e: Entry, fd: nat)
    requires i < |entries|
    ensures Open(entries[i := e], fd) + OpenIn(entries[i].writers, fd) == Open(entries, fd) + OpenIn(e.writers, fd)
  {
    SetInit(entries, i, e);
    if i < |entries| - 1 { OpenSet(entries[..|entries| - 1], i, e, fd); }
  }

  lemma {:induction false} OpenRemove(writers: seq<Writer>, j: nat, fd: nat)
    requires j < |writers|
    ensures OpenIn(writers[..j] + writers[j + 1..], fd) + (if writers[j].fd == fd then 1 else 0) == OpenIn(writers, fd)
  {
    RemoveInit(writers, j);
    if j < |writers| - 1 { OpenRemove(writers[..|writers| - 1], j, fd); }
  }

  lemma OpenAdd(writers: seq<Writer>, w: Writer, fd: nat)
    ensures OpenIn(writers + [w], fd) == OpenIn(writers, fd) + if w.fd == fd then 1 else 0
  {
    assert (writers + [w])[..|writers|] == writers;
  }

  /** Every descriptor given out has been closed or is held by one writer. */
  ghost predicate Conserved(given: multiset<nat>, closed: multiset<nat>, entries: seq<Entry>) {
    forall fd {:trigger Open(entries, fd)} :: given[fd] == closed[fd] + Open(entries, fd)
  }

  lemma SameOpen(given: multiset<nat>, closed: multiset<nat>, entries: seq<Entry>, entries': seq<Entry>)
    requires Conserved(given, closed, entries) && forall fd :: Open(entries', fd) == Open(entries, fd)
    ensures Conserved(given, closed, entries')
  {
  }

  lemma NothingOpen(given: multiset<nat>, closed: multiset<nat>)
    requires Conserved(given, closed, [])
    ensures closed == given
  {
    forall fd ensures closed[fd] == given[fd] { assert Open([], fd) == 0; }
  }

  /** A reader whose pipe was closed: what it had received of the data. */
  datatype Served = Served(fd: nat, received: seq<Byte>, data: seq<Byte>)

  ghost function FdsOf(served: seq<Served>): multiset<nat> {
    if served == [] then multiset{} else FdsOf(served[..|served| - 1]) + multiset{served[|served| - 1].fd}
  }

  /** Every reader that was closed received a prefix, and no other descriptor was closed. */
  ghost predicate ServedOk(served: seq<Served>, closed: multiset<nat>) {
    closed == FdsOf(served) && forall k :: 0 <= k < |served| ==> served[k].received <= served[k].data
  }

  lemma ServeOne(served: seq<Served>, closed: multiset<nat>, x: Served)
    requires ServedOk(served, closed) && x.received <= x.data
    ensures ServedOk(served + [x], closed + multiset{x.fd})
  {
    assert (served + [x])[..|served|] == served;
  }

  // ----- the selection

  ghost predicate EntryOk(e: Entry) {
    && (e.reading <==> !e.complete && !e.failed) && !(e.complete && e.failed)
    && (!e.failed ==> e.data == e.arrived)
    && forall j :: 0 <= j < |e.writers| ==> WriterOk(e.data, e.writers[j])
  }

  ghost predicate EntriesOk(entries: seq<Entry>) {
    forall i :: 0 <= i < |entries| ==> EntryOk(entries[i])
  }

  ghost predicate AllComplete(entries: seq<Entry>) {
    forall i :: 0 <= i < |entries| ==> entries[i].complete
  }

  /** Writers come and go without touching anything else. */
  lemma SetEntry(entries: seq<Entry>, i: nat, e: Entry)
    requires EntriesOk(entries) && i < |entries| && EntryOk(e) && e == entries[i].(writers := e.writers)
    ensures EntriesOk(entries[i := e]) && Size(entries[i := e]) == Size(entries)
    ensures Copies(entries[i := e]) == Copies(entries)
    ensures AllComplete(entries) ==> AllComplete(entries[i := e])
  {
    SetWriters(entries, i, e);
  }

  ghost function Size(entries: seq<Entry>): nat {
    if entries == [] then 0 else Size(entries[..|entries| - 1]) + |entries[|entries| - 1].data|
  }

  /** The copies offered: mime types and data. */
  ghost function Copies(entries: seq<Entry>): seq<(string, seq<Byte>)> {
    seq(|entries|, i requires 0 <= i < |entries| => (entries[i].mime, entries[i].data))
  }

  /** What is kept: entries read to the end, not failed and not empty. */
  predicate Keep(e: Entry) {
    e.complete && !e.failed && e.data != []
  }

  ghost function Kept(entries: seq<Entry>): seq<Entry> {
    if entries == [] then [] else Kept(entries[..|entries| - 1]) + if Keep(entries[|entries| - 1])
      then [entries[|entries| - 1]] else []
  }

  lemma {:induction false} KeptConcat(a: seq<Entry>, b: seq<Entry>)
    ensures Kept(a + b) == Kept(a) + Kept(b)
  {
    if b == [] {
      assert a + b == a;
    } else {
      assert (a + b)[..|a + b| - 1] == a + b[..|b| - 1];
      KeptConcat(a, b[..|b| - 1]);
    }
  }

  ghost function KeptOne(e: Entry): seq<Entry> {
    if Keep(e) then [e] else []
  }

  lemma KeptNext(entries: seq<Entry>, i: nat)
    requires i < |entries|
    ensures Kept(entries[..i + 1]) == Kept(entries[..i]) + KeptOne(entries[i])
  {
    assert entries[..i + 1][..i] == entries[..i];
  }

  lemma KeptSplit(entries: seq<Entry>, i: nat)
    requires i < |entries|
    ensures Kept(entries) == Kept(entries[..i + 1]) + Kept(entries[i + 1..])
  {
    TakeDrop(entries, i + 1);
    KeptConcat(entries[..i + 1], entries[i + 1..]);
  }

  /** One step of the erasing pass. */
  lemma KeepStep(entries: seq<Entry>, i: nat)
    requires i < |entries| && Kept(entries[..i]) == entries[..i]
    ensures Keep(entries[i]) ==> Kept(entries[..i + 1]) == entries[..i + 1]
    ensures !Keep(entries[i]) ==>
      var left := entries[..i] + entries[i + 1..]; Kept(left) == Kept(entries) && Kept(left[..i]) == left[..i]
  {
    KeptNext(entries, i);
    if Keep(entries[i]) {
      assert entries[..i + 1] == entries[..i] + [entries[i]];
    } else {
      KeptSplit(entries, i);
      KeptConcat(entries[..i], entries[i + 1..]);
      assert Kept(entries[..i]) + [] == Kept(entries[..i]);
      assert (entries[..i] + entries[i + 1..])[..i] == entries[..i];
    }
  }

  lemma {:induction false} KeptAll(entries: seq<Entry>)
    ensures forall e :: e in Kept(entries) ==> Keep(e)
  {
    if entries != [] { KeptAll(entries[..|entries| - 1]); }
  }

  /** The readers of an entry, closed from the last to the first. */
  ghost function Closings(data: seq<Byte>, writers: seq<Writer>): seq<Served> {
    if writers == [] then []
    else
      var n := |writers| - 1;
      [Served(writers[n].fd, writers[n].received, data)] + Closings(data, writers[..n])
  }

  ghost function AllClosings(entries: seq<Entry>): seq<Served> {
    if entries == [] then [] else Closings(entries[0].data, entries[0].writers) + AllClosings(entries[1..])
  }

  ghost function DroppedOne(e: Entry): seq<Served> {
    if Keep(e) then [] else Closings(e.data, e.writers)
  }

  /** The readers of the entries that are not kept. */
  ghost function Dropped(entries: seq<Entry>): seq<Served> {
    if entries == [] then [] else DroppedOne(entries[0]) + Dropped(entries[1..])
  }

  lemma RemoveLast<T>(s: seq<T>)
    requires s != []
    ensures s[..|s| - 1] + s[|s| - 1 + 1..] == s[..|s| - 1]
  {
  }

  lemma Assoc<T>(a: seq<T>, b: seq<T>, c: seq<T>)
    ensures a + b + c == a + (b + c)
  {
  }

  lemma CloseLast(served: seq<Served>, data: seq<Byte>, writers: seq<Writer>)
    requires writers != []
    ensures var n := |writers| - 1;
      && writers[..n] + writers[n + 1..] == writers[..n]
      && served + [Served(writers[n].fd, writers[n].received, data)] + Closings(data, writers[..n]) ==
        served + Closings(data, writers)
  {
    var n := |writers| - 1;
    RemoveLast(writers);
    Assoc(served, [Served(writers[n].fd, writers[n].received, data)], Closings(data, writers[..n]));
  }

  lemma CloseFirstEntry(served: seq<Served>, entries: seq<Entry>)
    requires entries != []
    ensures entries[..0] + entries[0 + 1..] == entries[1..]
    ensures served + Closings(entries[0].data, entries[0].writers) + AllClosings(entries[1..]) ==
      served + AllClosings(entries)
  {
    Assoc(served, Closings(entries[0].data, entries[0].writers), AllClosings(entries[1..]));
  }

  /** One step of the erasing pass, of which `i` entries are behind. */
  lemma DropStep(served: seq<Served>, entries: seq<Entry>, i: nat)
    requires i < |entries|
    ensures (entries[..i] + entries[i + 1..])[i..] == entries[i + 1..]
    ensures served + DroppedOne(entries[i]) + Dropped(entries[i + 1..]) == served + Dropped(entries[i..])
  {
    assert entries[i..][1..] == entries[i + 1..];
    Assoc(served, DroppedOne(entries[i]), Dropped(entries[i + 1..]));
  }

  /** The entries after each of the first `n` has been woken once, in order. */
  ghost function Drained(entries: seq<Entry>, total: nat, scripts: seq<seq<Read>>, n: nat): (seq<Entry>, nat)
    requires n <= |scripts| <= |entries|
    ensures |Drained(entries, total, scripts, n).0| == |entries|
  {
    if n == 0 then (entries, total)
    else
      var (es, t) := Drained(entries, total, scripts, n - 1);
      var (e, t') := Fed(es[n - 1], t, Wake(scripts[n - 1]));
      (es[n - 1 := e], t')
  }

  lemma DrainedStep(entries: seq<Entry>, total: nat, scripts: seq<seq<Read>>, n: nat, es: seq<Entry>, t: nat,
      es': seq<Entry>, t': nat)
    requires n < |scripts| <= |entries| && (es, t) == Drained(entries, total, scripts, n)
    requires |es'| == |es| && es' == es[n := es'[n]] && (es'[n], t') == Fed(es[n], t, Wake(scripts[n]))
    ensures (es', t') == Drained(entries, total, scripts, n + 1)
  {
  }

  ghost function FirstOf(entries: seq<Entry>, mime: string): (i: nat)
    ensures i <= |entries| && (i < |entries| ==> entries[i].mime == mime)
  {
    if entries == [] || entries[0].mime == mime then 0 else FirstOf(entries[1..], mime) + 1
  }

  lemma {:induction false} FirstIs(entries: seq<Entry>, mime: string, i: nat)
    requires i <= |entries| && (i < |entries| ==> entries[i].mime == mime) && forall k :: 0 <= k < i ==>
      entries[k].mime != mime
    ensures FirstOf(entries, mime) == i
  {
    if i > 0 { FirstIs(entries[1..], mime, i - 1); }
  }

  class Selection {
    var entries: seq<Entry>
    var total: nat
    var owned: bool
    var alive: bool
    ghost var given: multiset<nat>
    ghost var closed: multiset<nat>
    ghost var served: seq<Served>
    ghost var installed: seq<(string, seq<Byte>)>

    ghost predicate Valid()
      reads this
    {
      && EntriesOk(entries) && Size(entries) <= total <= MAX_SELECTION_SIZE
      && Conserved(given, closed, entries) && ServedOk(served, closed)
      && (owned ==> AllComplete(entries) && Copies(entries) == installed)
      && (!alive ==> entries == [])
    }

    /** `CreateSelection`: one entry for every mime type that is not ignored and whose pipe and
        event could be set up. */
    constructor (mimes: seq<string>)
      ensures Valid() && alive && !owned && total == 0 && given == closed == multiset{}
      ensures |entries| == |mimes| && forall i :: 0 <= i < |entries| ==>
        entries[i] == Entry(mimes[i], [], false, false, true, [], [])
    {
      entries := seq(|mimes|, i requires 0 <= i < |mimes| => Entry(mimes[i], [], false, false, true, [], []));
      total, owned, alive := 0, false, true;
      given, closed, served, installed := multiset{}, multiset{}, [], [];
      new;
      NothingYet(entries);
    }

    /** One result of `read`, as `Drain` treats it. */
    method TakeOne(i: nat, r: Read)
      requires Valid() && i < |entries| && entries[i].reading
      modifies `entries, `total
      ensures Valid() && |entries| == |old(entries)| && entries == old(entries)[i := entries[i]]
      ensures (entries[i], total) == old(Take(entries[i], total, r))
    {
      ghost var before := entries;
      var (e, t) := Take(entries[i], total, r);
      assert EntryOk(entries[i]);
      TakeOk(entries[i], total, r);
      SetData(entries, i, e);
      SameOpen(given, closed, entries, entries[i := e]);
      entries, total := entries[i := e], t;
    }

    /** `Drain`: reads until the owner makes it wait or the entry is finished. */
    method Drain(i: nat, script: seq<Read>)
      requires Valid() && i < |entries|
      modifies `entries, `total
      ensures Valid() && |entries| == |old(entries)| && entries == old(entries)[i := entries[i]]
      ensures (entries[i], total) == Fed(old(entries[i]), old(total), Wake(script))
    {
      var n := 0;
      while entries[i].reading && n < |script|
        invariant Valid() && n <= |script| && |entries| == |old(entries)|
        invariant Fed(entries[i], total, Wake(script[n..])) == Fed(old(entries[i]), old(total), Wake(script))
        invariant entries == old(entries)[i := entries[i]]
      {
        ghost var e, t := entries[i], total;
        TakeOne(i, script[n]);
        WakeNext(e, t, script[n..]);
        assert script[n..][1..] == script[n + 1..];
        if script[n].ReadBlocked? { return; }
        n := n + 1;
      }
    }

    /** `DestroyWriter`: the reader's pipe is closed and forgotten. */
    method DestroyWriter(i: nat, j: nat)
      requires Valid() && i < |entries| && j < |entries[i].writers|
      modifies `entries, `closed, `served
      ensures Valid() && closed == old(closed) + multiset{old(entries[i].writers[j].fd)}
      ensures Copies(entries) == old(Copies(entries))
      ensures served == old(served) + [Served(old(entries[i].writers[j].fd), old(entries[i].writers[j].received),
        old(entries[i].data))]
      ensures |entries| == |old(entries)| && entries == old(entries)[i := entries[i]]
      ensures entries[i] == old(entries[i]).(writers := old(entries[i].writers)[..j] + old(entries[i].writers)[j + 1..])
    {
      var e, w := entries[i], entries[i].writers[j];
      var e' := e.(writers := e.writers[..j] + e.writers[j + 1..]);
      CloseWriter(given, closed, served, entries, i, j);
      closed, served := closed + multiset{w.fd}, served + [Served(w.fd, w.received, e.data)];
      entries := entries[i := e'];
    }

    /** `OnWritable`: the reader is served, and gone once it is done or hung up. */
    method OnWritable(i: nat, j: nat, script: seq<Write>, hangup: bool)
      requires Valid() && i < |entries| && j < |entries[i].writers|
      modifies `entries, `closed, `served
      ensures Valid() && |entries| == |old(entries)| && Copies(entries) == old(Copies(entries))
      ensures entries == old(entries)[i := entries[i]]
      ensures var (done, w) := Flushed(old(entries[i].data), old(entries[i].writers[j]), script);
        if done || hangup then
          && closed == old(closed) + multiset{old(entries[i].writers[j].fd)}
          && served == old(served) + [Served(w.fd, w.received, old(entries[i].data))]
          && entries[i] == old(entries[i]).(writers := old(entries[i].writers[..j]) + old(entries[i].writers[j + 1..]))
        else
          && closed == old(closed) && served == old(served)
          && entries[i] == old(entries[i]).(writers := old(entries[i].writers)[j := w])
    {
      assert EntryOk(entries[i]) && WriterOk(entries[i].data, entries[i].writers[j]);
      var done, w := FlushWriter(entries[i].data, entries[i].writers[j], script);
      ghost var writers := entries[i].writers;
      ReplaceWriter(i, j, w);
      if done || hangup {
        assert writers[j := w][..j] == writers[..j] && writers[j := w][j + 1..] == writers[j + 1..];
        DestroyWriter(i, j);
      }
    }

    method ReplaceWriter(i: nat, j: nat, w: Writer)
      requires Valid() && i < |entries| && j < |entries[i].writers|
      requires WriterOk(entries[i].data, w) && w.fd == entries[i].writers[j].fd
      modifies `entries
      ensures Valid() && Copies(entries) == old(Copies(entries)) && |entries| == |old(entries)|
      ensures entries == old(entries)[i := entries[i]]
      ensures entries[i] == old(entries[i]).(writers := old(entries[i].writers)[j := w])
    {
      var e := entries[i];
      var e' := e.(writers := e.writers[j := w]);
      assert EntryOk(e);
      forall fd ensures Open(entries[i := e'], fd) == Open(entries, fd) {
        OpenSet(entries, i, e', fd);
        OpenReplace(e.writers, j, w, fd);
      }
      SameOpen(given, closed, entries, entries[i := e']);
      SetEntry(entries, i, e');
      entries := entries[i := e'];
    }

    /** The first entry of a mime type, or the number of entries. */
    ghost function Found(mime: string): (i: nat)
      reads `entries
      ensures i <= |entries| && (i < |entries| ==> entries[i].mime == mime)
    {
      FirstOf(entries, mime)
    }

    /** `SendSelection`: every descriptor is closed on the spot or held by a new writer, which
        has sent what the pipe took. */
    method SendSelection(mime: string, fd: nat, script: seq<Write>, added: bool)
      requires Valid()
      modifies `entries, `given, `closed, `served
      ensures Valid() && given == old(given) + multiset{fd} && |entries| == |old(entries)|
      ensures Copies(entries) == old(Copies(entries))
      ensures var i := old(Found(mime));
        var data := if i < |entries| then old(entries)[i].data else [];
        var (done, w) := Flushed(data, Writer(fd, 0, []), script);
        if i == |entries| || !added || done then
          && entries == old(entries) && closed == old(closed) + multiset{fd}
          && served == old(served) + [Served(fd, w.received, data)]
        else
          && closed == old(closed) && served == old(served)
          && entries == old(entries)[i := old(entries)[i].(writers := old(entries)[i].writers + [w])]
    {
      var i := 0;
      while i < |entries| && entries[i].mime != mime
        invariant i <= |entries| && forall k :: 0 <= k < i ==> entries[k].mime != mime
      {
        i := i + 1;
      }
      FirstIs(entries, mime, i);
      if i == |entries| {
        AnswerAtOnce(Served(fd, [], []));
        return;
      }
      assert EntryOk(entries[i]) && entries[i].data[..0] == [];
      var done, w := FlushWriter(entries[i].data, Writer(fd, 0, []), script);
      if done || !added {
        AnswerAtOnce(Served(fd, w.received, entries[i].data));
        return;
      }
      AddWriter(i, w);
    }

    /** A descriptor that is closed without becoming a writer. */
    ghost method AnswerAtOnce(x: Served)
      requires Valid() && x.received <= x.data
      modifies `given, `closed, `served
      ensures Valid() && given == old(given) + multiset{x.fd} && closed == old(closed) + multiset{x.fd}
      ensures served == old(served) + [x]
    {
      ServeOne(served, closed, x);
      given, closed, served := given + multiset{x.fd}, closed + multiset{x.fd}, served + [x];
    }

    method AddWriter(i: nat, w: Writer)
      requires Valid() && i < |entries| && WriterOk(entries[i].data, w)
      modifies `entries, `given
      ensures Valid() && given == old(given) + multiset{w.fd} && |entries| == |old(entries)|
      ensures Copies(entries) == old(Copies(entries))
      ensures entries == old(entries)[i := old(entries[i]).(writers := old(entries[i].writers) + [w])]
    {
      var e' := entries[i].(writers := entries[i].writers + [w]);
      OpenWriter(given, closed, entries, i, w);
      entries := entries[i := e'];
      given := given + multiset{w.fd};
    }

    method DestroyLastWriter(i: nat)
      requires Valid() && i < |entries| && entries[i].writers != []
      modifies `entries, `closed, `served
      ensures Valid() && |entries| == |old(entries)|
      ensures var writers := old(entries[i].writers);
        && entries == old(entries)[i := old(entries[i]).(writers := writers[..|writers| - 1])]
        && served + Closings(old(entries[i].data), writers[..|writers| - 1]) ==
          old(served) + Closings(old(entries[i].data), writers)
    {
      CloseLast(served, entries[i].data, entries[i].writers);
      DestroyWriter(i, |entries[i].writers| - 1);
    }

    /** The loop of `DestroyEntry`. */
    method DestroyWriters(i: nat)
      requires Valid() && i < |entries|
      modifies `entries, `closed, `served
      ensures Valid() && |entries| == |old(entries)| && entries == old(entries)[i := old(entries[i]).(writers := [])]
      ensures served == old(served) + old(Closings(entries[i].data, entries[i].writers))
    {
      ghost var was, e, out := entries, entries[i], served + Closings(entries[i].data, entries[i].writers);
      while entries[i].writers != []
        invariant Valid() && |entries| == |was| && entries == was[i := e.(writers := entries[i].writers)]
        invariant served + Closings(e.data, entries[i].writers) == out
        decreases |entries[i].writers|
      {
        DestroyLastWriter(i);
      }
      assert served + [] == served;
    }

    /** `DestroyEntry`, and the entry is dropped. */
    method RemoveEntry(i: nat)
      requires Valid() && i < |entries| && !owned
      modifies `entries, `closed, `served
      ensures Valid() && |entries| == |old(entries)| - 1 && entries == old(entries)[..i] + old(entries)[i + 1..]
      ensures served == old(served) + old(Closings(entries[i].data, entries[i].writers))
    {
      DestroyWriters(i);
      DropOthers(old(entries), entries, i);
      DropConserves(given, closed, entries, i);
      SizeDrop(entries, i);
      entries := entries[..i] + entries[i + 1..];
    }

    method RemoveFirst()
      requires Valid() && !owned && entries != []
      modifies `entries, `closed, `served
      ensures Valid() && entries == old(entries)[1..]
      ensures served + AllClosings(entries) == old(served) + AllClosings(old(entries))
    {
      CloseFirstEntry(served, entries);
      RemoveEntry(0);
    }

    /** The loop of `DestroySelection`. */
    method RemoveAll()
      requires Valid() && !owned
      modifies `entries, `closed, `served
      ensures Valid() && entries == [] && served == old(served) + AllClosings(old(entries))
    {
      while entries != []
        invariant Valid() && served + AllClosings(entries) == old(served) + AllClosings(old(entries))
        decreases |entries|
      {
        RemoveFirst();
      }
      assert served + [] == served;
    }

    /** `DestroySelection`: nothing is left open, so every descriptor given was closed once. */
    method DestroySelection()
      requires Valid()
      modifies `entries, `closed, `served, `owned, `alive
      ensures Valid() && !alive && !owned && entries == [] && closed == given
      ensures served == old(served) + AllClosings(old(entries))
    {
      owned := false;
      RemoveAll();
      alive := false;
      NothingOpen(given, closed);
    }

    /** The erasing pass of `Install`. */
    method KeepFinished()
      requires Valid() && !owned
      modifies `entries, `closed, `served
      ensures Valid() && entries == Kept(old(entries)) && served == old(served) + Dropped(old(entries))
    {
      var i := 0;
      while i < |entries|
        invariant i <= |entries| && Valid()
        invariant Kept(entries[..i]) == entries[..i] && Kept(entries) == Kept(old(entries))
        invariant served + Dropped(entries[i..]) == old(served) + Dropped(old(entries))
        decreases |entries| - i
      {
        KeepStep(entries, i);
        DropStep(served, entries, i);
        if Keep(entries[i]) {
          assert served + [] == served;
          i := i + 1;
        } else {
          RemoveEntry(i);
        }
      }
      assert entries[..i] == entries;
    }

    /** The reading pass of `Install`. */
    method DrainAll(scripts: seq<seq<Read>>)
      requires Valid() && !owned && |scripts| == |entries|
      modifies `entries, `total
      ensures Valid() && (entries, total) == Drained(old(entries), old(total), scripts, |scripts|)
    {
      for i := 0 to |scripts|
        invariant Valid() && |entries| == |scripts| && (entries, total) == Drained(old(entries), old(total), scripts, i)
      {
        ghost var es, t := entries, total;
        Drain(i, scripts[i]);
        DrainedStep(old(entries), old(total), scripts, i, es, t, entries, total);
      }
    }

    /** `Install`: once the owner is gone, exactly what was read to the end becomes the
        selection; if that is nothing, or no mime type could be offered, it is destroyed. */
    method Install(scripts: seq<seq<Read>>, blocked: bool, slots: nat)
      requires Valid() && alive && !owned && |scripts| == |entries|
      modifies `entries, `total, `closed, `served, `owned, `alive, `installed
      ensures Valid()
      ensures blocked ==> !owned && alive && entries == old(entries) && total == old(total)
      ensures blocked ==> closed == old(closed) && served == old(served)
      ensures !blocked ==> (owned <==> alive) && total == Drained(old(entries), old(total), scripts, |scripts|).1
      ensures !blocked ==>
        var kept := Kept(Drained(old(entries), old(total), scripts, |scripts|).0);
        && (owned <==> kept != [] && slots > 0) && entries == (if owned then kept else [])
        && served == old(served) + Dropped(Drained(old(entries), old(total), scripts, |scripts|).0)
             + (if owned then [] else AllClosings(kept))
      ensures owned ==> entries != [] && forall i :: 0 <= i < |entries| ==> entries[i].data == entries[i].arrived != []
    {
      if blocked { return; }
      FinishReading(scripts);
      Offer(slots);
    }

    /** What is left is offered, or destroyed if no mime type can be. */
    method Offer(slots: nat)
      requires Valid() && alive && !owned && forall e :: e in entries ==> Keep(e)
      modifies `entries, `closed, `served, `owned, `alive, `installed
      ensures Valid() && (owned <==> alive) && (owned <==> old(entries) != [] && slots > 0)
      ensures entries == if owned then old(entries) else []
      ensures served == old(served) + if owned then [] else AllClosings(old(entries))
      ensures owned ==> forall i :: 0 <= i < |entries| ==> entries[i].data == entries[i].arrived != []
    {
      if entries == [] || slots == 0 {
        DestroySelection();
        return;
      }
      Adopt();
      assert served + [] == served;
    }

    /** What could be read to the end is left, and its readers. */
    method FinishReading(scripts: seq<seq<Read>>)
      requires Valid() && !owned && |scripts| == |entries|
      modifies `entries, `total, `closed, `served
      ensures Valid() && forall e :: e in entries ==> Keep(e)
      ensures var (es, t) := Drained(old(entries), old(total), scripts, |scripts|);
        entries == Kept(es) && total == t && served == old(served) + Dropped(es)
    {
      DrainAll(scripts);
      KeptAll(entries);
      KeepFinished();
    }

    /** The selection becomes the seat's. */
    method Adopt()
      requires Valid() && alive && !owned && entries != [] && forall e :: e in entries ==> Keep(e)
      modifies `owned, `installed
      ensures Valid() && owned && installed == Copies(entries)
      ensures forall i :: 0 <= i < |entries| ==> entries[i].data == entries[i].arrived != []
    {
      forall i | 0 <= i < |entries| ensures entries[i].complete && entries[i].data == entries[i].arrived != [] {
        assert Keep(entries[i]) && EntryOk(entries[i]);
      }
      installed := Copies(entries);
      owned := true;
    }
  }

  lemma DropOthers<T>(a: seq<T>, b: seq<T>, i: nat)
    requires i < |a| == |b| && b == a[i := b[i]]
    ensures b[..i] + b[i + 1..] == a[..i] + a[i + 1..]
  {
  }

  lemma DropConserves(given: multiset<nat>, closed: multiset<nat>, entries: seq<Entry>, i: nat)
    requires Conserved(given, closed, entries) && i < |entries| && entries[i].writers == []
    ensures Conserved(given, closed, entries[..i] + entries[i + 1..])
  {
    forall fd ensures given[fd] == closed[fd] + Open(entries[..i] + entries[i + 1..], fd) { OpenDrop(entries, i, fd); }
  }

  lemma WriterAdded(e: Entry, w: Writer)
    requires EntryOk(e) && WriterOk(e.data, w)
    ensures EntryOk(e.(writers := e.writers + [w]))
  {
  }

  lemma AddConserves(given: multiset<nat>, closed: multiset<nat>, entries: seq<Entry>, i: nat, w: Writer, e: Entry)
    requires Conserved(given, closed, entries) && i < |entries| && e.writers == entries[i].writers + [w]
    ensures Conserved(given + multiset{w.fd}, closed, entries[i := e])
  {
    forall fd ensures (given + multiset{w.fd})[fd] == closed[fd] + Open(entries[i := e], fd) {
      OpenSet(entries, i, e, fd);
      OpenAdd(entries[i].writers, w, fd);
    }
  }

  lemma WriterGone(e: Entry, j: nat)
    requires EntryOk(e) && j < |e.writers|
    ensures EntryOk(e.(writers := e.writers[..j] + e.writers[j + 1..])) && e.writers[j].received <= e.data
  {
    assert WriterOk(e.data, e.writers[j]);
    var left := e.writers[..j] + e.writers[j + 1..];
    forall k | 0 <= k < |left| ensures WriterOk(e.data, left[k]) {
      assert WriterOk(e.data, e.writers[if k < j then k else k + 1]);
    }
  }

  /** A descriptor becomes a writer. */
  lemma OpenWriter(given: multiset<nat>, closed: multiset<nat>, entries: seq<Entry>, i: nat, w: Writer)
    requires EntriesOk(entries) && Conserved(given, closed, entries) && i < |entries| && WriterOk(entries[i].data, w)
    ensures var after := entries[i := entries[i].(writers := entries[i].writers + [w])];
      && EntriesOk(after) && Size(after) == Size(entries) && Copies(after) == Copies(entries)
      && (AllComplete(entries) ==> AllComplete(after)) && Conserved(given + multiset{w.fd}, closed, after)
  {
    var e' := entries[i].(writers := entries[i].writers + [w]);
    WriterAdded(entries[i], w);
    AddConserves(given, closed, entries, i, w, e');
    SetEntry(entries, i, e');
  }

  /** A writer is closed and forgotten. */
  lemma CloseWriter(given: multiset<nat>, closed: multiset<nat>, served: seq<Served>, entries: seq<Entry>, i: nat,
      j: nat)
    requires EntriesOk(entries) && Conserved(given, closed, entries) && ServedOk(served, closed) && i < |entries|
    requires j < |entries[i].writers|
    ensures var e, w := entries[i], entries[i].writers[j];
      var after := entries[i := e.(writers := e.writers[..j] + e.writers[j + 1..])];
      && EntriesOk(after) && Size(after) == Size(entries) && Copies(after) == Copies(entries) &&
        (AllComplete(entries) ==> AllComplete(after))
      && Conserved(given, closed + multiset{w.fd}, after)
      && ServedOk(served + [Served(w.fd, w.received, e.data)], closed + multiset{w.fd})
  {
    var e, w := entries[i], entries[i].writers[j];
    var e' := e.(writers := e.writers[..j] + e.writers[j + 1..]);
    WriterGone(e, j);
    RemoveConserves(given, closed, entries, i, j, e');
    SetEntry(entries, i, e');
    ServeOne(served, closed, Served(w.fd, w.received, e.data));
  }

  lemma {:induction false} OpenDrop(entries: seq<Entry>, i: nat, fd: nat)
    requires i < |entries| && entries[i].writers == []
    ensures Open(entries[..i] + entries[i + 1..], fd) == Open(entries, fd)
  {
    RemoveInit(entries, i);
    if i < |entries| - 1 { OpenDrop(entries[..|entries| - 1], i, fd); }
  }

  lemma {:induction false} SizeDrop(entries: seq<Entry>, i: nat)
    requires i < |entries|
    ensures Size(entries[..i] + entries[i + 1..]) + |entries[i].data| == Size(entries)
  {
    RemoveInit(entries, i);
    if i < |entries| - 1 { SizeDrop(entries[..|entries| - 1], i); }
  }

  lemma TakeOk(e: Entry, total: nat, r: Read)
    requires EntryOk(e) && e.reading && total <= MAX_SELECTION_SIZE
    ensures var (e', t) := Take(e, total, r);
      EntryOk(e') && e.data <= e'.data && e'.writers == e.writers && t <= MAX_SELECTION_SIZE &&
        t - total == |e'.data| - |e.data|
  {
    var (e', t) := Take(e, total, r);
    forall j | 0 <= j < |e'.writers| ensures WriterOk(e'.data, e'.writers[j]) { assert WriterOk(e.data, e.writers[j]); }
  }

  lemma WakeNext(e: Entry, total: nat, script: seq<Read>)
    requires e.reading && script != []
    ensures var (e', t) := Take(e, total, script[0]);
      Fed(e, total, Wake(script)) == if script[0].ReadBlocked? then (e', t) else Fed(e', t, Wake(script[1..]))
  {
    if script[0].ReadBlocked? {
      assert [script[0]][1..] == [];
    } else {
      assert Wake(script)[1..] == Wake(script[1..]);
    }
  }

  lemma {:induction false} SizeSet(entries: seq<Entry>, i: nat, e: Entry)
    requires i < |entries|
    ensures Size(entries[i := e]) + |entries[i].data| == Size(entries) + |e.data|
  {
    SetInit(entries, i, e);
    if i < |entries| - 1 { SizeSet(entries[..|entries| - 1], i, e); }
  }

  /** Data may change without touching the writers, */
  lemma SetData(entries: seq<Entry>, i: nat, e: Entry)
    requires i < |entries| && e.writers == entries[i].writers
    ensures Size(entries[i := e]) + |entries[i].data| == Size(entries) + |e.data|
    ensures forall fd :: Open(entries[i := e], fd) == Open(entries, fd)
  {
    SizeSet(entries, i, e);
    forall fd ensures Open(entries[i := e], fd) == Open(entries, fd) { OpenSet(entries, i, e, fd); }
  }

  /** and writers without touching the data. */
  lemma SetWriters(entries: seq<Entry>, i: nat, e: Entry)
    requires i < |entries| && e.mime == entries[i].mime && e.data == entries[i].data
    ensures Size(entries[i := e]) == Size(entries) && Copies(entries[i := e]) == Copies(entries)
  {
    SizeSet(entries, i, e);
  }

  lemma OpenReplace(writers: seq<Writer>, j: nat, w: Writer, fd: nat)
    requires j < |writers| && w.fd == writers[j].fd
    ensures OpenIn(writers[j := w], fd) == OpenIn(writers, fd)
  {
    OpenRemove(writers, j, fd);
    OpenRemove(writers[j := w], j, fd);
    assert writers[j := w][..j] == writers[..j] && writers[j := w][j + 1..] == writers[j + 1..];
  }

  lemma RemoveConserves(given: multiset<nat>, closed: multiset<nat>, entries: seq<Entry>, i: nat, j: nat, e: Entry)
    requires Conserved(given, closed, entries) && i < |entries| && j < |entries[i].writers|
    requires e.writers == entries[i].writers[..j] + entries[i].writers[j + 1..]
    ensures Conserved(given, closed + multiset{entries[i].writers[j].fd}, entries[i := e])
  {
    forall fd ensures given[fd] == (closed + multiset{entries[i].writers[j].fd})[fd] + Open(entries[i := e], fd) {
      OpenSet(entries, i, e, fd);
      OpenRemove(entries[i].writers, j, fd);
    }
  }

  lemma {:induction false} NothingYet(entries: seq<Entry>)
    requires forall i :: 0 <= i < |entries| ==> entries[i].data == [] && entries[i].writers == []
    ensures Size(entries) == 0 && forall fd :: Open(entries, fd) == 0
  {
    if entries != [] { NothingYet(entries[..|entries| - 1]); }
  }

  /** Everything that can happen to a selection. */
  datatype Event =
    | Readable(entry: nat, script: seq<Read>)
    | Send(mime: string, fd: nat, writes: seq<Write>, added: bool)
    | Writable(entry: nat, writer: nat, writes: seq<Write>, hangup: bool)
    | OwnerGone(scripts: seq<seq<Read>>, blocked: bool, slots: nat)
    | Destroy

  // ----- the reference: what a schedule of events must lead to

  datatype State = State(entries: seq<Entry>, total: nat, owned: bool, alive: bool, given: multiset<nat>,
    served: seq<Served>)

  ghost function Initial(mimes: seq<string>): State {
    State(seq(|mimes|, i requires 0 <= i < |mimes| => Entry(mimes[i], [], false, false, true, [], [])), 0, false, true,
      multiset{}, [])
  }

  ghost function Reading(st: State, i: nat, script: seq<Read>): State
    requires i < |st.entries|
  {
    var (e, total) := Fed(st.entries[i], st.total, Wake(script));
    st.(entries := st.entries[i := e], total := total)
  }

  ghost function WithWriters(entries: seq<Entry>, i: nat, writers: seq<Writer>): seq<Entry>
    requires i < |entries|
  {
    entries[i := entries[i].(writers := writers)]
  }

  /** A reader asks for a mime type and is answered at once or becomes a writer. */
  ghost function Sending(st: State, mime: string, fd: nat, script: seq<Write>, added: bool): State {
    var i := FirstOf(st.entries, mime);
    var data := if i < |st.entries| then st.entries[i].data else [];
    var (done, w) := Flushed(data, Writer(fd, 0, []), script);
    if i == |st.entries| || !added || done
      then st.(given := st.given + multiset{fd}, served := st.served + [Served(fd, w.received, data)])
    else st.(given := st.given + multiset{fd}, entries := WithWriters(st.entries, i, st.entries[i].writers + [w]))
  }

  ghost function Writing(st: State, i: nat, j: nat, script: seq<Write>, hangup: bool): State
    requires i < |st.entries| && j < |st.entries[i].writers|
  {
    var e := st.entries[i];
    var (done, w) := Flushed(e.data, e.writers[j], script);
    if done || hangup then
      st.(entries := WithWriters(st.entries, i, e.writers[..j] + e.writers[j + 1..]), served :=
        st.served + [Served(w.fd, w.received, e.data)])
    else st.(entries := WithWriters(st.entries, i, e.writers[j := w]))
  }

  ghost function Destroyed(st: State): State {
    st.(entries := [], owned := false, alive := false, served := st.served + AllClosings(st.entries))
  }

  /** The owner is gone: every pipe is read once more and what is finished becomes the
      selection. */
  ghost function Installing(st: State, scripts: seq<seq<Read>>, slots: nat): State
    requires |scripts| == |st.entries|
  {
    var (es, total) := Drained(st.entries, st.total, scripts, |scripts|);
    var left := st.(entries := Kept(es), total := total, served := st.served + Dropped(es));
    if left.entries != [] && slots > 0 then left.(owned := true) else Destroyed(left)
  }

  /** Events for something that is not there change nothing. */
  ghost function Next(st: State, event: Event): State {
    if !st.alive then st
    else
      match event
      case Readable(i, script) => if i < |st.entries| then Reading(st, i, script) else st
      case Send(mime, fd, script, added) => Sending(st, mime, fd, script, added)
      case Writable(i, j, script, hangup) =>
        if i < |st.entries| && j < |st.entries[i].writers| then Writing(st, i, j, script, hangup) else st
      case OwnerGone(scripts, blocked, slots) =>
        if !st.owned && |scripts| == |st.entries| && !blocked then Installing(st, scripts, slots) else st
      case Destroy => Destroyed(st)
  }

  ghost function After(mimes: seq<string>, events: seq<Event>): State {
    if events == [] then Initial(mimes) else Next(After(mimes, events[..|events| - 1]), events[|events| - 1])
  }

  lemma AfterNext(mimes: seq<string>, events: seq<Event>, i: nat)
    requires i < |events|
    ensures After(mimes, events[..i + 1]) == Next(After(mimes, events[..i]), events[i])
  {
    assert events[..i + 1][..i] == events[..i];
  }

  // ----- the code keeps to it

  ghost predicate Refines(s: Selection, st: State)
    reads s
  {
    s.Valid() && State(s.entries, s.total, s.owned, s.alive, s.given, s.served) == st
  }

  method StepRead(s: Selection, i: nat, script: seq<Read>, ghost st: State)
    requires Refines(s, st) && i < |s.entries|
    modifies s`entries, s`total
    ensures Refines(s, Reading(st, i, script))
  {
    s.Drain(i, script);
  }

  method StepSend(s: Selection, mime: string, fd: nat, script: seq<Write>, added: bool, ghost st: State)
    requires Refines(s, st)
    modifies s`entries, s`given, s`closed, s`served
    ensures Refines(s, Sending(st, mime, fd, script, added))
  {
    s.SendSelection(mime, fd, script, added);
  }

  method StepWrite(s: Selection, i: nat, j: nat, script: seq<Write>, hangup: bool, ghost st: State)
    requires Refines(s, st) && i < |s.entries| && j < |s.entries[i].writers|
    modifies s`entries, s`closed, s`served
    ensures Refines(s, Writing(st, i, j, script, hangup))
  {
    assert EntryOk(s.entries[i]) && WriterOk(s.entries[i].data, s.entries[i].writers[j]);
    FlushedInOrder(s.entries[i].data, s.entries[i].writers[j], script);
    s.OnWritable(i, j, script, hangup);
  }

  method StepGone(s: Selection, scripts: seq<seq<Read>>, slots: nat, ghost st: State)
    requires Refines(s, st) && s.alive && !s.owned && |scripts| == |s.entries|
    modifies s`entries, s`total, s`closed, s`served, s`owned, s`alive, s`installed
    ensures Refines(s, Installing(st, scripts, slots))
  {
    s.Install(scripts, false, slots);
    assert s.owned ==> s.served + [] == s.served;
  }

  /** One event. */
  method Step(s: Selection, event: Event, ghost st: State)
    requires Refines(s, st)
    modifies s
    ensures Refines(s, Next(st, event))
  {
    if !s.alive { return; }
    match event {
      case Readable(i, script) => if i < |s.entries| { StepRead(s, i, script, st); }
      case Send(mime, fd, script, added) => StepSend(s, mime, fd, script, added, st);
      case Writable(i, j, script, hangup) =>
        if i < |s.entries| && j < |s.entries[i].writers| { StepWrite(s, i, j, script, hangup, st); }
      case OwnerGone(scripts, blocked, slots) =>
        if !s.owned && |scripts| == |s.entries| {
          if blocked { s.Install(scripts, true, slots); } else { StepGone(s, scripts, slots, st); }
        }
      case Destroy => s.DestroySelection();
    }
  }

  /** Under every schedule the selection is what the reference says, and it is valid: the total
      stays within the limit, every reader has received a prefix of its data, and every
      descriptor given has been closed once or is held by one writer.  What is offered is what
      the owner sent. */
  method Run(mimes: seq<string>, events: seq<Event>) returns (s: Selection)
    ensures fresh(s) && Refines(s, After(mimes, events)) && Size(s.entries) <= s.total <= MAX_SELECTION_SIZE
    ensures forall e, w :: e in s.entries && w in e.writers ==> w.received <= e.data
    ensures forall x :: x in s.served ==> x.received <= x.data
    ensures forall fd :: s.given[fd] == s.closed[fd] + Open(s.entries, fd)
    ensures s.owned ==> exists g: nat :: OffersSent(mimes, events, g, Copies(s.entries))
  {
    s := new Selection(mimes);
    assert s.entries == Initial(mimes).entries;
    for i := 0 to |events|
      invariant fresh(s) && Refines(s, After(mimes, events[..i]))
    {
      AfterNext(mimes, events, i);
      Step(s, events[i], After(mimes, events[..i]));
    }
    assert events[..|events|] == events;
    if s.owned { ghost var g := InstalledIsSent(mimes, events, |events|); }
    forall e, w | e in s.entries && w in e.writers ensures w.received <= e.data {
      assert EntryOk(e) && WriterOk(e.data, w);
    }
  }

  /** Once it is destroyed, the descriptors of all requests have been closed, each once. */
  method RunToEnd(mimes: seq<string>, events: seq<Event>) returns (s: Selection)
    ensures fresh(s) && s.Valid() && !s.alive && s.closed == s.given == Requested(mimes, events)
    ensures s.served == Destroyed(After(mimes, events)).served && FdsOf(s.served) == Requested(mimes, events)
  {
    s := Run(mimes, events);
    GivenIsRequested(mimes, events);
    s.DestroySelection();
  }

  /** The descriptors of the requests made while the selection is alive. */
  ghost function Requested(mimes: seq<string>, events: seq<Event>): multiset<nat> {
    if events == [] then multiset{}
    else
      var n := |events| - 1;
      Requested(mimes, events[..n]) + if events[n].Send? && After(mimes, events[..n]).alive then multiset{events[n].fd}
        else multiset{}
  }

  lemma NextGiven(st: State, event: Event)
    ensures Next(st, event).given == st.given + if event.Send? && st.alive then multiset{event.fd} else multiset{}
  {
  }

  lemma {:induction false} GivenIsRequested(mimes: seq<string>, events: seq<Event>)
    ensures After(mimes, events).given == Requested(mimes, events)
  {
    if events != [] {
      GivenIsRequested(mimes, events[..|events| - 1]);
      NextGiven(After(mimes, events[..|events| - 1]), events[|events| - 1]);
    }
  }

  // ----- an installed copy stays what it is

  ghost predicate Finished(e: Entry) {
    e.complete ==> !e.reading
  }

  ghost predicate AllFinished(entries: seq<Entry>) {
    forall i :: 0 <= i < |entries| ==> Finished(entries[i])
  }

  ghost predicate Settled(st: State) {
    AllFinished(st.entries) && (st.owned ==> AllComplete(st.entries))
  }

  lemma {:induction false} FedFinished(e: Entry, total: nat, script: seq<Read>)
    requires Finished(e)
    ensures Finished(Fed(e, total, script).0)
    decreases |script|
  {
    if script != [] && e.reading {
      var (e', total') := Take(e, total, script[0]);
      FedFinished(e', total', script[1..]);
    }
  }

  lemma {:induction false} DrainedFinished(entries: seq<Entry>, total: nat, scripts: seq<seq<Read>>, n: nat)
    requires n <= |scripts| <= |entries| && AllFinished(entries)
    ensures AllFinished(Drained(entries, total, scripts, n).0)
  {
    if n > 0 {
      DrainedFinished(entries, total, scripts, n - 1);
      var (es, t) := Drained(entries, total, scripts, n - 1);
      FedFinished(es[n - 1], t, Wake(scripts[n - 1]));
    }
  }

  lemma {:induction false} KeptFinished(entries: seq<Entry>)
    requires AllFinished(entries)
    ensures AllFinished(Kept(entries)) && AllComplete(Kept(entries))
  {
    if entries != [] { KeptFinished(entries[..|entries| - 1]); }
  }

  lemma NextSettled(st: State, event: Event)
    requires Settled(st)
    ensures Settled(Next(st, event))
  {
    if st.alive {
      match event {
        case Readable(i, script) =>
          if i < |st.entries| { FedFinished(st.entries[i], st.total, Wake(script)); }
        case OwnerGone(scripts, blocked, slots) =>
          if !st.owned && |scripts| == |st.entries| && !blocked {
            DrainedFinished(st.entries, st.total, scripts, |scripts|);
            KeptFinished(Drained(st.entries, st.total, scripts, |scripts|).0);
          }
        case _ =>
      }
    }
  }

  lemma {:induction false} AfterSettled(mimes: seq<string>, events: seq<Event>)
    ensures Settled(After(mimes, events))
  {
    if events != [] {
      AfterSettled(mimes, events[..|events| - 1]);
      NextSettled(After(mimes, events[..|events| - 1]), events[|events| - 1]);
    }
  }

  lemma OwnedStays(st: State, event: Event)
    requires Settled(st) && st.owned && Next(st, event).alive
    ensures Next(st, event).owned && Copies(Next(st, event).entries) == Copies(st.entries)
  {
    if event.Readable? && event.entry < |st.entries| {
      assert Finished(st.entries[event.entry]) && st.entries[event.entry].complete;
    }
  }

  /** From the moment a selection is installed until it is destroyed, whatever happens in
      between, it offers the same mime types with the same data. */
  lemma {:induction false} InstalledStays(mimes: seq<string>, events: seq<Event>, i: nat, j: nat)
    requires i <= j <= |events| && After(mimes, events[..i]).owned && After(mimes, events[..j]).alive
    ensures After(mimes, events[..j]).owned
    ensures Copies(After(mimes, events[..j]).entries) == Copies(After(mimes, events[..i]).entries)
    decreases j
  {
    if i < j {
      AfterNext(mimes, events, j - 1);
      var st := After(mimes, events[..j - 1]);
      InstalledStays(mimes, events, i, j - 1);
      AfterSettled(mimes, events[..j - 1]);
      OwnedStays(st, events[j - 1]);
    }
  }

  // ----- an installed copy is what its owner sent

  /** The results of `read` of one wake-up of entry `i`. */
  ghost function Chunks(i: nat, script: seq<Read>): seq<Chunk> {
    seq(|script|, k requires 0 <= k < |script| => Chunk(i, script[k]))
  }

  /** The last wake-ups of the first `n` entries. */
  ghost function LastReads(scripts: seq<seq<Read>>, n: nat): seq<Chunk>
    requires n <= |scripts|
  {
    if n == 0 then [] else LastReads(scripts, n - 1) + Chunks(n - 1, Wake(scripts[n - 1]))
  }

  ghost function ReadsIn(entries: nat, event: Event): seq<Chunk> {
    match event
    case Readable(i, script) => Chunks(i, Wake(script))
    case OwnerGone(scripts, blocked, _) => if !blocked && |scripts| == entries then LastReads(scripts, entries) else []
    case _ => []
  }

  /** All results of `read` in a run, in order. */
  ghost function ReadsOf(entries: nat, events: seq<Event>): seq<Chunk> {
    if events == [] then [] else ReadsOf(entries, events[..|events| - 1]) + ReadsIn(entries, events[|events| - 1])
  }

  ghost function BareEntry(e: Entry): Entry {
    e.(writers := [])
  }

  /** The entries without their readers. */
  ghost function Bare(entries: seq<Entry>): seq<Entry> {
    seq(|entries|, i requires 0 <= i < |entries| => BareEntry(entries[i]))
  }

  lemma {:induction false} FedBare(e: Entry, total: nat, script: seq<Read>)
    ensures var (e', t) := Fed(e, total, script); Fed(BareEntry(e), total, script) == (BareEntry(e'), t)
    decreases |script|
  {
    if script != [] && e.reading {
      var (e', t) := Take(e, total, script[0]);
      FedBare(e', t, script[1..]);
    }
  }

  lemma FedOne(e: Entry, total: nat, r: Read)
    ensures Fed(e, total, [r]) == if e.reading then Take(e, total, r) else (e, total)
  {
    if e.reading {
      var (e', t) := Take(e, total, r);
      assert [r][1..] == [];
      assert Fed(e', t, []) == (e', t);
    }
  }

  /** A wake-up at the end of a schedule feeds its entry. */
  lemma {:induction false} InterleavedWake(entries: seq<Entry>, total: nat, schedule: seq<Chunk>, i: nat,
      script: seq<Read>)
    requires i < |entries|
    ensures var (es, t) := Interleaved(entries, total, schedule);
      var (e, t') := Fed(es[i], t, script);
      Interleaved(entries, total, schedule + Chunks(i, script)) == (es[i := e], t')
    decreases |script|
  {
    var (es, t) := Interleaved(entries, total, schedule);
    if script == [] {
      assert schedule + Chunks(i, script) == schedule && es[i := es[i]] == es;
    } else {
      var n := |script| - 1;
      InterleavedWake(entries, total, schedule, i, script[..n]);
      assert script == script[..n] + [script[n]];
      FedSplit(es[i], t, script[..n], [script[n]]);
      var (e, t') := Fed(es[i], t, script[..n]);
      FedOne(e, t', script[n]);
      var all := schedule + Chunks(i, script);
      assert all[|all| - 1] == Chunk(i, script[n]) && all[..|all| - 1] == schedule + Chunks(i, script[..n]);
      assert es[i := e][i := Fed(e, t', [script[n]]).0] == es[i := Fed(e, t', [script[n]]).0];
    }
  }

  lemma InterleavedOutside(entries: seq<Entry>, total: nat, schedule: seq<Chunk>, i: nat, script: seq<Read>)
    requires i >= |entries|
    ensures Interleaved(entries, total, schedule + Chunks(i, script)) == Interleaved(entries, total, schedule)
    decreases |script|
  {
    if script == [] {
      assert schedule + Chunks(i, script) == schedule;
    } else {
      var n := |script| - 1;
      InterleavedOutside(entries, total, schedule, i, script[..n]);
      assert (schedule + Chunks(i, script))[..|schedule| + n] == schedule + Chunks(i, script[..n]);
    }
  }

  /** The entries and the total of a state are those of a schedule of reads. */
  ghost predicate Follows(entries: seq<Entry>, total: nat, mimes: seq<string>, schedule: seq<Chunk>) {
    (Bare(entries), total) == Interleaved(Initial(mimes).entries, 0, schedule)
  }

  lemma FollowsWake(entries: seq<Entry>, total: nat, mimes: seq<string>, schedule: seq<Chunk>, i: nat,
      script: seq<Read>)
    requires Follows(entries, total, mimes, schedule) && i < |entries|
    ensures var (e, t) :=
      Fed(entries[i], total, script); Follows(entries[i := e], t, mimes, schedule + Chunks(i, script))
  {
    var (e, t) := Fed(entries[i], total, script);
    FedBare(entries[i], total, script);
    InterleavedWake(Initial(mimes).entries, 0, schedule, i, script);
    assert Bare(entries[i := e]) == Bare(entries)[i := BareEntry(e)];
  }

  /** Reading every pipe once more continues the schedule. */
  lemma {:induction false} FollowsDrained(entries: seq<Entry>, total: nat, mimes: seq<string>, schedule: seq<Chunk>,
                                          scripts: seq<seq<Read>>, n: nat)
    requires Follows(entries, total, mimes, schedule) && n <= |scripts| == |entries|
    ensures var (es, t) := Drained(entries, total, scripts, n); Follows(es, t, mimes, schedule + LastReads(scripts, n))
  {
    if n == 0 {
      assert schedule + [] == schedule;
    } else {
      FollowsDrained(entries, total, mimes, schedule, scripts, n - 1);
      var (es, t) := Drained(entries, total, scripts, n - 1);
      FollowsWake(es, t, mimes, schedule + LastReads(scripts, n - 1), n - 1, Wake(scripts[n - 1]));
      Assoc(schedule, LastReads(scripts, n - 1), Chunks(n - 1, Wake(scripts[n - 1])));
    }
  }

  ghost predicate Collecting(st: State) {
    st.alive && !st.owned
  }

  lemma CollectingBefore(st: State, event: Event)
    requires Settled(st) && Collecting(Next(st, event))
    ensures Collecting(st)
  {
    if st.alive && st.owned { OwnedStays(st, event); }
  }

  /** One event while the owner is there. */
  lemma FollowsNext(st: State, event: Event, mimes: seq<string>, schedule: seq<Chunk>)
    requires Collecting(st) && Collecting(Next(st, event)) && Follows(st.entries, st.total, mimes, schedule)
    ensures Follows(Next(st, event).entries, Next(st, event).total, mimes, schedule + ReadsIn(|mimes|, event))
  {
    assert |st.entries| == |mimes| by { assert |Bare(st.entries)| == |mimes|; }
    assert schedule + [] == schedule;
    match event {
      case Readable(i, script) =>
        if i < |st.entries| {
          FollowsWake(st.entries, st.total, mimes, schedule, i, Wake(script));
        } else {
          InterleavedOutside(Initial(mimes).entries, 0, schedule, i, Wake(script));
        }
      case Send(_, _, _, _) => assert Bare(Next(st, event).entries) == Bare(st.entries);
      case Writable(_, _, _, _) => assert Bare(Next(st, event).entries) == Bare(st.entries);
      case _ =>
    }
  }

  /** While the owner is there, the entries are what the reads of the run make them. */
  lemma {:induction false} RunFollows(mimes: seq<string>, events: seq<Event>)
    requires Collecting(After(mimes, events))
    ensures var st := After(mimes, events); Follows(st.entries, st.total, mimes, ReadsOf(|mimes|, events))
  {
    if events == [] {
      assert Bare(Initial(mimes).entries) == Initial(mimes).entries;
    } else {
      var n := |events| - 1;
      AfterSettled(mimes, events[..n]);
      CollectingBefore(After(mimes, events[..n]), events[n]);
      RunFollows(mimes, events[..n]);
      FollowsNext(After(mimes, events[..n]), events[n], mimes, ReadsOf(|mimes|, events[..n]));
    }
  }

  /** The bytes that came out of the pipe of entry `i` up to its first end of file, and whether
      that was reached. */
  ghost function SentUntilEnd(schedule: seq<Chunk>, i: nat): (seq<Byte>, bool) {
    if schedule == [] then ([], false)
    else
      var n := |schedule| - 1;
      var (sent, ended) := SentUntilEnd(schedule[..n], i);
      if ended || schedule[n].entry != i then (sent, ended)
      else if schedule[n].read.Bytes? then (sent + schedule[n].read.bytes, false)
      else (sent, schedule[n].read.EndOfFile?)
  }

  /** Whatever the reads return, an entry that is complete is what was sent up to the end. */
  lemma {:induction false} CompleteIsSent(entries: seq<Entry>, total: nat, schedule: seq<Chunk>, i: nat)
    requires i < |entries| && Fresh(entries[i])
    ensures var e, (sent, ended) := Interleaved(entries, total, schedule).0[i], SentUntilEnd(schedule, i);
      e.mime == entries[i].mime && (e.reading ==> !ended && !e.complete && e.data == sent) &&
        (e.complete ==> ended && !e.reading && e.data == sent)
  {
    if schedule != [] { CompleteIsSent(entries, total, schedule[..|schedule| - 1], i); }
  }

  lemma {:induction false} KeptFrom(entries: seq<Entry>, k: nat) returns (i: nat)
    requires k < |Kept(entries)|
    ensures i < |entries| && entries[i] == Kept(entries)[k] && Keep(entries[i])
  {
    var n := |entries| - 1;
    if k < |Kept(entries[..n])| {
      i := KeptFrom(entries[..n], k);
    } else {
      i := n;
    }
  }

  /** A copy of a mime type of the owner that is exactly what the owner sent for it. */
  ghost predicate TrueCopy(copy: (string, seq<Byte>), mimes: seq<string>, schedule: seq<Chunk>, i: nat) {
    i < |mimes| && copy.0 == mimes[i] && SentUntilEnd(schedule, i) == (copy.1, true) && copy.1 != []
  }

  ghost predicate IsTrueCopy(copy: (string, seq<Byte>), mimes: seq<string>, schedule: seq<Chunk>) {
    exists i: nat :: TrueCopy(copy, mimes, schedule, i)
  }

  ghost predicate TrueCopies(copies: seq<(string, seq<Byte>)>, mimes: seq<string>, schedule: seq<Chunk>) {
    forall k :: 0 <= k < |copies| ==> IsTrueCopy(copies[k], mimes, schedule)
  }

  lemma KeptIsSent(entries: seq<Entry>, total: nat, mimes: seq<string>, schedule: seq<Chunk>, k: nat)
    requires Follows(entries, total, mimes, schedule) && k < |Kept(entries)|
    ensures IsTrueCopy(Copies(Kept(entries))[k], mimes, schedule)
  {
    var i := KeptFrom(entries, k);
    assert |Bare(entries)| == |mimes|;
    assert Bare(entries)[i] == BareEntry(entries[i]);
    CompleteIsSent(Initial(mimes).entries, 0, schedule, i);
    assert TrueCopy(Copies(Kept(entries))[k], mimes, schedule, i);
  }

  /** The event at which the selection was installed. */
  ghost predicate InstalledAt(mimes: seq<string>, events: seq<Event>, g: nat) {
    g < |events| && Collecting(After(mimes, events[..g])) && After(mimes, events[..g + 1]).owned
  }

  lemma OwnedByInstalling(st: State, event: Event)
    requires Settled(st) && Next(st, event).owned
    ensures st.owned || (Collecting(st) && event.OwnerGone? && !event.blocked && |event.scripts| == |st.entries|)
  {
  }

  lemma {:induction false} FindInstall(mimes: seq<string>, events: seq<Event>, j: nat) returns (g: nat)
    requires j <= |events| && After(mimes, events[..j]).owned
    ensures g < j && InstalledAt(mimes, events, g) && After(mimes, events[..j]).alive
  {
    AfterNext(mimes, events, j - 1);
    AfterSettled(mimes, events[..j - 1]);
    var st := After(mimes, events[..j - 1]);
    OwnedByInstalling(st, events[j - 1]);
    if st.owned {
      g := FindInstall(mimes, events, j - 1);
    } else {
      g := j - 1;
    }
  }

  /** What an installation installs. */
  lemma InstallingSends(st: State, event: Event, mimes: seq<string>, schedule: seq<Chunk>)
    requires Settled(st) && Collecting(st) && Next(st, event).owned && Follows(st.entries, st.total, mimes, schedule)
    ensures TrueCopies(Copies(Next(st, event).entries), mimes, schedule + ReadsIn(|mimes|, event))
  {
    OwnedByInstalling(st, event);
    assert |Bare(st.entries)| == |mimes|;
    FollowsDrained(st.entries, st.total, mimes, schedule, event.scripts, |mimes|);
    var (es, t) := Drained(st.entries, st.total, event.scripts, |mimes|);
    var all, copies := schedule + LastReads(event.scripts, |mimes|), Copies(Kept(es));
    forall k | 0 <= k < |copies| ensures IsTrueCopy(copies[k], mimes, all) { KeptIsSent(es, t, mimes, all, k); }
    assert TrueCopies(copies, mimes, all);
    assert Next(st, event).entries == Kept(es) && ReadsIn(|mimes|, event) == LastReads(event.scripts, |mimes|);
  }

  lemma ReadsNext(entries: nat, events: seq<Event>, g: nat)
    requires g < |events|
    ensures ReadsOf(entries, events[..g + 1]) == ReadsOf(entries, events[..g]) + ReadsIn(entries, events[g])
  {
    assert events[..g + 1][..g] == events[..g];
  }

  /** The copies offered are those of what was read up to the event `g`. */
  ghost predicate OffersSent(mimes: seq<string>, events: seq<Event>, g: nat, copies: seq<(string, seq<Byte>)>) {
    InstalledAt(mimes, events, g) && TrueCopies(copies, mimes, ReadsOf(|mimes|, events[..g + 1]))
  }

  lemma InstallIsSent(mimes: seq<string>, events: seq<Event>, g: nat)
    requires InstalledAt(mimes, events, g)
    ensures OffersSent(mimes, events, g, Copies(After(mimes, events[..g + 1]).entries))
  {
    AfterNext(mimes, events, g);
    AfterSettled(mimes, events[..g]);
    RunFollows(mimes, events[..g]);
    ReadsNext(|mimes|, events, g);
    InstallingSends(After(mimes, events[..g]), events[g], mimes, ReadsOf(|mimes|, events[..g]));
  }

  /** In every run, at every moment, each copy that is offered is exactly what the owner sent
      for its mime type up to the end of file, however reads, requests and writes interleave. */
  lemma InstalledIsSent(mimes: seq<string>, events: seq<Event>, j: nat) returns (g: nat)
    requires j <= |events| && After(mimes, events[..j]).owned
    ensures g < j && OffersSent(mimes, events, g, Copies(After(mimes, events[..j]).entries))
  {
    g := FindInstall(mimes, events, j);
    InstallIsSent(mimes, events, g);
    InstalledStays(mimes, events, g + 1, j);
  }

  /** The mime types for which the owner sent something, with what it sent. */
  ghost function Offered(mimes: seq<string>, schedule: seq<Chunk>, n: nat): seq<(string, seq<Byte>)>
    requires n <= |mimes|
  {
    if n == 0 then []
    else Offered(mimes, schedule, n - 1) + if Sent(schedule, n - 1) != [] then [(mimes[n - 1], Sent(schedule, n - 1))]
      else []
  }

  lemma CopiesConcat(a: seq<Entry>, b: seq<Entry>)
    ensures Copies(a + b) == Copies(a) + Copies(b)
  {
  }

  /** An entry that was read to the end is kept unless nothing was sent. */
  lemma KeptCopy(e: Entry, mime: string, sent: seq<Byte>)
    requires e.complete && !e.failed && e.mime == mime && e.data == sent
    ensures Copies(KeptOne(e)) == if sent != [] then [(mime, sent)] else []
  {
  }

  ghost predicate ReadToEnd(e: Entry, mime: string, sent: seq<Byte>) {
    e.complete && !e.failed && e.mime == mime && e.data == sent
  }

  lemma {:induction false} KeptIsOffered(entries: seq<Entry>, mimes: seq<string>, schedule: seq<Chunk>, n: nat)
    requires n <= |entries| == |mimes| && forall i :: 0 <= i < n ==> ReadToEnd(entries[i], mimes[i], Sent(schedule, i))
    ensures Copies(Kept(entries[..n])) == Offered(mimes, schedule, n)
  {
    if n > 0 {
      KeptIsOffered(entries, mimes, schedule, n - 1);
      KeptNext(entries, n - 1);
      CopiesConcat(Kept(entries[..n - 1]), KeptOne(entries[n - 1]));
      assert ReadToEnd(entries[n - 1], mimes[n - 1], Sent(schedule, n - 1));
      KeptCopy(entries[n - 1], mimes[n - 1], Sent(schedule, n - 1));
    }
  }

  /** Every pipe runs to its end of file and all bytes together fit under the limit. */
  ghost predicate Fits(schedule: seq<Chunk>, n: nat) {
    Orderly(schedule, n) && Volume(schedule) <= MAX_SELECTION_SIZE && forall i :: 0 <= i < n ==> Ended(schedule, i)
  }

  /** If every owner's pipe runs to its end and everything fits under the limit, whatever the
      order of the reads, all that was sent is kept. */
  lemma FittingIsKept(entries: seq<Entry>, total: nat, mimes: seq<string>, schedule: seq<Chunk>)
    requires Follows(entries, total, mimes, schedule) && Fits(schedule, |mimes|)
    ensures Copies(Kept(entries)) == Offered(mimes, schedule, |mimes|)
  {
    var es := Interleaved(Initial(mimes).entries, 0, schedule).0;
    assert |Bare(entries)| == |mimes|;
    InterleavedCopy(Initial(mimes).entries, 0, schedule);
    forall i | 0 <= i < |mimes| ensures ReadToEnd(entries[i], mimes[i], Sent(schedule, i)) {
      assert es[i] == BareEntry(entries[i]) && es[i].complete;
      CompleteIsSent(Initial(mimes).entries, 0, schedule, i);
    }
    KeptIsOffered(entries, mimes, schedule, |mimes|);
    assert entries[..|mimes|] == entries;
  }

  ghost predicate Installs(event: Event, n: nat) {
    event.OwnerGone? && !event.blocked && event.slots > 0 && |event.scripts| == n
  }

  lemma InstallingAll(st: State, event: Event, mimes: seq<string>, schedule: seq<Chunk>)
    requires Collecting(st) && Installs(event, |mimes|) && Follows(st.entries, st.total, mimes, schedule)
    requires Fits(schedule + ReadsIn(|mimes|, event), |mimes|)
    ensures var st', offered := Next(st, event), Offered(mimes, schedule + ReadsIn(|mimes|, event), |mimes|);
      (st'.owned <==> offered != []) && Copies(st'.entries) == offered
  {
    assert |Bare(st.entries)| == |mimes|;
    FollowsDrained(st.entries, st.total, mimes, schedule, event.scripts, |mimes|);
    var (es, t) := Drained(st.entries, st.total, event.scripts, |mimes|);
    FittingIsKept(es, t, mimes, schedule + LastReads(event.scripts, |mimes|));
    assert |Copies(Kept(es))| == |Kept(es)|;
  }

  /** In every such run the selection is installed with everything that was sent. */
  lemma AllIsInstalled(mimes: seq<string>, events: seq<Event>, g: nat)
    requires g < |events| && Collecting(After(mimes, events[..g])) && Installs(events[g], |mimes|)
    requires Fits(ReadsOf(|mimes|, events[..g + 1]), |mimes|)
    ensures var st, offered :=
      After(mimes, events[..g + 1]), Offered(mimes, ReadsOf(|mimes|, events[..g + 1]), |mimes|);
      (st.owned <==> offered != []) && Copies(st.entries) == offered
  {
    AfterNext(mimes, events, g);
    RunFollows(mimes, events[..g]);
    ReadsNext(|mimes|, events, g);
    InstallingAll(After(mimes, events[..g]), events[g], mimes, ReadsOf(|mimes|, events[..g]));
  }
}
