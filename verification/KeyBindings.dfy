/** The key binding manager of key_binding_manager.cc: registering shortcuts, blocking them,
    capturing the next key, and swallowing key presses and releases. */
module KeyBindings {
  import opened Options
  import opened Shortcuts

  const TYPE_COUNT: nat := 6
  const ISO_LEFT_TAB: nat := 0xfe20
  const TAB: nat := 0xff09

  datatype Binding = Binding(id: nat, parsed: Parsed, kind: nat, action: nat)

  datatype Key = Key(keyboard: nat, code: nat)

  datatype ActiveKey = ActiveKey(key: Key, binding: nat)

  datatype KeyState = Pressed | Released | Repeated

  /** A key event with what the keyboard reports for it; a keyboard without a keymap is not
      ready. */
  datatype Event = Event(key: Key, state: KeyState, ready: bool, keysyms: seq<nat>, modifiers: set<Modifier>,
    inhibited: bool)

  // ----- what happened

  /** A press or release as it was handled: whether it was swallowed, and whether it was free
      of a capture grab.  Forgetting a keyboard ends its presses. */
  datatype Entry =
    | Press(key: Key, swallowed: bool, free: bool)
    | Release(key: Key, swallowed: bool, free: bool)
    | Forget(keyboard: nat)

  /** Whether the most recent press of a key since its last release was swallowed; with
      `freeOnly`, presses during a grab are passed over. */
  ghost function LastPress(history: seq<Entry>, key: Key, freeOnly: bool): Option<bool> {
    if history == [] then None
    else
      var last, before := history[|history| - 1], history[..|history| - 1];
      match last
      case Press(k, swallowed, free) =>
        if k == key && (free || !freeOnly) then Some(swallowed) else LastPress(before, key, freeOnly)
      case Release(k, _, _) => if k == key then None else LastPress(before, key, freeOnly)
      case Forget(keyboard) => if keyboard == key.keyboard then None else LastPress(before, key, freeOnly)
  }

  /** During a grab everything is swallowed; otherwise a release is, exactly when the most
      recent free press was. */
  ghost predicate EntryOk(history: seq<Entry>, i: nat)
    requires i < |history|
  {
    && (history[i].Press? && !history[i].free ==> history[i].swallowed)
    && (history[i].Release? ==>
      (history[i].swallowed <==> !history[i].free || LastPress(history[..i], history[i].key, true) == Some(true)))
  }

  ghost predicate Paired(history: seq<Entry>) {
    forall i :: 0 <= i < |history| ==> EntryOk(history, i)
  }

  lemma PairedNext(history: seq<Entry>, entry: Entry)
    requires Paired(history)
    requires entry.Press? && !entry.free ==> entry.swallowed
    requires entry.Release? ==> (entry.swallowed <==> !entry.free || LastPress(history, entry.key, true) == Some(true))
    ensures Paired(history + [entry])
  {
    var h := history + [entry];
    forall i | 0 <= i < |h| ensures EntryOk(h, i) {
      if i < |history| {
        assert EntryOk(history, i);
        assert h[..i] == history[..i];
      } else {
        assert h[..i] == history;
      }
    }
  }

  ghost predicate GrabFree(history: seq<Entry>) {
    forall i :: 0 <= i < |history| && (history[i].Press? || history[i].Release?) ==> history[i].free
  }

  lemma {:induction false} FreePresses(history: seq<Entry>, key: Key)
    requires GrabFree(history)
    ensures LastPress(history, key, true) == LastPress(history, key, false)
  {
    if history != [] { FreePresses(history[..|history| - 1], key); }
  }

  /** Over runs without grabs, a release is swallowed exactly when the most recent press was. */
  lemma PairedWithoutGrabs(history: seq<Entry>, i: nat)
    requires Paired(history) && GrabFree(history) && i < |history| && history[i].Release?
    ensures history[i].swallowed <==> LastPress(history[..i], history[i].key, false) == Some(true)
  {
    assert EntryOk(history, i);
    FreePresses(history[..i], history[i].key);
  }

  /** A key pressed during a grab and not released since. */
  ghost predicate PressedInGrab(history: seq<Entry>, key: Key) {
    history != [] &&
    var last, before := history[|history| - 1], history[..|history| - 1];
    match last
    case Press(k, _, free) => if k == key then !free else PressedInGrab(before, key)
    case Release(k, _, _) => k != key && PressedInGrab(before, key)
    case Forget(keyboard) => keyboard != key.keyboard && PressedInGrab(before, key)
  }

  lemma {:induction false} GrabbedPress(history: seq<Entry>, key: Key)
    requires Paired(history)
    ensures PressedInGrab(history, key) ==> LastPress(history, key, false) == Some(true)
    ensures !PressedInGrab(history, key) ==> LastPress(history, key, false) == LastPress(history, key, true)
  {
    if history != [] {
      PairedPrefix(history, |history| - 1);
      assert EntryOk(history, |history| - 1);
      GrabbedPress(history[..|history| - 1], key);
    }
  }

  lemma PairedPrefix(history: seq<Entry>, n: nat)
    requires Paired(history) && n <= |history|
    ensures Paired(history[..n])
  {
    forall i | 0 <= i < n ensures EntryOk(history[..n], i) {
      assert EntryOk(history, i);
      assert history[..n][..i] == history[..i];
    }
  }

  /** With grabs, a free release keeps to its press if and only if the key was not pressed
      during a grab, unless a binding was already holding it. */
  lemma PairedExactly(history: seq<Entry>, i: nat)
    requires Paired(history) && i < |history| && history[i].Release? && history[i].free
    ensures (history[i].swallowed <==> LastPress(history[..i], history[i].key, false) == Some(true))
      <==> !PressedInGrab(history[..i], history[i].key) || LastPress(history[..i], history[i].key, true) == Some(true)
  {
    assert EntryOk(history, i);
    PairedPrefix(history, i);
    GrabbedPress(history[..i], history[i].key);
  }

  // ----- modifiers

  predicate IsLock(m: Modifier) {
    m == Caps || m == Mod2
  }

  /** `ModifiersMatch`. */
  function ModifiersMatch(active: set<Modifier>, required: set<Modifier>): (r: bool)
    ensures r <==> forall m :: (m in required ==> m in active) && (m in active ==> m in required || IsLock(m))
  {
    var ignored := {Caps, Mod2} - required;
    active - ignored == required
  }

  // ----- searching

  predicate IsActive(keys: seq<ActiveKey>, key: Key) {
    exists i :: 0 <= i < |keys| && keys[i].key == key
  }

  ghost predicate Differ(keys: seq<ActiveKey>, i: nat, j: nat)
    requires i < |keys| && j < |keys|
  {
    keys[i].key != keys[j].key
  }

  ghost predicate OnePerKey(keys: seq<ActiveKey>) {
    forall i, j :: 0 <= i < |keys| && 0 <= j < |keys| && i != j ==> Differ(keys, i, j)
  }

  /** The first entry for a key, or the length. */
  method FindActive(keys: seq<ActiveKey>, key: Key) returns (i: nat)
    ensures i <= |keys| && (i < |keys| ==> keys[i].key == key)
    ensures i < |keys| <==> IsActive(keys, key)
  {
    i := 0;
    while i < |keys| && keys[i].key != key
      invariant i <= |keys| && forall j :: 0 <= j < i ==> keys[j].key != key
    {
      i := i + 1;
    }
  }

  lemma EraseActive(keys: seq<ActiveKey>, i: nat)
    requires OnePerKey(keys) && i < |keys|
    ensures OnePerKey(keys[..i] + keys[i + 1..])
    ensures forall k :: IsActive(keys[..i] + keys[i + 1..], k) <==> IsActive(keys, k) && k != keys[i].key
  {
    var left := keys[..i] + keys[i + 1..];
    forall a, b | 0 <= a < |left| && 0 <= b < |left| && a != b ensures Differ(left, a, b) {
      assert Differ(keys, if a < i then a else a + 1, if b < i then b else b + 1);
    }
    forall k ensures IsActive(left, k) <==> IsActive(keys, k) && k != keys[i].key {
      if IsActive(left, k) {
        var a :| 0 <= a < |left| && left[a].key == k;
        assert Differ(keys, if a < i then a else a + 1, i);
      }
      if IsActive(keys, k) && k != keys[i].key {
        var a :| 0 <= a < |keys| && keys[a].key == k;
        assert left[if a < i then a else a - 1].key == k;
      }
    }
  }

  lemma AddActive(keys: seq<ActiveKey>, entry: ActiveKey)
    requires OnePerKey(keys) && !IsActive(keys, entry.key)
    ensures OnePerKey(keys + [entry])
    ensures forall k :: IsActive(keys + [entry], k) <==> IsActive(keys, k) || k == entry.key
  {
    var more := keys + [entry];
    forall a, b | 0 <= a < |more| && 0 <= b < |more| && a != b ensures Differ(more, a, b) {
      if a < |keys| && b < |keys| { assert Differ(keys, a, b); }
    }
    forall k ensures IsActive(more, k) <==> IsActive(keys, k) || k == entry.key {
      assert more[|keys|].key == entry.key;
      if IsActive(keys, k) {
        var a :| 0 <= a < |keys| && keys[a].key == k;
        assert more[a].key == k;
      }
    }
  }

  /** How an entry changes whether a key is held by a binding. */
  ghost predicate HeldAfter(e: Entry, key: Key, held: bool) {
    match e
    case Press(k, swallowed, free) => if k == key && free then swallowed else held
    case Release(k, _, _) => k != key && held
    case Forget(keyboard) => keyboard != key.keyboard && held
  }

  lemma LastPressNext(history: seq<Entry>, e: Entry, key: Key)
    ensures LastPress(history + [e], key, true) == Some(true) <==>
      HeldAfter(e, key, LastPress(history, key, true) == Some(true))
  {
    assert (history + [e])[..|history|] == history;
  }

  /** The keys held are those whose most recent free press was swallowed. */
  ghost predicate Held(keys: seq<ActiveKey>, history: seq<Entry>) {
    forall key :: IsActive(keys, key) <==> LastPress(history, key, true) == Some(true)
  }

  lemma HeldNext(keys: seq<ActiveKey>, history: seq<Entry>, keys': seq<ActiveKey>, e: Entry)
    requires Held(keys, history) && forall key :: IsActive(keys', key) <==> HeldAfter(e, key, IsActive(keys, key))
    ensures Held(keys', history + [e])
  {
    forall key ensures IsActive(keys', key) <==> LastPress(history + [e], key, true) == Some(true) {
      LastPressNext(history, e, key);
    }
  }

  // ----- the manager

  /** A binding for the keysym and the modifiers, not blocked by its type. */
  predicate Matches(b: Binding, blocks: seq<nat>, keysym: nat, modifiers: set<Modifier>) {
    !TypeBlocked(blocks, b.kind) && b.parsed.keysym == keysym && ModifiersMatch(modifiers, b.parsed.modifiers)
  }

  predicate TypeBlocked(blocks: seq<nat>, kind: nat) {
    kind >= |blocks| || blocks[kind] > 0
  }

  /** The keysym a press is looked up by. */
  function Looked(lex: Lexicon, keysym: nat): nat {
    if keysym == ISO_LEFT_TAB then TAB else lex.lower(keysym)
  }

  ghost predicate AnyMatch(lex: Lexicon, bindings: seq<Binding>, blocks: seq<nat>, event: Event) {
    exists i, j :: 0 <= i < |event.keysyms| && 0 <= j < |bindings| &&
      Matches(bindings[j], blocks, Looked(lex, event.keysyms[i]), event.modifiers)
  }

  ghost predicate IdsDiffer(bindings: seq<Binding>, i: nat, j: nat)
    requires i < |bindings| && j < |bindings|
  {
    && bindings[i].id != bindings[j].id
    && (bindings[i].parsed.keysym != bindings[j].parsed.keysym ||
      bindings[i].parsed.modifiers != bindings[j].parsed.modifiers)
  }

  /** Ids and shortcuts identify bindings. */
  ghost predicate BindingsOk(bindings: seq<Binding>, nextId: nat) {
    && (forall i, j :: 0 <= i < |bindings| && 0 <= j < |bindings| && i != j ==> IdsDiffer(bindings, i, j))
    && (forall i :: 0 <= i < |bindings| ==> bindings[i].id < nextId && bindings[i].kind < TYPE_COUNT)
  }

  lemma SameId(bindings: seq<Binding>, nextId: nat, b: Binding, c: Binding)
    requires BindingsOk(bindings, nextId) && b in bindings && c in bindings && b.id == c.id
    ensures b == c
  {
    var i :| 0 <= i < |bindings| && bindings[i] == b;
    var j :| 0 <= j < |bindings| && bindings[j] == c;
    DifferentIds(bindings, nextId, i, j);
  }

  lemma DifferentIds(bindings: seq<Binding>, nextId: nat, i: nat, j: nat)
    requires BindingsOk(bindings, nextId) && i < |bindings| && j < |bindings|
    ensures i != j ==> bindings[i].id != bindings[j].id
  {
    if i != j { assert IdsDiffer(bindings, i, j); }
  }

  ghost predicate NoMatch(lex: Lexicon, bindings: seq<Binding>, blocks: seq<nat>, event: Event, i: nat, n: nat)
    requires i < |event.keysyms| && n <= |bindings|
  {
    forall l :: 0 <= l < n ==> !Matches(bindings[l], blocks, Looked(lex, event.keysyms[i]), event.modifiers)
  }

  /** The binding `j` is the first for the keysym `i`, and no earlier keysym has any. */
  ghost predicate FirstMatch(lex: Lexicon, bindings: seq<Binding>, blocks: seq<nat>, event: Event, i: nat, j: nat) {
    && i < |event.keysyms| && j < |bindings|
    && Matches(bindings[j], blocks, Looked(lex, event.keysyms[i]), event.modifiers)
    && NoMatch(lex, bindings, blocks, event, i, j) && forall k :: 0 <= k < i ==>
      NoMatch(lex, bindings, blocks, event, k, |bindings|)
  }

  predicate SameShortcut(b: Binding, parsed: Parsed) {
    b.parsed.keysym == parsed.keysym && b.parsed.modifiers == parsed.modifiers
  }

  ghost predicate Bound(bindings: seq<Binding>, parsed: Parsed) {
    exists i :: 0 <= i < |bindings| && SameShortcut(bindings[i], parsed)
  }

  lemma AddBinding(bindings: seq<Binding>, nextId: nat, b: Binding)
    requires BindingsOk(bindings, nextId) && b.id == nextId && b.kind < TYPE_COUNT && !Bound(bindings, b.parsed)
    ensures BindingsOk(bindings + [b], nextId + 1)
  {
    var more := bindings + [b];
    forall i, j | 0 <= i < |more| && 0 <= j < |more| && i != j ensures IdsDiffer(more, i, j) {
      if i < |bindings| && j < |bindings| {
        assert IdsDiffer(bindings, i, j);
      } else {
        var k := if i < |bindings| then i else j;
        assert !SameShortcut(bindings[k], b.parsed);
      }
    }
  }

  lemma ChangeBinding(bindings: seq<Binding>, nextId: nat, i: nat, parsed: Parsed)
    requires BindingsOk(bindings, nextId) && i < |bindings|
    requires forall k :: 0 <= k < |bindings| && bindings[k].id != bindings[i].id ==> !SameShortcut(bindings[k], parsed)
    ensures BindingsOk(bindings[i := bindings[i].(parsed := parsed)], nextId)
    ensures forall k :: 0 <= k < |bindings| && k != i ==> bindings[k].id != bindings[i].id
  {
    var changed := bindings[i := bindings[i].(parsed := parsed)];
    forall a, b | 0 <= a < |changed| && 0 <= b < |changed| && a != b ensures IdsDiffer(changed, a, b) {
      assert IdsDiffer(bindings, a, b);
    }
    forall k | 0 <= k < |bindings| && k != i ensures bindings[k].id != bindings[i].id {
      assert IdsDiffer(bindings, k, i);
    }
  }

  function Without(bindings: seq<Binding>, id: nat): (r: seq<Binding>)
    ensures forall b :: b in r <==> b in bindings && b.id != id
  {
    if bindings == [] then []
    else
      var rest := Without(bindings[..|bindings| - 1], id);
      if bindings[|bindings| - 1].id == id then rest else rest + [bindings[|bindings| - 1]]
  }

  lemma {:induction false} DropBinding(bindings: seq<Binding>, nextId: nat, id: nat)
    requires BindingsOk(bindings, nextId)
    ensures BindingsOk(Without(bindings, id), nextId)
  {
    if bindings != [] {
      var n := |bindings| - 1;
      var init := bindings[..n];
      forall i, j | 0 <= i < n && 0 <= j < n && i != j ensures IdsDiffer(init, i, j) {
        assert IdsDiffer(bindings, i, j);
      }
      DropBinding(init, nextId, id);
      var rest, last := Without(init, id), bindings[n];
      forall k | 0 <= k < |rest| ensures rest[k].id != last.id && !SameShortcut(rest[k], last.parsed) {
        assert rest[k] in init;
        var i :| 0 <= i < n && init[i] == rest[k];
        assert IdsDiffer(bindings, i, n);
      }
      var more := rest + [last];
      forall i, j | 0 <= i < |more| && 0 <= j < |more| && i != j ensures IdsDiffer(more, i, j) {
        if i < |rest| && j < |rest| { assert IdsDiffer(rest, i, j); }
      }
    }
  }

  function Others(keys: seq<ActiveKey>, keyboard: nat): seq<ActiveKey> {
    if keys == [] then []
    else
      var rest := Others(keys[..|keys| - 1], keyboard);
      if keys[|keys| - 1].key.keyboard == keyboard then rest else rest + [keys[|keys| - 1]]
  }

  lemma {:induction false} KeepOthers(keys: seq<ActiveKey>, keyboard: nat)
    requires OnePerKey(keys)
    ensures OnePerKey(Others(keys, keyboard))
    ensures forall key :: IsActive(Others(keys, keyboard), key) <==> IsActive(keys, key) && key.keyboard != keyboard
    ensures forall k :: 0 <= k < |Others(keys, keyboard)| ==> Others(keys, keyboard)[k] in keys
  {
    if keys != [] {
      var n := |keys| - 1;
      var init, last := keys[..n], keys[n];
      forall i, j | 0 <= i < n && 0 <= j < n && i != j ensures Differ(init, i, j) { assert Differ(keys, i, j); }
      KeepOthers(init, keyboard);
      assert !IsActive(init, last.key) by {
        forall i | 0 <= i < n ensures init[i].key != last.key { assert Differ(keys, i, n); }
      }
      AddActive(init, last);
      assert init + [last] == keys;
      if last.key.keyboard != keyboard { AddActive(Others(init, keyboard), last); }
    }
  }

  /** Keys that cannot be captured by themselves. */
  predicate IsModifierKeysym(keysym: nat) {
    // Shift, Control, Caps_Lock; Meta, Alt, Super; Num_Lock
    0xffe1 <= keysym <= 0xffe5 || 0xffe7 <= keysym <= 0xffec || keysym == 0xff7f
  }

  /** A key that can be captured: no modifier, and with a name to print. */
  ghost predicate Capturable(lex: Lexicon, keysym: nat, modifiers: set<Modifier>) {
    !IsModifierKeysym(lex.lower(keysym)) && Printed(lex, modifiers, lex.lower(keysym)) != ""
  }

  ghost function Recorded(event: Event, swallowed: bool, free: bool): seq<Entry> {
    if !event.ready || event.state.Repeated? then []
    else if event.state.Pressed? then [Press(event.key, swallowed, free)]
    else [Release(event.key, swallowed, free)]
  }

  ghost function Forgotten(keyboard: Option<nat>): seq<Entry> {
    if keyboard.Some? then [Forget(keyboard.value)] else []
  }

  function KeyboardOf(key: Option<Key>): Option<nat> {
    if key.Some? then Some(key.value.keyboard) else None
  }

  /** A capture grab: the key captured so far, its shortcut and what callbacks have been told. */
  datatype Capture = Capture(grabbing: bool, key: Option<Key>, shortcut: string, told: seq<(bool, string)>)

  /** The grab after a key event that no binding took. */
  ghost function CaptureAfter(lex: Lexicon, c: Capture, event: Event): Capture {
    if !c.grabbing || event.keysyms == [] then c
    else if event.state.Pressed? && c.key.None? && Capturable(lex, event.keysyms[0], event.modifiers) then
      var shortcut := Printed(lex, event.modifiers, lex.lower(event.keysyms[0]));
      Capture(true, Some(event.key), shortcut, c.told + [(true, shortcut)])
    else if event.state.Released? && c.key == Some(event.key)
      then Capture(false, None, "", c.told + [(false, c.shortcut)])
    else c
  }

  /** The shortcut is good, the binding exists and no other binding has that shortcut. */
  ghost predicate CanUpdate(lex: Lexicon, bindings: seq<Binding>, id: nat, shortcut: string) {
    && Parse(lex, shortcut).Some? && (exists i :: 0 <= i < |bindings| && bindings[i].id == id)
    && forall i :: 0 <= i < |bindings| && SameShortcut(bindings[i], Parse(lex, shortcut).value) ==> bindings[i].id == id
  }

  class Manager {
    var bindings: seq<Binding>
    var activeKeys: seq<ActiveKey>
    var typeBlocks: seq<nat>
    var nextId: nat
    var blockCount: nat
    var grabbing: bool
    var captured: Option<Key>
    var capturedShortcut: string
    var ran: seq<nat>               // the actions that have run
    var told: seq<(bool, string)>   // what capture callbacks have been told
    ghost var history: seq<Entry>

    ghost predicate Valid()
      reads this
    {
      && |typeBlocks| == TYPE_COUNT && BindingsOk(bindings, nextId) && OnePerKey(activeKeys)
      && (!grabbing ==> captured == None)
      && (captured.Some? ==> |told| > 0 && told[|told| - 1] == (true, capturedShortcut))
      && Paired(history) && Held(activeKeys, history)
    }

    ghost function Grab(): Capture
      reads this
    {
      Capture(grabbing, captured, capturedShortcut, told)
    }

    constructor ()
      ensures Valid() && bindings == [] && activeKeys == [] && ran == [] && history == [] && blockCount == 0
      ensures nextId == 1 && Grab() == Capture(false, None, "", []) && typeBlocks == seq(TYPE_COUNT, _ => 0)
    {
      bindings, activeKeys, typeBlocks := [], [], seq(TYPE_COUNT, _ => 0);
      nextId, blockCount, grabbing, captured, capturedShortcut := 1, 0, false, None, "";
      ran, told, history := [], [], [];
    }

    // --- blocking and grabbing

    /** `BlockAll`: blocks nest and an unblock too many is ignored. */
    method BlockAll(blocked: bool)
      requires Valid()
      modifies `blockCount
      ensures Valid()
      ensures blockCount == if blocked then old(blockCount) + 1 else if old(blockCount) > 0 then old(blockCount) - 1
        else 0
    {
      if blocked {
        blockCount := blockCount + 1;
      } else if blockCount > 0 {
        blockCount := blockCount - 1;
      }
    }

    method BlockType(kind: nat, blocked: bool)
      requires Valid()
      modifies `typeBlocks
      ensures Valid()
      ensures forall t :: 0 <= t < TYPE_COUNT && t != kind ==> typeBlocks[t] == old(typeBlocks[t])
      ensures kind < TYPE_COUNT ==>
        typeBlocks[kind] == if blocked then old(typeBlocks[kind]) + 1 else if old(typeBlocks[kind]) > 0
          then old(typeBlocks[kind]) - 1 else 0
    {
      if kind >= |typeBlocks| { return; }
      if blocked {
        typeBlocks := typeBlocks[kind := typeBlocks[kind] + 1];
      } else if typeBlocks[kind] > 0 {
        typeBlocks := typeBlocks[kind := typeBlocks[kind] - 1];
      }
    }

    method GrabNextKey(hasCallback: bool)
      requires Valid()
      modifies `grabbing, `captured, `capturedShortcut
      ensures Valid() && Grab() == Capture(hasCallback, None, "", told)
    {
      grabbing, captured, capturedShortcut := hasCallback, None, "";
    }

    method CancelGrab()
      requires Valid()
      modifies `grabbing, `captured, `capturedShortcut
      ensures Valid() && Grab() == Capture(false, None, "", told)
    {
      grabbing, captured, capturedShortcut := false, None, "";
    }

    // --- keys

    /** `HandleCapturedKey`: everything is swallowed; the first key that is no modifier is told
        when it goes down and told again, as the same shortcut, when it comes up. */
    method HandleCapturedKey(lex: Lexicon, event: Event)
      requires Valid() && grabbing && KnowsNames(lex) && event.ready
      modifies `grabbing, `captured, `capturedShortcut, `told
      ensures Valid() && Grab() == CaptureAfter(lex, old(Grab()), event)
      ensures told == old(told) ==> grabbing && captured == old(captured) && capturedShortcut == old(capturedShortcut)
      ensures told != old(told) ==>
        told == old(told) + [(event.state.Pressed?, if event.state.Pressed? then capturedShortcut
        else old(capturedShortcut))]
      ensures event.state.Pressed? ==>
        (told != old(told) <==>
          event.keysyms != [] && old(captured) == None && Capturable(lex, event.keysyms[0], event.modifiers))
      ensures event.state.Pressed? && told != old(told) ==>
        captured == Some(event.key) && capturedShortcut == Printed(lex, event.modifiers, lex.lower(event.keysyms[0]))
      ensures event.state.Released? && told != old(told) ==>
        old(captured) == Some(event.key) && !grabbing && old(told[|told| - 1]) == (true, old(capturedShortcut))
      ensures event.state.Released? && event.keysyms != [] && old(captured) == Some(event.key) ==> told != old(told)
    {
      if event.keysyms == [] { return; }
      var keysym := lex.lower(event.keysyms[0]);
      if event.state.Pressed? {
        if IsModifierKeysym(keysym) || captured.Some? { return; }
        var shortcut := BuildShortcut(lex, event.modifiers, keysym);
        if shortcut == "" { return; }
        captured, capturedShortcut := Some(event.key), shortcut;
        told := told + [(true, shortcut)];
        return;
      }
      if event.state.Released? && captured == Some(event.key) {
        var shortcut := capturedShortcut;
        CancelGrab();
        told := told + [(false, shortcut)];
      }
    }

    method KeyUp(lex: Lexicon, event: Event) returns (swallowed: bool)
      requires Valid() && KnowsNames(lex) && event.ready && event.state.Released?
      modifies `activeKeys, `grabbing, `captured, `capturedShortcut, `told, `history
      ensures Valid() && history == old(history) + [Release(event.key, swallowed, !old(grabbing))]
      ensures grabbing ==> old(grabbing)
      ensures swallowed <==> old(IsActive(activeKeys, event.key)) || old(grabbing)
      ensures forall k :: 0 <= k < |activeKeys| ==> activeKeys[k] in old(activeKeys)
      ensures Grab() == if old(IsActive(activeKeys, event.key)) then old(Grab())
        else CaptureAfter(lex, old(Grab()), event)
    {
      var i := FindActive(activeKeys, event.key);
      var active := i < |activeKeys|;
      swallowed := active || grabbing;
      Drop(event, i, swallowed);
      if !active && grabbing { HandleCapturedKey(lex, event); }
    }

    /** The release of a held key takes it off the list. */
    method Drop(event: Event, i: nat, ghost swallowed: bool)
      requires Valid() && i <= |activeKeys| && (i < |activeKeys| ==> activeKeys[i].key == event.key)
      requires i < |activeKeys| <==> IsActive(activeKeys, event.key)
      requires swallowed <==> i < |activeKeys| || grabbing
      modifies `activeKeys, `history
      ensures Valid() && history == old(history) + [Release(event.key, swallowed, !grabbing)]
      ensures forall k :: 0 <= k < |activeKeys| ==> activeKeys[k] in old(activeKeys)
    {
      ghost var held, e := activeKeys, Release(event.key, swallowed, !grabbing);
      if i < |activeKeys| {
        EraseActive(activeKeys, i);
        activeKeys := activeKeys[..i] + activeKeys[i + 1..];
      }
      PairedNext(history, e);
      HeldNext(held, history, activeKeys, e);
      history := history + [e];
    }

    /** Puts a press on record that changes no held key. */
    ghost method Note(key: Key, swallowed: bool, free: bool)
      requires Valid() && (free ==> (swallowed <==> IsActive(activeKeys, key))) && (!free ==> swallowed)
      modifies `history
      ensures Valid() && history == old(history) + [Press(key, swallowed, free)]
    {
      var e := Press(key, swallowed, free);
      PairedNext(history, e);
      HeldNext(activeKeys, history, activeKeys, e);
      history := history + [e];
    }

    /** An action may run for a press only if nothing inhibits or blocks it. */
    ghost predicate MayRun(event: Event, b: Binding)
      reads this
    {
      b in bindings && event.ready && event.state.Pressed? && !event.inhibited && blockCount == 0 &&
        !TypeBlocked(typeBlocks, b.kind)
    }

    /** The binding `id` is still there, may run and may repeat. */
    ghost predicate Repeats(event: Event, b: Binding, id: nat)
      reads this
    {
      MayRun(event, b) && b.id == id && !b.parsed.noRepeat
    }

    /** A press of a key that is already held repeats its binding. */
    method Repeat(event: Event, i: nat)
      requires Valid() && event.ready && event.state.Pressed? && i < |activeKeys|
      modifies `ran
      ensures Valid()
      ensures forall b :: Repeats(event, b, activeKeys[i].binding) ==> ran == old(ran) + [b.action]
      ensures (forall b :: b in bindings ==> !Repeats(event, b, activeKeys[i].binding)) ==> ran == old(ran)
    {
      var j := 0;
      while j < |bindings| && bindings[j].id != activeKeys[i].binding
        invariant j <= |bindings| && forall k :: 0 <= k < j ==> bindings[k].id != activeKeys[i].binding
      {
        j := j + 1;
      }
      if j < |bindings| {
        var b := bindings[j];
        forall c | c in bindings && c.id == b.id ensures c == b { SameId(bindings, nextId, b, c); }
        if !b.parsed.noRepeat && !event.inhibited && blockCount == 0 && !TypeBlocked(typeBlocks, b.kind) {
          assert MayRun(event, b);
          ran := ran + [b.action];
        }
      }
    }

    /** The binding a fresh press runs: the first that matches the first keysym that has one. */
    method FindMatch(lex: Lexicon, event: Event) returns (j: nat)
      requires Valid()
      ensures j <= |bindings|
      ensures j < |bindings| <==> AnyMatch(lex, bindings, typeBlocks, event)
      ensures j < |bindings| ==> exists i :: FirstMatch(lex, bindings, typeBlocks, event, i, j)
    {
      for i := 0 to |event.keysyms|
        invariant forall k, l :: 0 <= k < i && 0 <= l < |bindings| ==>
          !Matches(bindings[l], typeBlocks, Looked(lex, event.keysyms[k]), event.modifiers)
      {
        var keysym := Looked(lex, event.keysyms[i]);
        j := 0;
        while j < |bindings| && !Matches(bindings[j], typeBlocks, keysym, event.modifiers)
          invariant j <= |bindings| && forall l :: 0 <= l < j ==>
            !Matches(bindings[l], typeBlocks, keysym, event.modifiers)
        {
          j := j + 1;
        }
        if j < |bindings| {
          assert FirstMatch(lex, bindings, typeBlocks, event, i, j);
          return;
        }
      }
      j := |bindings|;
    }

    /** A fresh press that runs a binding holds its key. */
    method Hold(event: Event, b: Binding)
      requires Valid() && !grabbing && !IsActive(activeKeys, event.key) && MayRun(event, b)
      modifies `activeKeys, `history, `ran
      ensures Valid() && history == old(history) + [Press(event.key, true, true)] && ran == old(ran) + [b.action]
      ensures activeKeys == old(activeKeys) + [ActiveKey(event.key, b.id)]
    {
      ran := ran + [b.action];
      ghost var held, e := activeKeys, Press(event.key, true, true);
      AddActive(activeKeys, ActiveKey(event.key, b.id));
      activeKeys := activeKeys + [ActiveKey(event.key, b.id)];
      PairedNext(history, e);
      HeldNext(held, history, activeKeys, e);
      history := history + [e];
    }

    /** A fresh press starts the first binding for the first keysym that has one. */
    ghost predicate Starts(lex: Lexicon, event: Event, i: nat, j: nat)
      reads this
    {
      FirstMatch(lex, bindings, typeBlocks, event, i, j) && MayRun(event, bindings[j])
    }

    /** A press of a held key runs its binding again if that repeats, and nothing otherwise. */
    ghost predicate Repeated(event: Event, before: seq<nat>, after: seq<nat>)
      reads this
    {
      forall i :: 0 <= i < |activeKeys| && activeKeys[i].key == event.key ==>
        && (forall b :: Repeats(event, b, activeKeys[i].binding) ==> after == before + [b.action])
        && ((forall b :: b in bindings ==> !Repeats(event, b, activeKeys[i].binding)) ==> after == before)
    }

    /** A press is taken during a grab, by a held key, or by a binding that nothing blocks. */
    ghost predicate TakesPress(lex: Lexicon, event: Event)
      reads this
    {
      || grabbing || IsActive(activeKeys, event.key)
      || (!event.inhibited && blockCount == 0 && AnyMatch(lex, bindings, typeBlocks, event))
    }

    method KeyDown(lex: Lexicon, event: Event) returns (swallowed: bool)
      requires Valid() && KnowsNames(lex) && event.ready && event.state.Pressed?
      modifies `activeKeys, `grabbing, `captured, `capturedShortcut, `told, `history, `ran
      ensures Valid() && history == old(history) + [Press(event.key, swallowed, !old(grabbing))]
      ensures grabbing ==> old(grabbing)
      ensures swallowed <==> old(TakesPress(lex, event))
      ensures Grab() == CaptureAfter(lex, old(Grab()), event)
      ensures old(grabbing) ==> ran == old(ran) && activeKeys == old(activeKeys)
      ensures !old(grabbing) && !old(IsActive(activeKeys, event.key)) && !swallowed ==>
        ran == old(ran) && activeKeys == old(activeKeys)
      ensures !old(grabbing) && !old(IsActive(activeKeys, event.key)) && swallowed ==>
        exists i: nat, j: nat ::
          Starts(lex, event, i, j) && ran == old(ran) + [bindings[j].action] &&
          activeKeys == old(activeKeys) + [ActiveKey(event.key, bindings[j].id)]
      ensures !old(grabbing) && old(IsActive(activeKeys, event.key)) ==>
        activeKeys == old(activeKeys) && Repeated(event, old(ran), ran)
      ensures ran == old(ran) || (!old(grabbing) && exists b :: MayRun(event, b) && ran == old(ran) + [b.action])
    {
      if grabbing {
        Note(event.key, true, false);
        HandleCapturedKey(lex, event);
        return true;
      }
      var i := FindActive(activeKeys, event.key);
      if i < |activeKeys| {
        Repeat(event, i);
        forall k | 0 <= k < |activeKeys| && k != i ensures activeKeys[k].key != event.key {
          assert Differ(activeKeys, k, i);
        }
        Note(event.key, true, true);
        return true;
      }
      if event.inhibited || blockCount > 0 {
        Note(event.key, false, true);
        return false;
      }
      var j := FindMatch(lex, event);
      swallowed := j < |bindings|;
      if swallowed {
        ghost var i' :| FirstMatch(lex, bindings, typeBlocks, event, i', j);
        assert Starts(lex, event, i', j);
        Hold(event, bindings[j]);
        assert Starts(lex, event, i', j);
      } else {
        Note(event.key, false, true);
      }
    }

    /** A press outside a grab of a key that is not held. */
    ghost predicate FreshPress(event: Event)
      reads this
    {
      event.ready && event.state.Pressed? && !grabbing && !IsActive(activeKeys, event.key)
    }

    /** `HandleKey`. */
    method HandleKey(lex: Lexicon, event: Event) returns (swallowed: bool)
      requires Valid() && KnowsNames(lex)
      modifies `activeKeys, `grabbing, `captured, `capturedShortcut, `told, `history, `ran
      ensures Valid() && history == old(history) + Recorded(event, swallowed, !old(grabbing))
      ensures grabbing ==> old(grabbing)
      ensures !event.ready || event.state.Repeated? ==>
        !swallowed && Grab() == old(Grab()) && activeKeys == old(activeKeys)
      ensures event.ready && event.state.Released? ==>
        forall k :: 0 <= k < |activeKeys| ==> activeKeys[k] in old(activeKeys)
      ensures event.ready && event.state.Released? ==>
        Grab() == if old(IsActive(activeKeys, event.key)) then old(Grab()) else CaptureAfter(lex, old(Grab()), event)
      ensures event.ready && event.state.Pressed? ==> Grab() == CaptureAfter(lex, old(Grab()), event)
      ensures !event.ready || !event.state.Pressed? ==> ran == old(ran)
      ensures event.ready && event.state.Released? ==>
        (swallowed <==> old(IsActive(activeKeys, event.key)) || old(grabbing))
      ensures event.ready && event.state.Pressed? ==> (swallowed <==> old(TakesPress(lex, event)))
      ensures event.ready && event.state.Pressed? && old(grabbing) ==> ran == old(ran) && activeKeys == old(activeKeys)
      ensures old(FreshPress(event)) && !swallowed ==> ran == old(ran) && activeKeys == old(activeKeys)
      ensures old(FreshPress(event)) && swallowed ==>
        exists i: nat, j: nat ::
          Starts(lex, event, i, j) && ran == old(ran) + [bindings[j].action] &&
          activeKeys == old(activeKeys) + [ActiveKey(event.key, bindings[j].id)]
      ensures event.ready && event.state.Pressed? && !old(grabbing) && old(IsActive(activeKeys, event.key)) ==>
        activeKeys == old(activeKeys) && Repeated(event, old(ran), ran)
      ensures ran == old(ran) || (!old(grabbing) && exists b :: MayRun(event, b) && ran == old(ran) + [b.action])
    {
      if !event.ready { return false; }
      match event.state {
        case Released => swallowed := KeyUp(lex, event);
        case Pressed => swallowed := KeyDown(lex, event);
        case Repeated => swallowed := false;
      }
    }

    /** `ForgetKeyboard`: its keys are no longer held and its grab is over.  No keyboard is the
        keyboard of a grab that has captured nothing yet. */
    method ForgetKeyboard(keyboard: Option<nat>)
      requires Valid()
      modifies `activeKeys, `grabbing, `captured, `capturedShortcut, `history
      ensures Valid() && history == old(history) + Forgotten(keyboard)
      ensures forall key :: IsActive(activeKeys, key) <==>
        old(IsActive(activeKeys, key)) && Some(key.keyboard) != keyboard
      ensures forall k :: 0 <= k < |activeKeys| ==> activeKeys[k] in old(activeKeys)
      ensures Grab() == if KeyboardOf(old(captured)) == keyboard then Capture(false, None, "", old(told))
        else old(Grab())
    {
      if keyboard.Some? {
        ghost var held, e := activeKeys, Forget(keyboard.value);
        KeepOthers(activeKeys, keyboard.value);
        activeKeys := Others(activeKeys, keyboard.value);
        PairedNext(history, e);
        HeldNext(held, history, activeKeys, e);
        history := history + [e];
      }
      if KeyboardOf(captured) == keyboard { CancelGrab(); }
    }

    // --- bindings

    method IsDuplicate(parsed: Parsed, except: Option<nat>) returns (duplicate: bool)
      ensures duplicate <==>
        exists i :: 0 <= i < |bindings| && SameShortcut(bindings[i], parsed) && Some(bindings[i].id) != except
    {
      for i := 0 to |bindings|
        invariant forall k :: 0 <= k < i && SameShortcut(bindings[k], parsed) ==> Some(bindings[k].id) == except
      {
        if SameShortcut(bindings[i], parsed) && Some(bindings[i].id) != except { return true; }
      }
      return false;
    }

    /** `Register`: refused exactly for a bad shortcut, a missing action, an unknown type or a
        shortcut already bound. */
    method Register(lex: Lexicon, shortcut: string, kind: nat, hasAction: bool, action: nat) returns (id: Option<nat>)
      requires Valid()
      modifies `bindings, `nextId
      ensures Valid()
      ensures id.None? <==>
        Parse(lex, shortcut).None? || !hasAction || kind >= TYPE_COUNT ||
        old(Bound(bindings, Parse(lex, shortcut).value))
      ensures id.None? ==> bindings == old(bindings) && nextId == old(nextId)
      ensures id.Some? ==> id.value == old(nextId) && nextId == old(nextId) + 1
      ensures id.Some? ==> bindings == old(bindings) + [Binding(id.value, Parse(lex, shortcut).value, kind, action)]
    {
      var parsed := ParseShortcut(lex, shortcut);
      if parsed.None? || !hasAction || kind >= |typeBlocks| { return None; }
      var duplicate := IsDuplicate(parsed.value, None);
      if duplicate { return None; }
      id := Some(nextId);
      AddBinding(bindings, nextId, Binding(nextId, parsed.value, kind, action));
      bindings, nextId := bindings + [Binding(nextId, parsed.value, kind, action)], nextId + 1;
    }

    /** `Update` gives a binding another shortcut unless a different binding has it. */
    method Update(lex: Lexicon, id: nat, shortcut: string) returns (ok: bool)
      requires Valid()
      modifies `bindings
      ensures Valid()
      ensures ok <==> CanUpdate(lex, old(bindings), id, shortcut)
      ensures !ok ==> bindings == old(bindings)
      ensures ok ==> |bindings| == |old(bindings)|
      ensures ok ==> forall i :: 0 <= i < |bindings| ==>
        bindings[i] == if old(bindings)[i].id == id then old(bindings)[i].(parsed := Parse(lex, shortcut).value)
          else old(bindings)[i]
    {
      var parsed := ParseShortcut(lex, shortcut);
      if parsed.None? { return false; }
      var j := 0;
      while j < |bindings| && bindings[j].id != id
        invariant j <= |bindings| && forall k :: 0 <= k < j ==> bindings[k].id != id
      {
        j := j + 1;
      }
      if j == |bindings| { return false; }
      var duplicate := IsDuplicate(parsed.value, Some(id));
      if duplicate { return false; }
      ChangeBinding(bindings, nextId, j, parsed.value);
      bindings := bindings[j := bindings[j].(parsed := parsed.value)];
      return true;
    }

    /** `Unregister`; keys it is holding stay held. */
    method Unregister(id: nat) returns (removed: bool)
      requires Valid()
      modifies `bindings
      ensures Valid()
      ensures removed <==> exists i :: 0 <= i < |old(bindings)| && old(bindings)[i].id == id
      ensures bindings == Without(old(bindings), id)
    {
      ghost var before := bindings;
      removed := exists i :: 0 <= i < |bindings| && bindings[i].id == id;
      DropBinding(bindings, nextId, id);
      bindings := Without(bindings, id);
    }
  }

  /** Everything a caller can do. */
  datatype Op =
    | DoRegister(shortcut: string, kind: nat, hasAction: bool, action: nat)
    | DoUpdate(id: nat, shortcut: string)
    | DoUnregister(id: nat)
    | DoGrab(hasCallback: bool)
    | DoCancel
    | DoBlockAll(blocked: bool)
    | DoBlockType(kind: nat, blocked: bool)
    | DoKey(event: Event)
    | DoForget(keyboard: Option<nat>)

  // ----- the reference: what a sequence of calls must answer

  /** A manager without its list of held keys: what is held follows from what happened, and
      `starter` remembers which binding a key last started. */
  datatype State = State(bindings: seq<Binding>, nextId: nat, blocks: seq<nat>, blockCount: nat, capture: Capture,
                         history: seq<Entry>, starter: map<Key, nat>, ran: seq<nat>)

  ghost function Initial(): State {
    State([], 1, seq(TYPE_COUNT, _ => 0), 0, Capture(false, None, "", []), [], map[], [])
  }

  /** The most recent free press of the key was swallowed. */
  ghost predicate Holds(st: State, key: Key) {
    LastPress(st.history, key, true) == Some(true)
  }

  ghost predicate Swallows(lex: Lexicon, st: State, event: Event) {
    event.ready &&
    match event.state
    case Pressed =>
      || st.capture.grabbing || Holds(st, event.key)
      || (!event.inhibited && st.blockCount == 0 && AnyMatch(lex, st.bindings, st.blocks, event))
    case Released => st.capture.grabbing || Holds(st, event.key)
    case Repeated => false
  }

  ghost predicate MayRepeat(st: State, event: Event, b: Binding) {
    && b in st.bindings && event.key in st.starter && b.id == st.starter[event.key] && !b.parsed.noRepeat
    && !event.inhibited && st.blockCount == 0 && !TypeBlocked(st.blocks, b.kind)
  }

  /** A press runs the first binding for its first keysym that has one; a held key runs the
      binding it started, if that repeats. */
  ghost function PressRuns(lex: Lexicon, st: State, event: Event): Option<Binding> {
    if st.capture.grabbing then None
    else if Holds(st, event.key) then
      if exists b :: MayRepeat(st, event, b) then
        var b :| MayRepeat(st, event, b); Some(b)
      else None
    else if Swallows(lex, st, event) && exists i: nat, j: nat ::
      FirstMatch(lex, st.bindings, st.blocks, event, i, j) then
      var i: nat, j: nat :| FirstMatch(lex, st.bindings, st.blocks, event, i, j); Some(st.bindings[j])
    else None
  }

  ghost function Pressing(lex: Lexicon, st: State, event: Event): State {
    var b := PressRuns(lex, st, event);
    st.(
      history := st.history + [Press(event.key, Swallows(lex, st, event), !st.capture.grabbing)],
      capture := CaptureAfter(lex, st.capture, event),
      starter := if b.Some? && !Holds(st, event.key) then st.starter[event.key := b.value.id] else st.starter,
      ran := if b.Some? then st.ran + [b.value.action] else st.ran)
  }

  ghost function Releasing(lex: Lexicon, st: State, event: Event): State {
    st.(
      history := st.history + [Release(event.key, Swallows(lex, st, event), !st.capture.grabbing)],
      capture := if Holds(st, event.key) then st.capture else CaptureAfter(lex, st.capture, event))
  }

  ghost function Unblocked(count: nat): nat {
    if count > 0 then count - 1 else 0
  }

  ghost function Rebound(bindings: seq<Binding>, id: nat, parsed: Parsed): seq<Binding> {
    seq(|bindings|, i requires 0 <= i < |bindings| => if bindings[i].id == id then bindings[i].(parsed := parsed)
      else bindings[i])
  }

  ghost function Next(lex: Lexicon, st: State, op: Op): State {
    match op
    case DoRegister(shortcut, kind, hasAction, action) =>
      var parsed := Parse(lex, shortcut);
      if parsed.None? || !hasAction || kind >= TYPE_COUNT || Bound(st.bindings, parsed.value) then st
      else st.(bindings := st.bindings + [Binding(st.nextId, parsed.value, kind, action)], nextId := st.nextId + 1)
    case DoUpdate(id, shortcut) =>
      if CanUpdate(lex, st.bindings, id, shortcut)
        then st.(bindings := Rebound(st.bindings, id, Parse(lex, shortcut).value)) else st
    case DoUnregister(id) => st.(bindings := Without(st.bindings, id))
    case DoGrab(hasCallback) => st.(capture := Capture(hasCallback, None, "", st.capture.told))
    case DoCancel => st.(capture := Capture(false, None, "", st.capture.told))
    case DoBlockAll(blocked) => st.(blockCount := if blocked then st.blockCount + 1 else Unblocked(st.blockCount))
    case DoBlockType(kind, blocked) =>
      if kind >= |st.blocks| then st
      else st.(blocks := st.blocks[kind := if blocked then st.blocks[kind] + 1 else Unblocked(st.blocks[kind])])
    case DoKey(event) =>
      if !event.ready || event.state.Repeated? then st
      else if event.state.Pressed? then Pressing(lex, st, event)
      else Releasing(lex, st, event)
    case DoForget(keyboard) =>
      st.(
        history := st.history + Forgotten(keyboard),
        capture := if KeyboardOf(st.capture.key) == keyboard then Capture(false, None, "", st.capture.told)
          else st.capture)
  }

  /** The state after a sequence of calls. */
  ghost function After(lex: Lexicon, ops: seq<Op>): State {
    if ops == [] then Initial() else Next(lex, After(lex, ops[..|ops| - 1]), ops[|ops| - 1])
  }

  /** Whether the call `i` swallows a key event. */
  ghost predicate Answer(lex: Lexicon, ops: seq<Op>, i: nat)
    requires i < |ops|
  {
    ops[i].DoKey? && Swallows(lex, After(lex, ops[..i]), ops[i].event)
  }

  ghost function AnswerTo(lex: Lexicon, ops: seq<Op>): nat -> bool {
    (i: nat) => i < |ops| && Answer(lex, ops, i)
  }

  ghost predicate Agree(given: seq<bool>, expected: nat -> bool) {
    forall i :: 0 <= i < |given| ==> given[i] == expected(i)
  }

  lemma AgreeNext(given: seq<bool>, expected: nat -> bool, next: bool)
    requires Agree(given, expected) && next == expected(|given|)
    ensures Agree(given + [next], expected)
  {
  }

  /** The answers of the first calls. */
  ghost predicate Answers(lex: Lexicon, ops: seq<Op>, swallowed: seq<bool>) {
    |swallowed| <= |ops| && Agree(swallowed, AnswerTo(lex, ops))
  }

  lemma AnswersNext(lex: Lexicon, ops: seq<Op>, swallowed: seq<bool>, next: bool)
    requires Answers(lex, ops, swallowed) && |swallowed| < |ops| && next == Answer(lex, ops, |swallowed|)
    ensures Answers(lex, ops, swallowed + [next])
  {
    AgreeNext(swallowed, AnswerTo(lex, ops), next);
  }

  lemma AfterNext(lex: Lexicon, ops: seq<Op>, i: nat)
    requires i < |ops|
    ensures After(lex, ops[..i + 1]) == Next(lex, After(lex, ops[..i]), ops[i])
  {
    assert ops[..i + 1][..i] == ops[..i];
  }

  // ----- what the reference promises over every run

  ghost predicate PressOf(op: Op, key: Key) {
    op.DoKey? && op.event.ready && op.event.state.Pressed? && op.event.key == key
  }

  ghost predicate ReleaseOf(op: Op, key: Key) {
    op.DoKey? && op.event.ready && op.event.state.Released? && op.event.key == key
  }

  ghost predicate EndsPress(op: Op, key: Key) {
    ReleaseOf(op, key) || (op.DoForget? && op.keyboard == Some(key.keyboard))
  }

  /** Call `k` is the press of the key that is current before call `i`. */
  ghost predicate CurrentPress(ops: seq<Op>, k: nat, i: nat, key: Key) {
    k < i <= |ops| && PressOf(ops[k], key) && forall j :: k < j < i ==> !PressOf(ops[j], key) && !EndsPress(ops[j], key)
  }

  ghost predicate GrabbedAt(lex: Lexicon, ops: seq<Op>, i: nat)
    requires i <= |ops|
  {
    After(lex, ops[..i]).capture.grabbing
  }

  /** The latest call before `i` that pressed, if none has ended the press since. */
  ghost function Latest(press: nat -> bool, ended: nat -> bool, i: nat): (r: Option<nat>)
    ensures r.Some? ==> r.value < i
  {
    if i == 0 then None
    else if press(i - 1) then Some(i - 1)
    else if ended(i - 1) then None
    else Latest(press, ended, i - 1)
  }

  /** A value that presses set and ends clear is that of the latest press. */
  lemma {:induction false} LatestValue<T>(told: nat -> Option<T>, value: nat -> T, press: nat -> bool,
      ended: nat -> bool, i: nat)
    requires told(0) == None
    requires forall j: nat :: j < i ==>
      told(j + 1) == if press(j) then Some(value(j)) else if ended(j) then None else told(j)
    ensures var k := Latest(press, ended, i); told(i) == if k.Some? then Some(value(k.value)) else None
  {
    if i > 0 { LatestValue(told, value, press, ended, i - 1); }
  }

  ghost function Presses(ops: seq<Op>, key: Key): nat -> bool {
    (i: nat) => i < |ops| && PressOf(ops[i], key)
  }

  ghost function Ends(ops: seq<Op>, key: Key): nat -> bool {
    (i: nat) => i < |ops| && EndsPress(ops[i], key)
  }

  /** The call that pressed the key, if it has not been released or forgotten since. */
  ghost function PressBefore(ops: seq<Op>, i: nat, key: Key): (r: Option<nat>)
    ensures r.Some? ==> r.value < i
  {
    Latest(Presses(ops, key), Ends(ops, key), i)
  }

  lemma {:induction false} PressBeforeIs(ops: seq<Op>, i: nat, key: Key, k: nat)
    requires i <= |ops|
    ensures CurrentPress(ops, k, i, key) <==> PressBefore(ops, i, key) == Some(k)
  {
    if i > 0 {
      PressBeforeIs(ops, i - 1, key, k);
      if CurrentPress(ops, k, i - 1, key) && !PressOf(ops[i - 1], key) && !EndsPress(ops[i - 1], key) {
        assert CurrentPress(ops, k, i, key);
      }
      if CurrentPress(ops, k, i, key) && k < i - 1 {
        assert !PressOf(ops[i - 1], key) && !EndsPress(ops[i - 1], key);
        assert CurrentPress(ops, k, i - 1, key);
      }
    }
  }

  /** What a call adds to the record. */
  ghost function Added(lex: Lexicon, st: State, op: Op): seq<Entry> {
    match op
    case DoKey(event) => Recorded(event, Swallows(lex, st, event), !st.capture.grabbing)
    case DoForget(keyboard) => Forgotten(keyboard)
    case _ => []
  }

  /** An entry that tells nothing about a key. */
  ghost predicate Unrelated(e: Entry, key: Key) {
    match e
    case Press(k, _, _) => k != key
    case Release(k, _, _) => k != key
    case Forget(keyboard) => keyboard != key.keyboard
  }

  ghost predicate Ending(e: Entry, key: Key) {
    !e.Press? && !Unrelated(e, key)
  }

  /** What a call adds to the record about one key. */
  lemma AddedAbout(lex: Lexicon, st: State, op: Op, key: Key)
    ensures var added := Added(lex, st, op);
      if PressOf(op, key) then added == [Press(key, Swallows(lex, st, op.event), !st.capture.grabbing)]
      else if EndsPress(op, key) then |added| == 1 && Ending(added[0], key)
      else added == [] || (|added| == 1 && Unrelated(added[0], key))
  {
  }

  lemma NextHistory(lex: Lexicon, st: State, op: Op)
    ensures Next(lex, st, op).history == st.history + Added(lex, st, op)
  {
  }

  lemma LastPressAdded(history: seq<Entry>, e: Entry, key: Key, freeOnly: bool)
    ensures LastPress(history + [e], key, freeOnly) ==
      match e
      case Press(k, swallowed, free) => if k == key && (free || !freeOnly) then Some(swallowed)
        else LastPress(history, key, freeOnly)
      case Release(k, _, _) => if k == key then None else LastPress(history, key, freeOnly)
      case Forget(keyboard) => if keyboard == key.keyboard then None else LastPress(history, key, freeOnly)
  {
    assert (history + [e])[..|history|] == history;
  }

  lemma PressedInGrabAdded(history: seq<Entry>, e: Entry, key: Key)
    ensures PressedInGrab(history + [e], key) <==>
      match e
      case Press(k, _, free) => if k == key then !free else PressedInGrab(history, key)
      case Release(k, _, _) => k != key && PressedInGrab(history, key)
      case Forget(keyboard) => keyboard != key.keyboard && PressedInGrab(history, key)
  {
    assert (history + [e])[..|history|] == history;
  }

  /** What the record tells about a key changes only with entries about it. */
  lemma LastPressOf(history: seq<Entry>, added: seq<Entry>, key: Key, freeOnly: bool)
    requires added == [] || (|added| == 1 && (Unrelated(added[0], key) || Ending(added[0], key)))
    ensures LastPress(history + added, key, freeOnly) ==
      if added != [] && Ending(added[0], key) then None else LastPress(history, key, freeOnly)
    ensures PressedInGrab(history + added, key) <==>
      !(added != [] && Ending(added[0], key)) && PressedInGrab(history, key)
  {
    if added == [] {
      assert history + added == history;
    } else {
      assert added == [added[0]];
      LastPressAdded(history, added[0], key, freeOnly);
      PressedInGrabAdded(history, added[0], key);
    }
  }

  lemma RecordNext(lex: Lexicon, st: State, op: Op, key: Key)
    ensures var h := Next(lex, st, op).history;
      && LastPress(h, key, false) ==
           (if PressOf(op, key) then Some(Swallows(lex, st, op.event))
            else if EndsPress(op, key) then None
            else LastPress(st.history, key, false))
      && (PressedInGrab(h, key) <==>
           if PressOf(op, key) then st.capture.grabbing else !EndsPress(op, key) && PressedInGrab(st.history, key))
  {
    NextHistory(lex, st, op);
    AddedAbout(lex, st, op, key);
    var added := Added(lex, st, op);
    if PressOf(op, key) {
      LastPressAdded(st.history, added[0], key, false);
      PressedInGrabAdded(st.history, added[0], key);
    } else {
      LastPressOf(st.history, added, key, false);
    }
  }

  ghost function PressTold(lex: Lexicon, ops: seq<Op>, key: Key, i: nat): Option<bool> {
    if i <= |ops| then LastPress(After(lex, ops[..i]).history, key, false) else None
  }

  ghost predicate Answered(lex: Lexicon, ops: seq<Op>, i: nat) {
    i < |ops| && Answer(lex, ops, i)
  }

  ghost function GrabTold(lex: Lexicon, ops: seq<Op>, key: Key, i: nat): bool {
    i <= |ops| && PressedInGrab(After(lex, ops[..i]).history, key)
  }

  lemma ToldNext(lex: Lexicon, ops: seq<Op>, i: nat, key: Key)
    requires i < |ops|
    ensures PressTold(lex, ops, key, i + 1) ==
      if PressOf(ops[i], key) then Some(Answered(lex, ops, i)) else if EndsPress(ops[i], key) then None
        else PressTold(lex, ops, key, i)
    ensures GrabTold(lex, ops, key, i + 1) <==>
      if PressOf(ops[i], key) then GrabbedAt(lex, ops, i) else !EndsPress(ops[i], key) && GrabTold(lex, ops, key, i)
  {
    AfterNext(lex, ops, i);
    RecordNext(lex, After(lex, ops[..i]), ops[i], key);
  }

  /** The record tells of the current press of every key whether it was swallowed, */
  lemma RecordTellsPress(lex: Lexicon, ops: seq<Op>, i: nat, key: Key)
    requires i <= |ops|
    ensures var k := PressBefore(ops, i, key); PressTold(lex, ops, key, i) == if k.Some?
      then Some(Answered(lex, ops, k.value)) else None
  {
    var told, value := (j: nat) => PressTold(lex, ops, key, j), (j: nat) => Answered(lex, ops, j);
    var press, ended := Presses(ops, key), Ends(ops, key);
    forall j: nat | j < i ensures told(j + 1) == if press(j) then Some(value(j)) else if ended(j) then None
      else told(j) {
      ToldNext(lex, ops, j, key);
    }
    LatestValue(told, value, press, ended, i);
  }

  ghost predicate Marked(lex: Lexicon, ops: seq<Op>, i: nat) {
    i < |ops| && GrabbedAt(lex, ops, i)
  }

  /** A flag that presses set or clear and ends clear is that of the latest press. */
  lemma {:induction false} LatestFlag(flag: nat -> bool, mark: nat -> bool, press: nat -> bool, ended: nat -> bool,
      i: nat)
    requires !flag(0) && forall j: nat :: j < i ==>
      (flag(j + 1) <==> if press(j) then mark(j) else !ended(j) && flag(j))
    ensures var k := Latest(press, ended, i); flag(i) <==> k.Some? && mark(k.value)
  {
    if i > 0 { LatestFlag(flag, mark, press, ended, i - 1); }
  }

  /** and whether it fell into a grab. */
  lemma RecordTellsGrab(lex: Lexicon, ops: seq<Op>, i: nat, key: Key)
    requires i <= |ops|
    ensures var k := PressBefore(ops, i, key); GrabTold(lex, ops, key, i) <==> k.Some? && Marked(lex, ops, k.value)
  {
    var flag, mark := (j: nat) => GrabTold(lex, ops, key, j), (j: nat) => Marked(lex, ops, j);
    var press, ended := Presses(ops, key), Ends(ops, key);
    forall j: nat | j < i ensures flag(j + 1) <==> if press(j) then mark(j) else !ended(j) && flag(j) {
      ToldNext(lex, ops, j, key);
    }
    LatestFlag(flag, mark, press, ended, i);
  }

  lemma {:induction false} RecordIsPaired(lex: Lexicon, ops: seq<Op>)
    ensures Paired(After(lex, ops).history)
  {
    if ops != [] {
      var n := |ops| - 1;
      RecordIsPaired(lex, ops[..n]);
      var st := After(lex, ops[..n]);
      NextHistory(lex, st, ops[n]);
      var added := Added(lex, st, ops[n]);
      if added == [] {
        assert st.history + [] == st.history;
      } else {
        PairedNext(st.history, added[0]);
      }
    }
  }

  lemma StaysFree(lex: Lexicon, st: State, op: Op)
    requires !st.capture.grabbing && !op.DoGrab?
    ensures !Next(lex, st, op).capture.grabbing
  {
  }

  lemma {:induction false} NeverGrabbed(lex: Lexicon, ops: seq<Op>, i: nat)
    requires i <= |ops| && forall k :: 0 <= k < i ==> !ops[k].DoGrab?
    ensures !GrabbedAt(lex, ops, i)
  {
    if i > 0 {
      NeverGrabbed(lex, ops, i - 1);
      StaysFree(lex, After(lex, ops[..i - 1]), ops[i - 1]);
      AfterNext(lex, ops, i - 1);
    }
  }

  /** Call `k` is a press of the key outside grabs that a binding took and nothing has ended
      before call `i`. */
  ghost predicate TakenSince(lex: Lexicon, ops: seq<Op>, k: nat, i: nat, key: Key) {
    k < i <= |ops| && TakenAt(lex, ops, k, key) && forall j :: k < j < i ==> !EndedAt(ops, j, key)
  }

  lemma HoldsNext(lex: Lexicon, st: State, op: Op, key: Key)
    ensures Holds(Next(lex, st, op), key) <==>
      if PressOf(op, key) && !st.capture.grabbing then Swallows(lex, st, op.event)
        else !EndsPress(op, key) && Holds(st, key)
  {
    NextHistory(lex, st, op);
    AddedAbout(lex, st, op, key);
    var added := Added(lex, st, op);
    if PressOf(op, key) {
      LastPressAdded(st.history, added[0], key, true);
    } else {
      LastPressOf(st.history, added, key, true);
    }
  }

  ghost predicate Latched(taken: nat -> bool, ended: nat -> bool, k: nat, i: nat) {
    k < i && taken(k) && forall j :: k < j < i ==> !ended(j)
  }

  /** A latch that some calls set and others reset is set exactly if some call set it and none
      reset it since. */
  lemma {:induction false} LatchedSince(held: nat -> bool, taken: nat -> bool, ended: nat -> bool, i: nat)
    requires !held(0) && forall j: nat :: j < i ==> (held(j + 1) <==> taken(j) || (!ended(j) && held(j)))
    ensures held(i) <==> exists k: nat :: Latched(taken, ended, k, i)
  {
    if i > 0 {
      LatchedSince(held, taken, ended, i - 1);
      if taken(i - 1) { assert Latched(taken, ended, i - 1, i); }
      if !ended(i - 1) && held(i - 1) {
        var k: nat :| Latched(taken, ended, k, i - 1);
        assert Latched(taken, ended, k, i);
      }
      forall k: nat | Latched(taken, ended, k, i) && k < i - 1 ensures held(i) {
        assert Latched(taken, ended, k, i - 1);
      }
    }
  }

  ghost predicate HeldAt(lex: Lexicon, ops: seq<Op>, i: nat, key: Key) {
    i <= |ops| && Holds(After(lex, ops[..i]), key)
  }

  ghost predicate TakenAt(lex: Lexicon, ops: seq<Op>, i: nat, key: Key) {
    i < |ops| && PressOf(ops[i], key) && !GrabbedAt(lex, ops, i) && Answer(lex, ops, i)
  }

  ghost predicate EndedAt(ops: seq<Op>, i: nat, key: Key) {
    i < |ops| && EndsPress(ops[i], key)
  }

  lemma HeldStep(lex: Lexicon, ops: seq<Op>, i: nat, key: Key)
    requires i < |ops|
    ensures HeldAt(lex, ops, i + 1, key) <==>
      TakenAt(lex, ops, i, key) || (!EndedAt(ops, i, key) && HeldAt(lex, ops, i, key))
  {
    AfterNext(lex, ops, i);
    HoldsNext(lex, After(lex, ops[..i]), ops[i], key);
  }

  /** A key is held exactly since some such press: later presses of it are taken as well. */
  lemma HeldSince(lex: Lexicon, ops: seq<Op>, i: nat, key: Key)
    requires i <= |ops|
    ensures HeldAt(lex, ops, i, key) <==> exists k: nat :: TakenSince(lex, ops, k, i, key)
  {
    var held, taken, ended := (j: nat) => HeldAt(lex, ops, j, key), (j: nat) => TakenAt(lex, ops, j, key), (j: nat) =>
      EndedAt(ops, j, key);
    assert !held(0);
    forall j: nat | j < i ensures held(j + 1) <==> taken(j) || (!ended(j) && held(j)) { HeldStep(lex, ops, j, key); }
    LatchedSince(held, taken, ended, i);
    forall k: nat ensures TakenSince(lex, ops, k, i, key) <==> Latched(taken, ended, k, i) {
      assert forall j: nat :: ended(j) <==> EndedAt(ops, j, key);
    }
  }

  /** A release outside a grab is swallowed exactly when the key is held. */
  lemma ReleaseSwallowed(lex: Lexicon, ops: seq<Op>, i: nat, key: Key)
    requires i < |ops| && ReleaseOf(ops[i], key) && !GrabbedAt(lex, ops, i)
    ensures Answer(lex, ops, i) <==> exists k: nat :: TakenSince(lex, ops, k, i, key)
  {
    HeldSince(lex, ops, i, key);
  }

  /** A release outside a grab keeps to the press it ends if and only if that press was not
      made during a grab, or the key was already held before the grab. */
  lemma ReleaseKeepsToPress(lex: Lexicon, ops: seq<Op>, i: nat, key: Key)
    requires i < |ops| && ReleaseOf(ops[i], key) && !GrabbedAt(lex, ops, i)
    ensures (Answer(lex, ops, i) <==> exists k: nat :: CurrentPress(ops, k, i, key) && Answer(lex, ops, k))
      <==> (forall k: nat :: CurrentPress(ops, k, i, key) ==> !GrabbedAt(lex, ops, k)) || exists k: nat ::
        TakenSince(lex, ops, k, i, key)
  {
    var h, p := After(lex, ops[..i]).history, PressBefore(ops, i, key);
    RecordIsPaired(lex, ops[..i]);
    GrabbedPress(h, key);
    RecordTellsPress(lex, ops, i, key);
    RecordTellsGrab(lex, ops, i, key);
    ReleaseSwallowed(lex, ops, i, key);
    forall k: nat ensures CurrentPress(ops, k, i, key) <==> p == Some(k) { PressBeforeIs(ops, i, key, k); }
  }

  /** Without grabs every release is swallowed exactly when the press it ends was. */
  lemma ReleaseFollowsPress(lex: Lexicon, ops: seq<Op>, i: nat, key: Key)
    requires i < |ops| && ReleaseOf(ops[i], key) && forall k :: 0 <= k < i ==> !ops[k].DoGrab?
    ensures Answer(lex, ops, i) <==> exists k: nat :: CurrentPress(ops, k, i, key) && Answer(lex, ops, k)
  {
    NeverGrabbed(lex, ops, i);
    forall k: nat | CurrentPress(ops, k, i, key) ensures !GrabbedAt(lex, ops, k) { NeverGrabbed(lex, ops, k); }
    ReleaseKeepsToPress(lex, ops, i, key);
  }

  /** During a grab every press and release is swallowed, whatever came before. */
  lemma GrabSwallows(lex: Lexicon, ops: seq<Op>, i: nat, key: Key)
    requires i < |ops| && (PressOf(ops[i], key) || ReleaseOf(ops[i], key)) && GrabbedAt(lex, ops, i)
    ensures Answer(lex, ops, i)
  {
  }

  lemma PressInGrab(lex: Lexicon, st: State, event: Event)
    requires event.ready && event.state.Pressed? && st.capture.grabbing && st.history == []
    ensures Swallows(lex, st, event) && Next(lex, st, DoKey(event)).history == [Press(event.key, true, false)]
  {
  }

  lemma ReleaseAfterGrab(lex: Lexicon, st: State, event: Event)
    requires event.ready && event.state.Released? && !st.capture.grabbing
    requires st.history == [Press(event.key, true, false)]
    ensures !Swallows(lex, st, event)
  {
    assert st.history == [] + [Press(event.key, true, false)];
    LastPressAdded([], Press(event.key, true, false), event.key, true);
  }

  /** A modifier pressed during a grab and released after it: the press is swallowed and the
      release is not. */
  lemma GrabBreaksPairing(lex: Lexicon, key: Key)
    ensures var ops := [DoGrab(true), DoKey(Event(key, Pressed, true, [0xffe1], {}, false)), DoCancel,
                        DoKey(Event(key, Released, true, [0xffe1], {Shift}, false))];
      Answer(lex, ops, 1) && !Answer(lex, ops, 3)
  {
    var down := Event(key, Pressed, true, [0xffe1], {}, false);
    var up := Event(key, Released, true, [0xffe1], {Shift}, false);
    var ops := [DoGrab(true), DoKey(down), DoCancel, DoKey(up)];
    var grabbed := After(lex, ops[..1]);
    AfterNext(lex, ops, 0);
    assert grabbed.history == [] && grabbed.capture.grabbing;
    PressInGrab(lex, grabbed, down);
    AfterNext(lex, ops, 1);
    AfterNext(lex, ops, 2);
    ReleaseAfterGrab(lex, After(lex, ops[..3]), up);
  }

  /** An action runs only for a press that nothing inhibits, blocks or captures, and it is that
      of a binding in the table. */
  lemma OnlyPressesRun(lex: Lexicon, st: State, op: Op)
    requires Next(lex, st, op).ran != st.ran
    ensures op.DoKey? && op.event.ready && op.event.state.Pressed? && !op.event.inhibited && st.blockCount == 0
    ensures !st.capture.grabbing
    ensures exists b ::
      b in st.bindings && !TypeBlocked(st.blocks, b.kind) && Next(lex, st, op).ran == st.ran + [b.action]
  {
    var b := PressRuns(lex, st, op.event);
    assert b.Some? && b.value in st.bindings;
  }

  lemma {:induction false} FirstOfList(lex: Lexicon, bindings: seq<Binding>, blocks: seq<nat>, event: Event, i: nat,
      n: nat) returns (j: nat)
    requires i < |event.keysyms| && n <= |bindings| && !NoMatch(lex, bindings, blocks, event, i, n)
    ensures j < n && Matches(bindings[j], blocks, Looked(lex, event.keysyms[i]), event.modifiers)
    ensures NoMatch(lex, bindings, blocks, event, i, j)
  {
    if n > 0 && !NoMatch(lex, bindings, blocks, event, i, n - 1) {
      j := FirstOfList(lex, bindings, blocks, event, i, n - 1);
    } else {
      j := n - 1;
    }
  }

  lemma {:induction false} FirstExists(lex: Lexicon, bindings: seq<Binding>, blocks: seq<nat>, event: Event, n: nat)
      returns (i: nat, j: nat)
    requires n <= |event.keysyms| && exists k :: 0 <= k < n && !NoMatch(lex, bindings, blocks, event, k, |bindings|)
    ensures FirstMatch(lex, bindings, blocks, event, i, j)
  {
    if exists k :: 0 <= k < n - 1 && !NoMatch(lex, bindings, blocks, event, k, |bindings|) {
      i, j := FirstExists(lex, bindings, blocks, event, n - 1);
    } else {
      i := n - 1;
      j := FirstOfList(lex, bindings, blocks, event, i, |bindings|);
    }
  }

  /** A fresh press outside a grab is swallowed exactly when it runs a binding. */
  lemma FreshPressRuns(lex: Lexicon, st: State, event: Event)
    requires event.ready && event.state.Pressed? && !st.capture.grabbing && !Holds(st, event.key)
    ensures Swallows(lex, st, event) <==> PressRuns(lex, st, event).Some?
  {
    if Swallows(lex, st, event) {
      var i, j :| 0 <= i < |event.keysyms| && 0 <= j < |st.bindings| &&
        Matches(st.bindings[j], st.blocks, Looked(lex, event.keysyms[i]), event.modifiers);
      assert !NoMatch(lex, st.bindings, st.blocks, event, i, |st.bindings|);
      var a, b := FirstExists(lex, st.bindings, st.blocks, event, |event.keysyms|);
    }
  }

  // ----- the manager keeps to it

  ghost predicate StartersOk(keys: seq<ActiveKey>, starter: map<Key, nat>) {
    forall k :: 0 <= k < |keys| ==> keys[k].key in starter && starter[keys[k].key] == keys[k].binding
  }

  ghost predicate Refines(m: Manager, st: State)
    reads m
  {
    && m.Valid() && m.bindings == st.bindings && m.nextId == st.nextId && m.typeBlocks == st.blocks &&
      m.blockCount == st.blockCount
    && m.Grab() == st.capture && m.history == st.history && m.ran == st.ran && StartersOk(m.activeKeys, st.starter)
  }

  lemma HoldsActive(m: Manager, st: State, key: Key)
    requires Refines(m, st)
    ensures IsActive(m.activeKeys, key) <==> Holds(st, key)
  {
  }

  lemma FirstUnique(lex: Lexicon, bindings: seq<Binding>, blocks: seq<nat>, event: Event, i: nat, j: nat, i': nat,
      j': nat)
    requires FirstMatch(lex, bindings, blocks, event, i, j) && FirstMatch(lex, bindings, blocks, event, i', j')
    ensures j == j'
  {
    assert i < i' ==> NoMatch(lex, bindings, blocks, event, i, |bindings|);
    assert i' < i ==> NoMatch(lex, bindings, blocks, event, i', |bindings|);
  }

  /** A fresh press that started the binding `j`. */
  lemma Started(lex: Lexicon, st: State, event: Event, i: nat, j: nat, keys: seq<ActiveKey>)
    requires !st.capture.grabbing && !Holds(st, event.key) && Swallows(lex, st, event) && StartersOk(keys, st.starter)
    requires !IsActive(keys, event.key)
    requires FirstMatch(lex, st.bindings, st.blocks, event, i, j)
    ensures PressRuns(lex, st, event) == Some(st.bindings[j])
    ensures StartersOk(keys + [ActiveKey(event.key, st.bindings[j].id)], st.starter[event.key := st.bindings[j].id])
  {
    var i': nat, j': nat :| FirstMatch(lex, st.bindings, st.blocks, event, i', j') &&
      PressRuns(lex, st, event) == Some(st.bindings[j']);
    FirstUnique(lex, st.bindings, st.blocks, event, i, j, i', j');
  }

  /** A press of a key that is already held. */
  lemma RepeatedAs(m: Manager, lex: Lexicon, st: State, event: Event, before: seq<nat>)
    requires m.bindings == st.bindings && m.typeBlocks == st.blocks && m.blockCount == st.blockCount
    requires StartersOk(m.activeKeys, st.starter)
    requires event.ready && event.state.Pressed? && !st.capture.grabbing && Holds(st, event.key)
    requires IsActive(m.activeKeys, event.key)
    requires m.Repeated(event, before, m.ran)
    ensures var b := PressRuns(lex, st, event); m.ran == if b.Some? then before + [b.value.action] else before
  {
    var i :| 0 <= i < |m.activeKeys| && m.activeKeys[i].key == event.key;
    var id := m.activeKeys[i].binding;
    forall b ensures MayRepeat(st, event, b) <==> m.Repeats(event, b, id) { }
  }

  method DoKeyDown(m: Manager, lex: Lexicon, event: Event, ghost st: State) returns (swallowed: bool)
    requires KnowsNames(lex) && Refines(m, st) && event.ready && event.state.Pressed?
    modifies m
    ensures swallowed == Swallows(lex, st, event) && Refines(m, Pressing(lex, st, event))
  {
    HoldsActive(m, st, event.key);
    ghost var keys, ran := m.activeKeys, m.ran;
    swallowed := m.HandleKey(lex, event);
    if !st.capture.grabbing && !Holds(st, event.key) && swallowed {
      ghost var i: nat, j: nat :| m.Starts(lex, event, i, j) && m.ran == ran + [st.bindings[j].action] &&
        m.activeKeys == keys + [ActiveKey(event.key, st.bindings[j].id)];
      Started(lex, st, event, i, j, keys);
    } else if !st.capture.grabbing && Holds(st, event.key) {
      RepeatedAs(m, lex, st, event, ran);
    }
  }

  method DoKeyUp(m: Manager, lex: Lexicon, event: Event, ghost st: State) returns (swallowed: bool)
    requires KnowsNames(lex) && Refines(m, st) && event.ready && event.state.Released?
    modifies m
    ensures swallowed == Swallows(lex, st, event) && Refines(m, Releasing(lex, st, event))
  {
    HoldsActive(m, st, event.key);
    swallowed := m.HandleKey(lex, event);
  }

  method DoKeyEvent(m: Manager, lex: Lexicon, event: Event, ghost st: State) returns (swallowed: bool)
    requires KnowsNames(lex) && Refines(m, st)
    modifies m
    ensures swallowed == Swallows(lex, st, event) && Refines(m, Next(lex, st, DoKey(event)))
  {
    if event.ready && event.state.Pressed? {
      swallowed := DoKeyDown(m, lex, event, st);
    } else if event.ready && event.state.Released? {
      swallowed := DoKeyUp(m, lex, event, st);
    } else {
      swallowed := m.HandleKey(lex, event);
    }
  }

  /** Calls that only change the table of bindings. */
  method DoBinding(m: Manager, lex: Lexicon, op: Op, ghost st: State)
    requires Refines(m, st) && (op.DoRegister? || op.DoUpdate? || op.DoUnregister?)
    modifies m`bindings, m`nextId
    ensures Refines(m, Next(lex, st, op))
  {
    match op {
      case DoRegister(shortcut, kind, hasAction, action) => var _ := m.Register(lex, shortcut, kind, hasAction, action);
      case DoUpdate(id, shortcut) =>
        var ok := m.Update(lex, id, shortcut);
        assert ok ==> m.bindings == Rebound(st.bindings, id, Parse(lex, shortcut).value);
      case DoUnregister(id) => var _ := m.Unregister(id);
    }
  }

  method Do(m: Manager, lex: Lexicon, op: Op, ghost st: State) returns (swallowed: bool)
    requires KnowsNames(lex) && Refines(m, st)
    modifies m
    ensures swallowed == (op.DoKey? && Swallows(lex, st, op.event)) && Refines(m, Next(lex, st, op))
  {
    swallowed := false;
    match op {
      case DoGrab(hasCallback) => m.GrabNextKey(hasCallback);
      case DoCancel => m.CancelGrab();
      case DoBlockAll(blocked) => m.BlockAll(blocked);
      case DoBlockType(kind, blocked) => m.BlockType(kind, blocked);
      case DoKey(event) => swallowed := DoKeyEvent(m, lex, event, st);
      case DoForget(keyboard) => m.ForgetKeyboard(keyboard);
      case _ => DoBinding(m, lex, op, st);
    }
  }

  /** Every interleaving of calls answers as the reference does, runs the same actions and
      tells capture callbacks the same. */
  method Run(lex: Lexicon, ops: seq<Op>) returns (m: Manager, swallowed: seq<bool>)
    requires KnowsNames(lex)
    ensures fresh(m) && Refines(m, After(lex, ops))
    ensures |swallowed| == |ops| && Answers(lex, ops, swallowed)
  {
    m := new Manager();
    swallowed := [];
    for i := 0 to |ops|
      invariant fresh(m) && Refines(m, After(lex, ops[..i]))
      invariant |swallowed| == i && Answers(lex, ops, swallowed)
    {
      AfterNext(lex, ops, i);
      var s := Do(m, lex, ops[i], After(lex, ops[..i]));
      AnswersNext(lex, ops, swallowed, s);
      swallowed := swallowed + [s];
    }
    assert ops[..|ops|] == ops;
  }
}
