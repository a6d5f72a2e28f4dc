/** The shortcut grammar of key_binding_manager.cc: parsing "Ctrl+Alt+t:no", and printing what
    was captured. */
module Shortcuts {
  import opened Options

  datatype List<T> = Nil | Cons(head: T, tail: List<T>)

  datatype Modifier = Shift | Caps | Ctrl | Alt | Mod2 | Mod3 | Logo | Mod5

  const NO_SYMBOL: nat := 0

  datatype Parsed = Parsed(modifiers: set<Modifier>, keysym: nat, noRepeat: bool)

  /** The words of the grammar: the names that modifiers are read by and printed by, and the
      keysym library with its names to keysyms, lower case, and names of keysyms ("" if none). */
  datatype Lexicon = Lexicon(modifier: string -> Option<Modifier>, printed: seq<(Modifier, string)>,
                               fromName: string -> nat, lower: nat -> nat, name: nat -> string)

  // ----- characters

  predicate Space(c: char) {
    c == ' ' || '\t' <= c <= '\r'
  }

  function Lower(c: char): char {
    if 'A' <= c <= 'Z' then (c as int + 32) as char else c
  }

  predicate EqualsIgnoringCase(left: string, right: string) {
    |left| == |right| && forall i :: 0 <= i < |left| ==> Lower(left[i]) == Lower(right[i])
  }

  /** Strips white space at the front, then at the back. */
  function Trim(s: string): (r: string)
    ensures r == "" || (!Space(r[0]) && !Space(r[|r| - 1]))
  {
    if s != "" && Space(s[0]) then Trim(s[1..])
    else if s != "" && Space(s[|s| - 1]) then Trim(s[..|s| - 1])
    else s
  }

  /** The part of `s` outside `from` and `to` is white space. */
  ghost predicate SpaceAround(s: string, from: nat, to: nat) {
    from <= to <= |s| && forall i :: 0 <= i < |s| && !(from <= i < to) ==> Space(s[i])
  }

  lemma DropFirst(s: string, from: nat, to: nat)
    requires s != "" && Space(s[0]) && SpaceAround(s[1..], from, to)
    ensures SpaceAround(s, from + 1, to + 1) && s[1..][from..to] == s[from + 1..to + 1]
  {
    forall i | 0 < i < |s| && !(from + 1 <= i < to + 1) ensures Space(s[i]) { assert Space(s[1..][i - 1]); }
  }

  lemma DropLast(s: string, from: nat, to: nat)
    requires s != "" && Space(s[|s| - 1]) && SpaceAround(s[..|s| - 1], from, to)
    ensures SpaceAround(s, from, to) && s[..|s| - 1][from..to] == s[from..to]
  {
    forall i | 0 <= i < |s| - 1 && !(from <= i < to) ensures Space(s[i]) { assert Space(s[..|s| - 1][i]); }
  }

  /** What is stripped is the white space at both ends and nothing else. */
  lemma {:induction false} TrimStrips(s: string) returns (from: nat, to: nat)
    ensures SpaceAround(s, from, to) && Trim(s) == s[from..to]
    ensures from < to ==> !Space(s[from]) && !Space(s[to - 1])
    decreases |s|
  {
    if s != "" && Space(s[0]) {
      from, to := TrimStrips(s[1..]);
      DropFirst(s, from, to);
      from, to := from + 1, to + 1;
    } else if s != "" && Space(s[|s| - 1]) {
      from, to := TrimStrips(s[..|s| - 1]);
      DropLast(s, from, to);
    } else {
      from, to := 0, |s|;
    }
  }

  function NamedBefore(name: string): Option<Modifier> {
    if EqualsIgnoringCase(name, "shift") then Some(Shift)
    else if EqualsIgnoringCase(name, "caps") then Some(Caps)
    else if EqualsIgnoringCase(name, "lock") then Some(Caps)
    else if EqualsIgnoringCase(name, "ctrl") then Some(Ctrl)
    else if EqualsIgnoringCase(name, "control") then Some(Ctrl)
    else if EqualsIgnoringCase(name, "alt") then Some(Alt)
    else if EqualsIgnoringCase(name, "mod1") then Some(Alt)
    else if EqualsIgnoringCase(name, "num") then Some(Mod2)
    else if EqualsIgnoringCase(name, "mod2") then Some(Mod2)
    else if EqualsIgnoringCase(name, "mod3") then Some(Mod3)
    else None
  }

  function NamedAfter(name: string): Option<Modifier> {
    if EqualsIgnoringCase(name, "win") then Some(Logo)
    else if EqualsIgnoringCase(name, "logo") then Some(Logo)
    else if EqualsIgnoringCase(name, "super") then Some(Logo)
    else if EqualsIgnoringCase(name, "meta") then Some(Logo)
    else if EqualsIgnoringCase(name, "mod4") then Some(Logo)
    else if EqualsIgnoringCase(name, "mod5") then Some(Mod5)
    else if EqualsIgnoringCase(name, "iso_level3_shift") then Some(Mod5)
    else None
  }

  /** The first entry of the table of names that matches. */
  function ModifierForName(name: string): Option<Modifier> {
    if NamedBefore(name).Some? then NamedBefore(name) else NamedAfter(name)
  }

  /** `find`: the first `c` at or after `start`, or the length. */
  function Find(s: string, c: char, start: nat): (i: nat)
    requires start <= |s|
    ensures start <= i <= |s| && (i < |s| ==> s[i] == c)
    decreases |s| - start
  {
    if start == |s| || s[start] == c then start else Find(s, c, start + 1)
  }

  /** `rfind`: the last `c`, or -1. */
  function FindLast(s: string, c: char): (i: int)
    ensures -1 <= i < |s| && (i >= 0 ==> s[i] == c)
  {
    if s == "" then -1 else if s[|s| - 1] == c then |s| - 1 else FindLast(s[..|s| - 1], c)
  }

  // ----- the meaning of a shortcut

  type Pieces = l: List<string> | l.Cons? witness Cons("", Nil)

  /** The pieces between plus signs from `start` on. */
  function SplitFrom(s: string, start: nat): Pieces
    requires start <= |s|
    decreases |s| - start
  {
    var i := Find(s, '+', start);
    Cons(s[start..i], if i == |s| then Nil else SplitFrom(s, i + 1))
  }

  function Split(s: string): Pieces {
    SplitFrom(s, 0)
  }

  ghost function Last(l: Pieces): string {
    if l.tail.Nil? then l.head else Last(l.tail)
  }

  function Bit(b: bool): nat {
    if b then 1 else 0
  }

  /** The modifier a piece names, if any. */
  ghost predicate Names(lex: Lexicon, m: Modifier, piece: string) {
    Trim(piece) != "" && lex.modifier(Trim(piece)) == Some(m)
  }

  /** Anything else that is not empty must name a key. */
  ghost predicate NamesKey(lex: Lexicon, piece: string) {
    Trim(piece) != "" && lex.modifier(Trim(piece)) == None
  }

  ghost function Symbol(lex: Lexicon, key: string): nat {
    lex.lower(lex.fromName(key))
  }

  ghost function SymbolIn(lex: Lexicon, piece: string): nat {
    if NamesKey(lex, piece) then Symbol(lex, Trim(piece)) else 0
  }

  ghost function IsModifier(lex: Lexicon, m: Modifier): string -> nat {
    (piece: string) => Bit(Names(lex, m, piece))
  }

  ghost function IsKey(lex: Lexicon): string -> nat {
    (piece: string) => Bit(NamesKey(lex, piece))
  }

  ghost function SymbolOf(lex: Lexicon): string -> nat {
    (piece: string) => SymbolIn(lex, piece)
  }

  ghost function Sum(f: string -> nat, l: List<string>): nat {
    match l
    case Nil => 0
    case Cons(piece, rest) => f(piece) + Sum(f, rest)
  }

  ghost predicate AtMostOnce(lex: Lexicon, l: List<string>) {
    forall m :: Sum(IsModifier(lex, m), l) <= 1
  }

  ghost function ModifiersIn(lex: Lexicon, l: List<string>): set<Modifier> {
    set m | Sum(IsModifier(lex, m), l) > 0
  }

  /** What the pieces mean: each modifier at most once, exactly one key, which must exist, and
      no plus sign at the end.  The sum of the symbols is then the symbol of the one key. */
  ghost function Meaning(lex: Lexicon, l: Pieces, noRepeat: bool): Option<Parsed> {
    if Trim(Last(l)) != "" && AtMostOnce(lex, l) && Sum(IsKey(lex), l) == 1 && Sum(SymbolOf(lex), l) != NO_SYMBOL
    then Some(Parsed(ModifiersIn(lex, l), Sum(SymbolOf(lex), l), noRepeat))
    else None
  }

  ghost predicate Has(l: List<string>, piece: string) {
    l.Cons? && (l.head == piece || Has(l.tail, piece))
  }

  /** The keysym of a shortcut is that of the one piece that names a key. */
  lemma {:induction false} KeyOfMeaning(lex: Lexicon, l: List<string>) returns (piece: string)
    requires Sum(IsKey(lex), l) == 1
    ensures Has(l, piece) && NamesKey(lex, piece) && Sum(SymbolOf(lex), l) == Symbol(lex, Trim(piece))
  {
    if NamesKey(lex, l.head) {
      piece := l.head;
      NoKeyNoSymbol(lex, l.tail);
    } else {
      piece := KeyOfMeaning(lex, l.tail);
    }
  }

  lemma {:induction false} NoKeyNoSymbol(lex: Lexicon, l: List<string>)
    requires Sum(IsKey(lex), l) == 0
    ensures Sum(SymbolOf(lex), l) == 0
  {
    if l.Cons? { NoKeyNoSymbol(lex, l.tail); }
  }

  /** The shortcut without its repeat suffix, and whether it had one; a wrong suffix is an error. */
  function Body(s: string): Option<(string, bool)> {
    var binding := Trim(s);
    var suffix := FindLast(binding, ':');
    if suffix < 0 then Some((binding, false))
    else if EqualsIgnoringCase(Trim(binding[suffix + 1..]), "no") then Some((Trim(binding[..suffix]), true))
    else None
  }

  ghost function Parse(lex: Lexicon, s: string): Option<Parsed> {
    var body := Body(s);
    if body.None? then None else Meaning(lex, Split(body.value.0), body.value.1)
  }

  // ----- the parser

  /** What the loop of the parser has gathered from the pieces `done`, latest first. */
  ghost predicate Sofar(lex: Lexicon, done: List<string>, modifiers: set<Modifier>, keysym: nat) {
    match done
    case Nil => modifiers == {} && keysym == NO_SYMBOL
    case Cons(piece, before) =>
      var part := Trim(piece);
      if part == "" then Sofar(lex, before, modifiers, keysym)
      else if lex.modifier(part).Some? then
        lex.modifier(part).value in modifiers && Sofar(lex, before, modifiers - {lex.modifier(part).value}, keysym)
      else keysym == Symbol(lex, part) != NO_SYMBOL && Sofar(lex, before, modifiers, NO_SYMBOL)
  }

  /** The pieces done, latest first, put back before those to come. */
  ghost function Back(done: List<string>, todo: List<string>): List<string> {
    match done
    case Nil => todo
    case Cons(piece, before) => Back(before, Cons(piece, todo))
  }

  lemma {:induction false} BackSum(f: string -> nat, done: List<string>, todo: List<string>)
    ensures Sum(f, Back(done, todo)) == Sum(f, done) + Sum(f, todo)
  {
    if done.Cons? { BackSum(f, done.tail, Cons(done.head, todo)); }
  }

  lemma {:induction false} BackLast(done: List<string>, todo: Pieces)
    ensures Back(done, todo).Cons? && Last(Back(done, todo)) == Last(todo)
  {
    if done.Cons? { BackLast(done.tail, Cons(done.head, todo)); }
  }

  lemma {:induction false} SofarModifier(lex: Lexicon, done: List<string>, modifiers: set<Modifier>, keysym: nat,
      m: Modifier)
    requires Sofar(lex, done, modifiers, keysym)
    ensures Sum(IsModifier(lex, m), done) == Bit(m in modifiers)
  {
    if done.Cons? {
      var part := Trim(done.head);
      if part == "" {
        SofarModifier(lex, done.tail, modifiers, keysym, m);
      } else if lex.modifier(part).Some? {
        SofarModifier(lex, done.tail, modifiers - {lex.modifier(part).value}, keysym, m);
      } else {
        SofarModifier(lex, done.tail, modifiers, NO_SYMBOL, m);
      }
    }
  }

  lemma {:induction false} SofarKey(lex: Lexicon, done: List<string>, modifiers: set<Modifier>, keysym: nat)
    requires Sofar(lex, done, modifiers, keysym)
    ensures Sum(IsKey(lex), done) == Bit(keysym != NO_SYMBOL) && Sum(SymbolOf(lex), done) == keysym
  {
    if done.Cons? {
      var part := Trim(done.head);
      if part == "" {
        SofarKey(lex, done.tail, modifiers, keysym);
      } else if lex.modifier(part).Some? {
        SofarKey(lex, done.tail, modifiers - {lex.modifier(part).value}, keysym);
      } else {
        SofarKey(lex, done.tail, modifiers, NO_SYMBOL);
      }
    }
  }

  /** At the end, what was gathered is what the pieces mean. */
  lemma SofarMeaning(lex: Lexicon, done: List<string>, all: Pieces, modifiers: set<Modifier>, keysym: nat,
      noRepeat: bool)
    requires Sofar(lex, done, modifiers, keysym) && all == Back(done, Nil) && Trim(Last(all)) != ""
    ensures Meaning(lex, all, noRepeat) == if keysym == NO_SYMBOL then None
      else Some(Parsed(modifiers, keysym, noRepeat))
  {
    SofarModifiers(lex, done, all, modifiers, keysym);
    BackSum(IsKey(lex), done, Nil);
    BackSum(SymbolOf(lex), done, Nil);
    SofarKey(lex, done, modifiers, keysym);
  }

  lemma SofarModifiers(lex: Lexicon, done: List<string>, all: Pieces, modifiers: set<Modifier>, keysym: nat)
    requires Sofar(lex, done, modifiers, keysym) && all == Back(done, Nil)
    ensures AtMostOnce(lex, all) && ModifiersIn(lex, all) == modifiers
  {
    forall m ensures Sum(IsModifier(lex, m), all) == Bit(m in modifiers) {
      BackSum(IsModifier(lex, m), done, Nil);
      SofarModifier(lex, done, modifiers, keysym, m);
    }
  }

  /** A modifier seen before spoils the whole, */
  lemma ModifierTwice(lex: Lexicon, done: List<string>, piece: string, rest: List<string>, all: Pieces,
      modifiers: set<Modifier>, keysym: nat,
                      m: Modifier, noRepeat: bool)
    requires Sofar(lex, done, modifiers, keysym) && all == Back(done, Cons(piece, rest)) && Names(lex, m, piece)
    requires m in modifiers
    ensures Meaning(lex, all, noRepeat) == None
  {
    BackSum(IsModifier(lex, m), done, Cons(piece, rest));
    SofarModifier(lex, done, modifiers, keysym, m);
    assert Sum(IsModifier(lex, m), all) > 1;
  }

  /** and so does a second key or one that does not exist. */
  lemma WrongKey(lex: Lexicon, done: List<string>, piece: string, rest: List<string>, all: Pieces,
      modifiers: set<Modifier>, keysym: nat,
                 noRepeat: bool)
    requires Sofar(lex, done, modifiers, keysym) && all == Back(done, Cons(piece, rest)) && NamesKey(lex, piece)
    requires keysym != NO_SYMBOL || Symbol(lex, Trim(piece)) == NO_SYMBOL
    ensures Meaning(lex, all, noRepeat) == None
  {
    BackSum(IsKey(lex), done, Cons(piece, rest));
    BackSum(SymbolOf(lex), done, Cons(piece, rest));
    SofarKey(lex, done, modifiers, keysym);
    if Sum(IsKey(lex), rest) == 0 { NoKeyNoSymbol(lex, rest); }
  }

  /** One round of the loop of `ParseShortcut`; false if it gives up. */
  method ParsePiece(lex: Lexicon, ghost done: List<string>, piece: string, ghost rest: List<string>, ghost all: Pieces,
                    modifiers: set<Modifier>, keysym: nat, ghost noRepeat: bool)
    returns (ok: bool, modifiers': set<Modifier>, keysym': nat)
    requires Sofar(lex, done, modifiers, keysym) && all == Back(done, Cons(piece, rest))
    ensures ok ==> Sofar(lex, Cons(piece, done), modifiers', keysym')
    ensures !ok ==> Meaning(lex, all, noRepeat) == None
  {
    ok, modifiers', keysym' := true, modifiers, keysym;
    var part := Trim(piece);
    if part == "" { return; }
    if lex.modifier(part).Some? {
      var m := lex.modifier(part).value;
      if m in modifiers {
        ModifierTwice(lex, done, piece, rest, all, modifiers, keysym, m, noRepeat);
        ok := false;
      } else {
        modifiers' := modifiers + {m};
        assert modifiers' - {m} == modifiers;
      }
    } else {
      keysym' := lex.lower(lex.fromName(part));
      if keysym != NO_SYMBOL || keysym' == NO_SYMBOL {
        WrongKey(lex, done, piece, rest, all, modifiers, keysym, noRepeat);
        ok := false;
      }
    }
  }

  lemma PiecesNext(s: string, start: nat)
    requires start <= |s|
    ensures var i := Find(s, '+', start);
      SplitFrom(s, start) == Cons(s[start..i], if i == |s| then Nil else SplitFrom(s, i + 1))
  {
  }

  lemma NothingLast(lex: Lexicon, done: List<string>, piece: string, all: Pieces, noRepeat: bool)
    requires all == Back(done, Cons(piece, Nil))
    ensures Last(all) == piece && (Trim(piece) == "" ==> Meaning(lex, all, noRepeat) == None)
  {
    BackLast(done, Cons(piece, Nil));
  }

  /** The loop of `ParseShortcut`. */
  method ParsePieces(lex: Lexicon, binding: string, noRepeat: bool) returns (r: Option<Parsed>)
    ensures r == Meaning(lex, Split(binding), noRepeat)
  {
    var modifiers: set<Modifier>, keysym := {}, NO_SYMBOL;
    ghost var all, done := Split(binding), Nil;
    var start := 0;
    while true
      invariant start <= |binding| && all == Back(done, SplitFrom(binding, start))
      invariant Sofar(lex, done, modifiers, keysym)
      decreases |binding| - start
    {
      var separator := Find(binding, '+', start);
      var piece := binding[start..separator];
      ghost var rest := if separator == |binding| then Nil else SplitFrom(binding, separator + 1);
      PiecesNext(binding, start);
      if separator == |binding| {
        NothingLast(lex, done, piece, all, noRepeat);
        if Trim(piece) == "" { return None; }
      }
      var ok;
      ok, modifiers, keysym := ParsePiece(lex, done, piece, rest, all, modifiers, keysym, noRepeat);
      if !ok { return None; }
      done := Cons(piece, done);
      if separator == |binding| { break; }
      start := separator + 1;
    }
    SofarMeaning(lex, done, all, modifiers, keysym, noRepeat);
    if keysym == NO_SYMBOL { return None; }
    return Some(Parsed(modifiers, keysym, noRepeat));
  }

  lemma EmptyBody(lex: Lexicon, noRepeat: bool)
    ensures Meaning(lex, Split(""), noRepeat) == None
  {
    assert Split("") == Cons("", Nil);
    assert Trim("") == "";
  }

  /** The suffix part of `ParseShortcut`. */
  method StripSuffix(shortcut: string) returns (r: Option<(string, bool)>)
    ensures r == Body(shortcut)
  {
    var binding := Trim(shortcut);
    var suffix := FindLast(binding, ':');
    if suffix < 0 { return Some((binding, false)); }
    if !EqualsIgnoringCase(Trim(binding[suffix + 1..]), "no") { return None; }
    return Some((Trim(binding[..suffix]), true));
  }

  /** `ParseShortcut`. */
  method ParseShortcut(lex: Lexicon, shortcut: string) returns (r: Option<Parsed>)
    ensures r == Parse(lex, shortcut)
  {
    var body := StripSuffix(shortcut);
    if body.None? { return None; }
    var (binding, noRepeat) := body.value;
    if binding == "" {
      EmptyBody(lex, noRepeat);
      return None;
    }
    r := ParsePieces(lex, binding, noRepeat);
  }

  // ----- the meaning is what the pieces say, in any order and with any spacing

  ghost predicate SameSums(lex: Lexicon, a: List<string>, b: List<string>) {
    && (forall m :: Sum(IsModifier(lex, m), a) == Sum(IsModifier(lex, m), b))
    && Sum(IsKey(lex), a) == Sum(IsKey(lex), b) && Sum(SymbolOf(lex), a) == Sum(SymbolOf(lex), b)
  }

  /** The meaning is read off the counts and the end of the last piece. */
  lemma MeaningOf(lex: Lexicon, a: Pieces, b: Pieces, noRepeat: bool)
    requires SameSums(lex, a, b) && (Trim(Last(a)) == "" <==> Trim(Last(b)) == "")
    ensures Meaning(lex, a, noRepeat) == Meaning(lex, b, noRepeat)
  {
    assert ModifiersIn(lex, a) == ModifiersIn(lex, b);
  }

  ghost function Bag(l: List<string>): multiset<string> {
    match l
    case Nil => multiset{}
    case Cons(x, rest) => multiset{x} + Bag(rest)
  }

  ghost function Remove(l: List<string>, x: string): List<string> {
    match l
    case Nil => Nil
    case Cons(y, rest) => if x == y then rest else Cons(y, Remove(rest, x))
  }

  lemma {:induction false} RemoveOne(f: string -> nat, l: List<string>, x: string)
    requires x in Bag(l)
    ensures Bag(Remove(l, x)) == Bag(l) - multiset{x} && Sum(f, l) == f(x) + Sum(f, Remove(l, x))
  {
    if l.head != x { RemoveOne(f, l.tail, x); }
  }

  lemma BagNil(l: List<string>)
    ensures Bag(l) == multiset{} <==> l.Nil?
  {
    if l.Cons? { assert l.head in Bag(l); }
  }

  lemma {:induction false} SumPermuted(f: string -> nat, a: List<string>, b: List<string>)
    requires Bag(a) == Bag(b)
    ensures Sum(f, a) == Sum(f, b)
  {
    match a {
      case Nil =>
        BagNil(b);
      case Cons(x, rest) =>
        assert x in Bag(b);
        RemoveOne(f, b, x);
        assert Bag(rest) == Bag(a) - multiset{x};
        SumPermuted(f, rest, Remove(b, x));
    }
  }

  lemma MeaningPermuted(lex: Lexicon, a: Pieces, b: Pieces, noRepeat: bool)
    requires Bag(a) == Bag(b) && Trim(Last(a)) != "" && Trim(Last(b)) != ""
    ensures Meaning(lex, a, noRepeat) == Meaning(lex, b, noRepeat)
  {
    forall m ensures Sum(IsModifier(lex, m), a) == Sum(IsModifier(lex, m), b) { SumPermuted(IsModifier(lex, m), a, b); }
    SumPermuted(IsKey(lex), a, b);
    SumPermuted(SymbolOf(lex), a, b);
    MeaningOf(lex, a, b, noRepeat);
  }

  ghost predicate Alike(a: List<string>, b: List<string>) {
    match a
    case Nil => b.Nil?
    case Cons(x, rest) => b.Cons? && Trim(x) == Trim(b.head) && Alike(rest, b.tail)
  }

  lemma {:induction false} AlikeSame(a: List<string>)
    ensures Alike(a, a)
  {
    if a.Cons? { AlikeSame(a.tail); }
  }

  lemma {:induction false} AlikeTrans(a: List<string>, b: List<string>, c: List<string>)
    requires Alike(a, b) && Alike(b, c)
    ensures Alike(a, c)
  {
    if a.Cons? { AlikeTrans(a.tail, b.tail, c.tail); }
  }

  lemma {:induction false} AlikeLast(a: Pieces, b: Pieces)
    requires Alike(a, b)
    ensures Trim(Last(a)) == Trim(Last(b))
  {
    if a.tail.Cons? { AlikeLast(a.tail, b.tail); }
  }

  lemma {:induction false} AlikeSums(lex: Lexicon, a: List<string>, b: List<string>)
    requires Alike(a, b)
    ensures SameSums(lex, a, b)
  {
    if a.Cons? { AlikeSums(lex, a.tail, b.tail); }
  }

  lemma MeaningAlike(lex: Lexicon, a: Pieces, b: Pieces, noRepeat: bool)
    requires Alike(a, b)
    ensures Meaning(lex, a, noRepeat) == Meaning(lex, b, noRepeat)
  {
    AlikeSums(lex, a, b);
    AlikeLast(a, b);
    MeaningOf(lex, a, b, noRepeat);
  }

  ghost function Append(a: List<string>, b: Pieces): Pieces {
    match a
    case Nil => b
    case Cons(x, rest) => Cons(x, Append(rest, b))
  }

  lemma {:induction false} SumAppend(f: string -> nat, a: List<string>, b: Pieces)
    ensures Sum(f, Append(a, b)) == Sum(f, a) + Sum(f, b)
  {
    if a.Cons? { SumAppend(f, a.tail, b); }
  }

  lemma {:induction false} LastAppend(a: List<string>, b: Pieces)
    ensures Last(Append(a, b)) == Last(b)
  {
    if a.Cons? { LastAppend(a.tail, b); }
  }

  lemma SumSkips(f: string -> nat, a: List<string>, b: Pieces)
    requires f("") == 0
    ensures Sum(f, Append(a, Cons("", b))) == Sum(f, Append(a, b))
  {
    SumAppend(f, a, Cons("", b));
    SumAppend(f, a, b);
  }

  /** An empty piece counts for nothing unless it is the last. */
  lemma MeaningSkips(lex: Lexicon, a: List<string>, b: Pieces, noRepeat: bool)
    ensures Meaning(lex, Append(a, Cons("", b)), noRepeat) == Meaning(lex, Append(a, b), noRepeat)
  {
    assert Trim("") == "";
    forall m ensures Sum(IsModifier(lex, m), Append(a, Cons("", b))) == Sum(IsModifier(lex, m), Append(a, b)) {
      SumSkips(IsModifier(lex, m), a, b);
    }
    SumSkips(IsKey(lex), a, b);
    SumSkips(SymbolOf(lex), a, b);
    LastAppend(a, Cons("", b));
    LastAppend(a, b);
    MeaningOf(lex, Append(a, Cons("", b)), Append(a, b), noRepeat);
  }

  // ----- splitting

  lemma {:induction false} FindPrefix(a: string, b: string, start: nat)
    requires start <= |a|
    ensures Find(a + "+" + b, '+', start) == Find(a, '+', start)
    decreases |a| - start
  {
    var s := a + "+" + b;
    assert s[|a|] == '+';
    if start < |a| {
      assert s[start] == a[start];
      if a[start] != '+' { FindPrefix(a, b, start + 1); }
    }
  }

  lemma {:induction false} FindShift(pre: string, b: string, k: nat)
    requires k <= |b|
    ensures Find(pre + b, '+', |pre| + k) == |pre| + Find(b, '+', k)
    decreases |b| - k
  {
    if k < |b| {
      assert (pre + b)[|pre| + k] == b[k];
      if b[k] != '+' { FindShift(pre, b, k + 1); }
    }
  }

  lemma SliceOf<T>(pre: seq<T>, b: seq<T>, k: nat, i: nat)
    requires k <= i <= |b|
    ensures (pre + b)[|pre| + k..|pre| + i] == b[k..i]
  {
  }

  /** What comes before the start does not matter. */
  lemma {:induction false} SplitShift(pre: string, b: string, k: nat)
    requires k <= |b|
    ensures SplitFrom(pre + b, |pre| + k) == SplitFrom(b, k)
    decreases |b| - k
  {
    FindShift(pre, b, k);
    var s, n, i := pre + b, |pre|, Find(b, '+', k);
    SliceOf(pre, b, k, i);
    if i < |b| { SplitShift(pre, b, i + 1); }
    SameSplit(s, n + k, b, k);
  }

  lemma SameSplit(s: string, start: nat, t: string, start': nat)
    requires start <= |s| && start' <= |t|
    requires var i, j := Find(s, '+', start), Find(t, '+', start');
      && (i == |s| <==> j == |t|) && s[start..i] == t[start'..j]
      && (i < |s| ==> SplitFrom(s, i + 1) == SplitFrom(t, j + 1))
    ensures SplitFrom(s, start) == SplitFrom(t, start')
  {
  }

  lemma {:induction false} SplitPlusFrom(a: string, b: string, start: nat)
    requires start <= |a|
    ensures SplitFrom(a + "+" + b, start) == Append(SplitFrom(a, start), Split(b))
    decreases |a| - start
  {
    var s, i := a + "+" + b, Find(a, '+', start);
    FindPrefix(a, b, start);
    assert s[start..i] == a[start..i];
    PiecesNext(s, start);
    PiecesNext(a, start);
    if i == |a| { SplitShift(a + "+", b, 0); } else { SplitPlusFrom(a, b, i + 1); }
  }

  lemma SplitPlus(a: string, b: string)
    ensures Split(a + "+" + b) == Append(Split(a), Split(b))
  {
    SplitPlusFrom(a, b, 0);
  }

  lemma {:induction false} NoPlus(s: string, start: nat)
    requires start <= |s| && '+' !in s[start..]
    ensures Find(s, '+', start) == |s|
    decreases |s| - start
  {
    if start < |s| {
      assert s[start] == s[start..][0] && s[start + 1..] == s[start..][1..];
      NoPlus(s, start + 1);
    }
  }

  lemma SplitOne(s: string)
    requires '+' !in s
    ensures Split(s) == Cons(s, Nil)
  {
    NoPlus(s, 0);
    assert s[0..|s|] == s;
  }

  // ----- trimming

  lemma {:induction false} TrimBack(s: string)
    requires s != "" && Space(s[|s| - 1])
    ensures Trim(s) == Trim(s[..|s| - 1])
  {
    var n := |s| - 1;
    if Space(s[0]) && n > 0 {
      TrimBack(s[1..]);
      assert s[1..][..n - 1] == s[..n][1..];
    } else if n == 0 {
      assert s[1..] == "" && s[..0] == "";
    }
  }

  lemma AlikeFront(s: string)
    requires s != "" && Space(s[0])
    ensures Alike(Split(s), Split(s[1..]))
  {
    var i := Find(s, '+', 1);
    assert Find(s, '+', 0) == i;
    PiecesNext(s, 0);
    PiecesNext(s, 1);
    assert s[0..i][1..] == s[1..i] && s[0..i] != "";
    AlikeSame(SplitFrom(s, 1).tail);
    DropOne(s);
  }

  lemma DropOne(s: string)
    requires s != ""
    ensures SplitFrom(s, 1) == Split(s[1..])
  {
    SplitShift(s[..1], s[1..], 0);
    assert s[..1] + s[1..] == s;
  }

  lemma {:induction false} FindCut(s: string, start: nat)
    requires s != "" && s[|s| - 1] != '+' && start < |s|
    ensures var n := |s| - 1; Find(s[..n], '+', start) == if Find(s, '+', start) == |s| then n else Find(s, '+', start)
    decreases |s| - start
  {
    var n := |s| - 1;
    if start < n && s[start] != '+' { FindCut(s, start + 1); }
    if start == n { assert Find(s, '+', start) == Find(s, '+', start + 1) == |s|; }
  }

  lemma Slices<T>(s: seq<T>, start: nat, n: nat)
    requires start <= n <= |s|
    ensures s[start..][..n - start] == s[..n][start..n] == s[start..n]
  {
  }

  lemma TrimCut(s: string, start: nat)
    requires s != "" && Space(s[|s| - 1]) && start < |s|
    ensures Trim(s[start..]) == Trim(s[start..|s| - 1])
  {
    TrimBack(s[start..]);
    Slices(s, start, |s| - 1);
  }

  lemma AlikeEnd(s: string, start: nat)
    requires s != "" && Space(s[|s| - 1]) && start < |s| && Find(s, '+', start) == |s|
    ensures Alike(SplitFrom(s, start), SplitFrom(s[..|s| - 1], start))
  {
    var n, cut := |s| - 1, s[..|s| - 1];
    FindCut(s, start);
    TrimCut(s, start);
    Slices(s, start, n);
    assert s[start..|s|] == s[start..];
    assert SplitFrom(s, start) == Cons(s[start..], Nil) && SplitFrom(cut, start) == Cons(s[start..n], Nil);
  }

  lemma AlikeNext(s: string, t: string, start: nat)
    requires start <= |s| && start <= |t|
    requires var i := Find(s, '+', start);
      && i < |s| && i < |t| && Find(t, '+', start) == i && s[start..i] == t[start..i]
      && Alike(SplitFrom(s, i + 1), SplitFrom(t, i + 1))
    ensures Alike(SplitFrom(s, start), SplitFrom(t, start))
  {
  }

  lemma {:induction false} AlikeBack(s: string, start: nat)
    requires s != "" && Space(s[|s| - 1]) && start < |s|
    ensures Alike(SplitFrom(s, start), SplitFrom(s[..|s| - 1], start))
    decreases |s| - start
  {
    var i := Find(s, '+', start);
    if i == |s| {
      AlikeEnd(s, start);
    } else {
      assert i != |s| - 1;
      AlikeBack(s, i + 1);
      FindCut(s, start);
      Slices(s, start, i);
      Slices(s[..|s| - 1], start, i);
      AlikeNext(s, s[..|s| - 1], start);
    }
  }

  /** Spaces around the whole do not matter. */
  lemma {:induction false} AlikeTrim(s: string)
    ensures Alike(Split(s), Split(Trim(s)))
  {
    if s != "" && Space(s[0]) {
      AlikeFront(s);
      AlikeTrim(s[1..]);
      AlikeTrans(Split(s), Split(s[1..]), Split(Trim(s)));
    } else if s != "" && Space(s[|s| - 1]) {
      AlikeBack(s, 0);
      AlikeTrim(s[..|s| - 1]);
      AlikeTrans(Split(s), Split(s[..|s| - 1]), Split(Trim(s)));
    } else {
      AlikeSame(Split(s));
    }
  }

  // ----- the suffix

  ghost function TrimFront(s: string): (r: string) {
    if s != "" && Space(s[0]) then TrimFront(s[1..]) else s
  }

  ghost function TrimEnd(s: string): (r: string)
    ensures r <= s
  {
    if s != "" && Space(s[|s| - 1]) then TrimEnd(s[..|s| - 1]) else s
  }

  lemma {:induction false} TrimTwice(s: string)
    ensures Trim(TrimFront(s)) == Trim(s) && Trim(TrimEnd(s)) == Trim(s)
  {
    if s != "" && Space(s[0]) { TrimTwice(s[1..]); }
    if s != "" && Space(s[|s| - 1]) {
      TrimTwice(s[..|s| - 1]);
      TrimBack(s);
    }
  }

  /** A character that is no space stays, with what lies between it and the ends. */
  lemma {:induction false} TrimAround(a: string, c: char, b: string)
    requires !Space(c)
    ensures Trim(a + [c] + b) == TrimFront(a) + [c] + TrimEnd(b)
    decreases |a| + |b|
  {
    var s := a + [c] + b;
    if a != "" && Space(a[0]) {
      assert s[0] == a[0] && s[1..] == a[1..] + [c] + b;
      TrimAround(a[1..], c, b);
    } else {
      assert !Space(s[0]) by { assert s[0] == if a == "" then c else a[0]; }
      if b != "" && Space(b[|b| - 1]) {
        assert s[|s| - 1] == b[|b| - 1] && s[..|s| - 1] == a + [c] + b[..|b| - 1];
        TrimAround(a, c, b[..|b| - 1]);
      } else {
        assert !Space(s[|s| - 1]) by { assert s[|s| - 1] == if b == "" then c else b[|b| - 1]; }
      }
    }
  }

  lemma {:induction false} LastColon(a: string, b: string)
    requires ':' !in b
    ensures FindLast(a + ":" + b, ':') == |a|
  {
    var s := a + ":" + b;
    if b == "" {
      assert s[|s| - 1] == ':';
    } else {
      assert s[|s| - 1] == b[|b| - 1] && s[..|s| - 1] == a + ":" + b[..|b| - 1];
      LastColon(a, b[..|b| - 1]);
    }
  }

  lemma {:induction false} NoColon(s: string)
    requires ':' !in s
    ensures FindLast(s, ':') == -1
  {
    if s != "" { NoColon(s[..|s| - 1]); }
  }

  lemma {:induction false} TrimKeeps(s: string, c: char)
    requires !Space(c)
    ensures c in s <==> c in Trim(s)
  {
    if s != "" && Space(s[0]) {
      assert s == [s[0]] + s[1..];
      TrimKeeps(s[1..], c);
    } else if s != "" && Space(s[|s| - 1]) {
      assert s == s[..|s| - 1] + [s[|s| - 1]];
      TrimKeeps(s[..|s| - 1], c);
    }
  }

  lemma PlainBody(s: string)
    requires ':' !in s
    ensures Body(s) == Some((Trim(s), false))
  {
    TrimKeeps(s, ':');
    NoColon(Trim(s));
  }

  lemma SuffixBody(a: string, b: string)
    requires ':' !in b
    ensures Body(a + ":" + b) == if EqualsIgnoringCase(Trim(b), "no") then Some((Trim(a), true)) else None
  {
    TrimAround(a, ':', b);
    var x, y := TrimFront(a), TrimEnd(b);
    LastColon(x, y);
    var s := x + ":" + y;
    assert s[..|x|] == x && s[|x| + 1..] == y;
    TrimTwice(a);
    TrimTwice(b);
  }

  lemma LastPart(s: string, c: char) returns (a: string, b: string)
    requires c in s
    ensures s == a + [c] + b && c !in b
  {
    if s[|s| - 1] == c {
      a, b := s[..|s| - 1], "";
    } else {
      assert s == s[..|s| - 1] + [s[|s| - 1]];
      a, b := LastPart(s[..|s| - 1], c);
      b := b + [s[|s| - 1]];
    }
  }

  lemma PlusIsNotNo(s: string)
    requires '+' in s
    ensures !EqualsIgnoringCase(Trim(s), "no")
  {
    TrimKeeps(s, '+');
    var t := Trim(s);
    var i :| 0 <= i < |t| && t[i] == '+';
  }

  // ----- doubled plus signs

  lemma TrimmedMeaning(lex: Lexicon, s: string, noRepeat: bool)
    ensures Meaning(lex, Split(Trim(s)), noRepeat) == Meaning(lex, Split(s), noRepeat)
  {
    AlikeTrim(s);
    MeaningAlike(lex, Split(s), Split(Trim(s)), noRepeat);
  }

  lemma SplitDouble(u: string, v: string)
    ensures Split(u + "++" + v) == Append(Split(u), Cons("", Split(v)))
  {
    assert u + "++" + v == u + "+" + ("" + "+" + v);
    SplitPlus(u, "" + "+" + v);
    SplitPlus("", v);
    SplitOne("");
  }

  lemma DoubledBody(lex: Lexicon, u: string, v: string, noRepeat: bool)
    ensures Meaning(lex, Split(Trim(u + "+" + v)), noRepeat) == Meaning(lex, Split(Trim(u + "++" + v)), noRepeat)
  {
    TrimmedMeaning(lex, u + "+" + v, noRepeat);
    TrimmedMeaning(lex, u + "++" + v, noRepeat);
    SplitPlus(u, v);
    SplitDouble(u, v);
    MeaningSkips(lex, Split(u), Split(v), noRepeat);
  }

  /** Doubling any plus sign of any string changes nothing. */
  lemma DoublingPlus(lex: Lexicon, u: string, v: string)
    ensures Parse(lex, u + "++" + v) == Parse(lex, u + "+" + v)
  {
    if ':' in v {
      var x, w := LastPart(v, ':');
      assert u + "+" + v == (u + "+" + x) + ":" + w && u + "++" + v == (u + "++" + x) + ":" + w;
      SuffixBody(u + "+" + x, w);
      SuffixBody(u + "++" + x, w);
      DoubledBody(lex, u, x, true);
    } else if ':' in u {
      var x, w := LastPart(u, ':');
      assert u + "+" + v == x + ":" + (w + "+" + v) && u + "++" + v == x + ":" + (w + "++" + v);
      SuffixBody(x, w + "+" + v);
      SuffixBody(x, w + "++" + v);
      assert (w + "+" + v)[|w|] == '+' && (w + "++" + v)[|w|] == '+';
      PlusIsNotNo(w + "+" + v);
      PlusIsNotNo(w + "++" + v);
    } else {
      PlainBody(u + "+" + v);
      PlainBody(u + "++" + v);
      DoubledBody(lex, u, v, false);
    }
  }

  // ----- permuted parts

  ghost function Join(parts: Pieces): string {
    if parts.tail.Nil? then parts.head else parts.head + "+" + Join(parts.tail)
  }

  ghost predicate Plain(s: string) {
    '+' !in s && ':' !in s
  }

  ghost predicate AllPlain(parts: List<string>) {
    parts.Cons? ==> Plain(parts.head) && AllPlain(parts.tail)
  }

  lemma {:induction false} SplitJoin(parts: Pieces)
    requires AllPlain(parts)
    ensures Split(Join(parts)) == parts && ':' !in Join(parts)
  {
    SplitOne(parts.head);
    if parts.tail.Cons? {
      SplitJoin(parts.tail);
      SplitPlus(parts.head, Join(parts.tail));
    }
  }

  /** What joined parts mean, with or without a suffix. */
  lemma ParseJoined(lex: Lexicon, parts: Pieces, suffix: string)
    requires AllPlain(parts)
    ensures Parse(lex, Join(parts)) == Meaning(lex, parts, false)
    ensures ':' !in suffix ==>
      Parse(lex, Join(parts) + ":" + suffix) == if EqualsIgnoringCase(Trim(suffix), "no") then Meaning(lex, parts, true)
        else None
  {
    SplitJoin(parts);
    PlainBody(Join(parts));
    TrimmedMeaning(lex, Join(parts), false);
    TrimmedMeaning(lex, Join(parts), true);
    if ':' !in suffix { SuffixBody(Join(parts), suffix); }
  }

  lemma {:induction false} PlainIff(parts: List<string>)
    ensures AllPlain(parts) <==> forall x :: x in Bag(parts) ==> Plain(x)
  {
    if parts.Cons? { PlainIff(parts.tail); }
  }

  /** The parts of a shortcut may come in any order, spaces and suffix included, as long as
      neither order ends in an empty part. */
  lemma PermutingParts(lex: Lexicon, a: Pieces, b: Pieces, suffix: string)
    requires Bag(a) == Bag(b) && ':' !in suffix && AllPlain(a) && Trim(Last(a)) != "" && Trim(Last(b)) != ""
    ensures Parse(lex, Join(a)) == Parse(lex, Join(b))
    ensures Parse(lex, Join(a) + ":" + suffix) == Parse(lex, Join(b) + ":" + suffix)
  {
    PlainIff(a);
    PlainIff(b);
    ParseJoined(lex, a, suffix);
    ParseJoined(lex, b, suffix);
    MeaningPermuted(lex, a, b, false);
    MeaningPermuted(lex, a, b, true);
  }

  // ----- printing

  /** The table of `BuildShortcut`. */
  function Table(): seq<(Modifier, string)> {
    [(Shift, "Shift"), (Caps, "Caps"), (Ctrl, "Ctrl"), (Alt, "Alt"), (Mod2, "Mod2"), (Mod3, "Mod3"), (Logo, "Win"),
      (Mod5, "Mod5")]
  }

  lemma Differs(a: string, b: string, i: nat)
    requires i < |a| == |b| && Lower(a[i]) != Lower(b[i])
    ensures !EqualsIgnoringCase(a, b)
  {
  }

  lemma ReadShift()
    ensures NamedBefore("Shift") == Some(Shift)
  {
    var a, b := "Shift", "shift";
    assert Lower(a[0]) == b[0] && Lower(a[1]) == b[1] && Lower(a[2]) == b[2] && Lower(a[3]) == b[3] &&
      Lower(a[4]) == b[4];
  }

  lemma ReadCaps()
    ensures NamedBefore("Caps") == Some(Caps)
  {
    var a, b := "Caps", "caps";
    assert Lower(a[0]) == b[0] && Lower(a[1]) == b[1] && Lower(a[2]) == b[2] && Lower(a[3]) == b[3];
  }

  lemma ReadCtrl()
    ensures NamedBefore("Ctrl") == Some(Ctrl)
  {
    var a, b := "Ctrl", "ctrl";
    Differs(a, "caps", 1);
    Differs(a, "lock", 0);
    assert Lower(a[0]) == b[0] && Lower(a[1]) == b[1] && Lower(a[2]) == b[2] && Lower(a[3]) == b[3];
  }

  lemma ReadAlt()
    ensures NamedBefore("Alt") == Some(Alt)
  {
    var a, b := "Alt", "alt";
    assert Lower(a[0]) == b[0] && Lower(a[1]) == b[1] && Lower(a[2]) == b[2];
  }

  lemma ReadMod2()
    ensures NamedBefore("Mod2") == Some(Mod2)
  {
    var a, b := "Mod2", "mod2";
    Differs(a, "caps", 0);
    Differs(a, "lock", 0);
    Differs(a, "ctrl", 0);
    Differs(a, "mod1", 3);
    assert Lower(a[0]) == b[0] && Lower(a[1]) == b[1] && Lower(a[2]) == b[2] && Lower(a[3]) == b[3];
  }

  lemma ReadMod3()
    ensures NamedBefore("Mod3") == Some(Mod3)
  {
    var a, b := "Mod3", "mod3";
    Differs(a, "caps", 0);
    Differs(a, "lock", 0);
    Differs(a, "ctrl", 0);
    Differs(a, "mod1", 3);
    Differs(a, "mod2", 3);
    assert Lower(a[0]) == b[0] && Lower(a[1]) == b[1] && Lower(a[2]) == b[2] && Lower(a[3]) == b[3];
  }

  lemma NotBefore(a: string)
    requires (|a| == 3 && Lower(a[0]) == 'w') || (|a| == 4 && Lower(a[0]) == 'm' && a[3] == '5') || |a| == 16
    ensures NamedBefore(a) == None
  {
    if |a| == 3 {
      Differs(a, "alt", 0);
      Differs(a, "num", 0);
    } else if |a| == 4 {
      Differs(a, "caps", 0);
      Differs(a, "lock", 0);
      Differs(a, "ctrl", 0);
      Differs(a, "mod1", 3);
      Differs(a, "mod2", 3);
      Differs(a, "mod3", 3);
    }
  }

  lemma ReadWin()
    ensures NamedAfter("Win") == Some(Logo)
  {
    var a, b := "Win", "win";
    assert Lower(a[0]) == b[0] && Lower(a[1]) == b[1] && Lower(a[2]) == b[2];
  }

  lemma ReadMod5()
    ensures NamedAfter("Mod5") == Some(Mod5)
  {
    var a, b := "Mod5", "mod5";
    Differs(a, "logo", 0);
    Differs(a, "meta", 1);
    Differs(a, "mod4", 3);
    assert Lower(a[0]) == b[0] && Lower(a[1]) == b[1] && Lower(a[2]) == b[2] && Lower(a[3]) == b[3];
  }

  /** What the parser makes of the printed modifiers. */
  lemma TableRead(i: nat)
    requires i < |Table()|
    ensures ModifierForName(Table()[i].1) == Some(Table()[i].0)
  {
    match i
    case 0 => ReadShift();
    case 1 => ReadCaps();
    case 2 => ReadCtrl();
    case 3 => ReadAlt();
    case 4 => ReadMod2();
    case 5 => ReadMod3();
    case 6 => NotBefore("Win"); ReadWin();
    case _ => NotBefore("Mod5"); ReadMod5();
  }

  lemma TablePlain(i: nat)
    requires i < |Table()|
    ensures Word(Table()[i].1) && Order(Table()[i].0) == i
  {
  }

  /** A word that survives splitting and trimming. */
  ghost predicate Word(s: string) {
    Plain(s) && Trim(s) == s != ""
  }

  function Order(m: Modifier): (i: nat)
    ensures i < 8
  {
    match m
    case Shift => 0
    case Caps => 1
    case Ctrl => 2
    case Alt => 3
    case Mod2 => 4
    case Mod3 => 5
    case Logo => 6
    case Mod5 => 7
  }

  /** The printed names cover the modifiers in order, and each is read back as its modifier. */
  ghost predicate KnowsNames(lex: Lexicon) {
    && |lex.printed| == 8
    && forall i :: 0 <= i < 8 ==>
      Order(lex.printed[i].0) == i && Word(lex.printed[i].1) && lex.modifier(lex.printed[i].1) == Some(lex.printed[i].0)
  }

  /** The two tables of the source agree. */
  lemma TablesAgree(lex: Lexicon)
    requires lex.printed == Table() && forall i :: 0 <= i < 8 ==>
      lex.modifier(Table()[i].1) == ModifierForName(Table()[i].1)
    ensures KnowsNames(lex)
  {
    forall i | 0 <= i < 8
      ensures Order(lex.printed[i].0) == i && Word(lex.printed[i].1)
      ensures lex.modifier(lex.printed[i].1) == Some(lex.printed[i].0)
    {
      TableRead(i);
      TablePlain(i);
    }
  }

  /** The printed names of the modifiers from the `i`th on, followed by the key. */
  ghost function NamesFrom(lex: Lexicon, modifiers: set<Modifier>, i: nat, key: string): Pieces
    requires i <= |lex.printed|
    decreases |lex.printed| - i
  {
    if i == |lex.printed| then Cons(key, Nil)
    else if lex.printed[i].0 in modifiers then Cons(lex.printed[i].1, NamesFrom(lex, modifiers, i + 1, key))
    else NamesFrom(lex, modifiers, i + 1, key)
  }

  ghost function Printed(lex: Lexicon, modifiers: set<Modifier>, keysym: nat): string {
    var name := lex.name(lex.lower(keysym));
    if name == "" then "" else Join(NamesFrom(lex, modifiers, 0, name))
  }

  /** What is printed so far, before more is joined to it. */
  function Before(s: string): string {
    if s == "" then "" else s + "+"
  }

  /** `BuildShortcut`: the names of the modifiers in order, then the key, joined by plus signs. */
  method BuildShortcut(lex: Lexicon, modifiers: set<Modifier>, keysym: nat) returns (shortcut: string)
    requires KnowsNames(lex)
    ensures shortcut == Printed(lex, modifiers, keysym)
  {
    ghost var key := lex.name(lex.lower(keysym));
    shortcut := "";
    for i := 0 to |lex.printed|
      invariant Before(shortcut) + Join(NamesFrom(lex, modifiers, i, key)) == Join(NamesFrom(lex, modifiers, 0, key))
    {
      var (modifier, name) := lex.printed[i];
      if modifier !in modifiers { continue; }
      JoinNext(Before(shortcut), name, NamesFrom(lex, modifiers, i + 1, key));
      assert Word(name);
      shortcut := Joined(shortcut, name);
    }
    var name := lex.name(lex.lower(keysym));
    if name == "" { return ""; }
    shortcut := Joined(shortcut, name);
  }

  method Joined(shortcut: string, name: string) returns (s: string)
    ensures s == Before(shortcut) + name
  {
    s := shortcut;
    if s != "" { s := s + "+"; }
    s := s + name;
  }

  lemma JoinNext(before: string, name: string, rest: Pieces)
    ensures before + Join(Cons(name, rest)) == (before + name) + "+" + Join(rest)
  {
    assert before + (name + "+" + Join(rest)) == (before + name) + "+" + Join(rest);
  }

  lemma {:induction false} NamesPlain(lex: Lexicon, modifiers: set<Modifier>, i: nat, key: string)
    requires KnowsNames(lex) && i <= |lex.printed| && Word(key)
    ensures AllPlain(NamesFrom(lex, modifiers, i, key)) && Last(NamesFrom(lex, modifiers, i, key)) == key
    decreases |lex.printed| - i
  {
    if i < |lex.printed| { NamesPlain(lex, modifiers, i + 1, key); }
  }

  lemma {:induction false} NamesModifier(lex: Lexicon, modifiers: set<Modifier>, i: nat, key: string, m: Modifier)
    requires KnowsNames(lex) && i <= |lex.printed|
    ensures Sum(IsModifier(lex, m), NamesFrom(lex, modifiers, i, key)) ==
      Bit(m in modifiers && i <= Order(m)) + Bit(Names(lex, m, key))
    decreases |lex.printed| - i
  {
    if i < |lex.printed| {
      NamesModifier(lex, modifiers, i + 1, key, m);
      SameOrder(lex.printed[i].0, m);
      assert Word(lex.printed[i].1);
    }
  }

  lemma SameOrder(m: Modifier, n: Modifier)
    ensures Order(m) == Order(n) <==> m == n
  {
  }

  lemma {:induction false} NamesKeys(lex: Lexicon, modifiers: set<Modifier>, i: nat, key: string)
    requires KnowsNames(lex) && i <= |lex.printed|
    ensures Sum(IsKey(lex), NamesFrom(lex, modifiers, i, key)) == Bit(NamesKey(lex, key))
    ensures Sum(SymbolOf(lex), NamesFrom(lex, modifiers, i, key)) == SymbolIn(lex, key)
    decreases |lex.printed| - i
  {
    if i < |lex.printed| {
      NamesKeys(lex, modifiers, i + 1, key);
      assert Word(lex.printed[i].1);
    }
  }

  /** A keysym whose printed name the library reads back and the grammar can hold. */
  ghost predicate Admissible(lex: Lexicon, keysym: nat) {
    var name := lex.name(lex.lower(keysym));
    && name != "" && Plain(name) && (forall i :: 0 <= i < |name| ==> !Space(name[i]))
    && Symbol(lex, name) == lex.lower(keysym) != NO_SYMBOL
  }

  /** Printing and parsing undo each other, for every set of modifiers and every admissible
      keysym, if and only if the name of the key is not also the name of a modifier; otherwise
      what is printed is refused. */
  lemma RoundTrip(lex: Lexicon, modifiers: set<Modifier>, keysym: nat)
    requires KnowsNames(lex) && Admissible(lex, keysym)
    ensures Parse(lex, Printed(lex, modifiers, keysym)) == Some(Parsed(modifiers, lex.lower(keysym), false))
      <==> lex.modifier(lex.name(lex.lower(keysym))) == None
    ensures lex.modifier(lex.name(lex.lower(keysym))).Some? ==> Parse(lex, Printed(lex, modifiers, keysym)) == None
  {
    var name := lex.name(lex.lower(keysym));
    var parts := NamesFrom(lex, modifiers, 0, name);
    assert Word(name);
    NamesPlain(lex, modifiers, 0, name);
    ParseJoined(lex, parts, "");
    NamesKeys(lex, modifiers, 0, name);
    if lex.modifier(name) == None {
      forall m ensures Sum(IsModifier(lex, m), parts) == Bit(m in modifiers) {
        NamesModifier(lex, modifiers, 0, name, m);
      }
      assert ModifiersIn(lex, parts) == modifiers;
    }
  }

  /** The words of the source: its two tables and a keysym library. */
  function Standard(fromName: string -> nat, lower: nat -> nat, name: nat -> string): Lexicon {
    Lexicon(s => ModifierForName(s), Table(), fromName, lower, name)
  }

  lemma StandardRoundTrip(fromName: string -> nat, lower: nat -> nat, name: nat -> string, modifiers: set<Modifier>,
      keysym: nat)
    requires Admissible(Standard(fromName, lower, name), keysym)
    ensures var lex := Standard(fromName, lower, name);
      && KnowsNames(lex)
      && (Parse(lex, Printed(lex, modifiers, keysym)) == Some(Parsed(modifiers, lower(keysym), false))
          <==> ModifierForName(name(lower(keysym))) == None)
      && (ModifierForName(name(lower(keysym))).Some? ==> Parse(lex, Printed(lex, modifiers, keysym)) == None)
  {
    var lex := Standard(fromName, lower, name);
    TablesAgree(lex);
    RoundTrip(lex, modifiers, keysym);
  }

  /** The level-3 shift key is no modifier to the capture, yet its name is one to the parser:
      what is printed for it is refused. */
  lemma LevelShiftRefused(fromName: string -> nat, lower: nat -> nat, name: nat -> string, modifiers: set<Modifier>,
      keysym: nat)
    requires Admissible(Standard(fromName, lower, name), keysym) && name(lower(keysym)) == "ISO_Level3_Shift"
    ensures var lex := Standard(fromName, lower, name); Parse(lex, Printed(lex, modifiers, keysym)) == None
  {
    StandardRoundTrip(fromName, lower, name, modifiers, keysym);
    LevelShiftNamed();
  }

  lemma LevelShiftNamed()
    ensures ModifierForName("ISO_Level3_Shift") == Some(Mod5)
  {
    var a, b := "ISO_Level3_Shift", "iso_level3_shift";
    NotBefore(a);
    assert Lower(a[0]) == b[0] && Lower(a[1]) == b[1] && Lower(a[2]) == b[2] && Lower(a[3]) == b[3];
    assert Lower(a[4]) == b[4] && Lower(a[5]) == b[5] && Lower(a[6]) == b[6] && Lower(a[7]) == b[7];
    assert Lower(a[8]) == b[8] && Lower(a[9]) == b[9] && Lower(a[10]) == b[10] && Lower(a[11]) == b[11];
    assert Lower(a[12]) == b[12] && Lower(a[13]) == b[13] && Lower(a[14]) == b[14] && Lower(a[15]) == b[15];
  }
}
