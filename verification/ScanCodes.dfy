/** What the handler makes of scan codes, told by the codes that came before: which
    modifier keys are held, which table a code is looked up in, and which codes are
    commands (student-distrib/keyboard.c). */
module ScanCodes {
  import opened Bytes
  import opened Keyboard

  /** A key is held if the last of its codes was a press. */
  predicate Held(codes: seq<byte>, down: set<byte>, up: set<byte>)
    decreases |codes|
  {
    codes != [] &&
    var c := codes[|codes| - 1];
    if c in down then true else if c in up then false else Held(codes[..|codes| - 1], down, up)
  }

  predicate Shift(codes: seq<byte>) {
    Held(codes, {0x2A, 0x36}, {0xAA, 0xB6})
  }

  predicate Control(codes: seq<byte>) {
    Held(codes, {0x1D}, {0x9D})
  }

  predicate Alt(codes: seq<byte>) {
    Held(codes, {0x38}, {0xB8})
  }

  /** How often Caps Lock was pressed, not counting repeats while it is held. */
  function CapsPresses(codes: seq<byte>): nat
    decreases |codes|
  {
    if codes == [] then 0
    else
      var before := codes[..|codes| - 1];
      CapsPresses(before) + if codes[|codes| - 1] == 0x3A && !Held(before, {0x3A}, {0xBA}) then 1 else 0
  }

  predicate CapsLock(codes: seq<byte>) {
    CapsPresses(codes) % 2 == 1
  }

  /** No modifier held and Caps Lock off, as keyboard_init leaves it. */
  predicate Released(m: Modifiers) {
    m == Modifiers(false, false, 0, false, false)
  }

  lemma {:induction false} RunSnoc(maps: KeyMaps, k: State, codes: seq<byte>, c: byte)
    requires maps.Valid() && k.Valid()
    ensures Run(maps, k, codes + [c]) == Handle(maps, Run(maps, k, codes), c).0
    decreases |codes|
  {
    if codes == [] {
      assert [c][1..] == [];
    } else {
      assert (codes + [c])[1..] == codes[1..] + [c];
      RunSnoc(maps, Handle(maps, k, codes[0]).0, codes[1..], c);
    }
  }

  /** The modifier flags say what the codes so far say. */
  predicate Agrees(m: Modifiers, codes: seq<byte>) {
    && m.shift == Shift(codes) && m.control == Control(codes) && m.leftAlt == Alt(codes)
    && CapsState(m, Held(codes, {0x3A}, {0xBA}), CapsLock(codes))
  }

  lemma HeldSnoc(codes: seq<byte>, c: byte, down: set<byte>, up: set<byte>)
    ensures Held(codes + [c], down, up) == if c in down then true else if c in up then false else Held(codes, down, up)
  {
    assert (codes + [c])[..|codes|] == codes;
  }

  lemma CapsSnoc(codes: seq<byte>, c: byte)
    ensures CapsLock(codes + [c]) == (CapsLock(codes) != (c == 0x3A && !Held(codes, {0x3A}, {0xBA})))
  {
    assert (codes + [c])[..|codes|] == codes;
  }

  /** The four states of the Caps Lock machine: two bits, whether the key is down and
      whether the lock is on. */
  predicate CapsState(m: Modifiers, down: bool, locked: bool) {
    m.capslock == locked && m.capsChecker == if down then (if locked then 1 else 3) else if locked then 2 else 0
  }

  lemma CapsTracked(m: Modifiers, down: bool, locked: bool, c: byte)
    requires CapsState(m, down, locked)
    ensures CapsState(Track(m, c), if c == 0x3A then true else if c == 0xBA then false else down,
                      locked != (c == 0x3A && !down))
  {
  }

  lemma TrackAgrees(m: Modifiers, codes: seq<byte>, c: byte)
    requires Agrees(m, codes)
    ensures Agrees(Track(m, c), codes + [c])
  {
    CapsTracked(m, Held(codes, {0x3A}, {0xBA}), CapsLock(codes), c);
    CapsSnoc(codes, c);
    HeldSnoc(codes, c, {0x3A}, {0xBA});
    HeldSnoc(codes, c, {0x2A, 0x36}, {0xAA, 0xB6});
    HeldSnoc(codes, c, {0x1D}, {0x9D});
    HeldSnoc(codes, c, {0x38}, {0xB8});
  }

  lemma {:induction false} ModifiersFollow(maps: KeyMaps, k: State, codes: seq<byte>)
    requires maps.Valid() && k.Valid() && Released(k.mods)
    ensures Agrees(Run(maps, k, codes).mods, codes)
    decreases |codes|
  {
    if codes != [] {
      var before, c := codes[..|codes| - 1], codes[|codes| - 1];
      ModifiersFollow(maps, k, before);
      TrackAgrees(Run(maps, k, before).mods, before, c);
      assert codes == before + [c];
      RunSnoc(maps, k, before, c);
      ModsOfHandle(maps, Run(maps, k, before), c);
    }
  }

  lemma ModsOfHandle(maps: KeyMaps, k: State, c: byte)
    requires maps.Valid() && k.Valid()
    ensures Handle(maps, k, c).0.mods == Track(k.mods, c)
  {
  }

  /** The code is a command, under the modifiers held. */
  predicate Command(codes: seq<byte>, code: byte) {
    || code == 0x0E || code == 0x0F
    || (Control(codes) && (code == 0x26 || code == 0x2E)) || (Alt(codes) && 0x3B <= code <= 0x3D)
  }

  /** The character that a code stands for: the plain table without Shift and Caps Lock
      or with both, else the table of the one that is in force. */
  function Character(maps: KeyMaps, codes: seq<byte>, code: byte): byte
    requires maps.Valid()
  {
    if Shift(codes) && CapsLock(codes) then maps.plain[code]
    else if Shift(codes) then maps.shifted[code]
    else if CapsLock(codes) then maps.caps[code]
    else maps.plain[code]
  }

  /** A step leaves the key buffers, the counts, the flags and the visible terminal. */
  predicate SameLines(k: State, k': State) {
    k' == k.(mods := k'.mods)
  }

  /** A step leaves what belongs to the other terminals, and which one is visible. */
  predicate OthersKeep(k: State, k': State)
    requires k.Valid() && k'.Valid()
  {
    && k'.visible == k.visible
    && forall t :: 0 <= t < TERMINALS && t != k.visible ==>
         k'.Row(t) == k.Row(t) && k'.count[t] == k.count[t] && k'.locked[t] == k.locked[t]
  }

  /** A code that is no command puts its character behind the visible terminal's line, if
      there is one and the line has room; a line break ends the line and releases the
      read. */
  predicate Types(k: State, k': State, effect: Effect, c: byte)
    requires k.Valid() && k'.Valid()
  {
    var v := k.visible;
    if c == 0 || (c != 10 && |k.Line(v)| >= 127) then SameLines(k, k') && effect == NoEffect
    else
      && OthersKeep(k, k') && effect == Echo([c])
      && if c == 10 then k'.Line(v) == [] && k.Line(v) + [10] <= k'.Row(v) && !k'.locked[v]
         else k'.Line(v) == k.Line(v) + [c] && k'.locked[v] == k.locked[v]
  }

  /** After any scan codes, one more that is no command types the character that the
      modifiers held then select. */
  lemma CodeTypes(maps: KeyMaps, k: State, codes: seq<byte>, code: byte)
    requires maps.Valid() && k.Valid() && Released(k.mods) && !Command(codes + [code], code)
    ensures var k1 := Run(maps, k, codes); var (k2, effect) := Handle(maps, k1, code);
            Types(k1, k2, effect, Character(maps, codes + [code], code))
  {
    var k1 := Run(maps, k, codes);
    ModifiersFollow(maps, k, codes);
    TrackAgrees(k1.mods, codes, code);
    var m := Track(k1.mods, code);
    var c := Character(maps, codes + [code], code);
    assert Decode(maps, m, code) == if c == 0 then NoKey else Char(c);
    if c != 0 {
      PressTypesOne(k1.(mods := m), c);
      SameBuffers(k1, k1.(mods := m));
    }
  }

  lemma SameBuffers(k: State, k': State)
    requires k.Valid() && k' == k.(mods := k'.mods)
    ensures k'.Valid() && forall t :: 0 <= t < TERMINALS ==> k'.Row(t) == k.Row(t) && k'.Line(t) == k.Line(t)
  {
  }

  lemma PressTypesOne(k: State, c: byte)
    requires k.Valid() && c != 0
    ensures var (k', effect) := Press(k, Char(c)); Types(k, k', effect, c)
  {
    var k' := Press(k, Char(c)).0;
    PressEdits(k, Char(c), k.visible);
    if c == 10 {
      EnterCompletes(k, k.visible);
    }
    forall t | 0 <= t < TERMINALS && t != k.visible ensures k'.Row(t) == k.Row(t) {
      PressEdits(k, Char(c), t);
    }
  }

  /** Backspace takes the last character of a line away, and it is erased. */
  lemma BackspaceDeletes(maps: KeyMaps, k: State)
    requires maps.Valid() && k.Valid()
    ensures var (k', effect) := Handle(maps, k, 0x0E); var v := k.visible; var line := k.Line(v);
            && OthersKeep(k, k') && k'.locked == k.locked && k'.keyBuf == k.keyBuf
            && (line == [] ==> k'.Line(v) == [] && effect == NoEffect)
            && (line != [] ==> k'.Line(v) == line[..|line| - 1] && effect == Erase)
  {
  }

  /** Tab types four spaces, or as many as have room. */
  lemma TabTypes(maps: KeyMaps, k: State)
    requires maps.Valid() && k.Valid()
    ensures var (k', effect) := Handle(maps, k, 0x0F); var v := k.visible; var line := k.Line(v);
            var n := if |line| <= 123 then 4 else 127 - |line|;
            && OthersKeep(k, k') && k'.locked == k.locked
            && k'.Line(v) == line + Repeat(SPACE, n) && effect == Echo(Repeat(SPACE, n))
  {
    var k1 := k.(mods := Track(k.mods, 0x0F));
    var k' := Press(k1, Tab).0;
    SameBuffers(k, k1);
    PressEdits(k1, Tab, k.visible);
    forall t | 0 <= t < TERMINALS && t != k.visible ensures k'.Row(t) == k.Row(t) {
      PressEdits(k1, Tab, t);
    }
  }

  /** With Ctrl held, L clears the screen and C ends the program, and neither is typed.
      With Alt held, F1, F2 and F3 show terminals 0, 1 and 2. Ctrl and Alt are held from a
      press of theirs to the next release. */
  lemma CommandsAct(maps: KeyMaps, k: State, codes: seq<byte>, code: byte)
    requires maps.Valid() && k.Valid() && Released(k.mods)
    ensures var k1 := Run(maps, k, codes); var (k2, effect) := Handle(maps, k1, code); var all := codes + [code];
            && (Control(all) && code == 0x26 ==> SameLines(k1, k2) && effect == Blank)
            && (Control(all) && code == 0x2E ==> SameLines(k1, k2) && effect == HaltProgram)
            && (Alt(all) && code == 0x3B ==> SameLines(k1.(visible := 0), k2) && effect == Show(0))
            && (Alt(all) && code == 0x3C ==> SameLines(k1.(visible := 1), k2) && effect == Show(1))
            && (Alt(all) && code == 0x3D ==> SameLines(k1.(visible := 2), k2) && effect == Show(2))
  {
    ModifiersFollow(maps, k, codes);
    TrackAgrees(Run(maps, k, codes).mods, codes, code);
  }
}
