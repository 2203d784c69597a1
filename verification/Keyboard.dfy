/** The keyboard handler and terminal_read (student-distrib/keyboard.c): a line
    buffer for each terminal, filled by scan codes. */
module Keyboard {
  import opened Bytes
  import opened Helpers

  /** Bytes of one key buffer. */
  const KEYBUFFER_LENGTH: nat := 128
  /** Characters of a line, without the line break. */
  const KEYBOARD_BUFFER_SIZE: nat := 127
  const TAB_LENGTH: nat := 4

  /** Shift, Ctrl and Alt, and the four-state caps lock machine. */
  datatype Modifiers = Modifiers(shift: bool, capslock: bool, capsChecker: nat, control: bool, leftAlt: bool)

  /** The three scan code tables. */
  datatype KeyMaps = KeyMaps(plain: seq<byte>, shifted: seq<byte>, caps: seq<byte>) {
    predicate Valid() {
      |plain| == |shifted| == |caps| == 256
    }
  }

  /** What a scan code means to the visible terminal. */
  datatype Key = NoKey | Backspace | Tab | ClearScreen | SwitchTo(t: nat) | Interrupt | Char(c: byte)

  /** What the handler does besides editing the line: text put on the screen, the
      last character deleted, the screen cleared, a terminal shown, or a line break
      put and the running program halted. */
  datatype Effect = NoEffect | Echo(text: seq<byte>) | Erase | Blank | Show(t: nat) | HaltProgram

  /** The modifier flags after a scan code. */
  function Track(m: Modifiers, code: byte): Modifiers {
    var m1 := if code == 0xAA || code == 0xB6 then m.(shift := false)
              else if code == 0x2A || code == 0x36 then m.(shift := true) else m;
    var m2 := if code == 0x3A && m1.capsChecker == 0 then m1.(capslock := true, capsChecker := 1)
              else if code == 0xBA && m1.capsChecker == 1 then m1.(capsChecker := 2)
              else if code == 0x3A && m1.capsChecker == 2 then m1.(capslock := false, capsChecker := 3)
              else if code == 0xBA && m1.capsChecker == 3 then m1.(capsChecker := 0) else m1;
    var m3 := if code == 0x1D then m2.(control := true) else if code == 0x9D then m2.(control := false) else m2;
    if code == 0x38 then m3.(leftAlt := true) else if code == 0xB8 then m3.(leftAlt := false) else m3
  }

  /** The key a scan code stands for, under the modifiers it leaves. */
  function Decode(maps: KeyMaps, m: Modifiers, code: byte): Key
    requires maps.Valid()
  {
    if code == 0x0E then Backspace
    else if code == 0x0F then Tab
    else if m.control && code == 0x26 then ClearScreen
    else if m.leftAlt && code == 0x3B then SwitchTo(0)
    else if m.leftAlt && code == 0x3C then SwitchTo(1)
    else if m.leftAlt && code == 0x3D then SwitchTo(2)
    else if m.control && code == 0x2E then Interrupt
    else
      var c := if m.shift == m.capslock then maps.plain[code]
               else if m.shift then maps.shifted[code] else maps.caps[code];
      if c == NUL then NoKey else Char(c)
  }

  /** A pure line editor: characters are appended up to 127, backspace takes the
      last one away, a tab appends up to four spaces, Enter starts a new line. */
  function Edit(line: seq<byte>, key: Key): (r: seq<byte>)
    ensures |line| <= KEYBOARD_BUFFER_SIZE ==> |r| <= KEYBOARD_BUFFER_SIZE
    ensures NEWLINE !in line ==> NEWLINE !in r
  {
    match key
    case Backspace => if line == [] then [] else line[..|line| - 1]
    case Tab => line + Repeat(SPACE, TabRoom(|line|))
    case Char(c) => if c == NEWLINE then [] else if |line| < KEYBOARD_BUFFER_SIZE then line + [c] else line
    case _ => line
  }

  /** How many spaces a tab appends to a line of n characters. */
  function TabRoom(n: nat): nat {
    if n + TAB_LENGTH <= KEYBOARD_BUFFER_SIZE then TAB_LENGTH
    else if n <= KEYBOARD_BUFFER_SIZE then KEYBOARD_BUFFER_SIZE - n else 0
  }

  /** keyBuf, keybufferCount and readFlag of the terminals. */
  datatype State = State(mods: Modifiers, visible: nat, keyBuf: seq<byte>, count: seq<nat>, locked: seq<bool>) {
    predicate Valid() {
      && visible < TERMINALS && |keyBuf| == TERMINALS * KEYBUFFER_LENGTH
      && |count| == |locked| == TERMINALS
      && forall t :: 0 <= t < TERMINALS ==> count[t] <= KEYBOARD_BUFFER_SIZE
    }

    /** The 128 bytes of terminal t's buffer. */
    function Row(t: nat): (r: seq<byte>)
      requires Valid() && t < TERMINALS
      ensures |r| == KEYBUFFER_LENGTH
    {
      keyBuf[KEYBUFFER_LENGTH * t..KEYBUFFER_LENGTH * (t + 1)]
    }

    /** The line being typed on terminal t. */
    function Line(t: nat): (r: seq<byte>)
      requires Valid() && t < TERMINALS
      ensures |r| == count[t]
    {
      Row(t)[..count[t]]
    }
  }

  /** The state with text stored behind the line of the visible terminal, of
      which the first n bytes stay in the line. */
  function Store(k: State, text: seq<byte>, n: nat): (k': State)
    requires k.Valid() && k.count[k.visible] + |text| <= KEYBUFFER_LENGTH
    requires n <= |text| && k.count[k.visible] + n <= KEYBOARD_BUFFER_SIZE
    ensures k'.Valid()
  {
    var at := KEYBUFFER_LENGTH * k.visible + k.count[k.visible];
    k.(keyBuf := Overlay(k.keyBuf, at, text), count := k.count[k.visible := k.count[k.visible] + n])
  }

  /** What the handler does for a key. */
  function Press(k: State, key: Key): (r: (State, Effect))
    requires k.Valid() && (key.SwitchTo? ==> key.t < TERMINALS)
    ensures r.0.Valid()
  {
    var v := k.visible;
    match key
    case NoKey => (k, NoEffect)
    case Backspace => if k.count[v] == 0 then (k, NoEffect) else (k.(count := k.count[v := k.count[v] - 1]), Erase)
    case Tab =>
      var text := Repeat(SPACE, TabRoom(k.count[v]));
      (Store(k, text, |text|), Echo(text))
    case ClearScreen => (k, Blank)
    case SwitchTo(t) => (k.(visible := t), Show(t))
    case Interrupt => (k, HaltProgram)
    case Char(c) =>
      if c == NEWLINE then
        (Store(k, [c], 0).(count := k.count[v := 0], locked := k.locked[v := false]), Echo([c]))
      else if k.count[v] < KEYBOARD_BUFFER_SIZE then (Store(k, [c], 1), Echo([c]))
      else (k, NoEffect)
  }

  /** keyboard_handler for a scan code. */
  function Handle(maps: KeyMaps, k: State, code: byte): (r: (State, Effect))
    requires maps.Valid() && k.Valid()
    ensures r.0.Valid()
  {
    var m := Track(k.mods, code);
    Press(k.(mods := m), Decode(maps, m, code))
  }

  lemma RowAfterStore(k: State, text: seq<byte>, n: nat, t: nat)
    requires k.Valid() && t < TERMINALS && k.count[k.visible] + |text| <= KEYBUFFER_LENGTH
    requires n <= |text| && k.count[k.visible] + n <= KEYBOARD_BUFFER_SIZE
    ensures Store(k, text, n).Row(t)
         == if t == k.visible then Overlay(k.Row(t), k.count[t], text) else k.Row(t)
  {
    RowOfOverlay(k.keyBuf, k.visible, k.count[k.visible], text, t);
  }

  /** Text laid into one of the buffers lies in that one only. */
  lemma RowOfOverlay(m: seq<byte>, v: nat, at: nat, text: seq<byte>, t: nat)
    requires |m| == TERMINALS * KEYBUFFER_LENGTH && v < TERMINALS && t < TERMINALS && at + |text| <= KEYBUFFER_LENGTH
    ensures var now := Overlay(m, KEYBUFFER_LENGTH * v + at, text);
            var from, to := KEYBUFFER_LENGTH * t, KEYBUFFER_LENGTH * (t + 1);
            now[from..to] == if t == v then Overlay(m[from..to], at, text) else m[from..to]
  {
    if t != v {
      OverlaySlices(m, KEYBUFFER_LENGTH * v + at, text, KEYBUFFER_LENGTH * t, KEYBUFFER_LENGTH);
    }
  }

  /** A key edits the line of the visible terminal as the pure editor does, and
      no other line. */
  lemma PressEdits(k: State, key: Key, t: nat)
    requires k.Valid() && (key.SwitchTo? ==> key.t < TERMINALS) && t < TERMINALS
    ensures Press(k, key).0.Line(t) == if t == k.visible then Edit(k.Line(t), key) else k.Line(t)
    ensures t != k.visible ==> Press(k, key).0.Row(t) == k.Row(t)
  {
    var v := k.visible;
    match key
    case Tab => RowAfterStore(k, Repeat(SPACE, TabRoom(k.count[v])), TabRoom(k.count[v]), t);
    case Char(c) =>
      RowAfterStore(k, [c], 0, t);
      if c != NEWLINE && k.count[v] < KEYBOARD_BUFFER_SIZE {
        RowAfterStore(k, [c], 1, t);
      }
    case _ =>
  }

  /** Enter leaves the line and a line break at the start of the buffer, and
      unlocks the read of the visible terminal; nothing else unlocks a read. */
  lemma EnterCompletes(k: State, t: nat)
    requires k.Valid() && t == k.visible
    ensures var k' := Press(k, Char(NEWLINE)).0;
            && k.Line(t) + [NEWLINE] <= k'.Row(t) && k'.Line(t) == [] && !k'.locked[t]
  {
    RowAfterStore(k, [NEWLINE], 0, t);
    var r := Overlay(k.Row(t), k.count[t], [NEWLINE]);
    assert r[..k.count[t] + 1] == k.Line(t) + [NEWLINE];
  }

  lemma OnlyEnterUnlocks(k: State, key: Key, t: nat)
    requires k.Valid() && (key.SwitchTo? ==> key.t < TERMINALS) && t < TERMINALS
    ensures Press(k, key).0.locked[t] <==> k.locked[t] && !(t == k.visible && key == Char(NEWLINE))
  {
  }

  // ---- Runs ----

  function Run(maps: KeyMaps, k: State, codes: seq<byte>): (k': State)
    requires maps.Valid() && k.Valid()
    ensures k'.Valid()
    decreases |codes|
  {
    if codes == [] then k else Run(maps, Handle(maps, k, codes[0]).0, codes[1..])
  }

  /** The keys that reach terminal t: those pressed while it is visible. */
  function KeysFor(maps: KeyMaps, k: State, codes: seq<byte>, t: nat): seq<Key>
    requires maps.Valid() && k.Valid()
    decreases |codes|
  {
    if codes == [] then []
    else
      var key := Decode(maps, Track(k.mods, codes[0]), codes[0]);
      (if t == k.visible then [key] else []) + KeysFor(maps, Handle(maps, k, codes[0]).0, codes[1..], t)
  }

  function EditAll(line: seq<byte>, keys: seq<Key>): seq<byte>
    decreases |keys|
  {
    if keys == [] then line else EditAll(Edit(line, keys[0]), keys[1..])
  }

  /** For every sequence of scan codes, terminal switches among them, the line of
      each terminal is what a pure line editor makes of the keys that reached it. */
  lemma {:induction false} LinesAreEdited(maps: KeyMaps, k: State, codes: seq<byte>, t: nat)
    requires maps.Valid() && k.Valid() && t < TERMINALS
    ensures Run(maps, k, codes).Line(t) == EditAll(k.Line(t), KeysFor(maps, k, codes, t))
    decreases |codes|
  {
    if codes != [] {
      var m := Track(k.mods, codes[0]);
      var k1, key, k' := k.(mods := m), Decode(maps, m, codes[0]), Handle(maps, k, codes[0]).0;
      PressEdits(k1, key, t);
      assert k1.Line(t) == k.Line(t);
      LinesAreEdited(maps, k', codes[1..], t);
      var rest := KeysFor(maps, k', codes[1..], t);
      if t == k.visible {
        assert ([key] + rest)[1..] == rest;
      } else {
        assert [] + rest == rest;
      }
    }
  }

  /** A read that locked the terminal waits exactly until Enter reaches it. */
  lemma {:induction false} ReadWaitsForEnter(maps: KeyMaps, k: State, codes: seq<byte>, t: nat)
    requires maps.Valid() && k.Valid() && t < TERMINALS && k.locked[t]
    ensures !Run(maps, k, codes).locked[t] <==> Char(NEWLINE) in KeysFor(maps, k, codes, t)
    decreases |codes|
  {
    if codes != [] {
      var m := Track(k.mods, codes[0]);
      var key, k' := Decode(maps, m, codes[0]), Handle(maps, k, codes[0]).0;
      OnlyEnterUnlocks(k.(mods := m), key, t);
      if k'.locked[t] {
        ReadWaitsForEnter(maps, k', codes[1..], t);
      } else {
        StaysUnlocked(maps, k', codes[1..], t);
      }
    }
  }

  lemma {:induction false} StaysUnlocked(maps: KeyMaps, k: State, codes: seq<byte>, t: nat)
    requires maps.Valid() && k.Valid() && t < TERMINALS && !k.locked[t]
    ensures !Run(maps, k, codes).locked[t]
    decreases |codes|
  {
    if codes != [] {
      var m := Track(k.mods, codes[0]);
      OnlyEnterUnlocks(k.(mods := m), Decode(maps, m, codes[0]), t);
      StaysUnlocked(maps, Handle(maps, k, codes[0]).0, codes[1..], t);
    }
  }

  /** A line never holds a line break. */
  lemma {:induction false} LinesHaveNoBreak(maps: KeyMaps, k: State, codes: seq<byte>, t: nat)
    requires maps.Valid() && k.Valid() && t < TERMINALS && NEWLINE !in k.Line(t)
    ensures NEWLINE !in Run(maps, k, codes).Line(t)
  {
    LinesAreEdited(maps, k, codes, t);
    EditedHasNoBreak(k.Line(t), KeysFor(maps, k, codes, t));
  }

  lemma {:induction false} EditedHasNoBreak(line: seq<byte>, keys: seq<Key>)
    requires NEWLINE !in line
    ensures NEWLINE !in EditAll(line, keys)
    ensures |line| <= KEYBOARD_BUFFER_SIZE ==> |EditAll(line, keys)| <= KEYBOARD_BUFFER_SIZE
    decreases |keys|
  {
    if keys != [] {
      EditedHasNoBreak(Edit(line, keys[0]), keys[1..]);
    }
  }

  // ---- One buffer ----

  /** The buffer of one terminal and its count. */
  datatype Buffer = Buffer(row: seq<byte>, count: nat) {
    predicate Valid() {
      |row| == KEYBUFFER_LENGTH && count <= KEYBOARD_BUFFER_SIZE
    }
  }

  function BufferOf(k: State, t: nat): (b: Buffer)
    requires k.Valid() && t < TERMINALS
    ensures b.Valid()
  {
    Buffer(k.Row(t), k.count[t])
  }

  /** The bytes that a key stores, from the count on. */
  function StoredBy(count: nat, key: Key): seq<byte> {
    match key
    case Tab => Repeat(SPACE, TabRoom(count))
    case Char(c) => if c == NEWLINE || count < KEYBOARD_BUFFER_SIZE then [c] else []
    case _ => []
  }

  function CountAfter(count: nat, key: Key): (n: nat)
    ensures count <= KEYBOARD_BUFFER_SIZE ==>
              n <= KEYBOARD_BUFFER_SIZE && count + |StoredBy(count, key)| <= KEYBUFFER_LENGTH
  {
    match key
    case Backspace => if count == 0 then 0 else count - 1
    case Tab => count + TabRoom(count)
    case Char(c) => if c == NEWLINE then 0 else if count < KEYBOARD_BUFFER_SIZE then count + 1 else count
    case _ => count
  }

  /** A key typed on a terminal by itself. */
  function Typed(b: Buffer, key: Key): (r: Buffer)
    requires b.Valid()
    ensures r.Valid()
  {
    var n := CountAfter(b.count, key);
    Buffer(Overlay(b.row, b.count, StoredBy(b.count, key)), n)
  }

  function TypedAll(b: Buffer, keys: seq<Key>): (r: Buffer)
    requires b.Valid()
    ensures r.Valid()
    decreases |keys|
  {
    if keys == [] then b else TypedAll(Typed(b, keys[0]), keys[1..])
  }

  lemma PressTypes(k: State, key: Key, t: nat)
    requires k.Valid() && (key.SwitchTo? ==> key.t < TERMINALS) && t < TERMINALS
    ensures BufferOf(Press(k, key).0, t) == if t == k.visible then Typed(BufferOf(k, t), key) else BufferOf(k, t)
  {
    var v := k.visible;
    match key
    case Tab => RowAfterStore(k, Repeat(SPACE, TabRoom(k.count[v])), TabRoom(k.count[v]), t);
    case Char(c) =>
      RowAfterStore(k, [c], 0, t);
      if c != NEWLINE && k.count[v] < KEYBOARD_BUFFER_SIZE {
        RowAfterStore(k, [c], 1, t);
      }
    case _ =>
  }

  /** For every sequence of scan codes the buffer of a terminal depends only on the
      keys that reached it. */
  lemma {:induction false} BuffersAreTyped(maps: KeyMaps, k: State, codes: seq<byte>, t: nat)
    requires maps.Valid() && k.Valid() && t < TERMINALS
    ensures BufferOf(Run(maps, k, codes), t) == TypedAll(BufferOf(k, t), KeysFor(maps, k, codes, t))
    decreases |codes|
  {
    if codes != [] {
      var m := Track(k.mods, codes[0]);
      var k1, key, k' := k.(mods := m), Decode(maps, m, codes[0]), Handle(maps, k, codes[0]).0;
      PressTypes(k1, key, t);
      assert BufferOf(k1, t) == BufferOf(k, t);
      BuffersAreTyped(maps, k', codes[1..], t);
      var rest := KeysFor(maps, k', codes[1..], t);
      if t == k.visible {
        assert ([key] + rest)[1..] == rest;
      } else {
        assert [] + rest == rest;
      }
    }
  }

  lemma {:induction false} TypedBoth(b: Buffer, keys: seq<Key>, more: seq<Key>)
    requires b.Valid()
    ensures TypedAll(b, keys + more) == TypedAll(TypedAll(b, keys), more)
    decreases |keys|
  {
    if keys == [] {
      assert keys + more == more;
    } else {
      assert (keys + more)[1..] == keys[1..] + more;
      TypedBoth(Typed(b, keys[0]), keys[1..], more);
    }
  }

  lemma {:induction false} TypedLine(b: Buffer, keys: seq<Key>)
    requires b.Valid()
    ensures var r := TypedAll(b, keys); r.row[..r.count] == EditAll(b.row[..b.count], keys)
    decreases |keys|
  {
    if keys != [] {
      var r := Typed(b, keys[0]);
      assert r.row[..r.count] == Edit(b.row[..b.count], keys[0]);
      TypedLine(r, keys[1..]);
    }
  }

  /** The last byte that keys store at place p, if any, beginning at a count. */
  function LastStored(count: nat, keys: seq<Key>, p: nat): Option<byte>
    decreases |keys|
  {
    if keys == [] then None
    else
      var later, now := LastStored(CountAfter(count, keys[0]), keys[1..], p), StoredBy(count, keys[0]);
      if later.Some? then later else if count <= p < count + |now| then Some(now[p - count]) else None
  }

  lemma {:induction false} TypedByte(b: Buffer, keys: seq<Key>, p: nat)
    requires b.Valid() && p < KEYBUFFER_LENGTH
    ensures var c := LastStored(b.count, keys, p);
            TypedAll(b, keys).row[p] == if c.Some? then c.value else b.row[p]
    decreases |keys|
  {
    if keys != [] {
      TypedByte(Typed(b, keys[0]), keys[1..], p);
    }
  }

  // ---- Reading ----

  /** The loads of terminal_read for n bytes stay inside the buffer: it holds a line
      break, or n is at most one more than its length. */
  predicate LoadsInside(row: seq<byte>, n: nat) {
    NEWLINE in row || n <= |row| + 1
  }

  /** What terminal_read delivers from a buffer: the bytes up to the first line
      break, or n - 1 bytes and a line break of its own. */
  function Delivered(row: seq<byte>, n: nat): seq<byte>
    requires LoadsInside(row, n)
    decreases n
  {
    if n == 0 then []
    else if n == 1 || row[0] == NEWLINE then [NEWLINE]
    else [row[0]] + Delivered(row[1..], n - 1)
  }

  /** A line as a read of n bytes should deliver it. */
  function LineFor(line: seq<byte>, n: nat): seq<byte>
    requires n > 0
  {
    (if |line| <= n - 1 then line else line[..n - 1]) + [NEWLINE]
  }

  /** How many bytes at the start of the buffer decide what is delivered. */
  function Deciding(line: seq<byte>, n: nat): nat
    requires n > 0
  {
    if |line| + 1 <= n - 1 then |line| + 1 else n - 1
  }

  /** A read delivers a line if and only if the deciding bytes are those of the line
      and its line break. */
  lemma {:induction false} DeliveredIff(row: seq<byte>, line: seq<byte>, n: nat)
    requires n > 0 && |line| < |row| && NEWLINE !in line
    ensures LoadsInside(row, n) && Delivered(row, n) == LineFor(line, n) <==>
            forall p :: 0 <= p < Deciding(line, n) ==> row[p] == (line + [NEWLINE])[p]
    decreases |line|
  {
    if n > 1 && line != [] {
      DeliveredIff(row[1..], line[1..], n - 1);
      DecidingTail(row, line, n);
      DeliveredTail(row, line, n);
    } else if n > 1 {
      assert Deciding(line, n) == 1 && LineFor(line, n) == [NEWLINE];
      assert LoadsInside(row, n) ==> Delivered(row, n)[0] == row[0];
      assert row[0] == (line + [NEWLINE])[0] <==> row[0] == NEWLINE;
      assert row[0] in row;
    } else {
      assert Deciding(line, n) == 0 && LineFor(line, n) == [NEWLINE];
    }
  }

  lemma DeliveredTail(row: seq<byte>, line: seq<byte>, n: nat)
    requires n > 1 && line != [] && |line| < |row| && NEWLINE !in line
    ensures LoadsInside(row, n) && Delivered(row, n) == LineFor(line, n) <==>
            row[0] == line[0] && LoadsInside(row[1..], n - 1)
            && Delivered(row[1..], n - 1) == LineFor(line[1..], n - 1)
  {
    assert line[0] in line && row == [row[0]] + row[1..];
    assert LineFor(line, n) == [line[0]] + LineFor(line[1..], n - 1);
    if row[0] != NEWLINE {
      assert LoadsInside(row, n) <==> LoadsInside(row[1..], n - 1);
      if LoadsInside(row, n) {
        assert Delivered(row, n) == [row[0]] + Delivered(row[1..], n - 1);
        assert Delivered(row, n)[1..] == Delivered(row[1..], n - 1);
        assert LineFor(line, n)[1..] == LineFor(line[1..], n - 1);
      }
    } else {
      assert Delivered(row, n) == [NEWLINE] && LineFor(line, n)[0] == line[0];
    }
  }

  lemma DecidingTail(row: seq<byte>, line: seq<byte>, n: nat)
    requires n > 1 && line != [] && |line| < |row|
    ensures (forall p :: 0 <= p < Deciding(line, n) ==> row[p] == (line + [NEWLINE])[p]) <==>
            row[0] == line[0] &&
            forall p :: 0 <= p < Deciding(line[1..], n - 1) ==> row[1..][p] == (line[1..] + [NEWLINE])[p]
  {
    assert Deciding(line, n) == Deciding(line[1..], n - 1) + 1;
    forall p | 0 <= p < Deciding(line[1..], n - 1)
      ensures row[1..][p] == row[p + 1] && (line[1..] + [NEWLINE])[p] == (line + [NEWLINE])[p + 1] {
    }
    if row[0] == line[0] &&
       forall p :: 0 <= p < Deciding(line[1..], n - 1) ==> row[1..][p] == (line[1..] + [NEWLINE])[p]
    {
      forall p | 0 <= p < Deciding(line, n) ensures row[p] == (line + [NEWLINE])[p] {
        if p > 0 {
          assert row[1..][p - 1] == (line[1..] + [NEWLINE])[p - 1];
        }
      }
    }
  }

  /** Keys typed behind Enter leave the deciding bytes as they are: the last byte
      they store in any of these places is the one that stands there. */
  predicate LeavesLine(keys: seq<Key>, line: seq<byte>, n: nat)
    requires n > 0
  {
    forall p :: 0 <= p < Deciding(line, n) ==>
      LastStored(0, keys, p) == None || LastStored(0, keys, p) == Some((line + [NEWLINE])[p])
  }

  /** A line typed on a terminal, Enter, and further keys before the program's read
      copies the buffer: the read delivers the line that was completed, cut to n - 1
      bytes and with a line break, if and only if the further keys leave it. Keys of
      the other terminals do not matter. */
  lemma TypedLineIsRead(maps: KeyMaps, k: State, codes: seq<byte>, t: nat, before: seq<Key>, after: seq<Key>, n: nat)
    requires maps.Valid() && k.Valid() && t < TERMINALS && n > 0 && NEWLINE !in k.Line(t)
    requires KeysFor(maps, k, codes, t) == before + [Char(NEWLINE)] + after
    ensures var row, line := Run(maps, k, codes).Row(t), EditAll(k.Line(t), before);
            && NEWLINE !in line && |line| <= KEYBOARD_BUFFER_SIZE
            && !Run(maps, k, codes).locked[t]
            && (LoadsInside(row, n) && Delivered(row, n) == LineFor(line, n) <==> LeavesLine(after, line, n))
  {
    EditedHasNoBreak(k.Line(t), before);
    EnterHasCome(maps, k, codes, t, before, after);
    BuffersAreTyped(maps, k, codes, t);
    KeysThenRead(BufferOf(k, t), k.Line(t), before, after, n);
  }

  lemma KeysThenRead(b: Buffer, line: seq<byte>, before: seq<Key>, after: seq<Key>, n: nat)
    requires b.Valid() && n > 0 && b.row[..b.count] == line && NEWLINE !in EditAll(line, before)
    ensures var row, done := TypedAll(b, before + [Char(NEWLINE)] + after).row, EditAll(line, before);
            LoadsInside(row, n) && Delivered(row, n) == LineFor(done, n) <==> LeavesLine(after, done, n)
  {
    assert before + [Char(NEWLINE)] + after == before + ([Char(NEWLINE)] + after);
    TypedBoth(b, before, [Char(NEWLINE)] + after);
    TypedLine(b, before);
    EnterThenKeys(TypedAll(b, before), EditAll(line, before), after, n);
  }

  lemma EnterHasCome(maps: KeyMaps, k: State, codes: seq<byte>, t: nat, before: seq<Key>, after: seq<Key>)
    requires maps.Valid() && k.Valid() && t < TERMINALS
    requires KeysFor(maps, k, codes, t) == before + [Char(NEWLINE)] + after
    ensures !Run(maps, k, codes).locked[t]
  {
    if k.locked[t] {
      ReadWaitsForEnter(maps, k, codes, t);
      assert KeysFor(maps, k, codes, t)[|before|] == Char(NEWLINE);
    } else {
      StaysUnlocked(maps, k, codes, t);
    }
  }

  lemma EnterThenKeys(b: Buffer, line: seq<byte>, after: seq<Key>, n: nat)
    requires b.Valid() && n > 0 && b.row[..b.count] == line && NEWLINE !in line
    ensures var row := TypedAll(b, [Char(NEWLINE)] + after).row;
            LoadsInside(row, n) && Delivered(row, n) == LineFor(line, n) <==> LeavesLine(after, line, n)
  {
    var b1, row := Typed(b, Char(NEWLINE)), TypedAll(b, [Char(NEWLINE)] + after).row;
    assert ([Char(NEWLINE)] + after)[1..] == after;
    forall p | 0 <= p < Deciding(line, n)
      ensures b1.row[p] == (line + [NEWLINE])[p]
      ensures var c := LastStored(0, after, p); row[p] == if c.Some? then c.value else (line + [NEWLINE])[p]
    {
      assert p < b.count ==> line[p] == b.row[p];
      TypedByte(b1, after, p);
    }
    DeliveredIff(row, line, n);
  }

  /** A key that stores nothing: no character and no tab. */
  predicate Quiet(keys: seq<Key>) {
    forall i :: 0 <= i < |keys| ==> !keys[i].Char? && !keys[i].Tab?
  }

  /** Modifiers, releases, backspace, switches and unassigned codes leave it. */
  lemma {:induction false} QuietKeysLeaveLine(keys: seq<Key>, line: seq<byte>, n: nat)
    requires n > 0 && Quiet(keys)
    ensures LeavesLine(keys, line, n)
  {
    forall p | 0 <= p < Deciding(line, n) ensures LastStored(0, keys, p) == None {
      QuietStoresNothing(0, keys, p);
    }
  }

  lemma {:induction false} QuietStoresNothing(count: nat, keys: seq<Key>, p: nat)
    requires Quiet(keys)
    ensures LastStored(count, keys, p) == None
    decreases |keys|
  {
    if keys != [] {
      assert !keys[0].Char? && !keys[0].Tab?;
      QuietStoresNothing(CountAfter(count, keys[0]), keys[1..], p);
    }
  }

  /** So a line, Enter and then only such keys: the read delivers the line. */
  lemma QuietReadDelivers(maps: KeyMaps, k: State, codes: seq<byte>, t: nat, before: seq<Key>, after: seq<Key>, n: nat)
    requires maps.Valid() && k.Valid() && t < TERMINALS && n > 0 && NEWLINE !in k.Line(t)
    requires KeysFor(maps, k, codes, t) == before + [Char(NEWLINE)] + after && Quiet(after)
    ensures var row := Run(maps, k, codes).Row(t);
            LoadsInside(row, n) && Delivered(row, n) == LineFor(EditAll(k.Line(t), before), n)
  {
    TypedLineIsRead(maps, k, codes, t, before, after, n);
    QuietKeysLeaveLine(after, EditAll(k.Line(t), before), n);
  }

  /** Scan codes of A, Enter and B in the repository's tables. */
  const CODE_A: byte := 0x1E
  const CODE_ENTER: byte := 0x1C
  const CODE_B: byte := 0x30

  /** The tables map these codes as the repository's do. */
  predicate Mapped(maps: KeyMaps) {
    maps.Valid() && maps.plain[CODE_A] == 97 && maps.plain[CODE_ENTER] == NEWLINE && maps.plain[CODE_B] == 98
  }

  /** A state without modifiers in which the visible terminal's line is empty. */
  predicate Idle(k: State) {
    k.Valid() && k.mods == Modifiers(false, false, 0, false, false) && k.count[k.visible] == 0
  }

  lemma CodeIsKey(maps: KeyMaps, k: State, code: byte)
    requires Mapped(maps) && k.Valid() && k.mods == Modifiers(false, false, 0, false, false)
    requires code == CODE_A || code == CODE_ENTER || code == CODE_B
    ensures var key := Char(maps.plain[code]);
            && Decode(maps, Track(k.mods, code), code) == key
            && Handle(maps, k, code) == Press(k, key) && Press(k, key).0.mods == k.mods
            && Press(k, key).0.visible == k.visible
  {
  }

  lemma FourCodes(maps: KeyMaps, k: State, codes: seq<byte>)
    requires Mapped(maps) && Idle(k) && codes == [CODE_A, CODE_ENTER, CODE_B, CODE_B]
    ensures KeysFor(maps, k, codes[..3], k.visible) == [Char(97), Char(NEWLINE), Char(98)]
    ensures KeysFor(maps, k, codes, k.visible) == [Char(97), Char(NEWLINE), Char(98), Char(98)]
  {
    var k1 := Press(k, Char(97)).0;
    var k2 := Press(k1, Char(NEWLINE)).0;
    var k3 := Press(k2, Char(98)).0;
    CodeIsKey(maps, k, CODE_A);
    CodeIsKey(maps, k1, CODE_ENTER);
    CodeIsKey(maps, k2, CODE_B);
    CodeIsKey(maps, k3, CODE_B);
    var v := k.visible;
    LastKey(maps, k3, CODE_B, v);
    NextKey(maps, k2, CODE_B, [CODE_B], v);
    NextKey(maps, k1, CODE_ENTER, [CODE_B, CODE_B], v);
    NextKey(maps, k, CODE_A, [CODE_ENTER, CODE_B, CODE_B], v);
    LastKey(maps, k2, CODE_B, v);
    NextKey(maps, k1, CODE_ENTER, [CODE_B], v);
    NextKey(maps, k, CODE_A, [CODE_ENTER, CODE_B], v);
    assert codes[..3] == [CODE_A] + [CODE_ENTER, CODE_B];
    assert codes == [CODE_A] + [CODE_ENTER, CODE_B, CODE_B];
  }

  lemma LastKey(maps: KeyMaps, k: State, code: byte, t: nat)
    requires maps.Valid() && k.Valid() && t == k.visible
    ensures KeysFor(maps, k, [code], t) == [Decode(maps, Track(k.mods, code), code)]
  {
    assert [code][1..] == [];
  }

  lemma NextKey(maps: KeyMaps, k: State, code: byte, rest: seq<byte>, t: nat)
    requires maps.Valid() && k.Valid() && t == k.visible
    ensures KeysFor(maps, k, [code] + rest, t)
         == [Decode(maps, Track(k.mods, code), code)] + KeysFor(maps, Handle(maps, k, code).0, rest, t)
  {
    assert ([code] + rest)[1..] == rest;
  }

  /** Typing ahead loses a line: after a, Enter and b a read of three bytes or more
      delivers "b" although "a" was completed. */
  lemma TypeAheadReplacesLine(maps: KeyMaps, k: State, n: nat)
    requires Mapped(maps) && Idle(k) && n > 2
    ensures var row := Run(maps, k, [CODE_A, CODE_ENTER, CODE_B]).Row(k.visible);
            LoadsInside(row, n) && Delivered(row, n) == [98, NEWLINE] != LineFor([97], n)
  {
    var v, codes := k.visible, [CODE_A, CODE_ENTER, CODE_B, CODE_B];
    FourCodes(maps, k, codes);
    assert codes[..3] == [CODE_A, CODE_ENTER, CODE_B];
    BuffersAreTyped(maps, k, codes[..3], v);
    KeysByte(BufferOf(k, v));
    DeliveredIff(Run(maps, k, codes[..3]).Row(v), [98], n);
  }

  lemma KeysByte(b: Buffer)
    requires b.Valid() && b.count == 0
    ensures TypedAll(b, [Char(97), Char(NEWLINE), Char(98)]).row[0] == 98
    ensures TypedAll(b, [Char(97), Char(NEWLINE), Char(98)]).row[1] == NEWLINE
  {
    var b1 := Typed(b, Char(97));
    var b2 := Typed(b1, Char(NEWLINE));
    TypedThree(b, Char(97), Char(NEWLINE), Char(98));
    assert b2.row[1] == NEWLINE;
  }

  lemma TypedThree(b: Buffer, x: Key, y: Key, z: Key)
    requires b.Valid()
    ensures TypedAll(b, [x, y, z]) == Typed(Typed(Typed(b, x), y), z)
  {
    assert [x, y, z] == [x] + [y, z] && [y, z] == [y] + [z] && [z] == [z] + [];
    TypedOne(b, x, [y, z]);
    TypedOne(Typed(b, x), y, [z]);
    TypedOne(Typed(Typed(b, x), y), z, []);
  }

  lemma TypedOne(b: Buffer, x: Key, rest: seq<Key>)
    requires b.Valid()
    ensures TypedAll(b, [x] + rest) == TypedAll(Typed(b, x), rest)
  {
    assert ([x] + rest)[1..] == rest;
  }

  /** After a, Enter and twice b, in a buffer that held no line break, none is left:
      a read of 130 bytes or more would load past the buffer. */
  lemma TypeAheadLosesBreak(maps: KeyMaps, k: State, n: nat)
    requires Mapped(maps) && Idle(k) && NEWLINE !in k.Row(k.visible)
    ensures var row := Run(maps, k, [CODE_A, CODE_ENTER, CODE_B, CODE_B]).Row(k.visible);
            LoadsInside(row, n) <==> n <= KEYBUFFER_LENGTH + 1
  {
    var v, codes := k.visible, [CODE_A, CODE_ENTER, CODE_B, CODE_B];
    FourCodes(maps, k, codes);
    BuffersAreTyped(maps, k, codes, v);
    BreakOverwritten(BufferOf(k, v));
  }

  lemma BreakOverwritten(b: Buffer)
    requires b.Valid() && b.count == 0 && NEWLINE !in b.row
    ensures NEWLINE !in TypedAll(b, [Char(97), Char(NEWLINE), Char(98), Char(98)]).row
  {
    var b3 := Typed(Typed(Typed(b, Char(97)), Char(NEWLINE)), Char(98));
    assert [Char(97), Char(NEWLINE), Char(98), Char(98)] == [Char(97), Char(NEWLINE), Char(98)] + [Char(98)];
    TypedBoth(b, [Char(97), Char(NEWLINE), Char(98)], [Char(98)]);
    TypedThree(b, Char(97), Char(NEWLINE), Char(98));
    assert [Char(98)][1..] == [];
    var r := Typed(b3, Char(98));
    forall p | 0 <= p < KEYBUFFER_LENGTH ensures r.row[p] != NEWLINE {
      assert r.row[p] == if p <= 1 then 98 else b.row[p];
    }
  }

  /** The handler's variables. The three key buffers lie one behind the other. */
  class Handler {
    const maps: KeyMaps
    const keyBuf: array<byte>
    const count: array<nat>
    const readFlag: array<bool>
    var mods: Modifiers
    var visible: nat

    ghost predicate Valid()
      reads this, keyBuf, count, readFlag
    {
      && maps.Valid() && Abs().Valid()
      && keyBuf as object != count && keyBuf as object != readFlag && count as object != readFlag
    }

    ghost function Abs(): State
      reads this, keyBuf, count, readFlag
    {
      State(mods, visible, keyBuf[..], count[..], readFlag[..])
    }

    /** keyboard_init: no modifier held, every line empty, no read waiting. */
    constructor (maps: KeyMaps)
      requires maps.Valid()
      ensures Valid() && this.maps == maps
      ensures forall t :: 0 <= t < TERMINALS ==> Abs().Line(t) == [] && !Abs().locked[t]
      ensures Abs().mods == Modifiers(false, false, 0, false, false) && Abs().visible == 0
    {
      this.maps := maps;
      keyBuf := new byte[TERMINALS * KEYBUFFER_LENGTH](_ => NUL);
      count := new nat[TERMINALS](_ => 0);
      readFlag := new bool[TERMINALS](_ => false);
      mods, visible := Modifiers(false, false, 0, false, false), 0;
    }

    /** keyboard_handler. */
    method KeyboardHandler(code: byte) returns (effect: Effect)
      requires Valid()
      modifies this, keyBuf, count, readFlag
      ensures Valid() && (Abs(), effect) == Handle(maps, old(Abs()), code)
    {
      mods := Track(mods, code);
      var key := Decode(maps, mods, code);
      assert KEYBUFFER_LENGTH * visible + KEYBUFFER_LENGTH <= keyBuf.Length;
      assert count[..][visible] <= KEYBOARD_BUFFER_SIZE;
      match key {
        case NoKey => effect := NoEffect;
        case Backspace =>
          effect := NoEffect;
          if count[visible] > 0 {
            count[visible] := count[visible] - 1;
            effect := Erase;
          }
        case Tab =>
          var n := TypeSpaces();
          effect := Echo(Repeat(SPACE, n));
        case ClearScreen => effect := Blank;
        case SwitchTo(t) => visible := t; effect := Show(t);
        case Interrupt => effect := HaltProgram;
        case Char(c) => effect := TypeCharacter(c);
      }
    }

    /** The loop of the tab key. */
    method TypeSpaces() returns (n: nat)
      requires Valid()
      modifies keyBuf, count
      ensures n == TabRoom(old(count[visible]))
      ensures Abs() == Store(old(Abs()), Repeat(SPACE, n), n)
    {
      ghost var m, at := keyBuf[..], KEYBUFFER_LENGTH * visible + count[visible];
      ghost var c0 := count[..];
      assert c0[visible] <= KEYBOARD_BUFFER_SIZE;
      n := 0;
      for i := 0 to TAB_LENGTH
        invariant n <= i && c0[visible] + n <= KEYBOARD_BUFFER_SIZE
        invariant n == i || c0[visible] + n == KEYBOARD_BUFFER_SIZE
        invariant keyBuf[..] == Overlay(m, at, Repeat(SPACE, n)) && count[..] == c0[visible := c0[visible] + n]
      {
        if count[visible] < KEYBOARD_BUFFER_SIZE {
          OverlayJoin(m, at, Repeat(SPACE, n), [SPACE]);
          assert Repeat(SPACE, n) + [SPACE] == Repeat(SPACE, n + 1);
          keyBuf[KEYBUFFER_LENGTH * visible + count[visible]] := SPACE;
          count[visible] := count[visible] + 1;
          n := n + 1;
        }
      }
    }

    /** A character key, Enter included. */
    method TypeCharacter(c: byte) returns (effect: Effect)
      requires Valid()
      modifies keyBuf, count, readFlag
      ensures (Abs(), effect) == Press(old(Abs()), Char(c))
    {
      var n := count[visible];
      assert n == count[..][visible] <= KEYBOARD_BUFFER_SIZE;
      ghost var m, at := keyBuf[..], KEYBUFFER_LENGTH * visible + n;
      assert m[at := c] == Overlay(m, at, [c]);
      effect := NoEffect;
      if c == NEWLINE {
        keyBuf[KEYBUFFER_LENGTH * visible + n] := c;
        readFlag[visible] := false;
        count[visible] := 0;
        effect := Echo([c]);
      } else if n < KEYBOARD_BUFFER_SIZE {
        keyBuf[KEYBUFFER_LENGTH * visible + n] := c;
        count[visible] := n + 1;
        effect := Echo([c]);
      }
    }

    /** The start of terminal_read: the terminal is locked until Enter. */
    method BeginRead(t: nat)
      requires Valid() && t < TERMINALS
      modifies readFlag
      ensures Valid() && Abs() == Locked(old(Abs()), t)
      ensures forall u :: 0 <= u < TERMINALS ==> (readFlag[u] <==> u == t || old(readFlag[u]))
    {
      readFlag[t] := true;
    }

    /** terminal_read with the scan codes that arrive: it locks the terminal, refuses a
        null buffer or a negative size, and waits while the handler works; when Enter
        has come it copies the buffer. */
    method TerminalRead(t: nat, codes: seq<byte>, buf: array?<byte>, n: int) returns (r: ReadResult)
      requires Valid() && t < TERMINALS
      requires buf != null && n >= 0 ==>
                 n <= buf.Length && buf != keyBuf && buf as object != count && buf as object != readFlag
      modifies this, keyBuf, count, readFlag, buf
      ensures Valid()
      ensures r == Refused <==> buf == null || n < 0
      ensures r == Refused ==> Abs() == Locked(old(Abs()), t) && (buf != null ==> buf[..] == old(buf[..]))
      ensures r != Refused ==> Abs() == Run(maps, Locked(old(Abs()), t), codes)
      ensures r != Refused ==>
                (r == Waiting <==> Char(NEWLINE) !in KeysFor(maps, Locked(old(Abs()), t), codes, t))
      ensures r == Waiting ==> buf[..] == old(buf[..])
      ensures r.Done? || r.Outside? ==> buf != null && n >= 0 && Copied(Abs().Row(t), n, old(buf[..]), buf[..], r)
    {
      ghost var k := Locked(Abs(), t);
      BeginRead(t);
      if buf == null || n < 0 {
        return Refused;
      }
      for i := 0 to |codes|
        invariant Valid() && Run(maps, Abs(), codes[i..]) == Run(maps, k, codes)
        invariant buf[..] == old(buf[..])
      {
        assert codes[i..][1..] == codes[i + 1..];
        var _ := KeyboardHandler(codes[i]);
      }
      ReadWaitsForEnter(maps, k, codes, t);
      assert Abs() == Run(maps, k, codes) && Abs().locked[t] == readFlag[t];
      if readFlag[t] {
        return Waiting;
      }
      r := FinishRead(t, buf, n);
    }

    /** The rest of terminal_read, once Enter has unlocked the terminal. */
    method FinishRead(t: nat, buf: array<byte>, n: nat) returns (r: ReadResult)
      requires Valid() && t < TERMINALS && !readFlag[t]
      requires n <= buf.Length && buf != keyBuf && buf as object != count && buf as object != readFlag
      modifies buf
      ensures (r.Done? || r.Outside?) && Copied(Abs().Row(t), n, old(buf[..]), buf[..], r)
    {
      r := CopyLine(keyBuf[KEYBUFFER_LENGTH * t..KEYBUFFER_LENGTH * (t + 1)], buf, n);
    }

    /** The copy loop of terminal_read, as far as its loads stay inside the buffer. */
    method CopyLine(row: seq<byte>, buf: array<byte>, n: nat) returns (r: ReadResult)
      requires n <= buf.Length
      modifies buf
      ensures (r.Done? || r.Outside?) && Copied(row, n, old(buf[..]), buf[..], r)
    {
      assert row == row[..|row|];
      for i := 0 to n
        invariant i <= |row| && NEWLINE !in row[..i] && (i == n ==> n == 0)
        invariant forall k :: 0 <= k < buf.Length ==> buf[k] == if k < i then row[k] else old(buf[k])
      {
        if i == n - 1 {
          buf[i] := NEWLINE;
          DeliveredStop(row, n, i);
          assert buf[..] == (row[..i] + [NEWLINE]) + old(buf[..])[i + 1..];
          return Done(i + 1);
        }
        if i == |row| {
          return Outside;
        }
        buf[i] := row[i];
        if row[i] == NEWLINE {
          DeliveredStop(row, n, i);
          assert buf[..] == (row[..i] + [NEWLINE]) + old(buf[..])[i + 1..];
          return Done(i + 1);
        }
      }
      r := Done(0);
    }
  }

  /** How a read ends, or that it still waits. The model goes no further when the next
      load is not inside the key buffer. */
  datatype ReadResult = Refused | Waiting | Done(value: nat) | Outside

  /** What the copy of a key buffer leaves in the reader's: what is delivered and nothing
      else, or the whole key buffer before a load outside it. */
  predicate Copied(row: seq<byte>, n: nat, before: seq<byte>, after: seq<byte>, r: ReadResult) {
    && |after| == |before| && n <= |before| && (r.Outside? <==> !LoadsInside(row, n))
    && (r.Done? ==> r.value <= n && LoadsInside(row, n)
                    && after == Delivered(row, n) + before[r.value..] && |Delivered(row, n)| == r.value)
    && (r.Outside? ==> |row| <= n && after == row + before[|row|..])
  }

  /** The state in which a read of terminal t has begun. */
  function Locked(k: State, t: nat): (r: State)
    requires k.Valid() && t < TERMINALS
    ensures r.Valid()
  {
    k.(locked := k.locked[t := true])
  }

  /** The read stops at the first line break or at its last byte. */
  lemma {:induction false} DeliveredStop(row: seq<byte>, n: nat, i: nat)
    requires LoadsInside(row, n) && i < n && i <= |row| && NEWLINE !in row[..i]
    requires i == n - 1 || (i < |row| && row[i] == NEWLINE)
    ensures Delivered(row, n) == row[..i] + [NEWLINE]
    decreases i
  {
    if i > 0 {
      assert row[0] == row[..i][0] && row[1..][..i - 1] == row[..i][1..];
      assert row == [row[0]] + row[1..];
      DeliveredStop(row[1..], n - 1, i - 1);
    }
  }
}
