/** The keyboard handler together with the screens and the scheduler: where the echo of
    a key goes, when the handler may run, and when delete is in order
    (student-distrib/keyboard.c, student-distrib/lib.c, student-distrib/pit.c). */
module Desk {
  import opened Bytes
  import opened Keyboard
  import Processes
  import Console
  import Screens

  /** Keyboard, screens, the scheduled terminal, and whether the keyboard's interrupt
      is enabled. */
  datatype Desk = Desk(keys: Keyboard.State, screens: Screens.State, sched: nat, enabled: bool) {
    predicate Valid() {
      keys.Valid() && screens.Valid() && sched < TERMINALS && keys.visible == screens.visible
    }
  }

  /** A scan code arrives, a tick hands over the processor (any but the first tick), or
      a program writes a byte. */
  datatype Event = Scan(code: byte) | Tick | Output(c: byte)

  function KeyOf(maps: KeyMaps, d: Desk, code: byte): Key
    requires maps.Valid()
  {
    Decode(maps, Track(d.keys.mods, code), code)
  }

  /** What the handler's effect does to the screens. */
  function CarriedOut(s: Screens.State, sched: nat, effect: Effect): (s': Screens.State)
    requires s.Valid() && sched < TERMINALS && (effect.Show? ==> effect.t < TERMINALS)
    requires effect.Erase? ==> s.x[s.visible] > 0
    ensures s'.Valid() && s'.visible == if effect.Show? then effect.t else s.visible
  {
    match effect
    case NoEffect => s
    case Echo(text) => Screens.Puts(s, sched, text)
    case Erase => Screens.EraseVisible(s)
    case Blank => Screens.ClearVisible(s)
    case Show(t) => Screens.Switch(s, t)
    case HaltProgram => Screens.Puts(s, sched, [NEWLINE])
  }

  /** The step is a delete that would lower screen_x below 0. */
  predicate Wraps(maps: KeyMaps, d: Desk, e: Event)
    requires maps.Valid() && d.Valid()
  {
    e.Scan? && d.enabled && Handle(maps, d.keys, e.code).1.Erase? && d.screens.x[d.screens.visible] == 0
  }

  lemma HandleVisible(maps: KeyMaps, k: Keyboard.State, code: byte)
    requires maps.Valid() && k.Valid()
    ensures var (k', effect) := Handle(maps, k, code);
            k'.visible == (if effect.Show? then effect.t else k.visible) && (effect.Show? ==> effect.t < TERMINALS)
  {
  }

  /** One step. The handler runs only while its interrupt is enabled; a tick enables it
      if and only if it schedules the visible terminal. */
  function Step(maps: KeyMaps, d: Desk, e: Event): (d': Desk)
    requires maps.Valid() && d.Valid() && !Wraps(maps, d, e)
    ensures d'.Valid()
  {
    match e
    case Scan(code) =>
      if !d.enabled then d
      else
        HandleVisible(maps, d.keys, code);
        var (k, effect) := Handle(maps, d.keys, code);
        d.(keys := k, screens := CarriedOut(d.screens, d.sched, effect))
    case Tick =>
      var n := Processes.NextTerminal(d.sched);
      d.(sched := n, enabled := n == d.screens.visible)
    case Output(c) => d.(screens := Screens.Putc(d.screens, d.sched, c))
  }

  /** No delete of the run wraps. */
  predicate CanRun(maps: KeyMaps, d: Desk, es: seq<Event>)
    requires maps.Valid() && d.Valid()
    decreases |es|
  {
    es == [] || (!Wraps(maps, d, es[0]) && CanRun(maps, Step(maps, d, es[0]), es[1..]))
  }

  function Run(maps: KeyMaps, d: Desk, es: seq<Event>): (d': Desk)
    requires maps.Valid() && d.Valid() && CanRun(maps, d, es)
    ensures d'.Valid()
    decreases |es|
  {
    if es == [] then d else Run(maps, Step(maps, d, es[0]), es[1..])
  }

  // ---- Where the echo goes ----

  /** An echo is printed on the scheduled terminal's screen, whichever line it edits. */
  lemma EchoIsPrinted(maps: KeyMaps, d: Desk, code: byte, t: nat)
    requires maps.Valid() && d.Valid() && d.enabled && t < TERMINALS && Handle(maps, d.keys, code).1.Echo?
    ensures var d' := Step(maps, d, Scan(code)); var text := Handle(maps, d.keys, code).1.text;
            && d'.screens.Screen(t) == (if t == d.sched then Console.PutAll(d.screens.Screen(t), text)
                                        else d.screens.Screen(t))
            && d'.keys.Line(t) == (if t == d.keys.visible then Edit(d.keys.Line(t), KeyOf(maps, d, code))
                                   else d.keys.Line(t))
  {
    var m := Track(d.keys.mods, code);
    Screens.PutsIsPrivate(d.screens, d.sched, Handle(maps, d.keys, code).1.text, t);
    PressEdits(d.keys.(mods := m), Decode(maps, m, code), t);
    assert d.keys.(mods := m).Line(t) == d.keys.Line(t);
  }

  /** The terminal that was visible at the last tick of a run, at its start if none. */
  function VisibleAtTick(maps: KeyMaps, d: Desk, es: seq<Event>, v: nat): nat
    requires maps.Valid() && d.Valid() && CanRun(maps, d, es)
    decreases |es|
  {
    if es == [] then v
    else VisibleAtTick(maps, Step(maps, d, es[0]), es[1..], if es[0].Tick? then d.keys.visible else v)
  }

  /** The mask was set for terminal v. */
  predicate MaskFor(d: Desk, v: nat) {
    d.enabled <==> d.sched == v
  }

  lemma {:induction false} MaskIsOfTick(maps: KeyMaps, d: Desk, es: seq<Event>, v: nat)
    requires maps.Valid() && d.Valid() && CanRun(maps, d, es) && MaskFor(d, v)
    ensures MaskFor(Run(maps, d, es), VisibleAtTick(maps, d, es, v))
    decreases |es|
  {
    if es != [] {
      MaskIsOfTick(maps, Step(maps, d, es[0]), es[1..], if es[0].Tick? then d.keys.visible else v);
    }
  }

  /** When the handler runs, the scheduled terminal, which gets the echo, is the visible
      one, whose line is edited, if and only if the terminal visible now is the one
      that was visible at the last tick. */
  lemma EchoMeetsLineIff(maps: KeyMaps, d: Desk, es: seq<Event>)
    requires maps.Valid() && d.Valid() && CanRun(maps, d, es) && MaskFor(d, d.keys.visible)
    requires Run(maps, d, es).enabled
    ensures var d' := Run(maps, d, es);
            d'.sched == d'.keys.visible <==> d'.keys.visible == VisibleAtTick(maps, d, es, d.keys.visible)
  {
    MaskIsOfTick(maps, d, es, d.keys.visible);
  }

  /** The scheduler goes round: k ticks later the terminal k places further is scheduled,
      whatever is typed, shown or written in between. */
  lemma {:induction false} DeskGoesRound(maps: KeyMaps, d: Desk, es: seq<Event>, k: nat)
    requires maps.Valid() && d.Valid() && CanRun(maps, d, es) && k == TicksIn(es)
    ensures Run(maps, d, es).sched == (d.sched + k) % TERMINALS
    decreases |es|
  {
    if es != [] {
      DeskGoesRound(maps, Step(maps, d, es[0]), es[1..], if es[0].Tick? then k - 1 else k);
      if es[0].Tick? {
        OneTurn(d.sched, k);
      }
    }
  }

  lemma OneTurn(t: nat, k: nat)
    requires t < TERMINALS && k > 0
    ensures (Processes.NextTerminal(t) + (k - 1)) % TERMINALS == (t + k) % TERMINALS
  {
  }

  function TicksIn(es: seq<Event>): nat
    decreases |es|
  {
    if es == [] then 0 else (if es[0].Tick? then 1 else 0) + TicksIn(es[1..])
  }

  // ---- One terminal ----

  /** A terminal by itself: its screen and its key buffer. */
  datatype Terminal = Terminal(con: Console.Console, buf: Buffer) {
    predicate Valid() {
      con.Valid() && buf.Valid()
    }
  }

  function TerminalOf(d: Desk, t: nat): (r: Terminal)
    requires d.Valid() && t < TERMINALS
    ensures r.Valid()
  {
    Terminal(d.screens.Screen(t), BufferOf(d.keys, t))
  }

  /** A key typed on the terminal, or a byte written by its program. */
  datatype Input = Key(key: Keyboard.Key) | Written(c: byte)

  /** The text that a key puts on the screen. */
  function EchoOf(count: nat, key: Keyboard.Key): seq<byte> {
    if key.Interrupt? then [NEWLINE] else StoredBy(count, key)
  }

  /** The key deletes a character. */
  predicate Deletes(p: Terminal, i: Input) {
    i.Key? && i.key.Backspace? && p.buf.count > 0
  }

  /** What the terminal does with it. */
  function Act(p: Terminal, i: Input): (r: Terminal)
    requires p.Valid() && (Deletes(p, i) ==> p.con.x > 0)
    ensures r.Valid()
  {
    match i
    case Written(c) => p.(con := Console.Put(p.con, c))
    case Key(key) =>
      Terminal(if Deletes(p, i) then Console.Erased(p.con)
               else if key.ClearScreen? then Console.Clear(p.con)
               else Console.PutAll(p.con, EchoOf(p.buf.count, key)),
               Typed(p.buf, key))
  }

  /** What reaches terminal t in a step. */
  function InputsFor(maps: KeyMaps, d: Desk, e: Event, t: nat): seq<Input>
    requires maps.Valid() && d.Valid()
  {
    match e
    case Scan(code) => if d.enabled && t == d.keys.visible then [Key(KeyOf(maps, d, code))] else []
    case Tick => []
    case Output(c) => if t == d.sched then [Written(c)] else []
  }

  /** No key comes between a switch of terminals and the next tick. */
  predicate Current(d: Desk, e: Event) {
    e.Scan? && d.enabled ==> d.sched == d.keys.visible
  }

  lemma BufferActs(maps: KeyMaps, d: Desk, code: byte, t: nat)
    requires maps.Valid() && d.Valid() && t < TERMINALS
    ensures BufferOf(Handle(maps, d.keys, code).0, t) ==
            if t == d.keys.visible then Typed(BufferOf(d.keys, t), KeyOf(maps, d, code)) else BufferOf(d.keys, t)
  {
    var k := d.keys.(mods := Track(d.keys.mods, code));
    PressTypes(k, KeyOf(maps, d, code), t);
    assert BufferOf(k, t) == BufferOf(d.keys, t);
  }

  /** The screen that an effect leaves to terminal t. */
  lemma EffectActs(s: Screens.State, effect: Effect, t: nat)
    requires s.Valid() && t < TERMINALS && (effect.Show? ==> effect.t < TERMINALS)
    requires effect.Erase? ==> s.x[s.visible] > 0
    ensures CarriedOut(s, s.visible, effect).Screen(t) ==
            var con := s.Screen(t);
            if t != s.visible then con
            else match effect
                 case Echo(text) => Console.PutAll(con, text)
                 case Erase => Console.Erased(con)
                 case Blank => Console.Clear(con)
                 case HaltProgram => Console.PutAll(con, [NEWLINE])
                 case _ => con
  {
    match effect
    case NoEffect =>
    case Echo(text) => Screens.PutsIsPrivate(s, s.visible, text, t);
    case Erase => Screens.EraseIsPrivate(s, t);
    case Blank => Screens.ClearIsPrivate(s, t);
    case Show(n) => Screens.SwitchKeepsScreens(s, n, t);
    case HaltProgram => Screens.PutsIsPrivate(s, s.visible, [NEWLINE], t);
  }

  /** The effect of a key in terms of the terminal alone. */
  lemma EffectIs(maps: KeyMaps, d: Desk, code: byte)
    requires maps.Valid() && d.Valid()
    ensures var p, key, effect := TerminalOf(d, d.keys.visible), KeyOf(maps, d, code), Handle(maps, d.keys, code).1;
            && (effect.Erase? <==> Deletes(p, Key(key))) && (effect.Blank? <==> key.ClearScreen?)
            && (effect.Echo? || effect.HaltProgram? ==>
                  EchoOf(p.buf.count, key) == if effect.Echo? then effect.text else [NEWLINE])
            && (effect.NoEffect? || effect.Show? ==> EchoOf(p.buf.count, key) == [])
  {
  }

  lemma ScanActs(maps: KeyMaps, d: Desk, code: byte, t: nat)
    requires maps.Valid() && d.Valid() && t < TERMINALS && d.enabled && d.sched == d.keys.visible
    requires !Wraps(maps, d, Scan(code))
    ensures TerminalOf(Step(maps, d, Scan(code)), t) ==
            if t == d.keys.visible then Act(TerminalOf(d, t), Key(KeyOf(maps, d, code))) else TerminalOf(d, t)
  {
    HandleVisible(maps, d.keys, code);
    BufferActs(maps, d, code, t);
    EffectIs(maps, d, code);
    EffectActs(d.screens, Handle(maps, d.keys, code).1, t);
  }

  /** Inputs none of which deletes at screen_x 0. */
  predicate Acts(p: Terminal, us: seq<Input>)
    requires p.Valid()
    decreases |us|
  {
    us == [] || ((Deletes(p, us[0]) ==> p.con.x > 0) && Acts(Act(p, us[0]), us[1..]))
  }

  function ActAll(p: Terminal, us: seq<Input>): (r: Terminal)
    requires p.Valid() && Acts(p, us)
    ensures r.Valid()
    decreases |us|
  {
    if us == [] then p else ActAll(Act(p, us[0]), us[1..])
  }

  lemma StepActs(maps: KeyMaps, d: Desk, e: Event, t: nat)
    requires maps.Valid() && d.Valid() && t < TERMINALS && Current(d, e) && !Wraps(maps, d, e)
    ensures var us := InputsFor(maps, d, e, t);
            && (us != [] ==> !Deletes(TerminalOf(d, t), us[0]) || d.screens.x[t] > 0)
            && TerminalOf(Step(maps, d, e), t) == if us == [] then TerminalOf(d, t) else Act(TerminalOf(d, t), us[0])
  {
    match e
    case Scan(code) =>
      if d.enabled {
        EffectIs(maps, d, code);
        ScanActs(maps, d, code, t);
      }
    case Tick =>
    case Output(c) => Screens.PutcIsPrivate(d.screens, d.sched, c, t);
  }

  // ---- Runs ----

  /** Every key of the run is typed with the mask up to date. */
  predicate AllCurrent(maps: KeyMaps, d: Desk, es: seq<Event>)
    requires maps.Valid() && d.Valid() && CanRun(maps, d, es)
    decreases |es|
  {
    es == [] || (Current(d, es[0]) && AllCurrent(maps, Step(maps, d, es[0]), es[1..]))
  }

  /** All that reaches terminal t. */
  function InputsOf(maps: KeyMaps, d: Desk, es: seq<Event>, t: nat): seq<Input>
    requires maps.Valid() && d.Valid() && CanRun(maps, d, es)
    decreases |es|
  {
    if es == [] then [] else InputsFor(maps, d, es[0], t) + InputsOf(maps, Step(maps, d, es[0]), es[1..], t)
  }

  /** If no key is typed between a switch and the next tick, each terminal behaves as a
      terminal by itself, fed the keys typed while it was visible and the output of its
      own programs: for every interleaving of keys, switches, ticks and output. */
  lemma {:induction false} DeskIsPrivate(maps: KeyMaps, d: Desk, es: seq<Event>, t: nat)
    requires maps.Valid() && d.Valid() && CanRun(maps, d, es) && AllCurrent(maps, d, es) && t < TERMINALS
    ensures var us := InputsOf(maps, d, es, t);
            Acts(TerminalOf(d, t), us) && TerminalOf(Run(maps, d, es), t) == ActAll(TerminalOf(d, t), us)
    decreases |es|
  {
    if es != [] {
      var d' := Step(maps, d, es[0]);
      StepActs(maps, d, es[0], t);
      DeskIsPrivate(maps, d', es[1..], t);
      InputsCons(TerminalOf(d, t), InputsFor(maps, d, es[0], t), InputsOf(maps, d', es[1..], t), TerminalOf(d', t));
    }
  }

  lemma InputsCons(p: Terminal, us: seq<Input>, rest: seq<Input>, p': Terminal)
    requires p.Valid() && p'.Valid() && |us| <= 1 && (us != [] && Deletes(p, us[0]) ==> p.con.x > 0)
    requires p' == (if us == [] then p else Act(p, us[0])) && Acts(p', rest)
    ensures Acts(p, us + rest) && ActAll(p, us + rest) == ActAll(p', rest)
  {
    if us == [] {
      assert us + rest == rest;
    } else {
      assert (us + rest)[1..] == rest;
    }
  }

  // ---- Deleting ----

  /** The line being typed lies behind the last line break on the screen. */
  predicate Fitting(p: Terminal)
    requires p.Valid()
  {
    p.buf.count <= p.con.x
  }

  /** The input takes the cursor to the start of a row. */
  predicate Returns(i: Input) {
    match i
    case Written(c) => Console.IsBreak(c)
    case Key(key) => key.ClearScreen? || key.Interrupt? || key == Char(CARRIAGE_RETURN)
  }

  /** The cursor returns, Enter apart, only with no line begun. */
  predicate Orderly(p: Terminal, i: Input) {
    Returns(i) ==> p.buf.count == 0 && i != Key(Char(CARRIAGE_RETURN))
  }

  /** Putting a character moves screen_x on, or leaves it near the end of a line that
      fills the screen. */
  lemma PutMovesOn(con: Console.Console, c: byte)
    requires con.Valid() && !Console.IsBreak(c)
    ensures var x := Console.Put(con, c).x; x == con.x + 1 || x >= Console.CELLS - Console.COLS
  {
  }

  lemma {:induction false} SpacesMoveOn(con: Console.Console, n: nat)
    requires con.Valid()
    ensures var x := Console.PutAll(con, Repeat(SPACE, n)).x; x >= con.x + n || x >= Console.CELLS - Console.COLS - n
    decreases n
  {
    if n > 0 {
      SpacesMoveOn(con, n - 1);
      LastSpace(n);
      PutMovesOn(Console.PutAll(con, Repeat(SPACE, n - 1)), SPACE);
    }
  }

  lemma EchoOne(con: Console.Console, c: byte)
    requires con.Valid()
    ensures Console.PutAll(con, [c]) == Console.Put(con, c)
  {
    assert [c][..0] == [];
    assert Console.PutAll(con, [c][..0]) == con;
  }

  /** What a terminal does with orderly input: delete always finds a character, and the
      line stays behind the last line break. */
  lemma ActKeepsFitting(p: Terminal, i: Input)
    requires p.Valid() && Fitting(p) && Orderly(p, i)
    ensures (Deletes(p, i) ==> p.con.x > 0) && Fitting(Act(p, i))
  {
    match i
    case Written(c) =>
      if !Console.IsBreak(c) {
        PutMovesOn(p.con, c);
      }
    case Key(key) =>
      if key.Tab? {
        SpacesMoveOn(p.con, TabRoom(p.buf.count));
      } else if key.Char? {
        EchoOne(p.con, key.c);
        if !Console.IsBreak(key.c) {
          PutMovesOn(p.con, key.c);
        }
      }
  }

  /** The step is of this kind for each terminal, with the mask up to date. */
  predicate Mannerly(maps: KeyMaps, d: Desk, e: Event)
    requires maps.Valid() && d.Valid()
  {
    Current(d, e) && forall t :: 0 <= t < TERMINALS && InputsFor(maps, d, e, t) != [] ==>
                       Orderly(TerminalOf(d, t), InputsFor(maps, d, e, t)[0])
  }

  predicate AllFitting(d: Desk)
    requires d.Valid()
  {
    forall t :: 0 <= t < TERMINALS ==> d.keys.count[t] <= d.screens.x[t]
  }

  lemma StepKeepsFitting(maps: KeyMaps, d: Desk, e: Event)
    requires maps.Valid() && d.Valid() && AllFitting(d) && Mannerly(maps, d, e)
    ensures !Wraps(maps, d, e) && AllFitting(Step(maps, d, e))
  {
    forall t | 0 <= t < TERMINALS
      ensures !Wraps(maps, d, e) && Fitting(TerminalOf(Step(maps, d, e), t))
    {
      var us := InputsFor(maps, d, e, t);
      if us != [] {
        ActKeepsFitting(TerminalOf(d, t), us[0]);
      }
      DeleteFits(maps, d, e);
      StepActs(maps, d, e, t);
    }
    FittingAll(Step(maps, d, e));
  }

  lemma FittingAll(d: Desk)
    requires d.Valid() && forall t :: 0 <= t < TERMINALS ==> Fitting(TerminalOf(d, t))
    ensures AllFitting(d)
  {
    forall t | 0 <= t < TERMINALS ensures d.keys.count[t] <= d.screens.x[t] {
      assert Fitting(TerminalOf(d, t));
    }
  }

  /** A delete, of a line that is not empty, finds a character. */
  lemma DeleteFits(maps: KeyMaps, d: Desk, e: Event)
    requires maps.Valid() && d.Valid() && AllFitting(d)
    ensures !Wraps(maps, d, e)
  {
    if e.Scan? {
      EffectIs(maps, d, e.code);
    }
  }

  /** Every step of the run is so. */
  predicate AllMannerly(maps: KeyMaps, d: Desk, es: seq<Event>)
    requires maps.Valid() && d.Valid()
    decreases |es|
  {
    es == [] || (Mannerly(maps, d, es[0]) &&
                 (!Wraps(maps, d, es[0]) ==> AllMannerly(maps, Step(maps, d, es[0]), es[1..])))
  }

  /** If no key is typed between a switch and the next tick, and neither output nor a
      key takes the cursor to the start of a row while a line is being typed, no
      delete of the run wraps. */
  lemma {:induction false} DeletesInOrder(maps: KeyMaps, d: Desk, es: seq<Event>)
    requires maps.Valid() && d.Valid() && AllFitting(d) && AllMannerly(maps, d, es)
    ensures CanRun(maps, d, es) && AllFitting(Run(maps, d, es)) && AllCurrent(maps, d, es)
    decreases |es|
  {
    if es != [] {
      StepKeepsFitting(maps, d, es[0]);
      DeletesInOrder(maps, Step(maps, d, es[0]), es[1..]);
    }
  }

  // ---- The line on the screen ----

  /** The cells before the cursor show the line being typed. */
  predicate Shown(p: Terminal)
    requires p.Valid()
  {
    Fitting(p) && Console.Tail(p.con, p.buf.count) == p.buf.row[..p.buf.count]
  }

  /** Orderly, and no output at all while a line is being typed. */
  predicate Tidy(p: Terminal, i: Input) {
    Orderly(p, i) && (i.Written? ==> p.buf.count == 0)
  }

  lemma ActKeepsShown(p: Terminal, i: Input)
    requires p.Valid() && Shown(p) && Tidy(p, i)
    ensures (Deletes(p, i) ==> p.con.x > 0) && Shown(Act(p, i))
  {
    ActKeepsFitting(p, i);
    match i
    case Written(c) =>
    case Key(key) =>
      match key
      case Backspace =>
        if p.buf.count > 0 {
          Console.EraseTail(p.con, p.buf.count);
        }
      case Tab => SpacesShown(p, TabRoom(p.buf.count));
      case Char(c) =>
        EchoOne(p.con, c);
        if c != NEWLINE && p.buf.count < KEYBOARD_BUFFER_SIZE {
          CharacterShown(p.con, p.buf, c);
        }
      case _ =>
  }

  lemma CharacterShown(con: Console.Console, b: Buffer, c: byte)
    requires con.Valid() && b.Valid() && Shown(Terminal(con, b)) && !Console.IsBreak(c)
    requires b.count < KEYBOARD_BUFFER_SIZE
    ensures Shown(Terminal(Console.Put(con, c), Typed(b, Char(c))))
  {
    PutMovesOn(con, c);
    Console.PutTail(con, b.count, c);
    assert Typed(b, Char(c)).row[..b.count + 1] == b.row[..b.count] + [c];
  }

  lemma SpacesShown(p: Terminal, n: nat)
    requires p.Valid() && Shown(p) && n == TabRoom(p.buf.count)
    ensures Shown(Terminal(Console.PutAll(p.con, Repeat(SPACE, n)), Typed(p.buf, Tab)))
  {
    var r := Typed(p.buf, Tab);
    SpacesTail(p.con, p.buf.count, n);
    SpacesMoveOn(p.con, n);
    assert r.row[..p.buf.count + n] == p.buf.row[..p.buf.count] + Repeat(SPACE, n);
  }

  lemma {:induction false} SpacesTail(con: Console.Console, count: nat, n: nat)
    requires con.Valid() && count <= con.Position() && count + n <= KEYBOARD_BUFFER_SIZE
    ensures EndsWith(Console.PutAll(con, Repeat(SPACE, n)), Console.Tail(con, count) + Repeat(SPACE, n))
    decreases n
  {
    if n == 0 {
      assert Repeat(SPACE, n) == [] && Console.Tail(con, count) + [] == Console.Tail(con, count);
    } else {
      SpacesTail(con, count, n - 1);
      LastSpace(n);
      SpacesAppended(Console.Tail(con, count), n);
      SpaceAppended(Console.PutAll(con, Repeat(SPACE, n - 1)), Console.Tail(con, count) + Repeat(SPACE, n - 1));
    }
  }

  /** The cells before the cursor show the text. */
  predicate EndsWith(con: Console.Console, text: seq<byte>)
    requires con.Valid()
  {
    |text| <= con.Position() && Console.Tail(con, |text|) == text
  }

  lemma SpaceAppended(con: Console.Console, text: seq<byte>)
    requires con.Valid() && EndsWith(con, text) && |text| <= KEYBOARD_BUFFER_SIZE
    ensures EndsWith(Console.Put(con, SPACE), text + [SPACE])
  {
    Console.PutTail(con, |text|, SPACE);
  }

  lemma LastSpace(n: nat)
    requires n > 0
    ensures Repeat(SPACE, n)[..n - 1] == Repeat(SPACE, n - 1) && Repeat(SPACE, n)[n - 1] == SPACE
  {
  }

  lemma SpacesAppended(s: seq<byte>, n: nat)
    requires n > 0
    ensures s + Repeat(SPACE, n - 1) + [SPACE] == s + Repeat(SPACE, n)
  {
  }

  predicate AllTidy(p: Terminal, us: seq<Input>)
    requires p.Valid()
    decreases |us|
  {
    us == [] || (Tidy(p, us[0]) && ((Deletes(p, us[0]) ==> p.con.x > 0) ==> AllTidy(Act(p, us[0]), us[1..])))
  }

  lemma {:induction false} ShownThroughout(p: Terminal, us: seq<Input>)
    requires p.Valid() && Acts(p, us) && AllTidy(p, us) && Shown(p)
    ensures Shown(ActAll(p, us))
    decreases |us|
  {
    if us != [] {
      ActKeepsShown(p, us[0]);
      ShownThroughout(Act(p, us[0]), us[1..]);
    }
  }

  /** What you see is what Enter will deliver: over every run in which keys are typed
      with the mask up to date, and a terminal's own programs write nothing while a line
      is being typed on it, the cells before its cursor show that line, also across
      scrolls, deletes, tabs and switches. */
  lemma LineOnScreen(maps: KeyMaps, d: Desk, es: seq<Event>, t: nat)
    requires maps.Valid() && d.Valid() && CanRun(maps, d, es) && AllCurrent(maps, d, es) && t < TERMINALS
    requires Shown(TerminalOf(d, t)) && AllTidy(TerminalOf(d, t), InputsOf(maps, d, es, t))
    ensures var d' := Run(maps, d, es); var con := d'.screens.Screen(t);
            && d'.keys.count[t] <= con.Position()
            && Console.Tail(con, d'.keys.count[t]) == d'.keys.Line(t)
  {
    DeskIsPrivate(maps, d, es, t);
    ShownThroughout(TerminalOf(d, t), InputsOf(maps, d, es, t));
    assert Shown(TerminalOf(Run(maps, d, es), t));
  }

  // ---- Runs that go wrong ----

  const CODE_ALT: byte := 0x38
  const CODE_F2: byte := 0x3C
  const CODE_CTRL: byte := 0x1D
  const CODE_L: byte := 0x26
  const CODE_BACKSPACE: byte := 0x0E

  /** The tables map these codes as the repository's do. */
  predicate Tables(maps: KeyMaps) {
    Mapped(maps) && maps.plain[CODE_ALT] == NUL && maps.plain[CODE_CTRL] == NUL
  }

  /** Terminal 0 is visible and scheduled, no modifier is held, and no line is begun. */
  predicate AtRest(d: Desk) {
    && d.Valid() && d.keys.mods == Modifiers(false, false, 0, false, false) && d.enabled
    && d.sched == d.keys.visible == 0 && d.keys.count == [0, 0, 0]
  }

  lemma RunOne(maps: KeyMaps, d: Desk, e: Event, es: seq<Event>)
    requires maps.Valid() && d.Valid() && !Wraps(maps, d, e) && CanRun(maps, Step(maps, d, e), es)
    ensures CanRun(maps, d, [e] + es) && Run(maps, d, [e] + es) == Run(maps, Step(maps, d, e), es)
  {
    assert ([e] + es)[1..] == es;
  }

  lemma RunThree(maps: KeyMaps, d: Desk, e: Event, f: Event, g: Event, d1: Desk, d2: Desk, d3: Desk)
    requires maps.Valid() && d.Valid() && !Wraps(maps, d, e) && d1 == Step(maps, d, e)
    requires !Wraps(maps, d1, f) && d2 == Step(maps, d1, f) && !Wraps(maps, d2, g) && d3 == Step(maps, d2, g)
    ensures CanRun(maps, d, [e, f, g]) && Run(maps, d, [e, f, g]) == d3
  {
    RunOne(maps, d2, g, []);
    RunOne(maps, d1, f, [g] + []);
    RunOne(maps, d, e, [f] + ([g] + []));
    assert [e, f, g] == [e] + ([f] + ([g] + []));
  }

  /** Alt+F2 and then a before the next tick: terminal 1 has the a in its line and not
      on its screen; it stands on the screen of terminal 0. */
  lemma StaleEcho(maps: KeyMaps, d: Desk)
    requires Tables(maps) && AtRest(d)
    ensures CanRun(maps, d, [Scan(CODE_ALT), Scan(CODE_F2)])
    ensures var d2 := Run(maps, d, [Scan(CODE_ALT), Scan(CODE_F2)]);
            && !Wraps(maps, d2, Scan(CODE_A))
            && var d' := Step(maps, d2, Scan(CODE_A));
               && d'.keys.visible == 1 && d'.keys.Line(1) == [97] && d'.keys.Line(0) == []
               && d'.screens.Screen(1) == d.screens.Screen(1)
               && d'.screens.Screen(0) == Console.Put(d.screens.Screen(0), 97)
  {
    var d2 := SwitchedAway(maps, d);
    Screens.SwitchKeepsScreens(d.screens, 1, 0);
    Screens.SwitchKeepsScreens(d.screens, 1, 1);
    EchoIsPrinted(maps, d2, CODE_A, 0);
    EchoIsPrinted(maps, d2, CODE_A, 1);
    EchoOne(d.screens.Screen(0), 97);
  }

  lemma SwitchedAway(maps: KeyMaps, d: Desk) returns (d2: Desk)
    requires Tables(maps) && AtRest(d)
    ensures d2.keys == d.keys.(mods := d.keys.mods.(leftAlt := true), visible := 1)
    ensures d2.screens == Screens.Switch(d.screens, 1) && d2.sched == 0 && d2.enabled
    ensures CanRun(maps, d, [Scan(CODE_ALT), Scan(CODE_F2)]) && Run(maps, d, [Scan(CODE_ALT), Scan(CODE_F2)]) == d2
  {
    var d1 := d.(keys := d.keys.(mods := d.keys.mods.(leftAlt := true)));
    d2 := Step(maps, d1, Scan(CODE_F2));
    RunOne(maps, d1, Scan(CODE_F2), []);
    RunOne(maps, d, Scan(CODE_ALT), [Scan(CODE_F2)] + []);
    assert [Scan(CODE_ALT), Scan(CODE_F2)] == [Scan(CODE_ALT)] + ([Scan(CODE_F2)] + []);
  }

  /** a, Ctrl and L: the screen is cleared and the line is not, and Backspace then
      stores just before the video page. */
  lemma ClearThenDelete(maps: KeyMaps, d: Desk)
    requires Tables(maps) && AtRest(d)
    ensures var es := [Scan(CODE_A), Scan(CODE_CTRL), Scan(CODE_L)];
            && CanRun(maps, d, es) && Wraps(maps, Run(maps, d, es), Scan(CODE_BACKSPACE))
            && Console.Delete(Run(maps, d, es).screens.Screen(0)).offset == WORD - 2
  {
    var d1 := Step(maps, d, Scan(CODE_A));
    var d2 := d1.(keys := d1.keys.(mods := d1.keys.mods.(control := true)));
    var d3 := d2.(screens := Screens.ClearVisible(d2.screens));
    CodeIsKey(maps, d.keys, CODE_A);
    Screens.ClearIsPrivate(d2.screens, 0);
    RunThree(maps, d, Scan(CODE_A), Scan(CODE_CTRL), Scan(CODE_L), d1, d2, d3);
    Console.DeleteIff(d3.screens.Screen(0));
  }

  /** a, a line break written by the program, and Backspace: it deletes the last cell of
      the row above and leaves screen_x at its largest value. */
  lemma BreakThenDelete(maps: KeyMaps, d: Desk)
    requires Tables(maps) && AtRest(d)
    ensures var es := [Scan(CODE_A), Output(NEWLINE)];
            && CanRun(maps, d, es) && Wraps(maps, Run(maps, d, es), Scan(CODE_BACKSPACE))
            && var con := Run(maps, d, es).screens.Screen(0);
               con.y > 0 && Console.Delete(con) == Console.Deletion(2 * (Console.COLS * con.y - 1), WORD - 1)
  {
    var d1 := Step(maps, d, Scan(CODE_A));
    var d2 := Step(maps, d1, Output(NEWLINE));
    CodeIsKey(maps, d.keys, CODE_A);
    Screens.PutcIsPrivate(d1.screens, 0, NEWLINE, 0);
    RunOne(maps, d1, Output(NEWLINE), []);
    RunOne(maps, d, Scan(CODE_A), [Output(NEWLINE)] + []);
    assert [Scan(CODE_A), Output(NEWLINE)] == [Scan(CODE_A)] + ([Output(NEWLINE)] + []);
    Console.DeleteIff(d2.screens.Screen(0));
  }

  // ---- In place ----

  /** The handler's variables, the terminals', curr_scheduler, and the keyboard's bit in
      the interrupt mask. */
  class Station {
    const handler: Handler
    const terminals: Screens.Terminals
    var sched: nat
    var enabled: bool

    ghost predicate Valid()
      reads this, handler, handler.keyBuf, handler.count, handler.readFlag
      reads terminals, terminals.mem, terminals.screenX, terminals.screenY
    {
      && handler.Valid() && terminals.Valid() && Abs().Valid()
      && handler.keyBuf != terminals.mem && handler.count != terminals.screenX && handler.count != terminals.screenY
    }

    ghost function Abs(): Desk
      reads this, handler, handler.keyBuf, handler.count, handler.readFlag
      reads terminals, terminals.mem, terminals.screenX, terminals.screenY
    {
      Desk(handler.Abs(), terminals.Abs(), sched, enabled)
    }

    /** Behind keyboard_init, which enables the interrupt; terminal 0 is scheduled. */
    constructor (handler: Handler, terminals: Screens.Terminals)
      requires handler.Valid() && terminals.Valid() && handler.visible == terminals.visible
      requires handler.keyBuf != terminals.mem
      requires handler.count != terminals.screenX && handler.count != terminals.screenY
      ensures Valid() && Abs() == Desk(handler.Abs(), terminals.Abs(), 0, true)
    {
      this.handler, this.terminals := handler, terminals;
      sched, enabled := 0, true;
    }

    /** A scan code arrives; false if its delete would wrap, before it does. */
    method Scanned(code: byte) returns (ok: bool)
      requires Valid()
      modifies handler, handler.keyBuf, handler.count, handler.readFlag
      modifies terminals, terminals.mem, terminals.screenX, terminals.screenY
      ensures ok <==> !Wraps(handler.maps, old(Abs()), Scan(code))
      ensures ok ==> Valid() && Abs() == Step(handler.maps, old(Abs()), Scan(code))
    {
      if !enabled {
        return true;
      }
      HandleVisible(handler.maps, handler.Abs(), code);
      var effect := handler.KeyboardHandler(code);
      ok := CarryOut(effect);
    }

    /** The part of the handler that concerns the screen. */
    method CarryOut(effect: Effect) returns (ok: bool)
      requires terminals.Valid() && sched < TERMINALS && (effect.Show? ==> effect.t < TERMINALS)
      modifies terminals, terminals.mem, terminals.screenX, terminals.screenY
      ensures ok <==> !(effect.Erase? && old(terminals.Abs()).x[old(terminals.visible)] == 0)
      ensures ok ==> terminals.Valid() && terminals.Abs() == CarriedOut(old(terminals.Abs()), sched, effect)
    {
      ok := true;
      match effect {
        case NoEffect =>
        case Echo(text) => PrintText(text);
        case Erase =>
          if terminals.screenX[terminals.visible] == 0 {
            return false;
          }
          terminals.DeleteCharacter();
        case Blank => terminals.ClearScreen();
        case Show(t) => terminals.TerminalSwitch(t);
        case HaltProgram => PrintText([NEWLINE]);
      }
    }

    /** One putc a byte. */
    method PrintText(text: seq<byte>)
      requires terminals.Valid() && sched < TERMINALS
      modifies terminals, terminals.mem, terminals.screenX, terminals.screenY
      ensures terminals.Valid() && terminals.Abs() == Screens.Puts(old(terminals.Abs()), sched, text)
    {
      for i := 0 to |text|
        invariant terminals.Valid() && terminals.Abs() == Screens.Puts(old(terminals.Abs()), sched, text[..i])
      {
        assert text[..i + 1][..i] == text[..i];
        terminals.PutC(sched, text[i]);
      }
      assert text[..|text|] == text;
    }

    /** The part of a tick that advances the scheduler and sets the mask. */
    method Ticked()
      requires Valid()
      modifies this`sched, this`enabled
      ensures Valid() && Abs() == Step(handler.maps, old(Abs()), Tick)
    {
      sched := (sched + 1) % TERMINALS;
      if sched == terminals.visible {
        enabled := true;
      } else {
        enabled := false;
      }
    }
  }
}
