/** Three terminals sharing one visible video page (student-distrib/lib.c,
    student-distrib/keyboard.c). Addresses count from the start of video
    memory: the visible page is at 0, the backing page of terminal t at
    PAGE * (t + 1). */
module Screens {
  import opened Bytes
  import opened Console
  import opened Memory

  datatype State = State(mem: seq<byte>, x: seq<nat>, y: seq<nat>, visible: nat, cursor: nat) {
    predicate Valid() {
      && |mem| == PAGE * (TERMINALS + 1) && |x| == |y| == TERMINALS && visible < TERMINALS
      && forall t :: 0 <= t < TERMINALS ==> COLS * y[t] + x[t] < CELLS
    }

    /** Where putc writes for terminal t: video memory while t is visible, its
        backing page otherwise. */
    function Base(t: nat): nat {
      if t == visible then 0 else PAGE * (t + 1)
    }

    /** The logical screen of terminal t. */
    function Screen(t: nat): (r: Console)
      requires Valid() && t < TERMINALS
      ensures r.Valid()
    {
      Console(mem[Base(t)..Base(t) + PAGE], x[t], y[t])
    }

    /** The hardware cursor stands at the cursor of the visible terminal. */
    predicate CursorRight()
      requires Valid()
    {
      cursor == Screen(visible).Position()
    }
  }

  /** The state in which the logical screen of t is replaced by r. */
  function SetScreen(s: State, t: nat, r: Console): (s': State)
    requires s.Valid() && t < TERMINALS && r.Valid()
    ensures s'.Valid() && s'.visible == s.visible
  {
    State(Overlay(s.mem, s.Base(t), r.page), s.x[t := r.x], s.y[t := r.y], s.visible,
          if t == s.visible then r.Position() else s.cursor)
  }

  /** putc while terminal t is scheduled. */
  function Putc(s: State, t: nat, c: byte): (s': State)
    requires s.Valid() && t < TERMINALS
    ensures s'.Valid() && s'.visible == s.visible
  {
    SetScreen(s, t, Put(s.Screen(t), c))
  }

  function Puts(s: State, t: nat, text: seq<byte>): (s': State)
    requires s.Valid() && t < TERMINALS
    ensures s'.Valid() && s'.visible == s.visible
  {
    if text == [] then s else Putc(Puts(s, t, text[..|text| - 1]), t, text[|text| - 1])
  }

  /** clear and clear_set, which always act on the visible page. */
  function ClearVisible(s: State): (s': State)
    requires s.Valid()
    ensures s'.Valid() && s'.visible == s.visible
  {
    SetScreen(s, s.visible, Clear(s.Screen(s.visible)))
  }

  /** delete on the visible page, when it meets a character. */
  function EraseVisible(s: State): (s': State)
    requires s.Valid() && s.x[s.visible] > 0
    ensures s'.Valid() && s'.visible == s.visible
  {
    SetScreen(s, s.visible, Erased(s.Screen(s.visible)))
  }

  /** The bytes of the video page are saved to the backing page of the visible
      terminal, the screen is cleared, and the new terminal's page is loaded. */
  function SwapPages(mem: seq<byte>, visible: nat, next: nat): (r: seq<byte>)
    requires |mem| == PAGE * (TERMINALS + 1) && visible < TERMINALS && next < TERMINALS
    ensures |r| == |mem|
  {
    var saved := Overlay(mem, PAGE * (visible + 1), mem[..PAGE]);
    var cleared := Overlay(saved, 0, ClearedPage(saved[..PAGE]));
    Overlay(cleared, 0, cleared[PAGE * (next + 1)..PAGE * (next + 2)])
  }

  function Switch(s: State, next: nat): (s': State)
    requires s.Valid() && next < TERMINALS
    ensures s'.Valid() && s'.visible == next
  {
    State(SwapPages(s.mem, s.visible, next), s.x, s.y, next, COLS * s.y[next] + s.x[next])
  }

  /** Replacing one logical screen leaves the two others alone. */
  lemma SetScreenIsPrivate(s: State, t: nat, r: Console, u: nat)
    requires s.Valid() && t < TERMINALS && r.Valid() && u < TERMINALS
    ensures SetScreen(s, t, r).Screen(u) == if u == t then r else s.Screen(u)
  {
    var m := SetScreen(s, t, r).mem;
    if u == t {
      assert m[s.Base(t)..s.Base(t) + PAGE] == r.page;
    } else {
      assert m[s.Base(u)..s.Base(u) + PAGE] == s.mem[s.Base(u)..s.Base(u) + PAGE];
    }
  }

  /** Both branches of putc act on the scheduled terminal as on a private
      console, whichever terminal is visible, and on no other screen. */
  lemma PutcIsPrivate(s: State, t: nat, c: byte, u: nat)
    requires s.Valid() && t < TERMINALS && u < TERMINALS
    ensures Putc(s, t, c).Screen(u) == if u == t then Put(s.Screen(t), c) else s.Screen(u)
    ensures s.CursorRight() ==> Putc(s, t, c).CursorRight()
  {
    SetScreenIsPrivate(s, t, Put(s.Screen(t), c), u);
    SetScreenIsPrivate(s, t, Put(s.Screen(t), c), s.visible);
  }

  lemma {:induction false} PutsIsPrivate(s: State, t: nat, text: seq<byte>, u: nat)
    requires s.Valid() && t < TERMINALS && u < TERMINALS
    ensures Puts(s, t, text).Screen(u) == if u == t then PutAll(s.Screen(t), text) else s.Screen(u)
    ensures s.CursorRight() ==> Puts(s, t, text).CursorRight()
  {
    if text != [] {
      var before := text[..|text| - 1];
      PutsIsPrivate(s, t, before, u);
      PutsIsPrivate(s, t, before, t);
      PutcIsPrivate(Puts(s, t, before), t, text[|text| - 1], u);
    }
  }

  lemma ClearIsPrivate(s: State, u: nat)
    requires s.Valid() && u < TERMINALS
    ensures ClearVisible(s).Screen(u) == if u == s.visible then Clear(s.Screen(u)) else s.Screen(u)
    ensures ClearVisible(s).CursorRight()
  {
    SetScreenIsPrivate(s, s.visible, Clear(s.Screen(s.visible)), u);
    SetScreenIsPrivate(s, s.visible, Clear(s.Screen(s.visible)), s.visible);
  }

  lemma EraseIsPrivate(s: State, u: nat)
    requires s.Valid() && s.x[s.visible] > 0 && u < TERMINALS
    ensures EraseVisible(s).Screen(u) == if u == s.visible then Erased(s.Screen(u)) else s.Screen(u)
    ensures EraseVisible(s).CursorRight()
  {
    SetScreenIsPrivate(s, s.visible, Erased(s.Screen(s.visible)), u);
    SetScreenIsPrivate(s, s.visible, Erased(s.Screen(s.visible)), s.visible);
  }

  /** Switching the visible terminal changes no logical screen, also when the
      new terminal is the visible one; the cursor moves to the new screen's. */
  lemma SwitchKeepsScreens(s: State, next: nat, u: nat)
    requires s.Valid() && next < TERMINALS && u < TERMINALS
    ensures Switch(s, next).Screen(u) == s.Screen(u) && Switch(s, next).CursorRight()
  {
    SwapMoves(s.mem, s.visible, next, u);
  }

  /** After the swap, the page a terminal now uses holds what the page it used
      before held. */
  lemma SwapMoves(mem: seq<byte>, visible: nat, next: nat, u: nat)
    requires |mem| == PAGE * (TERMINALS + 1) && visible < TERMINALS && next < TERMINALS && u < TERMINALS
    ensures var to, from := if u == next then 0 else PAGE * (u + 1), if u == visible then 0 else PAGE * (u + 1);
            SwapPages(mem, visible, next)[to..to + PAGE] == mem[from..from + PAGE]
  {
    SwapSaves(mem, visible, next, u);
    SwapLoads(mem, visible, next);
  }

  /** The backing page of u after the swap. */
  lemma SwapSaves(mem: seq<byte>, visible: nat, next: nat, u: nat)
    requires |mem| == PAGE * (TERMINALS + 1) && visible < TERMINALS && next < TERMINALS && u < TERMINALS
    ensures var at, from := PAGE * (u + 1), if u == visible then 0 else PAGE * (u + 1);
            SwapPages(mem, visible, next)[at..at + PAGE] == mem[from..from + PAGE]
  {
    var saved := Overlay(mem, PAGE * (visible + 1), mem[..PAGE]);
    var cleared := Overlay(saved, 0, ClearedPage(saved[..PAGE]));
    var at := PAGE * (u + 1);
    OverlaySlices(mem, PAGE * (visible + 1), mem[..PAGE], at, PAGE);
    OverlaySlices(saved, 0, ClearedPage(saved[..PAGE]), at, PAGE);
    OverlaySlices(cleared, 0, cleared[PAGE * (next + 1)..PAGE * (next + 2)], at, PAGE);
  }

  /** The visible page after the swap is the backing page of the new terminal. */
  lemma SwapLoads(mem: seq<byte>, visible: nat, next: nat)
    requires |mem| == PAGE * (TERMINALS + 1) && visible < TERMINALS && next < TERMINALS
    ensures var now, at := SwapPages(mem, visible, next), PAGE * (next + 1); now[0..PAGE] == now[at..at + PAGE]
  {
    var saved := Overlay(mem, PAGE * (visible + 1), mem[..PAGE]);
    var cleared := Overlay(saved, 0, ClearedPage(saved[..PAGE]));
    var at := PAGE * (next + 1);
    OverlaySlices(cleared, 0, cleared[at..at + PAGE], at, PAGE);
  }

  /** The kernel variables of the three terminals: memory from 0xB8000 on,
      screen_x and screen_y, current_terminal, and the hardware cursor. */
  class Terminals {
    const mem: array<byte>
    const screenX: array<nat>
    const screenY: array<nat>
    var visible: nat
    var cursor: nat

    ghost predicate Valid()
      reads this, mem, screenX, screenY
    {
      && mem.Length == PAGE * (TERMINALS + 1) && screenX.Length == screenY.Length == TERMINALS
      && screenX != screenY && Abs().Valid()
    }

    ghost function Abs(): State
      reads this, mem, screenX, screenY
    {
      State(mem[..], screenX[..], screenY[..], visible, cursor)
    }

    /** Power-on: blank cursors, whatever the four pages hold. */
    constructor (contents: seq<byte>)
      requires |contents| == PAGE * (TERMINALS + 1)
      ensures Valid() && fresh(mem) && fresh(screenX) && fresh(screenY)
      ensures Abs() == State(contents, [0, 0, 0], [0, 0, 0], 0, 0)
    {
      mem := new byte[PAGE * (TERMINALS + 1)](i requires 0 <= i < PAGE * (TERMINALS + 1) => contents[i]);
      screenX := new nat[TERMINALS](_ => 0);
      screenY := new nat[TERMINALS](_ => 0);
      visible, cursor := 0, 0;
      new;
      assert mem[..] == contents && screenX[..] == [0, 0, 0] && screenY[..] == [0, 0, 0];
    }

    /** putc: the visible page or the backing page of the scheduled terminal. */
    method PutC(sched: nat, c: byte)
      requires Valid() && sched < TERMINALS
      modifies this, mem, screenX, screenY
      ensures Valid() && Abs() == Putc(old(Abs()), sched, c)
    {
      ghost var s, con := Abs(), Abs().Screen(sched);
      if sched == visible {
        PutAt(0, sched, c, con);
        cursor := COLS * screenY[sched] + screenX[sched];
      } else {
        PutAt(PAGE * (sched + 1), sched, c, con);
      }
    }

    /** Either branch of putc, on the page at base. */
    method PutAt(base: nat, t: nat, c: byte, ghost con: Console)
      requires mem.Length == PAGE * (TERMINALS + 1) && base + PAGE <= mem.Length
      requires screenX.Length == screenY.Length == TERMINALS && screenX != screenY && t < TERMINALS
      requires con.Valid() && con == Console(mem[base..base + PAGE], screenX[t], screenY[t])
      modifies mem, screenX, screenY
      ensures mem[..] == Overlay(old(mem[..]), base, Put(con, c).page)
      ensures screenX[..] == old(screenX[..])[t := Put(con, c).x]
      ensures screenY[..] == old(screenY[..])[t := Put(con, c).y]
    {
      ghost var m, adv := mem[..], Advance(con, c);
      if c == NEWLINE || c == CARRIAGE_RETURN {
        NewLine(t);
        assert mem[..] == Overlay(m, base, adv.page);
      } else {
        StoreAt(base, COLS * screenY[t] + screenX[t], c, con.page);
        screenX[t] := screenX[t] + 1;
      }
      OverlayTwice(m, base, adv.page, Settle(adv).page);
      SettleAt(base, t, adv);
    }

    /** The scroll, if the cursor has left the screen. */
    method SettleAt(base: nat, t: nat, ghost con: Console)
      requires mem.Length == PAGE * (TERMINALS + 1) && base + PAGE <= mem.Length
      requires screenX.Length == screenY.Length == TERMINALS && screenX != screenY && t < TERMINALS
      requires con == Console(mem[..][base..base + PAGE], screenX[t], screenY[t]) && con.Position() <= CELLS
      modifies mem, screenX, screenY
      ensures mem[..] == Overlay(old(mem[..]), base, Settle(con).page)
      ensures screenX[..] == old(screenX[..])[t := Settle(con).x]
      ensures screenY[..] == old(screenY[..])[t := Settle(con).y]
    {
      if screenY[t] * COLS + screenX[t] >= CELLS {
        if screenY[t] > 0 {
          screenY[t] := screenY[t] - 1;
        } else {
          screenX[t] := screenX[t] - COLS;
        }
        Scroll(base, con.page);
      } else {
        assert mem[..] == Overlay(mem[..], base, con.page);
      }
    }

    lemma OverlayTwice(m: seq<byte>, base: nat, p: seq<byte>, q: seq<byte>)
      requires base + PAGE <= |m| && |p| == |q| == PAGE
      ensures Overlay(m, base, p)[base..base + PAGE] == p
      ensures Overlay(Overlay(m, base, p), base, q) == Overlay(m, base, q)
    {
    }

    /** The line-break branch of putc. */
    method NewLine(t: nat)
      requires screenX.Length == screenY.Length == TERMINALS && screenX != screenY && t < TERMINALS
      modifies screenX, screenY
      ensures screenX[..] == old(screenX[..])[t := 0]
      ensures screenY[..] == old(screenY[..])[t := LineEnd(old(screenX[t]), old(screenY[t])) + 1]
    {
      while screenX[t] > COLS
        invariant LineEnd(screenX[t], screenY[t]) == LineEnd(old(screenX[t]), old(screenY[t]))
        invariant forall u :: 0 <= u < TERMINALS && u != t ==>
                    screenX[u] == old(screenX[u]) && screenY[u] == old(screenY[u])
        decreases screenX[t]
      {
        screenY[t] := screenY[t] + 1;
        screenX[t] := screenX[t] - COLS;
      }
      screenY[t] := screenY[t] + 1;
      screenX[t] := 0;
    }

    /** One character and its attribute into cell i of the page at base. */
    method StoreAt(base: nat, i: nat, c: byte, ghost page: seq<byte>)
      requires base + PAGE <= mem.Length && i < CELLS && mem[base..base + PAGE] == page
      modifies mem
      ensures mem[..] == Overlay(old(mem[..]), base, StoreCell(page, i, c))
    {
      mem[base + 2 * i] := c;
      mem[base + 2 * i + 1] := ATTRIB;
    }

    /** The scroll loops of putc on the page at base. */
    method Scroll(base: nat, ghost page: seq<byte>)
      requires base + PAGE <= mem.Length && mem[base..base + PAGE] == page
      modifies mem
      ensures mem[..] == Overlay(old(mem[..]), base, Scrolled(page))
    {
      ghost var m, done := mem[..], Scrolled(page);
      for i := 0 to ROWS - 1
        invariant mem[..] == Overlay(m, base, done[..2 * (COLS * i)])
      {
        ScrollRow(base, i, m, page);
      }
      BlankLastRow(base, m, page);
      TailKept(m, base, page, done);
    }

    /** Row i of a scroll takes the characters of row i + 1. */
    method ScrollRow(base: nat, i: nat, ghost m: seq<byte>, ghost page: seq<byte>)
      requires base + PAGE <= mem.Length == |m| && i < ROWS - 1 && m[base..base + PAGE] == page
      requires mem[..] == Overlay(m, base, Scrolled(page)[..2 * (COLS * i)])
      modifies mem
      ensures mem[..] == Overlay(m, base, Scrolled(page)[..2 * (COLS * (i + 1))])
    {
      for j := 0 to COLS
        invariant mem[..] == Overlay(m, base, Scrolled(page)[..2 * (COLS * i + j)])
      {
        MoveCellUp(base, COLS * (i + 1) + j, COLS * i + j, m, page);
      }
    }

    method MoveCellUp(base: nat, from: nat, to: nat, ghost m: seq<byte>, ghost page: seq<byte>)
      requires base + PAGE <= mem.Length == |m| && m[base..base + PAGE] == page
      requires from == to + COLS < CELLS
      requires mem[..] == Overlay(m, base, Scrolled(page)[..2 * to])
      modifies mem
      ensures mem[..] == Overlay(m, base, Scrolled(page)[..2 * (to + 1)])
    {
      CellBelow(m, base, page, to);
      assert mem[base + 2 * from] == mem[..][base + 2 * from];
      StoreNext(base, to, mem[base + 2 * from], m, Scrolled(page));
    }

    /** The cell below cell n is still the original one when n is its turn. */
    lemma CellBelow(m: seq<byte>, base: nat, page: seq<byte>, n: nat)
      requires base + PAGE <= |m| && m[base..base + PAGE] == page && n < CELLS - COLS
      ensures Overlay(m, base, Scrolled(page)[..2 * n])[base + 2 * (n + COLS)] == Scrolled(page)[2 * n]
    {
      assert m[base + 2 * (n + COLS)] == page[2 * (n + COLS)];
    }

    method BlankLastRow(base: nat, ghost m: seq<byte>, ghost page: seq<byte>)
      requires base + PAGE <= mem.Length == |m| && |page| == PAGE
      requires mem[..] == Overlay(m, base, Scrolled(page)[..2 * COLS * (ROWS - 1)])
      modifies mem
      ensures mem[..] == Overlay(m, base, Scrolled(page)[..2 * CELLS])
    {
      for j := 0 to COLS
        invariant mem[..] == Overlay(m, base, Scrolled(page)[..2 * (COLS * (ROWS - 1) + j)])
      {
        StoreNext(base, COLS * (ROWS - 1) + j, SPACE, m, Scrolled(page));
      }
    }

    /** The bytes behind the last cell need no store. */
    lemma TailKept(m: seq<byte>, base: nat, page: seq<byte>, done: seq<byte>)
      requires base + PAGE <= |m| && m[base..base + PAGE] == page && |done| == PAGE
      requires done[2 * CELLS..] == page[2 * CELLS..]
      ensures Overlay(m, base, done[..2 * CELLS]) == Overlay(m, base, done)
    {
      assert forall k :: 2 * CELLS <= k < PAGE ==> done[k] == done[2 * CELLS..][k - 2 * CELLS] == page[k];
    }

    /** clear: every cell of the visible page becomes a space. */
    method ClearVideo()
      requires mem.Length >= PAGE
      modifies mem
      ensures mem[..] == Overlay(old(mem[..]), 0, ClearedPage(old(mem[..PAGE])))
    {
      ghost var m, done := mem[..], ClearedPage(mem[..PAGE]);
      for i := 0 to CELLS
        invariant mem[..] == Overlay(m, 0, done[..2 * i])
      {
        StoreNext(0, i, SPACE, m, done);
      }
    }

    /** One cell of a loop that rewrites the page at base cell by cell. */
    method StoreNext(base: nat, i: nat, c: byte, ghost m: seq<byte>, ghost done: seq<byte>)
      requires base + PAGE <= mem.Length == |m| && i < CELLS && |done| == PAGE
      requires mem[..] == Overlay(m, base, done[..2 * i])
      requires done[2 * i] == c && done[2 * i + 1] == ATTRIB
      modifies mem
      ensures mem[..] == Overlay(m, base, done[..2 * (i + 1)])
    {
      OverlayJoin(m, base, done[..2 * i], [c, ATTRIB]);
      assert done[..2 * i] + [c, ATTRIB] == done[..2 * (i + 1)];
      mem[base + 2 * i] := c;
      mem[base + 2 * i + 1] := ATTRIB;
    }

    /** Ctrl+L and the boot of the first shell: clear and clear_set. */
    method ClearScreen()
      requires Valid()
      modifies this, mem, screenX, screenY
      ensures Valid() && Abs() == ClearVisible(old(Abs()))
    {
      ClearVideo();
      screenX[visible] := 0;
      screenY[visible] := 0;
      cursor := COLS * screenY[visible] + screenX[visible];
    }

    /** delete, on 32-bit words. At the top left its store would leave the page. */
    method DeleteCharacter()
      requires Valid() && Abs().Screen(visible).Position() > 0
      modifies this, mem, screenX
      ensures var con := old(Abs().Screen(visible));
              && visible == old(visible) && cursor == con.Position() - 1
              && mem[..] == Overlay(old(mem[..]), 0, StoreCell(con.page, con.Position() - 1, NUL))
              && screenX[..] == old(screenX[..])[visible := Delete(con).x]
              && screenY[..] == old(screenY[..])
      ensures old(screenX[visible]) > 0 <==> Valid()
      ensures old(screenX[visible]) > 0 ==> Abs() == EraseVisible(old(Abs()))
    {
      ghost var s, con := Abs(), Abs().Screen(visible);
      DeleteIff(con);
      screenX[visible] := (screenX[visible] + WORD - 1) % WORD;
      var offset := 2 * (COLS * screenY[visible] + screenX[visible]) % WORD;
      StoreAt(0, offset / 2, NUL, con.page);
      cursor := (COLS * screenY[visible] + screenX[visible]) % WORD;
    }

    /** swap_vid_mem, swap_kb_cursor and the change of current_terminal. */
    method TerminalSwitch(next: nat)
      requires Valid() && next < TERMINALS
      modifies this, mem
      ensures Valid() && Abs() == Switch(old(Abs()), next)
    {
      MemCpy(mem, PAGE * (visible + 1), 0, PAGE);
      ClearVideo();
      MemCpy(mem, 0, PAGE * (next + 1), PAGE);
      cursor := COLS * screenY[next] + screenX[next];
      visible := next;
    }
  }
}
