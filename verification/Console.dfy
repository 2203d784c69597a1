/** One private text console: a video page, a cursor, and what putc does to
    them (student-distrib/lib.c). A page holds character and attribute bytes
    of 25 rows of 80 cells, alternating. */
module Console {
  import opened Bytes

  const COLS: nat := 80
  const ROWS: nat := 25
  const CELLS: nat := 2000
  const PAGE: nat := 4096
  const ATTRIB: byte := 7

  datatype Console = Console(page: seq<byte>, x: nat, y: nat) {
    /** screen_x is not wrapped at 80: the cell of the cursor is what stays on
        the screen. */
    predicate Valid() {
      |page| == PAGE && Position() < CELLS
    }

    function Position(): nat {
      COLS * y + x
    }
  }

  predicate IsBreak(c: byte) {
    c == NEWLINE || c == CARRIAGE_RETURN
  }

  /** The row in which the text behind a cursor ends: a row filled exactly
      to its end still counts as that row. */
  function LineEnd(x: nat, y: nat): (r: nat)
    ensures x == 0 ==> r == y
    ensures x > 0 ==> COLS * r < COLS * y + x <= COLS * r + COLS
    decreases x
  {
    if x > COLS then LineEnd(x - COLS, y + 1) else y
  }

  function StoreCell(page: seq<byte>, i: nat, c: byte): (r: seq<byte>)
    requires |page| == PAGE && i < CELLS
    ensures |r| == PAGE
  {
    page[2 * i := c][2 * i + 1 := ATTRIB]
  }

  /** Rows 1 to 24 move up by one, the last row is blanked, every attribute is
      reset, and the bytes behind the last cell stay. */
  function Scrolled(page: seq<byte>): (r: seq<byte>)
    requires |page| == PAGE
    ensures |r| == PAGE
  {
    seq(PAGE, k requires 0 <= k < PAGE =>
        if k >= 2 * CELLS then page[k]
        else if k % 2 == 1 then ATTRIB
        else if k < 2 * (CELLS - COLS) then page[k + 2 * COLS] else SPACE)
  }

  function ClearedPage(page: seq<byte>): (r: seq<byte>)
    requires |page| == PAGE
    ensures |r| == PAGE
  {
    seq(PAGE, k requires 0 <= k < PAGE =>
        if k >= 2 * CELLS then page[k] else if k % 2 == 1 then ATTRIB else SPACE)
  }

  /** Ctrl+L: a blank screen with the cursor at the top left. */
  function Clear(con: Console): Console
    requires con.Valid()
  {
    Console(ClearedPage(con.page), 0, 0)
  }

  /** The cursor and page before a scroll is considered. */
  function Advance(con: Console, c: byte): (r: Console)
    requires con.Valid()
    ensures |r.page| == PAGE && r.Position() <= CELLS
  {
    if IsBreak(c) then Console(con.page, 0, LineEnd(con.x, con.y) + 1)
    else Console(StoreCell(con.page, con.Position(), c), con.x + 1, con.y)
  }

  /** One scroll when the cursor has left the screen. */
  function Settle(con: Console): (r: Console)
    requires |con.page| == PAGE && con.Position() <= CELLS
    ensures r.Valid()
  {
    if con.Position() < CELLS then con
    else if con.y > 0 then Console(Scrolled(con.page), con.x, con.y - 1)
    else Console(Scrolled(con.page), con.x - COLS, con.y)
  }

  /** putc on a private console. */
  function Put(con: Console, c: byte): (r: Console)
    requires con.Valid()
    ensures r.Valid()
  {
    Settle(Advance(con, c))
  }

  /** What delete does, as the processor computes it in 32-bit words: the byte of the
      video page, counted from its start, that becomes NUL (the next one takes the
      attribute), and the new screen_x. */
  datatype Deletion = Deletion(offset: nat, x: nat)

  function Delete(con: Console): Deletion {
    var x := (con.x + WORD - 1) % WORD;
    Deletion(2 * (COLS * con.y + x) % WORD, x)
  }

  /** A console behind a delete that meets a character. */
  function Erased(con: Console): (r: Console)
    requires con.Valid() && con.x > 0
    ensures r.Valid()
  {
    Console(StoreCell(con.page, con.Position() - 1, NUL), con.x - 1, con.y)
  }

  /** delete keeps the cursor on the screen if and only if screen_x is positive, and
      then erases the cell before the cursor. With screen_x at 0 it wraps: below the
      first row the store still hits the cell before the cursor, the last of the row
      above, and at the top left it leaves the page. */
  lemma DeleteIff(con: Console)
    requires con.Valid()
    ensures var d := Delete(con);
            && (con.x > 0 <==> COLS * con.y + d.x < CELLS)
            && (con.Position() > 0 <==> d.offset + 1 < PAGE)
            && (con.Position() > 0 ==> d.offset == 2 * (con.Position() - 1))
            && (con.x > 0 ==> Erased(con) == Console(con.page[d.offset := NUL][d.offset + 1 := ATTRIB], d.x, con.y))
            && (con.Position() == 0 ==> d.offset == WORD - 2)
  {
    if con.x > 0 {
      assert (con.x + WORD - 1) % WORD == con.x - 1;
    } else {
      assert Delete(con).x == WORD - 1;
    }
  }

  /** The characters of the n cells before the cursor. */
  function Tail(con: Console, n: nat): (r: seq<byte>)
    requires con.Valid() && n <= con.Position()
    ensures |r| == n
  {
    seq(n, i requires 0 <= i < n => con.page[2 * (con.Position() - n + i)])
  }

  /** A character behind n others stands behind them, also when the screen scrolls. */
  lemma PutTail(con: Console, n: nat, c: byte)
    requires con.Valid() && n <= con.Position() && n < CELLS - COLS && !IsBreak(c)
    ensures n + 1 <= Put(con, c).Position() && Tail(Put(con, c), n + 1) == Tail(con, n) + [c]
  {
    var a, r := Advance(con, c), Put(con, c);
    forall i | 0 <= i < n + 1 ensures Tail(r, n + 1)[i] == (Tail(con, n) + [c])[i] {
      assert a.page[2 * (con.Position() - n + i)] == (Tail(con, n) + [c])[i];
    }
  }

  lemma EraseTail(con: Console, n: nat)
    requires con.Valid() && con.x > 0 && 0 < n <= con.Position()
    ensures Tail(Erased(con), n - 1) == Tail(con, n)[..n - 1]
  {
  }

  function PutAll(con: Console, text: seq<byte>): (r: Console)
    requires con.Valid()
    ensures r.Valid()
  {
    if text == [] then con
    else Put(PutAll(con, text[..|text| - 1]), text[|text| - 1])
  }

  lemma {:induction false} PutAllAppends(con: Console, s: seq<byte>, t: seq<byte>)
    requires con.Valid()
    ensures PutAll(con, s + t) == PutAll(PutAll(con, s), t)
    decreases |t|
  {
    if t == [] {
      assert s + t == s;
    } else {
      var t' := t[..|t| - 1];
      PutAllAppends(con, s, t');
      assert (s + t)[..|s + t| - 1] == s + t';
    }
  }
}

/** The unbounded 80-column layout of a text, defined without a cursor or a
    screen, and the proof that a console shows its last 25 rows. */
module Layout {
  import opened Bytes
  import opened Console

  /** The text cut at its line breaks; a final break leaves an empty line. */
  function Lines(text: seq<byte>): (r: seq<seq<byte>>)
    ensures r != []
  {
    if text == [] then [[]]
    else
      var before, c := Lines(text[..|text| - 1]), text[|text| - 1];
      if IsBreak(c) then before + [[]]
      else before[..|before| - 1] + [before[|before| - 1] + [c]]
  }

  /** A line folded into rows of 80; an empty line is one empty row. */
  function Fold(line: seq<byte>): (r: seq<seq<byte>>)
    ensures r != []
    ensures forall i :: 0 <= i < |r| ==> |r[i]| <= COLS
    ensures |r[|r| - 1]| == 0 <==> line == []
  {
    if |line| <= COLS then [line] else [line[..COLS]] + Fold(line[COLS..])
  }

  function Rows(lines: seq<seq<byte>>): (r: seq<seq<byte>>)
    ensures lines != [] ==> r != []
    ensures forall i :: 0 <= i < |r| ==> |r[i]| <= COLS
  {
    if lines == [] then [] else Rows(lines[..|lines| - 1]) + Fold(lines[|lines| - 1])
  }

  function LayoutOf(text: seq<byte>): (r: seq<seq<byte>>)
    ensures r != []
    ensures forall i :: 0 <= i < |r| ==> |r[i]| <= COLS
  {
    Rows(Lines(text))
  }

  /** Number, counting row by row, of the cell behind the text. */
  function EndCell(text: seq<byte>): nat {
    var rows := LayoutOf(text);
    COLS * (|rows| - 1) + |rows[|rows| - 1]|
  }

  /** Rows that have left the screen: the row of the cursor is the last of 25. */
  function Top(text: seq<byte>): nat {
    if EndCell(text) < CELLS then 0 else EndCell(text) / COLS - (ROWS - 1)
  }

  /** The character in cell n of the unbounded layout, printed over a page. */
  function CellOf(text: seq<byte>, page: seq<byte>, n: nat): byte
    requires |page| == PAGE
  {
    CellIn(LayoutOf(text), page, n)
  }

  function CellIn(rows: seq<seq<byte>>, page: seq<byte>, n: nat): byte
    requires |page| == PAGE
  {
    if n / COLS < |rows| && n % COLS < |rows[n / COLS]| then rows[n / COLS][n % COLS]
    else if n < CELLS then page[2 * n] else SPACE
  }

  /** The last line of the text, not yet folded. */
  function LastLine(text: seq<byte>): seq<byte> {
    Lines(text)[|Lines(text)| - 1]
  }

  /** The last row, or a new one, takes one more byte. */
  function Extended(r: seq<seq<byte>>, c: byte): seq<seq<byte>>
    requires r != []
  {
    var k := |r| - 1;
    if |r[k]| < COLS then r[..k] + [r[k] + [c]] else r + [[c]]
  }

  lemma ExtendLast(a: seq<seq<byte>>, b: seq<seq<byte>>, c: byte)
    requires b != []
    ensures Extended(a + b, c) == a + Extended(b, c)
  {
    var r, k := a + b, |a| + |b| - 1;
    assert r[k] == b[|b| - 1];
    assert r[..k] + [r[k] + [c]] == a + (b[..|b| - 1] + [b[|b| - 1] + [c]]);
    assert r + [[c]] == a + (b + [[c]]);
  }

  /** Folding a line with one more character starts a new row exactly when the
      last row is full. */
  lemma {:induction false} FoldOneMore(line: seq<byte>, c: byte)
    ensures Fold(line + [c]) == Extended(Fold(line), c)
  {
    if |line| <= COLS {
      if |line| == COLS {
        assert (line + [c])[..COLS] == line && (line + [c])[COLS..] == [c];
      }
    } else {
      FoldOneMore(line[COLS..], c);
      ExtendLast([line[..COLS]], Fold(line[COLS..]), c);
      assert (line + [c])[..COLS] == line[..COLS];
      assert (line + [c])[COLS..] == line[COLS..] + [c];
    }
  }

  lemma LinesOneMore(text: seq<byte>, c: byte)
    ensures var ls, k := Lines(text), |Lines(text)| - 1;
            Lines(text + [c]) == if IsBreak(c) then ls + [[]] else ls[..k] + [ls[k] + [c]]
  {
    assert (text + [c])[..|text|] == text;
  }

  lemma RowsOfOneMoreLine(ls: seq<seq<byte>>, line: seq<byte>)
    ensures Rows(ls + [line]) == Rows(ls) + Fold(line)
  {
    assert (ls + [line])[..|ls|] == ls;
  }

  /** A break starts a row; another character extends the last row, or starts a
      row when the last one is full. */
  lemma LayoutOneMore(text: seq<byte>, c: byte)
    ensures LayoutOf(text + [c]) ==
            if IsBreak(c) then LayoutOf(text) + [[]] else Extended(LayoutOf(text), c)
    ensures LastLine(text + [c]) == if IsBreak(c) then [] else LastLine(text) + [c]
    ensures |LayoutOf(text)[|LayoutOf(text)| - 1]| == 0 <==> LastLine(text) == []
  {
    var ls := Lines(text);
    var init, last := ls[..|ls| - 1], LastLine(text);
    LinesOneMore(text, c);
    assert ls == init + [last];
    RowsOfOneMoreLine(init, last);
    if IsBreak(c) {
      RowsOfOneMoreLine(ls, []);
    } else {
      ExtendRows(init, last, c);
    }
  }

  lemma ExtendRows(init: seq<seq<byte>>, last: seq<byte>, c: byte)
    ensures Rows(init + [last]) != [] && Rows(init + [last + [c]]) == Extended(Rows(init + [last]), c)
  {
    RowsOfOneMoreLine(init, last);
    RowsOfOneMoreLine(init, last + [c]);
    FoldOneMore(last, c);
    ExtendLast(Rows(init), Fold(last), c);
  }

  /** One more character fills the cell behind the text; a line break fills none. */
  lemma CellOneMore(text: seq<byte>, c: byte, page: seq<byte>, n: nat)
    requires |page| == PAGE
    ensures CellOf(text + [c], page, n) == if !IsBreak(c) && n == EndCell(text) then c else CellOf(text, page, n)
  {
    LayoutOneMore(text, c);
    if IsBreak(c) {
      EmptyRowFillsNothing(LayoutOf(text), page, n);
    } else {
      ByteFillsEnd(LayoutOf(text), c, page, n);
    }
  }

  lemma EmptyRowFillsNothing(r: seq<seq<byte>>, page: seq<byte>, n: nat)
    requires |page| == PAGE
    ensures CellIn(r + [[]], page, n) == CellIn(r, page, n)
  {
  }

  lemma ByteFillsEnd(r: seq<seq<byte>>, c: byte, page: seq<byte>, n: nat)
    requires |page| == PAGE && r != [] && |r[|r| - 1]| <= COLS
    ensures var k := |r| - 1;
            CellIn(Extended(r, c), page, n)
            == if n == COLS * k + |r[k]| then c else CellIn(r, page, n)
  {
  }

  lemma EndOneMore(text: seq<byte>, c: byte)
    ensures EndCell(text + [c]) == if IsBreak(c) then COLS * |LayoutOf(text)| else EndCell(text) + 1
  {
    LayoutOneMore(text, c);
  }

  /** The console shows the last 25 rows of the layout, with the cursor behind
      the text. */
  ghost predicate Shows(con: Console, text: seq<byte>, page: seq<byte>) {
    && con.Valid() && |page| == PAGE
    && con.Position() + COLS * Top(text) == EndCell(text)
    && (con.x == 0 <==> LastLine(text) == [])
    && ShowsCells(con.page, text, page, Top(text))
  }

  ghost predicate ShowsCells(shown: seq<byte>, text: seq<byte>, page: seq<byte>, top: nat)
    requires |page| == PAGE
  {
    |shown| == PAGE && forall i :: 0 <= i < CELLS ==> shown[2 * i] == CellOf(text, page, i + COLS * top)
  }

  /** The cursor after putc, before a scroll, is behind the longer text. */
  lemma AdvanceCursor(con: Console, text: seq<byte>, page: seq<byte>, c: byte)
    requires Shows(con, text, page)
    ensures var d, text' := Advance(con, c), text + [c];
            && d.Position() + COLS * Top(text) == EndCell(text')
            && (d.x == 0 <==> LastLine(text') == [])
            && (Top(text) == 0 || CELLS - COLS <= d.Position())
  {
    LayoutOneMore(text, c);
    EndOneMore(text, c);
    TopKeepsCursorLow(text);
    var rows, e := |LayoutOf(text)|, LineEnd(con.x, con.y);
    if IsBreak(c) {
      assert e + 1 + Top(text) == rows;
    }
  }

  /** How many rows have scrolled off, from where the cursor is. */
  lemma TopIs(text: seq<byte>, top: nat, position: nat)
    requires position + COLS * top == EndCell(text) && position <= CELLS
    requires top == 0 || CELLS - COLS <= position
    ensures Top(text) == if position == CELLS then top + 1 else top
  {
  }

  lemma TopKeepsCursorLow(text: seq<byte>)
    ensures Top(text) == 0 || CELLS - COLS <= EndCell(text) - COLS * Top(text) < CELLS
  {
  }

  lemma AdvanceCells(con: Console, text: seq<byte>, page: seq<byte>, c: byte)
    requires Shows(con, text, page)
    ensures ShowsCells(Advance(con, c).page, text + [c], page, Top(text))
  {
    forall i | 0 <= i < CELLS
      ensures Advance(con, c).page[2 * i] == CellOf(text + [c], page, i + COLS * Top(text))
    {
      AdvanceCell(con, text, page, c, i);
    }
  }

  lemma AdvanceCell(con: Console, text: seq<byte>, page: seq<byte>, c: byte, i: nat)
    requires Shows(con, text, page) && i < CELLS
    ensures Advance(con, c).page[2 * i] == CellOf(text + [c], page, i + COLS * Top(text))
  {
    ShownCell(con, text, page, i);
    AdvanceCellAt(con, text, page, c, i, i + COLS * Top(text));
  }

  lemma AdvanceCellAt(con: Console, text: seq<byte>, page: seq<byte>, c: byte, i: nat, n: nat)
    requires con.Valid() && |page| == PAGE && i < CELLS
    requires con.page[2 * i] == CellOf(text, page, n) && (i == con.Position() <==> n == EndCell(text))
    ensures Advance(con, c).page[2 * i] == CellOf(text + [c], page, n)
  {
    AdvancePage(con, c, i);
    CellOneMore(text, c, page, n);
  }

  lemma AdvancePage(con: Console, c: byte, i: nat)
    requires con.Valid() && i < CELLS
    ensures Advance(con, c).page[2 * i] == if !IsBreak(c) && i == con.Position() then c else con.page[2 * i]
  {
  }

  /** Behind the text every cell below the first 25 rows is blank. */
  lemma BlankBehindText(text: seq<byte>, page: seq<byte>, n: nat)
    requires |page| == PAGE && EndCell(text) <= n && CELLS <= n
    ensures CellOf(text, page, n) == SPACE
  {
  }

  lemma SettleShows(d: Console, text: seq<byte>, page: seq<byte>, top: nat)
    requires |page| == PAGE && |d.page| == PAGE && d.Position() <= CELLS
    requires d.Position() + COLS * top == EndCell(text) && ShowsCells(d.page, text, page, top)
    requires top == 0 || CELLS - COLS <= d.Position()
    requires d.x == 0 <==> LastLine(text) == []
    ensures Shows(Settle(d), text, page)
  {
    TopIs(text, top, d.Position());
    if d.Position() == CELLS {
      ScrolledShows(d.page, text, page, top);
    }
  }

  lemma ScrolledShows(shown: seq<byte>, text: seq<byte>, page: seq<byte>, top: nat)
    requires |page| == PAGE && ShowsCells(shown, text, page, top) && EndCell(text) == CELLS + COLS * top
    ensures ShowsCells(Scrolled(shown), text, page, top + 1)
  {
    forall i | 0 <= i < CELLS
      ensures Scrolled(shown)[2 * i] == CellOf(text, page, i + COLS * (top + 1))
    {
      if i < CELLS - COLS {
        assert shown[2 * (i + COLS)] == CellOf(text, page, i + COLS + COLS * top);
      } else {
        BlankBehindText(text, page, i + COLS * (top + 1));
      }
    }
  }

  /** putc keeps the screen equal to the layout. */
  lemma PutShows(con: Console, text: seq<byte>, page: seq<byte>, c: byte)
    requires Shows(con, text, page)
    ensures Shows(Put(con, c), text + [c], page)
  {
    AdvanceCursor(con, text, page, c);
    AdvanceCells(con, text, page, c);
    SettleShows(Advance(con, c), text + [c], page, Top(text));
  }

  /** Whatever text is printed over a page from the top left, the screen shows
      the last 25 rows of its 80-column layout. */
  lemma {:induction false} ScreenShowsLayout(text: seq<byte>, page: seq<byte>)
    requires |page| == PAGE
    ensures Shows(PutAll(Console(page, 0, 0), text), text, page)
  {
    if text != [] {
      var before, c := text[..|text| - 1], text[|text| - 1];
      ScreenShowsLayout(before, page);
      PutShows(PutAll(Console(page, 0, 0), before), before, page, c);
      assert before + [c] == text;
    }
  }

  /** Every cell holds a space. */
  predicate IsBlank(page: seq<byte>) {
    |page| == PAGE && forall i :: 0 <= i < CELLS ==> page[2 * i] == SPACE
  }

  /** Of the page printed over only the characters matter. */
  lemma BlankPagesAlike(con: Console, text: seq<byte>, page: seq<byte>, page': seq<byte>)
    requires Shows(con, text, page) && IsBlank(page) && IsBlank(page')
    ensures Shows(con, text, page')
  {
    var rows := LayoutOf(text);
    forall n: nat ensures CellIn(rows, page, n) == CellIn(rows, page', n) {
    }
  }

  /** After a clear a screen shows the text printed since on any blank page. */
  lemma ClearedShows(con: Console, text: seq<byte>, page: seq<byte>)
    requires con.Valid() && IsBlank(page)
    ensures Shows(PutAll(Clear(con), text), text, page)
  {
    ScreenShowsLayout(text, ClearedPage(con.page));
    BlankPagesAlike(PutAll(Clear(con), text), text, ClearedPage(con.page), page);
  }

  /** On a cleared screen, row r shows row Top + r of the layout, padded with
      spaces; rows past the layout are blank. */
  lemma ClearedScreenShowsRows(con: Console, text: seq<byte>, r: nat, j: nat)
    requires con.Valid() && r < ROWS && j < COLS
    ensures var rows, shown := LayoutOf(text), PutAll(Clear(con), text).page;
            shown[2 * (COLS * r + j)] ==
              if Top(text) + r < |rows| && j < |rows[Top(text) + r]| then rows[Top(text) + r][j] else SPACE
  {
    ScreenShowsLayout(text, ClearedPage(con.page));
    RowShown(PutAll(Clear(con), text), text, ClearedPage(con.page), r, j);
  }

  lemma RowShown(con: Console, text: seq<byte>, page: seq<byte>, r: nat, j: nat)
    requires Shows(con, text, page) && r < ROWS && j < COLS
    requires forall i :: 0 <= i < CELLS ==> page[2 * i] == SPACE
    ensures var rows := LayoutOf(text);
            con.page[2 * (COLS * r + j)] ==
              if Top(text) + r < |rows| && j < |rows[Top(text) + r]| then rows[Top(text) + r][j] else SPACE
  {
    ShownCell(con, text, page, COLS * r + j);
    CellByRow(LayoutOf(text), page, Top(text) + r, j);
  }

  lemma ShownCell(con: Console, text: seq<byte>, page: seq<byte>, i: nat)
    requires Shows(con, text, page) && i < CELLS
    ensures con.page[2 * i] == CellOf(text, page, i + COLS * Top(text))
  {
  }

  lemma CellByRow(rows: seq<seq<byte>>, page: seq<byte>, r: nat, j: nat)
    requires |page| == PAGE && j < COLS
    ensures var n := COLS * r + j;
            CellIn(rows, page, n) == if r < |rows| && j < |rows[r]| then rows[r][j]
                                     else if n < CELLS then page[2 * n] else SPACE
  {
    assert (COLS * r + j) / COLS == r && (COLS * r + j) % COLS == j;
  }

  /** From a cleared screen on every cell has the default attribute. */
  lemma ClearedAttributes(con: Console, text: seq<byte>, n: nat)
    requires con.Valid() && n < CELLS
    ensures PutAll(Clear(con), text).page[2 * n + 1] == ATTRIB
  {
    AttributesStay(Clear(con), text);
  }

  lemma {:induction false} AttributesStay(con: Console, text: seq<byte>)
    requires con.Valid() && forall i :: 0 <= i < CELLS ==> con.page[2 * i + 1] == ATTRIB
    ensures forall i :: 0 <= i < CELLS ==> PutAll(con, text).page[2 * i + 1] == ATTRIB
  {
    if text != [] {
      AttributesStay(con, text[..|text| - 1]);
    }
  }

  /** A line break right after a row filled to its end adds no blank row: it
      only moves the cursor to the row the cursor already stands in. */
  lemma BreakAfterFullRow(text: seq<byte>)
    requires |LayoutOf(text)[|LayoutOf(text)| - 1]| == COLS
    ensures EndCell(text + [NEWLINE]) == EndCell(text)
    ensures LayoutOf(text + [NEWLINE]) == LayoutOf(text) + [[]]
  {
    LayoutOneMore(text, NEWLINE);
    EndOneMore(text, NEWLINE);
  }
}
