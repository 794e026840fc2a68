/** kernel/chr_drv/console.c on values: the screen is a window that slides down through video memory,
    and is copied back to the start only when it would leave video memory. */
module VideoMemory {

  import opened Terminal

  /** The n cells stored in the bytes v from offset a on. */
  function CellsOf(v: seq<Byte>, a: nat, n: nat): (r: seq<Cell>)
    requires a + 2 * n <= |v|
    ensures |r| == n
  {
    seq(n, k requires 0 <= k < n => Cell(v[a + 2 * k], v[a + 2 * k + 1]))
  }

  /** count copies of video_erase_char. */
  function Blanks(count: nat): (r: seq<Byte>)
    ensures |r| == 2 * count
  {
    seq(2 * count, i => if i % 2 == 0 then BLANK.code else BLANK.attr)
  }

  /** rep movsl, upwards. */
  function Moved(v: seq<Byte>, dst: nat, src: nat, count: nat): (r: seq<Byte>)
    requires dst <= src && src + 4 * count <= |v|
    ensures |r| == |v|
  {
    v[..dst] + v[src..src + 4 * count] + v[dst + 4 * count..]
  }

  /** rep stosw of video_erase_char. */
  function Erased(v: seq<Byte>, dst: nat, count: nat): (r: seq<Byte>)
    requires dst + 2 * count <= |v|
    ensures |r| == |v|
  {
    v[..dst] + Blanks(count) + v[dst + 2 * count..]
  }

  /** Video memory after the window has been copied back: (lines - 1) * columns >> 1 double words
      from src to the start, and a row of blanks behind them. */
  function CopiedBack(v: seq<Byte>, src: nat, columns: nat, lines: nat): (r: seq<Byte>)
    requires 1 <= lines && 2 * Area(lines, columns) <= |v| && src + 2 * Area(lines - 1, columns) <= |v|
    ensures |r| == |v|
  {
    NextRow(lines - 1, columns);
    var n := Area(lines - 1, columns) / 2;
    Erased(Moved(v, 0, src, n), 4 * n, columns)
  }

  /** The rows after the copy are the rows that were to be shown and a blank one. */
  ghost predicate CopiedRight(v: seq<Byte>, src: nat, columns: nat, lines: nat)
    requires 1 <= lines && 2 * Area(lines, columns) <= |v| && src + 2 * Area(lines - 1, columns) <= |v|
  {
    CellsOf(CopiedBack(v, src, columns, lines), 0, Area(lines, columns))
      == CellsOf(v, src, Area(lines - 1, columns)) + BlankRow(columns)
  }

  lemma SameCells(v: seq<Byte>, a: nat, w: seq<Byte>, b: nat, n: nat)
    requires a + 2 * n <= |v| && b + 2 * n <= |w| && v[a..a + 2 * n] == w[b..b + 2 * n]
    ensures CellsOf(v, a, n) == CellsOf(w, b, n)
  {
    var cells := v[a..a + 2 * n];
    assert forall k :: 0 <= k < 2 * n ==> cells[k] == v[a + k] && cells[k] == w[b + k];
  }

  lemma BlankCells(v: seq<Byte>, a: nat, n: nat)
    requires a + 2 * n <= |v| && v[a..a + 2 * n] == Blanks(n)
    ensures CellsOf(v, a, n) == BlankRow(n)
  {
    assert forall k :: 0 <= k < 2 * n ==> v[a + k] == Blanks(n)[k];
  }

  lemma CellsConcat(v: seq<Byte>, a: nat, m: nat, n: nat)
    requires a + 2 * (m + n) <= |v|
    ensures CellsOf(v, a, m + n) == CellsOf(v, a, m) + CellsOf(v, a + 2 * m, n)
  {
  }

  lemma EvenCopiedRight(v: seq<Byte>, src: nat, columns: nat, lines: nat)
    requires 1 <= lines && 2 * Area(lines, columns) <= |v| && src + 2 * Area(lines - 1, columns) <= |v|
    requires Area(lines - 1, columns) % 2 == 0
    ensures CopiedRight(v, src, columns, lines)
  {
    var m := Area(lines - 1, columns);
    NextRow(lines - 1, columns);
    hide Area;
    assert 4 * (m / 2) == 2 * m;
    var w := CopiedBack(v, src, columns, lines);
    assert w[0..2 * m] == v[src..src + 2 * m] && w[2 * m..2 * m + 2 * columns] == Blanks(columns);
    hide CopiedBack, Moved, Erased, Blanks, CellsOf, Area;
    SameCells(w, 0, v, src, m);
    BlankCells(w, 2 * m, columns);
    CellsConcat(w, 0, m, columns);
  }

  lemma ErasedRow(v: seq<Byte>, a: nat, columns: nat, lines: nat)
    requires 1 <= lines && a + 2 * Area(lines, columns) <= |v|
    ensures Area(lines - 1, columns) + columns == Area(lines, columns)
    ensures CellsOf(Erased(v, a + 2 * Area(lines - 1, columns), columns), a, Area(lines, columns))
         == CellsOf(v, a, Area(lines - 1, columns)) + BlankRow(columns)
  {
    var m := Area(lines - 1, columns);
    NextRow(lines - 1, columns);
    var w := Erased(v, a + 2 * m, columns);
    assert w[a..a + 2 * m] == v[a..a + 2 * m] && w[a + 2 * m..a + 2 * m + 2 * columns] == Blanks(columns);
    hide Erased, Blanks, CellsOf, Area;
    SameCells(w, a, v, a, m);
    BlankCells(w, a + 2 * m, columns);
    CellsConcat(w, a, m, columns);
  }

  lemma WindowMoved(v: seq<Byte>, a: nat, columns: nat, n: nat)
    requires columns <= n && a + 2 * n <= |v|
    ensures CellsOf(v, a + 2 * columns, n - columns) == CellsOf(v, a, n)[columns..]
  {
  }

  lemma CellStored(v: seq<Byte>, a: nat, n: nat, k: nat, cell: Cell)
    requires k < n && a + 2 * n <= |v|
    ensures var u: seq<Byte> := v[a + 2 * k := cell.code];
      CellsOf(u[a + 2 * k + 1 := cell.attr], a, n) == CellsOf(v, a, n)[k := cell]
  {
  }

  /** For an odd number of cells the double words do not reach the last one, the blanks start one
      cell early, and the last cell of the screen keeps what was there. */
  lemma OddCopied(v: seq<Byte>, src: nat, columns: nat, lines: nat)
    requires 1 <= columns && 1 <= lines && 2 * Area(lines, columns) <= |v| && src + 2 * Area(lines - 1, columns) <= |v|
    requires Area(lines - 1, columns) % 2 == 1
    ensures var m, cells := Area(lines - 1, columns), CellsOf(CopiedBack(v, src, columns, lines), 0, Area(lines, columns));
      && |cells| == m + columns && cells[m - 1] == BLANK
      && cells[m + columns - 1] == CellsOf(v, 0, Area(lines, columns))[m + columns - 1]
  {
    var m := Area(lines - 1, columns);
    NextRow(lines - 1, columns);
    hide Area;
    var n := m / 2;
    assert 4 * n == 2 * (m - 1);
    var w, moved := CopiedBack(v, src, columns, lines), Moved(v, 0, src, n);
    assert w[2 * (m - 1)..2 * (m - 1) + 2 * columns] == Blanks(columns);
    BlankCells(w, 2 * (m - 1), columns);
    assert CellsOf(w, 2 * (m - 1), columns)[0] == BLANK;
    assert w[2 * (m + columns - 1)..] == v[2 * (m + columns - 1)..];
    SameCells(w, 2 * (m + columns - 1), v, 2 * (m + columns - 1), 1);
    hide *;
    OneCell(w, 0, m + columns, m - 1);
    OneCell(w, 2 * (m - 1), columns, 0);
    OneCell(w, 0, m + columns, m + columns - 1);
    OneCell(v, 0, m + columns, m + columns - 1);
  }

  lemma OneCell(v: seq<Byte>, a: nat, n: nat, k: nat)
    requires a + 2 * n <= |v| && k < n
    ensures CellsOf(v, a, n)[k] == CellsOf(v, a + 2 * k, 1)[0]
  {
  }

  lemma ZeroCells(v: seq<Byte>, a: nat, n: nat, k: nat)
    requires a + 2 * n <= |v| && k < n && forall i :: 0 <= i < |v| ==> v[i] == 0
    ensures CellsOf(v, a, n)[k] == Cell(0, 0)
  {
  }

  lemma OddCopiedWrong(v: seq<Byte>, src: nat, columns: nat, lines: nat)
    requires 1 <= columns && 1 <= lines && 2 * Area(lines, columns) <= |v| && src + 2 * Area(lines - 1, columns) <= |v|
    requires Area(lines - 1, columns) % 2 == 1 && forall i :: 0 <= i < |v| ==> v[i] == 0
    ensures !CopiedRight(v, src, columns, lines)
  {
    hide Area, CopiedBack, CellsOf, BlankRow;
    OddCopied(v, src, columns, lines);
    var m := Area(lines - 1, columns);
    ZeroCells(v, 0, Area(lines, columns), m + columns - 1);
    BlankRowLast(columns);
    assert (CellsOf(v, src, m) + BlankRow(columns))[m + columns - 1] == BlankRow(columns)[columns - 1];
  }

  lemma BlankRowLast(columns: nat)
    requires columns >= 1
    ensures BlankRow(columns)[columns - 1] == BLANK
  {
  }

  /** Copying back is right for every content of video memory exactly when the rows that stay have an
      even number of cells. */
  lemma CopiedRightExactlyWhen(columns: nat, lines: nat, src: nat, size: nat)
    requires 1 <= columns && 1 <= lines && 2 * Area(lines, columns) <= size && src + 2 * Area(lines - 1, columns) <= size
    ensures (forall v: seq<Byte> | |v| == size :: CopiedRight(v, src, columns, lines)) <==> Area(lines - 1, columns) % 2 == 0
  {
    hide CopiedRight, Area;
    if Area(lines - 1, columns) % 2 == 0 {
      forall v: seq<Byte> | |v| == size ensures CopiedRight(v, src, columns, lines) {
        EvenCopiedRight(v, src, columns, lines);
      }
    } else {
      var v := seq(size, _ => 0 as Byte);
      OddCopiedWrong(v, src, columns, lines);
    }
  }

  // The window

  /** Video memory, the offset of the screen in it, and the cursor. */
  datatype Window = Window(columns: nat, lines: nat, mem: seq<Byte>, origin: nat, x: nat, y: nat)

  /** The screen lies in video memory. */
  predicate Framed(w: Window) {
    1 <= w.columns && w.origin + 2 * Area(w.lines, w.columns) <= |w.mem| && w.y < w.lines
  }

  predicate Fits(w: Window) {
    Framed(w) && w.x <= w.columns
  }

  function Shown(w: Window): (s: Screen)
    requires Framed(w)
    ensures Fits(w) ==> WellFormed(s)
  {
    Screen(w.columns, w.lines, CellsOf(w.mem, w.origin, Area(w.lines, w.columns)), w.x, w.y)
  }

  /** The next row down leaves video memory. */
  predicate AtEnd(w: Window) {
    w.origin + 2 * w.columns + 2 * Area(w.lines, w.columns) > |w.mem|
  }

  /** The rows that stay when the screen moves up have an even number of cells. */
  predicate Even(w: Window) {
    w.lines >= 1 && Area(w.lines - 1, w.columns) % 2 == 0
  }

  lemma KeptRows(w: Window)
    requires Framed(w)
    ensures Area(w.lines - 1, w.columns) + w.columns == Area(w.lines, w.columns)
  {
    NextRow(w.lines - 1, w.columns);
  }

  /** scroll_up */
  function Slide(w: Window): (r: Window)
    requires Framed(w)
    ensures Framed(r)
  {
    KeptRows(w);
    var o := w.origin + 2 * w.columns;
    if AtEnd(w) then w.(mem := CopiedBack(w.mem, o, w.columns, w.lines), origin := 0)
    else w.(mem := Erased(w.mem, o + 2 * Area(w.lines - 1, w.columns), w.columns), origin := o)
  }

  /** The window is copied back only when the next row does not fit any more. Outside the bottom row, or behind the
      screen, video memory stays as it is. */
  lemma SlidePlace(w: Window)
    requires Framed(w)
    ensures var r := Slide(w); var next := w.origin + 2 * w.columns;
      && r == w.(mem := r.mem, origin := r.origin) && |r.mem| == |w.mem|
      && if next + 2 * Area(w.lines, w.columns) <= |w.mem| then
           r.origin == next && forall i :: 0 <= i < |w.mem| && !(2 * Area(w.lines - 1, w.columns) <= i - next < 2 * Area(w.lines, w.columns)) ==> r.mem[i] == w.mem[i]
         else
           r.origin == 0 && forall i :: 2 * Area(w.lines, w.columns) <= i < |w.mem| ==> r.mem[i] == w.mem[i]
  {
    KeptRows(w);
    hide Area;
  }

  /** lf */
  function NextLine(w: Window): (r: Window)
    requires Framed(w)
    ensures Framed(r)
  {
    if w.y + 1 < w.lines then w.(y := w.y + 1) else Slide(w)
  }

  /** The cursor has reached or passed the last column. */
  function Overflow(w: Window): (r: Window)
    requires Framed(w) && w.columns <= w.x
    ensures Framed(r)
  {
    NextLine(w.(x := w.x - w.columns))
  }

  lemma PlaceInside(w: Window)
    requires Fits(w)
    ensures Area(w.y, w.columns) + w.columns <= Area(w.lines, w.columns)
  {
    NextRow(w.y, w.columns);
    MoreRows(w.y + 1, w.lines, w.columns);
  }

  /** One cell at the cursor. */
  function Written(w: Window, cell: Cell): (r: Window)
    requires Fits(w) && w.x < w.columns
    ensures Fits(r)
  {
    PlaceInside(w);
    var p := w.origin + 2 * (Area(w.y, w.columns) + w.x);
    w.(mem := w.mem[p := cell.code][p + 1 := cell.attr])
  }

  function Typed(w: Window, c: Byte): (r: Window)
    requires Fits(w)
    ensures Fits(r)
  {
    var v := if w.x >= w.columns then Overflow(w) else w;
    Written(v, Cell(c, ATTR)).(x := v.x + 1)
  }

  function Tabbed(w: Window): (r: Window)
    requires Framed(w)
    ensures Framed(r)
  {
    var v := w.(x := TabStop(w.x));
    if v.x > v.columns then Overflow(v) else v
  }

  /** The signed character c, in con_write and con_print. */
  function Apply(w: Window, c: int, tabs: bool): (r: Window)
    requires Fits(w)
    ensures Framed(r)
  {
    if 31 < c < 127 then Typed(w, c as Byte)
    else if c == 10 || c == 11 || c == 12 then NextLine(w)
    else if c == 13 then w.(x := 0)
    else if c == 127 then if w.x > 0 then Written(w.(x := w.x - 1), BLANK) else w
    else if c == 8 then if w.x > 0 then w.(x := w.x - 1) else w
    else if c == 9 && tabs then Tabbed(w)
    else w
  }

  /** v is a window of the same size on as much video memory. */
  predicate Alike(v: Window, w: Window) {
    Fits(v) && v.columns == w.columns && v.lines == w.lines && |v.mem| == |w.mem|
  }

  lemma NextLineKeeps(w: Window)
    requires Framed(w)
    ensures var v := NextLine(w); v.columns == w.columns && v.lines == w.lines && v.x == w.x && |v.mem| == |w.mem|
  {
  }

  /** A tab keeps the cursor on the screen, wherever it stands, exactly when there are four columns or more. */
  lemma TabStaysExactlyWhen(w: Window)
    requires Framed(w)
    ensures (forall x | 0 <= x <= w.columns :: Fits(Tabbed(w.(x := x)))) <==> w.columns >= 4
  {
    hide NextLine;
    forall x | 0 <= x <= w.columns
      ensures Fits(Tabbed(w.(x := x))) <==> TabStop(x) <= w.columns || TabStop(x) - w.columns <= w.columns
    {
      var v := w.(x := TabStop(x));
      if v.x > v.columns { NextLineKeeps(v.(x := v.x - v.columns)); }
    }
    TabFitsExactlyWhen(w.columns);
  }

  lemma OverflowKeeps(w: Window)
    requires Framed(w) && w.columns <= w.x
    ensures var v := Overflow(w); v.columns == w.columns && v.lines == w.lines && v.x == w.x - w.columns && |v.mem| == |w.mem|
  {
    hide NextLine;
    NextLineKeeps(w.(x := w.x - w.columns));
  }

  lemma WrittenKeeps(w: Window, cell: Cell)
    requires Fits(w) && w.x < w.columns
    ensures Alike(Written(w, cell), w) && Written(w, cell).x == w.x
  {
    hide Area;
    PlaceInside(w);
  }

  lemma TypedKeeps(w: Window, c: Byte)
    requires Fits(w)
    ensures Alike(Typed(w, c), w)
  {
    hide Overflow, Written, Area;
    if w.x >= w.columns { OverflowKeeps(w); }
    WrittenKeeps(if w.x >= w.columns then Overflow(w) else w, Cell(c, ATTR));
  }

  lemma TabbedKeeps(w: Window)
    requires Fits(w) && w.columns >= 4
    ensures Alike(Tabbed(w), w)
  {
    hide Overflow, Area;
    var v := w.(x := TabStop(w.x));
    assert v.x <= w.columns || v.x - w.columns <= w.columns;
    if v.x > w.columns {
      OverflowKeeps(v);
      assert Fits(Overflow(v));
    }
  }

  lemma ApplyKeeps(w: Window, c: int, tabs: bool)
    requires Fits(w) && (tabs ==> w.columns >= 4)
    ensures Alike(Apply(w, c, tabs), w)
  {
    hide NextLine, Area, Written, Tabbed, Typed;
    NextLineKeeps(w);
    if 31 < c < 127 { TypedKeeps(w, c as Byte); }
    if w.x > 0 { WrittenKeeps(w.(x := w.x - 1), BLANK); }
    if tabs { TabbedKeeps(w); }
  }

  function ApplyAll(w: Window, cs: seq<int>, tabs: bool): (r: Window)
    requires Fits(w) && (tabs ==> w.columns >= 4)
    ensures Alike(r, w)
    decreases |cs|
  {
    if cs == [] then w
    else
      ApplyKeeps(w, cs[0], tabs);
      ApplyAll(Apply(w, cs[0], tabs), cs[1..], tabs)
  }

  // What the window shows

  /** The character c starts a new line. */
  predicate Breaks(w: Window, c: int, tabs: bool) {
    c == 10 || c == 11 || c == 12 || (31 < c < 127 && w.x >= w.columns) || (c == 9 && tabs && TabStop(w.x) > w.columns)
  }

  /** Copied back, the window still shows what it should, or it is not copied back at all. */
  predicate Slides(w: Window) {
    AtEnd(w) && w.y + 1 >= w.lines ==> Even(w)
  }

  lemma SlideShows(w: Window)
    requires Fits(w) && (AtEnd(w) ==> Even(w))
    ensures Shown(Slide(w)) == Scrolled(Shown(w))
  {
    hide CellsOf, CopiedBack, Erased, Area, BlankRow;
    KeptRows(w);
    var o := w.origin + 2 * w.columns;
    WindowMoved(w.mem, w.origin, w.columns, Area(w.lines, w.columns));
    if AtEnd(w) {
      EvenCopiedRight(w.mem, o, w.columns, w.lines);
    } else {
      ErasedRow(w.mem, o, w.columns, w.lines);
    }
  }

  lemma NextLineShows(w: Window)
    requires Fits(w) && Slides(w)
    ensures Shown(NextLine(w)) == LineFeed(Shown(w))
  {
    hide Slide, Scrolled, CellsOf, Area;
    if w.y + 1 >= w.lines { SlideShows(w); }
  }

  lemma WrittenShows(w: Window, cell: Cell)
    requires Fits(w) && w.x < w.columns
    ensures Shown(Written(w, cell)) == Store(Shown(w), cell)
  {
    hide CellsOf, Area;
    PlaceInside(w);
    CellStored(w.mem, w.origin, Area(w.lines, w.columns), Area(w.y, w.columns) + w.x, cell);
  }

  lemma OverflowShows(w: Window)
    requires Framed(w) && w.columns <= w.x && Slides(w)
    ensures WellFormed(Shown(w).(x := 0)) && Shown(Overflow(w)) == Wrap(Shown(w))
  {
    hide LineFeed, CellsOf, Area, CopiedBack, Erased;
    var v := w.(x := 0);
    NextLineShows(v);
    assert NextLine(w.(x := w.x - w.columns)) == NextLine(v).(x := w.x - w.columns);
  }

  lemma TypedShows(w: Window, c: Byte)
    requires Fits(w) && (w.x == w.columns ==> Slides(w))
    ensures Shown(Typed(w, c)) == Print(Shown(w), c)
  {
    hide NextLine, CellsOf, Wrap, Written, Store, Area, LineFeed, Overflow, Slides;
    var v := if w.x >= w.columns then Overflow(w) else w;
    if w.x == w.columns {
      OverflowShows(w);
      OverflowKeeps(w);
    }
    WrittenShows(v, Cell(c, ATTR));
  }

  /** One character, unless the screen is copied back with an odd number of cells. */
  lemma ApplyShows(w: Window, c: int, tabs: bool)
    requires Fits(w) && (Breaks(w, c, tabs) ==> Slides(w))
    ensures Shown(Apply(w, c, tabs)) == Feed(Shown(w), c, tabs)
  {
    hide NextLine, CellsOf, Wrap, Written, Store, Area, LineFeed, Overflow, Typed, Print, Slides;
    if 31 < c < 127 {
      TypedShows(w, c as Byte);
    } else if c == 10 || c == 11 || c == 12 {
      NextLineShows(w);
    } else if c == 127 && w.x > 0 {
      WrittenShows(w.(x := w.x - 1), BLANK);
    } else if c == 9 && tabs && TabStop(w.x) > w.columns {
      SlidesAnywhere(w, TabStop(w.x));
      OverflowShows(w.(x := TabStop(w.x)));
    }
  }

  lemma SlidesAnywhere(w: Window, x: nat)
    ensures Slides(w.(x := x)) == Slides(w)
  {
  }

  lemma EvenSlides(w: Window)
    requires Even(w)
    ensures Slides(w)
  {
  }

  lemma {:induction false} EvenShows(w: Window, text: seq<int>, tabs: bool)
    requires Fits(w) && (tabs ==> w.columns >= 4) && Even(w)
    ensures Shown(ApplyAll(w, text, tabs)) == FeedAll(Shown(w), text, tabs)
    decreases |text|
  {
    hide Apply, Feed, CellsOf, Area, Slides, Even;
    if text != [] {
      EvenSlides(w);
      ApplyShows(w, text[0], tabs);
      ApplyKeeps(w, text[0], tabs);
      SameParity(w, Apply(w, text[0], tabs));
      EvenShows(Apply(w, text[0], tabs), text[1..], tabs);
    }
  }

  lemma SameParity(w: Window, v: Window)
    requires v.columns == w.columns && v.lines == w.lines
    ensures Even(v) == Even(w)
  {
  }

  /** The bottom row, ending in something else than a blank, goes up by one when the window is copied
      back; its last cell turns blank if the number of cells is odd. */
  lemma OddSlideWrong(w: Window)
    requires Fits(w) && !Even(w) && AtEnd(w) && Shown(w).cells[|Shown(w).cells| - 1] != BLANK
    ensures Shown(Slide(w)) != Scrolled(Shown(w))
  {
    hide CellsOf, CopiedBack, Area, BlankRow;
    KeptRows(w);
    OddCopied(w.mem, w.origin + 2 * w.columns, w.columns, w.lines);
    var m := Area(w.lines - 1, w.columns);
    assert Shown(Slide(w)).cells[m - 1] == BLANK;
    assert Scrolled(Shown(w)).cells[m - 1] == Shown(w).cells[m - 1 + w.columns];
  }

  /** text shows something else than it should. */
  predicate Wrong(w: Window, text: seq<int>, tabs: bool)
    requires Fits(w) && (tabs ==> w.columns >= 4)
  {
    Shown(ApplyAll(w, text, tabs)) != FeedAll(Shown(w), text, tabs)
  }

  lemma WrongLater(w: Window, c: int, text: seq<int>, tabs: bool)
    requires Fits(w) && (tabs ==> w.columns >= 4) && (Breaks(w, c, tabs) ==> Slides(w))
    requires Alike(Apply(w, c, tabs), w) && Wrong(Apply(w, c, tabs), text, tabs)
    ensures Wrong(w, [c] + text, tabs)
  {
    hide Apply, Feed, CellsOf, Area, Slides;
    ApplyShows(w, c, tabs);
    assert ([c] + text)[1..] == text;
  }

  /** In the bottom row: type up to its end, and start a new line. */
  lemma {:induction false} FillLine(w: Window, tabs: bool) returns (text: seq<int>)
    requires Fits(w) && (tabs ==> w.columns >= 4) && !Even(w) && AtEnd(w) && w.y + 1 == w.lines
    requires w.x == w.columns ==> Shown(w).cells[|Shown(w).cells| - 1] != BLANK
    ensures Wrong(w, text, tabs)
    decreases w.columns - w.x
  {
    hide CellsOf, Area, Slides, Slide, Scrolled;
    if w.x == w.columns {
      text := [10];
      OddSlideWrong(w);
      assert text[1..] == [];
    } else {
      var v := Written(w, Cell(65, ATTR)).(x := w.x + 1);
      assert Apply(w, 65, tabs) == v;
      WrittenShows(w, Cell(65, ATTR));
      KeptRows(w);
      SameParity(w, v);
      var rest := FillLine(v, tabs);
      text := [65] + rest;
      WrongLater(w, 65, rest, tabs);
    }
  }

  /** From every state of the console a text leads to a wrong screen if the number of cells is odd. */
  lemma {:induction false} OddWrong(w: Window, tabs: bool) returns (text: seq<int>)
    requires Fits(w) && (tabs ==> w.columns >= 4) && !Even(w)
    ensures Wrong(w, text, tabs)
    decreases |w.mem| - w.origin + w.lines - w.y
  {
    hide CellsOf, Area, CopiedBack, Erased;
    if AtEnd(w) && w.y + 1 >= w.lines {
      var v := w.(x := 0);
      var rest := FillLine(v, tabs);
      text := [13] + rest;
      WrongLater(w, 13, rest, tabs);
    } else {
      var v := NextLine(w);
      NextLineKeeps(w);
      SameParity(w, v);
      var rest := OddWrong(v, tabs);
      text := [10] + rest;
      WrongLater(w, 10, rest, tabs);
    }
  }

  /** The console shows every text as a plain terminal would exactly when the rows that stay on a
      scroll have an even number of cells. */
  lemma ShowsExactlyWhen(w: Window, tabs: bool)
    requires Fits(w) && (tabs ==> w.columns >= 4)
    ensures (forall text :: Shown(ApplyAll(w, text, tabs)) == FeedAll(Shown(w), text, tabs)) <==> Even(w)
  {
    hide CellsOf, ApplyAll, FeedAll, Even, Area;
    if Even(w) {
      forall text ensures Shown(ApplyAll(w, text, tabs)) == FeedAll(Shown(w), text, tabs) { EvenShows(w, text, tabs); }
    } else {
      var text := OddWrong(w, tabs);
      assert Shown(ApplyAll(w, text, tabs)) != FeedAll(Shown(w), text, tabs);
    }
  }

  // One character after the other

  lemma {:induction false} ApplyAllAppend(w: Window, a: seq<int>, b: seq<int>, tabs: bool)
    requires Fits(w) && (tabs ==> w.columns >= 4)
    ensures ApplyAll(w, a + b, tabs) == ApplyAll(ApplyAll(w, a, tabs), b, tabs)
    decreases |a|
  {
    hide Apply, Area;
    if a == [] {
      assert a + b == b;
    } else {
      assert (a + b)[0] == a[0] && (a + b)[1..] == a[1..] + b;
      ApplyKeeps(w, a[0], tabs);
      ApplyAllAppend(Apply(w, a[0], tabs), a[1..], b, tabs);
    }
  }

  lemma ApplyNone(w: Window, none: seq<int>, tabs: bool)
    requires Fits(w) && (tabs ==> w.columns >= 4) && none == []
    ensures ApplyAll(w, none, tabs) == w
  {
  }

  lemma ApplyNext(w: Window, cs: seq<int>, c: int, all: seq<int>, tabs: bool)
    requires Fits(w) && (tabs ==> w.columns >= 4) && all == cs + [c]
    ensures ApplyAll(w, all, tabs) == Apply(ApplyAll(w, cs, tabs), c, tabs)
  {
    hide Apply, Area;
    ApplyAllAppend(w, cs, [c], tabs);
    ApplyKeeps(ApplyAll(w, cs, tabs), c, tabs);
    assert [c][1..] == [];
  }
}
