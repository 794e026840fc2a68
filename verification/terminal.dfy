/** A plain lines-by-columns screen with a cursor: what the console is meant to show. */
module Terminal {

  newtype Byte = b: int | 0 <= b < 256

  /** One character cell: the character and its attribute. */
  datatype Cell = Cell(code: Byte, attr: Byte)

  const ATTR: Byte := 7

  /** video_erase_char, 0x0720 */
  const BLANK := Cell(0x20, 0x07)

  /** The number of cells in so many rows. */
  function Area(rows: nat, columns: nat): nat {
    rows * columns
  }

  lemma NextRow(rows: nat, columns: nat)
    ensures Area(rows + 1, columns) == Area(rows, columns) + columns
  {
  }

  lemma RowBytes(rows: nat, columns: nat)
    ensures rows * (2 * columns) == 2 * Area(rows, columns)
  {
  }

  lemma MoreRows(rows: nat, more: nat, columns: nat)
    requires rows <= more
    ensures Area(rows, columns) <= Area(more, columns)
  {
  }

  /** The cells row by row, and the cursor. The cursor may stand just behind the last column. */
  datatype Screen = Screen(columns: nat, lines: nat, cells: seq<Cell>, x: nat, y: nat)

  ghost predicate WellFormed(s: Screen) {
    && 1 <= s.columns && |s.cells| == Area(s.lines, s.columns)
    && s.x <= s.columns && s.y < s.lines
  }

  function Cells(s: Screen, r: nat, c: nat): Cell
    requires WellFormed(s) && r < s.lines && c < s.columns
  {
    CellIndex(s, r, c);
    s.cells[Area(r, s.columns) + c]
  }

  lemma CellIndex(s: Screen, r: nat, c: nat)
    requires WellFormed(s) && r < s.lines && c < s.columns
    ensures 0 <= Area(r, s.columns) + c < |s.cells|
  {
    assert r * s.columns + s.columns == (r + 1) * s.columns <= s.lines * s.columns;
  }

  function BlankRow(columns: nat): (r: seq<Cell>)
    ensures |r| == columns
  {
    seq(columns, _ => BLANK)
  }

  /** All rows move up by one and a blank row comes in at the bottom. */
  function Scrolled(s: Screen): Screen
    requires WellFormed(s)
  {
    CellIndex(s, 0, s.columns - 1);
    s.(cells := s.cells[s.columns..] + BlankRow(s.columns))
  }

  function LineFeed(s: Screen): Screen
    requires WellFormed(s)
  {
    if s.y + 1 < s.lines then s.(y := s.y + 1) else Scrolled(s)
  }

  function CarriageReturn(s: Screen): Screen {
    s.(x := 0)
  }

  function Back(s: Screen): Screen {
    if s.x > 0 then s.(x := s.x - 1) else s
  }

  function Store(s: Screen, cell: Cell): Screen
    requires WellFormed(s) && s.x < s.columns
  {
    CellIndex(s, s.y, s.x);
    s.(cells := s.cells[Area(s.y, s.columns) + s.x := cell])
  }

  function Delete(s: Screen): Screen
    requires WellFormed(s)
  {
    if s.x > 0 then Store(Back(s), BLANK) else s
  }

  /** A cursor that has gone past the last column goes on in the next line. */
  function Wrap(s: Screen): Screen
    requires WellFormed(s.(x := 0)) && s.columns <= s.x
  {
    LineFeed(s.(x := 0)).(x := s.x - s.columns)
  }

  function Print(s: Screen, c: Byte): Screen
    requires WellFormed(s)
  {
    var t := if s.x == s.columns then Wrap(s) else s;
    LineFeedKeeps(s.(x := 0));
    Store(t, Cell(c, ATTR)).(x := t.x + 1)
  }

  /** The column of the next tab stop, before wrapping. */
  function TabStop(x: nat): nat {
    x + 8 - x % 8
  }

  function Tab(s: Screen): Screen
    requires WellFormed(s)
  {
    var t := s.(x := TabStop(s.x));
    if t.x > s.columns then Wrap(t) else t
  }

  /** The effect of the signed character c. Only con_write knows tabs. */
  function Feed(s: Screen, c: int, tabs: bool): Screen
    requires WellFormed(s)
  {
    if 31 < c < 127 then Print(s, c as Byte)
    else if c == 10 || c == 11 || c == 12 then LineFeed(s)
    else if c == 13 then CarriageReturn(s)
    else if c == 127 then Delete(s)
    else if c == 8 then Back(s)
    else if c == 9 && tabs then Tab(s)
    else s
  }

  lemma LineFeedKeeps(s: Screen)
    requires WellFormed(s)
    ensures WellFormed(LineFeed(s)) && LineFeed(s).x == s.x
    ensures LineFeed(s).columns == s.columns && LineFeed(s).lines == s.lines
  {
    CellIndex(s, 0, s.columns - 1);
  }

  /** A tab keeps the cursor on the screen from every column exactly when there are four columns or
      more: below that, the stop at column 8 is more than one line away. */
  lemma TabFitsExactlyWhen(columns: nat)
    ensures (forall x :: 0 <= x <= columns ==> TabStop(x) <= columns || TabStop(x) - columns <= columns) <==> columns >= 4
  {
    if columns < 4 {
      assert TabStop(0) == 8;
    }
  }

  /** t is a screen of the same size. */
  ghost predicate Like(t: Screen, s: Screen) {
    WellFormed(t) && t.columns == s.columns && t.lines == s.lines
  }

  lemma StoreKeeps(s: Screen, cell: Cell)
    requires WellFormed(s) && s.x < s.columns
    ensures Like(Store(s, cell), s)
  {
    CellIndex(s, s.y, s.x);
  }

  lemma WrapKeeps(s: Screen)
    requires WellFormed(s.(x := 0)) && s.columns <= s.x <= 2 * s.columns
    ensures Like(Wrap(s), s) && Wrap(s).x == s.x - s.columns
  {
    LineFeedKeeps(s.(x := 0));
  }

  lemma PrintKeeps(s: Screen, c: Byte)
    requires WellFormed(s)
    ensures Like(Print(s, c), s)
  {
    if s.x == s.columns { WrapKeeps(s); }
    var t := if s.x == s.columns then Wrap(s) else s;
    hide Wrap;
    StoreKeeps(t, Cell(c, ATTR));
  }

  lemma TabKeeps(s: Screen)
    requires WellFormed(s) && s.columns >= 4
    ensures Like(Tab(s), s)
  {
    TabFitsExactlyWhen(s.columns);
    var t := s.(x := TabStop(s.x));
    if t.x > s.columns { WrapKeeps(t); }
    hide Wrap;
  }

  predicate Tabbable(s: Screen, tabs: bool) {
    tabs ==> s.columns >= 4
  }

  /** Every character leaves the cursor on the screen. */
  lemma FeedKeeps(s: Screen, c: int, tabs: bool)
    requires WellFormed(s) && Tabbable(s, tabs)
    ensures Like(Feed(s, c, tabs), s)
  {
    LineFeedKeeps(s);
    if s.x > 0 { StoreKeeps(Back(s), BLANK); }
    if 31 < c < 127 { PrintKeeps(s, c as Byte); }
    if s.columns >= 4 { TabKeeps(s); }
    hide LineFeed, Store, Tab, Print;
  }

  function FeedAll(s: Screen, cs: seq<int>, tabs: bool): (t: Screen)
    requires WellFormed(s) && Tabbable(s, tabs)
    ensures WellFormed(t) && t.columns == s.columns && t.lines == s.lines
    decreases |cs|
  {
    if cs == [] then s
    else
      FeedKeeps(s, cs[0], tabs);
      FeedAll(Feed(s, cs[0], tabs), cs[1..], tabs)
  }

  // What the screen shows

  /** A line feed on the bottom line shows every row one line higher and a blank row below. */
  lemma ScrolledRows(s: Screen, r: nat, c: nat)
    requires WellFormed(s) && r < s.lines && c < s.columns
    ensures WellFormed(Scrolled(s))
    ensures Cells(Scrolled(s), r, c) == if r + 1 < s.lines then Cells(s, r + 1, c) else Cell(0x20, 7)
  {
    LineFeedKeeps(s.(y := s.lines - 1));
    CellIndex(s, r, c);
    assert (r + 1) * s.columns == r * s.columns + s.columns;
    if r + 1 < s.lines {
      CellIndex(s, r + 1, c);
    } else {
      assert r + 1 == s.lines;
    }
  }

  /** t is s with the cursor one line further down, in the same column: at the bottom, every row has moved up by one
      and a blank row has come in. */
  ghost predicate OneLineDown(s: Screen, t: Screen)
    requires WellFormed(s)
  {
    && Like(t, s) && t.x == s.x
    && if s.y + 1 < s.lines then t.y == s.y + 1 && t.cells == s.cells
       else t.y == s.y && forall r, c :: 0 <= r < s.lines && 0 <= c < s.columns ==>
         Cells(t, r, c) == if r + 1 < s.lines then Cells(s, r + 1, c) else Cell(0x20, 7)
  }

  /** Newline, vertical tab and form feed. */
  lemma LineFeedShown(s: Screen, c: int, tabs: bool)
    requires WellFormed(s) && 10 <= c <= 12
    ensures OneLineDown(s, Feed(s, c, tabs))
  {
    LineFeedKeeps(s);
    hide LineFeed, Cells, Scrolled, Area;
    LineFeedCases(s);
    if s.y + 1 >= s.lines {
      forall r, c | 0 <= r < s.lines && 0 <= c < s.columns
        ensures Cells(LineFeed(s), r, c) == if r + 1 < s.lines then Cells(s, r + 1, c) else BLANK
      {
        ScrolledRows(s, r, c);
      }
    }
  }

  lemma LineFeedCases(s: Screen)
    requires WellFormed(s)
    ensures LineFeed(s).x == s.x && LineFeed(s).y == if s.y + 1 < s.lines then s.y + 1 else s.y
    ensures if s.y + 1 < s.lines then LineFeed(s).cells == s.cells else LineFeed(s) == Scrolled(s)
  {
  }

  lemma LineFeedAnywhere(s: Screen, x: nat)
    requires WellFormed(s) && x <= s.columns
    ensures LineFeed(s.(x := x)) == LineFeed(s).(x := x)
  {
    hide Area, BlankRow;
  }

  /** Carriage return and backspace move the cursor only; delete blanks the cell that it moves to; everything else
      that is not printable does nothing. */
  lemma ControlsShown(s: Screen, tabs: bool)
    requires WellFormed(s)
    ensures Feed(s, 13, tabs) == s.(x := 0)
    ensures Feed(s, 8, tabs) == s.(x := if s.x == 0 then 0 else s.x - 1)
    ensures forall c :: (c < 8 || 13 < c < 32 || 127 < c || (c == 9 && !tabs)) ==> Feed(s, c, tabs) == s
  {
    hide Store, LineFeed, Print, Tab;
  }

  lemma DeleteShown(s: Screen, tabs: bool, r: nat, c: nat)
    requires WellFormed(s) && r < s.lines && c < s.columns
    ensures var t := Feed(s, 127, tabs);
      && Like(t, s) && t.y == s.y && t.x == (if s.x == 0 then 0 else s.x - 1)
      && Cells(t, r, c) == if s.x > 0 && r == s.y && c == s.x - 1 then Cell(0x20, 7) else Cells(s, r, c)
  {
    if s.x > 0 {
      StoreKeeps(Back(s), BLANK);
      CellIndex(s, r, c);
      CellIndex(s, s.y, s.x - 1);
      CellsApart(s, r, c, s.y, s.x - 1);
      hide LineFeed, Print, Tab, Area;
    }
  }

  /** At the end of a line, a printable character goes where it would go from the start of the next. */
  lemma LineFull(s: Screen, c: int, tabs: bool)
    requires WellFormed(s) && s.x == s.columns && 31 < c < 127
    ensures var v := Feed(s.(x := 0), 10, tabs); OneLineDown(s.(x := 0), v) && Feed(s, c, tabs) == Feed(v, c, tabs)
  {
    hide Store, Area, OneLineDown;
    LineFeedShown(s.(x := 0), 10, tabs);
    LineFeedKeeps(s.(x := 0));
    hide LineFeed;
  }

  /** The tab stop is the first multiple of eight to the right. */
  lemma TabStopIs(x: nat)
    ensures x < TabStop(x) <= x + 8 && TabStop(x) % 8 == 0
    ensures forall z :: x < z < TabStop(x) ==> z % 8 != 0
  {
  }

  /** A tab moves the cursor to the first multiple of eight to the right, or, when that lies beyond the last column,
      as many columns into the next line. */
  lemma TabShown(s: Screen, stop: nat)
    requires WellFormed(s) && s.columns >= 4 && s.x < stop <= s.x + 8 && stop % 8 == 0
    ensures if stop <= s.columns then Feed(s, 9, true) == s.(x := stop)
            else stop - s.columns <= s.columns && OneLineDown(s.(x := stop - s.columns), Feed(s, 9, true))
  {
    hide Area, Cells, OneLineDown, LineFeed;
    TabStopIs(s.x);
    assert stop == TabStop(s.x);
    if stop > s.columns {
      var v := s.(x := stop - s.columns);
      LineFeedShown(v, 10, true);
      LineFeedAnywhere(s.(x := 0), v.x);
    }
  }

  lemma CellsApart(s: Screen, r: nat, c: nat, r': nat, c': nat)
    requires WellFormed(s) && r < s.lines && c < s.columns && r' < s.lines && c' < s.columns
    ensures Area(r, s.columns) + c == Area(r', s.columns) + c' <==> r == r' && c == c'
  {
    if r < r' {
      assert (r + 1) * s.columns <= r' * s.columns;
    } else if r' < r {
      assert (r' + 1) * s.columns <= r * s.columns;
    }
  }

  /** Printable text that fits on the rest of the line appears there from the cursor on; nothing
      else changes. */
  lemma {:induction false} TextShown(s: Screen, text: seq<int>, tabs: bool, r: nat, c: nat)
    requires WellFormed(s) && Tabbable(s, tabs) && s.x + |text| <= s.columns
    requires forall i :: 0 <= i < |text| ==> 31 < text[i] < 127
    requires r < s.lines && c < s.columns
    ensures var t := FeedAll(s, text, tabs);
      && t.x == s.x + |text| && t.y == s.y
      && Cells(t, r, c) == if r == s.y && s.x <= c < s.x + |text| then Cell(text[c - s.x] as Byte, 7) else Cells(s, r, c)
    decreases |text|
  {
    hide Feed, Cells, Area;
    if text != [] {
      var u := Feed(s, text[0], tabs);
      FeedKeeps(s, text[0], tabs);
      OneShown(s, text[0], tabs, r, c);
      TextShown(u, text[1..], tabs, r, c);
      assert forall k :: 1 <= k < |text| ==> text[1..][k - 1] == text[k];
    }
  }

  lemma OneShown(s: Screen, k: int, tabs: bool, r: nat, c: nat)
    requires WellFormed(s) && s.x < s.columns && 31 < k < 127 && r < s.lines && c < s.columns
    ensures var t := Feed(s, k, tabs);
      && Like(t, s) && t.x == s.x + 1 && t.y == s.y
      && Cells(t, r, c) == if r == s.y && c == s.x then Cell(k as Byte, 7) else Cells(s, r, c)
  {
    hide Area, LineFeed, Wrap;
    CellIndex(s, s.y, s.x);
    CellIndex(s, r, c);
    CellsApart(s, r, c, s.y, s.x);
  }
}
