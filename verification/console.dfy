/** kernel/chr_drv/console.c as it stands: the cursor and the window are addresses, and characters are
    stored where they point. Every method is proved to compute the function of VideoMemory on values. */
module ConsoleCode {

  import opened Terminal
  import opened VideoMemory

  /** movsl */
  function MovedDword(v: seq<Byte>, i: nat, j: nat): (r: seq<Byte>)
    requires i <= j && j + 4 <= |v|
    ensures |r| == |v|
  {
    v[i := v[j]][i + 1 := v[j + 1]][i + 2 := v[j + 2]][i + 3 := v[j + 3]]
  }

  lemma MovedNone(v: seq<Byte>, dst: nat, src: nat)
    requires dst <= src <= |v|
    ensures Moved(v, dst, src, 0) == v
  {
  }

  /** The next double word has not been overwritten yet. */
  lemma MovedStep(v: seq<Byte>, dst: nat, src: nat, n: nat)
    requires dst <= src && src + 4 * (n + 1) <= |v|
    ensures MovedDword(Moved(v, dst, src, n), dst + 4 * n, src + 4 * n) == Moved(v, dst, src, n + 1)
  {
    var w, i, j := Moved(v, dst, src, n), dst + 4 * n, src + 4 * n;
    assert w[j..j + 4] == v[j..j + 4];
    assert v[src..j] + v[j..j + 4] == v[src..j + 4];
  }

  class Console {
    const columns: nat
    const sizeRow: nat
    const lines: nat
    const memBase: nat
    const memEnd: nat

    /** Video memory from memBase to memEnd. */
    const mem: array<Byte>

    var origin: nat
    var scrEnd: nat
    var pos: nat
    var x: nat
    var y: nat

    /** The whole screen fits into video memory. */
    ghost predicate Fits() {
      && 1 <= columns && sizeRow == 2 * columns && memBase + 2 * Area(lines, columns) <= memEnd
      && mem.Length == memEnd - memBase
    }

    /** The cursor may be to the right of the screen. */
    ghost predicate Placed()
      reads this
    {
      && Fits() && memBase <= origin && scrEnd == origin + 2 * Area(lines, columns) <= memEnd
      && y < lines && pos == origin + 2 * (Area(y, columns) + x)
    }

    ghost predicate Valid()
      reads this
    {
      Placed() && x <= columns
    }

    ghost function Value(): (w: Window)
      requires Placed()
      ensures Framed(w) && (Valid() ==> VideoMemory.Fits(w))
      reads this, mem
    {
      Window(columns, lines, mem[..], origin - memBase, x, y)
    }

    /** con_init: what the boot loader left about the screen, and the bytes found in video memory.
        The cursor is only valid if the boot loader's lies on the screen. */
    constructor (columns: nat, lines: nat, color: bool, ega: bool, origX: nat, origY: nat, found: seq<Byte>)
      requires |found| == if ega then 0x8000 else 0x2000
      requires 2 <= columns && 2 * Area(lines, columns) <= |found| && 2 * (2 * columns) <= |found|
      ensures this.columns == columns && this.lines == lines && Fits() && fresh(mem) && mem.Length == |found|
      ensures memBase == (if color then 0xb8000 else 0xb0000)
      ensures origX <= columns && origY < lines <==> Valid()
      ensures Valid() ==> x == origX && y == origY && origin == memBase
      ensures forall i :: 0 <= i < mem.Length && !(i % 2 == 0 && 2 * sizeRow - 8 <= i < 2 * sizeRow) ==> mem[i] == found[i]
      ensures var name := if ega then (if color then "EGAc" else "EGAm") else (if color then "*CGA" else "*MDA");
        forall i :: 0 <= i < 4 ==> mem[2 * sizeRow - 8 + 2 * i] == (name[i] as int % 256) as Byte
    {
      this.columns, this.lines, this.sizeRow := columns, lines, 2 * columns;
      var from := if color then 0xb8000 else 0xb0000;
      memBase := from;
      memEnd := from + |found|;
      mem := new Byte[|found|](i requires 0 <= i < |found| => found[i]);
      origin := from;
      scrEnd := from + 2 * Area(lines, columns);
      x, y, pos := 0, 0, 0;
      new;
      Describe(if ega then (if color then "EGAc" else "EGAm") else (if color then "*CGA" else "*MDA"));
      RowBytes(origY, columns);
      GotoXY(origX, origY);
    }

    /** The name of the display, at the end of the second row. */
    method Describe(description: string)
      requires |description| == 4 && 8 <= 2 * sizeRow <= mem.Length
      modifies mem
      ensures forall k :: 0 <= k < mem.Length && !(k % 2 == 0 && 2 * sizeRow - 8 <= k < 2 * sizeRow) ==> mem[k] == old(mem[k])
      ensures forall i :: 0 <= i < 4 ==> mem[2 * sizeRow - 8 + 2 * i] == (description[i] as int % 256) as Byte
    {
      var at, i := 2 * sizeRow - 8, 0;
      while i < |description|
        invariant 0 <= i <= 4 && at == 2 * sizeRow - 8 + 2 * i
        invariant forall k :: 0 <= k < mem.Length && !(k % 2 == 0 && 2 * sizeRow - 8 <= k < 2 * sizeRow) ==> mem[k] == old(mem[k])
        invariant forall j :: 0 <= j < i ==> mem[2 * sizeRow - 8 + 2 * j] == (description[j] as int % 256) as Byte
      {
        mem[at] := (description[i] as int % 256) as Byte;
        at := at + 2;
        i := i + 1;
      }
    }

    method GotoXY(newX: nat, newY: nat)
      modifies `x, `y, `pos
      ensures if newX > columns || newY >= lines then x == old(x) && y == old(y) && pos == old(pos)
              else x == newX && y == newY && pos == origin + newY * sizeRow + 2 * newX
    {
      if newX > columns || newY >= lines {
        return;
      }
      x := newX;
      y := newY;
      pos := origin + y * sizeRow + 2 * x;
    }

    /** movsl */
    method MoveDword(i: nat, j: nat)
      requires i <= j && j + 4 <= mem.Length
      modifies mem
      ensures mem[..] == MovedDword(old(mem[..]), i, j)
    {
      mem[i], mem[i + 1], mem[i + 2], mem[i + 3] := mem[j], mem[j + 1], mem[j + 2], mem[j + 3];
    }

    /** rep movsl; d and s are offsets into video memory. */
    method MoveDwords(d: nat, s: nat, count: nat)
      requires d <= s && s + 4 * count <= mem.Length
      modifies mem
      ensures mem[..] == Moved(old(mem[..]), d, s, count)
    {
      hide *;
      ghost var v := mem[..];
      MovedNone(v, d, s);
      var n := 0;
      while n < count
        invariant 0 <= n <= count
        invariant mem[..] == Moved(v, d, s, n)
      {
        MovedStep(v, d, s, n);
        MoveDword(d + 4 * n, s + 4 * n);
        n := n + 1;
      }
    }

    /** rep stosw of video_erase_char; d is an offset into video memory. */
    method EraseWords(d: nat, count: nat)
      requires d + 2 * count <= mem.Length
      modifies mem
      ensures mem[..] == Erased(old(mem[..]), d, count)
    {
      var n := 0;
      while n < count
        invariant 0 <= n <= count
        invariant forall k :: 0 <= k < mem.Length ==>
          mem[k] == if d <= k < d + 2 * n then Blanks(count)[k - d] else old(mem[k])
      {
        mem[d + 2 * n], mem[d + 2 * n + 1] := BLANK.code, BLANK.attr;
        n := n + 1;
      }
    }

    /** The window has slid out of video memory: its upper rows go back to the start. */
    method CopyBack(src: nat)
      requires 1 <= lines && 2 * Area(lines, columns) <= mem.Length
      requires src + 2 * Area(lines - 1, columns) <= mem.Length
      modifies mem
      ensures mem[..] == CopiedBack(old(mem[..]), src, columns, lines)
    {
      NextRow(lines - 1, columns);
      hide Area, Moved, Erased;
      var count := Area(lines - 1, columns) / 2;
      MoveDwords(0, src, count);
      EraseWords(4 * count, columns);
    }

    method ScrollUp()
      requires Placed()
      modifies `origin, `pos, `scrEnd, mem
      ensures Placed() && Value() == Slide(old(Value()))
    {
      hide Area, CopiedBack, Erased;
      KeptRows(Value());
      origin := origin + sizeRow;
      pos := pos + sizeRow;
      scrEnd := scrEnd + sizeRow;
      if scrEnd > memEnd {
        CopyBack(origin - memBase);
        scrEnd := scrEnd - (origin - memBase);
        pos := pos - (origin - memBase);
        origin := memBase;
      } else {
        EraseWords(scrEnd - sizeRow - memBase, columns);
      }
    }

    method Lf()
      requires Placed()
      modifies this, mem
      ensures Placed() && Value() == NextLine(old(Value()))
    {
      hide Area, Slide;
      if y + 1 < lines {
        NextRow(y, columns);
        y := y + 1;
        pos := pos + sizeRow;
        return;
      }
      ScrollUp();
    }

    method Cr()
      requires Valid()
      modifies this
      ensures Valid() && Value() == old(Value()).(x := 0)
    {
      pos := pos - 2 * x;
      x := 0;
    }

    /** Writes one cell at pos. */
    method StoreCell(cell: Cell)
      requires Valid() && x < columns
      modifies mem
      ensures Value() == Written(old(Value()), cell)
    {
      hide Area;
      PlaceInside(Value());
      var p := pos - memBase;
      ghost var v: seq<Byte> := mem[..][p := cell.code];
      ghost var w: seq<Byte> := v[p + 1 := cell.attr];
      mem[p] := cell.code;
      mem[p + 1] := cell.attr;
      assert mem[..] == w;
    }

    method Del()
      requires Valid()
      modifies this, mem
      ensures Valid() && Value() == Apply(old(Value()), 127, false)
    {
      hide Area, Written, NextLine, Typed, Tabbed;
      if x > 0 {
        pos := pos - 2;
        x := x - 1;
        StoreCell(BLANK);
      }
    }

    method BackSpace()
      requires Valid()
      modifies this
      ensures Valid() && Value() == Apply(old(Value()), 8, false)
    {
      hide Area, Written, NextLine, Typed, Tabbed;
      if x > 0 {
        x := x - 1;
        pos := pos - 2;
      }
    }

    /** The cursor has reached or passed the last column. */
    method WrapLine()
      requires Placed() && x >= columns
      modifies this, mem
      ensures Placed() && Value() == Overflow(old(Value())) && x == old(x) - columns
    {
      hide Area, NextLine;
      OverflowKeeps(Value());
      x := x - columns;
      pos := pos - sizeRow;
      Lf();
    }

    method PutPrintable(c: Byte)
      requires Valid()
      modifies this, mem
      ensures Valid() && Value() == Typed(old(Value()), c)
    {
      hide Area, Overflow, Written;
      if x >= columns {
        WrapLine();
      }
      WrittenKeeps(Value(), Cell(c, ATTR));
      StoreCell(Cell(c, ATTR));
      pos := pos + 2;
      x := x + 1;
    }

    /** con_write only: a tab. The cursor stays on the screen or not, as TabStaysExactlyWhen says. */
    method PutTab()
      requires Valid()
      modifies this, mem
      ensures Placed() && Value() == Tabbed(old(Value()))
    {
      hide Area, Overflow;
      var c := 8 - x % 8;
      x := x + c;
      pos := pos + 2 * c;
      if x > columns {
        WrapLine();
      }
    }

    /** Everything con_write and con_print do alike. */
    method Put(c: int)
      requires Valid()
      modifies this, mem
      ensures Valid() && Value() == Apply(old(Value()), c, false)
    {
      hide Area, Written, NextLine, Typed, Tabbed;
      NextLineKeeps(Value());
      if c > 31 && c < 127 {
        PutPrintable(c as Byte);
      } else if c == 10 || c == 11 || c == 12 {
        Lf();
      } else if c == 13 {
        Cr();
      } else if c == 127 {
        Del();
      } else if c == 8 {
        BackSpace();
      }
    }

    /** gotoxy(x, y) finds the cursor where it already is. */
    method GotoCursor()
      requires Valid()
      modifies `x, `y, `pos
      ensures x == old(x) && y == old(y) && pos == old(pos)
    {
      RowBytes(y, columns);
      hide Area;
      GotoXY(x, y);
    }

    method ConPrint(buf: seq<int>, nr: nat)
      requires Valid() && nr <= |buf|
      modifies this, mem
      ensures Valid() && Value() == ApplyAll(old(Value()), buf[..nr], false)
    {
      hide Area, Apply, ApplyAll;
      ghost var w := Value();
      var i := 0;
      ApplyNone(w, buf[..0], false);
      while i < nr
        invariant 0 <= i <= nr && Valid()
        invariant Value() == ApplyAll(w, buf[..i], false)
      {
        ApplyNext(w, buf[..i], buf[i], buf[..i + 1], false);
        Put(buf[i]);
        i := i + 1;
      }
      GotoCursor();
    }
  }
}
