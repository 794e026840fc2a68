/** kernel/chr_drv/tty_io.c: the ring buffers of the terminal, and the cooking of its input. */
module TtyCode {

  import opened Terminal
  import opened VideoMemory
  import opened ConsoleCode

  const TTY_BUF_SIZE := 1024

  /** char is signed. */
  newtype Char = c: int | -128 <= c < 128

  /** The characters from offset tail up to offset head of a ring. */
  function RingContents(buf: seq<Char>, head: nat, tail: nat): (r: seq<int>)
    requires |buf| == TTY_BUF_SIZE && head < TTY_BUF_SIZE && tail < TTY_BUF_SIZE
    ensures |r| == (head - tail) % TTY_BUF_SIZE
  {
    seq((head - tail) % TTY_BUF_SIZE, i requires 0 <= i < TTY_BUF_SIZE => buf[(tail + i) % TTY_BUF_SIZE] as int)
  }

  /** A ring is empty when head equals tail, so it holds at most 1023 characters: one more and all are lost. */
  lemma RingPut(buf: seq<Char>, head: nat, tail: nat, c: Char)
    requires |buf| == TTY_BUF_SIZE && head < TTY_BUF_SIZE && tail < TTY_BUF_SIZE
    ensures var r := RingContents(buf, head, tail);
      RingContents(buf[head := c], (head + 1) % TTY_BUF_SIZE, tail) == if |r| < TTY_BUF_SIZE - 1 then r + [c as int] else []
  {
    var r, t := RingContents(buf, head, tail), RingContents(buf[head := c], (head + 1) % TTY_BUF_SIZE, tail);
    RingPlaces(head, tail, |r|);
    if |r| < TTY_BUF_SIZE - 1 {
      forall i | 0 <= i < |r| ensures t[i] == r[i] {
        RingPlaces(head, tail, i);
      }
    }
  }

  /** The places of a ring that holds (head - tail) mod 1024 characters. */
  lemma RingPlaces(head: nat, tail: nat, i: nat)
    requires head < TTY_BUF_SIZE && tail < TTY_BUF_SIZE
    ensures var n := (head - tail) % TTY_BUF_SIZE;
      && ((head + 1) % TTY_BUF_SIZE - tail) % TTY_BUF_SIZE == (if n < TTY_BUF_SIZE - 1 then n + 1 else 0)
      && (i == n ==> (tail + i) % TTY_BUF_SIZE == head) && (i < n ==> (tail + i) % TTY_BUF_SIZE != head)
  {
    Around(head - tail);
    Around(head + 1);
    Around((head + 1) % TTY_BUF_SIZE - tail);
    if i <= (head - tail) % TTY_BUF_SIZE { Around(tail + i); }
  }

  lemma Around(k: int)
    requires -TTY_BUF_SIZE <= k < 2 * TTY_BUF_SIZE
    ensures k % TTY_BUF_SIZE == if k < 0 then k + TTY_BUF_SIZE else if k < TTY_BUF_SIZE then k else k - TTY_BUF_SIZE
  {
  }

  lemma RingGet(buf: seq<Char>, head: nat, tail: nat)
    requires |buf| == TTY_BUF_SIZE && head < TTY_BUF_SIZE && tail < TTY_BUF_SIZE && head != tail
    ensures var r := RingContents(buf, head, tail);
      r != [] && r[0] == buf[tail] as int && RingContents(buf, head, (tail + 1) % TTY_BUF_SIZE) == r[1..]
  {
    var r := RingContents(buf, head, tail);
    assert (head - (tail + 1) % TTY_BUF_SIZE) % TTY_BUF_SIZE == |r| - 1;
    var t := RingContents(buf, head, (tail + 1) % TTY_BUF_SIZE);
    forall i | 0 <= i < |t| ensures t[i] == r[i + 1] {
      assert ((tail + 1) % TTY_BUF_SIZE + i) % TTY_BUF_SIZE == (tail + (i + 1)) % TTY_BUF_SIZE;
    }
  }

  class TtyQueue {
    const buf: array<Char>
    var head: nat
    var tail: nat

    ghost predicate Valid()
      reads this
    {
      buf.Length == TTY_BUF_SIZE && head < TTY_BUF_SIZE && tail < TTY_BUF_SIZE
    }

    ghost function Contents(): seq<int>
      requires Valid()
      reads this, buf
    {
      RingContents(buf[..], head, tail)
    }

    constructor ()
      ensures Valid() && Contents() == [] && fresh(buf)
    {
      buf := new Char[TTY_BUF_SIZE](_ => 0);
      head, tail := 0, 0;
    }

    /** CHARS: (head - tail) & (TTY_BUF_SIZE - 1) */
    method Chars() returns (n: nat)
      requires Valid()
      ensures n == |Contents()|
    {
      n := (head - tail) % TTY_BUF_SIZE;
    }

    /** EMPTY */
    method Empty() returns (b: bool)
      requires Valid()
      ensures b <==> Contents() == []
    {
      b := head == tail;
    }

    /** PUTCH: appends c; but the 1024th character wraps onto the tail and empties the queue. */
    method Put(c: Char)
      requires Valid()
      modifies `head, buf
      ensures Valid()
      ensures Contents() == if |old(Contents())| < TTY_BUF_SIZE - 1 then old(Contents()) + [c as int] else []
    {
      hide RingContents;
      RingPut(buf[..], head, tail, c);
      ghost var v := buf[..][head := c];
      buf[head] := c;
      assert buf[..] == v;
      head := (head + 1) % TTY_BUF_SIZE;
    }

    /** GETCH */
    method Get() returns (c: Char)
      requires Valid() && Contents() != []
      modifies `tail
      ensures Valid() && Contents() == old(Contents())[1..] && c as int == old(Contents())[0]
    {
      RingGet(buf[..], head, tail);
      c := buf[tail];
      tail := (tail + 1) % TTY_BUF_SIZE;
    }
  }

  /** What is echoed for one character that was typed: the comparisons are signed, so a character
      from 128 up counts as a control character. */
  function Cook(c: int): (r: seq<int>)
    ensures 1 <= |r| <= 2
  {
    if c == 10 then [10, 13]
    else if c == 8 || c == 9 || c == 13 then [c]
    else if c >= 32 then [c]
    else ['^' as int, c + 64]
  }

  /** Enter: the cursor is at the start of the next line. */
  lemma EchoNewline(s: Screen)
    requires WellFormed(s) && s.columns >= 4
    ensures var t := FeedAll(s, Cook(10), true); t.x == 0 && OneLineDown(s.(x := 0), t)
  {
    hide Feed, OneLineDown, Area;
    TwoFed(s, 10, 13);
    FeedKeeps(s, 10, true);
    ControlsShown(Feed(s, 10, true), true);
    LineFeedShown(s.(x := 0), 10, true);
    FeedAnywhere(s);
  }

  lemma TwoFed(s: Screen, c: int, d: int)
    requires WellFormed(s) && s.columns >= 4
    ensures Like(Feed(s, c, true), s) && FeedAll(s, [c, d], true) == Feed(Feed(s, c, true), d, true)
  {
    hide Feed, FeedAll, Area;
    var cs: seq<int> := [c, d];
    FirstFed(s, cs);
    FirstFed(Feed(s, c, true), cs[1..]);
    NothingFed(Feed(Feed(s, c, true), d, true), cs[1..][1..]);
  }

  lemma FirstFed(s: Screen, cs: seq<int>)
    requires WellFormed(s) && s.columns >= 4 && cs != []
    ensures Like(Feed(s, cs[0], true), s) && FeedAll(s, cs, true) == FeedAll(Feed(s, cs[0], true), cs[1..], true)
  {
    hide Feed, Area;
    FeedKeeps(s, cs[0], true);
  }

  lemma NothingFed(s: Screen, none: seq<int>)
    requires WellFormed(s) && s.columns >= 4 && none == []
    ensures FeedAll(s, none, true) == s
  {
  }

  lemma FeedAnywhere(s: Screen)
    requires WellFormed(s)
    ensures Feed(s.(x := 0), 10, true) == Feed(s, 10, true).(x := 0)
  {
    hide LineFeed, Print, Tab, Delete, Area;
    LineFeedAnywhere(s, 0);
  }

  /** Printable characters, delete, backspace, tab and carriage return are echoed as themselves; all others but newline
      as a caret and the character 64 above: for control characters one of '@' to '_', other than those above. */
  lemma EchoExactly(c: Char)
    ensures Cook(c as int) == [c as int] <==> 32 <= c <= 127 || c == 8 || c == 9 || c == 13
    ensures |Cook(c as int)| == 2 && c != 10 <==> c < 8 || 10 < c < 13 || 13 < c < 32
    ensures |Cook(c as int)| == 2 && c != 10 ==> Cook(c as int) == ['^' as int, c as int + 64]
    ensures |Cook(c as int)| == 2 && 0 <= c ==> c == 10 || '@' as int <= Cook(c as int)[1] <= '_' as int
  {
  }

  /** Such a control character shows as two cells from the cursor on, and nothing else changes. */
  lemma ControlShown(s: Screen, k: Char, r: nat, c: nat)
    requires WellFormed(s) && s.columns >= 4 && s.x + 2 <= s.columns && r < s.lines && c < s.columns
    requires 0 <= k < 8 || 10 < k < 13 || 13 < k < 32
    ensures var t := FeedAll(s, Cook(k as int), true);
      && t.x == s.x + 2 && t.y == s.y
      && Cells(t, r, c) == if r != s.y || c < s.x || c > s.x + 1 then Cells(s, r, c)
                           else if c == s.x then Cell('^' as int as Byte, ATTR) else Cell((k as int + 64) as Byte, ATTR)
  {
    hide FeedAll, Cells, Area;
    EchoExactly(k);
    TextShown(s, Cook(k as int), true, r, c);
  }

  function CookAll(cs: seq<int>): seq<int> {
    if cs == [] then [] else Cook(cs[0]) + CookAll(cs[1..])
  }

  /** con_write and con_print differ in tabs only. */
  lemma TabsOnly(w: Window, c: int)
    requires VideoMemory.Fits(w)
    ensures Apply(w, c, true) == if c == 9 then Tabbed(w) else Apply(w, c, false)
  {
  }

  class Tty {
    const readQ: TtyQueue
    const writeQ: TtyQueue
    const console: Console

    constructor (readQ: TtyQueue, writeQ: TtyQueue, console: Console)
      ensures this.readQ == readQ && this.writeQ == writeQ && this.console == console
    {
      this.readQ, this.writeQ, this.console := readQ, writeQ, console;
    }

    /** Two queues apart and a console wide enough for tabs. Between interrupts nothing waits to
        be written. */
    ghost predicate Valid()
      reads this, readQ, writeQ, console
    {
      && readQ.Valid() && writeQ.Valid() && console.Valid() && console.columns >= 4
      && readQ != writeQ && readQ.buf != writeQ.buf
    }

    ghost predicate Idle()
      requires Valid()
      reads this, readQ, writeQ, console, writeQ.buf
    {
      writeQ.Contents() == []
    }

    /** The body of con_write's loop. */
    method WriteNext()
      requires Valid() && writeQ.Contents() != []
      modifies writeQ`tail, console, console.mem
      ensures Valid() && writeQ.Contents() == old(writeQ.Contents())[1..]
      ensures console.Value() == Apply(old(console.Value()), old(writeQ.Contents())[0], true)
    {
      hide Apply, RingContents, Area, Tabbed;
      var c := writeQ.Get();
      TabsOnly(console.Value(), c as int);
      ApplyKeeps(console.Value(), c as int, true);
      if c == 9 {
        console.PutTab();
      } else {
        console.Put(c as int);
      }
    }

    method ConWrite()
      requires Valid()
      modifies writeQ`tail, console, console.mem
      ensures Valid() && writeQ.Contents() == []
      ensures console.Value() == ApplyAll(old(console.Value()), old(writeQ.Contents()), true)
    {
      hide Apply, ApplyAll, RingContents, Area;
      ghost var w, all, n := console.Value(), writeQ.Contents(), 0;
      ApplyNone(w, all[..n], true);
      var nr := writeQ.Chars();
      while nr > 0
        invariant Valid() && nr == |all| - n && writeQ.Contents() == all[n..]
        invariant console.Value() == ApplyAll(w, all[..n], true)
      {
        nr := nr - 1;
        ApplyNext(w, all[..n], all[n], all[..n + 1], true);
        WriteNext();
        n := n + 1;
      }
      assert all[..n] == all;
    }

    /** The body of copy_to_cooked's loop, up to con_write. */
    method CookOne()
      requires Valid() && Idle() && readQ.Contents() != []
      modifies readQ`tail, writeQ`head, writeQ.buf
      ensures Valid() && readQ.Contents() == old(readQ.Contents())[1..]
      ensures writeQ.Contents() == Cook(old(readQ.Contents())[0])
    {
      hide RingContents, Area;
      var c := readQ.Get();
      if c == 10 {
        writeQ.Put(10);
        writeQ.Put(13);
      } else if c == 8 || c == 9 || c == 13 {
        writeQ.Put(c);
      } else if c >= 32 && c < 127 {
        writeQ.Put(c);
      } else if c < 32 {
        writeQ.Put('^' as Char);
        writeQ.Put(c + 64);
      } else {
        writeQ.Put(c);
      }
    }

    /** copy_to_cooked: everything typed so far is written to the console, cooked, in order. */
    method CopyToCooked()
      requires Valid() && Idle()
      modifies readQ`tail, writeQ`head, writeQ`tail, writeQ.buf, console, console.mem
      ensures Valid() && Idle() && readQ.Contents() == []
      ensures console.Value() == ApplyAll(old(console.Value()), CookAll(old(readQ.Contents())), true)
    {
      hide Apply, ApplyAll, RingContents, Area, CookAll, Cook;
      ghost var w, all, n := console.Value(), readQ.Contents(), 0;
      CookNone(w, all[..n]);
      var empty := readQ.Empty();
      while !empty
        invariant Valid() && Idle() && 0 <= n <= |all| && readQ.Contents() == all[n..]
        invariant empty <==> readQ.Contents() == []
        invariant console.Value() == ApplyAll(w, CookAll(all[..n]), true)
        decreases |all| - n
      {
        CookNext(w, all[..n], all[n], all[..n + 1]);
        CookOne();
        ConWrite();
        empty := readQ.Empty();
        n := n + 1;
      }
      assert all[..n] == all;
    }
  }

  lemma {:induction false} CookAllAppend(a: seq<int>, b: seq<int>)
    ensures CookAll(a + b) == CookAll(a) + CookAll(b)
  {
    if a == [] {
      assert a + b == b;
    } else {
      assert (a + b)[0] == a[0] && (a + b)[1..] == a[1..] + b;
      CookAllAppend(a[1..], b);
    }
  }

  lemma CookNone(w: Window, none: seq<int>)
    requires VideoMemory.Fits(w) && w.columns >= 4 && none == []
    ensures ApplyAll(w, CookAll(none), true) == w
  {
  }

  lemma CookNext(w: Window, done: seq<int>, c: int, all: seq<int>)
    requires VideoMemory.Fits(w) && w.columns >= 4 && all == done + [c]
    ensures ApplyAll(w, CookAll(all), true) == ApplyAll(ApplyAll(w, CookAll(done), true), Cook(c), true)
  {
    hide Apply, Area, Cook;
    CookAllAppend(done, [c]);
    assert CookAll([c]) == Cook(c) by { assert [c][1..] == []; }
    ApplyAllAppend(w, CookAll(done), Cook(c), true);
  }
}
