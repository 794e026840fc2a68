/** Arithmetic on 32-bit words, written as the masks and shifts of mm/memory.c. */
module Words {

  const PAGE_SIZE := 0x1000
  const LOW_MEM := 0x10_0000
  const HIGH_MEMORY := 0x100_0000
  const TASK_SIZE := 0x400_0000

  predicate IsWord(w: int) {
    0 <= w < 0x1_0000_0000
  }

  /** Bit 0: the page (or table) is present. */
  predicate Present(w: int) {
    w % 2 == 1
  }

  /** Bit 1: user writes are allowed. */
  predicate Writable(w: int) {
    w / 2 % 2 == 1
  }

  /** (0xfffff000 & w) >> 12 */
  function FrameOf(w: int): int {
    w / 0x1000
  }

  /** 0xfffff000 & w */
  function PageMask(w: int): int {
    w / 0x1000 * 0x1000
  }

  /** 0xfffff00 & w: one digit short, as coded in free_page_tables and copy_page_tables. */
  function ShortMask(w: int): int {
    w % 0x1000_0000 / 0x100 * 0x100
  }

  /** w & ~2 */
  function ClearWrite(w: int): int {
    if Writable(w) then w - 2 else w
  }

  /** w | 2 */
  function SetWrite(w: int): int {
    if Writable(w) then w else w + 2
  }

  /** w | 7 */
  function UserWord(w: int): int {
    w / 8 * 8 + 7
  }

  /** The entry that setup_paging stores for frame f. */
  function IdentityEntry(f: int): int {
    f * PAGE_SIZE + 7
  }

  /** Byte offset in the page directory of the entry for a linear address: (a >> 20) & 0xffc */
  function DirOffset(a: int): int {
    a / 0x10_0000 % 0x1000 / 4 * 4
  }

  /** Byte offset in a page table of the entry for a linear address: (a >> 10) & 0xffc */
  function TableOffset(a: int): int {
    a / 0x400 % 0x1000 / 4 * 4
  }

  /** The word that names frame f, present and writable for the user. */
  lemma UserWordNames(f: int)
    ensures var w := UserWord(f * PAGE_SIZE);
      w == f * PAGE_SIZE + 7 && FrameOf(w) == f && w % PAGE_SIZE == 7 && Present(w) && Writable(w)
  {
    EightTimes(512 * f);
    FlagsSeven(f);
    hide UserWord;
    Odd(2048 * f + 3);
    Odd(1024 * f + 1);
  }

  lemma EightTimes(h: int)
    ensures UserWord(8 * h) == 8 * h + 7
  {
  }

  lemma FlagsSeven(f: int)
    ensures (f * PAGE_SIZE + 7) / PAGE_SIZE == f && (f * PAGE_SIZE + 7) % PAGE_SIZE == 7
  {
  }

  lemma Odd(h: int)
    ensures (2 * h + 1) % 2 == 1 && (2 * h + 1) / 2 == h
  {
  }

  /** The seven-digit mask finds the right table exactly when the word lies below
      256 MB and has bits 8..11 clear. */
  lemma ShortMaskAgrees(w: int)
    requires IsWord(w)
    ensures ShortMask(w) == PageMask(w) <==> w < 0x1000_0000 && w / 0x100 % 0x10 == 0
  {
    var high, low := w / 0x1000_0000, w % 0x1000_0000;
    assert w == high * 0x1000_0000 + low;
    assert w / 0x1000 == high * 0x1_0000 + low / 0x1000;
    assert w / 0x100 == high * 0x10_0000 + low / 0x100;
    assert low / 0x100 == low / 0x1000 * 0x10 + low / 0x100 % 0x10;
  }

  /** The two offsets that do_wp_page computes select the entry that the hardware
      walk uses: bits 31..22 index the directory, bits 21..12 the table. */
  lemma FaultAddressWalk(a: int)
    requires IsWord(a)
    ensures DirOffset(a) == 4 * (a / 0x40_0000)
    ensures TableOffset(a) == 4 * (a / 0x1000 % 0x400)
  {
    var q := a / 0x1000;
    assert q == 0x400 * (q / 0x400) + q % 0x400 && a == 0x1000 * q + a % 0x1000;
    assert q / 0x400 == a / 0x40_0000;
    DirPart(q / 0x400, q % 0x400, a % 0x1000);
    TablePart(q / 0x400, q % 0x400, a % 0x1000);
  }

  lemma DirPart(d: int, p: int, o: int)
    requires 0 <= d < 0x400 && 0 <= p < 0x400 && 0 <= o < 0x1000
    ensures DirOffset(d * 0x40_0000 + p * 0x1000 + o) == 4 * d
  {
    var x, rest := p / 0x100, p % 0x100 * 0x1000 + o;
    assert d * 0x40_0000 + p * 0x1000 + o == (4 * d + x) * 0x10_0000 + rest;
  }

  lemma TablePart(d: int, p: int, o: int)
    requires 0 <= d < 0x400 && 0 <= p < 0x400 && 0 <= o < 0x1000
    ensures TableOffset(d * 0x40_0000 + p * 0x1000 + o) == 4 * p
  {
    var y, rest := o / 0x400, o % 0x400;
    assert d * 0x40_0000 + p * 0x1000 + o == (0x1000 * d + (4 * p + y)) * 0x400 + rest;
    Digits(d, 4 * p + y);
  }

  lemma Digits(d: int, r: int)
    requires 0 <= r < 0x1000
    ensures (0x1000 * d + r) % 0x1000 == r
  {
  }
}
