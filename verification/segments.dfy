/** Segment descriptors: set_base, get_base, set_limit and get_limit of include/linux/sched.h,
    on the two 32-bit words of a desc_struct. */
module Segments {
  import opened Words

  datatype Descriptor = Descriptor(a: int, b: int)

  predicate IsDescriptor(d: Descriptor) {
    IsWord(d.a) && IsWord(d.b)
  }

  /** Bytes 2, 3, 4 and 7 receive the base. */
  function SetBase(d: Descriptor, base: int): Descriptor {
    Descriptor(d.a % 0x1_0000 + base % 0x1_0000 * 0x1_0000,
               base / 0x1_0000 % 0x100 + d.b / 0x100 % 0x1_0000 * 0x100 + base / 0x100_0000 % 0x100 * 0x100_0000)
  }

  function GetBase(d: Descriptor): int {
    d.a / 0x1_0000 + d.b % 0x100 * 0x1_0000 + d.b / 0x100_0000 * 0x100_0000
  }

  /** Bytes 0 and 1 receive the low half of the limit, the low half of byte 6 its top four bits. */
  function SetLimit(d: Descriptor, limit: int): Descriptor {
    Descriptor(d.a / 0x1_0000 * 0x1_0000 + limit % 0x1_0000,
               d.b % 0x1_0000 + limit / 0x1_0000 % 0x10 * 0x1_0000 + d.b / 0x10_0000 * 0x10_0000)
  }

  /** The limit as it is stored. */
  function RawLimit(d: Descriptor): int {
    d.a % 0x1_0000 + d.b / 0x1_0000 % 0x10 * 0x1_0000
  }

  /** The size in bytes that lsl and incl yield: in pages when the granularity bit is set. */
  function GetLimit(d: Descriptor): int {
    if d.b / 0x80_0000 % 2 == 1 then RawLimit(d) * 0x1000 + 0x1000 else RawLimit(d) + 1
  }

  /** Bytes 5 and 6: present bit, privilege and type, and granularity, operand size and the top of the limit. */
  function Attributes(d: Descriptor): int {
    d.b / 0x100 % 0x1_0000
  }

  /** The descriptor that set_base leaves is the one with that base whose bytes 0, 1, 5 and 6 are as before. */
  lemma SetBaseExactly(d: Descriptor, base: int, e: Descriptor)
    requires IsDescriptor(d) && IsWord(base) && IsDescriptor(e)
    ensures e == SetBase(d, base) <==>
      GetBase(e) == base && e.a % 0x1_0000 == d.a % 0x1_0000 && Attributes(e) == Attributes(d)
  {
    BaseRoundTrip(d, base);
    BaseLeavesRest(d, base);
    if GetBase(e) == base && e.a % 0x1_0000 == d.a % 0x1_0000 && Attributes(e) == Attributes(d) {
      hide GetBase, SetBase;
      SameBytes(e, SetBase(d, base));
    }
  }

  lemma BaseLeavesRest(d: Descriptor, base: int)
    requires IsDescriptor(d) && IsWord(base)
    ensures SetBase(d, base).a % 0x1_0000 == d.a % 0x1_0000 && Attributes(SetBase(d, base)) == Attributes(d)
  {
    Bytes(base / 0x1_0000 % 0x100, d.b / 0x100 % 0x1_0000, base / 0x100_0000 % 0x100);
  }

  /** Base, low half of the limit and attributes make up a descriptor. */
  lemma SameBytes(d: Descriptor, e: Descriptor)
    requires IsDescriptor(d) && IsDescriptor(e) && GetBase(d) == GetBase(e)
    requires d.a % 0x1_0000 == e.a % 0x1_0000 && Attributes(d) == Attributes(e)
    ensures d == e
  {
    BaseBytes(d.a / 0x1_0000, d.b % 0x100, d.b / 0x100_0000);
    BaseBytes(e.a / 0x1_0000, e.b % 0x100, e.b / 0x100_0000);
    ByteByByte(d.b);
    ByteByByte(e.b);
  }

  lemma BaseBytes(low: int, mid: int, top: int)
    requires 0 <= low < 0x1_0000 && 0 <= mid < 0x100 && 0 <= top < 0x100
    ensures var base := low + mid * 0x1_0000 + top * 0x100_0000;
      base % 0x1_0000 == low && base / 0x1_0000 % 0x100 == mid && base / 0x100_0000 == top
  {
  }

  lemma ByteByByte(b: int)
    ensures b == b % 0x100 + b / 0x100 % 0x1_0000 * 0x100 + b / 0x100_0000 * 0x100_0000
  {
  }

  lemma BaseRoundTrip(d: Descriptor, base: int)
    requires IsDescriptor(d) && IsWord(base)
    ensures IsDescriptor(SetBase(d, base)) && GetBase(SetBase(d, base)) == base
  {
    var e := SetBase(d, base);
    var mid, low, top := base / 0x1_0000 % 0x100, d.b / 0x100 % 0x1_0000, base / 0x100_0000;
    assert top % 0x100 == top;
    assert e.b == mid + low * 0x100 + top * 0x100_0000;
    Bytes(mid, low, top);
    assert e.a / 0x1_0000 == base % 0x1_0000;
    assert base == base % 0x1_0000 + mid * 0x1_0000 + top * 0x100_0000;
  }

  lemma Bytes(mid: int, low: int, top: int)
    requires 0 <= mid < 0x100 && 0 <= low < 0x1_0000 && 0 <= top < 0x100
    ensures var b := mid + low * 0x100 + top * 0x100_0000;
      IsWord(b) && b % 0x100 == mid && b / 0x100_0000 == top && b / 0x100 % 0x1_0000 == low
  {
    var b := mid + low * 0x100 + top * 0x100_0000;
    assert b / 0x100 == low + top * 0x1_0000;
  }

  lemma BaseLeavesLimit(d: Descriptor, base: int)
    requires IsDescriptor(d) && IsWord(base)
    ensures GetLimit(SetBase(d, base)) == GetLimit(d)
  {
    hide GetLimit, SetBase, GetBase;
    BaseRoundTrip(d, base);
    BaseLeavesRest(d, base);
    LimitFrom(d, SetBase(d, base));
  }

  lemma LimitFrom(d: Descriptor, e: Descriptor)
    requires IsWord(d.b) && IsWord(e.b) && e.a % 0x1_0000 == d.a % 0x1_0000 && Attributes(e) == Attributes(d)
    ensures GetLimit(e) == GetLimit(d)
  {
    hide IsWord;
    MiddleBits(e.b);
    MiddleBits(d.b);
  }

  /** The limit and granularity bits depend on bytes 5 and 6 only. */
  lemma MiddleBits(b: int)
    requires IsWord(b)
    ensures b / 0x1_0000 % 0x10 == b / 0x100 % 0x1_0000 / 0x100 % 0x10
    ensures b / 0x80_0000 % 2 == b / 0x100 % 0x1_0000 / 0x8000
  {
    var q := b / 0x100;
    DivTwice(b);
    LimitBits(q % 0x1_0000, q / 0x1_0000);
    GranularityBit(q % 0x1_0000, q / 0x1_0000);
  }

  lemma DivTwice(b: int)
    ensures b / 0x1_0000 == b / 0x100 / 0x100 && b / 0x80_0000 == b / 0x100 / 0x8000
  {
  }

  lemma LimitBits(m: int, h: int)
    ensures (m + 0x1_0000 * h) / 0x100 % 0x10 == m / 0x100 % 0x10
  {
    assert (m + 0x1_0000 * h) / 0x100 == m / 0x100 + 0x10 * (0x10 * h);
  }

  lemma GranularityBit(m: int, h: int)
    requires 0 <= m < 0x1_0000
    ensures (m + 0x1_0000 * h) / 0x8000 % 2 == m / 0x8000
  {
    assert (m + 0x1_0000 * h) / 0x8000 == m / 0x8000 + 2 * h;
  }

  lemma LimitLeavesBase(d: Descriptor, limit: int)
    requires IsDescriptor(d) && 0 <= limit < 0x10_0000
    ensures GetBase(SetLimit(d, limit)) == GetBase(d)
  {
    var low, mid, top := d.b % 0x1_0000, limit / 0x1_0000 % 0x10, d.b / 0x10_0000;
    LimitBytes(low, mid, top);
    LowHalf(d.a / 0x1_0000, limit % 0x1_0000);
    LowByte(d.b);
    HighByte(d.b);
  }

  /** set_limit stores the limit, and leaves bytes 2 to 5 and 7 and the flags of byte 6 alone. */
  lemma LimitRoundTrip(d: Descriptor, limit: int)
    requires IsDescriptor(d) && 0 <= limit < 0x10_0000
    ensures var e := SetLimit(d, limit);
      && IsDescriptor(e) && RawLimit(e) == limit
      && GetLimit(e) == (if d.b / 0x80_0000 % 2 == 1 then 0x1000 * (limit + 1) else limit + 1)
      && e.a / 0x1_0000 == d.a / 0x1_0000 && e.b % 0x1_0000 == d.b % 0x1_0000 && e.b / 0x10_0000 == d.b / 0x10_0000
  {
    LowHalf(d.a / 0x1_0000, limit % 0x1_0000);
    Nibble(d.b % 0x1_0000, limit / 0x1_0000, d.b / 0x10_0000);
    TopBit(d.b);
    TopBit(SetLimit(d, limit).b);
  }

  lemma Nibble(low: int, mid: int, top: int)
    requires 0 <= low < 0x1_0000 && 0 <= mid < 0x10 && 0 <= top < 0x1000
    ensures var b := low + mid * 0x1_0000 + top * 0x10_0000;
      IsWord(b) && b % 0x1_0000 == low && b / 0x1_0000 % 0x10 == mid && b / 0x10_0000 == top
  {
    var b := low + mid * 0x1_0000 + top * 0x10_0000;
    assert b / 0x1_0000 == mid + 0x10 * top;
  }

  lemma TopBit(b: int)
    ensures b / 0x80_0000 == b / 0x10_0000 / 8
  {
  }

  lemma LimitBytes(low: int, mid: int, top: int)
    requires 0 <= low < 0x1_0000 && 0 <= mid < 0x10
    ensures var b := low + mid * 0x1_0000 + top * 0x10_0000;
      b % 0x100 == low % 0x100 && b / 0x100_0000 == top / 0x10
  {
    var b := low + mid * 0x1_0000 + top * 0x10_0000;
    assert b == low + 0x100 * (mid * 0x100 + top * 0x1000);
    assert b / 0x10_0000 == top;
  }

  lemma LowHalf(h: int, low: int)
    requires 0 <= low < 0x1_0000
    ensures (h * 0x1_0000 + low) / 0x1_0000 == h
  {
  }

  lemma LowByte(b: int)
    ensures b % 0x1_0000 % 0x100 == b % 0x100
  {
    assert b == 0x100 * (b / 0x1_0000 * 0x100) + b % 0x1_0000;
  }

  lemma HighByte(b: int)
    ensures b / 0x10_0000 / 0x10 == b / 0x100_0000
  {
  }

  /** Task bases do not wrap, are aligned to 4 MB, and select slices of sixteen directory entries. */
  lemma TaskBase(n: int)
    requires 0 <= n < 64
    ensures IsWord(n * TASK_SIZE) && n * TASK_SIZE % 0x40_0000 == 0
    ensures DirOffset(n * TASK_SIZE) == 4 * (16 * n)
    ensures n * TASK_SIZE == 0 <==> n == 0
  {
    FaultAddressWalk(n * TASK_SIZE);
    assert n * TASK_SIZE / 0x40_0000 == 16 * n;
  }

  // The segment of the test tasks

  /** Entry 3 of the descriptor table in kernel/head.S, which every task may load as 0x1b. */
  const VIDEO := Descriptor(0x8000_ffff, 0x00c0_f20b)

  /** The descriptor's privilege level; 3 is that of the tasks. */
  function Privilege(d: Descriptor): int {
    d.b / 0x2000 % 4
  }

  /** It starts at the video memory, but it does not end there: it spans 256 MB, the whole identity map,
      the slices of tasks 1 to 3 and the beginning of that of task 4. */
  lemma VideoSegment()
    ensures IsDescriptor(VIDEO) && GetBase(VIDEO) == 0xb_8000 && GetLimit(VIDEO) == 0x1000_0000 && Privilege(VIDEO) == 3
    ensures GetBase(VIDEO) < HIGH_MEMORY && 4 * TASK_SIZE < GetBase(VIDEO) + GetLimit(VIDEO) < 5 * TASK_SIZE
  {
  }
}
