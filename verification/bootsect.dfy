/** bootsect.S: read_it loads the system, track by track, from the sectors behind the boot sector and
    the setup code to the addresses from 0x10000 to 0x40000. */
module BootSector {

  const SETUPLEN := 4
  const SYSSEG := 0x1000
  const ENDSEG := 0x4000

  /** The contents of 512 bytes. */
  type Sector = seq<int>

  /** 16-bit arithmetic: the result, and whether there was a carry. */
  function Add16(a: int, b: int): (int, bool) {
    ((a + b) % 0x10000, a + b >= 0x10000)
  }

  function Sub16(a: int, b: int): int {
    (a - b) % 0x10000
  }

  /** shlw $9 */
  function Shl9(a: int): int {
    a * 512 % 0x10000
  }

  lemma AddCarry(a: int, b: int)
    requires 0 <= a < 0x10000 && 0 <= b < 0x10000
    ensures Add16(a, b).1 <==> a + b >= 0x10000
    ensures Add16(a, b).0 == if a + b >= 0x10000 then a + b - 0x10000 else a + b
  {
  }

  lemma ShlSmall(n: nat)
    requires n <= 63
    ensures Shl9(n) == 512 * n
  {
  }

  lemma RestOfTrack(sectors: nat, sread: nat)
    requires sread < sectors <= 63
    ensures Sub16(sectors, sread) == sectors - sread && Shl9(sectors - sread) == 512 * (sectors - sread)
  {
  }

  lemma RestOfSegment(bx: nat)
    requires 0 < bx < 0x10000 && bx % 512 == 0
    ensures 512 * (Sub16(0, bx) / 512) == 0x10000 - bx
  {
    assert Sub16(0, bx) == 0x10000 - bx;
  }

  /** Sectors in the order of tracks, both heads of each, and places in them. */
  function Linear(sectors: nat, track: nat, head: nat, place: nat): nat {
    (2 * track + head) * sectors + place
  }

  lemma NextHead(sectors: nat, track: nat, head: nat)
    requires head <= 1
    ensures Linear(sectors, track, head, sectors)
         == if head == 0 then Linear(sectors, track, 1, 0) else Linear(sectors, track + 1, 0, 0)
  {
    assert (2 * track + head + 1) * sectors == (2 * track + head) * sectors + sectors;
  }

  lemma LaterTrack(a: nat, b: nat, sectors: nat)
    requires a < b
    ensures a * sectors + sectors <= b * sectors
  {
    var more := b - a - 1;
    assert more * sectors >= 0;
    assert b * sectors == a * sectors + sectors + more * sectors;
  }

  /** Nothing is read twice: different places on the disk have different numbers. */
  lemma LinearInjective(sectors: nat, t: nat, h: nat, p: nat, t': nat, h': nat, p': nat)
    requires h <= 1 && h' <= 1 && p < sectors && p' < sectors
    requires Linear(sectors, t, h, p) == Linear(sectors, t', h', p')
    ensures t == t' && h == h' && p == p'
  {
    var a, b := 2 * t + h, 2 * t' + h';
    if a < b {
      LaterTrack(a, b, sectors);
    } else if b < a {
      LaterTrack(b, a, sectors);
    }
  }

  lemma TrackBound(sectors: nat, track: nat, head: nat, place: nat)
    requires 6 <= sectors && Linear(sectors, track, head, place) <= 5 + 384
    ensures track < 256
  {
    assert (2 * track + head) * sectors >= (2 * track + head) * 6;
  }

  lemma LoadedMore(v: seq<Sector>, disk: seq<Sector>, to: nat, next: nat, n: nat)
    requires 0x80 <= to && to + n <= |v| && 5 <= next && next + n <= |disk| && v[0x80..to] == disk[5..next]
    ensures var w := v[..to] + disk[next..next + n] + v[to + n..];
      w[0x80..to + n] == disk[5..next + n] && w[..0x80] == v[..0x80]
  {
    var w := v[..to] + disk[next..next + n] + v[to + n..];
    assert w[0x80..to + n] == v[0x80..to] + disk[next..next + n];
  }

  class Loader {
    const sectors: nat
    const disk: seq<Sector>

    /** Memory below 0x40000, in pieces of 512 bytes. */
    const mem: array<Sector>

    var es: nat
    var bx: nat
    var sread: nat
    var head: nat
    var track: nat

    constructor (sectors: nat, disk: seq<Sector>, mem: array<Sector>)
      ensures this.sectors == sectors && this.disk == disk && this.mem == mem
      ensures es == SYSSEG && sread == 1 + SETUPLEN && head == 0 && track == 0
    {
      this.sectors, this.disk, this.mem := sectors, disk, mem;
      es, bx, sread, head, track := SYSSEG, 0, 1 + SETUPLEN, 0, 0;
    }

    /** The registers are 16 bits wide; a sector number fits into 6 bits. */
    ghost predicate Machine()
      reads this
    {
      6 <= sectors <= 63 && mem.Length == 0x200 && es <= ENDSEG && bx < 0x10000 && bx % 512 == 0
    }

    /** The next sector to read. */
    ghost function Next(): nat
      reads `track, `head, `sread
    {
      Linear(sectors, track, head, sread)
    }

    /** Where it goes, in sectors. */
    ghost function Target(): nat
      reads `es, `bx
    {
      (es * 16 + bx) / 512
    }

    /** int 0x13: n sectors from the disk, or an error. After an error anything may stand where they were to go. */
    method Bios(from: nat, to: nat, n: nat, error: bool)
      requires from + n <= |disk| && to + n <= mem.Length
      modifies mem
      ensures forall k :: 0 <= k < mem.Length && !(to <= k < to + n) ==> mem[k] == old(mem[k])
      ensures !error ==> forall k :: to <= k < to + n ==> mem[k] == disk[k - to + from]
    {
      var i := 0;
      while i < n
        invariant 0 <= i <= n
        invariant forall k :: 0 <= k < mem.Length && !(to <= k < to + n) ==> mem[k] == old(mem[k])
        invariant !error ==> forall k :: to <= k < to + i ==> mem[k] == disk[k - to + from]
      {
        var found: Sector := *;
        mem[to + i] := if error then found else disk[from + i];
        i := i + 1;
      }
    }

    /** read_track, which resets the drive and tries again until a read succeeds: after some number of errors.
        The BIOS demands that a read stays on one track and within 64 KB of memory. */
    method ReadTrack(n: nat)
      requires Machine() && es % 0x1000 == 0 && es < ENDSEG
      requires 1 <= n && sread + n <= sectors && head <= 1 && track < 256
      requires bx + 512 * n <= 0x10000 && Next() + n <= |disk|
      modifies mem
      ensures Target() + n <= mem.Length
      ensures var v := old(mem[..]); mem[..] == v[..Target()] + disk[Next()..Next() + n] + v[Target() + n..]
    {
      var from, to := (2 * track + head) * sectors + sread, (es * 16 + bx) / 512;
      assert from == Next() && to == Target() && to + n <= mem.Length;
      hide Linear, Target;
      var errors: nat := *;
      while errors > 0
        invariant forall k :: 0 <= k < mem.Length && !(to <= k < to + n) ==> mem[k] == old(mem[k])
      {
        Bios(from, to, n, true);
        errors := errors - 1;
      }
      Bios(from, to, n, false);
    }

    /** How many sectors to read: the rest of the track, unless that would cross 64 KB. */
    method CountToRead() returns (ax: int)
      requires Machine() && sread < sectors
      ensures 1 <= ax && sread + ax <= sectors && bx + 512 * ax <= 0x10000
      ensures sread + ax == sectors || bx + 512 * ax == 0x10000
    {
      hide *;
      Registers();
      RestOfTrack(sectors, sread);
      ax := Sub16(sectors, sread);
      var cx := Shl9(ax);
      AddCarry(cx, bx);
      var (sum, carry) := Add16(cx, bx);
      if carry && sum != 0 {
        RestOfSegment(bx);
        ax := Sub16(0, bx) / 512;
      }
    }

    lemma Registers()
      requires Machine()
      ensures 6 <= sectors <= 63 && bx < 0x10000 && bx % 512 == 0
    {
    }

    /** The place on the disk behind the n sectors just read. */
    method AdvanceDisk(n: nat)
      requires 1 <= n && sread + n <= sectors && head <= 1
      modifies `sread, `head, `track
      ensures Next() == old(Next()) + n && head <= 1 && sread < sectors
    {
      NextHead(sectors, track, head);
      var ax := n + sread;
      if ax == sectors {
        ax := 1 - head;
        if ax == 0 {
          track := track + 1;
        }
        head := ax;
        ax := 0;
      }
      sread := ax;
    }

    /** The place in memory behind them: a segment that is full makes way for the next one. */
    method AdvanceMemory(n: nat)
      requires Machine() && es % 0x1000 == 0 && es < ENDSEG && 1 <= n <= 63 && bx + 512 * n <= 0x10000
      modifies `bx, `es
      ensures Machine() && es % 0x1000 == 0 && Target() == old(Target()) + n
      ensures es >= old(es) && (es == ENDSEG ==> bx == 0)
    {
      hide Linear, Add16, Shl9;
      ShlSmall(n);
      AddCarry(bx, 512 * n);
      ghost var at := bx / 512;
      assert bx == 512 * at && Target() == es / 32 + at;
      var (sum, carry) := Add16(bx, Shl9(n));
      bx := sum;
      if carry {
        es := es + 0x1000;
        bx := 0;
      }
    }

    lemma Inside()
      requires Machine() && es % 0x1000 == 0 && (es == ENDSEG ==> bx == 0)
      ensures 0x200 - Target() >= 0 && (es < ENDSEG <==> Target() < 0x200)
      ensures forall n :: 1 <= n && es < ENDSEG && bx + 512 * n <= 0x10000 ==> Target() + n <= 0x200
    {
    }

    /** What has been read so far is in its place. */
    ghost predicate Loading()
      reads this, mem
    {
      && Machine() && es % 0x1000 == 0 && SYSSEG <= es && (es == ENDSEG ==> bx == 0)
      && head <= 1 && sread < sectors && 5 + 384 <= |disk|
      && Next() - 5 == Target() - 0x80 && 0x80 <= Target() <= 0x200
      && mem[0x80..Target()] == disk[5..Next()]
    }

    /** read_track, and what is in place after it. */
    method ReadMore(n: nat)
      requires Loading() && es < ENDSEG && track < 256
      requires 1 <= n && sread + n <= sectors && bx + 512 * n <= 0x10000 && Next() + n <= |disk| && Target() + n <= 0x200
      modifies mem
      ensures Machine() && mem[0x80..Target() + n] == disk[5..Next() + n] && mem[..0x80] == old(mem[..0x80])
    {
      hide Linear, Target;
      LoadedMore(mem[..], disk, Target(), Next(), n);
      ReadTrack(n);
    }

    /** The body of read_it's loop. */
    method ReadNext()
      requires Loading() && es < ENDSEG
      modifies `es, `bx, `sread, `head, `track, mem
      ensures Loading() && Target() > old(Target()) && mem[..0x80] == old(mem[..0x80])
    {
      hide Linear, Target;
      Inside();
      TrackBound(sectors, track, head, sread);
      var ax := CountToRead();
      ReadMore(ax);
      AdvanceDisk(ax);
      AdvanceMemory(ax);
      Inside();
    }

    lemma Start()
      requires Machine() && es == SYSSEG && sread == 1 + SETUPLEN && head == 0 && track == 0 && bx == 0
      ensures Next() == 5 && Target() == 0x80
    {
    }

    /** read_it loads 384 sectors, the ones behind the setup code, to 0x10000 up to 0x40000. */
    method ReadIt()
      requires Machine() && es == SYSSEG && sread == 1 + SETUPLEN && head == 0 && track == 0
      requires 5 + 384 <= |disk|
      modifies `es, `bx, `sread, `head, `track, mem
      ensures mem[0x80..0x200] == disk[5..5 + 384] && mem[..0x80] == old(mem[..0x80])
      ensures es == ENDSEG
    {
      hide Linear, Target;
      bx := 0;
      Start();
      while es < ENDSEG
        invariant Loading() && mem[..0x80] == old(mem[..0x80])
        decreases 0x200 - Target()
      {
        ReadNext();
        Inside();
      }
      Inside();
    }
  }
}
