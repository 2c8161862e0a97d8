/** The disk label tool: building and updating the first sector of a disk image. */
module DiskLabel {
  import opened Machine

  const SECTOR_SIZE := 512
  const DISKMAGIC: u32 := 0x8256_4557
  const SECTORS_PER_CYLINDER := 2048

  type Sector = s: seq<u8> | |s| == 512 witness seq(512, _ => 0)

  // ----- Big-endian fields -----

  function Be16(v: u16): (b: seq<u8>)
    ensures |b| == 2
  {
    [v / 0x100, v % 0x100]
  }

  function Be32(v: u32): (b: seq<u8>)
    ensures |b| == 4
  {
    [v / 0x100_0000, v / 0x1_0000 % 0x100, v / 0x100 % 0x100, v % 0x100]
  }

  function Put(s: Sector, off: nat, bytes: seq<u8>): (r: Sector)
    requires off + |bytes| <= SECTOR_SIZE
    ensures forall k :: 0 <= k < SECTOR_SIZE ==> r[k] == if off <= k < off + |bytes| then bytes[k - off] else s[k]
  {
    s[..off] + bytes + s[off + |bytes|..]
  }

  function Get16(s: Sector, off: nat): u16
    requires off + 2 <= SECTOR_SIZE
  {
    var hi: int, lo: int := s[off], s[off + 1];
    hi * 0x100 + lo
  }

  function Get32(s: Sector, off: nat): u32
    requires off + 4 <= SECTOR_SIZE
  {
    var b0: int, b1: int, b2: int, b3: int := s[off], s[off + 1], s[off + 2], s[off + 3];
    b0 * 0x100_0000 + b1 * 0x1_0000 + b2 * 0x100 + b3
  }

  /** At most maxlen characters, without a terminating zero. */
  function Chars(text: string, maxlen: nat): (b: seq<u8>)
    ensures |b| == if |text| > maxlen then maxlen else |text|
  {
    seq(if |text| > maxlen then maxlen else |text|, i requires 0 <= i < |text| => text[i] as int % 0x100)
  }

  // ----- The label -----

  function Wiped(): Sector { seq(SECTOR_SIZE, _ => 0) }

  function VidArea(s: Sector, total: u32): Sector {
    var s1 := Put(s, 0x00, Chars("NBSD", 4));
    var s2 := Put(s1, 0x14, Be32(2));
    var s3 := Put(s2, 0x18, Be16(30));
    var s4 := Put(s3, 0x1E, Be16(0x3F));
    var s5 := Put(s4, 0x24, Be16(8));
    var s6 := Put(s5, 0x26, Chars("EMULATED", 16));
    var s7 := Put(s6, 0x36, Be32(8192));
    var s8 := Put(s7, 0x3A, Be32(DISKMAGIC));
    var s9 := Put(s8, 0x3E, Be16(4));
    var s10 := Put(s9, 0x42, Chars("NetBSD", 16));
    var s11 := Put(s10, 0x80, Be32(SECTORS_PER_CYLINDER));
    var s12 := Put(s11, 0x84, Be32(total));
    var s13 := Put(s12, 0x90, Be32(1));
    Put(s13, 0x94, [1])
  }

  function Partitions(s: Sector, total: u32, swap: u32): Sector {
    var a1 := Put(s, 0x98, Be32(Wrap(total - swap)));
    var a2 := Put(a1, 0x9C, Be32(0));
    var a3 := Put(a2, 0xA0, Be32(1024));
    var a4 := Put(a3, 0xA4, [7]);
    var a5 := Put(a4, 0xA5, [8]);
    var a6 := Put(a5, 0xA6, Be16(16));
    var b1 := Put(a6, 0xA8, Be32(swap));
    var b2 := Put(b1, 0xAC, Be32(Wrap(total - swap)));
    var b3 := Put(b2, 0xB4, [1]);
    var c1 := Put(b3, 0xB8, Be32(total));
    Put(c1, 0xBC, Be32(0))
  }

  function CfgArea(s: Sector, total: u32): Sector {
    var s1 := Put(s, 0xF4, Be32(8192));
    var s2 := Put(s1, 0xF8, Chars("MOTOROLA", 8));
    var s3 := Put(s2, 0x10A, Be16(256));
    var s4 := Put(s3, 0x114, Be16(3600));
    var s5 := Put(s4, 0x118, [32]);
    var s6 := Put(s5, 0x119, [64]);
    var s7 := Put(s6, 0x11A, Be16(Cylinders(total)));
    var s8 := Put(s7, 0x11C, [1]);
    var s9 := Put(s8, 0x11E, Be16(512));
    Put(s9, 0x13C, Be32(DISKMAGIC))
  }

  /** The cylinder count is cut down to sixteen bits. */
  function Cylinders(total: u32): u16 {
    total / SECTORS_PER_CYLINDER % 0x1_0000
  }

  function Create(total: u32, swap: u32): Sector {
    CfgArea(Partitions(VidArea(Wiped(), total), total, swap), total)
  }

  /** Geometry and sizes for a disk of total sectors whose partition a starts at aOffset. */
  function Stamp(s: Sector, total: u32, swap: u32, aOffset: u32): Sector {
    var aSize := Wrap(total - swap - aOffset);
    var s1 := Put(s, 0x80, Be32(SECTORS_PER_CYLINDER));
    var s2 := Put(s1, 0x84, Be32(total));
    var s3 := Put(s2, 0x98, Be32(aSize));
    var s4 := Put(s3, 0xA8, Be32(swap));
    var s5 := Put(s4, 0xAC, Be32(Wrap(aOffset + aSize)));
    var s6 := Put(s5, 0xB8, Be32(total));
    Put(s6, 0x11A, Be16(Cylinders(total)))
  }

  function Update(s: Sector, total: u32, swap: u32): Sector {
    Stamp(s, total, swap, Get32(s, 0x9C))
  }

  // ----- The tool, in place -----

  method PutBe16(buf: array<u8>, off: nat, v: u16)
    requires buf.Length == SECTOR_SIZE && off + 2 <= SECTOR_SIZE
    modifies buf
    ensures buf[..] == Put(old(buf[..]), off, Be16(v))
  {
    buf[off] := v / 0x100;
    buf[off + 1] := v % 0x100;
  }

  method PutBe32(buf: array<u8>, off: nat, v: u32)
    requires buf.Length == SECTOR_SIZE && off + 4 <= SECTOR_SIZE
    modifies buf
    ensures buf[..] == Put(old(buf[..]), off, Be32(v))
  {
    buf[off] := v / 0x100_0000;
    buf[off + 1] := v / 0x1_0000 % 0x100;
    buf[off + 2] := v / 0x100 % 0x100;
    buf[off + 3] := v % 0x100;
  }

  method PutByte(buf: array<u8>, off: nat, v: u8)
    requires buf.Length == SECTOR_SIZE && off < SECTOR_SIZE
    modifies buf
    ensures buf[..] == Put(old(buf[..]), off, [v])
  {
    buf[off] := v;
  }

  method GetBe32(buf: array<u8>, off: nat) returns (v: u32)
    requires buf.Length == SECTOR_SIZE && off + 4 <= SECTOR_SIZE
    ensures v == Get32(buf[..], off)
  {
    var b0: int, b1: int, b2: int, b3: int := buf[off], buf[off + 1], buf[off + 2], buf[off + 3];
    v := b0 * 0x100_0000 + b1 * 0x1_0000 + b2 * 0x100 + b3;
  }

  method SetString(buf: array<u8>, off: nat, maxlen: nat, text: string)
    requires buf.Length == SECTOR_SIZE && off + maxlen <= SECTOR_SIZE
    modifies buf
    ensures buf[..] == Put(old(buf[..]), off, Chars(text, maxlen))
  {
    var len := |text|;
    if len > maxlen {
      len := maxlen;
    }
    forall i | 0 <= i < len {
      buf[off + i] := text[i] as int % 0x100;
    }
  }

  method CreateLabel(sector: array<u8>, total: u32, swap: u32)
    requires sector.Length == SECTOR_SIZE
    modifies sector
    ensures sector[..] == Create(total, swap)
  {
    hide Put, Be16, Be32, Chars;
    forall i | 0 <= i < sector.Length {
      sector[i] := 0;
    }
    assert sector[..] == Wiped();
    CreateVid(sector, total);
    CreatePartitions(sector, total, swap);
    CreateCfg(sector, total);
  }

  method CreateVid(sector: array<u8>, total: u32)
    requires sector.Length == SECTOR_SIZE
    modifies sector
    ensures sector[..] == VidArea(old(sector[..]), total)
  {
    hide Put, Be16, Be32, Chars;
    SetString(sector, 0x00, 4, "NBSD");
    PutBe32(sector, 0x14, 2);
    PutBe16(sector, 0x18, 30);
    PutBe16(sector, 0x1E, 0x3F);
    PutBe16(sector, 0x24, 8);
    SetString(sector, 0x26, 16, "EMULATED");
    PutBe32(sector, 0x36, 8192);
    PutBe32(sector, 0x3A, DISKMAGIC);
    PutBe16(sector, 0x3E, 4);
    SetString(sector, 0x42, 16, "NetBSD");
    PutBe32(sector, 0x80, SECTORS_PER_CYLINDER);
    PutBe32(sector, 0x84, total);
    PutBe32(sector, 0x90, 1);
    PutByte(sector, 0x94, 1);
  }

  method CreatePartitions(sector: array<u8>, total: u32, swap: u32)
    requires sector.Length == SECTOR_SIZE
    modifies sector
    ensures sector[..] == Partitions(old(sector[..]), total, swap)
  {
    hide Put, Be16, Be32;
    var aSectors := Wrap(total - swap);
    PutBe32(sector, 0x98, aSectors);
    PutBe32(sector, 0x9C, 0);
    PutBe32(sector, 0xA0, 1024);
    PutByte(sector, 0xA4, 7);
    PutByte(sector, 0xA5, 8);
    PutBe16(sector, 0xA6, 16);
    PutBe32(sector, 0xA8, swap);
    PutBe32(sector, 0xAC, aSectors);
    PutByte(sector, 0xB4, 1);
    PutBe32(sector, 0xB8, total);
    PutBe32(sector, 0xBC, 0);
  }

  method CreateCfg(sector: array<u8>, total: u32)
    requires sector.Length == SECTOR_SIZE
    modifies sector
    ensures sector[..] == CfgArea(old(sector[..]), total)
  {
    hide Put, Be16, Be32, Chars;
    PutBe32(sector, 0xF4, 8192);
    SetString(sector, 0xF8, 8, "MOTOROLA");
    PutBe16(sector, 0x10A, 256);
    PutBe16(sector, 0x114, 3600);
    PutByte(sector, 0x118, 32);
    PutByte(sector, 0x119, 64);
    PutBe16(sector, 0x11A, Cylinders(total));
    PutByte(sector, 0x11C, 1);
    PutBe16(sector, 0x11E, 512);
    PutBe32(sector, 0x13C, DISKMAGIC);
  }

  method UpdateLabel(sector: array<u8>, total: u32, swap: u32)
    requires sector.Length == SECTOR_SIZE
    modifies sector
    ensures sector[..] == Update(old(sector[..]), total, swap)
  {
    hide Put, Be16, Be32, Get32;
    var aOffset: int := GetBe32(sector, 0x9C);
    var aSize: int := Wrap(total - swap - aOffset);
    var bOffset := Wrap(aOffset + aSize);
    PutBe32(sector, 0x80, SECTORS_PER_CYLINDER);
    PutBe32(sector, 0x84, total);
    PutBe32(sector, 0x98, aSize);
    PutBe32(sector, 0xA8, swap);
    PutBe32(sector, 0xAC, bOffset);
    PutBe32(sector, 0xB8, total);
    PutBe16(sector, 0x11A, Cylinders(total));
  }

  /** The tool proper: an update is refused unless the sector carries the label's magic number. */
  method LabelSector(sector: array<u8>, create: bool, total: u32, swap: u32) returns (ok: bool)
    requires sector.Length == SECTOR_SIZE
    modifies sector
    ensures ok == (create || Get32(old(sector[..]), 0x3A) == DISKMAGIC)
    ensures sector[..] == if create then Create(total, swap)
                          else if ok then Update(old(sector[..]), total, swap)
                          else old(sector[..])
  {
    hide Create, Update, Get32;
    ok := true;
    if create {
      CreateLabel(sector, total, swap);
    } else {
      var magic := GetBe32(sector, 0x3A);
      if magic != DISKMAGIC {
        return false;
      }
      UpdateLabel(sector, total, swap);
    }
  }

  // ----- Last write wins -----

  /** The bytes that an update may change. */
  predicate Updated(k: int) {
    || 0x80 <= k < 0x88 || 0x98 <= k < 0x9C || 0xA8 <= k < 0xB0 || 0xB8 <= k < 0xBC || 0x11A <= k < 0x11C
  }

  /** Those bytes do not depend on what was there; all others are left alone. */
  lemma StampAt(s: Sector, t: Sector, total: u32, swap: u32, aOffset: u32, k: nat)
    requires k < SECTOR_SIZE
    ensures Updated(k) ==> Stamp(s, total, swap, aOffset)[k] == Stamp(t, total, swap, aOffset)[k]
    ensures !Updated(k) ==> Stamp(s, total, swap, aOffset)[k] == s[k]
  {
  }

  lemma SameBytes(s: Sector, t: Sector)
    requires forall k :: 0 <= k < SECTOR_SIZE ==> s[k] == t[k]
    ensures s == t
  {
  }

  /** An update changes the named fields only; in particular partition a stays where it is. */
  lemma UpdateKeepsTheRest(s: Sector, total: u32, swap: u32)
    ensures forall k: nat :: k < SECTOR_SIZE && !Updated(k) ==> Update(s, total, swap)[k] == s[k]
    ensures Get32(Update(s, total, swap), 0x9C) == Get32(s, 0x9C)
  {
  }

  /** Of two updates of any sector, only the last one counts. */
  lemma LastUpdateWins(s: Sector, t1: u32, s1: u32, t2: u32, s2: u32)
    ensures Update(Update(s, t1, s1), t2, s2) == Update(s, t2, s2)
  {
    hide Stamp, Get32, Updated;
    var once := Update(s, t1, s1);
    UpdateKeepsTheRest(s, t1, s1);
    var a := Get32(s, 0x9C);
    forall k | 0 <= k < SECTOR_SIZE
      ensures Stamp(once, t2, s2, a)[k] == Stamp(s, t2, s2, a)[k]
    {
      StampAt(once, s, t2, s2, a, k);
      StampAt(s, s, t2, s2, a, k);
      StampAt(s, s, t1, s1, a, k);
    }
    SameBytes(Stamp(once, t2, s2, a), Stamp(s, t2, s2, a));
  }

  // ----- Creating and updating -----

  lemma VidAt(s: Sector, t: Sector, t1: u32, t2: u32, k: nat)
    requires k < SECTOR_SIZE && s[k] == t[k] && !Updated(k)
    ensures VidArea(s, t1)[k] == VidArea(t, t2)[k]
  {
  }

  lemma PartitionsAt(s: Sector, t: Sector, t1: u32, s1: u32, t2: u32, s2: u32, k: nat)
    requires k < SECTOR_SIZE && s[k] == t[k] && !Updated(k)
    ensures Partitions(s, t1, s1)[k] == Partitions(t, t2, s2)[k]
  {
  }

  lemma CfgAt(s: Sector, t: Sector, t1: u32, t2: u32, k: nat)
    requires k < SECTOR_SIZE && s[k] == t[k] && !Updated(k)
    ensures CfgArea(s, t1)[k] == CfgArea(t, t2)[k]
  {
  }

  /** The fields of a fresh label are what an update would put there. */
  lemma CreateStamps(total: u32, swap: u32, k: nat)
    requires k < SECTOR_SIZE && Updated(k)
    ensures Create(total, swap)[k] == Stamp(Wiped(), total, swap, 0)[k]
  {
    hide Put, Be32, Be16, Chars, Wrap;
    NoOffset(total, swap);
  }

  lemma NoOffset(total: u32, swap: u32)
    ensures Wrap(total - swap - 0) == Wrap(total - swap) == Wrap(0 + Wrap(total - swap - 0))
  {
  }

  lemma CreateElsewhere(t1: u32, s1: u32, t2: u32, s2: u32, k: nat)
    requires k < SECTOR_SIZE && !Updated(k)
    ensures Create(t1, s1)[k] == Create(t2, s2)[k]
  {
    hide VidArea, Partitions, CfgArea, Updated;
    var v1, v2 := VidArea(Wiped(), t1), VidArea(Wiped(), t2);
    VidAt(Wiped(), Wiped(), t1, t2, k);
    PartitionsAt(v1, v2, t1, s1, t2, s2, k);
    CfgAt(Partitions(v1, t1, s1), Partitions(v2, t2, s2), t1, t2, k);
  }

  /** A fresh label has its magic number and puts partition a at sector 0. */
  lemma CreateFields(total: u32, swap: u32)
    ensures Get32(Create(total, swap), 0x3A) == DISKMAGIC && Get32(Create(total, swap), 0x9C) == 0
    ensures var s := Create(total, swap);
            && s[0x3A] == 0x82 && s[0x3B] == 0x56 && s[0x3C] == 0x45 && s[0x3D] == 0x57
            && s[0x00] == 0x4E && s[0x01] == 0x42 && s[0x02] == 0x53 && s[0x03] == 0x44
  {
    hide Put, Be16, Chars, Wrap;
    var s := Create(total, swap);
    Signature();
    assert s[0x3A] == 0x82 && s[0x3B] == 0x56 && s[0x3C] == 0x45 && s[0x3D] == 0x57;
    assert s[0x9C] == 0 && s[0x9D] == 0 && s[0x9E] == 0 && s[0x9F] == 0;
    hide Create;
  }

  lemma Signature()
    ensures Chars("NBSD", 4) == [0x4E, 0x42, 0x53, 0x44]
  {
    var b := Chars("NBSD", 4);
    assert |b| == 4 && b[0] == 0x4E && b[1] == 0x42 && b[2] == 0x53 && b[3] == 0x44;
  }

  /** Updating a created label is creating it anew, byte for byte. */
  lemma UpdateOfCreate(t1: u32, s1: u32, t2: u32, s2: u32)
    ensures Update(Create(t1, s1), t2, s2) == Create(t2, s2)
  {
    hide Stamp, Create, Get32, Updated;
    var s := Create(t1, s1);
    CreateFields(t1, s1);
    forall k | 0 <= k < SECTOR_SIZE
      ensures Stamp(s, t2, s2, 0)[k] == Create(t2, s2)[k]
    {
      StampAt(s, Wiped(), t2, s2, 0, k);
      if Updated(k) {
        CreateStamps(t2, s2, k);
      } else {
        CreateElsewhere(t1, s1, t2, s2, k);
      }
    }
    SameBytes(Stamp(s, t2, s2, 0), Create(t2, s2));
  }

  /** What an update writes into the partition table. */
  lemma UpdateFields(s: Sector, total: u32, swap: u32)
    ensures var u, a := Update(s, total, swap), Get32(s, 0x9C);
            && Get32(u, 0x84) == Get32(u, 0xB8) == total && Get32(u, 0xA8) == swap
            && Get32(u, 0x98) == Wrap(total - swap - a) && Get32(u, 0xAC) == Wrap(a + Wrap(total - swap - a))
            && Get16(u, 0x11A) == total / SECTORS_PER_CYLINDER % 0x1_0000
  {
    var u, a: int := Update(s, total, swap), Get32(s, 0x9C);
    FieldBack(u, 0x84, total);
    FieldBack(u, 0xB8, total);
    FieldBack(u, 0xA8, swap);
    FieldBack(u, 0x98, Wrap(total - swap - a));
    FieldBack(u, 0xAC, Wrap(a + Wrap(total - swap - a)));
    hide Put, Be32, Wrap, Get32;
  }

  lemma FieldBack(u: Sector, off: nat, v: u32)
    requires off + 4 <= SECTOR_SIZE
    ensures (forall k :: off <= k < off + 4 ==> u[k] == Be32(v)[k - off]) ==> Get32(u, off) == v
  {
    if forall k :: off <= k < off + 4 ==> u[k] == Be32(v)[k - off] {
      var b := Be32(v);
      assert u[off] == b[0] && u[off + 1] == b[1] && u[off + 2] == b[2] && u[off + 3] == b[3];
      Digits(v);
    }
  }

  lemma Digits(v: u32)
    ensures v == v / 0x100_0000 * 0x100_0000 + v / 0x1_0000 % 0x100 * 0x1_0000 + v / 0x100 % 0x100 * 0x100 + v % 0x100
  {
  }

  /** Partition b starts where a ends, and ends where the disk ends. */
  predicate Adjacent(s: Sector) {
    && Get32(s, 0x9C) as int + Get32(s, 0x98) == Get32(s, 0xAC)
    && Get32(s, 0xAC) as int + Get32(s, 0xA8) == Get32(s, 0x84)
  }

  /** An update lays the partitions out properly exactly when swap and the space before a fit the disk. */
  lemma AdjacentExactly(s: Sector, total: u32, swap: u32)
    ensures Adjacent(Update(s, total, swap)) <==> swap as int + Get32(s, 0x9C) <= total
  {
    hide Get32, Update, Wrap;
    UpdateFields(s, total, swap);
    UpdateKeepsTheRest(s, total, swap);
    Layout(total, swap, Get32(s, 0x9C));
  }

  lemma Layout(total: u32, swap: u32, a: u32)
    ensures (a + Wrap(total - swap - a) == Wrap(a + Wrap(total - swap - a))
             && Wrap(a + Wrap(total - swap - a)) + swap == total)
            <==> swap + a <= total
  {
  }

  /** A swap area larger than the disk: the sizes wrap around. */
  lemma AdjacencyCanFail()
    ensures !Adjacent(Update(Create(4096, 2048), 4096, 8192))
  {
    hide Create, Update, Adjacent, Get32;
    CreateFields(4096, 2048);
    AdjacentExactly(Create(4096, 2048), 4096, 8192);
  }
}
