/** The on-disk format (fs.h): where inodes and bitmap bits are, and what writing one of them changes. */
module FsLayout {
  import opened Words

  const NDIRECT := 12
  const NINDIRECT := 128
  const MAXFILE := 140
  const IPB := 8     // inodes per block
  const BPB := 4096  // bitmap bits per block

  type Ushort = x: int | 0 <= x < 0x1_0000

  /** The superblock's numbers. */
  datatype Super = Super(size: nat, ninodes: nat, nlog: nat) {
    function IBlock(i: nat): nat { i / IPB + 2 }

    function BBlock(b: nat): nat { b / BPB + ninodes / IPB + 3 }

    /** The first block mkfs leaves for files. */
    function DataStart(): nat { ninodes / IPB + 3 + size / BPB + 1 }

    function LogStart(): int { size - nlog }

    predicate Valid() { DataStart() <= LogStart() && size < 0x1_0000_0000 }
  }

  predicate Fits(sb: Super, d: Disk) { sb.Valid() && sb.size <= |d| }

  // ---------- bits of a byte ----------

  /** `x & (1 << k)` is non-zero. */
  predicate Bit(x: nat, k: nat) {
    if k == 0 then x % 2 == 1 else Bit(x / 2, k - 1)
  }

  /** `x | (1 << k)` or `x & ~(1 << k)`. */
  function PutBit(x: nat, k: nat, on: bool): nat {
    if k == 0 then x / 2 * 2 + (if on then 1 else 0) else PutBit(x / 2, k - 1, on) * 2 + x % 2
  }

  function Pow2(n: nat): nat { if n == 0 then 1 else 2 * Pow2(n - 1) }

  lemma Doubled(n: nat)
    requires n > 0
    ensures Pow2(n) == 2 * Pow2(n - 1)
  {
  }

  lemma {:induction false} PutBitBound(x: nat, k: nat, on: bool, n: nat)
    requires k < n && x < Pow2(n)
    ensures PutBit(x, k, on) < Pow2(n)
  {
    hide Pow2;
    var half := Pow2(n - 1);
    assert Pow2(n) == 2 * half by { Doubled(n); }
    assert x / 2 < half;
    if k > 0 {
      PutBitBound(x / 2, k - 1, on, n - 1);
      assert PutBit(x, k, on) == PutBit(x / 2, k - 1, on) * 2 + x % 2;
    }
  }

  lemma {:induction false} BitPut(x: nat, k: nat, on: bool, j: nat)
    ensures Bit(PutBit(x, k, on), j) <==> if j == k then on else Bit(x, j)
  {
    if k > 0 && j > 0 {
      BitPut(x / 2, k - 1, on, j - 1);
    }
  }

  function PutByteBit(x: Byte, k: nat, on: bool): (r: Byte)
    requires k < 8
  {
    assert Pow2(8) == 256;
    PutBitBound(x, k, on, 8);
    PutBit(x, k, on)
  }

  // ---------- the free bitmap ----------

  lemma BBlockBelow(sb: Super, d: Disk, b: nat)
    requires Fits(sb, d) && b < sb.size
    ensures sb.ninodes / IPB + 3 <= sb.BBlock(b) < sb.DataStart() <= |d|
  {
  }

  /** The bitmap says block `b` is in use. */
  predicate Used(sb: Super, d: Disk, b: nat)
    requires Fits(sb, d) && b < sb.size
  {
    BBlockBelow(sb, d, b);
    Bit(d[sb.BBlock(b)][b % BPB / 8], b % 8)
  }

  /** The bitmap block of `b` with b's bit set or cleared. */
  function BitBlock(sb: Super, d: Disk, b: nat, on: bool): (blk: Block)
    requires Fits(sb, d) && b < sb.size
  {
    BBlockBelow(sb, d, b);
    var blk := d[sb.BBlock(b)];
    blk[b % BPB / 8 := PutByteBit(blk[b % BPB / 8], b % 8, on)]
  }

  function WithBit(sb: Super, d: Disk, b: nat, on: bool): (r: Disk)
    requires Fits(sb, d) && b < sb.size
    ensures |r| == |d|
  {
    BBlockBelow(sb, d, b);
    d[sb.BBlock(b) := BitBlock(sb, d, b, on)]
  }

  /** One bit written is one block's status changed. */
  lemma UsedWithBit(sb: Super, d: Disk, b: nat, on: bool, c: nat)
    requires Fits(sb, d) && b < sb.size && c < sb.size
    ensures Used(sb, WithBit(sb, d, b, on), c) <==> if c == b then on else Used(sb, d, c)
  {
    BBlockBelow(sb, d, b);
    BBlockBelow(sb, d, c);
    var x := d[sb.BBlock(b)][b % BPB / 8];
    BitPut(x, b % 8, on, c % 8);
    hide Bit, PutBit;
    SamePosition(b, c);
  }

  /** The place of a bit: its block, its byte in the block, and its number in the byte. */
  lemma Position(b: nat)
    ensures b == BPB * (b / BPB) + 8 * (b % BPB / 8) + b % 8
  {
    var q, r := b / BPB, b % BPB;
    assert b == 8 * (512 * q) + r;
    assert r % 8 == b % 8;
  }

  lemma SamePosition(b: nat, c: nat)
    ensures b == c <==> b / BPB == c / BPB && b % BPB / 8 == c % BPB / 8 && b % 8 == c % 8
  {
    Position(b);
    Position(c);
  }

  /** Writing a block that holds no bits changes no block's status. */
  lemma UsedFrame(sb: Super, d: Disk, x: nat, blk: Block, c: nat)
    requires Fits(sb, d) && c < sb.size && x < |d|
    requires x < sb.ninodes / IPB + 3 || sb.DataStart() <= x
    ensures Used(sb, d[x := blk], c) <==> Used(sb, d, c)
  {
    BBlockBelow(sb, d, c);
  }

  // ---------- inodes ----------

  /** `struct dinode`, 64 bytes. */
  datatype Dinode = Dinode(typ: Ushort, major: Ushort, minor: Ushort, nlink: Ushort, size: Uint, addrs: seq<Uint>) {
    predicate Ok() { |addrs| == NDIRECT + 1 }
  }

  function ByteOf(w: Uint, r: nat): (b: Byte)
    requires r < 4
  {
    if r == 0 then w % 0x100 else if r == 1 then w / 0x100 % 0x100 else if r == 2 then w / 0x1_0000 % 0x100
    else w / 0x100_0000
  }

  /** Byte `p` of an encoded inode. */
  function InodeByte(di: Dinode, p: nat): (b: Byte)
    requires di.Ok() && p < 64
  {
    if p < 2 then ByteOf(di.typ, p)
    else if p < 4 then ByteOf(di.major, p - 2)
    else if p < 6 then ByteOf(di.minor, p - 4)
    else if p < 8 then ByteOf(di.nlink, p - 6)
    else if p < 12 then ByteOf(di.size, p - 8)
    else ByteOf(di.addrs[(p - 12) / 4], (p - 12) % 4)
  }

  function GetHalf(b: Block, at: nat): (h: Ushort)
    requires at + 2 <= BSIZE
  {
    b[at] as int + 0x100 * (b[at + 1] as int)
  }

  /** The block of inode `i`, its slot overwritten by `di` (iupdate). */
  function InodeBlock(b: Block, i: nat, di: Dinode): (r: Block)
    requires di.Ok()
  {
    var o := i % IPB * 64;
    b[..o] + seq<Byte>(64, p requires 0 <= p < 64 => InodeByte(di, p)) + b[o + 64..]
  }

  function InodeIn(b: Block, i: nat): (di: Dinode)
    ensures di.Ok()
  {
    var o := i % IPB * 64;
    Dinode(GetHalf(b, o), GetHalf(b, o + 2), GetHalf(b, o + 4), GetHalf(b, o + 6), GetWord(b, o + 8),
           seq(NDIRECT + 1, s requires 0 <= s <= NDIRECT => GetWord(b, o + 12 + 4 * s)))
  }

  lemma WordBytes(b: Block, at: nat, w: Uint)
    requires at + 4 <= BSIZE
    requires forall r :: 0 <= r < 4 ==> b[at + r] == ByteOf(w, r)
    ensures GetWord(b, at) == w
  {
    ByteSplit(w);
    assert b[at + 0] == ByteOf(w, 0) && b[at + 1] == ByteOf(w, 1) && b[at + 2] == ByteOf(w, 2) && b[at + 3] == ByteOf(w, 3);
  }

  lemma SlotByte(b: Block, i: nat, di: Dinode, p: nat)
    requires di.Ok() && p < 64
    ensures InodeBlock(b, i, di)[i % IPB * 64 + p] == InodeByte(di, p)
  {
    hide InodeByte;
  }

  lemma AddrBack(b: Block, i: nat, di: Dinode, s: nat)
    requires di.Ok() && s <= NDIRECT
    ensures GetWord(InodeBlock(b, i, di), i % IPB * 64 + 12 + 4 * s) == di.addrs[s]
  {
    var r, at := InodeBlock(b, i, di), i % IPB * 64 + 12 + 4 * s;
    hide InodeBlock, ByteOf, GetWord;
    forall k | 0 <= k < 4
      ensures r[at + k] == ByteOf(di.addrs[s], k)
    {
      SlotByte(b, i, di, 12 + 4 * s + k);
      assert (4 * s + k) / 4 == s && (4 * s + k) % 4 == k;
    }
    WordBytes(r, at, di.addrs[s]);
  }

  lemma HalfBack(b: Block, i: nat, di: Dinode, at: nat, w: Ushort)
    requires di.Ok() && at < 8 && at % 2 == 0
    requires w == if at == 0 then di.typ else if at == 2 then di.major else if at == 4 then di.minor else di.nlink
    ensures GetHalf(InodeBlock(b, i, di), i % IPB * 64 + at) == w
  {
    var r, o := InodeBlock(b, i, di), i % IPB * 64;
    SlotByte(b, i, di, at);
    SlotByte(b, i, di, at + 1);
    hide InodeBlock;
  }

  lemma SizeBack(b: Block, i: nat, di: Dinode)
    requires di.Ok()
    ensures GetWord(InodeBlock(b, i, di), i % IPB * 64 + 8) == di.size
  {
    var r, at := InodeBlock(b, i, di), i % IPB * 64 + 8;
    hide InodeBlock, ByteOf, GetWord;
    forall k | 0 <= k < 4
      ensures r[at + k] == ByteOf(di.size, k)
    {
      SlotByte(b, i, di, 8 + k);
    }
    WordBytes(r, at, di.size);
  }

  /** What iupdate stores, ilock reads back. */
  lemma InodeRoundTrip(b: Block, i: nat, di: Dinode)
    requires di.Ok()
    ensures InodeIn(InodeBlock(b, i, di), i) == di
  {
    hide InodeBlock, GetWord, GetHalf;
    HalfBack(b, i, di, 0, di.typ);
    HalfBack(b, i, di, 2, di.major);
    HalfBack(b, i, di, 4, di.minor);
    HalfBack(b, i, di, 6, di.nlink);
    SizeBack(b, i, di);
    forall s | 0 <= s <= NDIRECT
      ensures GetWord(InodeBlock(b, i, di), i % IPB * 64 + 12 + 4 * s) == di.addrs[s]
    {
      AddrBack(b, i, di, s);
    }
    assert InodeIn(InodeBlock(b, i, di), i).addrs == di.addrs;
  }

  /** The other inodes of the block keep their contents. */
  lemma InodeFrame(b: Block, i: nat, di: Dinode, j: nat)
    requires di.Ok() && i % IPB != j % IPB
    ensures InodeIn(InodeBlock(b, i, di), j) == InodeIn(b, j)
  {
    var r, o := InodeBlock(b, i, di), j % IPB * 64;
    assert forall p :: o <= p < o + 64 ==> r[p] == b[p];
    hide InodeBlock;
    forall s | 0 <= s <= NDIRECT
      ensures GetWord(r, o + 12 + 4 * s) == GetWord(b, o + 12 + 4 * s)
    {
    }
  }

  lemma IBlockBelow(sb: Super, d: Disk, i: nat)
    requires Fits(sb, d) && i < sb.ninodes
    ensures 2 <= sb.IBlock(i) < sb.ninodes / IPB + 3 < sb.DataStart() <= |d|
  {
  }

  function InodeOf(sb: Super, d: Disk, i: nat): (di: Dinode)
    requires Fits(sb, d) && i < sb.ninodes
    ensures di.Ok()
  {
    IBlockBelow(sb, d, i);
    InodeIn(d[sb.IBlock(i)], i)
  }

  function WithInode(sb: Super, d: Disk, i: nat, di: Dinode): (r: Disk)
    requires Fits(sb, d) && i < sb.ninodes && di.Ok()
    ensures |r| == |d|
  {
    IBlockBelow(sb, d, i);
    d[sb.IBlock(i) := InodeBlock(d[sb.IBlock(i)], i, di)]
  }

  /** One inode written is one inode changed. */
  lemma InodeOfWith(sb: Super, d: Disk, i: nat, di: Dinode, j: nat)
    requires Fits(sb, d) && i < sb.ninodes && j < sb.ninodes && di.Ok()
    ensures InodeOf(sb, WithInode(sb, d, i, di), j) == if j == i then di else InodeOf(sb, d, j)
  {
    IBlockBelow(sb, d, i);
    IBlockBelow(sb, d, j);
    hide InodeIn, InodeBlock;
    if j == i {
      InodeRoundTrip(d[sb.IBlock(i)], i, di);
    } else if sb.IBlock(j) == sb.IBlock(i) {
      InodeFrame(d[sb.IBlock(i)], i, di, j);
    }
  }

  /** Writing a block that holds no inodes changes no inode. */
  lemma InodeOfFrame(sb: Super, d: Disk, x: nat, blk: Block, i: nat)
    requires Fits(sb, d) && i < sb.ninodes && x < |d| && sb.ninodes / IPB + 3 <= x
    ensures InodeOf(sb, d[x := blk], i) == InodeOf(sb, d, i)
  {
    IBlockBelow(sb, d, i);
  }
}
