/** Bytes, disk sectors and the little-endian words that the kernel overlays on them. */
module Words {

  const BSIZE := 512

  type Byte = x: int | 0 <= x < 0x100
  type Uint = x: int | 0 <= x < 0x1_0000_0000

  /** One disk sector (`uchar data[512]`). */
  type Block = b: seq<Byte> | |b| == BSIZE witness seq(BSIZE, _ => 0)

  /** The whole disk image, sector by sector. */
  type Disk = seq<Block>

  function ZeroBlock(): (b: Block)
    ensures forall p :: 0 <= p < BSIZE ==> b[p] == 0
  {
    seq(BSIZE, _ => 0)
  }

  /** The `uint` stored at byte offset `at`. */
  function GetWord(b: Block, at: nat): (w: Uint)
    requires at + 4 <= BSIZE
  {
    b[at] as int + 0x100 * (b[at + 1] as int) + 0x1_0000 * (b[at + 2] as int) + 0x100_0000 * (b[at + 3] as int)
  }

  function PutWord(b: Block, at: nat, w: Uint): (r: Block)
    requires at + 4 <= BSIZE
  {
    b[at := w % 0x100][at + 1 := w / 0x100 % 0x100][at + 2 := w / 0x1_0000 % 0x100][at + 3 := w / 0x100_0000]
  }

  lemma ByteSplit(w: Uint)
    ensures w == w % 0x100 + 0x100 * (w / 0x100 % 0x100) + 0x1_0000 * (w / 0x1_0000 % 0x100) + 0x100_0000 * (w / 0x100_0000)
  {
    var h := w / 0x100;
    assert w / 0x1_0000 == h / 0x100;
    assert w / 0x100_0000 == h / 0x100 / 0x100;
  }

  lemma GetPutWord(b: Block, at: nat, w: Uint)
    requires at + 4 <= BSIZE
    ensures GetWord(PutWord(b, at, w), at) == w
  {
    ByteSplit(w);
  }

  lemma ByteJoin(p: Byte, q: Byte, r: Byte, s: Byte)
    ensures var w := p as int + 0x100 * (q as int) + 0x1_0000 * (r as int) + 0x100_0000 * (s as int);
            w % 0x100 == p && w / 0x100 % 0x100 == q && w / 0x1_0000 % 0x100 == r && w / 0x100_0000 == s
  {
    var w := p as int + 0x100 * (q as int) + 0x1_0000 * (r as int) + 0x100_0000 * (s as int);
    assert w / 0x100 == q as int + 0x100 * (r as int) + 0x1_0000 * (s as int);
    assert w / 0x1_0000 == r as int + 0x100 * (s as int);
  }

  /** Writing the word that is already there changes nothing. */
  lemma PutGetWord(b: Block, at: nat)
    requires at + 4 <= BSIZE
    ensures PutWord(b, at, GetWord(b, at)) == b
  {
    ByteJoin(b[at], b[at + 1], b[at + 2], b[at + 3]);
  }

  lemma PutWordFrame(b: Block, at: nat, w: Uint, other: nat)
    requires at + 4 <= BSIZE && other + 4 <= BSIZE
    requires other + 4 <= at || at + 4 <= other
    ensures GetWord(PutWord(b, at, w), other) == GetWord(b, other)
  {
  }
}
