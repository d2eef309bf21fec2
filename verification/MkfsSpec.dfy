/** What the formatter keeps true of a disk whose free map is yet to be written. */
module MkfsSpec {
  import opened Words
  import opened FsLayout
  import opened FsSpec
  import opened FileSpec
  import opened FsSteps
  import opened Volume
  import opened Dir
  import F = Fs

  // ---------- the free map to come ----------

  /** `d` with the first `n` bits of the free map set. */
  function MarkedUp(sb: Super, d: Disk, n: nat): (r: Disk)
    requires Fits(sb, d) && n <= sb.size
    ensures |r| == |d|
  {
    if n == 0 then d else WithBit(sb, MarkedUp(sb, d, n - 1), n - 1, true)
  }

  /** A block that holds no part of the free map. */
  predicate Plain(sb: Super, x: int) { 0 <= x < sb.ninodes / IPB + 3 || sb.DataStart() <= x }

  /** The first `n` blocks have been handed out; the others, and the free map, are still zero. */
  ghost predicate Clean(sb: Super, d: Disk, n: nat) {
    && Fits(sb, d) && sb.DataStart() <= n <= sb.LogStart()
    && (forall x :: 0 <= x < |d| && !Plain(sb, x) ==> d[x] == ZeroBlock())
    && (forall x :: n <= x < sb.LogStart() ==> d[x] == ZeroBlock())
  }

  lemma {:induction false} NoBit(k: nat)
    ensures !Bit(0, k)
  {
    if k > 0 { NoBit(k - 1); }
  }

  lemma {:induction false} MarkedUsed(sb: Super, d: Disk, n: nat, b: nat)
    requires Fits(sb, d) && n <= sb.size && b < sb.size
    requires forall x :: 0 <= x < |d| && !Plain(sb, x) ==> d[x] == ZeroBlock()
    ensures Used(sb, MarkedUp(sb, d, n), b) <==> b < n
    decreases n
  {
    hide WithBit, Bit;
    if n > 0 {
      MarkedUsed(sb, d, n - 1, b);
      UsedWithBit(sb, MarkedUp(sb, d, n - 1), n - 1, true, b);
    } else {
      BBlockBelow(sb, d, b);
      NoBit(b % 8);
    }
  }

  lemma {:induction false} MarkedPlain(sb: Super, d: Disk, n: nat, x: nat)
    requires Fits(sb, d) && n <= sb.size && x < |d| && Plain(sb, x)
    ensures MarkedUp(sb, d, n)[x] == d[x]
    decreases n
  {
    hide BitBlock;
    if n > 0 {
      MarkedPlain(sb, d, n - 1, x);
      BBlockBelow(sb, d, n - 1);
    }
  }

  /** Writing elsewhere and filling in the free map can be done in either order. */
  lemma {:induction false} MarkedWrite(sb: Super, d: Disk, n: nat, x: nat, blk: Block)
    requires Fits(sb, d) && n <= sb.size && x < |d| && Plain(sb, x)
    ensures MarkedUp(sb, d[x := blk], n) == MarkedUp(sb, d, n)[x := blk]
    decreases n
  {
    hide WithBit;
    if n > 0 {
      MarkedWrite(sb, d, n - 1, x, blk);
      WithBitElsewhere(sb, MarkedUp(sb, d, n - 1), n - 1, x, blk);
    }
  }

  lemma WithBitElsewhere(sb: Super, d: Disk, b: nat, x: nat, blk: Block)
    requires Fits(sb, d) && b < sb.size && x < |d| && Plain(sb, x)
    ensures WithBit(sb, d[x := blk], b, true) == WithBit(sb, d, b, true)[x := blk]
  {
    BBlockBelow(sb, d, b);
  }

  /** The formatter's disk with its free map filled in, one inode being worked on. */
  ghost function Work(sb: Super, d: Disk, n: nat, me: nat, mine: seq<Uint>): State
    requires Fits(sb, d) && n <= sb.size
  {
    State(sb, MarkedUp(sb, d, n), me, mine)
  }

  lemma {:induction false} WorkRoom(sb: Super, d: Disk, n: nat, me: nat, mine: seq<Uint>)
    requires Fits(sb, d) && n <= sb.LogStart() && me < sb.ninodes && |mine| == NDIRECT + 1
    requires forall x :: 0 <= x < |d| && !Plain(sb, x) ==> d[x] == ZeroBlock()
    ensures Room(Work(sb, d, n, me, mine)) == sb.LogStart() - n
    decreases sb.LogStart() - n
  {
    hide Used, MarkedUp, Plain, Room;
    var st := Work(sb, d, n, me, mine);
    forall m: nat, b | m <= sb.size
      ensures Work(sb, d, m, me, mine).InUse(b) <==> 0 <= b < m
    {
      if 0 <= b < sb.size { MarkedUsed(sb, d, m, b); }
    }
    if n < sb.LogStart() {
      WorkRoom(sb, d, n + 1, me, mine);
      RoomTaken(st, Work(sb, d, n + 1, me, mine), n);
    } else {
      RoomIff(st);
    }
  }

  /** Storing into a block that has been handed out. */
  lemma Store(sb: Super, d: Disk, n: nat, x: nat, blk: Block)
    requires Clean(sb, d, n) && sb.DataStart() <= x < n
    ensures Clean(sb, d[x := blk], n) && MarkedUp(sb, d, n)[x] == d[x]
    ensures MarkedUp(sb, d[x := blk], n) == MarkedUp(sb, d, n)[x := blk]
  {
    MarkedPlain(sb, d, n, x);
    MarkedWrite(sb, d, n, x, blk);
  }

  /** A block named in the file system has been handed out. */
  lemma Handed(sb: Super, d: Disk, n: nat, me: nat, mine: seq<Uint>, s: nat)
    requires Clean(sb, d, n) && Work(sb, d, n, me, mine).Ok() && s < NSLOT && Work(sb, d, n, me, mine).At(me, s) != 0
    ensures sb.DataStart() <= Work(sb, d, n, me, mine).At(me, s) < n
    ensures var x := Work(sb, d, n, me, mine).At(me, s); MarkedUp(sb, d, n)[x] == d[x]
  {
    hide State.Apart, State.MetaMarked, Used, MarkedUp, State.At;
    var st := Work(sb, d, n, me, mine);
    assert st.Key(me, s);
    MarkedUsed(sb, d, n, st.At(me, s));
    MarkedPlain(sb, d, n, st.At(me, s));
  }

  /** Taking the next block is what balloc does on the disk with its free map filled in. */
  lemma TakeView(sb: Super, d: Disk, n: nat, me: nat, mine: seq<Uint>)
    requires Clean(sb, d, n) && n < sb.LogStart() && Work(sb, d, n, me, mine).Shape()
    ensures !Work(sb, d, n, me, mine).InUse(n) && Clean(sb, d, n + 1)
    ensures Reserved(Work(sb, d, n, me, mine), n) == Work(sb, d, n + 1, me, mine)
  {
    hide Used;
    MarkedUsed(sb, d, n, n);
    MarkedPlain(sb, d, n + 1, n);
  }

  /** The disk after block `n` has been recorded in slot `s`. */
  function Recorded(d: Disk, n: Uint, mine: seq<Uint>, s: nat): (e: Disk)
    requires |mine| == NDIRECT + 1 && s < NSLOT && (s > NDIRECT ==> mine[NDIRECT] < |d|)
    ensures |e| == |d|
  {
    if s <= NDIRECT then d else d[mine[NDIRECT] := PutWord(d[mine[NDIRECT]], 4 * (s - NDIRECT - 1), n)]
  }

  lemma GrowView(sb: Super, d: Disk, n: nat, me: nat, mine: seq<Uint>, s: nat)
    requires Clean(sb, d, n) && n < sb.LogStart() && Work(sb, d, n, me, mine).Ok() && s < NSLOT
    requires Work(sb, d, n, me, mine).At(me, s) == 0 && (s > NDIRECT ==> mine[NDIRECT] != 0)
    ensures s > NDIRECT ==> sb.DataStart() <= mine[NDIRECT] < |d|
    ensures var e, m := Recorded(d, n, mine, s), if s <= NDIRECT then mine[s := n] else mine;
            && Clean(sb, e, n + 1)
            && Extended(Work(sb, d, n, me, mine), Work(sb, e, n + 1, me, m), {s})
            && Work(sb, e, n + 1, me, m).At(me, s) == n
  {
    hide State.Marked, State.Apart, State.MetaMarked, PutWord, Used, Extended, MarkedUp, Clean, Reserved, State.InUse, State.At;
    var st := Work(sb, d, n, me, mine);
    CleanData(sb, d, n, me, mine);
    TakeView(sb, d, n, me, mine);
    AllocExtends(st, s, n);
    var e, m := Recorded(d, n, mine, s), if s <= NDIRECT then mine[s := n] else mine;
    if s > NDIRECT {
      var x := mine[NDIRECT];
      IndirectSlot(st, me);
      Handed(sb, d, n, me, mine, NDIRECT);
      Store(sb, d, n + 1, x, PutWord(d[x], 4 * (s - NDIRECT - 1), n));
    }
    assert Work(sb, e, n + 1, me, m) == Attached(Reserved(st, n), s, n);
  }

  lemma CleanData(sb: Super, d: Disk, n: nat, me: nat, mine: seq<Uint>)
    requires Clean(sb, d, n) && n < sb.LogStart()
    ensures Fits(sb, d) && Work(sb, d, n, me, mine).IsData(n)
  {
  }

  lemma InodeView(sb: Super, d: Disk, n: nat, i: nat, di: Dinode)
    requires Clean(sb, d, n) && i < sb.ninodes && di.Ok()
    ensures InodeOf(sb, MarkedUp(sb, d, n), i) == InodeOf(sb, d, i)
    ensures Clean(sb, WithInode(sb, d, i, di), n) && WithInode(sb, d, i, di)[1] == d[1]
    ensures MarkedUp(sb, WithInode(sb, d, i, di), n) == WithInode(sb, MarkedUp(sb, d, n), i, di)
  {
    hide InodeIn, InodeBlock, MarkedUp;
    IBlockBelow(sb, d, i);
    MarkedPlain(sb, d, n, sb.IBlock(i));
    MarkedWrite(sb, d, n, sb.IBlock(i), InodeBlock(d[sb.IBlock(i)], i, di));
  }

  // ---------- between calls ----------

  function Blank(): (di: Dinode)
    ensures di.Ok()
  {
    Dinode(0, 0, 0, 0, 0, seq(NDIRECT + 1, k => 0))
  }

  /** Past its end a file has only zero bytes. */
  ghost predicate Tail(st: State, i: nat, size: nat)
    requires st.Shape() && i < st.sb.ninodes
  {
    forall p :: size <= p < MAXSIZE ==> ByteAt(st, i, p) == 0
  }

  ghost predicate Tails(sb: Super, d: Disk)
    requires Fits(sb, d)
  {
    forall i :: 0 <= i < sb.ninodes ==> Tail(OnDisk(sb, d, i), i, InodeOf(sb, d, i).size)
  }

  /** `d` after some files, `n` blocks and the inodes below `k` given out: sound with its free map filled in, and every
      block given out is in a file. */
  ghost predicate Made(sb: Super, d: Disk, n: nat, k: nat) {
    && Clean(sb, d, n) && Tails(sb, MarkedUp(sb, d, n))
    && Sound(sb, MarkedUp(sb, d, n)) && n == sb.DataStart() + TotalCost(Files(sb, MarkedUp(sb, d, n)))
    && (forall i :: k <= i < sb.ninodes ==> InodeOf(sb, MarkedUp(sb, d, n), i) == Blank())
  }

  lemma MadeBalanced(sb: Super, d: Disk, n: nat, k: nat)
    requires Made(sb, d, n, k)
    ensures Balanced(sb, MarkedUp(sb, d, n))
  {
    hide FileSound, Files, TotalCost, Tails, InodeOf, Room, MarkedUp;
    WorkRoom(sb, d, n, 0, InodeOf(sb, MarkedUp(sb, d, n), 0).addrs);
  }

  /** Bytes stored behind the end of a file, then its inode with the new size. */
  lemma Appended(sb: Super, d: Disk, st: State, i: nat, data: seq<Byte>, di: Dinode)
    requires Sound(sb, d) && Tails(sb, d) && i < sb.ninodes && di.Ok() && di.addrs == st.mine
    requires Written(OnDisk(sb, d, i), st, InodeOf(sb, d, i).size, data)
    requires st.Shape() && st.sb == sb && st.me == i
    requires di.size == InodeOf(sb, d, i).size + |data| && NoHoles(st, i, di.size)
    ensures var e := WithInode(sb, st.d, i, di);
            && Sound(sb, e) && Tails(sb, e) && InodeOf(sb, e, i) == di
            && (forall j :: 0 <= j < sb.ninodes && j != i ==> InodeOf(sb, e, j) == InodeOf(sb, d, j))
            && Files(sb, e) == Files(sb, d)[i := Files(sb, d)[i] + data]
  {
    hide State.Marked, State.Apart, State.MetaMarked, NoHoles, InodeOf, Sound, WithInode, Written, OthersKept, SyncedWith;
    hide Content, Tails, Files, Overlay;
    var st0, e, size := OnDisk(sb, d, i), WithInode(sb, st.d, i, di), InodeOf(sb, d, i).size;
    SizeFits(sb, d, i);
    WrittenOthers(st0, st, size, data);
    SyncedState(st, di, di.size);
    SyncedFacts(st0, st, OnDisk(sb, e, i), 0, di.size);
    OverlayContent(st0, st, size, data, size);
    StepSound(sb, d, e, i);
    AppendTails(sb, d, st, e, i, data);
    FileAt(sb, d, i);
    AtEnd(FileOf(sb, d, i), data);
  }

  lemma AtEnd(c: seq<Byte>, s: seq<Byte>)
    ensures Overlay(c, |c|, s) == c + s
  {
    assert c[..|c|] == c;
  }

  lemma FileAt(sb: Super, d: Disk, i: nat)
    requires Sound(sb, d) && i < sb.ninodes
    ensures InodeOf(sb, d, i).size <= MAXSIZE && Files(sb, d)[i] == FileOf(sb, d, i)
  {
    hide InodeOf, FileOf;
    SizeFits(sb, d, i);
  }

  lemma AppendTails(sb: Super, d: Disk, st: State, e: Disk, i: nat, data: seq<Byte>)
    requires Sound(sb, d) && Tails(sb, d) && i < sb.ninodes && Fits(sb, e)
    requires Written(OnDisk(sb, d, i), st, InodeOf(sb, d, i).size, data) && SyncedWith(st, OnDisk(sb, e, i))
    requires OthersKept(OnDisk(sb, d, i), OnDisk(sb, e, i))
    requires InodeOf(sb, e, i).size == InodeOf(sb, d, i).size + |data|
    ensures Tails(sb, e)
  {
    hide State.Marked, State.Apart, State.MetaMarked, NoHoles, InodeOf, Sound, ByteAt, State.At;
    forall j | 0 <= j < sb.ninodes
      ensures Tail(OnDisk(sb, e, j), j, InodeOf(sb, e, j).size)
    {
      assert Tail(OnDisk(sb, d, j), j, InodeOf(sb, d, j).size);
      AnyLock(sb, d, i, j);
      AnyLock(sb, e, i, j);
    }
  }

  // ---------- an empty disk ----------

  /** Every inode block is zero. */
  ghost predicate NoInodes(sb: Super, d: Disk)
    requires Fits(sb, d)
  {
    forall x :: 2 <= x < sb.ninodes / IPB + 3 ==> d[x] == ZeroBlock()
  }

  lemma ZeroIsBlank(i: nat)
    ensures InodeIn(ZeroBlock(), i) == Blank()
  {
    forall s | 0 <= s <= NDIRECT
      ensures GetWord(ZeroBlock(), i % IPB * 64 + 12 + 4 * s) == 0
    {
    }
  }

  lemma BlankInodes(sb: Super, d: Disk, n: nat, i: nat)
    requires Fits(sb, d) && n <= sb.size && NoInodes(sb, d) && i < sb.ninodes
    ensures InodeOf(sb, MarkedUp(sb, d, n), i) == InodeOf(sb, d, i) == Blank()
  {
    hide InodeIn, MarkedUp;
    IBlockBelow(sb, d, i);
    MarkedPlain(sb, d, n, sb.IBlock(i));
    ZeroIsBlank(i);
  }

  /** With no inode in use and at least the blocks before the data region marked, ownership is sound, however many of
      the blocks that follow are marked. */
  lemma EmptyOk(sb: Super, d: Disk, n: nat, i: nat)
    requires Clean(sb, d, sb.DataStart()) && NoInodes(sb, d) && sb.DataStart() <= n <= sb.size && i < sb.ninodes
    ensures var st := OnDisk(sb, MarkedUp(sb, d, n), i);
            && st.Ok() && NoHoles(st, i, 0) && Tail(st, i, 0)
            && (forall b :: st.InUse(b) <==> 0 <= b < n)
  {
    hide InodeOf, MarkedUp, Used, Plain;
    var st := OnDisk(sb, MarkedUp(sb, d, n), i);
    forall j, t | st.Key(j, t)
      ensures st.At(j, t) == 0
    {
      BlankInodes(sb, d, n, i);
      BlankInodes(sb, d, n, j);
    }
    forall b
      ensures st.InUse(b) <==> 0 <= b < n
    {
      if 0 <= b < sb.size { MarkedUsed(sb, d, n, b); }
    }
    forall bn | 0 <= bn < MAXFILE
      ensures st.At(i, SlotOf(bn)) == 0
    {
      assert st.Key(i, SlotOf(bn));
    }
    assert st.Key(i, NDIRECT);
  }

  lemma {:induction false} NoCost(files: seq<seq<Byte>>)
    requires forall i :: 0 <= i < |files| ==> files[i] == []
    ensures TotalCost(files) == 0
    decreases |files|
  {
    if files != [] { NoCost(files[..|files| - 1]); }
  }

  lemma EmptyMade(sb: Super, d: Disk)
    requires Clean(sb, d, sb.DataStart()) && NoInodes(sb, d) && sb.ninodes > 0
    ensures Made(sb, d, sb.DataStart(), 1)
    ensures forall i :: 0 <= i < sb.ninodes ==> InodeOf(sb, MarkedUp(sb, d, sb.DataStart()), i) == Blank()
    ensures Files(sb, MarkedUp(sb, d, sb.DataStart())) == seq(sb.ninodes, i => [])
  {
    hide MarkedUp, InodeOf, NoHoles, State.Ok, State.Marked, State.Apart, State.MetaMarked, Tail, TotalCost, NoInodes;
    var n := sb.DataStart();
    var v := MarkedUp(sb, d, n);
    forall i | 0 <= i < sb.ninodes
      ensures FileSound(sb, v, i) && InodeOf(sb, v, i) == InodeOf(sb, d, i) == Blank() && Tail(OnDisk(sb, v, i), i, 0)
    {
      EmptyOk(sb, d, n, i);
      BlankInodes(sb, d, n, i);
    }
    forall i | 0 <= i < sb.ninodes
      ensures Files(sb, v)[i] == []
    {
      SizeFits(sb, v, i);
    }
    NoCost(Files(sb, v));
  }

  // ---------- the whole image ----------

  /** A file to put on the disk: its name on the command line and its bytes. */
  datatype Source = Source(name: seq<Byte>, data: seq<Byte>)

  const SLASH: Byte := 47
  const UNDERSCORE: Byte := 95
  const DOT: Byte := 46

  /** A name without its leading underscore. */
  function Stripped(name: seq<Byte>): seq<Byte> { if name != [] && name[0] == UNDERSCORE then name[1..] else name }

  /** `struct dirent`: the inode number and fourteen bytes of name, cut or filled up with zeros. */
  function Dirent(inum: Ushort, name: seq<Byte>): (e: seq<Byte>)
    ensures |e| == 16
  {
    [inum % 0x100, inum / 0x100]
    + seq<Byte>(DIRSIZ, p requires 0 <= p < DIRSIZ => if p < |name| then name[p] else 0)
  }

  /** The root directory's entries. */
  function Entries(fs: seq<Source>): (r: seq<Byte>)
    requires |fs| <= 0x1000
    ensures |r| == 16 * (|fs| + 2)
  {
    if fs == [] then Dirent(1, [DOT]) + Dirent(1, [DOT, DOT])
    else Entries(fs[..|fs| - 1]) + Dirent(|fs| + 1, Stripped(fs[|fs| - 1].name))
  }

  /** The files of the image by inode number: the root directory is 1, the others follow in order. */
  function Laid(ninodes: nat, fs: seq<Source>): (r: seq<seq<Byte>>)
    requires |fs| <= 0x1000
    ensures |r| == ninodes
  {
    seq<seq<Byte>>(ninodes, i requires 0 <= i < ninodes =>
      if i == 1 then Entries(fs) else if 2 <= i < |fs| + 2 then fs[i - 2].data else [])
  }

  /** The root directory's size is rounded up to the next multiple of a block, by a whole block if it is one already. */
  function RootSize(n: nat): (s: nat)
    ensures s > n
  {
    (n / BSIZE + 1) * BSIZE
  }

  /** The files of the finished image: the root directory is filled up with zeros. */
  function Finished(ninodes: nat, fs: seq<Source>): (r: seq<seq<Byte>>)
    requires |fs| <= 0x1000 && 2 <= ninodes
    ensures |r| == ninodes
  {
    Laid(ninodes, fs)[1 := Filled(Entries(fs))]
  }

  function Filled(c: seq<Byte>): (r: seq<Byte>)
    ensures |r| == RootSize(|c|)
  {
    c + seq<Byte>(RootSize(|c|) - |c|, k => 0)
  }

  /** Longer files take no fewer blocks. */
  lemma {:induction false} MoreCost(a: seq<seq<Byte>>, b: seq<seq<Byte>>)
    requires |a| == |b| && forall i :: 0 <= i < |a| ==> |a[i]| <= |b[i]|
    ensures TotalCost(a) <= TotalCost(b)
    decreases |a|
  {
    hide Cost;
    if a != [] {
      var n := |a| - 1;
      MoreCost(a[..n], b[..n]);
      CostGrows(|a[n]|, |b[n]|);
    }
  }

  /** The next piece of a file, told by the blocks that all files take together. */
  lemma PieceCost(files: seq<seq<Byte>>, i: nat, data: seq<Byte>, k: nat, m: nat)
    requires i < |files| && k + m <= |data| && files[i] == data[..k]
    ensures TotalCost(files) + Need(k, k + m) == TotalCost(files[i := data[..k + m]]) <= TotalCost(files[i := data])
  {
    hide TotalCost, Cost;
    CostUpdate(files, i, data[..k + m]);
    MoreCost(files[i := data[..k + m]], files[i := data]);
  }

  /** The image with one inode's size changed and nothing else. */
  lemma SizeOnly(sb: Super, d: Disk, i: nat, size: Uint)
    requires Sound(sb, d) && Tails(sb, d) && i < sb.ninodes && InodeOf(sb, d, i).size <= size <= MAXSIZE
    ensures var e := WithInode(sb, d, i, InodeOf(sb, d, i).(size := size));
            && InodeOf(sb, e, i) == InodeOf(sb, d, i).(size := size)
            && OnDisk(sb, e, i).Ok() && RoomOn(sb, e) == RoomOn(sb, d)
            && OthersKept(OnDisk(sb, d, i), OnDisk(sb, e, i))
            && NoHoles(OnDisk(sb, e, i), i, InodeOf(sb, d, i).size)
            && FileOf(sb, e, i) == Files(sb, d)[i] + seq<Byte>(size - InodeOf(sb, d, i).size, k => 0)
  {
    hide State.Marked, State.Apart, State.MetaMarked, NoHoles, InodeOf, Sound, OthersKept, WithInode, Files, ByteAt, Room;
    var di := InodeOf(sb, d, i);
    var st, e := OnDisk(sb, d, i), WithInode(sb, d, i, di.(size := size));
    FileAt(sb, d, i);
    SizeFits(sb, d, i);
    OthersSame(st);
    SyncedState(st, di.(size := size), di.size);
    SyncedOthers(st, st, OnDisk(sb, e, i));
    AnyLock(sb, d, 0, i);
    AnyLock(sb, e, 0, i);
    assert Tail(st, i, di.size);
    assert FileOf(sb, e, i) == FileOf(sb, d, i) + seq<Byte>(size - di.size, k => 0);
  }

  /** The rounded-up size leaves a hole exactly when the directory filled its last block. */
  lemma Rounded(st: State, i: nat, n: nat)
    requires st.Shape() && i < st.sb.ninodes && NoHoles(st, i, n) && RootSize(n) <= MAXSIZE
    ensures NoHoles(st, i, RootSize(n)) <==> n % BSIZE != 0
    ensures n % BSIZE != 0 ==> Cost(RootSize(n)) == Cost(n)
  {
    hide State.At;
    if n % BSIZE == 0 {
      assert Blocks(RootSize(n)) == n / BSIZE + 1 && Blocks(n) == n / BSIZE;
      assert st.At(i, SlotOf(Blocks(n))) == 0;
    } else {
      assert Blocks(RootSize(n)) == Blocks(n);
    }
  }

  function SuperBlock(sb: Super, nblocks: Uint): (b: Block)
    requires sb.Valid() && sb.ninodes < 0x1_0000_0000
  {
    PutWord(PutWord(PutWord(PutWord(ZeroBlock(), 0, sb.size), 4, nblocks), 8, sb.ninodes), 12, sb.nlog)
  }

  /** What readsb makes of the superblock. */
  function ReadSuper(b: Block): Super { Super(GetWord(b, 0), GetWord(b, 8), GetWord(b, 12)) }

  lemma SuperRoundTrip(sb: Super, nblocks: Uint)
    requires sb.Valid() && sb.ninodes < 0x1_0000_0000
    ensures ReadSuper(SuperBlock(sb, nblocks)) == sb
  {
    hide PutWord, GetWord;
    var a := ZeroBlock();
    var b := PutWord(a, 0, sb.size);
    var c := PutWord(b, 4, nblocks);
    var d := PutWord(c, 8, sb.ninodes);
    GetPutWord(a, 0, sb.size);
    PutWordFrame(b, 4, nblocks, 0);
    PutWordFrame(c, 8, sb.ninodes, 0);
    GetPutWord(c, 8, sb.ninodes);
    PutWordFrame(d, 12, sb.nlog, 0);
    PutWordFrame(d, 12, sb.nlog, 8);
    GetPutWord(d, 12, sb.nlog);
  }

  lemma LaidAt(ninodes: nat, fs: seq<Source>)
    requires |fs| <= 0x1000 && 2 <= ninodes
    ensures Laid(ninodes, fs)[1] == Entries(fs)
  {
  }

  /** One more file in the image, as a directory entry and as bytes. */
  lemma LaidMore(ninodes: nat, fs: seq<Source>, f: Source)
    requires |fs| < 0x1000 && |fs| + 2 < ninodes
    ensures Entries(fs + [f]) == Entries(fs) + Dirent(|fs| + 2, Stripped(f.name)) && Laid(ninodes, fs)[|fs| + 2] == []
    ensures Laid(ninodes, fs + [f]) == Laid(ninodes, fs)[1 := Entries(fs + [f])][|fs| + 2 := f.data]
  {
    hide Dirent, Stripped, Entries;
    EntriesMore(fs, f);
    var more, all := Laid(ninodes, fs)[1 := Entries(fs + [f])][|fs| + 2 := f.data], Laid(ninodes, fs + [f]);
    forall i | 0 <= i < ninodes
      ensures all[i] == more[i]
    {
    }
  }

  lemma EntriesMore(fs: seq<Source>, f: Source)
    requires |fs| < 0x1000
    ensures Entries(fs + [f]) == Entries(fs) + Dirent(|fs| + 2, Stripped(f.name))
  {
    hide Dirent, Stripped;
    assert (fs + [f])[..|fs|] == fs;
  }

  lemma LaidPrefix(ninodes: nat, fs: seq<Source>, n: nat)
    requires n <= |fs| <= 0x1000
    ensures TotalCost(Laid(ninodes, fs[..n])) <= TotalCost(Laid(ninodes, fs))
  {
    hide TotalCost, Entries;
    var a, b := Laid(ninodes, fs[..n]), Laid(ninodes, fs);
    forall i | 0 <= i < ninodes
      ensures |a[i]| <= |b[i]|
    {
      if i == 1 {
        assert |Entries(fs[..n])| == 16 * (n + 2) && |Entries(fs)| == 16 * (|fs| + 2);
      } else if 2 <= i < n + 2 {
        assert fs[..n][i - 2] == fs[i - 2];
      } else {
        assert a[i] == [];
      }
    }
    MoreCost(a, b);
  }

  lemma LaidCost(ninodes: nat, fs: seq<Source>, f: Source)
    requires |fs| < 0x1000 && |fs| + 2 < ninodes
    ensures var files, dir := Laid(ninodes, fs), Entries(fs + [f]);
            && TotalCost(files) + Need(|Entries(fs)|, |Entries(fs)| + 16) == TotalCost(files[1 := dir])
            && TotalCost(files[1 := dir]) <= TotalCost(Laid(ninodes, fs + [f]))
  {
    hide TotalCost, Cost, Laid, Entries;
    LaidAt(ninodes, fs);
    LaidMore(ninodes, fs, f);
    CostUpdate(Laid(ninodes, fs), 1, Entries(fs + [f]));
    MoreCost(Laid(ninodes, fs)[1 := Entries(fs + [f])], Laid(ninodes, fs + [f]));
  }

  /** The blocks that the files on the command line take, without the directory. */
  function SumCost(fs: seq<Source>): nat {
    if fs == [] then 0 else SumCost(fs[..|fs| - 1]) + Cost(|fs[|fs| - 1].data|)
  }

  /** What an image costs: the directory by its length, and every file by its own. */
  lemma {:induction false} LaidTotal(ninodes: nat, fs: seq<Source>)
    requires |fs| <= 0x1000 && |fs| + 2 <= ninodes
    ensures TotalCost(Laid(ninodes, fs)) == Cost(16 * (|fs| + 2)) + SumCost(fs)
    decreases |fs|
  {
    hide TotalCost, Cost, Laid, Entries;
    CostOfNothing();
    if fs == [] {
      var none := seq<seq<Byte>>(ninodes, i => []);
      NoCost(none);
      LaidEmpty(ninodes, none);
      CostUpdate(none, 1, Entries([]));
    } else {
      var front, f := fs[..|fs| - 1], fs[|fs| - 1];
      assert fs == front + [f];
      LaidTotal(ninodes, front);
      LaidMore(ninodes, front, f);
      LaidCost(ninodes, front, f);
      var files := Laid(ninodes, front)[1 := Entries(fs)];
      CostUpdate(files, |front| + 2, f.data);
    }
  }

  lemma CostOfNothing()
    ensures Cost(0) == 0
  {
  }

  lemma LaidEmpty(ninodes: nat, none: seq<seq<Byte>>)
    requires 2 <= ninodes && none == seq<seq<Byte>>(ninodes, i => [])
    ensures Laid(ninodes, []) == none[1 := Entries([])]
  {
    hide Entries;
  }

  // ---------- names in the root directory ----------

  /** The name of entry `k`: two for the directory itself, then the files in order. */
  function NameAt(fs: seq<Source>, k: nat): seq<Byte>
    requires k < |fs| + 2
  {
    if k == 0 then [DOT] else if k == 1 then [DOT, DOT] else Stripped(fs[k - 2].name)
  }

  lemma DirentFields(inum: Ushort, name: seq<Byte>)
    ensures var e := Dirent(inum, name);
            EntryInum(e, 0) == inum && EntryName(e, 0) == NameOf(name)
  {
    var e, r := Dirent(inum, name), NameOf(name);
    var field := e[2..16];
    assert forall p :: 0 <= p < DIRSIZ ==> field[p] == if p < |name| then name[p] else 0;
    NameIs(field, r);
  }

  /** An entry is the same in a directory that goes on, and in the part of it that starts there. */
  lemma EntryShift(a: seq<Byte>, e: seq<Byte>, b: seq<Byte>, k: nat)
    requires |a| == 16 * k && |e| == 16
    ensures var dir := a + e + b;
            Whole(dir, k) && EntryInum(dir, k) == EntryInum(e, 0) && EntryName(dir, k) == EntryName(e, 0)
  {
    hide NameOf;
    var dir := a + e + b;
    assert dir[16 * k..16 * k + 16] == e;
    assert dir[16 * k + 2..16 * k + 16] == e[2..16];
  }

  lemma EntryPrefix(a: seq<Byte>, b: seq<Byte>, k: nat)
    requires Whole(a, k)
    ensures Whole(a + b, k) && EntryInum(a + b, k) == EntryInum(a, k) && EntryName(a + b, k) == EntryName(a, k)
  {
    hide NameOf;
    assert (a + b)[16 * k + 2..16 * k + 16] == a[16 * k + 2..16 * k + 16];
  }

  /** What the entries say: each name with the number of its inode. */
  lemma {:induction false} EntryOf(fs: seq<Source>, k: nat)
    requires |fs| <= 0x1000 && k < |fs| + 2
    ensures var dir := Entries(fs);
            && Whole(dir, k) && EntryInum(dir, k) == (if k < 2 then 1 else k)
            && EntryName(dir, k) == NameOf(NameAt(fs, k))
    decreases |fs|
  {
    hide NameOf, EntryInum, EntryName, Dirent, Stripped;
    if fs == [] {
      var a, b := Dirent(1, [DOT]), Dirent(1, [DOT, DOT]);
      DirentFields(1, [DOT]);
      DirentFields(1, [DOT, DOT]);
      EntryShift([], a, b, 0);
      EntryShift(a, b, [], 1);
      assert [] + a + b == a + b == a + b + [];
    } else {
      var n := |fs| - 1;
      var front, e := Entries(fs[..n]), Dirent(n + 2, Stripped(fs[n].name));
      if k == n + 2 {
        DirentFields(n + 2, Stripped(fs[n].name));
        EntryShift(front, e, [], k);
        assert front + e + [] == front + e;
      } else {
        EntryOf(fs[..n], k);
        EntryPrefix(front, e, k);
      }
    }
  }

  /** In the finished directory exactly the entries of that name match: none of the zeros behind them does. */
  lemma RootMatches(fs: seq<Source>, k: nat, name: seq<Byte>)
    requires |fs| <= 0x1000 && Whole(Filled(Entries(fs)), k)
    ensures Matching(Filled(Entries(fs)), k, name) <==> k < |fs| + 2 && NameOf(NameAt(fs, k)) == NameOf(name)
  {
    hide NameOf, EntryName, Entries, RootSize;
    var c := Entries(fs);
    if k < |fs| + 2 {
      EntryOf(fs, k);
      EntryPrefix(c, Filled(c)[|c|..], k);
      assert Filled(c) == c + Filled(c)[|c|..];
    } else {
      assert Filled(c)[16 * k] == 0 && Filled(c)[16 * k + 1] == 0;
    }
  }

  /** No entry before that of file `i` has its name, in the fourteen characters that count. */
  predicate Named(fs: seq<Source>, i: nat)
    requires i < |fs|
  {
    forall k :: 0 <= k < i + 2 ==> NameOf(NameAt(fs, k)) != NameOf(Stripped(fs[i].name))
  }

  /** Looking for the name of a file finds an entry, and it is the file's own exactly when the name is its alone up to
      there. */
  lemma FoundInRoot(fs: seq<Source>, i: nat, r: Found)
    requires |fs| <= 0x1000 && i < |fs| && !r.NotDir? && !r.Halted? && Answers(Filled(Entries(fs)), Stripped(fs[i].name), r)
    ensures r.At? && r.off % 16 == 0 && r.off <= 16 * (i + 2)
    ensures r.inum == if r.off < 32 then 1 else r.off / 16
    ensures NameOf(NameAt(fs, r.off / 16)) == NameOf(Stripped(fs[i].name))
    ensures r == At(i + 2, 16 * (i + 2)) <==> Named(fs, i)
  {
    hide NameOf, EntryName, EntryInum, Entries, RootSize, Matching, Filled, Stripped, Named;
    var dir, name := Filled(Entries(fs)), Stripped(fs[i].name);
    RootHolds(fs);
    RootMatches(fs, i + 2, name);
    assert Whole(dir, i + 2) && i + 2 < |dir| / 16;
    if r.At? {
      var k := r.off / 16;
      RootMatches(fs, k, name);
      RootInum(fs, k);
      FirstNamed(fs, i, k);
    }
  }

  lemma NameOfFile(fs: seq<Source>, i: nat)
    requires i < |fs|
    ensures NameAt(fs, i + 2) == Stripped(fs[i].name)
  {
  }

  lemma FirstNamed(fs: seq<Source>, i: nat, k: nat)
    requires |fs| <= 0x1000 && i < |fs| && k < |fs| + 2 && NameOf(NameAt(fs, k)) == NameOf(Stripped(fs[i].name))
    requires NoMatch(Filled(Entries(fs)), k, Stripped(fs[i].name))
    ensures k <= i + 2 && (k == i + 2 <==> Named(fs, i))
  {
    hide NameOf, NameAt, Entries, RootSize, Matching, EntryInum, EntryName, Filled, Stripped;
    var dir, name := Filled(Entries(fs)), Stripped(fs[i].name);
    RootHolds(fs);
    RootMatches(fs, i + 2, name);
    NameOfFile(fs, i);
    forall j: nat | j < k
      ensures NameOf(NameAt(fs, j)) != NameOf(name)
    {
      assert Whole(dir, j) && !Matching(dir, j, name);
      RootMatches(fs, j, name);
    }
  }

  lemma RootHolds(fs: seq<Source>)
    requires |fs| <= 0x1000
    ensures forall k :: 0 <= k < |fs| + 2 ==> Whole(Filled(Entries(fs)), k)
  {
  }

  lemma RootInum(fs: seq<Source>, k: nat)
    requires |fs| <= 0x1000 && k < |fs| + 2
    ensures Whole(Filled(Entries(fs)), k) && EntryInum(Filled(Entries(fs)), k) == if k < 2 then 1 else k
  {
    hide NameOf, EntryInum, Entries, RootSize;
    var c := Entries(fs);
    EntryOf(fs, k);
    EntryPrefix(c, Filled(c)[|c|..], k);
    assert Filled(c) == c + Filled(c)[|c|..];
  }
}
