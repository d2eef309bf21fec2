/** tools/mkfs.c: the disk image a system starts from. */
module Mkfs {
  import opened Words
  import opened FsLayout
  import opened FsSpec
  import opened FileSpec
  import opened FsSteps
  import opened Volume
  import opened MkfsSpec
  import opened Dir
  import F = Fs
  import opened Transactions
  import opened Session
  import A = Acts

  const T_FILE := 2

  const ROOTINO := 1

  /** What mkfs is compiled with. */
  const SB := Super(1024, 200, 10)
  const NBLOCKS := 985

  /** `TooLarge` is a failed assertion on the block number; `Overrun` stands for a block handed out beyond the data
      region, which nothing stops. */
  datatype Outcome = Done | TooLarge | Overrun

  /** The image file and the formatter's counters. */
  class Image {
    const sb: Super
    var disk: Disk
    var freeblock: nat
    var usedblocks: nat
    var freeinode: nat

    constructor (sb: Super, disk: Disk)
      ensures this.sb == sb && this.disk == disk && freeblock == usedblocks == sb.DataStart() && freeinode == 1
    {
      this.sb, this.disk := sb, disk;
      usedblocks := sb.ninodes / IPB + 3 + sb.size / BPB + 1;
      freeblock := sb.ninodes / IPB + 3 + sb.size / BPB + 1;
      freeinode := 1;
    }

    /** The disk as it will be when the free map has been written. */
    ghost function View(): Disk
      reads this
      requires Clean(sb, disk, freeblock)
    {
      MarkedUp(sb, disk, freeblock)
    }

    ghost predicate Counting()
      reads this
    {
      Clean(sb, disk, freeblock) && usedblocks == freeblock
    }

    ghost predicate Valid()
      reads this
    {
      Made(sb, disk, freeblock, freeinode) && usedblocks == freeblock && 1 <= freeinode
    }

    /** The state with the inode `me` in hand, its block list `mine` not yet written back. */
    ghost function St(me: nat, mine: seq<Uint>): State
      reads this
      requires Counting()
    {
      Work(sb, disk, freeblock, me, mine)
    }

    /** The contents of all files. */
    ghost function Contents(): (files: seq<seq<Byte>>)
      reads this
      requires Valid()
      ensures |files| == sb.ninodes
    {
      Files(sb, View())
    }

    /** A fresh block for an empty slot: one of the inode's own, or an entry of its indirect block. */
    method Grow(ghost me: nat, mine: seq<Uint>, s: nat) returns (addrs: seq<Uint>, ok: bool)
      requires Counting() && St(me, mine).Ok() && s < NSLOT && St(me, mine).At(me, s) == 0
      requires s > NDIRECT ==> mine[NDIRECT] != 0
      modifies this
      ensures ok <==> old(freeblock) < sb.LogStart()
      ensures freeinode == old(freeinode)
      ensures ok ==>
        && Counting() && disk[1] == old(disk[1]) && freeblock == old(freeblock) + 1
        && Extended(old(St(me, mine)), St(me, addrs), {s}) && St(me, addrs).At(me, s) == old(freeblock)
    {
      hide State.Marked, State.Apart, State.MetaMarked, Extended, MarkedUp, Plain, State.At, PutWord;
      addrs := mine;
      if freeblock >= sb.LogStart() {
        return addrs, false;
      }
      GrowView(sb, disk, freeblock, me, mine, s);
      if s <= NDIRECT {
        addrs := mine[s := freeblock];
      } else {
        disk := disk[mine[NDIRECT] := PutWord(disk[mine[NDIRECT]], 4 * (s - NDIRECT - 1), freeblock)];
      }
      freeblock := freeblock + 1;
      usedblocks := usedblocks + 1;
      ok := true;
    }

    /** The disk block of the file's block `bn`, given out if there is none. */
    method MapBlock(ghost me: nat, mine: seq<Uint>, bn: nat) returns (x: nat, addrs: seq<Uint>, ok: bool)
      requires Counting() && St(me, mine).Ok() && bn < MAXFILE
      modifies this
      ensures ok <==> old(freeblock + Missing(St(me, mine), bn)) <= sb.LogStart()
      ensures freeinode == old(freeinode)
      ensures ok ==>
        && Counting() && disk[1] == old(disk[1]) && freeblock == old(freeblock + Missing(St(me, mine), bn))
        && Extended(old(St(me, mine)), St(me, addrs), SlotsFor(bn))
        && x == St(me, addrs).At(me, SlotOf(bn)) != 0
        && (bn >= NDIRECT ==> addrs[NDIRECT] != 0)
    {
      hide State.Marked, State.Apart, State.MetaMarked;
      hide State.Ok, Extended, MarkedUp, Plain;
      ghost var st := St(me, mine);
      OkShape(st);
      ExtendedNone(st, SlotsFor(bn));
      x, addrs, ok := 0, mine, true;
      if bn < NDIRECT {
        if addrs[bn] == 0 {
          addrs, ok := Grow(me, addrs, bn);
          if !ok {
            return;
          }
          ExtendedOk(st, St(me, addrs), {bn as int});
        }
        x := addrs[bn];
        return;
      }
      ExtendedNone(st, {NDIRECT});
      IndirectSlot(st, me);
      if addrs[NDIRECT] == 0 {
        addrs, ok := Grow(me, addrs, NDIRECT);
        if !ok {
          return;
        }
      }
      ghost var mid := St(me, addrs);
      ExtendedOk(st, mid, {NDIRECT});
      EntryKept(st, mid, bn);
      IndirectSlot(mid, me);
      x, addrs, ok := MapEntry(me, addrs, bn - NDIRECT);
      if ok {
        ExtendedOk(mid, St(me, addrs), {bn + 1});
        IndirectKept(mid, St(me, addrs), {bn + 1});
        ExtendedTwice(st, mid, St(me, addrs), {NDIRECT}, {bn + 1});
        assert {NDIRECT} + {bn + 1} == SlotsFor(bn);
      }
    }

    /** An entry of the indirect block. */
    method MapEntry(ghost me: nat, mine: seq<Uint>, j: nat) returns (x: nat, addrs: seq<Uint>, ok: bool)
      requires Counting() && St(me, mine).Ok() && j < NINDIRECT && mine[NDIRECT] != 0
      modifies this
      ensures ok <==> old(St(me, mine).At(me, NDIRECT + 1 + j)) != 0 || old(freeblock) < sb.LogStart()
      ensures freeinode == old(freeinode)
      ensures ok ==>
        && Counting() && disk[1] == old(disk[1])
        && freeblock == old(freeblock + if St(me, mine).At(me, NDIRECT + 1 + j) == 0 then 1 else 0)
        && Extended(old(St(me, mine)), St(me, addrs), {NDIRECT + 1 + j})
        && x == St(me, addrs).At(me, NDIRECT + 1 + j) != 0 && addrs[NDIRECT] != 0
    {
      hide State.Marked, State.Apart, State.MetaMarked;
      hide State.Ok, Extended, MarkedUp, Plain;
      ghost var st := St(me, mine);
      OkShape(st);
      IndirectSlot(st, me);
      Handed(sb, disk, freeblock, me, mine, NDIRECT);
      addrs, ok := mine, true;
      x := GetWord(disk[mine[NDIRECT]], 4 * j);
      if x == 0 {
        x := freeblock;
        addrs, ok := Grow(me, mine, NDIRECT + 1 + j);
        if ok {
          IndirectKept(st, St(me, addrs), {NDIRECT + 1 + j});
        }
      } else {
        ExtendedNone(st, {NDIRECT + 1 + j});
      }
    }

    /** One round of iappend's loop. `st0`, `off0` and `src` are its beginning and what it has stored so far. */
    method AppendRound(ghost me: nat, mine: seq<Uint>, off: nat, piece: seq<Byte>, ghost st0: State, ghost off0: nat,
        ghost src: seq<Byte>)
        returns (addrs: seq<Uint>, ok: bool)
      requires Counting() && Written(st0, St(me, mine), off0, src) && off == off0 + |src|
      requires 0 < |piece| && off % BSIZE + |piece| <= BSIZE && off + |piece| <= MAXSIZE
      requires St(me, mine).Shape() && NoHoles(St(me, mine), me, off)
      modifies this
      ensures ok <==> old(freeblock) + Cost(off + |piece|) - Cost(off) <= sb.LogStart()
      ensures freeinode == old(freeinode)
      ensures ok ==>
        && Counting() && disk[1] == old(disk[1]) && freeblock == old(freeblock) + Cost(off + |piece|) - Cost(off)
        && Written(st0, St(me, addrs), off0, src + piece)
        && St(me, addrs).Shape() && NoHoles(St(me, addrs), me, off + |piece|)
    {
      hide State.Marked, State.Apart, State.MetaMarked;
      hide Written, Extended, NoHoles, State.Ok, Splice, Missing, Cost, MarkedUp, Plain, Touched, Room;
      ghost var st := St(me, mine);
      WrittenOk(st0, st, off0, src);
      MissingIsNeed(st, 0, off, |piece|);
      var bn := off / BSIZE;
      var x;
      x, addrs, ok := MapBlock(me, mine, bn);
      if !ok {
        return;
      }
      ghost var mid := St(me, addrs);
      ExtendedOk(st, mid, SlotsFor(bn));
      IndirectSlot(mid, me);
      WrittenThenExtended(st0, st, mid, off0, src, SlotsFor(bn));
      MappedStep(st, mid, 0, off, |piece|);
      WrittenStep(st0, mid, off0, src, piece, bn);
      Handed(sb, disk, freeblock, me, addrs, SlotOf(bn));
      var blk := Splice(disk[x], off % BSIZE, piece);
      DataWriteNoHoles(mid, bn, blk, off + |piece|, 0, 0);
      Store(sb, disk, freeblock, x, blk);
      disk := disk[x := blk];
    }

    /** The loop of iappend. */
    method AppendLoop(ghost me: nat, mine: seq<Uint>, off: nat, data: seq<Byte>)
        returns (addrs: seq<Uint>, r: Outcome)
      requires Counting() && St(me, mine).Ok() && off <= MAXSIZE && NoHoles(St(me, mine), me, off)
      modifies this
      ensures r.Overrun? <==> old(freeblock) + Need(off, Least(off + |data|, MAXSIZE)) > sb.LogStart()
      ensures r.TooLarge? <==> !r.Overrun? && off + |data| > MAXSIZE
      ensures freeinode == old(freeinode)
      ensures r.Done? ==>
        && Counting() && disk[1] == old(disk[1]) && freeblock == old(freeblock) + Need(off, off + |data|)
        && Written(old(St(me, mine)), St(me, addrs), off, data)
        && St(me, addrs).Shape() && NoHoles(St(me, addrs), me, off + |data|)
    {
      hide State.Marked, State.Apart, State.MetaMarked;
      hide Written, NoHoles, State.Ok, Cost, MarkedUp, Plain;
      ghost var st0 := St(me, mine);
      WrittenNone(st0, off);
      OkShape(st0);
      addrs := mine;
      var tot := 0;
      assert data[..0] == [];
      while tot < |data|
        invariant 0 <= tot <= |data| && off + tot <= MAXSIZE
        invariant Counting() && disk[1] == old(disk[1]) && freeinode == old(freeinode)
        invariant freeblock == old(freeblock) + Cost(off + tot) - Cost(off)
        invariant Written(st0, St(me, addrs), off, data[..tot])
        invariant St(me, addrs).Shape() && NoHoles(St(me, addrs), me, off + tot)
      {
        var cur := off + tot;
        CostGrows(cur, Least(off + |data|, MAXSIZE));
        if cur / BSIZE >= MAXFILE {
          return addrs, TooLarge;
        }
        var m := if |data| - tot < (cur / BSIZE + 1) * BSIZE - cur then |data| - tot else (cur / BSIZE + 1) * BSIZE - cur;
        CostGrows(cur + m, Least(off + |data|, MAXSIZE));
        var ok;
        addrs, ok := AppendRound(me, addrs, cur, data[tot..tot + m], st0, off, data[..tot]);
        if !ok {
          return addrs, Overrun;
        }
        assert data[..tot] + data[tot..tot + m] == data[..tot + m];
        tot := tot + m;
      }
      assert data[..|data|] == data;
      r := Done;
    }

    /** Add `data` at the end of a file. */
    method Iappend(inum: nat, data: seq<Byte>) returns (r: Outcome)
      requires Valid() && inum < freeinode <= sb.ninodes
      modifies this
      ensures var size := old(|Contents()[inum]|);
              && (r.Overrun? <==> old(freeblock) + Need(size, Least(size + |data|, MAXSIZE)) > sb.LogStart())
              && (r.TooLarge? <==> !r.Overrun? && size + |data| > MAXSIZE)
      ensures freeinode == old(freeinode)
      ensures r.Done? ==>
        && Valid() && disk[1] == old(disk[1])
        && Contents() == old(Contents())[inum := old(Contents())[inum] + data]
        && SameTypes(sb, old(View()), View())
    {
      hide State.Marked, State.Apart, State.MetaMarked;
      hide Written, NoHoles, State.Ok, Cost, MarkedUp, Plain, Sound, Tails, TotalCost, InodeOf, Files, WithInode;
      ghost var v, files := View(), Contents();
      FileAt(sb, v, inum);
      SizeFits(sb, v, inum);
      var din := InodeOf(sb, disk, inum);
      InodeView(sb, disk, freeblock, inum, din);
      var addrs;
      addrs, r := AppendLoop(inum, din.addrs, din.size, data);
      if !r.Done? {
        return;
      }
      ghost var st := St(inum, addrs);
      din := din.(size := din.size + |data|, addrs := addrs);
      Appended(sb, v, st, inum, data, din);
      InodeView(sb, disk, freeblock, inum, din);
      CostUpdate(files, inum, files[inum] + data);
      disk := WithInode(sb, disk, inum, din);
    }

    /** Give out the next inode; false stands for an inode number beyond the table, which nothing stops. */
    method Ialloc(typ: Ushort) returns (inum: nat, ok: bool)
      requires Valid()
      modifies this
      ensures inum == old(freeinode) && (ok <==> inum < sb.ninodes)
      ensures !ok ==> disk == old(disk)
      ensures ok ==>
        && Valid() && disk[1] == old(disk[1]) && freeinode == inum + 1 && Contents() == old(Contents())
        && InodeOf(sb, View(), inum).typ == typ
        && (forall i :: 0 <= i < sb.ninodes && i != inum ==> InodeOf(sb, View(), i) == InodeOf(sb, old(View()), i))
    {
      hide State.Marked, State.Apart, State.MetaMarked;
      hide Written, NoHoles, State.Ok, Cost, MarkedUp, Plain, Sound, Tails, TotalCost, InodeOf, Files, WithInode;
      inum, ok := freeinode, freeinode < sb.ninodes;
      if !ok {
        return;
      }
      ghost var v, files := View(), Contents();
      SizeFits(sb, v, inum);
      var din := Dinode(typ, 0, 0, 1, 0, seq(NDIRECT + 1, k => 0));
      WrittenNone(OnDisk(sb, v, inum), 0);
      Appended(sb, v, OnDisk(sb, v, inum), inum, [], din);
      assert files[inum] + [] == files[inum] && files[inum := files[inum]] == files;
      InodeView(sb, disk, freeblock, inum, din);
      disk := WithInode(sb, disk, inum, din);
      freeinode := freeinode + 1;
    }

    /** The free map: one block, with a bit for every block given out. */
    method Balloc() returns (ok: bool)
      requires Counting()
      modifies this`disk
      ensures ok <==> usedblocks < BPB
      ensures ok ==> disk == old(View())
      ensures !ok ==> disk == old(disk)
    {
      hide PutByteBit, Used;
      if usedblocks >= BPB {
        return false;
      }
      var at := sb.ninodes / IPB + 3;
      var buf := ZeroBlock();
      BBlockBelow(sb, disk, 0);
      assert disk[at := buf] == disk;
      var i := 0;
      while i < usedblocks
        invariant 0 <= i <= usedblocks && disk == old(disk)
        invariant disk[at := buf] == MarkedUp(sb, disk, i)
      {
        BBlockBelow(sb, disk, i);
        assert MarkedUp(sb, disk, i)[at] == buf;
        buf := buf[i / 8 := PutByteBit(buf[i / 8], i % 8, true)];
        i := i + 1;
      }
      disk := disk[at := buf];
      ok := true;
    }
  }

  /** Inode 1 is a directory, those after it up to `k` are files, the rest are free. */
  ghost predicate Typed(sb: Super, d: Disk, k: nat)
    requires Fits(sb, d)
  {
    forall i :: 0 <= i < sb.ninodes ==>
      InodeOf(sb, d, i).typ == if i == 1 then T_DIR else if 2 <= i < k then T_FILE else 0
  }

  /** The image holds the files `fs` and nothing else. */
  ghost predicate Holding(img: Image, fs: seq<Source>)
    reads img
  {
    && img.sb == SB && |fs| <= 198 && img.Valid() && img.freeinode == |fs| + 2
    && img.disk[1] == SuperBlock(SB, NBLOCKS) && Typed(SB, img.View(), |fs| + 2)
    && img.Contents() == Laid(SB.ninodes, fs)
  }

  /** What the formatter asks of a file, and of the command line. */
  predicate Storable(f: Source) { SLASH !in f.name && |f.data| <= MAXSIZE }

  ghost predicate Fitting(fs: seq<Source>) {
    |fs| <= 198 && TotalCost(Laid(SB.ninodes, fs)) <= Capacity(SB)
  }

  /** A new image: every block zero but the superblock. */
  method Create(sb: Super, nblocks: Uint) returns (img: Image)
    requires sb.Valid() && 0 < sb.ninodes < 0x1_0000_0000
    ensures fresh(img) && img.sb == sb && img.Valid() && img.freeinode == 1 && img.disk[1] == SuperBlock(sb, nblocks)
    ensures img.Contents() == seq(sb.ninodes, i => [])
    ensures forall i :: 0 <= i < sb.ninodes ==> InodeOf(sb, img.View(), i).typ == 0
  {
    hide Sound, Tails, TotalCost, InodeOf, Files, MarkedUp, SuperBlock;
    var d: Disk := [];
    while |d| < sb.size
      invariant |d| <= sb.size && forall x :: 0 <= x < |d| ==> d[x] == ZeroBlock()
    {
      d := d + [ZeroBlock()];
    }
    d := d[1 := SuperBlock(sb, nblocks)];
    EmptyMade(sb, d);
    img := new Image(sb, d);
  }

  /** Put the bytes of a file into its inode, a bufferful at a time. */
  method Fill(img: Image, inum: nat, data: seq<Byte>) returns (ok: bool)
    requires img.Valid() && inum < img.freeinode <= img.sb.ninodes && img.Contents()[inum] == []
    modifies img
    ensures ok <==> |data| <= MAXSIZE && TotalCost(old(img.Contents())[inum := data]) <= Capacity(img.sb)
    ensures img.freeinode == old(img.freeinode)
    ensures ok ==>
      && img.Valid() && img.disk[1] == old(img.disk[1]) && img.Contents() == old(img.Contents())[inum := data]
      && SameTypes(img.sb, old(img.View()), img.View())
  {
    hide Sound, Tails, TotalCost, InodeOf, Files, Cost, Plain, MarkedUp;
    ghost var files, v := img.Contents(), img.View();
    var k := 0;
    assert files[inum := data[..0]] == files;
    while k < |data|
      invariant 0 <= k <= |data| && k <= MAXSIZE && img.freeinode == old(img.freeinode)
      invariant img.Valid() && img.disk[1] == old(img.disk[1]) && img.Contents() == files[inum := data[..k]]
      invariant SameTypes(img.sb, v, img.View())
    {
      assert files[inum := data[..k]][inum := data] == files[inum := data];
      var cc := if |data| - k < BSIZE then |data| - k else BSIZE;
      ghost var before := img.Contents();
      PieceCost(before, inum, data, k, cc);
      var r := img.Iappend(inum, data[k..k + cc]);
      if !r.Done? {
        return false;
      }
      assert data[..k] + data[k..k + cc] == data[..k + cc];
      k := k + cc;
    }
    assert data[..k] == data;
    ok := true;
  }

  /** A file from the command line. It is refused exactly when its name has a slash, it is larger than a file can be, or
      the inodes or the blocks do not suffice. */
  method AddFile(img: Image, f: Source, ghost fs: seq<Source>) returns (ok: bool)
    requires Holding(img, fs)
    modifies img
    ensures ok <==> Storable(f) && Fitting(fs + [f])
    ensures ok ==> Holding(img, fs + [f])
  {
    hide Sound, Tails, TotalCost, InodeOf, Files, Cost, Plain, MarkedUp, Laid, Entries, Dirent, SuperBlock;
    if SLASH in f.name {
      return false;
    }
    var inum;
    inum, ok := img.Ialloc(T_FILE);
    if !ok {
      return;
    }
    LaidMore(SB.ninodes, fs, f);
    LaidCost(SB.ninodes, fs, f);
    ghost var files := img.Contents();
    assert files[1] == Entries(fs) by { LaidAt(SB.ninodes, fs); }
    var r := img.Iappend(ROOTINO, Dirent(inum, Stripped(f.name)));
    if !r.Done? {
      return false;
    }
    ok := Fill(img, inum, f.data);
  }

  /** The root directory with its two entries. */
  method MakeRoot() returns (img: Image)
    ensures fresh(img) && Holding(img, [])
  {
    hide Sound, Tails, TotalCost, InodeOf, Files, Cost, Plain, MarkedUp, Dirent, SuperBlock;
    img := Create(SB, NBLOCKS);
    var root, ok := img.Ialloc(T_DIR);
    ghost var none := img.Contents();
    RootCost(none);
    var r := img.Iappend(root, Dirent(root, [DOT]));
    r := img.Iappend(root, Dirent(root, [DOT, DOT]));
    LaidNone(none, Dirent(root, [DOT]), Dirent(root, [DOT, DOT]));
  }

  lemma LaidNone(none: seq<seq<Byte>>, a: seq<Byte>, b: seq<Byte>)
    requires none == seq(SB.ninodes, i => []) && a == Dirent(1, [DOT]) && b == Dirent(1, [DOT, DOT])
    ensures none[1 := none[1] + a][1 := none[1 := none[1] + a][1] + b] == Laid(SB.ninodes, [])
  {
    hide Dirent;
    assert none[1] + a + b == Entries([]);
  }

  /** With no files there is room for the first two entries. */
  lemma RootCost(none: seq<seq<Byte>>)
    requires none == seq(SB.ninodes, i => [])
    ensures TotalCost(none) == 0 && Need(0, 16) == 1 && Need(16, 32) == 0
    ensures forall c: seq<Byte> :: |c| == 16 ==> TotalCost(none[1 := c]) == 1
  {
    NoCost(none);
    forall c: seq<Byte> | |c| == 16
      ensures TotalCost(none[1 := c]) == 1
    {
      CostUpdate(none, 1, c);
    }
  }

  /** The size of the root directory is rounded up. */
  method FixRoot(img: Image, ghost fs: seq<Source>)
    requires Holding(img, fs)
    modifies img`disk
    ensures img.Counting() && img.disk[1] == old(img.disk[1]) && Typed(SB, img.View(), |fs| + 2)
    ensures Contains(img.View(), Finished(SB.ninodes, fs))
    ensures Sound(SB, img.View()) <==> (|fs| + 2) % 32 != 0
    ensures Sound(SB, img.View()) ==> Balanced(SB, img.View()) && Files(SB, img.View()) == Finished(SB.ninodes, fs)
    ensures RootOk(img.View(), 16 * (|fs| + 2))
  {
    hide Sound, Tails, TotalCost, InodeOf, Files, Cost, Plain, MarkedUp, SuperBlock, WithInode, Laid, Entries;
    ghost var v := img.View();
    var din := InodeOf(SB, img.disk, ROOTINO);
    var off := (din.size / BSIZE + 1) * BSIZE;
    LaidAt(SB.ninodes, fs);
    FileAt(SB, v, ROOTINO);
    InodeView(SB, img.disk, img.freeblock, ROOTINO, din);
    InodeView(SB, img.disk, img.freeblock, ROOTINO, din.(size := off));
    MadeBalanced(SB, img.disk, img.freeblock, img.freeinode);
    RootFixed(v, fs, off);
    img.disk := WithInode(SB, img.disk, ROOTINO, din.(size := off));
  }

  /** The root directory owns its blocks, and exactly those of its first `n` bytes. */
  ghost predicate RootOk(d: Disk, n: nat)
    requires Fits(SB, d)
  {
    OnDisk(SB, d, ROOTINO).Ok() && NoHoles(OnDisk(SB, d, ROOTINO), ROOTINO, n)
  }

  /** The bytes of every file on the disk. */
  ghost predicate Contains(d: Disk, files: seq<seq<Byte>>)
    requires Fits(SB, d)
  {
    && |files| == SB.ninodes
    && forall i :: 0 <= i < SB.ninodes ==> InodeOf(SB, d, i).size <= MAXSIZE && FileOf(SB, d, i) == files[i]
  }

  lemma RootFixed(v: Disk, fs: seq<Source>, off: Uint)
    requires Balanced(SB, v) && Tails(SB, v) && |fs| <= 198 && Files(SB, v) == Laid(SB.ninodes, fs)
    requires off == RootSize(|Entries(fs)|)
    ensures var e := WithInode(SB, v, ROOTINO, InodeOf(SB, v, ROOTINO).(size := off));
            && Contains(e, Finished(SB.ninodes, fs)) && (forall k :: Typed(SB, v, k) ==> Typed(SB, e, k))
            && (Sound(SB, e) <==> (|fs| + 2) % 32 != 0)
            && (Sound(SB, e) ==> Balanced(SB, e) && Files(SB, e) == Finished(SB.ninodes, fs))
            && RootOk(e, 16 * (|fs| + 2))
  {
    hide Tails, TotalCost, InodeOf, Files, Cost, WithInode, Laid, Entries, Content, NoHoles, OthersKept;
    hide State.Ok, State.Marked, State.Apart, State.MetaMarked, RoomOn;
    var i, n := ROOTINO, |Entries(fs)|;
    var e := WithInode(SB, v, i, InodeOf(SB, v, i).(size := off));
    LaidAt(SB.ninodes, fs);
    FileAt(SB, v, i);
    SizeOnly(SB, v, i, off);
    forall j | 0 <= j < SB.ninodes && j != i
      ensures InodeOf(SB, e, j) == InodeOf(SB, v, j) && InodeOf(SB, e, j).size <= MAXSIZE && FileSound(SB, e, j)
      ensures FileOf(SB, e, j) == Files(SB, v)[j]
    {
      OtherFile(SB, v, e, i, j);
      FileAt(SB, v, j);
    }
    Rounded(OnDisk(SB, e, i), i, n);
    if n % BSIZE != 0 {
      StepSound(SB, v, e, i);
      CostUpdate(Files(SB, v), i, FileOf(SB, e, i));
    } else {
      assert !FileSound(SB, e, i);
    }
    assert 16 * (|fs| + 2) % 512 == 16 * ((|fs| + 2) % 32);
  }

  /** The image for the files on the command line. It is made exactly when every file is storable and together with the
      directory they fit. Then the disk holds the superblock and the files, and it is sound, with every block accounted
      for, exactly when the directory does not end at a block boundary. */
  method Format(files: seq<Source>) returns (img: Image, ok: bool)
    ensures ok <==> Fitting(files) && forall k :: 0 <= k < |files| ==> Storable(files[k])
    ensures ok ==>
      && Fits(SB, img.disk) && ReadSuper(img.disk[1]) == SB && Typed(SB, img.disk, |files| + 2)
      && Contains(img.disk, Finished(SB.ninodes, files))
      && (Sound(SB, img.disk) <==> (|files| + 2) % 32 != 0)
      && (Sound(SB, img.disk) ==> Balanced(SB, img.disk) && Files(SB, img.disk) == Finished(SB.ninodes, files))
      && RootOk(img.disk, 16 * (|files| + 2))
      && (forall b :: 0 <= b < SB.size ==>
            (Used(SB, img.disk, b) <==> b < SB.DataStart() + TotalCost(Laid(SB.ninodes, files))))
  {
    hide Sound, Tails, TotalCost, InodeOf, Files, Cost, Plain, MarkedUp, SuperBlock, Laid, Entries, Finished, Used, RootOk;
    img := MakeRoot();
    var i := 0;
    assert files[..0] == [];
    while i < |files|
      invariant 0 <= i <= |files| && fresh(img) && Holding(img, files[..i])
      invariant forall k :: 0 <= k < i ==> Storable(files[k])
    {
      assert files[..i] + [files[i]] == files[..i + 1];
      if Fitting(files) {
        FittingPrefix(files, i + 1);
      }
      ok := AddFile(img, files[i], files[..i]);
      if !ok {
        return;
      }
      i := i + 1;
    }
    assert files[..i] == files;
    HoldingFits(img, files);
    FixRoot(img, files);
    SuperRoundTrip(SB, NBLOCKS);
    MarkedPlain(SB, img.disk, img.freeblock, 1);
    forall b | 0 <= b < SB.size
      ensures Used(SB, img.View(), b) <==> b < img.freeblock
    {
      MarkedUsed(SB, img.disk, img.freeblock, b);
    }
    ok := img.Balloc();
  }

  lemma FittingPrefix(files: seq<Source>, n: nat)
    requires n <= |files| && Fitting(files)
    ensures Fitting(files[..n])
  {
    hide TotalCost, Laid;
    LaidPrefix(SB.ninodes, files, n);
  }

  lemma HoldingFits(img: Image, fs: seq<Source>)
    requires Holding(img, fs)
    ensures Fitting(fs) && img.usedblocks < BPB && img.freeblock == SB.DataStart() + TotalCost(Laid(SB.ninodes, fs))
  {
    hide Sound, Tails, TotalCost, InodeOf, Files, Plain, MarkedUp, SuperBlock, Laid;
  }

  // ---------- from the image on ----------

  /** A system started on a new image: whatever calls follow, the number completed is that of the longest beginning along
      which the files keep fitting the disk and each call the log, and the disks between the calls are linked by accepted
      transactions and hold what the calls make of the image's files. */
  method Boot(files: seq<Source>, ops: seq<Op>)
      returns (fs: F.Fs, n: nat, ghost hist: seq<Disk>, ghost txs: seq<seq<A.Act>>)
    requires Fitting(files) && (forall k :: 0 <= k < |files| ==> Storable(files[k])) && (|files| + 2) % 32 != 0
    requires Names(ops, SB.ninodes) && forall k :: 0 <= k < |ops| ==> Open(ops[k], |files|)
    ensures fresh(fs) && fs.sb == SB && n <= |ops|
    ensures forall k :: 0 <= k <= n ==> Fit(Finished(SB.ninodes, files), ops, k, Capacity(SB))
    ensures n < |ops| ==> !Fit(Finished(SB.ninodes, files), ops, n + 1, Capacity(SB))
    ensures |txs| == n && History(SB, hist, txs) && Steps(SB, hist, Finished(SB.ninodes, files), ops)
    ensures n == |ops| ==>
      hist[n] == fs.disk && Balanced(SB, fs.disk) && Files(SB, fs.disk) == Ran(Finished(SB.ninodes, files), ops)
  {
    hide Sound, TotalCost, Files, Finished, Ran, InodeOf, Contains, Fit, History, Steps, F.Fs.Journal;
    var img, ok := Format(files);
    fs := new F.Fs(SB, img.disk);
    forall k | 0 <= k < |ops|
      ensures Usable(SB, img.disk, ops[k])
    {
      assert Open(ops[k], |files|);
    }
    n, hist, txs := Run(fs, ops, Finished(SB.ninodes, files));
  }

  /** A call on the root directory or on one of the `n` files. */
  ghost predicate Open(op: Op, n: nat) { 1 <= op.i < n + 2 && (op.Write? ==> |op.src| < 0x1_0000_0000) }

  /** On an image whose files take all the blocks there are, balloc hands out the first block of the log. */
  method BallocSpills(files: seq<Source>, i: nat) returns (r: F.Alloc)
    requires (forall k :: 0 <= k < |files| ==> Storable(files[k])) && |files| <= 198 && (|files| + 2) % 32 != 0
    requires TotalCost(Laid(SB.ninodes, files)) == Capacity(SB) && 1 <= i < |files| + 2
    ensures r == F.Spill(SB.LogStart())
  {
    hide TotalCost, Laid, Files, Finished, NoHoles, State.Ok, State.Marked, State.Apart, State.MetaMarked, InodeOf, Room, Used;
    hide F.Fs.Journal;
    var img, formatted := Format(files);
    var fs := new F.Fs(SB, img.disk);
    var ip, found := fs.Ilock(i);
    SizeFits(SB, img.disk, i);
    assert fs.St(ip) == OnDisk(SB, img.disk, i);
    assert forall b :: fs.St(ip).InUse(b) <==> 0 <= b < SB.LogStart();
    assert !fs.St(ip).InUse(SB.LogStart());
    r := fs.Balloc(ip);
  }

  /** Six files of the largest size, and one of 137 blocks. */
  function FullFiles(): seq<Source> { Largest(6) + [Source([65], seq(137 * BSIZE, p => 0))] }

  function Largest(n: nat): seq<Source> { seq(n, k => Source([65], seq(MAXSIZE, p => 0))) }

  /** There is such an image. */
  lemma FullImage()
    ensures var files := FullFiles();
            && (forall k :: 0 <= k < |files| ==> Storable(files[k])) && |files| == 7
            && TotalCost(Laid(SB.ninodes, files)) == Capacity(SB)
  {
    hide TotalCost, Laid, Largest;
    var big, last := Largest(6), Source([65], seq(137 * BSIZE, p => 0));
    LargestCost(6);
    assert (big + [last])[..6] == big;
    LaidTotal(SB.ninodes, big + [last]);
  }

  lemma {:induction false} LargestCost(n: nat)
    ensures |Largest(n)| == n && SumCost(Largest(n)) == 141 * n
    ensures forall k :: 0 <= k < n ==> Storable(Largest(n)[k])
  {
    if n > 0 {
      LargestCost(n - 1);
      assert Largest(n)[..n - 1] == Largest(n - 1);
    }
  }

  /** On an image whose directory ends at a block boundary, reading on where the entries end, as a search for a name that is
      not there does, meets the hole and never returns. */
  method HoleIsRead(files: seq<Source>) returns (r: F.ReadResult)
    requires Fitting(files) && (forall k :: 0 <= k < |files| ==> Storable(files[k])) && (|files| + 2) % 32 == 0
    ensures r.Panicked? || r.Stuck?
  {
    hide TotalCost, Laid, Files, Finished, State.Ok, State.Marked, State.Apart, State.MetaMarked, InodeOf, Sound, State.At;
    hide F.Fs.Journal, NoHoles, Entries, AllMapped, FileOf;
    var img, formatted := Format(files);
    var fs := new F.Fs(SB, img.disk);
    var ip, found := fs.Ilock(ROOTINO);
    var off := 16 * (|files| + 2);
    RootFacts(img.disk, files, off);
    assert fs.St(ip) == OnDisk(SB, img.disk, ROOTINO);
    r := fs.Readi(ip, off, 16);
  }

  lemma RootFacts(d: Disk, files: seq<Source>, off: nat)
    requires Fits(SB, d) && |files| <= 198 && off == 16 * (|files| + 2) && (|files| + 2) % 32 == 0
    requires Contains(d, Finished(SB.ninodes, files)) && OnDisk(SB, d, ROOTINO).Ok()
    requires NoHoles(OnDisk(SB, d, ROOTINO), ROOTINO, off)
    ensures InodeOf(SB, d, ROOTINO).size == off + BSIZE <= MAXSIZE
    ensures !AllMapped(OnDisk(SB, d, ROOTINO), off, off + 16)
  {
    hide InodeOf, State.At, Laid, Entries, Content;
    assert off % BSIZE == 16 * ((|files| + 2) % 32);
    assert Finished(SB.ninodes, files)[ROOTINO] == Filled(Entries(files));
    assert |FileOf(SB, d, ROOTINO)| == InodeOf(SB, d, ROOTINO).size;
    var bn := off / BSIZE;
    assert bn == Blocks(off) < Blocks(off + 16) && bn < MAXFILE;
    assert OnDisk(SB, d, ROOTINO).At(ROOTINO, SlotOf(bn)) == 0;
  }

  /** On every new image the search for a file's name stops at an entry with that name, and the inode it finds holds that
      entry's file: the file itself exactly when no earlier entry has its first fourteen characters. */
  method FindFile(files: seq<Source>, i: nat) returns (fs: F.Fs, r: Found)
    requires Fitting(files) && (forall k :: 0 <= k < |files| ==> Storable(files[k])) && i < |files|
    ensures fresh(fs) && fs.sb == SB && fs.Logging() && fs.Idle()
    ensures r.At? && r.inum < SB.ninodes && InodeOf(SB, fs.disk, r.inum).size <= MAXSIZE
    ensures FileOf(SB, fs.disk, r.inum) == Finished(SB.ninodes, files)[r.inum]
    ensures r.inum == i + 2 <==> Named(files, i)
    ensures r.inum == i + 2 ==> FileOf(SB, fs.disk, r.inum) == files[i].data
  {
    hide TotalCost, Laid, Files, State.Ok, State.Marked, State.Apart, State.MetaMarked, InodeOf, Sound, State.At;
    hide F.Fs.Journal, NoHoles, Entries, AllMapped, FileOf, Content, Answers, Named, Finished, NameOf, NoMatch;
    var img, formatted := Format(files);
    fs := new F.Fs(SB, img.disk);
    var ip, found := fs.Ilock(ROOTINO);
    ghost var st, dir, name := OnDisk(SB, img.disk, ROOTINO), Filled(Entries(files)), Stripped(files[i].name);
    assert fs.St(ip) == st;
    RootBytes(img.disk, files);
    r := Lookup(fs, ip, Stripped(files[i].name));
    if r.Halted? {
      ghost var k: int :| 0 <= 16 * k < ip.size && NoMatch(dir, k, name) && !AllMapped(st, 0, Clip(ip.size, 16 * k, 16));
      StopsBefore(files, i, k);
      MappedMore(st, Clip(ip.size, 16 * k, 16), 16 * (|files| + 2));
    }
    FoundInRoot(files, i, r);
    MappedMore(st, r.off + 16, 16 * (|files| + 2));
    NamesFound(files, r.inum);
  }

  /** The root directory of an image: its bytes, and the part with the entries mapped. */
  lemma RootBytes(d: Disk, files: seq<Source>)
    requires Fits(SB, d) && |files| <= 198 && Contains(d, Finished(SB.ninodes, files)) && RootOk(d, 16 * (|files| + 2))
    ensures var st := OnDisk(SB, d, ROOTINO);
            && st.Ok() && InodeOf(SB, d, ROOTINO).size <= MAXSIZE
            && Content(st, ROOTINO, InodeOf(SB, d, ROOTINO).size) == Filled(Entries(files))
            && AllMapped(st, 0, 16 * (|files| + 2)) && 16 * (|files| + 2) <= InodeOf(SB, d, ROOTINO).size
  {
    hide InodeOf, State.At, State.Ok, Laid, Entries, Content;
    var c := Entries(files);
    assert Finished(SB.ninodes, files)[ROOTINO] == Filled(c);
    assert |Filled(c)| == RootSize(|c|) > |c|;
  }

  /** The search for a file's name goes no further than its entry. */
  lemma StopsBefore(files: seq<Source>, i: nat, k: int)
    requires |files| <= 198 && i < |files| && NoMatch(Filled(Entries(files)), k, Stripped(files[i].name))
    ensures k <= i + 2
  {
    hide NameOf, Entries, Matching, Filled, Stripped;
    RootHolds(files);
    RootMatches(files, i + 2, Stripped(files[i].name));
  }

  lemma NamesFound(files: seq<Source>, inum: nat)
    requires |files| <= 198 && 1 <= inum < |files| + 2
    ensures inum < SB.ninodes && (inum >= 2 ==> Finished(SB.ninodes, files)[inum] == files[inum - 2].data)
  {
    hide Entries;
  }
}
