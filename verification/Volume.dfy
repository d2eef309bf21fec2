/** The whole disk as a map from inode numbers to byte sequences. */
module Volume {
  import opened Words
  import opened FsLayout
  import opened FsSpec
  import opened FileSpec

  /** Every inode's blocks are its own and marked, and no file has a hole. */
  ghost predicate Sound(sb: Super, d: Disk) {
    && Fits(sb, d) && sb.ninodes > 0
    && forall i :: 0 <= i < sb.ninodes ==> FileSound(sb, d, i)
  }

  ghost predicate FileSound(sb: Super, d: Disk, i: nat)
    requires Fits(sb, d) && i < sb.ninodes
  {
    OnDisk(sb, d, i).Ok() && NoHoles(OnDisk(sb, d, i), i, InodeOf(sb, d, i).size)
  }

  ghost function FileOf(sb: Super, d: Disk, i: nat): seq<Byte>
    requires Fits(sb, d) && i < sb.ninodes && InodeOf(sb, d, i).size <= MAXSIZE
  {
    Content(OnDisk(sb, d, i), i, InodeOf(sb, d, i).size)
  }

  lemma SizeFits(sb: Super, d: Disk, i: nat)
    requires Sound(sb, d) && i < sb.ninodes
    ensures FileSound(sb, d, i) && InodeOf(sb, d, i).size <= MAXSIZE
  {
    assert FileSound(sb, d, i);
  }

  /** The contents of all files. */
  ghost function Files(sb: Super, d: Disk): (fs: seq<seq<Byte>>)
    requires Sound(sb, d)
    ensures |fs| == sb.ninodes
  {
    seq(sb.ninodes, i requires 0 <= i < sb.ninodes => SizeFits(sb, d, i); FileOf(sb, d, i))
  }

  /** Which inode is locked makes no difference to a disk at rest. */
  lemma AnyLock(sb: Super, d: Disk, i: nat, j: nat)
    requires Fits(sb, d) && i < sb.ninodes && j < sb.ninodes
    ensures forall a, t :: OnDisk(sb, d, i).Key(a, t) ==> OnDisk(sb, d, j).At(a, t) == OnDisk(sb, d, i).At(a, t)
    ensures forall a, p :: 0 <= a < sb.ninodes && 0 <= p < MAXSIZE ==>
              ByteAt(OnDisk(sb, d, j), a, p) == ByteAt(OnDisk(sb, d, i), a, p)
    ensures Room(OnDisk(sb, d, j)) == Room(OnDisk(sb, d, i))
  {
    hide InodeOf, Slot, Room;
    RoomSame(OnDisk(sb, d, i), OnDisk(sb, d, j));
    forall a, p | 0 <= a < sb.ninodes && 0 <= p < MAXSIZE
      ensures ByteAt(OnDisk(sb, d, j), a, p) == ByteAt(OnDisk(sb, d, i), a, p)
    {
      assert OnDisk(sb, d, i).Key(a, SlotOf(p / BSIZE));
    }
  }

  lemma AnyLockOk(sb: Super, d: Disk, i: nat, j: nat)
    requires Fits(sb, d) && i < sb.ninodes && j < sb.ninodes && OnDisk(sb, d, i).Ok()
    ensures OnDisk(sb, d, j).Ok()
  {
    hide State.At, InodeOf;
    AnyLock(sb, d, i, j);
    Carried(OnDisk(sb, d, i), OnDisk(sb, d, j));
  }

  /** After a step on one inode the others are as sound as before and hold the same bytes. */
  lemma OtherFile(sb: Super, d: Disk, e: Disk, me: nat, j: nat)
    requires Sound(sb, d) && Fits(sb, e) && me < sb.ninodes && j < sb.ninodes && j != me
    requires OnDisk(sb, e, me).Ok() && OthersKept(OnDisk(sb, d, me), OnDisk(sb, e, me))
    ensures FileSound(sb, e, j) && InodeOf(sb, e, j) == InodeOf(sb, d, j)
    ensures FileSound(sb, d, j) && FileOf(sb, e, j) == FileOf(sb, d, j)
  {
    hide State.At, State.Ok, ByteAt, InodeOf;
    SizeFits(sb, d, j);
    AnyLockOk(sb, e, me, j);
    AnyLock(sb, d, me, j);
    AnyLock(sb, e, me, j);
    forall bn | 0 <= bn < MAXFILE
      ensures OnDisk(sb, e, j).At(j, SlotOf(bn)) == OnDisk(sb, d, j).At(j, SlotOf(bn))
    {
      assert OnDisk(sb, d, me).Key(j, SlotOf(bn));
      assert OnDisk(sb, e, me).Key(j, SlotOf(bn));
    }
    assert OnDisk(sb, d, me).Key(j, NDIRECT) && OnDisk(sb, e, me).Key(j, NDIRECT);
  }

  /** A step that leaves one file sound and the rest untouched leaves the disk sound, with one entry of the map changed. */
  lemma StepSound(sb: Super, d: Disk, e: Disk, me: nat)
    requires Sound(sb, d) && Fits(sb, e) && me < sb.ninodes && FileSound(sb, e, me)
    requires OthersKept(OnDisk(sb, d, me), OnDisk(sb, e, me))
    ensures Sound(sb, e) && InodeOf(sb, e, me).size <= MAXSIZE
    ensures Files(sb, e) == Files(sb, d)[me := FileOf(sb, e, me)]
    ensures forall j :: 0 <= j < sb.ninodes && j != me ==> InodeOf(sb, e, j) == InodeOf(sb, d, j)
  {
    hide FileOf, InodeOf, OthersKept, State.Marked, State.Apart, State.MetaMarked;
    forall j | 0 <= j < sb.ninodes && j != me
      ensures FileSound(sb, e, j) && InodeOf(sb, e, j) == InodeOf(sb, d, j)
      ensures FileSound(sb, d, j) && FileOf(sb, e, j) == FileOf(sb, d, j)
    {
      OtherFile(sb, d, e, me, j);
    }
  }

  // ---------- blocks ----------

  ghost function RoomOn(sb: Super, d: Disk): nat
    requires Fits(sb, d) && sb.ninodes > 0
  {
    Room(OnDisk(sb, d, 0))
  }

  /** The blocks all files take together. */
  function TotalCost(files: seq<seq<Byte>>): nat {
    if files == [] then 0 else TotalCost(files[..|files| - 1]) + Cost(|files[|files| - 1]|)
  }

  lemma {:induction false} CostUpdate(files: seq<seq<Byte>>, i: nat, f: seq<Byte>)
    requires i < |files|
    ensures TotalCost(files[i := f]) == TotalCost(files) - Cost(|files[i]|) + Cost(|f|)
    decreases |files|
  {
    hide Cost;
    var n := |files| - 1;
    if i < n {
      CostUpdate(files[..n], i, f);
      assert files[i := f][..n] == files[..n][i := f];
    } else {
      assert files[i := f][..n] == files[..n];
    }
  }

  /** Blocks for files on this disk. */
  function Capacity(sb: Super): int { sb.LogStart() - sb.DataStart() }

  /** No mark without an owner: free blocks and files together fill the data region. */
  ghost predicate Balanced(sb: Super, d: Disk) {
    Sound(sb, d) && RoomOn(sb, d) + TotalCost(Files(sb, d)) == Capacity(sb)
  }

  // ---------- below the log ----------

  lemma HomeKeeps(st: State, after: State)
    requires st.Ok() && after == st.(d := after.d) && |after.d| == |st.d|
    requires forall x :: 0 <= x < st.sb.LogStart() ==> after.d[x] == st.d[x]
    ensures after.Ok() && SameBytes(st, after)
    ensures forall i, t :: st.Key(i, t) ==> after.At(i, t) == st.At(i, t)
    ensures forall i :: 0 <= i < st.sb.ninodes ==> InodeOf(st.sb, after.d, i) == InodeOf(st.sb, st.d, i)
  {
    hide State.Apart;
    forall i | 0 <= i < st.sb.ninodes
      ensures InodeOf(st.sb, after.d, i) == InodeOf(st.sb, st.d, i)
    {
      IBlockBelow(st.sb, st.d, i);
    }
    forall b | 0 <= b < st.sb.size
      ensures Used(st.sb, after.d, b) <==> Used(st.sb, st.d, b)
    {
      BBlockBelow(st.sb, st.d, b);
    }
    SlotsKept(st, after);
    Carried(st, after);
    HomeBytes(st, after);
  }

  lemma HomeOthers(st0: State, st: State, after: State)
    requires OthersKept(st0, st) && after.Shape() && after.sb == st.sb && after.me == st.me && SameBytes(st, after)
    requires forall i, t :: st.Key(i, t) ==> after.At(i, t) == st.At(i, t)
    requires forall i :: 0 <= i < st.sb.ninodes ==> InodeOf(st.sb, after.d, i) == InodeOf(st.sb, st.d, i)
    ensures OthersKept(st0, after)
  {
    hide ByteAt, State.At, InodeOf;
  }

  lemma HomeBytes(st: State, after: State)
    requires st.Ok() && after.Shape() && after.sb == st.sb && |after.d| == |st.d|
    requires forall x :: 0 <= x < st.sb.LogStart() ==> after.d[x] == st.d[x]
    requires forall i, t :: st.Key(i, t) ==> after.At(i, t) == st.At(i, t)
    ensures SameBytes(st, after)
  {
    hide State.Apart, State.MetaMarked, State.At;
    forall i, p | 0 <= i < st.sb.ninodes && 0 <= p < MAXSIZE
      ensures ByteAt(after, i, p) == ByteAt(st, i, p)
    {
      assert st.Key(i, SlotOf(p / BSIZE));
    }
  }

  lemma HomeContent(st: State, after: State, i: nat, size: nat)
    requires st.Shape() && after.Shape() && after.sb == st.sb && SameBytes(st, after)
    requires forall i, t :: st.Key(i, t) ==> after.At(i, t) == st.At(i, t)
    requires i < st.sb.ninodes && NoHoles(st, i, size)
    ensures Content(after, i, size) == Content(st, i, size) && NoHoles(after, i, size)
  {
    hide ByteAt, State.At;
    forall bn | 0 <= bn < MAXFILE
      ensures after.At(i, SlotOf(bn)) == st.At(i, SlotOf(bn))
    {
      assert st.Key(i, SlotOf(bn));
    }
    assert st.Key(i, NDIRECT);
  }

  /** Two disks that agree below the log hold the same files, equally sound. */
  lemma BalancedAtHome(sb: Super, d: Disk, e: Disk)
    requires Balanced(sb, d) && |e| == |d| && forall x :: 0 <= x < sb.LogStart() ==> e[x] == d[x]
    ensures Balanced(sb, e) && Files(sb, e) == Files(sb, d)
  {
    hide FileOf, InodeOf, State.Marked, State.Apart, State.MetaMarked, Room, TotalCost, Files;
    forall i | 0 <= i < sb.ninodes
      ensures FileSound(sb, e, i) && InodeOf(sb, e, i) == InodeOf(sb, d, i)
      ensures FileSound(sb, d, i) && FileOf(sb, e, i) == FileOf(sb, d, i)
    {
      FileAtHome(sb, d, e, i);
    }
    SameFiles(sb, d, e);
    RoomAtHome(sb, d, e);
  }

  lemma FileAtHome(sb: Super, d: Disk, e: Disk, i: nat)
    requires Sound(sb, d) && i < sb.ninodes && |e| == |d| && forall x :: 0 <= x < sb.LogStart() ==> e[x] == d[x]
    ensures FileSound(sb, e, i) && InodeOf(sb, e, i) == InodeOf(sb, d, i)
    ensures FileSound(sb, d, i) && FileOf(sb, e, i) == FileOf(sb, d, i)
  {
    hide Content, NoHoles, State.Marked, State.Apart, State.MetaMarked;
    SizeFits(sb, d, i);
    IBlockBelow(sb, d, i);
    assert InodeOf(sb, e, i) == InodeOf(sb, d, i);
    hide InodeOf;
    HomeKeeps(OnDisk(sb, d, i), OnDisk(sb, e, i));
    HomeContent(OnDisk(sb, d, i), OnDisk(sb, e, i), i, InodeOf(sb, d, i).size);
  }

  lemma SameFiles(sb: Super, d: Disk, e: Disk)
    requires Sound(sb, d) && Fits(sb, e)
    requires forall i :: 0 <= i < sb.ninodes ==> FileSound(sb, e, i) && InodeOf(sb, e, i) == InodeOf(sb, d, i)
    requires forall i :: 0 <= i < sb.ninodes ==> FileSound(sb, d, i) && FileOf(sb, e, i) == FileOf(sb, d, i)
    ensures Sound(sb, e) && Files(sb, e) == Files(sb, d)
  {
    hide FileOf, InodeOf, State.Marked, State.Apart, State.MetaMarked;
  }

  lemma RoomAtHome(sb: Super, d: Disk, e: Disk)
    requires Fits(sb, d) && sb.ninodes > 0 && |e| == |d| && forall x :: 0 <= x < sb.LogStart() ==> e[x] == d[x]
    ensures RoomOn(sb, e) == RoomOn(sb, d)
  {
    hide InodeOf, Room;
    forall b | 0 <= b < sb.size
      ensures Used(sb, e, b) <==> Used(sb, d, b)
    {
      BBlockBelow(sb, d, b);
    }
    RoomSame(OnDisk(sb, d, 0), OnDisk(sb, e, 0));
  }
}
