/** Runs of writei and itrunc, each a transaction of its own, on any inodes of a disk. */
module Session {
  import opened Words
  import opened Sets
  import opened FsLayout
  import opened FsSpec
  import opened FileSpec
  import opened FsSteps
  import opened Volume
  import opened Transactions
  import A = Acts
  import B = Bio
  import F = Fs
  import L = LogSpec

  datatype Op = Write(i: nat, off: Uint, src: seq<Byte>) | Trunc(i: nat)

  /** How a call ends: `NoSpace` stands for a balloc that found no block outside the log, `LogFull` for the panic "too big a
      transaction". */
  datatype Outcome = Completed | NoSpace | LogFull

  predicate InRange(files: seq<seq<Byte>>, op: Op)
    requires op.i < |files|
  {
    op.Write? && op.off <= |files[op.i]| && op.off + |op.src| <= MAXSIZE
  }

  /** What an operation does to the map of files. */
  function Applied(files: seq<seq<Byte>>, op: Op): (r: seq<seq<Byte>>)
    requires op.i < |files|
    ensures |r| == |files|
  {
    if op.Trunc? then files[op.i := []]
    else if InRange(files, op) then files[op.i := Overlay(files[op.i], op.off, op.src)]
    else files
  }

  /** The sectors an operation logs; for a truncation the most it can. */
  function OpLogs(files: seq<seq<Byte>>, op: Op): int
    requires op.i < |files|
  {
    if op.Trunc? then 2
    else if InRange(files, op) then LogCount(|files[op.i]|, op.off, op.off + |op.src|)
    else 0
  }

  predicate Names(ops: seq<Op>, n: nat) { forall k :: 0 <= k < |ops| ==> ops[k].i < n }

  function Ran(files: seq<seq<Byte>>, ops: seq<Op>): (r: seq<seq<Byte>>)
    requires Names(ops, |files|)
    ensures |r| == |files|
  {
    if ops == [] then files else Applied(Ran(files, ops[..|ops| - 1]), ops[|ops| - 1])
  }

  /** The geometry mkfs is compiled with: one bitmap block and a log of LOGSIZE blocks. */
  predicate Standard(sb: Super) { sb.size <= BPB && sb.nlog == L.LOGSIZE }

  /** The inode exists, is in use and is no device. */
  ghost predicate Usable(sb: Super, d: Disk, op: Op)
    requires Fits(sb, d)
  {
    && op.i < sb.ninodes && InodeOf(sb, d, op.i).typ != 0 && InodeOf(sb, d, op.i).typ != F.T_DEV
    && (op.Write? ==> |op.src| < 0x1_0000_0000)
  }

  ghost predicate SameTypes(sb: Super, d: Disk, e: Disk)
    requires Fits(sb, d) && Fits(sb, e)
  {
    forall i :: 0 <= i < sb.ninodes ==> InodeOf(sb, e, i).typ == InodeOf(sb, d, i).typ
  }

  lemma LockedFacts(fs: F.Fs, ip: F.Inode)
    requires Sound(fs.sb, fs.disk) && ip.inum < fs.sb.ninodes && ip.Copy() == InodeOf(fs.sb, fs.disk, ip.inum)
    ensures fs.FileOk(ip) && fs.St(ip) == OnDisk(fs.sb, fs.disk, ip.inum)
    ensures fs.Bytes(ip) == Files(fs.sb, fs.disk)[ip.inum] && Room(fs.St(ip)) == RoomOn(fs.sb, fs.disk)
  {
    hide State.Marked, State.Apart, State.MetaMarked, NoHoles, Content, InodeOf, Room;
    SizeFits(fs.sb, fs.disk, ip.inum);
    AnyLock(fs.sb, fs.disk, 0, ip.inum);
  }

  /** After an operation on `ip`: one entry of the map has changed, and the blocks are still all accounted for. */
  lemma AfterOp(sb: Super, d: Disk, fs: F.Fs, ip: F.Inode)
    requires Balanced(sb, d) && fs.sb == sb && ip.inum < sb.ninodes && fs.FileOk(ip)
    requires OthersKept(OnDisk(sb, d, ip.inum), fs.St(ip))
    requires Room(fs.St(ip)) + Cost(ip.size) == RoomOn(sb, d) + Cost(|Files(sb, d)[ip.inum]|)
    ensures Balanced(sb, fs.disk) && Files(sb, fs.disk) == Files(sb, d)[ip.inum := fs.Bytes(ip)]
    ensures forall j :: 0 <= j < sb.ninodes && j != ip.inum ==> InodeOf(sb, fs.disk, j) == InodeOf(sb, d, j)
  {
    hide State.Marked, State.Apart, State.MetaMarked, NoHoles, Content, InodeOf, Room, Cost, Files, OthersKept, TotalCost;
    assert fs.St(ip) == OnDisk(sb, fs.disk, ip.inum);
    StepSound(sb, d, fs.disk, ip.inum);
    AnyLock(sb, fs.disk, 0, ip.inum);
    CostUpdate(Files(sb, d), ip.inum, fs.Bytes(ip));
  }

  /** What has been recorded is a transaction from the disk where it began to the disk as it is. */
  lemma Recorded(fs: F.Fs)
    requires fs.Logging() && fs.busy && fs.held == {} && fs.verdict.Fine? && fs.sb.nlog == L.LOGSIZE
    requires Lean(fs.acts, B.NBUF)
    ensures Txn(fs.sb, fs.base, fs.acts, fs.disk)
  {
    hide F.Fs.Journal, Txn, A.Orderly, A.Held, A.Writes, Lean, L.LoggedSectors, L.FirstPanic, L.Replay, A.AllBelow;
    fs.Record();
    TxnOf(fs.sb, fs.base, fs.acts);
  }

  /** A truncation uses the bitmap block, the indirect block, the block of its inode and the superblock. */
  lemma TruncLean(sb: Super, d: Disk, acts: seq<A.Act>, addrs: seq<Uint>, i: nat)
    requires Fits(sb, d) && i < sb.ninodes && sb.size <= BPB && |addrs| == NDIRECT + 1 && A.Orderly(acts)
    requires forall k :: 0 <= k < |acts| ==> A.Within(acts[k], BitmapBlocks(sb) + IndirectOf(addrs) + {sb.IBlock(i) as int})
    ensures Lean(acts, B.NBUF)
  {
    hide A.Orderly, A.Peak, BitmapBlocks;
    var I, x := IndirectOf(addrs), sb.IBlock(i) as int;
    OneBitmap(sb, d, i);
    Union(BitmapBlocks(sb) + I, {x});
    Union(BitmapBlocks(sb), I);
    forall k | 0 <= k < |acts|
      ensures A.Peak(acts, k) <= B.NBUF
    {
      A.BuffersEnough(acts, BitmapBlocks(sb) + I + {x}, k);
    }
  }

  lemma OpCost(files: seq<seq<Byte>>, op: Op)
    requires op.i < |files|
    ensures op.Trunc? ==> TotalCost(Applied(files, op)) <= TotalCost(files) && Cost(0) == 0
    ensures InRange(files, op) ==>
              TotalCost(Applied(files, op)) == TotalCost(files) + Need(|files[op.i]|, op.off + |op.src|)
  {
    hide TotalCost;
    if op.Trunc? {
      CostUpdate(files, op.i, []);
    } else if InRange(files, op) {
      CostUpdate(files, op.i, Overlay(files[op.i], op.off, op.src));
    }
  }

  /** One call as a transaction on a freshly locked inode. It completes exactly when the files still fit the disk and the
      sectors it logs fit the log; then the map of files changes as the operation says, everything else stays, and its
      acts are a transaction that the log accepts and the buffers suffice for. */
  method Perform(fs: F.Fs, op: Op) returns (r: Outcome, ghost acts: seq<A.Act>)
    requires fs.Logging() && fs.Idle() && Standard(fs.sb) && Balanced(fs.sb, fs.disk) && Usable(fs.sb, fs.disk, op)
    modifies fs
    ensures fs.Logging()
    ensures r.Completed? <==>
      && TotalCost(Applied(old(Files(fs.sb, fs.disk)), op)) <= Capacity(fs.sb)
      && OpLogs(old(Files(fs.sb, fs.disk)), op) <= L.Limit(L.LOGSIZE)
    ensures r.NoSpace? ==> TotalCost(Applied(old(Files(fs.sb, fs.disk)), op)) > Capacity(fs.sb)
    ensures r.LogFull? ==> OpLogs(old(Files(fs.sb, fs.disk)), op) > L.Limit(L.LOGSIZE)
    ensures r.Completed? ==>
      && fs.Idle() && Balanced(fs.sb, fs.disk) && Files(fs.sb, fs.disk) == Applied(old(Files(fs.sb, fs.disk)), op)
      && SameTypes(fs.sb, old(fs.disk), fs.disk) && Txn(fs.sb, old(fs.disk), acts, fs.disk)
  {
    hide State.Marked, State.Apart, State.MetaMarked, NoHoles, Content, Room, Cost, Files, OthersKept, TotalCost, Overlay;
    hide InodeOf, Sound, Accounted, F.Fs.Journal, Txn, LogCount, L.FirstPanic, Lean, A.Kept, A.Logged, Touched, BitmapBlocks;
    ghost var sb, d, files := fs.sb, fs.disk, Files(fs.sb, fs.disk);
    fs.BeginTrans();
    var ip, found := fs.Ilock(op.i);
    assert found;
    LockedFacts(fs, ip);
    OpCost(files, op);
    if op.Trunc? {
      ghost var addrs := ip.addrs;
      var ok := fs.Itrunc(ip);
      assert ok;
      AfterOp(sb, d, fs, ip);
      fs.Record();
      TruncLean(sb, fs.disk, fs.acts, addrs, ip.inum);
    } else {
      var w := fs.Writei(ip, op.src, op.off);
      if w.Halt? {
        return NoSpace, [];
      }
      if w.Panic? {
        return LogFull, [];
      }
      fs.Record();
      if w.Wrote? {
        AfterOp(sb, d, fs, ip);
      }
      A.NoActs();
      LeanIfLogged(fs.acts);
    }
    Recorded(fs);
    acts := fs.acts;
    fs.CommitTrans();
    r := Completed;
  }

  /** After `k` of the operations the files fit into `cap` blocks, and the last of them fitted the log. */
  ghost predicate Fit(files: seq<seq<Byte>>, ops: seq<Op>, k: nat, cap: int)
    requires Names(ops, |files|)
  {
    && k <= |ops| && TotalCost(Ran(files, ops[..k])) <= cap
    && (k > 0 ==> OpLogs(Ran(files, ops[..k - 1]), ops[k - 1]) <= L.Limit(L.LOGSIZE))
  }

  /** Disk `d` is sound, no block is lost, and it holds what `k` of the operations make of the files. */
  ghost predicate HoldsAfter(sb: Super, d: Disk, files: seq<seq<Byte>>, ops: seq<Op>, k: nat)
    requires Names(ops, |files|)
  {
    k <= |ops| && Balanced(sb, d) && Files(sb, d) == Ran(files, ops[..k])
  }

  /** The disks after each of the operations so far. */
  ghost predicate Steps(sb: Super, hist: seq<Disk>, files: seq<seq<Byte>>, ops: seq<Op>)
    requires Names(ops, |files|)
  {
    forall k :: 0 <= k < |hist| ==> HoldsAfter(sb, hist[k], files, ops, k)
  }

  /** Any sequence of calls on any inodes. The number completed is that of the longest beginning along which the files keep
      fitting the disk and each call the log; the disks between the calls are linked by accepted transactions and hold,
      sound and without loss of blocks, what the operations give on the map of files. */
  method Run(fs: F.Fs, ops: seq<Op>, ghost files: seq<seq<Byte>>)
      returns (n: nat, ghost hist: seq<Disk>, ghost txs: seq<seq<A.Act>>)
    requires fs.Logging() && fs.Idle() && Standard(fs.sb) && Balanced(fs.sb, fs.disk) && files == Files(fs.sb, fs.disk)
    requires Names(ops, |files|) && forall k :: 0 <= k < |ops| ==> Usable(fs.sb, fs.disk, ops[k])
    modifies fs
    ensures n <= |ops| && fs.Logging()
    ensures forall k :: 0 <= k <= n ==> Fit(files, ops, k, Capacity(fs.sb))
    ensures n < |ops| ==> !Fit(files, ops, n + 1, Capacity(fs.sb))
    ensures |txs| == n && History(fs.sb, hist, txs) && hist[0] == old(fs.disk) && Steps(fs.sb, hist, files, ops)
    ensures n == |ops| ==>
      && fs.Idle() && hist[n] == fs.disk && SameTypes(fs.sb, old(fs.disk), fs.disk)
      && Balanced(fs.sb, fs.disk) && Files(fs.sb, fs.disk) == Ran(files, ops)
  {
    hide Files, TotalCost, Applied, InodeOf, Sound, F.Fs.Journal, Txn, History, Steps, OpLogs;
    ghost var sb := fs.sb;
    n, hist, txs := 0, [fs.disk], [];
    assert ops[..0] == [];
    HistoryStart(sb, fs.disk);
    StepsStart(sb, fs.disk, files, ops);
    while n < |ops|
      invariant 0 <= n <= |ops| && fs.Logging() && fs.Idle() && Balanced(sb, fs.disk)
      invariant SameTypes(sb, old(fs.disk), fs.disk)
      invariant Files(sb, fs.disk) == Ran(files, ops[..n])
      invariant |txs| == n && |hist| == n + 1 && hist[0] == old(fs.disk) && hist[n] == fs.disk
      invariant History(sb, hist, txs) && Steps(sb, hist, files, ops)
      invariant forall k :: 0 <= k <= n ==> Fit(files, ops, k, Capacity(sb))
    {
      assert Usable(sb, old(fs.disk), ops[n]);
      RanNext(files, ops, n);
      var r, acts := Perform(fs, ops[n]);
      if !r.Completed? {
        return;
      }
      HistoryMore(sb, hist, txs, acts, fs.disk);
      StepsMore(sb, hist, files, ops, fs.disk);
      hist, txs := hist + [fs.disk], txs + [acts];
      n := n + 1;
    }
    assert ops[..n] == ops;
  }

  lemma RanNext(files: seq<seq<Byte>>, ops: seq<Op>, n: nat)
    requires Names(ops, |files|) && n < |ops|
    ensures Names(ops[..n], |files|) && Names(ops[..n + 1], |files|)
    ensures Ran(files, ops[..n + 1]) == Applied(Ran(files, ops[..n]), ops[n])
  {
    hide Applied;
    assert ops[..n + 1][..n] == ops[..n];
  }

  lemma StepsStart(sb: Super, d: Disk, files: seq<seq<Byte>>, ops: seq<Op>)
    requires Balanced(sb, d) && Files(sb, d) == files && Names(ops, |files|)
    ensures Steps(sb, [d], files, ops)
  {
    hide Files, Sound, TotalCost;
    assert ops[..0] == [];
  }

  lemma StepsMore(sb: Super, hist: seq<Disk>, files: seq<seq<Byte>>, ops: seq<Op>, e: Disk)
    requires Names(ops, |files|) && Steps(sb, hist, files, ops) && HoldsAfter(sb, e, files, ops, |hist|)
    ensures Steps(sb, hist + [e], files, ops)
  {
    hide HoldsAfter;
  }

  /** Power fails at any sector write of any session, and again in any number of recoveries: the disk that comes up holds
      exactly the contents after some number of whole calls, every earlier one included, and is as sound as ever. */
  lemma CrashKeepsWholeCalls(sb: Super, hist: seq<Disk>, txs: seq<seq<A.Act>>, files: seq<seq<Byte>>, ops: seq<Op>,
      disks: seq<Disk>, evs: seq<L.Event>)
    requires History(sb, hist, txs) && Fits(sb, hist[0]) && Names(ops, |files|) && Steps(sb, hist, files, ops)
    requires L.Run(LogAt(sb, hist[0]), disks, evs) && L.SameHome(LogAt(sb, hist[0]), disks[0], hist[0])
    requires 0 < |evs| <= |txs| && forall j :: 0 <= j < |evs| ==> evs[j].ws == A.Writes(txs[j])
    requires forall j :: 0 <= j < |evs| - 1 ==> evs[j].Durable()
    ensures var k := if evs[|evs| - 1].Durable() then |evs| else |evs| - 1;
            HoldsAfter(sb, disks[|evs|], files, ops, k)
  {
    hide History, Txn, Files, Sound, TotalCost, Ran, L.SameHome, L.Step, L.Replay, L.Quiet, Fits;
    var k := if evs[|evs| - 1].Durable() then |evs| else |evs| - 1;
    HistoryAt(sb, hist, txs, |evs| - 1);
    CrashLands(sb, hist, txs, disks, evs);
    assert HoldsAfter(sb, hist[k], files, ops, k);
    SameHomeHolds(sb, hist[0], hist[k], disks[|evs|]);
  }

  lemma SameHomeHolds(sb: Super, h0: Disk, h: Disk, d: Disk)
    requires Fits(sb, h0) && |h| == |h0| && L.SameHome(LogAt(sb, h0), d, h) && Balanced(sb, h)
    ensures Balanced(sb, d) && Files(sb, d) == Files(sb, h)
  {
    hide Files, Sound, TotalCost;
    assert forall x :: 0 <= x < sb.LogStart() ==> LogAt(sb, h0).IsHome(x);
    BalancedAtHome(sb, h, d);
  }
}
