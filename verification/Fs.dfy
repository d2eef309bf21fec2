/** Inode content (fs.c) over the logical disk that the buffer cache and the log present. */
module Fs {
  import opened Words
  import opened FsLayout
  import opened FsSpec
  import opened FileSpec
  import opened TruncSpec
  import opened FsSteps
  import opened Acts
  import opened Sets
  import L = LogSpec

  const T_DEV := 3

  /** What balloc came back with. `Spill` is a block of the log region, which the bitmap does not protect;
      `Full` is the panic "balloc: out of blocks". */
  datatype Alloc = Fresh(b: nat) | Spill(b: nat) | Full

  datatype Mapping = Addr(a: Uint) | Stopped

  /** `Reject` is the return value -1; `Halt` stands for a balloc that found no block outside the log, `Panic` for one of
      log_write's panics. */
  datatype WriteResult = Wrote(n: nat) | Reject | Halt | Panic

  datatype ReadResult = Got(data: seq<Byte>) | NotRead | Stuck | Panicked

  /** `struct inode`, without the fields that only the inode cache looks at. */
  class Inode {
    const inum: nat
    var typ: Ushort
    var major: Ushort
    var minor: Ushort
    var nlink: Ushort
    var size: Uint
    var addrs: seq<Uint>

    constructor (inum: nat, di: Dinode)
      requires di.Ok()
      ensures this.inum == inum && Copy() == di
    {
      this.inum := inum;
      typ, major, minor, nlink := di.typ, di.major, di.minor, di.nlink;
      size, addrs := di.size, di.addrs;
    }

    function Copy(): Dinode
      reads this
    {
      Dinode(typ, major, minor, nlink, size, addrs)
    }
  }

  class Fs {
    const sb: Super
    var disk: Disk
    ghost var base: Disk          // the disk when the transaction began
    ghost var ws: seq<L.Write>    // what has been passed to log_write since
    ghost var acts: seq<Act>      // every bread, log_write and brelse since
    ghost var held: set<int>      // the sectors whose buffers are locked
    ghost var logs: set<int>      // the sectors logged since
    ghost var kept: set<int>      // the sectors that were locked while another buffer was taken
    var busy: bool                // a transaction is open
    var logged: seq<int>          // the sectors in the header of the log
    var verdict: L.Verdict        // the first panic of log_write, if there was one

    constructor (sb: Super, disk: Disk)
      requires Fits(sb, disk)
      ensures this.sb == sb && this.disk == disk && Logging() && ws == [] && Idle()
    {
      this.sb, this.disk := sb, disk;
      base, ws, acts, held, logs, kept := disk, [], [], {}, {}, {};
      busy, logged, verdict := false, [], L.Fine;
    }

    ghost function St(ip: Inode): State
      reads this`disk, ip`addrs
    {
      State(sb, disk, ip.inum, ip.addrs)
    }

    /** The disk is the transaction's start with its writes replayed, all of them below the log. */
    ghost predicate Logging()
      reads this
    {
      Fits(sb, disk) && |base| == |disk| && Journal()
    }

    /** How disk, write list and locks follow from the acts so far. */
    ghost predicate Journal()
      reads this
    {
      && Replayed(base, disk, ws, sb.LogStart())
      && AllBelow(acts, sb.LogStart()) && Orderly(acts)
      && ws == Writes(acts) && held == Held(acts) && logs == Logged(acts) && kept == Kept(acts)
      && logged == L.LoggedSectors(ws) && verdict == L.FirstPanic(ws, sb.nlog, busy)
    }

    /** No transaction is open, no buffer is locked and nothing has gone wrong. */
    ghost predicate Idle()
      reads this
    {
      !busy && held == {} && verdict.Fine?
    }

    /** What the sectors logged and the verdict say about the calls. */
    lemma LogsAre()
      requires Logging()
      ensures L.SectorsAre(ws, logs) && verdict == L.FirstPanic(ws, sb.nlog, busy)
    {
      hide Replayed, AllBelow, Orderly, Held, Writes, Logged, Kept, L.LoggedSectors, L.FirstPanic;
      LoggedAre(acts);
      L.LoggedDistinct(ws);
    }

    lemma NoneLogged()
      requires Logging() && ws == []
      ensures logs == {}
    {
      hide Replayed, AllBelow, Orderly, Held, Writes, Logged, Kept, L.LoggedSectors, L.FirstPanic;
      LoggedAre(acts);
      L.NoCalls(disk, sb.nlog, busy);
    }

    /** The record seen from outside. */
    lemma Record()
      requires Logging()
      ensures Orderly(acts) && AllBelow(acts, sb.LogStart()) && Held(acts) == held && Writes(acts) == ws
      ensures Logged(acts) == logs && Kept(acts) == kept
      ensures (forall i :: 0 <= i < |ws| ==> 0 <= ws[i].sector < |base|) && disk == L.Replay(base, ws)
      ensures verdict == L.FirstPanic(ws, sb.nlog, busy)
    {
      hide AllBelow, Orderly, Held, Writes, Logged, Kept, L.LoggedSectors, L.FirstPanic, L.Replay;
    }

    /** Since position `k` only sectors of `S` have been read or logged, the superblock's aside. */
    ghost predicate OnlyIn(k: int, S: set<int>)
      reads this`acts
    {
      0 <= k <= |acts| && forall i :: k <= i < |acts| ==> Within(acts[i], S)
    }

    /** The locked buffers are those of blocks in files. */
    ghost predicate HoldsData(ip: Inode)
      reads this`disk, this`held, ip`addrs
      requires St(ip).Shape()
    {
      forall x :: x in held ==> St(ip).IsData(x) && St(ip).InUse(x)
    }

    /** A locked file between operations: sound ownership, no holes, and the copy on disk up to date. */
    ghost predicate FileOk(ip: Inode)
      reads this`disk, ip
    {
      && St(ip).Ok() && ip.size <= MAXSIZE
      && NoHoles(St(ip), ip.inum, ip.size)
      && InodeOf(sb, disk, ip.inum) == ip.Copy()
    }

    /** The file's bytes. */
    ghost function Bytes(ip: Inode): seq<Byte>
      reads this`disk, ip
      requires FileOk(ip)
    {
      Content(St(ip), ip.inum, ip.size)
    }

    /** ilock of an inode not in use elsewhere: a copy of what is on disk; false is the panic "ilock: no type". */
    method Ilock(inum: nat) returns (ip: Inode, ok: bool)
      requires Fits(sb, disk) && inum < sb.ninodes
      ensures fresh(ip) && ip.inum == inum && ip.Copy() == InodeOf(sb, disk, inum)
      ensures ok <==> InodeOf(sb, disk, inum).typ != 0
    {
      var di := InodeOf(sb, disk, inum);
      ip := new Inode(inum, di);
      ok := di.typ != 0;
    }

    /** begin_trans, as far as this layer sees it: the list of writes starts over. */
    method BeginTrans()
      requires Logging() && Idle()
      modifies this
      ensures Logging() && disk == old(disk) && base == disk && ws == [] && acts == [] && logs == {} && kept == {}
      ensures busy && held == {} && verdict.Fine?
    {
      hide L.Replay, Orderly, Held, Writes, Logged, Kept, L.LoggedSectors, L.FirstPanic;
      NoActs();
      L.NoCalls(disk, sb.nlog, !busy);
      base, ws, acts, logs, kept := disk, [], [], {}, {};
      logged, verdict, busy := [], L.Fine, true;
    }

    /** commit_trans of a transaction that log_write has accepted. */
    method CommitTrans()
      requires Logging() && busy && held == {} && verdict.Fine?
      modifies this
      ensures Logging() && Idle() && disk == old(disk)
    {
      hide L.Replay, Orderly, Held, Writes, Logged, Kept, L.LoggedSectors, L.FirstPanic;
      NoActs();
      L.NoCalls(disk, sb.nlog, !busy);
      base, ws, acts, logs, kept := disk, [], [], {}, {};
      logged, verdict, busy := [], L.Fine, false;
    }

    /** bread: the caller's own locks do not stand in its way. */
    method Bread(x: nat)
      requires Logging() && x < sb.LogStart() && x !in held
      modifies this`acts, this`held, this`kept
      ensures Logging() && acts == old(acts) + [Get(x)] && held == old(held) + {x as int} && kept == old(kept) + old(held)
    {
      hide Replayed, AllBelow, Orderly, Held, Writes, Logged, Kept, L.LoggedSectors, L.FirstPanic;
      OneMoreAct(acts, Get(x));
      AllBelowNext(acts, Get(x), sb.LogStart());
      kept := kept + held;
      acts, held := acts + [Get(x)], held + {x as int};
    }

    method Brelse(x: nat)
      requires Logging() && x < sb.LogStart() && x in held
      modifies this`acts, this`held
      ensures Logging() && acts == old(acts) + [Put(x)] && held == old(held) - {x as int}
    {
      hide Replayed, AllBelow, Orderly, Held, Writes, Logged, Kept, L.LoggedSectors, L.FirstPanic;
      OneMoreAct(acts, Put(x));
      AllBelowNext(acts, Put(x), sb.LogStart());
      acts, held := acts + [Put(x)], held - {x as int};
    }

    /** log_write of a modified block. A panic is recorded in `verdict`; from there on the code does nothing more, and the
        callers here, which run on as if the log had no end, report it in place of what they then find. */
    method LogWrite(x: nat, blk: Block)
      requires Logging() && x < sb.LogStart() && x in held && SUPER !in held
      modifies this`disk, this`ws, this`acts, this`logs, this`kept, this`logged, this`verdict
      ensures Logging() && disk == old(disk)[x := blk]
      ensures ws == old(ws) + [L.Write(x, blk)] && acts == old(acts) + [Act.Log(x, blk)]
      ensures logs == old(logs) + {x as int} && kept == old(kept) + held
    {
      hide Replayed, AllBelow, Orderly, Held, Writes, Logged, Kept, L.LoggedSectors, L.FirstPanic, L.Judge;
      OneMoreAct(acts, Act.Log(x, blk));
      AllBelowNext(acts, Act.Log(x, blk), sb.LogStart());
      ReplayedNext(base, disk, ws, sb.LogStart(), L.Write(x, blk));
      L.OneMoreCall(ws, L.Write(x, blk), sb.nlog, busy);
      if verdict.Fine? {
        verdict := L.Judge(|logged|, sb.nlog, busy);
      }
      if x !in logged {
        logged := logged + [x];
      }
      disk := disk[x := blk];
      logs, kept := logs + {x as int}, kept + held;
      ws, acts := ws + [L.Write(x, blk)], acts + [Act.Log(x, blk)];
    }

    /** bread, change, log_write, brelse, with no other buffer locked. */
    method Update(x: nat, blk: Block)
      requires Logging() && x < sb.LogStart() && held == {} && x != SUPER
      modifies this`disk, this`ws, this`acts, this`held, this`logs, this`kept, this`logged, this`verdict
      ensures Logging() && disk == old(disk)[x := blk] && held == {} && old(acts) <= acts
      ensures OnlyIn(old(|acts|), {x as int}) && OneLogged(old(ws), ws, x)
      ensures logs == old(logs) + {x as int} && kept <= old(kept) + {x as int}
    {
      hide Fs.Journal;
      Bread(x);
      LogWrite(x, blk);
      Brelse(x);
    }

    /** readsb, as balloc and bfree begin. */
    method ReadSuper()
      requires Logging() && SUPER !in held
      modifies this`acts, this`held, this`kept
      ensures Logging() && held == old(held) && old(acts) <= acts && OnlyIn(old(|acts|), {})
      ensures kept <= old(kept) + held
    {
      hide Fs.Journal;
      Bread(SUPER);
      Brelse(SUPER);
    }

    /** The scan of balloc: the lowest free block, its bitmap block locked, or `sb.size`. */
    method FindFree() returns (b: nat)
      requires Logging() && SUPER !in held && held !! BitmapBlocks(sb)
      modifies this`acts, this`held, this`kept
      ensures Logging() && old(acts) <= acts && OnlyIn(old(|acts|), BitmapBlocks(sb))
      ensures kept <= old(kept) + old(held)
      ensures b <= sb.size && (forall c :: 0 <= c < b ==> Used(sb, disk, c))
      ensures b < sb.size ==> !Used(sb, disk, b)
      ensures held == if b < sb.size then old(held) + {sb.BBlock(b) as int} else old(held)
    {
      hide Bit, Fs.Journal, BitmapBlocks;
      ReadSuper();
      b := 0;
      while b < sb.size
        invariant b % BPB == 0
        invariant Logging() && old(acts) <= acts && OnlyIn(old(|acts|), BitmapBlocks(sb)) && held == old(held)
        invariant kept <= old(kept) + held
        invariant forall c :: 0 <= c < b && c < sb.size ==> Used(sb, disk, c)
      {
        BitmapBlock(sb, b);
        Bread(sb.BBlock(b));
        var at := ScanBlock(b);
        if at < BPB {
          BitPlace(sb, b, at);
          return b + at;
        }
        Brelse(sb.BBlock(b));
        b := b + BPB;
      }
      b := sb.size;
    }

    /** The bits of one bitmap block: the first clear one, or `BPB`. */
    method ScanBlock(b: nat) returns (bi: nat)
      requires Fits(sb, disk) && b % BPB == 0 && b < sb.size
      requires forall c :: 0 <= c < b ==> Used(sb, disk, c)
      ensures bi < BPB ==> b + bi < sb.size && !Used(sb, disk, b + bi)
      ensures forall c :: 0 <= c < b + bi && c < sb.size ==> Used(sb, disk, c)
      ensures bi <= BPB
    {
      hide Bit;
      BBlockBelow(sb, disk, b);
      var bp := disk[sb.BBlock(b)];
      bi := 0;
      while bi < BPB && b + bi < sb.size
        invariant 0 <= bi <= BPB
        invariant forall c :: 0 <= c < b + bi && c < sb.size ==> Used(sb, disk, c)
      {
        BitPlace(sb, b, bi);
        if !Bit(bp[bi / 8], bi % 8) {
          return bi;
        }
        bi := bi + 1;
      }
      bi := BPB;
    }

    /** balloc takes the lowest block that is free and zeroes it. */
    method Balloc(ip: Inode) returns (r: Alloc)
      requires Logging() && St(ip).Ok() && HoldsData(ip)
      modifies this
      ensures Logging() && base == old(base) && busy == old(busy) && old(acts) <= acts
      ensures !r.Fresh? ==> disk == old(disk) && Packed(St(ip)) && ws == old(ws) && logs == old(logs)
      ensures r.Fresh? <==> exists b :: 0 <= b < sb.LogStart() && !old(St(ip)).InUse(b)
      ensures r.Full? <==> forall c :: 0 <= c < sb.size ==> old(St(ip)).InUse(c)
      ensures r.Spill? ==>
        && sb.LogStart() <= r.b < sb.size && !old(St(ip)).InUse(r.b)
        && (forall c :: 0 <= c < r.b ==> old(St(ip)).InUse(c))
      ensures r.Fresh? ==>
        && old(St(ip)).IsData(r.b) && !old(St(ip)).InUse(r.b)
        && (forall c :: 0 <= c < r.b ==> old(St(ip)).InUse(c))
        && St(ip) == Reserved(old(St(ip)), r.b) && held == old(held)
        && OnlyIn(old(|acts|), BitmapBlocks(sb) + {r.b as int})
        && logs == old(logs) + {sb.BBlock(r.b) as int, r.b as int} && kept <= old(kept) + old(held) + logs
    {
      hide State.Marked, State.Apart, State.MetaMarked, Used, Fs.Journal, BitmapBlocks;
      DataApart(St(ip), held);
      var b := FindFree();
      assert forall c :: 0 <= c < b ==> St(ip).InUse(c);
      if b == sb.size {
        return Full;
      }
      assert !St(ip).InUse(b);
      FreeIsData(St(ip), b);
      r := Take(ip, b);
    }

    /** The end of balloc: log the bitmap block with the bit set, then the zeroed block. */
    method Take(ip: Inode, b: nat) returns (r: Alloc)
      requires Logging() && St(ip).Ok() && b < sb.size && !St(ip).InUse(b)
      requires sb.BBlock(b) in held && SUPER !in held && b !in held
      modifies this`disk, this`ws, this`acts, this`held, this`logs, this`kept, this`logged, this`verdict
      ensures Logging() && base == old(base) && busy == old(busy) && old(acts) <= acts
      ensures r == if b < sb.LogStart() then Fresh(b) else Spill(b)
      ensures r.Spill? ==> disk == old(disk) && ws == old(ws) && logs == old(logs)
      ensures r.Fresh? ==> old(St(ip)).IsData(b)
      ensures r.Fresh? ==>
        && St(ip) == Reserved(old(St(ip)), b) && held == old(held) - {sb.BBlock(b) as int}
        && OnlyIn(old(|acts|), BitmapBlocks(sb) + {b as int})
        && logs == old(logs) + {sb.BBlock(b) as int, b as int} && kept <= old(kept) + old(held) + logs
    {
      hide State.Marked, State.Apart, State.MetaMarked, PutByteBit, Used, Fs.Journal, BitmapBlocks;
      BBlockBelow(sb, disk, b);
      FreeIsData(St(ip), b);
      BitmapBlock(sb, b);
      if b >= sb.LogStart() {
        return Spill(b);
      }
      var bp := disk[sb.BBlock(b)];
      LogWrite(sb.BBlock(b), bp[b % BPB / 8 := PutByteBit(bp[b % BPB / 8], b % 8, true)]);
      Brelse(sb.BBlock(b));
      Bread(b);
      LogWrite(b, ZeroBlock());
      Brelse(b);
      r := Fresh(b);
    }

    /** An empty slot is given a new block: a direct slot or the indirect one in the inode, or an entry in the
        indirect block. */
    method Grow(ip: Inode, s: nat) returns (r: Mapping)
      requires Logging() && St(ip).Ok() && s < NSLOT && St(ip).At(ip.inum, s) == 0
      requires s > NDIRECT ==> ip.addrs[NDIRECT] != 0
      requires held == if s > NDIRECT then {ip.addrs[NDIRECT] as int} else {}
      modifies this, ip`addrs
      ensures Logging() && base == old(base) && busy == old(busy) && old(acts) <= acts
      ensures r.Stopped? ==> Packed(St(ip)) && ip.addrs == old(ip.addrs) && ws == old(ws) && logs == old(logs)
      ensures r.Addr? <==> Room(old(St(ip))) >= 1
      ensures r.Addr? ==>
        && Extended(old(St(ip)), St(ip), {s}) && r.a == St(ip).At(ip.inum, s) != 0 && held == old(held)
        && Room(St(ip)) == Room(old(St(ip))) - 1
        && OnlyIn(old(|acts|), BitmapBlocks(sb) + {r.a as int} + IndirectOf(ip.addrs))
        && logs == old(logs) + {sb.BBlock(r.a) as int, r.a as int} + old(held) && kept <= old(kept) + logs
    {
      hide State.Marked, State.Apart, State.MetaMarked;
      hide State.Ok, Used, Extended, Reserved, BitmapBlocks, State.InUse, Room, Fs.Journal;
      ghost var st := St(ip);
      OkShape(st);
      RoomIff(st);
      if s > NDIRECT {
        IndirectInUse(st);
      }
      var al := Balloc(ip);
      if !al.Fresh? {
        return Stopped;
      }
      AllocExtends(st, s, al.b);
      AllocRoom(st, s, al.b);
      if s <= NDIRECT {
        ip.addrs := ip.addrs[s := al.b];
      } else {
        var x := ip.addrs[NDIRECT];
        IndirectBelowLog(st);
        LogWrite(x, PutWord(disk[x], 4 * (s - NDIRECT - 1), al.b));
      }
      assert St(ip) == Attached(Reserved(st, al.b), s, al.b);
      r := Addr(al.b);
    }

    /** The second half of bmap: an entry of the indirect block. */
    method MapEntry(ip: Inode, j: nat) returns (r: Mapping)
      requires Logging() && St(ip).Ok() && j < NINDIRECT && ip.addrs[NDIRECT] != 0 && held == {}
      modifies this, ip`addrs
      ensures Logging() && base == old(base) && busy == old(busy) && old(acts) <= acts
      ensures r.Stopped? ==> Packed(St(ip))
      ensures old(St(ip)).At(ip.inum, NDIRECT + 1 + j) != 0 ==>
        r.Addr? && disk == old(disk) && ip.addrs == old(ip.addrs) && ws == old(ws) && logs == old(logs)
      ensures old(St(ip)).At(ip.inum, NDIRECT + 1 + j) == 0 ==> (r.Addr? <==> Room(old(St(ip))) >= 1)
      ensures r.Stopped? ==> ip.addrs == old(ip.addrs) && logs == old(logs)
      ensures r.Addr? ==>
        && Extended(old(St(ip)), St(ip), {NDIRECT + 1 + j})
        && Room(St(ip)) == Room(old(St(ip))) - (if old(St(ip)).At(ip.inum, NDIRECT + 1 + j) == 0 then 1 else 0)
        && r.a == St(ip).At(ip.inum, NDIRECT + 1 + j) != 0
        && ip.addrs[NDIRECT] != 0 && held == {}
        && OnlyIn(old(|acts|), BitmapBlocks(sb) + {r.a as int} + IndirectOf(ip.addrs))
        && kept <= old(kept) + logs
        && (old(St(ip)).At(ip.inum, NDIRECT + 1 + j) == 0 ==>
              logs == old(logs) + {sb.BBlock(r.a) as int, r.a as int, ip.addrs[NDIRECT] as int})
    {
      hide State.Marked, State.Apart, State.MetaMarked;
      hide State.Ok, BitmapBlocks, Room, Packed, Accounted, SameBytes, Fs.Journal;
      IndirectBelowLog(St(ip));
      OkShape(St(ip));
      ghost var st := St(ip);
      IndirectSlot(st, ip.inum);
      var x := ip.addrs[NDIRECT];
      Bread(x);
      var a := GetWord(disk[x], 4 * j);
      if a == 0 {
        r := Grow(ip, NDIRECT + 1 + j);
        if r.Stopped? {
          return;
        }
        IndirectSlot(St(ip), ip.inum);
        assert st.Key(ip.inum, NDIRECT) && St(ip).At(ip.inum, NDIRECT) == st.At(ip.inum, NDIRECT);
      } else {
        ExtendedNone(st, {NDIRECT + 1 + j});
        r := Addr(a);
      }
      Brelse(x);
    }

    /** The disk block of the file's block `bn`, allocated if there is none. A block that is already mapped
        changes nothing. */
    method Bmap(ip: Inode, bn: nat) returns (r: Mapping)
      requires Logging() && St(ip).Ok() && bn < MAXFILE && held == {}
      modifies this, ip`addrs
      ensures Logging() && base == old(base) && busy == old(busy) && old(acts) <= acts
      ensures r.Stopped? ==> Packed(St(ip))
      ensures old(St(ip)).At(ip.inum, SlotOf(bn)) != 0 ==>
        r.Addr? && disk == old(disk) && ip.addrs == old(ip.addrs) && ws == old(ws) && logs == old(logs)
      ensures r.Addr? <==> Room(old(St(ip))) >= Missing(old(St(ip)), bn)
      ensures r.Stopped? ==>
        && |ip.addrs| == NDIRECT + 1 && IndirectOf(old(ip.addrs)) <= IndirectOf(ip.addrs)
        && logs <= old(logs) + BitmapBlocks(sb) + IndirectOf(ip.addrs)
      ensures r.Addr? ==>
        && Extended(old(St(ip)), St(ip), SlotsFor(bn))
        && Room(St(ip)) == Room(old(St(ip))) - Missing(old(St(ip)), bn)
        && r.a == St(ip).At(ip.inum, SlotOf(bn)) != 0
        && (bn >= NDIRECT ==> ip.addrs[NDIRECT] != 0) && held == {}
        && OnlyIn(old(|acts|), BitmapBlocks(sb) + {r.a as int} + IndirectOf(ip.addrs))
        && kept <= old(kept) + logs
        && (old(St(ip)).At(ip.inum, SlotOf(bn)) == 0 ==> RoundLogs(old(logs), logs, St(ip), bn, true))
    {
      hide State.Marked, State.Apart, State.MetaMarked;
      hide State.Ok, Extended, BitmapBlocks, Packed, Room, RoundLogs, Fs.Journal;
      ghost var st := St(ip);
      OkShape(st);
      ExtendedNone(st, SlotsFor(bn));
      if bn < NDIRECT {
        var addr := ip.addrs[bn];
        if addr == 0 {
          r := Grow(ip, bn);
          if r.Addr? {
            ExtendedOk(st, St(ip), {bn as int});
            RoundOf(old(logs), old(logs), logs, St(ip), bn);
          }
          return;
        }
        return Addr(addr);
      }
      r := MapIndirect(ip, bn);
    }

    /** bmap for a block that the indirect block maps. */
    method MapIndirect(ip: Inode, bn: nat) returns (r: Mapping)
      requires Logging() && St(ip).Ok() && NDIRECT <= bn < MAXFILE && held == {}
      modifies this, ip`addrs
      ensures Logging() && base == old(base) && busy == old(busy) && old(acts) <= acts
      ensures r.Stopped? ==> Packed(St(ip))
      ensures old(St(ip)).At(ip.inum, SlotOf(bn)) != 0 ==>
        r.Addr? && disk == old(disk) && ip.addrs == old(ip.addrs) && ws == old(ws) && logs == old(logs)
      ensures r.Addr? <==> Room(old(St(ip))) >= Missing(old(St(ip)), bn)
      ensures r.Stopped? ==>
        && |ip.addrs| == NDIRECT + 1 && IndirectOf(old(ip.addrs)) <= IndirectOf(ip.addrs)
        && logs <= old(logs) + BitmapBlocks(sb) + IndirectOf(ip.addrs)
      ensures r.Addr? ==>
        && Extended(old(St(ip)), St(ip), {NDIRECT, bn + 1})
        && Room(St(ip)) == Room(old(St(ip))) - Missing(old(St(ip)), bn)
        && r.a == St(ip).At(ip.inum, SlotOf(bn)) != 0 && ip.addrs[NDIRECT] != 0 && held == {}
        && OnlyIn(old(|acts|), BitmapBlocks(sb) + {r.a as int} + IndirectOf(ip.addrs))
        && kept <= old(kept) + logs
        && (old(St(ip)).At(ip.inum, SlotOf(bn)) == 0 ==> RoundLogs(old(logs), logs, St(ip), bn, true))
    {
      hide State.Marked, State.Apart, State.MetaMarked;
      hide State.Ok, Extended, BitmapBlocks, Packed, Room, RoundLogs, Fs.Journal;
      ghost var st := St(ip);
      OkShape(st);
      ExtendedNone(st, {NDIRECT});
      IndirectSlot(st, ip.inum);
      if ip.addrs[NDIRECT] == 0 {
        r := Grow(ip, NDIRECT);
        if r.Stopped? {
          return;
        }
      }
      ghost var mid := St(ip);
      ExtendedOk(st, mid, {NDIRECT});
      EntryKept(st, mid, bn);
      IndirectSlot(mid, ip.inum);
      IndirectLogs(mid, old(logs), logs);
      ghost var l := logs;
      r := MapEntry(ip, bn - NDIRECT);
      if r.Addr? {
        ExtendedOk(mid, St(ip), {bn + 1});
        IndirectKept(mid, St(ip), {bn + 1});
        ExtendedTwice(st, mid, St(ip), {NDIRECT}, {bn + 1});
        assert {NDIRECT} + {bn + 1} == {NDIRECT, bn + 1};
        if mid.At(ip.inum, SlotOf(bn)) == 0 {
          RoundOf(old(logs), l, logs, St(ip), bn);
        }
      }
    }

    /** writei, begun in state `st0` with `l0` logged and `k0` kept after `k` acts, has stored `done` at `off0`: what it has
        used and logged so far is what those bytes need. */
    ghost predicate Midway(ip: Inode, st0: State, off0: nat, done: seq<Byte>, k: nat, l0: set<int>, k0: set<int>)
      reads this, ip
    {
      && Written(st0, St(ip), off0, done) && St(ip).Shape()
      && ip.size <= MAXSIZE && NoHoles(St(ip), ip.inum, Max(ip.size, off0 + |done|))
      && OnlyIn(k, Touched(St(ip), off0, off0 + |done|))
      && LogsOf(l0, logs, St(ip), ip.size, off0, off0 + |done|) && kept <= k0 + logs
    }

    lemma MidwayFacts(ip: Inode, st0: State, off0: nat, done: seq<Byte>, k: nat, l0: set<int>, k0: set<int>)
      requires Midway(ip, st0, off0, done, k, l0, k0)
      ensures St(ip).Ok() && St(ip).Shape() && NoHoles(St(ip), ip.inum, Max(ip.size, off0 + |done|)) && ip.size <= MAXSIZE
      ensures LogsOf(l0, logs, St(ip), ip.size, off0, off0 + |done|)
    {
      hide Written, NoHoles, LogsOf, Touched;
      WrittenOk(st0, St(ip), off0, done);
    }

    lemma MidwayEnd(ip: Inode, st0: State, off0: nat, done: seq<Byte>, k: nat, l0: set<int>, k0: set<int>)
      requires Midway(ip, st0, off0, done, k, l0, k0) && off0 <= ip.size <= MAXSIZE && st0.Shape() && st0.me == ip.inum
      requires st0.sb == sb
      ensures St(ip).Shape() && OthersKept(st0, St(ip)) && Accounted(st0, St(ip)) && off0 + |done| <= MAXSIZE
      ensures InodeOf(sb, disk, ip.inum) == InodeOf(sb, st0.d, ip.inum)
      ensures Content(St(ip), ip.inum, Max(ip.size, off0 + |done|)) == Overlay(Content(st0, ip.inum, ip.size), off0, done)
      ensures OnlyIn(k, Touched(St(ip), off0, off0 + |done|)) && kept <= k0 + logs
    {
      hide NoHoles, LogsOf, Touched, OthersKept, Accounted, Content, Overlay;
      WrittenOthers(st0, St(ip), off0, done);
      OverlayContent(st0, St(ip), off0, done, ip.size);
    }

    lemma MidwayStart(ip: Inode, off: nat)
      requires St(ip).Ok() && off <= ip.size <= MAXSIZE && NoHoles(St(ip), ip.inum, ip.size)
      ensures Midway(ip, St(ip), off, [], |acts|, logs, kept)
    {
      hide State.Marked, State.Apart, State.MetaMarked, Written, NoHoles, LogsOf, Touched;
      WrittenNone(St(ip), off);
      LogsNone(logs, St(ip), ip.size, off);
    }

    /** One round of writei's loop. */
    method WriteRound(ip: Inode, off: nat, piece: seq<Byte>, ghost st0: State, ghost off0: nat,
        ghost done: seq<Byte>, ghost k: nat, ghost l0: set<int>, ghost k0: set<int>)
        returns (ok: bool)
      requires Logging() && held == {} && off == off0 + |done| && Midway(ip, st0, off0, done, k, l0, k0)
      requires 0 < |piece| && off % BSIZE + |piece| <= BSIZE && off + |piece| <= MAXSIZE && off0 <= ip.size
      modifies this, ip`addrs
      ensures Logging() && base == old(base) && busy == old(busy) && old(acts) <= acts
      ensures off < ip.size ==> ip.addrs == old(ip.addrs) && ok
      ensures off < ip.size ==> OneLogged(old(ws), ws, old(St(ip)).At(ip.inum, SlotOf(off / BSIZE)))
      ensures !ok ==> Packed(St(ip))
      ensures !ok ==>
        && |ip.addrs| == NDIRECT + 1 && IndirectOf(old(ip.addrs)) <= IndirectOf(ip.addrs)
        && logs <= old(logs) + BitmapBlocks(sb) + IndirectOf(ip.addrs)
        && old(St(ip)).At(ip.inum, SlotOf(off / BSIZE)) == 0
      ensures var need := Cost(Max(ip.size, off + |piece|)) - Cost(Max(ip.size, off));
              && (ok <==> Room(old(St(ip))) >= need)
              && (ok ==> St(ip).Shape() && Room(St(ip)) == Room(old(St(ip))) - need)
      ensures ok ==> Midway(ip, st0, off0, done + piece, k, l0, k0) && held == {}
    {
      hide State.Marked, State.Apart, State.MetaMarked;
      hide Written, Extended, NoHoles, Touched, State.Ok, Splice, Packed, BitmapBlocks;
      hide Room, Missing, Cost, Fs.Journal, LogsOf, RoundLogs, DataBlocks, State.At, Blocks;
      ghost var st, l := St(ip), logs;
      WrittenOk(st0, st, off0, done);
      MappedBelow(st, ip.size, off);
      MissingIsNeed(st, ip.size, off, |piece|);
      var bn := off / BSIZE;
      var r := Bmap(ip, bn);
      if r.Stopped? {
        return false;
      }
      ghost var mid := St(ip);
      ExtendedOk(st, mid, SlotsFor(bn));
      RoundDone(st0, st, mid, off0, done, piece, ip.size, l0, l, logs, off);
      Update(r.a, Splice(disk[r.a], off % BSIZE, piece));
      ok := true;
    }

    /** iupdate: the inode's slot in its disk block gets the current fields, through the log. */
    method Iupdate(ip: Inode)
      requires Logging() && St(ip).Ok() && held == {}
      modifies this
      ensures Logging() && base == old(base) && busy == old(busy) && old(acts) <= acts
      ensures disk == WithInode(sb, old(disk), ip.inum, ip.Copy())
      ensures OnlyIn(old(|acts|), {sb.IBlock(ip.inum) as int}) && held == {}
      ensures OneLogged(old(ws), ws, sb.IBlock(ip.inum)) && logs == old(logs) + {sb.IBlock(ip.inum) as int}
      ensures kept <= old(kept) + logs
    {
      hide State.Marked, State.Apart, State.MetaMarked, InodeBlock, Fs.Journal;
      IBlockBelow(sb, disk, ip.inum);
      Update(sb.IBlock(ip.inum), InodeBlock(disk[sb.IBlock(ip.inum)], ip.inum, ip.Copy()));
    }

    /** The end of writei and of itrunc: the size becomes `off`, and the inode goes to disk with it. */
    method Resize(ip: Inode, off: nat)
      requires Logging() && St(ip).Ok() && off <= MAXSIZE && NoHoles(St(ip), ip.inum, off) && held == {}
      modifies this, ip`size
      ensures Logging() && base == old(base) && busy == old(busy) && old(acts) <= acts
      ensures FileOk(ip) && ip.size == off
      ensures SyncedWith(old(St(ip)), St(ip))
      ensures OnlyIn(old(|acts|), {sb.IBlock(ip.inum) as int}) && held == {}
      ensures OneLogged(old(ws), ws, sb.IBlock(ip.inum)) && logs == old(logs) + {sb.IBlock(ip.inum) as int}
      ensures kept <= old(kept) + logs
    {
      hide State.Marked, State.Apart, State.MetaMarked;
      hide State.Ok, WithInode, NoHoles, Fs.Journal;
      ghost var st := St(ip);
      OkShape(st);
      ip.size := off;
      SyncedState(st, ip.Copy(), off);
      Iupdate(ip);
    }

    /** The next round: as much of the source as is left or as goes into the block. */
    method WriteNext(ip: Inode, src: seq<Byte>, off: nat, tot: nat, ghost st0: State, ghost k: nat, ghost l0: set<int>,
        ghost k0: set<int>)
        returns (ok: bool, m: nat)
      requires Logging() && held == {} && tot < |src| && Midway(ip, st0, off, src[..tot], k, l0, k0)
      requires off <= ip.size && off + |src| <= MAXSIZE && (tot == 0 || (off + tot) % BSIZE == 0)
      modifies this, ip`addrs
      ensures Logging() && base == old(base) && busy == old(busy) && old(acts) <= acts
      ensures 0 < m && tot + m <= |src| && (tot + m == |src| || (off + tot + m) % BSIZE == 0)
      ensures off + tot + m <= ip.size ==> ip.addrs == old(ip.addrs) && (l0 == {} ==> EndsNew(ws))
      ensures !ok ==> Packed(St(ip))
      ensures !ok ==> |logs| <= |l0| + |BitmapBlocks(sb)| + BlocksIn(off, off + |src|)
      ensures var need := Cost(Max(ip.size, off + tot + m)) - Cost(Max(ip.size, off + tot));
              && (ok <==> Room(old(St(ip))) >= need)
              && (ok ==> St(ip).Shape() && Room(St(ip)) == Room(old(St(ip))) - need)
      ensures ok ==> Midway(ip, st0, off, src[..tot + m], k, l0, k0) && held == {}
    {
      hide State.Marked, State.Apart, State.MetaMarked;
      hide Fs.Midway, Packed, Room, Cost, Fs.Journal, LogsOf, NoHoles, BitmapBlocks, EndsNew, OneLogged, State.Ok, State.At;
      hide PieceLen, BlocksIn, L.LoggedSectors, L.SectorsAre, L.FirstPanic;
      var cur := off + tot;
      m := PieceLen(cur, |src| - tot);
      ghost var st, l, w := St(ip), logs, ws;
      MidwayFacts(ip, st0, off, src[..tot], k, l0, k0);
      LogsAre();
      ok := WriteRound(ip, cur, src[tot..tot + m], st0, off, src[..tot], k, l0, k0);
      assert src[..tot] + src[tot..tot + m] == src[..tot + m];
      if !ok {
        StopBound(l0, l, logs, st, ip.addrs, ip.size, off, cur, off + |src|);
      }
      if cur + m <= ip.size && l0 == {} {
        NextIsNew(l, st, ip.size, off, cur);
        NowNew(w, ws, l, st.At(ip.inum, SlotOf(cur / BSIZE)));
      }
    }

    /** The loop of writei. */
    method WriteLoop(ip: Inode, src: seq<Byte>, off: nat) returns (ok: bool)
      requires Logging() && St(ip).Ok() && off <= ip.size <= MAXSIZE && off + |src| <= MAXSIZE
      requires NoHoles(St(ip), ip.inum, ip.size) && held == {}
      modifies this, ip`addrs
      ensures Logging() && base == old(base) && busy == old(busy) && old(acts) <= acts
      ensures off + |src| <= ip.size ==> ip.addrs == old(ip.addrs)
      ensures old(logs) == {} && 0 < |src| && off + |src| <= ip.size ==> EndsNew(ws)
      ensures src == [] ==> ws == old(ws)
      ensures !ok ==> Packed(St(ip))
      ensures !ok ==> |logs| <= |old(logs)| + |BitmapBlocks(sb)| + BlocksIn(off, off + |src|)
      ensures ok <==> Room(old(St(ip))) >= Need(ip.size, off + |src|)
      ensures ok ==>
        && St(ip).Shape() && Room(St(ip)) == Room(old(St(ip))) - Need(ip.size, off + |src|) && held == {}
        && Midway(ip, old(St(ip)), off, src, old(|acts|), old(logs), old(kept))
    {
      hide State.Marked, State.Apart, State.MetaMarked;
      hide Fs.Midway, State.Ok, Packed, Room, Cost, Fs.Journal, BitmapBlocks, EndsNew, Blocks, NoHoles;
      ghost var st0, k, l0, k0 := St(ip), |acts|, logs, kept;
      MidwayStart(ip, off);
      OkShape(st0);
      var tot := 0;
      assert src[..0] == [];
      while tot < |src|
        invariant 0 <= tot <= |src| && (tot == 0 || tot == |src| || (off + tot) % BSIZE == 0)
        invariant Logging() && base == old(base) && busy == old(busy) && old(acts) <= acts && held == {}
        invariant Midway(ip, st0, off, src[..tot], k, l0, k0)
        invariant l0 == {} && 0 < tot && off + tot <= ip.size ==> EndsNew(ws)
        invariant tot == 0 ==> ws == old(ws)
        invariant off + tot <= ip.size ==> ip.addrs == old(ip.addrs)
        invariant St(ip).Shape() && Room(St(ip)) == Room(st0) - (Cost(Max(ip.size, off + tot)) - Cost(ip.size))
      {
        var m;
        ok, m := WriteNext(ip, src, off, tot, st0, k, l0, k0);
        CostGrows(Max(ip.size, off + tot + m), Max(ip.size, off + |src|));
        if !ok {
          return;
        }
        tot := tot + m;
      }
      assert src[..|src|] == src;
      ok := true;
    }

    /** writei: the file becomes its overlay with `src` at `off`. */
    method Writei(ip: Inode, src: seq<Byte>, off: Uint) returns (r: WriteResult)
      requires Logging() && FileOk(ip) && ip.typ != T_DEV && |src| < 0x1_0000_0000 && held == {} && verdict.Fine?
      modifies this, ip`addrs, ip`size
      ensures Logging() && base == old(base) && busy == old(busy) && old(acts) <= acts
      ensures r.Reject? <==> off > old(ip.size) || off + |src| > MAXSIZE
      ensures r.Panic? <==> !verdict.Fine?
      ensures r.Wrote? || r.Halt? ==> (r.Wrote? <==> Room(old(St(ip))) >= Need(old(ip.size), off + |src|))
      ensures !r.Reject? && Room(old(St(ip))) >= Need(old(ip.size), off + |src|) ==> !r.Halt?
      ensures r.Halt? ==> Packed(St(ip))
      ensures r.Reject? ==> disk == old(disk) && ip.Copy() == old(ip.Copy()) && acts == old(acts) && ws == old(ws) && held == {}
      ensures r.Wrote? ==>
        && r.n == |src| && FileOk(ip) && held == {} && ip.size == Max(old(ip.size), off + |src|)
        && Room(St(ip)) == Room(old(St(ip))) - Need(old(ip.size), off + |src|)
        && Bytes(ip) == Overlay(old(Bytes(ip)), off, src)
        && OthersKept(old(St(ip)), St(ip)) && Accounted(old(St(ip)), St(ip))
        && OnlyIn(old(|acts|), Touched(St(ip), off, off + |src|) + {sb.IBlock(ip.inum) as int})
        && kept <= old(kept) + logs
      // a transaction of its own, on a disk with one bitmap block
      ensures old(busy && ws == []) && sb.size <= BPB && !r.Reject? ==>
        && (Room(old(St(ip))) >= Need(old(ip.size), off + |src|) ==>
              (r.Panic? <==> LogCount(old(ip.size), off, off + |src|) > L.Limit(sb.nlog)))
        && (r.Panic? ==> LogCount(old(ip.size), off, off + |src|) > L.Limit(sb.nlog))
        && (r.Wrote? ==> |logs| == LogCount(old(ip.size), off, off + |src|))
    {
      hide State.Marked, State.Apart, State.MetaMarked;
      hide Wraps, NoHoles, Touched, State.Ok, Content, Overlay, Packed, LogCount, L.Limit, BlocksIn, L.FirstPanic, L.SectorsAre;
      hide OthersKept, InodeOf, Accounted, Room, Cost, Fs.Journal, BitmapBlocks, L.LoggedSectors;
      var n := |src|;
      WrapsExactly(off, n);
      if off > ip.size || Wraps(off, n) {
        return Reject;
      }
      if off + n > MAXSIZE {
        return Reject;
      }
      var ok := WriteAll(ip, src, off);
      LogsAre();
      r := if !verdict.Fine? then Panic else if ok then Wrote(n) else Halt;
    }

    /** The rest of writei: the loop, and the inode if the file has grown. */
    method WriteAll(ip: Inode, src: seq<Byte>, off: nat) returns (ok: bool)
      requires Logging() && FileOk(ip) && held == {} && off <= ip.size && off + |src| <= MAXSIZE
      modifies this, ip`addrs, ip`size
      ensures Logging() && base == old(base) && busy == old(busy) && old(acts) <= acts
      ensures ok <==> Room(old(St(ip))) >= Need(old(ip.size), off + |src|)
      ensures !ok ==> Packed(St(ip))
      ensures ok ==>
        && FileOk(ip) && held == {} && ip.size == Max(old(ip.size), off + |src|)
        && Room(St(ip)) == Room(old(St(ip))) - Need(old(ip.size), off + |src|)
        && Bytes(ip) == Overlay(old(Bytes(ip)), off, src)
        && OthersKept(old(St(ip)), St(ip)) && Accounted(old(St(ip)), St(ip))
        && OnlyIn(old(|acts|), Touched(St(ip), off, off + |src|) + {sb.IBlock(ip.inum) as int})
        && kept <= old(kept) + logs
      ensures old(ws) == [] && sb.size <= BPB && ok ==>
        && |logs| == LogCount(old(ip.size), off, off + |src|)
        && (L.FirstPanic(ws, sb.nlog, true).Fine? <==> LogCount(old(ip.size), off, off + |src|) <= L.Limit(sb.nlog))
      ensures old(ws) == [] && sb.size <= BPB && LogCount(old(ip.size), off, off + |src|) <= L.Limit(sb.nlog) ==>
        L.FirstPanic(ws, sb.nlog, true).Fine?
    {
      hide State.Marked, State.Apart, State.MetaMarked;
      hide Written, NoHoles, Touched, State.Ok, Content, Overlay, Packed, LogsOf, Blocks, EndsNew, OneLogged, BlocksIn;
      hide SyncedWith, OthersKept, InodeOf, Accounted, Room, Cost, Fs.Journal, BitmapBlocks, L.FirstPanic, L.LoggedSectors;
      hide LogCount, L.Limit, Fs.Midway, L.SectorsAre;
      ghost var st0, size0, n := St(ip), ip.size, |src|;
      OkShape(st0);
      if ws == [] {
        NoneLogged();
      }
      ok := WriteLoop(ip, src, off);
      if !ok {
        if old(ws) == [] {
          LogsAre();
          HaltVerdict(ws, logs, sb, disk, ip.inum, size0, off, off + n);
        }
        return;
      }
      WriteEnd(ip, |src|, off, st0, src, old(|acts|), old(logs), old(kept), old(ws) == []);
    }

    /** The end of writei: if the file has grown, its size is set and the inode goes to disk. */
    method WriteEnd(ip: Inode, n: nat, off: nat, ghost st0: State, ghost src: seq<Byte>, ghost k: nat, ghost l0: set<int>,
        ghost k0: set<int>, ghost alone: bool)
      requires Logging() && held == {} && Midway(ip, st0, off, src, k, l0, k0) && n == |src|
      requires off <= ip.size <= MAXSIZE && st0.Shape() && st0.sb == sb && st0.me == ip.inum
      requires InodeOf(sb, st0.d, ip.inum) == ip.Copy().(addrs := st0.mine)
      requires off + n <= ip.size ==> ip.addrs == st0.mine
      requires alone ==> l0 == {} && (n == 0 ==> ws == []) && (0 < n && off + n <= ip.size ==> EndsNew(ws))
      modifies this, ip`size
      ensures Logging() && base == old(base) && busy == old(busy) && old(acts) <= acts
      ensures FileOk(ip) && held == {} && ip.size == Max(old(ip.size), off + n) && Room(St(ip)) == Room(old(St(ip)))
      ensures Bytes(ip) == Overlay(Content(st0, ip.inum, old(ip.size)), off, src)
      ensures OthersKept(st0, St(ip)) && Accounted(st0, St(ip))
      ensures OnlyIn(k, Touched(St(ip), off, off + n) + {sb.IBlock(ip.inum) as int}) && kept <= k0 + logs
      ensures alone && sb.size <= BPB ==>
        && |logs| == LogCount(old(ip.size), off, off + n)
        && (L.FirstPanic(ws, sb.nlog, true).Fine? <==> LogCount(old(ip.size), off, off + n) <= L.Limit(sb.nlog))
    {
      hide State.Marked, State.Apart, State.MetaMarked;
      hide Written, NoHoles, Touched, State.Ok, Content, Overlay, LogsOf, OneLogged, Fs.Midway, EndsNew;
      hide SyncedWith, OthersKept, InodeOf, Accounted, Room, Fs.Journal, BitmapBlocks, L.FirstPanic, L.LoggedSectors;
      hide LogCount, L.Limit, L.SectorsAre;
      ghost var st1, l1, w1, size0 := St(ip), logs, ws, ip.size;
      LogsAre();
      MidwayFacts(ip, st0, off, src, k, l0, k0);
      MidwayEnd(ip, st0, off, src, k, l0, k0);
      if n > 0 && off + n > ip.size {
        Resize(ip, off + n);
        SyncedFacts(st0, st1, St(ip), off, off + n);
      }
      LogsAre();
      if alone && sb.size <= BPB {
        DoneVerdict(w1, ws, l1, logs, st1, size0, off, off + n);
      }
    }

    /** One round of readi's loop. A block that is not mapped is allocated, and reads as zeros. */
    method ReadRound(ip: Inode, cur: nat, m: nat) returns (piece: seq<Byte>, ok: bool)
      requires Logging() && St(ip).Ok() && held == {} && ip.size <= MAXSIZE
      requires 0 < m && cur + m <= ip.size && cur % BSIZE + m <= BSIZE
      modifies this, ip`addrs
      ensures Logging() && base == old(base) && busy == old(busy) && old(acts) <= acts
      ensures old(St(ip)).At(ip.inum, SlotOf(cur / BSIZE)) != 0 ==>
        ok && disk == old(disk) && ws == old(ws) && ip.addrs == old(ip.addrs)
      ensures !ok ==> Packed(St(ip))
      ensures ok ==>
        && held == {} && Extended(old(St(ip)), St(ip), SlotsFor(cur / BSIZE))
        && Room(St(ip)) <= Room(old(St(ip))) && piece == Content(St(ip), ip.inum, ip.size)[cur..cur + m]
        && (old(St(ip)).At(ip.inum, SlotOf(cur / BSIZE)) == 0 ==> Room(St(ip)) < Room(old(St(ip))))
    {
      hide State.Marked, State.Apart, State.MetaMarked;
      hide State.Ok, Packed, Extended, State.At, Content, BitmapBlocks, Room, RoundLogs, Fs.Journal;
      ghost var st := St(ip);
      OkShape(st);
      piece, ok := [], false;
      var b := Bmap(ip, cur / BSIZE);
      if b.Stopped? {
        return;
      }
      ExtendedOk(st, St(ip), SlotsFor(cur / BSIZE));
      MappedData(St(ip), cur / BSIZE);
      DataOnDisk(St(ip), b.a);
      BlockSlice(St(ip), ip.size, cur, m);
      Bread(b.a);
      piece, ok := disk[b.a][cur % BSIZE..cur % BSIZE + m], true;
      Brelse(b.a);
    }

    /** Outside a transaction that has gone well so far nothing has been logged. */
    lemma NothingLogged()
      requires Logging() && !busy && verdict.Fine?
      ensures ws == [] && disk == base
    {
      hide AllBelow, Orderly, Held, Writes, Logged, Kept, L.LoggedSectors, L.FirstPanic;
      if ws != [] {
        L.OutsideIsRefused(ws, sb.nlog);
      }
    }

    /** readi: the clipped slice of the file's bytes, with zeros in its holes. The disk is left alone exactly if every
        block of the slice is mapped. A hole is filled on the way, which outside a transaction is a panic. */
    method Readi(ip: Inode, off: Uint, n: Uint) returns (r: ReadResult)
      requires Logging() && St(ip).Ok() && ip.size <= MAXSIZE && ip.typ != T_DEV && held == {} && verdict.Fine?
      modifies this, ip`addrs
      ensures Logging() && base == old(base) && busy == old(busy) && old(acts) <= acts
      ensures r.NotRead? <==> off > ip.size || off + n >= 0x1_0000_0000
      ensures r.NotRead? || AllMapped(old(St(ip)), off, Clip(ip.size, off, n)) ==>
        !r.Stuck? && !r.Panicked? && disk == old(disk) && ws == old(ws) && ip.addrs == old(ip.addrs) && held == {}
      ensures r.Got? ==>
        && r.data == Content(old(St(ip)), ip.inum, ip.size)[off..Clip(ip.size, off, n)]
        && held == {} && St(ip).Ok() && SameBytes(old(St(ip)), St(ip)) && Accounted(old(St(ip)), St(ip))
        && (disk == old(disk) <==> AllMapped(old(St(ip)), off, Clip(ip.size, off, n)))
      ensures r.Panicked? <==> !verdict.Fine?
      ensures r.Stuck? ==> Packed(St(ip))
      ensures !busy && !r.NotRead? ==> (r.Got? <==> AllMapped(old(St(ip)), off, Clip(ip.size, off, n)))
    {
      hide State.Marked, State.Apart, State.MetaMarked;
      hide Wraps, State.Ok, Content, Fits, Packed, Extended, State.At, AllMapped, Room, Fs.Journal, L.FirstPanic;
      hide SameBytes, Accounted, L.LoggedSectors, L.SectorsAre;
      WrapsExactly(off, n);
      if off > ip.size || Wraps(off, n) {
        return NotRead;
      }
      var len := if off + n > ip.size then ip.size - off else n;
      ghost var st0 := St(ip);
      OkShape(st0);
      LogsAre();
      if !busy {
        NothingLogged();
      }
      var data, ok := ReadLoop(ip, off, len);
      LogsAre();
      if !verdict.Fine? {
        return Panicked;
      }
      if !ok {
        return Stuck;
      }
      OkShape(St(ip));
      RoomOfDisk(st0, St(ip));
      if !busy {
        NothingLogged();
      }
      r := Got(data);
    }

    /** The loop of readi. */
    method ReadLoop(ip: Inode, off: nat, len: nat) returns (data: seq<Byte>, ok: bool)
      requires Logging() && St(ip).Ok() && held == {} && off + len <= ip.size <= MAXSIZE
      modifies this, ip`addrs
      ensures Logging() && base == old(base) && busy == old(busy) && old(acts) <= acts
      ensures AllMapped(old(St(ip)), off, off + len) ==>
        ok && disk == old(disk) && ws == old(ws) && ip.addrs == old(ip.addrs) && held == {}
      ensures !ok ==> Packed(St(ip))
      ensures ok ==>
        && data == Content(old(St(ip)), ip.inum, ip.size)[off..off + len] && held == {}
        && St(ip).Ok() && SameBytes(old(St(ip)), St(ip)) && Accounted(old(St(ip)), St(ip))
        && (!AllMapped(old(St(ip)), off, off + len) ==> Room(St(ip)) < Room(old(St(ip))))
    {
      hide State.Marked, State.Apart, State.MetaMarked;
      hide State.Ok, Content, Fits, Packed, Extended, State.At, AllMapped, Room, Fs.Journal, PieceLen, SameBytes, Accounted;
      ghost var st0, S := St(ip), {};
      OkShape(st0);
      ExtendedNone(st0, S);
      NoneMapped(st0, off);
      data, ok := [], true;
      var tot := 0;
      while tot < len
        invariant 0 <= tot <= len && (tot == 0 || tot == len || (off + tot) % BSIZE == 0) && ok
        invariant Logging() && base == old(base) && busy == old(busy) && old(acts) <= acts && held == {}
        invariant Extended(st0, St(ip), S) && St(ip).Ok() && St(ip).Shape()
        invariant data == Slice(st0, ip.size, off, off + tot)
        invariant AllMapped(st0, off, off + tot) ==> disk == old(disk) && ws == old(ws) && ip.addrs == old(ip.addrs)
        invariant Room(St(ip)) <= Room(st0) && (!AllMapped(st0, off, off + tot) ==> Room(St(ip)) < Room(st0))
      {
        var cur := off + tot;
        var m := PieceLen(cur, len - tot);
        ghost var st := St(ip);
        var piece;
        piece, ok := ReadRound(ip, cur, m);
        MappedNext(st0, off, cur, m);
        MappedLess(st0, off, cur + m, off + len);
        if !ok {
          return;
        }
        ExtendedTwice(st0, st, St(ip), S, SlotsFor(cur / BSIZE));
        S := S + SlotsFor(cur / BSIZE);
        ExtendedOk(st0, St(ip), S);
        SliceNext(st0, St(ip), S, ip.size, off, cur, m);
        data := data + piece;
        tot := tot + m;
      }
      ExtendedFacts(st0, St(ip), S);
    }

    /** bfree clears one bit; false is the panic "freeing free block". */
    method Bfree(b: nat) returns (ok: bool)
      requires Logging() && b < sb.size && SUPER !in held && held !! BitmapBlocks(sb)
      modifies this`disk, this`ws, this`acts, this`held, this`logs, this`kept, this`logged, this`verdict
      ensures Logging() && old(acts) <= acts && OnlyIn(old(|acts|), BitmapBlocks(sb))
      ensures ok <==> Used(sb, old(disk), b)
      ensures ok ==> disk == WithBit(sb, old(disk), b, false) && held == old(held)
      ensures logs <= old(logs) + BitmapBlocks(sb)
      ensures !ok ==> disk == old(disk) && ws == old(ws)
    {
      hide PutByteBit, Bit, Fs.Journal, BitmapBlocks;
      BBlockBelow(sb, disk, b);
      BitmapBlock(sb, b);
      ReadSuper();
      Bread(sb.BBlock(b));
      ModOf8(512 * (b / BPB), b % BPB);
      var bp := disk[sb.BBlock(b)];
      if !Bit(bp[b % BPB / 8], b % BPB % 8) {
        return false;
      }
      LogWrite(sb.BBlock(b), bp[b % BPB / 8 := PutByteBit(bp[b % BPB / 8], b % BPB % 8, false)]);
      Brelse(sb.BBlock(b));
      ok := true;
    }

    /** Free the block of slot `t` if it has one: the mark is still there, so bfree does not panic. */
    method FreeSlot(a: Uint, ghost st0: State, ghost mine: seq<Uint>, ghost T: set<int>, ghost t: nat)
      requires Logging() && Freed(st0, State(sb, disk, st0.me, mine), T)
      requires t < NSLOT && t !in T && st0.Shape() && a == st0.At(st0.me, t)
      requires SUPER !in held && held !! BitmapBlocks(sb)
      modifies this`disk, this`ws, this`acts, this`held, this`logs, this`kept, this`logged, this`verdict
      ensures Logging() && old(acts) <= acts && held == old(held)
      ensures Freed(st0, State(sb, disk, st0.me, mine), T + {t as int})
      ensures logs <= old(logs) + BitmapBlocks(sb)
      ensures OnlyIn(old(|acts|), BitmapBlocks(sb))
    {
      hide Freed, BitmapBlocks, Fs.Journal;
      if a != 0 {
        FreedStep(st0, State(sb, disk, st0.me, mine), T, t);
        var ok := Bfree(a);
        assert ok;
      } else {
        FreedSkip(st0, State(sb, disk, st0.me, mine), T, t);
      }
    }

    /** The first loop of itrunc: the direct blocks. */
    method TruncDirect(ip: Inode, ghost st0: State)
      requires Logging() && st0 == St(ip) && st0.Ok() && held == {}
      modifies this, ip`addrs
      ensures Logging() && base == old(base) && busy == old(busy) && old(acts) <= acts
      ensures Freed(st0, St(ip), Below(NDIRECT)) && |ip.addrs| == NDIRECT + 1
      ensures ip.addrs[..NDIRECT] == seq(NDIRECT, k => 0) && ip.addrs[NDIRECT] == old(ip.addrs[NDIRECT])
      ensures logs <= old(logs) + BitmapBlocks(sb)
      ensures OnlyIn(old(|acts|), BitmapBlocks(sb)) && held == {}
    {
      hide State.Marked, State.Apart, State.MetaMarked;
      hide Freed, State.Ok, BitmapBlocks, Below, Fs.Journal, State.At, Fits;
      OkShape(st0);
      FreedNone(st0);
      var i := 0;
      while i < NDIRECT
        invariant 0 <= i <= NDIRECT && |ip.addrs| == NDIRECT + 1
        invariant Logging() && base == old(base) && busy == old(busy) && old(acts) <= acts
        invariant Freed(st0, St(ip), Below(i)) && held == {}
        invariant forall k :: 0 <= k < i ==> ip.addrs[k] == 0
        invariant forall k :: i <= k <= NDIRECT ==> ip.addrs[k] == st0.mine[k]
        invariant logs <= old(logs) + BitmapBlocks(sb)
        invariant OnlyIn(old(|acts|), BitmapBlocks(sb))
      {
        BelowStep(i);
        DirectSlot(st0, i);
        FreeSlot(ip.addrs[i], st0, ip.addrs, Below(i), i);
        FreedAnyList(st0, St(ip), Below(i) + {i}, ip.addrs[i := 0]);
        ip.addrs := ip.addrs[i := 0];
        i := i + 1;
      }
    }

    /** The second loop of itrunc: the entries of the indirect block `bp`. */
    method FreeEntries(bp: Block, ghost st0: State, ghost mine: seq<Uint>)
      requires Logging() && Freed(st0, State(sb, disk, st0.me, mine), Below(NDIRECT)) && st0.Shape()
      requires forall j :: 0 <= j < NINDIRECT ==> GetWord(bp, 4 * j) == st0.At(st0.me, NDIRECT + 1 + j)
      requires SUPER !in held && held !! BitmapBlocks(sb)
      modifies this`disk, this`ws, this`acts, this`held, this`logs, this`kept, this`logged, this`verdict
      ensures Logging() && base == old(base) && busy == old(busy) && old(acts) <= acts
      ensures Freed(st0, State(sb, disk, st0.me, mine), Entries(NINDIRECT))
      ensures logs <= old(logs) + BitmapBlocks(sb)
      ensures OnlyIn(old(|acts|), BitmapBlocks(sb)) && held == old(held)
    {
      hide Freed, BitmapBlocks, Below, Entries, GetWord, State.At, Fits, Fs.Journal;
      var j := 0;
      EntriesStep(0);
      while j < NINDIRECT
        invariant 0 <= j <= NINDIRECT
        invariant Logging() && base == old(base) && busy == old(busy) && old(acts) <= acts
        invariant Freed(st0, State(sb, disk, st0.me, mine), Entries(j)) && held == old(held)
        invariant logs <= old(logs) + BitmapBlocks(sb)
        invariant OnlyIn(old(|acts|), BitmapBlocks(sb))
      {
        EntriesStep(j);
        FreeSlot(GetWord(bp, 4 * j), st0, mine, Entries(j), NDIRECT + 1 + j);
        j := j + 1;
      }
    }

    /** The indirect half of itrunc: the entries, then the indirect block itself. */
    method TruncIndirect(ip: Inode, ghost st0: State)
      requires Logging() && Freed(st0, St(ip), Below(NDIRECT)) && st0.me == ip.inum && st0.Shape()
      requires |ip.addrs| == NDIRECT + 1 && ip.addrs[NDIRECT] == st0.mine[NDIRECT] != 0 && held == {}
      modifies this
      ensures Logging() && base == old(base) && busy == old(busy) && old(acts) <= acts
      ensures Freed(st0, St(ip), Below(NSLOT))
      ensures logs <= old(logs) + BitmapBlocks(sb)
      ensures OnlyIn(old(|acts|), BitmapBlocks(sb) + {ip.addrs[NDIRECT] as int}) && held == {}
    {
      hide Freed, BitmapBlocks, Below, Entries, GetWord, Fs.Journal;
      FreedIndirect(st0, St(ip), Below(NDIRECT));
      IndirectSlot(st0, st0.me);
      EntriesStep(0);
      var x := ip.addrs[NDIRECT];
      DataApart(st0, {x as int});
      Bread(x);
      FreeEntries(disk[x], st0, ip.addrs);
      Brelse(x);
      FreeSlot(x, st0, ip.addrs, Entries(NINDIRECT), NDIRECT);
    }

    /** Both loops of itrunc: every block freed, every entry of the list cleared. */
    method FreeBlocks(ip: Inode, ghost st0: State)
      requires Logging() && st0 == St(ip) && st0.Ok() && held == {}
      modifies this, ip`addrs
      ensures Logging() && base == old(base) && busy == old(busy) && old(acts) <= acts && held == {}
      ensures Freed(st0, St(ip), Below(NSLOT)) && ip.addrs == seq(NDIRECT + 1, k => 0)
      ensures logs <= old(logs) + BitmapBlocks(sb)
      ensures |old(ip.addrs)| == NDIRECT + 1 && OnlyIn(old(|acts|), BitmapBlocks(sb) + IndirectOf(old(ip.addrs)))
    {
      hide State.Marked, State.Apart, State.MetaMarked;
      hide Freed, State.Ok, BitmapBlocks, Below, State.At, Fs.Journal;
      OkShape(st0);
      TruncDirect(ip, st0);
      if ip.addrs[NDIRECT] != 0 {
        TruncIndirect(ip, st0);
        FreedAnyList(st0, St(ip), Below(NSLOT), ip.addrs[NDIRECT := 0]);
        ip.addrs := ip.addrs[NDIRECT := 0];
      } else {
        FreedDirect(st0, St(ip));
      }
      assert ip.addrs == seq(NDIRECT + 1, k => 0);
    }

    /** itrunc: the blocks of the inode become free, exactly those, and it is empty in memory and on disk. False is a panic
        of log_write. */
    method Itrunc(ip: Inode) returns (ok: bool)
      requires Logging() && St(ip).Ok() && held == {} && verdict.Fine?
      modifies this, ip`addrs, ip`size
      ensures Logging() && base == old(base) && busy == old(busy) && old(acts) <= acts
      ensures ok <==> verdict.Fine?
      ensures old(busy && ws == []) && sb.size <= BPB && L.Limit(sb.nlog) >= 2 ==> ok
      ensures ok ==>
        && FileOk(ip) && Bytes(ip) == [] && held == {} && OthersKept(old(St(ip)), St(ip))
        && (forall b :: St(ip).InUse(b) <==> old(St(ip)).InUse(b) && !HeldIn(old(St(ip)), Below(NSLOT), b))
        && (old(NoHoles(St(ip), ip.inum, ip.size)) ==> Room(St(ip)) == Room(old(St(ip))) + Cost(old(ip.size)))
        && OnlyIn(old(|acts|), BitmapBlocks(sb) + IndirectOf(old(ip.addrs)) + {sb.IBlock(ip.inum) as int})
    {
      hide State.Marked, State.Apart, State.MetaMarked;
      hide Freed, State.Ok, BitmapBlocks, OthersKept, Used, InodeOf, NoHoles, SyncedWith, HeldIn, State.InUse;
      hide Below, State.At, Room, Cost, Fs.Journal, L.LoggedSectors, L.FirstPanic, OneLogged, L.SectorsAre;
      ghost var st0, size0 := St(ip), ip.size;
      OkShape(st0);
      if ws == [] {
        NoneLogged();
      }
      FreeBlocks(ip, st0);
      ghost var st1 := St(ip);
      FreedAll(st0, st1);
      FreedMarks(st0, st1);
      if NoHoles(st0, st0.me, size0) {
        FreedRoom(st0, st1, size0);
      }
      LogsAre();
      ghost var l1, w1 := logs, ws;
      Resize(ip, 0);
      SyncedOthers(st0, st1, St(ip));
      LogsAre();
      if old(busy && ws == []) && sb.size <= BPB {
        TruncVerdict(w1, ws, l1, logs, st0);
      }
      ok := verdict.Fine?;
    }
  }
}
