/** The pipe's ring buffer with its wrapping 32-bit counters (pipe.c). */
module Pipe {
  import opened Words
  import opened PipeSpec

  /** The value of a 32-bit counter after `n` increments. */
  function Ctr(n: nat): Uint { n % 0x1_0000_0000 }

  /** The place in the ring that a counter selects. */
  function Slot(n: nat): (i: nat)
    ensures i < PIPESIZE
  {
    n % PIPESIZE
  }

  class Pipe {
    const data: array<Byte>
    var nread: Uint
    var nwrite: Uint
    var readopen: bool
    var writeopen: bool
    var readers: set<int>  // asleep on &nread
    var writers: set<int>  // asleep on &nwrite
    ghost var sent: seq<Byte>
    ghost var got: seq<Byte>

    constructor ()
      ensures Valid() && fresh(data) && View() == Core([], [], true, true, {}, {})
    {
      data := new Byte[PIPESIZE];
      nread, nwrite, readopen, writeopen := 0, 0, true, true;
      readers, writers, sent, got := {}, {}, [], [];
    }

    ghost function View(): Core
      reads this
    {
      Core(sent, got, readopen, writeopen, readers, writers)
    }

    /** The counters are the byte counts modulo 2^32, and the bytes in between are in the ring. */
    ghost predicate Valid()
      reads this, data
    {
      && data.Length == PIPESIZE && View().Fifo()
      && nread == Ctr(|got|) && nwrite == Ctr(|sent|)
      && forall k :: |got| <= k < |sent| ==> data[Slot(k)] == sent[k]
    }

    /** One byte into the ring, which has room for it. */
    method PutByte(x: Byte)
      requires Valid() && View().Room() > 0
      modifies this`nwrite, this`sent, data
      ensures Valid() && View() == old(View()).(sent := old(sent) + [x])
    {
      hide Ctr, Slot;
      CtrSlot(|sent|);
      Apart(|sent|, |got|);
      data[Slot(nwrite)] := x;
      nwrite := Ctr(nwrite + 1);
      sent := sent + [x];
    }

    /** pipewrite between taking the lock and returning or sleeping, `rest` being what is left of the bytes. */
    method WriteSome(p: int, rest: seq<Byte>) returns (k: nat, how: Wrote)
      requires Valid()
      modifies this, data
      ensures Valid() && (View(), k, how) == Write(old(View()), p, rest)
      ensures k <= |rest| && sent == old(sent) + rest[..k] && got == old(got)
      ensures how.All? <==> |old(sent)| + |rest| <= |got| + PIPESIZE
      ensures if how.All? then k == |rest| else |sent| == |got| + PIPESIZE && (how.Broken? <==> !readopen)
    {
      hide Ctr, Slot;
      ghost var c := View();
      k := 0;
      while k < |rest|
        invariant 0 <= k <= |rest| && k <= c.Room() && Valid()
        invariant View() == c.(sent := c.sent + rest[..k])
      {
        FullTest(|sent|, |got|);
        if nwrite == Ctr(nread + PIPESIZE) {
          if !readopen {
            return k, Broken;
          }
          readers := {};
          writers := writers + {p};
          return k, Blocked;
        }
        PutByte(rest[k]);
        assert rest[..k + 1] == rest[..k] + [rest[k]];
        k := k + 1;
      }
      assert rest[..k] == rest;
      readers := {};
      how := All;
    }

    /** piperead's copy loop: up to `n` bytes, as many as there are. */
    method CopyOut(n: int) returns (out: seq<Byte>)
      requires Valid()
      modifies this`nread, this`got
      ensures Valid() && |out| == Avail(old(View()), n) && got == old(got) + out
      ensures (out == [] || |out| <= n) && (|out| < n ==> got == sent)
    {
      hide Ctr, Slot;
      ghost var c := View();
      out := [];
      while |out| < n
        invariant |out| <= Avail(c, n) && Valid() && got == c.got + out
      {
        FullTest(|sent|, |got|);
        if nread == nwrite {
          break;
        }
        CtrSlot(|got|);
        var b := data[Slot(nread)];
        out := out + [b];
        got := got + [b];
        nread := Ctr(nread + 1);
      }
    }

    /** piperead between taking the lock and returning or sleeping. */
    method ReadSome(p: int, n: int, killed: bool) returns (r: Read)
      requires Valid()
      modifies this
      ensures Valid() && (View(), r) == ReadUp(old(View()), p, n, killed)
      ensures r.Bytes? <==> old(got) != old(sent) || !writeopen
      ensures r.Bytes? ==>
        && sent == old(sent) && got == old(got) + r.data && (r.data == [] || |r.data| <= n)
        && (|r.data| < n ==> got == sent) && (0 < n && old(got) != old(sent) ==> r.data != [])
    {
      hide Ctr, Slot;
      ghost var c := View();
      FullTest(|sent|, |got|);
      if nread == nwrite && writeopen {
        if killed {
          return Interrupted;
        }
        readers := readers + {p};
        return Dry;
      }
      var out := CopyOut(n);
      writers := {};
      assert out == got[|c.got|..] == sent[|c.got|..|got|];
      r := Bytes(out);
    }

    /** pipeclose; the result says whether the pipe is freed. */
    method CloseEnd(writable: bool) returns (freed: bool)
      requires Valid()
      modifies this
      ensures Valid() && View() == Close(old(View()), writable)
      ensures freed <==> !readopen && !writeopen
    {
      if writable {
        writeopen := false;
        readers := {};
      } else {
        readopen := false;
        writers := {};
      }
      freed := !readopen && !writeopen;
    }
  }

  /** The counter tests are exact although the counters wrap. */
  lemma FullTest(w: nat, r: nat)
    requires r <= w <= r + PIPESIZE
    ensures Ctr(w) == Ctr(Ctr(r) + PIPESIZE) <==> w == r + PIPESIZE
    ensures Ctr(w) == Ctr(r) <==> w == r
  {
  }

  /** A wrapped counter selects the same place as the count itself: 512 divides 2^32. */
  lemma CtrSlot(n: nat)
    ensures Slot(Ctr(n)) == Slot(n) && Ctr(Ctr(n) + 1) == Ctr(n + 1)
  {
    var q := n / 0x1_0000_0000;
    assert n == 0x1_0000_0000 * q + Ctr(n);
    assert n == PIPESIZE * (0x80_0000 * q) + Ctr(n);
  }

  /** Pending bytes have places of their own. */
  lemma Apart(w: nat, r: nat)
    requires r <= w < r + PIPESIZE
    ensures forall k :: r <= k < w ==> Slot(k) != Slot(w)
  {
  }
}
