/** pipe.c.  Each method is the code between acquiring the pipe's lock and giving it up, by a
    return or by going to sleep; whoever was woken calls again with what is left to do.  Whether
    the calling process has been killed is a parameter. */
module Pipe {
  import opened Bytes

  const PIPESIZE: nat := 512

  /** How a critical section ends: the call returns, fails with -1, or waits. */
  datatype Outcome = Done | Failed | Asleep

  // ---------------------------------------------------------------- the ring

  /** `ring` holds the bytes of `stored` from position `taken` on. */
  ghost predicate Holds(ring: seq<byte>, stored: seq<byte>, taken: nat) {
    && |ring| == PIPESIZE && taken <= |stored| <= taken + PIPESIZE
    && forall k :: taken <= k < |stored| ==> ring[k % PIPESIZE] == stored[k]
  }

  /** The 32-bit counter of an event that has happened `n` times. */
  ghost predicate Counts(c: nat, n: nat) {
    c == n % WORD
  }

  lemma Slots(j: nat, k: nat)
    requires j < k < j + PIPESIZE
    ensures j % PIPESIZE != k % PIPESIZE
  {
  }

  /** PIPESIZE divides 2^32, so a counter that wraps still finds the right slot. */
  lemma SlotOf(c: nat, n: nat)
    requires Counts(c, n)
    ensures c % PIPESIZE == n % PIPESIZE
  {
    assert n == WORD * (n / WORD) + c;
    assert n == PIPESIZE * (0x80_0000 * (n / WORD)) + c;
  }

  lemma FullIff(r: nat, w: nat, nread: nat, nwrite: nat)
    requires Counts(nread, r) && Counts(nwrite, w) && r <= w <= r + PIPESIZE
    ensures nwrite == (nread + PIPESIZE) % WORD <==> w == r + PIPESIZE
    ensures nwrite == nread <==> w == r
  {
  }

  lemma Store(ring: seq<byte>, stored: seq<byte>, taken: nat, b: byte)
    requires Holds(ring, stored, taken) && |stored| < taken + PIPESIZE
    ensures Holds(ring[|stored| % PIPESIZE := b], stored + [b], taken)
  {
    forall k: nat | taken <= k < |stored|
      ensures k % PIPESIZE != |stored| % PIPESIZE
    {
      Slots(k, |stored|);
    }
  }

  lemma Tick(c: nat, n: nat)
    requires Counts(c, n)
    ensures Counts((c + 1) % WORD, n + 1)
  {
  }

  class PipeBuf {
    const data: array<byte>
    var nread: nat
    var nwrite: nat
    var readopen: bool
    var writeopen: bool
    var readers: set<nat>        // asleep on &p->nread
    var writers: set<nat>        // asleep on &p->nwrite
    ghost var stored: seq<byte>  // every byte ever written, in order
    ghost var read: seq<byte>    // every byte ever read, in order

    /** What is read is a prefix of what was stored, and the rest is in the ring, however often the
        counters have wrapped. */
    ghost predicate Valid()
      reads this, data
    {
      && data.Length == PIPESIZE && read <= stored
      && Counts(nread, |read|) && Counts(nwrite, |stored|)
      && Holds(data[..], stored, |read|)
    }

    /** Nobody sleeps who could go on. */
    ghost predicate NoLostWakeup()
      reads this
    {
      && (readers != {} ==> |read| == |stored| && writeopen)
      && (writers != {} ==> |stored| == |read| + PIPESIZE && readopen)
    }

    constructor ()
      ensures Valid() && NoLostWakeup() && readopen && writeopen && stored == read == [] && readers == writers == {}
      ensures fresh(data)
    {
      data := new byte[PIPESIZE](_ => 0);
      nread, nwrite, readopen, writeopen := 0, 0, true, true;
      readers, writers := {}, {};
      stored, read := [], [];
    }

    /** `pipeclose`.  The page of the pipe is to be freed when both ends are closed. */
    method Close(writable: bool) returns (free: bool)
      requires Valid()
      modifies this`readopen, this`writeopen, this`readers, this`writers
      ensures Valid() && (old(NoLostWakeup()) ==> NoLostWakeup())
      ensures writable ==> !writeopen && readers == {} && readopen == old(readopen) && writers == old(writers)
      ensures !writable ==> !readopen && writers == {} && writeopen == old(writeopen) && readers == old(readers)
      ensures free <==> !readopen && !writeopen
      ensures free && old(NoLostWakeup()) ==> readers == {} && writers == {}
    {
      if writable {
        writeopen := false;
        readers := {};
      } else {
        readopen := false;
        writers := {};
      }
      free := !readopen && !writeopen;
    }

    /** `pipewrite`, from the byte at `from` on.  It stores what fits, in order.  Asleep means the
        pipe is full.  A failed call wakes nobody: a wakeup is lost exactly when a reader sleeps,
        the call is bound to fail once the pipe is full, and there is more than the pipe holds. */
    method Write(tid: nat, src: seq<byte>, from: nat, killed: bool) returns (to: nat, r: Outcome)
      requires Valid() && from <= |src| && tid !in readers && tid !in writers
      modifies this`nwrite, this`stored, this`readers, this`writers, data
      ensures Valid() && from <= to <= |src| && stored == old(stored) + src[from..to]
      ensures r.Done? <==> to == |src|
      ensures !r.Done? ==> |stored| == |read| + PIPESIZE && (r.Failed? <==> !readopen || killed)
      ensures readers == (if r.Failed? then old(readers) else {})
      ensures writers == (if r.Asleep? then old(writers) + {tid} else old(writers))
      ensures old(NoLostWakeup()) ==> (NoLostWakeup() <==> !(old(readers) != {} && (killed || !readopen) && |src| - from > PIPESIZE))
    {
      to := from;
      while to < |src|
        invariant Valid() && from <= to <= |src| && stored == old(stored) + src[from..to]
        invariant readers == old(readers) && writers == old(writers)
      {
        FullIff(|read|, |stored|, nread, nwrite);
        if nwrite == (nread + PIPESIZE) % WORD {
          if !readopen || killed {
            return to, Failed;
          }
          readers := {};
          writers := writers + {tid};
          return to, Asleep;
        }
        SlotOf(nwrite, |stored|);
        Store(data[..], stored, |read|, src[to]);
        Tick(nwrite, |stored|);
        data[nwrite % PIPESIZE] := src[to];
        nwrite := (nwrite + 1) % WORD;
        stored := stored + [src[to]];
        to := to + 1;
      }
      readers := {};
      r := Done;
    }

    /** `piperead`: the next bytes in order, at most `n`.  Asleep means the pipe is empty and can
        still be written. */
    method Read(tid: nat, n: nat, killed: bool) returns (got: seq<byte>, r: Outcome)
      requires Valid() && tid !in readers && tid !in writers
      modifies this`nread, this`read, this`readers, this`writers
      ensures Valid() && read == old(read) + got && |got| <= n
      ensures r.Done? ==> |got| == n || |read| == |stored|
      ensures !r.Done? <==> |old(read)| == |stored| && writeopen
      ensures !r.Done? ==> got == [] && (r.Failed? <==> killed)
      ensures readers == (if r.Asleep? then old(readers) + {tid} else old(readers))
      ensures writers == (if r.Done? then {} else old(writers))
      ensures old(NoLostWakeup()) ==> NoLostWakeup()
    {
      got := [];
      FullIff(|read|, |stored|, nread, nwrite);
      if nread == nwrite && writeopen {
        if killed {
          return got, Failed;
        }
        readers := readers + {tid};
        return got, Asleep;
      }
      while |got| < n
        invariant Valid() && |got| <= n && read == old(read) + got && readers == old(readers) && writers == old(writers)
        invariant |old(read)| == |stored| ==> got == []
      {
        FullIff(|read|, |stored|, nread, nwrite);
        if nread == nwrite {
          break;
        }
        SlotOf(nread, |read|);
        Tick(nread, |read|);
        got := got + [data[nread % PIPESIZE]];
        read := read + [data[nread % PIPESIZE]];
        nread := (nread + 1) % WORD;
      }
      FullIff(|read|, |stored|, nread, nwrite);
      writers := {};
      r := Done;
    }

    /** `kill` makes a sleeper runnable. */
    method WakeKilled(tid: nat)
      modifies this`readers, this`writers
      ensures readers == old(readers) - {tid} && writers == old(writers) - {tid}
      ensures old(NoLostWakeup()) ==> NoLostWakeup()
    {
      readers, writers := readers - {tid}, writers - {tid};
    }
  }

  /** The lost wakeup: a reader waits, a writer fills the pipe and is killed, and the reader still
      waits on a full pipe. */
  method LostWakeup() returns (p: PipeBuf)
    ensures p.Valid() && 1 in p.readers && |p.read| == 0 && |p.stored| == PIPESIZE
  {
    p := new PipeBuf();
    var got, r := p.Read(1, 10, false);
    var src: seq<byte> := seq(PIPESIZE + 1, _ => 0);
    var to, s := p.Write(2, src, 0, true);
    assert |src[0..to]| == to;
  }
}
