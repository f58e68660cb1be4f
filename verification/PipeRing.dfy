/** The ring buffer of a pipe and its two 32-bit counters. */
module PipeRing {
  import opened Blocks

  const PIPESIZE: nat := 512
  const WRAP: nat := 0x1_0000_0000

  /** The fields of struct pipe under its lock. */
  datatype Ring = Ring(data: seq<byte>, nread: word, nwrite: word, readopen: bool, writeopen: bool)

  predicate Empty(r: Ring) { r.nread == r.nwrite }
  predicate Full(r: Ring) { r.nwrite == (r.nread + PIPESIZE) % WRAP }

  // p->data[p->nwrite++ % PIPESIZE] = b
  function Put(r: Ring, b: byte): Ring
    requires |r.data| == PIPESIZE
  {
    r.(data := r.data[r.nwrite % PIPESIZE := b], nwrite := (r.nwrite + 1) % WRAP)
  }

  // p->data[p->nread++ % PIPESIZE]
  function Get(r: Ring): (b: byte)
    requires |r.data| == PIPESIZE
  {
    r.data[r.nread % PIPESIZE]
  }

  function Got(r: Ring): Ring
  {
    r.(nread := (r.nread + 1) % WRAP)
  }

  predicate Stored(r: Ring, written: seq<byte>, k: nat)
    requires |r.data| == PIPESIZE && k < |written|
  {
    r.data[k % PIPESIZE] == written[k]
  }

  // The ring stands for everything ever written but not yet read, which is at
  // most PIPESIZE bytes, however often the counters have wrapped around; what
  // has been read is what was written first.
  ghost predicate Fifo(r: Ring, written: seq<byte>, read: seq<byte>)
  {
    && |r.data| == PIPESIZE
    && |read| <= |written| <= |read| + PIPESIZE && read == written[..|read|]
    && r.nwrite == |written| % WRAP && r.nread == |read| % WRAP
    && forall k: nat :: |read| <= k < |written| ==> Stored(r, written, k)
  }

  // The counters wrap, and still tell an empty ring and a full one apart.
  lemma Counters(r: Ring, written: seq<byte>, read: seq<byte>)
    requires Fifo(r, written, read)
    ensures Empty(r) <==> written == read
    ensures Full(r) <==> |written| == |read| + PIPESIZE
  {
    ModBetween(|read|, |written| - |read|);
    ModBetween(|read| + PIPESIZE, |written| - |read| - PIPESIZE);
  }

  // Numbers closer than WRAP agree modulo WRAP only if they are equal.
  lemma ModBetween(a: nat, d: int)
    requires -0x1_0000_0000 < d < 0x1_0000_0000 && 0 <= a + d
    ensures (a + d) % WRAP == a % WRAP <==> d == 0
    ensures (a + d) % WRAP == (a % WRAP + d) % WRAP
  {
  }

  // PIPESIZE divides WRAP.
  lemma Index(n: nat)
    ensures n % WRAP % PIPESIZE == n % PIPESIZE
  {
    assert n == n / WRAP * WRAP + n % WRAP;
    assert n / WRAP * WRAP == n / WRAP * 0x80_0000 * PIPESIZE;
    ModPlus(n % WRAP, n / WRAP * 0x80_0000);
  }

  lemma ModPlus(a: nat, q: nat)
    ensures (a + q * PIPESIZE) % PIPESIZE == a % PIPESIZE
  {
  }

  lemma PutFifo(r: Ring, written: seq<byte>, read: seq<byte>, b: byte)
    requires Fifo(r, written, read) && !Full(r)
    ensures Fifo(Put(r, b), written + [b], read) && !Empty(Put(r, b))
  {
    Counters(r, written, read);
    Index(|written|);
    ModBetween(|written|, 1);
    var r', w := Put(r, b), written + [b];
    forall k: nat | |read| <= k < |w| ensures Stored(r', w, k) {
      if k < |written| {
        assert Stored(r, written, k);
        Apart(k, |written|);
      }
    }
    Counters(r', w, read);
  }

  // Two positions less than PIPESIZE apart have their own places.
  lemma Apart(j: nat, k: nat)
    requires j < k < j + PIPESIZE
    ensures j % PIPESIZE != k % PIPESIZE
  {
  }

  lemma GetFifo(r: Ring, written: seq<byte>, read: seq<byte>)
    requires Fifo(r, written, read) && !Empty(r)
    ensures |read| < |written| && Get(r) == written[|read|]
    ensures Fifo(Got(r), written, read + [Get(r)]) && !Full(Got(r))
  {
    Counters(r, written, read);
    Index(|read|);
    ModBetween(|read|, 1);
    assert Stored(r, written, |read|);
    var r' := Got(r);
    forall k: nat | |read| + 1 <= k < |written| ensures Stored(r', written, k) { assert Stored(r, written, k); }
    Counters(r', written, read + [Get(r)]);
  }

  /** A pipe, and what is done to it with its lock held. */
  class Pipe {
    const data: array<byte>
    var nread: word
    var nwrite: word
    var readopen: bool
    var writeopen: bool
    ghost var written: seq<byte>
    ghost var read: seq<byte>

    ghost function View(): Ring
      reads this, data
    {
      Ring(data[..], nread, nwrite, readopen, writeopen)
    }

    ghost predicate Valid()
      reads this, data
    {
      Fifo(View(), written, read)
    }

    // pipealloc
    constructor ()
      ensures Valid() && fresh(data) && written == [] == read && readopen && writeopen
    {
      data := new byte[PIPESIZE];
      nread, nwrite, readopen, writeopen := 0, 0, true, true;
      written, read := [], [];
    }

    // pipewrite's loop from byte i on: goes on until all is in the ring or
    // the ring is full.
    method Deposit(addr: seq<byte>, i: nat) returns (j: nat)
      requires Valid() && i <= |addr|
      modifies this`nwrite, this`written, data
      ensures Valid() && i <= j <= |addr|
      ensures written == old(written) + addr[i..j]
      ensures j == |addr| || Full(View())
      ensures j == |addr| || |written| == |read| + PIPESIZE
    {
      j := i;
      while j < |addr|
        invariant i <= j <= |addr| && Valid() && written == old(written) + addr[i..j]
      {
        ghost var r := View();
        Counters(r, written, read);
        if nwrite == (nread + PIPESIZE) % WRAP {
          break;
        }
        PutFifo(r, written, read, addr[j]);
        Index(nwrite);
        data[nwrite % PIPESIZE] := addr[j];
        nwrite := (nwrite + 1) % WRAP;
        written := written + [addr[j]];
        assert View() == Put(r, addr[j]);
        assert addr[i..j + 1] == addr[i..j] + [addr[j]];
        j := j + 1;
      }
    }

    // piperead's loop: the oldest unread bytes, n of them or all there are.
    method Deliver(n: nat) returns (addr: seq<byte>)
      requires Valid()
      modifies this`nread, this`read
      ensures Valid() && written == old(written) && read == old(read) + addr
      ensures |addr| == if n <= |old(written)| - |old(read)| then n else |old(written)| - |old(read)|
      ensures |old(read)| + |addr| <= |written| && addr == written[|old(read)|..|old(read)| + |addr|]
    {
      addr := [];
      var i := 0;
      while i < n
        invariant i <= n && |addr| == i && Valid() && read == old(read) + addr
      {
        ghost var r := View();
        Counters(r, written, read);
        if nread == nwrite {
          break;
        }
        GetFifo(r, written, read);
        read := read + [data[nread % PIPESIZE]];
        addr := addr + [data[nread % PIPESIZE]];
        nread := (nread + 1) % WRAP;
        assert View() == Got(r);
        i := i + 1;
      }
      Counters(View(), written, read);
    }

    // pipeclose on one end; true when neither is open any more.
    method Close(writable: bool) returns (gone: bool)
      requires Valid()
      modifies this`readopen, this`writeopen
      ensures Valid() && writeopen == (old(writeopen) && !writable) && readopen == (old(readopen) && writable)
      ensures gone <==> !readopen && !writeopen
    {
      ghost var r := View();
      if writable {
        writeopen := false;
      } else {
        readopen := false;
      }
      gone := !readopen && !writeopen;
      assert View().data == r.data;
      forall k: nat | |read| <= k < |written| ensures Stored(View(), written, k) { assert Stored(r, written, k); }
    }
  }
}
