/** The content of a file as a sequence of bytes, and what a run of bmap and
    memmove steps does to it. */
module FileContent {
  import opened Blocks
  import opened BlockMap

  // Bytes lo, lo + 1, ..., lo + n - 1 of file i.
  function Slice(f: Fs, i: nat, lo: nat, n: nat): (s: seq<byte>)
    requires Shaped(f) && i < |f.inodes| && lo + n <= MAXBYTES
    ensures |s| == n && forall k: nat :: k < n ==> s[k] == Byte(f, i, lo + k)
  {
    if n == 0 then [] else Slice(f, i, lo, n - 1) + [Byte(f, i, lo + n - 1)]
  }

  function Content(f: Fs, i: nat): seq<byte>
    requires Shaped(f) && i < |f.inodes| && f.inodes[i].size <= MAXBYTES
  {
    Slice(f, i, 0, f.inodes[i].size)
  }

  // Overwriting from off on, growing the sequence when data runs past it.
  function Overwritten(old_: seq<byte>, off: nat, data: seq<byte>): seq<byte>
    requires off <= |old_|
  {
    old_[..off] + data + if off + |data| <= |old_| then old_[off + |data|..] else []
  }

  predicate Mapped(f: Fs, i: nat, bn: nat)
    requires Shaped(f) && i < |f.inodes|
  {
    bn < MAXFILE && bn * BSIZE < f.inodes[i].size ==> AddrOf(f, i, bn) != 0
  }

  // Every block below the size is there.
  ghost predicate FileOk(f: Fs, i: nat)
    requires Shaped(f)
  {
    i < |f.inodes| ==> f.inodes[i].size <= MAXBYTES && forall bn: nat :: Mapped(f, i, bn)
  }

  // The whole invariant at rest: every allocated block has an owner and
  // every file is mapped up to its size.
  ghost predicate Rest(f: Fs)
  {
    Inv(f) && f.pending == {} && forall i: nat :: FileOk(f, i)
  }

  predicate KeptSlot(f: Fs, f': Fs, t: Slot)
    requires Shaped(f) && Shaped(f') && |f'.inodes| == |f.inodes|
  {
    IsSlot(f, t) ==> At(f, t) != 0 ==> At(f', t) == At(f, t)
  }

  // Nothing but empty slots of file i has changed, and no byte of any file.
  ghost predicate Grown(f: Fs, f': Fs, i: nat)
    requires Shaped(f) && i < |f.inodes|
  {
    && Shaped(f') && f'.g == f.g && |f'.blocks| == |f.blocks| && |f'.inodes| == |f.inodes|
    && (forall t: Slot :: KeptSlot(f, f', t))
    && (forall k: nat :: k < |f.inodes| && k != i ==> f'.inodes[k] == f.inodes[k])
    && f'.inodes[i] == f.inodes[i].(addrs := f'.inodes[i].addrs)
    && (forall k: nat :: k < |f.inodes| ==> SameBytes(f, f', k))
  }

  predicate ByteWritten(f: Fs, f': Fs, i: nat, off: nat, data: seq<byte>, y: nat)
    requires Shaped(f) && Shaped(f') && i < |f.inodes| && i < |f'.inodes|
  {
    y < MAXBYTES ==> Byte(f', i, y) == if off <= y < off + |data| then data[y - off] else Byte(f, i, y)
  }

  // data has been stored at off in file i; its size and every other file are
  // as before, and if the inode changed at all the write ran past the size.
  ghost predicate Written(f: Fs, f': Fs, i: nat, off: nat, data: seq<byte>)
    requires Shaped(f) && i < |f.inodes|
  {
    && Shaped(f') && f'.g == f.g && |f'.blocks| == |f.blocks| && |f'.inodes| == |f.inodes|
    && (forall t: Slot :: KeptSlot(f, f', t))
    && (forall k: nat :: k < |f.inodes| && k != i ==> f'.inodes[k] == f.inodes[k] && SameBytes(f, f', k))
    && f'.inodes[i] == f.inodes[i].(addrs := f'.inodes[i].addrs)
    && (forall y: nat :: ByteWritten(f, f', i, off, data, y))
    && (f'.inodes[i] == f.inodes[i] || f.inodes[i].size < off + |data|)
  }

  // One turn of writei's loop: bmap, then memmove.
  lemma WriteStep(f0: Fs, f: Fs, f1: Fs, i: nat, off: nat, done: seq<byte>, chunk: seq<byte>)
    requires Inv(f0) && i < |f0.inodes| && Written(f0, f, i, off, done) && FileOk(f0, i)
    requires Inv(f) && Grown(f, f1, i) && Inv(f1)
    requires 0 < |chunk| && off + |done| + |chunk| <= MAXBYTES
    requires (off + |done|) % BSIZE + |chunk| <= BSIZE
    requires AddrOf(f1, i, (off + |done|) / BSIZE) != 0
    requires AddrOf(f, i, (off + |done|) / BSIZE) != 0 ==> f1 == f
    ensures AddrOf(f1, i, (off + |done|) / BSIZE) < |f1.blocks|
    ensures var f2 := Poked(f1, AddrOf(f1, i, (off + |done|) / BSIZE), (off + |done|) % BSIZE, chunk);
      Inv(f2) && Written(f0, f2, i, off, done + chunk)
      && forall t: Slot :: IsSlot(f1, t) ==> At(f2, t) == At(f1, t)
  {
    hide Byte, At, SlotOk, OwnerOk, BitOk, PendingOk, Splice;
    var bn, x := (off + |done|) / BSIZE, (off + |done|) % BSIZE;
    assert bn * BSIZE + x == off + |done| && bn < MAXFILE;
    InRange(f1, i, bn);
    var f2 := Poked(f1, AddrOf(f1, i, bn), x, chunk);
    PokedInv(f1, i, bn, x, chunk);
    forall t: Slot ensures KeptSlot(f0, f2, t) { assert KeptSlot(f0, f, t) && KeptSlot(f, f1, t); }
    forall k: nat | k < |f0.inodes| && k != i ensures f2.inodes[k] == f0.inodes[k] && SameBytes(f0, f2, k) {
      assert SameBytes(f0, f, k) && SameBytes(f, f1, k) && SameBytes(f1, f2, k);
    }
    forall y: nat ensures ByteWritten(f0, f2, i, off, done + chunk, y) {
      assert ByteWritten(f0, f, i, off, done, y) && SameBytes(f, f1, i);
    }
    if f1.inodes[i] != f.inodes[i] {
      assert Mapped(f0, i, bn) && KeptSlot(f0, f, SlotOf(i, bn));
      assert AddrOf(f0, i, bn) == 0;
    }
  }

  lemma InRange(f: Fs, i: nat, bn: nat)
    requires Inv(f) && i < |f.inodes| && bn < MAXFILE && AddrOf(f, i, bn) != 0
    ensures AddrOf(f, i, bn) < |f.blocks|
  {
    SlotBlock(f, SlotOf(i, bn));
  }

  // A completed write, with the size brought up to date, overwrites the content.
  lemma WrittenContent(f: Fs, f': Fs, i: nat, off: nat, data: seq<byte>)
    requires Shaped(f) && i < |f.inodes| && Written(f, f', i, off, data)
    requires off <= f.inodes[i].size <= MAXBYTES && off + |data| <= MAXBYTES
    ensures var top := if f.inodes[i].size < off + |data| then off + |data| else f.inodes[i].size;
      Slice(f', i, 0, top) == Overwritten(Content(f, i), off, data)
  {
    hide Byte, KeptSlot, SameBytes;
    var top := if f.inodes[i].size < off + |data| then off + |data| else f.inodes[i].size;
    var s, t := Slice(f', i, 0, top), Overwritten(Content(f, i), off, data);
    forall y: nat | y < top ensures s[y] == t[y] {
      assert ByteWritten(f, f', i, off, data, y);
    }
    assert |s| == |t|;
  }

  // ---- which blocks a write logs ----

  function Bitmaps(g: Geo, n: nat): set<nat>
  {
    if n == 0 then {} else Bitmaps(g, n - 1) + {BitmapBlock(g, n - 1)}
  }

  lemma {:induction false} BitmapIn(g: Geo, n: nat, b: nat)
    requires b < n
    ensures BitmapBlock(g, b) in Bitmaps(g, n)
  {
    if b < n - 1 { BitmapIn(g, n - 1, b); }
  }

  // One bitmap block when the disk is no larger than one block of bits.
  lemma {:induction false} OneBitmap(g: Geo, n: nat)
    requires n <= BPB
    ensures Bitmaps(g, n) <= {g.bmapstart}
  {
    if n != 0 { OneBitmap(g, n - 1); }
  }

  function Data(f: Fs, i: nat, lo: nat, hi: nat): set<nat>
    requires Shaped(f) && i < |f.inodes| && hi <= MAXFILE
  {
    if hi <= lo then {} else Data(f, i, lo, hi - 1) + {AddrOf(f, i, hi - 1) as nat}
  }

  lemma {:induction false} DataKept(f: Fs, f': Fs, i: nat, lo: nat, hi: nat)
    requires Shaped(f) && Shaped(f') && |f'.inodes| == |f.inodes| && i < |f.inodes| && hi <= MAXFILE
    requires forall bn: nat :: lo <= bn < hi ==> AddrOf(f, i, bn) != 0
    requires forall t: Slot :: KeptSlot(f, f', t)
    ensures Data(f', i, lo, hi) == Data(f, i, lo, hi)
  {
    hide At;
    if lo < hi {
      DataKept(f, f', i, lo, hi - 1);
      assert KeptSlot(f, f', SlotOf(i, hi - 1));
    }
  }

  lemma {:induction false} DataSize(f: Fs, i: nat, lo: nat, hi: nat)
    requires Shaped(f) && i < |f.inodes| && lo <= hi <= MAXFILE
    ensures |Data(f, i, lo, hi)| <= hi - lo
  {
    if lo < hi { DataSize(f, i, lo, hi - 1); }
  }

  // The blocks a transaction that writes blocks lo..hi of file i may log.
  function Footprint(f: Fs, i: nat, lo: nat, hi: nat): set<nat>
    requires Shaped(f) && i < |f.inodes| && hi <= MAXFILE
  {
    Bitmaps(f.g, f.g.size) + {InodeBlock(f.g, i)} + Data(f, i, lo, hi)
    + if IndirectOf(f, i) == 0 then {} else {IndirectOf(f, i) as nat}
  }

  lemma FootprintKept(f: Fs, f': Fs, i: nat, lo: nat, hi: nat)
    requires Shaped(f) && Shaped(f') && |f'.inodes| == |f.inodes| && i < |f.inodes| && hi <= MAXFILE && f'.g == f.g
    requires forall bn: nat :: lo <= bn < hi ==> AddrOf(f, i, bn) != 0
    requires forall t: Slot :: KeptSlot(f, f', t)
    ensures Footprint(f, i, lo, hi) <= Footprint(f', i, lo, hi)
  {
    hide At;
    DataKept(f, f', i, lo, hi);
    assert KeptSlot(f, f', Ind(i));
    ReadIndirect(f, i);
    ReadIndirect(f', i);
  }

  // However aligned, a write of at most n bytes logs at most two blocks more
  // than fit in n, and one each of the free map, the inode and the indirect
  // block.
  lemma FootprintSize(f: Fs, i: nat, off: nat, n: nat)
    requires Shaped(f) && i < |f.inodes| && 0 < n && off + n <= MAXBYTES && f.g.size <= BPB
    ensures (off + n - 1) / BSIZE + 1 <= MAXFILE
    ensures |Footprint(f, i, off / BSIZE, (off + n - 1) / BSIZE + 1)| <= 3 + (n - 1) / BSIZE + 2
  {
    hide At;
    var lo, hi := off / BSIZE, (off + n - 1) / BSIZE + 1;
    OneBitmap(f.g, f.g.size);
    DataSize(f, i, lo, hi);
    assert hi - lo <= (n - 1) / BSIZE + 2;
    var meta := {f.g.bmapstart, InodeBlock(f.g, i), IndirectOf(f, i) as nat};
    assert Footprint(f, i, lo, hi) <= meta + Data(f, i, lo, hi);
    SubsetSize(Footprint(f, i, lo, hi), meta + Data(f, i, lo, hi));
    assert |meta| <= 3;
  }

  lemma {:induction false} SubsetSize<T>(a: set<T>, b: set<T>)
    requires a <= b
    ensures |a| <= |b|
  {
    assert b == a + (b - a);
  }

  // One turn of readi's loop continues the slice.
  lemma ReadStep(f: Fs, i: nat, off: nat, done: nat, m: nat)
    requires Inv(f) && i < |f.inodes| && off + done + m <= MAXBYTES && 0 < m && (off + done) % BSIZE + m <= BSIZE
    requires AddrOf(f, i, (off + done) / BSIZE) != 0
    ensures AddrOf(f, i, (off + done) / BSIZE) < |f.blocks|
    ensures Slice(f, i, off, done + m) == Slice(f, i, off, done)
      + f.blocks[AddrOf(f, i, (off + done) / BSIZE)][(off + done) % BSIZE..(off + done) % BSIZE + m]
  {
    hide At, SlotOk, OwnerOk, BitOk, PendingOk;
    var bn, x := (off + done) / BSIZE, (off + done) % BSIZE;
    InRange(f, i, bn);
    var s, t := Slice(f, i, off, done + m), Slice(f, i, off, done) + f.blocks[AddrOf(f, i, bn)][x..x + m];
    forall k: nat | k < done + m ensures s[k] == t[k] {
      if done <= k { assert (off + k) / BSIZE == bn && (off + k) % BSIZE == x + k - done; }
    }
    assert |s| == |t|;
  }

  lemma ContentSlice(f: Fs, i: nat, off: nat, n: nat)
    requires Shaped(f) && i < |f.inodes| && f.inodes[i].size <= MAXBYTES && off + n <= f.inodes[i].size
    ensures Slice(f, i, off, n) == Content(f, i)[off..off + n]
  {
    hide Byte;
  }

  // The blocks logged so far while blocks lo..hi of file i are written.
  ghost predicate Logged(l0: set<nat>, l: set<nat>, f: Fs, i: nat, lo: nat, hi: nat)
    requires Shaped(f) && i < |f.inodes| && hi <= MAXFILE
  {
    && (forall bn: nat :: lo <= bn < hi ==> AddrOf(f, i, bn) != 0)
    && (lo == hi ==> l == l0)
    && l <= l0 + Footprint(f, i, lo, hi)
  }

  lemma LoggedStep(l0: set<nat>, l: set<nat>, l1: set<nat>, f: Fs, f1: Fs, i: nat, lo: nat, hi: nat)
    requires Shaped(f) && Shaped(f1) && |f1.inodes| == |f.inodes| && i < |f.inodes| && lo <= hi < MAXFILE && f1.g == f.g
    requires Logged(l0, l, f, i, lo, hi) && (forall t: Slot :: KeptSlot(f, f1, t))
    requires AddrOf(f1, i, hi) != 0 && l1 <= l + Footprint(f1, i, hi, hi + 1)
    ensures Logged(l0, l1 + {AddrOf(f1, i, hi) as nat}, f1, i, lo, hi + 1)
  {
    hide At;
    FootprintKept(f, f1, i, lo, hi);
    forall bn: nat | lo <= bn < hi + 1 ensures AddrOf(f1, i, bn) != 0 {
      if bn < hi { assert AddrOf(f, i, bn) != 0 && KeptSlot(f, f1, SlotOf(i, bn)); }
    }
    assert Data(f1, i, hi, hi + 1) == {AddrOf(f1, i, hi) as nat};
    assert Data(f1, i, lo, hi + 1) == Data(f1, i, lo, hi) + {AddrOf(f1, i, hi) as nat};
  }

  // Poking a data block moves no slot.
  lemma LoggedSame(l0: set<nat>, l: set<nat>, f: Fs, f1: Fs, i: nat, lo: nat, hi: nat)
    requires Shaped(f) && Shaped(f1) && |f1.inodes| == |f.inodes| && i < |f.inodes| && hi <= MAXFILE && f1.g == f.g
    requires Logged(l0, l, f, i, lo, hi) && (forall t: Slot :: IsSlot(f, t) ==> At(f1, t) == At(f, t))
    ensures Logged(l0, l, f1, i, lo, hi)
  {
    hide At;
    forall t: Slot ensures KeptSlot(f, f1, t) { }
    FootprintKept(f, f1, i, lo, hi);
    forall bn: nat | lo <= bn < hi ensures AddrOf(f1, i, bn) != 0 { assert AddrOf(f, i, bn) != 0; }
  }
}
