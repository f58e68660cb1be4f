/** What single calls of bmap, writei and filewrite do to the block maps and
    the content of files, stated on values. Filled and Bmapped are what an
    allocation and a call of bmap leave; Copied is how far the loop of writei
    has come, and what it has logged; WrittenTo is what a finished writei
    leaves; Chunked and Filewrote are one transaction of filewrite and the
    whole of it. The methods of the file system move their state along with
    these, one lemma for each turn of a loop. */
module FileSteps {
  import opened Blocks
  import opened BlockMap
  import opened FileContent
  import opened InodeBlocks
  import opened Truncation

  const T_DEV := 3
  const CHUNK: nat := 1536   // ((MAXOPBLOCKS - 1 - 1 - 2) / 2) * 512

  /** What a read or write returns: a count, -1, whatever the device driver
      says, or no return at all (the kernel panics for want of blocks). */
  datatype IoResult = Count(n: nat) | Error | Device | Panic

  // No bit of the free map is clear.
  ghost predicate Full(f: Fs)
    requires Shaped(f)
  {
    forall b: nat :: b < f.g.size ==> InUse(f, b)
  }

  // None of the bits lo .. hi - 1 is clear.
  ghost predicate NoneFree(f: Fs, lo: nat, hi: nat)
    requires Shaped(f)
  {
    forall b: nat :: lo <= b < hi && b < f.g.size ==> InUse(f, b)
  }

  lemma NoneFreeNone(f: Fs, lo: nat)
    requires Shaped(f)
    ensures NoneFree(f, lo, lo)
  {
  }

  lemma NoneFreeNext(f: Fs, lo: nat, hi: nat)
    requires Shaped(f) && NoneFree(f, lo, hi) && (hi < f.g.size ==> InUse(f, hi))
    ensures NoneFree(f, lo, hi + 1)
  {
    hide InUse;
  }

  // There are no bits past the last block.
  lemma NoneFreePast(f: Fs, lo: nat, mid: nat, hi: nat)
    requires Shaped(f) && NoneFree(f, lo, mid) && f.g.size <= mid
    ensures NoneFree(f, lo, hi)
  {
    hide InUse;
  }

  lemma NoneFreeJoined(f: Fs, lo: nat, mid: nat, hi: nat)
    requires Shaped(f) && NoneFree(f, lo, mid) && NoneFree(f, mid, hi)
    ensures NoneFree(f, lo, hi)
  {
    hide InUse;
  }

  lemma NoneFreeIs(f: Fs, hi: nat)
    requires Shaped(f) && NoneFree(f, 0, hi) && hi < f.g.size
    ensures forall c: nat :: c < hi ==> InUse(f, c)
  {
    hide InUse;
  }

  lemma NoneFreeAll(f: Fs, hi: nat)
    requires Shaped(f) && NoneFree(f, 0, hi) && f.g.size <= hi
    ensures Full(f)
  {
    hide InUse;
  }

  lemma FullIs(f: Fs)
    requires Shaped(f) && Full(f)
    ensures forall b: nat :: b < f.g.size ==> InUse(f, b)
  {
    hide InUse;
  }

  // f' is f with block b, zeroed, in the slot s that was empty.
  ghost predicate Filled(f: Fs, f': Fs, s: Slot, b: nat)
    requires Shaped(f)
  {
    && Inv(f') && f'.pending == {} && IsSlot(f, s) && Grown(f, f', s.i)
    && f.g.datastart <= b < f.g.size && b !in f.owner
    && (forall t :: IsSlot(f, t) ==> At(f', t) == if t == s then b else At(f, t))
  }

  lemma FilledBy(f: Fs, f1: Fs, s: Slot, b: nat)
    requires Inv(f) && f.pending == {} && b < f.g.size && !InUse(f, b) && f1 == Claimed(f, b)
    requires IsSlot(f, s) && At(f, s) == 0 && (s.Entry? ==> 0 < IndirectOf(f, s.i) < |f.blocks|)
    requires Inv(f1) && Attachable(f1, s, b)
    ensures Filled(f, Attached(f1, s, b), s, b)
  {
    hide SlotOk, OwnerOk, BitOk, PendingOk, At, Byte;
    ClaimedInv(f, b);
    AttachedInv(f1, s, b);
    var f' := Attached(f1, s, b);
    forall t: Slot ensures KeptSlot(f, f', t) { }
    forall k: nat | k < |f.inodes| ensures SameBytes(f, f', k) {
      assert SameBytes(f, f1, k) && SameBytes(f1, f', k);
    }
  }

  // Where block bn of file i is stored: in the inode, or in its indirect block.
  lemma AddrIs(f: Fs, i: nat, bn: nat)
    requires Inv(f) && i < |f.inodes| && bn < MAXFILE && AddrOf(f, i, bn) != 0
    ensures |f.inodes[i].addrs| == NDIRECT + 1 && AddrOf(f, i, bn) < |f.blocks|
    ensures bn < NDIRECT ==> f.inodes[i].addrs[bn] == AddrOf(f, i, bn)
    ensures NDIRECT <= bn ==>
      && 0 < f.inodes[i].addrs[NDIRECT] < |f.blocks|
      && GetWord(f.blocks[f.inodes[i].addrs[NDIRECT]], bn - NDIRECT) == AddrOf(f, i, bn)
  {
    SlotBlock(f, SlotOf(i, bn));
  }

  // Where byte x of a file at rest is on the device.
  lemma ContentAt(f: Fs, i: nat, x: nat)
    requires Rest(f) && Shaped(f) && i < |f.inodes| && x < f.inodes[i].size <= MAXBYTES
    ensures |Content(f, i)| == f.inodes[i].size && |f.inodes[i].addrs| == NDIRECT + 1
    ensures x < NDIRECT * BSIZE ==>
      && 0 < f.inodes[i].addrs[x / BSIZE] < |f.blocks|
      && Content(f, i)[x] == f.blocks[f.inodes[i].addrs[x / BSIZE]][x % BSIZE]
    ensures NDIRECT * BSIZE <= x ==>
      && 0 < f.inodes[i].addrs[NDIRECT] < |f.blocks|
      && var b := GetWord(f.blocks[f.inodes[i].addrs[NDIRECT]], x / BSIZE - NDIRECT);
         0 < b < |f.blocks| && Content(f, i)[x] == f.blocks[b][x % BSIZE]
  {
    hide SlotOk, OwnerOk, BitOk, PendingOk, At;
    assert FileOk(f, i) && Mapped(f, i, x / BSIZE);
    AddrIs(f, i, x / BSIZE);
  }

  // What bmap promises: f' maps block bn of file i to a, nothing that was
  // mapped has moved, no byte of any file has changed, and a block that was
  // there already leaves everything alone.
  ghost predicate Bmapped(f: Fs, f': Fs, i: nat, bn: nat, a: nat)
    requires Shaped(f) && i < |f.inodes| && bn < MAXFILE
  {
    && Inv(f') && f'.pending == {} && Grown(f, f', i)
    && a == AddrOf(f', i, bn) && f.g.datastart <= a < f.g.size
    && (AddrOf(f, i, bn) != 0 ==> f' == f)
  }

  lemma FootprintOf(f: Fs, i: nat, bn: nat)
    requires Shaped(f) && i < |f.inodes| && bn < MAXFILE
    ensures AddrOf(f, i, bn) as nat in Footprint(f, i, bn, bn + 1)
    ensures Bitmaps(f.g, f.g.size) <= Footprint(f, i, bn, bn + 1)
    ensures IndirectOf(f, i) != 0 ==> IndirectOf(f, i) as nat in Footprint(f, i, bn, bn + 1)
  {
  }

  lemma BmappedShape(f: Fs, f': Fs, i: nat, bn: nat, a: nat)
    requires Shaped(f) && i < |f.inodes| && bn < MAXFILE && Bmapped(f, f', i, bn, a)
    ensures Shaped(f') && |f'.inodes| == |f.inodes| && f'.g == f.g && |f'.blocks| == |f.blocks|
    ensures f.g.bmapstart <= a < f.g.size
  {
    BitmapBelow(f, 0);
  }

  lemma NextBits(b: nat)
    ensures (b + BPB) % BPB == b % BPB
  {
  }

  // A block whose bit is clear is a block of data.
  lemma FreeIsData(f: Fs, b: nat)
    requires Inv(f) && b < f.g.size && !InUse(f, b)
    ensures f.g.bmapstart <= b
  {
    ClaimedInv(f, b);
    BitmapBelow(f, 0);
  }

  lemma ReadSlots(f: Fs, i: nat)
    requires Shaped(f) && i < |f.inodes|
    ensures At(f, Ind(i)) == IndirectOf(f, i)
    ensures forall k: nat :: k < NDIRECT ==> At(f, Direct(i, k)) == f.inodes[i].addrs[k]
    ensures forall j: nat :: j < NINDIRECT && 0 < IndirectOf(f, i) < |f.blocks| ==>
            At(f, Entry(i, j)) == GetWord(f.blocks[IndirectOf(f, i)], j)
    ensures forall j: nat :: j < NINDIRECT && IndirectOf(f, i) == 0 ==> At(f, Entry(i, j)) == 0
  {
  }

  lemma GrownSame(f: Fs, i: nat)
    requires Shaped(f) && i < |f.inodes|
    ensures Grown(f, f, i)
  {
  }

  lemma GrownTrans(f: Fs, f1: Fs, f2: Fs, i: nat)
    requires Shaped(f) && i < |f.inodes| && Grown(f, f1, i) && Grown(f1, f2, i)
    ensures Grown(f, f2, i)
  {
    hide At, Byte;
    forall t: Slot ensures KeptSlot(f, f2, t) { assert KeptSlot(f, f1, t) && KeptSlot(f1, f2, t); }
    forall k: nat | k < |f.inodes| ensures SameBytes(f, f2, k) { assert SameBytes(f, f1, k) && SameBytes(f1, f2, k); }
  }

  lemma RestShaped(f: Fs)
    requires Rest(f)
    ensures Inv(f) && Shaped(f) && f.pending == {}
  {
  }

  // What readi returns, panics aside (there are none).
  function ReadResult(inode: Inode, off: word, n: word): IoResult
  {
    if inode.typ == T_DEV then Device
    else if off > inode.size || off + n >= 0x1_0000_0000 then Error
    else if off + n > inode.size then Count(inode.size - off)
    else Count(n)
  }

  function WriteResult(inode: Inode, off: nat, n: nat): IoResult
  {
    if inode.typ == T_DEV then Device
    else if off > inode.size || off + n > MAXBYTES then Error
    else Count(n)
  }

  // The content of file i has been overwritten with src at off, and every
  // other file is as it was.
  ghost predicate WrittenTo(f: Fs, f': Fs, i: nat, off: nat, src: seq<byte>)
    requires Rest(f) && i < |f.inodes|
  {
    && Rest(f') && f'.g == f.g && |f'.inodes| == |f.inodes|
    && FileOk(f, i) && FileOk(f', i) && off <= f.inodes[i].size
    && Content(f', i) == Overwritten(Content(f, i), off, src)
    && f'.inodes[i].typ == f.inodes[i].typ
    && forall k: nat :: k < |f.inodes| && k != i ==> f'.inodes[k] == f.inodes[k] && SameBytes(f, f', k)
  }

  lemma FootprintResized(f: Fs, f': Fs, i: nat, lo: nat, hi: nat)
    requires Shaped(f) && i < |f.inodes| && i < |f'.inodes| && hi <= MAXFILE && Resized(f, f', i, f'.inodes[i].size)
    ensures Shaped(f')
    ensures Footprint(f', i, lo, hi) == Footprint(f, i, lo, hi) && InodeBlock(f.g, i) in Footprint(f, i, lo, hi)
  {
    hide At, SlotOk, OwnerOk, BitOk, PendingOk, SameBytes;
    FootprintSame(f, f', i, lo, hi);
  }

  // Either the write runs past the size, or no inode has changed.
  lemma WrittenInode(f: Fs, f1: Fs, i: nat, off: nat, data: seq<byte>)
    requires Shaped(f) && i < |f.inodes| && Written(f, f1, i, off, data)
    ensures |f1.inodes| == |f.inodes| && f1.inodes[i] == f.inodes[i].(addrs := f1.inodes[i].addrs)
    ensures off + |data| <= f.inodes[i].size ==> f1.inodes == f.inodes
    ensures forall k: nat :: k < |f.inodes| && k != i ==> f1.inodes[k] == f.inodes[k]
  {
  }

  lemma WrittenNothing(f: Fs, i: nat, off: nat)
    requires Shaped(f) && i < |f.inodes|
    ensures Written(f, f, i, off, [])
  {
  }

  lemma LoggedNothing(l: set<nat>, f: Fs, i: nat, lo: nat)
    requires Shaped(f) && i < |f.inodes| && lo <= MAXFILE
    ensures Logged(l, l, f, i, lo, lo)
  {
  }

  lemma LoggedBound(l0: set<nat>, l: set<nat>, f: Fs, i: nat, lo: nat, hi: nat)
    requires Shaped(f) && i < |f.inodes| && hi <= MAXFILE && Logged(l0, l, f, i, lo, hi)
    ensures l <= l0 + Footprint(f, i, lo, hi) && (lo == hi ==> l == l0)
  {
  }

  lemma RangeIs(l0: set<nat>, l: set<nat>, f: Fs, i: nat, off: nat, n: nat)
    requires Shaped(f) && i < |f.inodes| && off + n <= MAXBYTES && 0 < n
    requires Logged(l0, l, f, i, off / BSIZE, (off + n - 1) / BSIZE + 1)
    ensures RangeMapped(f, i, off, n)
  {
    hide At;
  }

  lemma PokedIs(f: Fs, a: nat, x: nat, data: seq<byte>)
    requires a < |f.blocks| && x + |data| <= BSIZE
    ensures Poked(f, a, x, data) == f.(blocks := f.blocks[a := Splice(f.blocks[a], x, data)])
  {
  }

  // How far writei's loop has come: it is in the block after the last one
  // written, or has not begun, or is done.
  function Reached(off: nat, tot: nat): nat
  {
    if tot == 0 then off / BSIZE else (off + tot - 1) / BSIZE + 1
  }

  // The first tot bytes of src are in file i, and what that logged.
  ghost predicate Copied(f: Fs, f1: Fs, l0: set<nat>, l: set<nat>, i: nat, off: nat, src: seq<byte>, tot: nat)
    requires Shaped(f) && i < |f.inodes| && off + |src| <= MAXBYTES && tot <= |src|
  {
    && Written(f, f1, i, off, src[..tot])
    && (tot == 0 ==> f1 == f && l == l0)
    && (tot < |src| ==> (off + tot) / BSIZE == Reached(off, tot))
    && Reached(off, tot) <= MAXFILE && Logged(l0, l, f1, i, off / BSIZE, Reached(off, tot))
  }

  lemma CopyStart(f: Fs, l: set<nat>, i: nat, off: nat, src: seq<byte>)
    requires Rest(f) && i < |f.inodes| && off + |src| <= MAXBYTES
    ensures Copied(f, f, l, l, i, off, src, 0)
  {
    WrittenNothing(f, i, off);
    LoggedNothing(l, f, i, off / BSIZE);
  }

  lemma CopyNext(f: Fs, f1: Fs, l0: set<nat>, l: set<nat>, i: nat, off: nat, src: seq<byte>, tot: nat)
    requires Shaped(f) && i < |f.inodes| && off + |src| <= MAXBYTES && tot < |src|
             && Copied(f, f1, l0, l, i, off, src, tot)
    ensures (off + tot) / BSIZE < MAXFILE && Shaped(f1) && |f1.inodes| == |f.inodes|
  {
  }

  // One turn: bmap has answered a, and the next m bytes go there.
  lemma CopyTurn(f: Fs, f1: Fs, f2: Fs, l0: set<nat>, l1: set<nat>, l2: set<nat>, i: nat, off: nat, src: seq<byte>,
      tot: nat, m: nat, a: nat)
    requires Rest(f) && i < |f.inodes| && off + |src| <= MAXBYTES && tot + m <= |src|
    requires m == if |src| - tot < BSIZE - (off + tot) % BSIZE then |src| - tot else BSIZE - (off + tot) % BSIZE
    requires 0 < m && Inv(f1) && f1.pending == {} && i < |f1.inodes| && Copied(f, f1, l0, l1, i, off, src, tot)
    requires (off + tot) / BSIZE < MAXFILE && Bmapped(f1, f2, i, (off + tot) / BSIZE, a)
    requires Shaped(f2) && i < |f2.inodes| && l2 <= l1 + Footprint(f2, i, (off + tot) / BSIZE, (off + tot) / BSIZE + 1)
    ensures |f2.inodes| == |f.inodes| && f2.g == f.g && a < |f2.blocks| && f2.pending == {}
    ensures var f3 := Poked(f2, a, (off + tot) % BSIZE, src[tot..tot + m]);
      Inv(f3) && f3.g == f.g && Copied(f, f3, l0, l2 + {a}, i, off, src, tot + m)
  {
    hide SlotOk, OwnerOk, BitOk, PendingOk, At, SameBytes, Byte, KeptSlot, Splice, Mapped, ByteWritten, Footprint,
        Logged;
    assert FileOk(f, i);
    assert |src[..tot]| == tot && |src[tot..tot + m]| == m && src[..tot] + src[tot..tot + m] == src[..tot + m];
    var lo, hi := off / BSIZE, (off + tot) / BSIZE;
    WriteStep(f, f1, f2, i, off, src[..tot], src[tot..tot + m]);
    var f3 := Poked(f2, a, (off + tot) % BSIZE, src[tot..tot + m]);
    LoggedStep(l0, l1, l2, f1, f2, i, lo, hi);
    LoggedSame(l0, l2 + {a}, f2, f3, i, lo, hi + 1);
    assert Reached(off, tot + m) == hi + 1;
    assert tot + m < |src| ==> (off + tot + m) / BSIZE == hi + 1;
  }

  lemma CopyEnd(f: Fs, f1: Fs, l0: set<nat>, l: set<nat>, i: nat, off: nat, src: seq<byte>)
    requires Shaped(f) && i < |f.inodes| && off + |src| <= MAXBYTES && Copied(f, f1, l0, l, i, off, src, |src|)
    requires Inv(f1) && f1.pending == {}
    ensures Shaped(f1) && |f1.inodes| == |f.inodes| && Written(f, f1, i, off, src) && RangeMapped(f1, i, off, |src|)
    ensures src == [] ==> f1 == f && l == l0
    ensures src != [] ==> l <= l0 + Footprint(f1, i, off / BSIZE, (off + |src| - 1) / BSIZE + 1)
  {
    hide SlotOk, OwnerOk, BitOk, PendingOk, At, SameBytes, Byte, KeptSlot, ByteWritten, Footprint, Logged, RangeMapped;
    assert src[..|src|] == src;
    if src != [] {
      RangeIs(l0, l, f1, i, off, |src|);
      LoggedBound(l0, l, f1, i, off / BSIZE, (off + |src| - 1) / BSIZE + 1);
    } else {
      RangeNone(f1, i, off);
    }
  }

  lemma RangeNone(f: Fs, i: nat, off: nat)
    requires Shaped(f) && i < |f.inodes|
    ensures RangeMapped(f, i, off, 0)
  {
  }

  // Blocks under off .. off + n - 1 are there.
  ghost predicate RangeMapped(f: Fs, i: nat, off: nat, n: nat)
    requires Shaped(f) && i < |f.inodes|
  {
    0 < n ==> forall bn: nat :: off / BSIZE <= bn < MAXFILE && bn * BSIZE < off + n ==> AddrOf(f, i, bn) != 0
  }

  // The same block map and bytes, the size of file i brought up to date.
  ghost predicate Resized(f: Fs, f': Fs, i: nat, size: nat)
    requires Shaped(f) && i < |f.inodes|
  {
    && Inv(f') && f'.pending == f.pending && f'.g == f.g && |f'.inodes| == |f.inodes|
    && f'.inodes[i] == f.inodes[i].(size := size)
    && (forall k: nat :: k < |f.inodes| && k != i ==> f'.inodes[k] == f.inodes[k])
    && (forall k: nat :: k < |f.inodes| ==> SameBytes(f, f', k))
    && (forall t: Slot :: IsSlot(f, t) ==> At(f', t) == At(f, t))
  }

  lemma ResizedSelf(f: Fs, i: nat)
    requires Inv(f) && i < |f.inodes|
    ensures Resized(f, f, i, f.inodes[i].size)
  {
  }

  lemma ResizedPacked(f: Fs, i: nat, size: nat)
    requires Inv(f) && Placed(f) && i < |f.inodes| && Fits(Sized(f, i, size).inodes[i])
    ensures Resized(f, Packed(Sized(f, i, size), i), i, size)
  {
    hide At, SlotOk, OwnerOk, BitOk, PendingOk, SameBytes, InUse, PutInode;
    SizedInv(f, i, size);
    var f1 := Sized(f, i, size);
    PackedInv(f1, i);
    forall k: nat | k < |f.inodes| ensures SameBytes(f, Packed(f1, i), k) {
      SameBytesTrans(f, f1, Packed(f1, i), k);
    }
  }

  // From the finished copy and the new size to the contract of writei.
  lemma WriteDone(f: Fs, f1: Fs, f2: Fs, i: nat, off: nat, src: seq<byte>)
    requires Rest(f) && i < |f.inodes| && off <= f.inodes[i].size && off + |src| <= MAXBYTES
    requires Inv(f1) && f1.pending == {} && Written(f, f1, i, off, src) && RangeMapped(f1, i, off, |src|)
    requires Resized(f1, f2, i, if f.inodes[i].size < off + |src| then off + |src| else f.inodes[i].size)
    ensures WrittenTo(f, f2, i, off, src)
  {
    hide At, SlotOk, OwnerOk, BitOk, PendingOk, SameBytes, Byte, KeptSlot, FileOk, Overwritten;
    var top := if f.inodes[i].size < off + |src| then off + |src| else f.inodes[i].size;
    forall k: nat ensures FileOk(f2, k) {
      assert FileOk(f, k);
      FileDone(f, f1, f2, i, off, src, k);
    }
    FileSizes(f, i);
    WrittenContent(f, f1, i, off, src);
    SliceKept(f1, f2, i, 0, top);
    forall k: nat | k < |f.inodes| && k != i ensures f2.inodes[k] == f.inodes[k] && SameBytes(f, f2, k) {
      SameBytesTrans(f, f1, f2, k);
    }
  }

  lemma FileSizes(f: Fs, i: nat)
    requires Shaped(f) && FileOk(f, i) && i < |f.inodes|
    ensures f.inodes[i].size <= MAXBYTES
  {
  }

  lemma {:induction false} SliceKept(f: Fs, f': Fs, i: nat, lo: nat, n: nat)
    requires Shaped(f) && Shaped(f') && i < |f.inodes| && i < |f'.inodes| && lo + n <= MAXBYTES && SameBytes(f, f', i)
    ensures Slice(f', i, lo, n) == Slice(f, i, lo, n)
  {
    hide Byte;
    if n != 0 { SliceKept(f, f', i, lo, n - 1); }
  }

  lemma FileDone(f: Fs, f1: Fs, f2: Fs, i: nat, off: nat, src: seq<byte>, k: nat)
    requires Shaped(f) && i < |f.inodes| && FileOk(f, k) && Shaped(f1) && f1.pending == {}
    requires off <= f.inodes[i].size && off + |src| <= MAXBYTES
    requires Written(f, f1, i, off, src) && RangeMapped(f1, i, off, |src|)
    requires Resized(f1, f2, i, if f.inodes[i].size < off + |src| then off + |src| else f.inodes[i].size)
    ensures FileOk(f2, k)
  {
    hide At, SlotOk, OwnerOk, BitOk, PendingOk, SameBytes, ByteWritten;
    forall bn: nat | k < |f.inodes| ensures Mapped(f2, k, bn) {
      if bn < MAXFILE && bn * BSIZE < f2.inodes[k].size {
        var t := SlotOf(k, bn);
        assert Mapped(f, k, bn) && KeptSlot(f, f1, t);
        if k == i && f.inodes[i].size <= bn * BSIZE { assert AddrOf(f1, i, bn) != 0; }
      }
    }
  }

  lemma {:induction false} DataSame(f: Fs, f': Fs, i: nat, lo: nat, hi: nat)
    requires Shaped(f) && Shaped(f') && |f'.inodes| == |f.inodes| && i < |f.inodes| && hi <= MAXFILE
    requires forall t: Slot :: IsSlot(f, t) ==> At(f', t) == At(f, t)
    ensures Data(f', i, lo, hi) == Data(f, i, lo, hi)
  {
    hide At;
    if lo < hi { DataSame(f, f', i, lo, hi - 1); }
  }

  lemma FootprintSame(f: Fs, f': Fs, i: nat, lo: nat, hi: nat)
    requires Shaped(f) && Shaped(f') && |f'.inodes| == |f.inodes| && i < |f.inodes| && hi <= MAXFILE && f'.g == f.g
    requires forall t: Slot :: IsSlot(f, t) ==> At(f', t) == At(f, t)
    ensures Footprint(f', i, lo, hi) == Footprint(f, i, lo, hi)
    ensures InodeBlock(f.g, i) in Footprint(f, i, lo, hi)
  {
    DataSame(f, f', i, lo, hi);
    ReadIndirect(f, i);
    ReadIndirect(f', i);
  }

  // How many bytes filewrite writes: all, or the whole chunks below the
  // largest file size; none at all past the end.
  function Fitting(inode: Inode, off: nat, n: int): nat
  {
    if inode.typ == T_DEV || n <= 0 || off > inode.size || off > MAXBYTES then 0
    else if off + n <= MAXBYTES then n
    else (MAXBYTES - off) / CHUNK * CHUNK
  }

  // The first k bytes are written, in whole chunks, and the rest is not.
  ghost predicate Progress(f: Fs, f1: Fs, i: nat, off: nat, src: seq<byte>, n: int, k: nat)
    requires Rest(f) && i < |f.inodes| && n <= |src|
  {
    && Rest(f1) && f1.g == f.g && |f1.inodes| == |f.inodes| && f1.inodes[i].typ == f.inodes[i].typ
    && (k <= n || k == 0)
    && (k == 0 ==> f1 == f)
    && (0 < k ==>
        && f.inodes[i].typ != T_DEV && off + k <= MAXBYTES && off + k <= f1.inodes[i].size
        && WrittenTo(f, f1, i, off, src[..k]))
    && (0 < k < n ==> k % CHUNK == 0)
  }

  // ---- what the transactions leave, one after the other ----

  // One transaction: every block it changed is in l, which names at most 7.
  ghost predicate Linked(f: Fs, f': Fs, l: set<nat>)
  {
    && f'.g == f.g && |f'.inodes| == |f.inodes| && Synced(f')
    && OnlyLogged(f.g, f.blocks, f'.blocks, {}, l) && 0 < |l| <= 7
  }

  lemma LinkedSynced(f: Fs, f': Fs, l: set<nat>)
    requires Linked(f, f', l)
    ensures Synced(f') && f'.g == f.g && |f'.inodes| == |f.inodes|
  {
  }

  lemma WrittenShape(f: Fs, f': Fs, i: nat, off: nat, src: seq<byte>)
    requires Rest(f) && i < |f.inodes| && WrittenTo(f, f', i, off, src)
    ensures |f'.inodes| == |f.inodes| && f'.g == f.g && Shaped(f')
  {
  }

  // The state before the k-th transaction.
  function Before(f: Fs, ends: seq<Fs>, from: nat, k: nat): Fs
    requires from <= k <= |ends|
  {
    if k == from then f else ends[k - 1]
  }

  // What c chunks come to.
  function Upto(n: int, c: nat): nat
  {
    if c * CHUNK <= n then c * CHUNK else if n < 0 then 0 else n
  }

  ghost predicate TrailAt(f: Fs, i: nat, off: nat, src: seq<byte>, n: int, ops: seq<set<nat>>, ends: seq<Fs>, from: nat,
      k: nat)
    requires Rest(f) && i < |f.inodes| && n <= |src|
  {
    from <= k < |ops| && k < |ends| ==>
      && Linked(Before(f, ends, from, k), ends[k], ops[k])
      && Progress(f, ends[k], i, off, src, n, Upto(n, k - from + 1))
  }

  // Every transaction from the from-th on has written one chunk more of src.
  ghost predicate Trail(f: Fs, i: nat, off: nat, src: seq<byte>, n: int, ops: seq<set<nat>>, ends: seq<Fs>, from: nat)
    requires Rest(f) && i < |f.inodes| && n <= |src|
  {
    from <= |ops| == |ends| && forall k: nat :: TrailAt(f, i, off, src, n, ops, ends, from, k)
  }

  lemma TrailNone(f: Fs, i: nat, off: nat, src: seq<byte>, n: int, ops: seq<set<nat>>, ends: seq<Fs>)
    requires Rest(f) && i < |f.inodes| && n <= |src| && |ops| == |ends|
    ensures Trail(f, i, off, src, n, ops, ends, |ops|)
  {
  }

  lemma TrailMore(f: Fs, i: nat, off: nat, src: seq<byte>, n: int, ops: seq<set<nat>>, ends: seq<Fs>, from: nat,
      l: set<nat>, f': Fs)
    requires Rest(f) && i < |f.inodes| && n <= |src| && Trail(f, i, off, src, n, ops, ends, from)
    requires Linked(Before(f, ends, from, |ops|), f', l)
    requires Progress(f, f', i, off, src, n, Upto(n, |ops| - from + 1))
    ensures Trail(f, i, off, src, n, ops + [l], ends + [f'], from)
  {
    hide Rest, Linked, Progress, Upto;
    forall k: nat ensures TrailAt(f, i, off, src, n, ops + [l], ends + [f'], from, k) {
      assert TrailAt(f, i, off, src, n, ops, ends, from, k);
    }
  }

  // One more chunk: all of it, or none.
  ghost predicate Chunked(f: Fs, f': Fs, i: nat, off: nat, src: seq<byte>, n: int, k: nat, n1: nat, r: IoResult)
    requires Rest(f) && i < |f.inodes| && n <= |src|
  {
    && Rest(f') && Progress(f, f', i, off, src, n, if r.Count? then k + n1 else k)
    && (r.Count? ==> r.n == n1 && f.inodes[i].typ != T_DEV)
    && (r.Error? ==> k == Fitting(f.inodes[i], off, n) && k < n && f.inodes[i].typ != T_DEV)
    && (r.Device? ==> k == 0 == Fitting(f.inodes[i], off, n) && f.inodes[i].typ == T_DEV)
  }

  // What filewrite comes to: the offset has moved by what fits, that much of
  // src is in the file, and the answer says whether it was all.
  ghost predicate Filewrote(f: Fs, f': Fs, i: nat, off: nat, src: seq<byte>, n: int, r: IoResult, newoff: nat)
    requires Rest(f) && i < |f.inodes| && n <= |src|
  {
    && off <= newoff && newoff - off == Fitting(f.inodes[i], off, n)
    && Progress(f, f', i, off, src, n, newoff - off)
    && (r.Device? <==> 0 < n && f.inodes[i].typ == T_DEV)
    && (r.Count? <==> !r.Device? && newoff - off == n)
    && (r.Count? ==> r.n == n)
  }

  // What is written in a file, byte by byte, and in the others.
  lemma WrittenAt(f: Fs, f': Fs, i: nat, off: nat, src: seq<byte>, k: nat, x: nat)
    requires Rest(f) && i < |f.inodes| && k < |f.inodes| && WrittenTo(f, f', i, off, src)
    ensures Shaped(f') && |f'.inodes| == |f.inodes| && f.inodes[k].size <= MAXBYTES && f'.inodes[k].size <= MAXBYTES
    ensures k != i ==> Content(f', k) == Content(f, k)
    ensures f'.inodes[i].size == if f.inodes[i].size < off + |src| then off + |src| else f.inodes[i].size
    ensures k == i && x < f'.inodes[i].size ==>
      Content(f', i)[x] == if off <= x < off + |src| then src[x - off] else Content(f, i)[x]
  {
    hide At, Byte, SlotOk, OwnerOk, BitOk, PendingOk;
    assert FileOk(f, k) && FileOk(f', k);
    assert |Content(f', i)| == f'.inodes[i].size && |Content(f, i)| == f.inodes[i].size;
    if k != i { SliceKept(f, f', k, 0, f.inodes[k].size); }
  }

  // What filewrite has come to, case by case.
  lemma FilewroteAt(f: Fs, f': Fs, i: nat, off: nat, src: seq<byte>, n: int, r: IoResult, newoff: nat)
    requires Rest(f) && i < |f.inodes| && n <= |src| && Filewrote(f, f', i, off, src, n, r, newoff) && !r.Panic?
    ensures off <= newoff && newoff - off <= |src|
    ensures newoff == off ==> f' == f
    ensures off < newoff ==> WrittenTo(f, f', i, off, src[..newoff - off])
    ensures f.inodes[i].typ != T_DEV && off <= f.inodes[i].size ==>
      if n < 0 then r.Error? && newoff == off
      else if off + n <= MAXBYTES then r == Count(n) && newoff == off + n
      else r.Error? && newoff <= MAXBYTES < newoff + CHUNK && (newoff - off) % CHUNK == 0
    ensures f.inodes[i].typ != T_DEV && off > f.inodes[i].size ==>
      newoff == off && r == if n == 0 then Count(0) else Error
  {
    assert FileOk(f, i) && f.inodes[i].size <= MAXBYTES;
    hide Rest, WrittenTo, FileOk;
  }

  lemma FittingAll(inode: Inode, off: nat, n: int)
    requires inode.typ != T_DEV && 0 <= n && off <= inode.size && off + n <= MAXBYTES
    ensures Fitting(inode, off, n) == n
  {
  }

  lemma ProgressShape(f: Fs, f1: Fs, i: nat, off: nat, src: seq<byte>, n: int, k: nat)
    requires Rest(f) && i < |f.inodes| && n <= |src| && Progress(f, f1, i, off, src, n, k)
    ensures |f1.inodes| == |f.inodes| && f1.g == f.g && Shaped(f1)
  {
  }

  lemma ProgressStart(f: Fs, i: nat, off: nat, src: seq<byte>, n: int)
    requires Rest(f) && i < |f.inodes| && n <= |src|
    ensures Progress(f, f, i, off, src, n, 0)
  {
  }

  lemma ProgressBound(f: Fs, f1: Fs, i: nat, off: word, src: seq<byte>, n: int, k: nat)
    requires Rest(f) && i < |f.inodes| && n <= |src| && Progress(f, f1, i, off, src, n, k)
    ensures off + k < 0x1_0000_0000 && Shaped(f1) && f1.g == f.g
  {
  }

  lemma ProgressEnd(f: Fs, f1: Fs, i: nat, off: nat, src: seq<byte>, n: int, k: nat)
    requires Rest(f) && i < |f.inodes| && n <= |src| && Progress(f, f1, i, off, src, n, k) && n <= k
    ensures k == Fitting(f.inodes[i], off, n) && (0 < n ==> f.inodes[i].typ != T_DEV)
  {
    hide Byte, At, SlotOk, OwnerOk, BitOk, PendingOk, Content, SameBytes, Overwritten, FileOk, WrittenTo;
    if 0 < k { StartedInside(f, f1, i, off, src[..k]); }
  }

  // One call of writei from filewrite's loop.
  lemma ChunkDone(f: Fs, f1: Fs, f2: Fs, i: nat, off: nat, src: seq<byte>, n: int, k: nat, n1: nat, r: IoResult)
    requires Rest(f) && i < |f.inodes| && n <= |src| && Progress(f, f1, i, off, src, n, k) && k < n
    requires Rest(f1) && i < |f1.inodes| && n1 == if n - k > CHUNK then CHUNK else n - k
    requires r == WriteResult(f1.inodes[i], off + k, n1)
    requires r.Count? ==> WrittenTo(f1, f2, i, off + k, src[k..k + n1])
    requires !r.Count? ==> f2 == f1
    ensures r.Count? ==> Progress(f, f2, i, off, src, n, k + n1) && f.inodes[i].typ != T_DEV && off + k + n1 <= MAXBYTES
    ensures r.Error? ==> k == Fitting(f.inodes[i], off, n) && k < n
    ensures r.Device? <==> f.inodes[i].typ == T_DEV
    ensures r.Device? ==> k == 0
    ensures r.Count? ==> r.n == n1
    ensures Rest(f2) && Progress(f, f2, i, off, src, n, if r.Count? then k + n1 else k)
    ensures Shaped(f2) && |f2.inodes| == |f.inodes| && f2.inodes[i].typ == f.inodes[i].typ && f2.g == f.g
  {
    hide Byte, At, SlotOk, OwnerOk, BitOk, PendingOk, Content, SameBytes, Overwritten, FileOk, WrittenTo;
    if r.Count? {
      ChunkWritten(f, f1, f2, i, off, src, k, n1);
    } else if r.Error? && 0 < k {
      StartedInside(f, f1, i, off, src[..k]);
      assert off + k + n1 > MAXBYTES;
    }
  }

  lemma StartedInside(f: Fs, f1: Fs, i: nat, off: nat, src: seq<byte>)
    requires Rest(f) && i < |f.inodes| && WrittenTo(f, f1, i, off, src)
    ensures off <= f.inodes[i].size
  {
  }

  lemma ChunkLogged(f: Fs, i: nat, off: nat, n: nat, l: set<nat>)
    requires Shaped(f) && i < |f.inodes| && 0 < n <= CHUNK && off + n <= MAXBYTES && f.g.size <= BPB
    requires l <= Footprint(f, i, off / BSIZE, (off + n - 1) / BSIZE + 1)
    ensures |l| <= 7
  {
    hide Footprint, At;
    FootprintSize(f, i, off, n);
    SubsetSize(l, Footprint(f, i, off / BSIZE, (off + n - 1) / BSIZE + 1));
  }

  // Two adjoining writes are one.
  lemma ChunkWritten(f: Fs, f1: Fs, f2: Fs, i: nat, off: nat, src: seq<byte>, k: nat, n: nat)
    requires Rest(f) && Rest(f1) && i < |f.inodes| && i < |f1.inodes| && k + n <= |src| && 0 < n
    requires k == 0 ==> f1 == f
    requires 0 < k ==> WrittenTo(f, f1, i, off, src[..k])
    requires WrittenTo(f1, f2, i, off + k, src[k..k + n])
    ensures WrittenTo(f, f2, i, off, src[..k + n]) && off + k + n <= f2.inodes[i].size && f2.g == f1.g
    ensures f2.inodes[i].typ == f.inodes[i].typ && |f2.inodes| == |f.inodes| && Rest(f2) && f2.g == f.g
  {
    hide Byte, At, SlotOk, OwnerOk, BitOk, PendingOk, Slice, SameBytes, Overwritten, Mapped;
    WrittenAt(f1, f2, i, off + k, src[k..k + n], i, 0);
    assert src[..k] + src[k..k + n] == src[..k + n];
    assert k == 0 ==> src[k..k + n] == src[..k + n];
    if 0 < k {
      assert FileOk(f, i) && |Content(f, i)| == f.inodes[i].size;
      OverwrittenTwice(Content(f, i), off, src[..k], src[k..k + n]);
      forall j: nat | j < |f.inodes| && j != i ensures f2.inodes[j] == f.inodes[j] && SameBytes(f, f2, j) {
        SameBytesTrans(f, f1, f2, j);
      }
    }
  }

  lemma OverwrittenTwice(c: seq<byte>, off: nat, a: seq<byte>, b: seq<byte>)
    requires off <= |c|
    ensures off + |a| <= |Overwritten(c, off, a)|
    ensures Overwritten(Overwritten(c, off, a), off + |a|, b) == Overwritten(c, off, a + b)
  {
  }
}
