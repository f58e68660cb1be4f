/** Block allocation, block maps, reading and writing of files, on the device
    as the kernel sees it through the buffer cache and the log. */
module Files {
  import opened Blocks
  import opened Bits
  import opened Options
  import opened BlockMap
  import opened FileContent
  import opened Truncation
  import opened FileSteps
  import opened InodeBlocks

  class FileSystem {
    const g: Geo
    var blocks: seq<Block>
    var inodes: seq<Inode>           // in memory
    ghost var owner: map<nat, Slot>
    ghost var pending: set<nat>
    ghost var logged: set<nat>       // blocks passed to log_write in this transaction
    ghost var ops: seq<set<nat>>     // the same for every transaction that has ended and wrote something
    ghost var ends: seq<Fs>          // and the state it ended in

    ghost function State(): Fs
      reads this
    {
      Fs(g, blocks, inodes, owner, pending)
    }

    // The bit of block b is set, and the block is zeroed.
    method MarkUsed(b: nat)
      requires Shaped(State()) && g.bmapstart <= b < g.size
      modifies `blocks, `pending, `logged
      ensures State() == Claimed(old(State()), b)
      ensures logged == old(logged) + {BitmapBlock(g, b), b}
      ensures Frame(g, old(blocks), blocks, old(logged), logged)
    {
      BitmapBelow(State(), b);
      var bp := BitmapBlock(g, b);
      FrameOne(g, blocks, logged, bp, SetBit(blocks[bp], b % BPB));
      blocks := blocks[bp := SetBit(blocks[bp], b % BPB)];
      logged := logged + {bp};
      FrameOne(g, blocks, logged, b, ZEROES);
      FrameTrans(g, old(blocks), blocks, blocks[b := ZEROES], old(logged), logged, logged + {b});
      blocks := blocks[b := ZEROES];
      logged := logged + {b};
      pending := pending + {b};
    }

    // The first clear bit of the bitmap block that begins with block b.
    method Scan(b: nat) returns (bi: nat)
      requires Shaped(State()) && b < g.size && b % BPB == 0
      ensures bi <= BPB && (bi < BPB && b + bi < g.size ==> !InUse(State(), b + bi))
      ensures NoneFree(State(), b, b + bi) && (bi < BPB && g.size <= b + bi ==> NoneFree(State(), b, b + BPB))
    {
      hide NoneFree;
      BitmapBelow(State(), b);
      var bp := blocks[BitmapBlock(g, b)];
      bi := 0;
      NoneFreeNone(State(), b);
      while bi < BPB && b + bi < g.size
        invariant bi <= BPB && NoneFree(State(), b, b + bi)
      {
        assert (b + bi) / BPB == b / BPB && (b + bi) % BPB == bi;
        if !GetBit(bp, bi) {
          return;
        }
        NoneFreeNext(State(), b, b + bi);
        bi := bi + 1;
      }
      if bi < BPB { NoneFreePast(State(), b, b + bi, b + BPB); }
    }

    // The first free block, marked and zeroed; None is the panic.
    method Balloc() returns (r: Option<nat>)
      requires Inv(State())
      modifies `blocks, `pending, `logged
      ensures r.None? ==> Full(old(State())) && State() == old(State())
      ensures r.None? ==> forall b: nat :: b < g.size ==> InUse(old(State()), b)
      ensures r.Some? ==>
        r.value < g.size && !InUse(old(State()), r.value) && State() == Claimed(old(State()), r.value)
      ensures r.Some? ==> NoneFree(old(State()), 0, r.value)
      ensures r.Some? ==> forall c: nat :: c < r.value ==> InUse(old(State()), c)
      ensures logged == old(logged) + if r.None? then {} else {g.bmapstart + r.value / BPB, r.value}
      ensures Frame(g, old(blocks), blocks, old(logged), logged)
    {
      hide SlotOk, OwnerOk, BitOk, PendingOk, At, Claimed, Frame, InUse, Inv, NoneFree, Full;
      FrameSelf(g, blocks, logged);
      ghost var f := State();
      InvShaped(f);
      NoneFreeNone(f, 0);
      var b := 0;
      while b < g.size
        invariant b % BPB == 0 && NoneFree(f, 0, b)
        invariant State() == f && logged == old(logged)
      {
        var bi := Scan(b);
        NoneFreeJoined(f, 0, b, b + bi);
        if bi < BPB && b + bi < g.size {
          FreeIsData(f, b + bi);
          NoneFreeIs(f, b + bi);
          MarkUsed(b + bi);
          return Some(b + bi);
        }
        NoneFreeJoined(f, 0, b, b + BPB);
        NextBits(b);
        b := b + BPB;
      }
      NoneFreeAll(f, b);
      assert forall c: nat :: c < g.size ==> InUse(f, c) by { FullIs(f); }
      return None;
    }

    // Clears the bit of b; false is the panic on a bit that is clear already.
    method Bfree(b: nat) returns (ok: bool)
      requires Shaped(State()) && b < g.size
      modifies `blocks, `logged
      ensures ok <==> InUse(old(State()), b)
      ensures BitmapBlock(g, b) < |old(blocks)|
      ensures ok ==> blocks == Unmarked(old(blocks), BitmapBlock(g, b), b % BPB)
      ensures ok ==> logged == old(logged) + {BitmapBlock(g, b)}
      ensures !ok ==> blocks == old(blocks) && logged == old(logged)
      ensures Frame(g, old(blocks), blocks, old(logged), logged)
    {
      BitmapBelow(State(), b);
      FrameSelf(g, blocks, logged);
      var bp := blocks[BitmapBlock(g, b)];
      if !GetBit(bp, b % BPB) {
        return false;
      }
      FrameOne(g, blocks, logged, BitmapBlock(g, b), ClearBit(bp, b % BPB));
      blocks := blocks[BitmapBlock(g, b) := ClearBit(bp, b % BPB)];
      logged := logged + {BitmapBlock(g, b)};
      return true;
    }

    // A fresh block in an empty slot of file i; None is balloc's panic.
    method Fill(s: Slot) returns (r: Option<nat>)
      requires Inv(State()) && IsSlot(State(), s) && At(State(), s) == 0 && pending == {}
      requires s.Entry? ==> IndirectOf(State(), s.i) != 0
      modifies `blocks, `inodes, `owner, `pending, `logged
      ensures r.None? ==> Full(old(State())) && State() == old(State()) && logged == old(logged)
      ensures r.Some? ==> Filled(old(State()), State(), s, r.value)
      ensures r.Some? ==>
        logged <= old(logged) + Bitmaps(g, g.size) + {r.value}
                  + if s.Entry? then {IndirectOf(State(), s.i) as nat} else {}
      ensures Frame(g, old(blocks), blocks, old(logged), logged)
    {
      hide SlotOk, OwnerOk, BitOk, PendingOk, At, SetBit, PutWord, Byte, Frame, InUse, NoneFree, Full, SameBytes;
      ghost var f := State();
      r := Balloc();
      if r.Some? {
        var b := r.value;
        ClaimedInv(f, b);
        BitmapIn(g, g.size, b);
        ghost var f1 := State();
        if s.Entry? {
          ReadIndirect(f, s.i);
          ReadIndirect(f1, s.i);
          SlotBlock(f1, Ind(s.i));
        }
        AttachedInv(f1, s, b);
        match s {
          case Direct(i, k) =>
            inodes := inodes[i := inodes[i].(addrs := inodes[i].addrs[k := b])];
          case Ind(i) =>
            inodes := inodes[i := inodes[i].(addrs := inodes[i].addrs[NDIRECT := b])];
          case Entry(i, j) =>
            var ind := inodes[i].addrs[NDIRECT];
            ghost var blocks1, logged1 := blocks, logged;
            BitmapBelow(f1, 0);
            FrameOne(g, blocks1, logged1, ind, PutWord(blocks[ind], j, b));
            blocks := blocks[ind := PutWord(blocks[ind], j, b)];
            logged := logged + {ind};
            FrameTrans(g, old(blocks), blocks1, blocks, old(logged), logged1, logged);
        }
        owner := owner[b := s];
        pending := pending - {b};
        assert State() == Attached(f1, s, b);
        FilledBy(f, f1, s, b);
      }
    }

    // The indirect block of file i, allocated if there is none.
    method LoadIndirect(i: nat) returns (r: Option<nat>)
      requires Inv(State()) && pending == {} && i < |inodes|
      modifies `blocks, `inodes, `owner, `pending, `logged
      ensures r.None? ==> IndirectOf(old(State()), i) == 0 && State() == old(State()) && Full(State())
      ensures r.Some? ==>
        Inv(State()) && pending == {} && Grown(old(State()), State(), i) && r.value == IndirectOf(State(), i) != 0
      ensures r.Some? && IndirectOf(old(State()), i) != 0 ==> State() == old(State()) && logged == old(logged)
      ensures r.Some? ==> logged <= old(logged) + Bitmaps(g, g.size) + {r.value}
      ensures r.Some? ==> forall j: nat :: j < NINDIRECT ==> At(State(), Entry(i, j)) == At(old(State()), Entry(i, j))
      ensures Frame(g, old(blocks), blocks, old(logged), logged)
    {
      hide SlotOk, OwnerOk, BitOk, PendingOk, At, SameBytes, KeptSlot, InUse, Frame;
      FrameSelf(g, blocks, logged);
      ghost var f := State();
      ReadSlots(f, i);
      var ind := inodes[i].addrs[NDIRECT];
      if ind == 0 {
        r := Fill(Ind(i));
        ReadSlots(State(), i);
      } else {
        GrownSame(f, i);
        r := Some(ind);
      }
    }

    // The block that holds block bn of file i, allocated if there is none;
    // None is a panic, for want of blocks or because bn is out of range.
    method Bmap(i: nat, bn: nat) returns (r: Option<nat>)
      requires Inv(State()) && pending == {} && i < |inodes|
      modifies `blocks, `inodes, `owner, `pending, `logged
      ensures r.None? ==> bn >= MAXFILE || (AddrOf(old(State()), i, bn) == 0 && Shaped(State()) && Full(State()))
      ensures r.Some? ==> bn < MAXFILE && Bmapped(old(State()), State(), i, bn, r.value)
      ensures r.Some? && bn < NDIRECT ==> |inodes[i].addrs| == NDIRECT + 1 && inodes[i].addrs[bn] == r.value
      ensures r.Some? && NDIRECT <= bn ==>
        && |inodes[i].addrs| == NDIRECT + 1 && 0 < inodes[i].addrs[NDIRECT] < |blocks|
        && GetWord(blocks[inodes[i].addrs[NDIRECT]], bn - NDIRECT) == r.value
      ensures r.Some? && AddrOf(old(State()), i, bn) != 0 ==> logged == old(logged)
      ensures r.Some? ==> logged <= old(logged) + Footprint(State(), i, bn, bn + 1)
      ensures Frame(g, old(blocks), blocks, old(logged), logged)
    {
      hide SlotOk, OwnerOk, BitOk, PendingOk, At, SameBytes, KeptSlot, InUse, Frame;
      FrameSelf(g, blocks, logged);
      ghost var f := State();
      ReadSlots(f, i);
      if bn < NDIRECT {
        assert AddrOf(f, i, bn) == inodes[i].addrs[bn];
        var addr := inodes[i].addrs[bn];
        if addr == 0 {
          r := Fill(Direct(i, bn));
        } else {
          GrownSame(f, i);
          SlotBlock(f, Direct(i, bn));
          r := Some(addr);
        }
        if r.Some? {
          FootprintOf(State(), i, bn);
          AddrIs(State(), i, bn);
        }
        return;
      }
      if bn - NDIRECT < NINDIRECT {
        r := BmapIndirect(i, bn - NDIRECT);
        if r.Some? { AddrIs(State(), i, bn); }
        return;
      }
      return None;
    }

    // The second half of bmap: a block that the indirect block names.
    method BmapIndirect(i: nat, j: nat) returns (r: Option<nat>)
      requires Inv(State()) && pending == {} && i < |inodes| && j < NINDIRECT
      modifies `blocks, `inodes, `owner, `pending, `logged
      ensures r.None? ==> AddrOf(old(State()), i, NDIRECT + j) == 0 && Shaped(State()) && Full(State())
      ensures r.Some? ==> Bmapped(old(State()), State(), i, NDIRECT + j, r.value)
      ensures r.Some? && AddrOf(old(State()), i, NDIRECT + j) != 0 ==> logged == old(logged)
      ensures r.Some? ==> logged <= old(logged) + Footprint(State(), i, NDIRECT + j, NDIRECT + j + 1)
      ensures Frame(g, old(blocks), blocks, old(logged), logged)
    {
      hide SlotOk, OwnerOk, BitOk, PendingOk, At, SameBytes, KeptSlot, InUse, Frame;
      ghost var f := State();
      ReadSlots(f, i);
      var loaded := LoadIndirect(i);
      if loaded.None? {
        return None;
      }
      var ind := loaded.value;
      ghost var f1, logged1 := State(), logged;
      ReadSlots(f1, i);
      SlotBlock(f1, Ind(i));
      var addr := GetWord(blocks[ind], j);
      assert addr == At(f1, Entry(i, j)) == AddrOf(f1, i, NDIRECT + j);
      if addr == 0 {
        r := Fill(Entry(i, j));
        FrameTrans(g, f.blocks, f1.blocks, blocks, old(logged), logged1, logged);
        if r.Some? {
          GrownTrans(f, f1, State(), i);
          ReadSlots(State(), i);
          FootprintOf(State(), i, NDIRECT + j);
        }
      } else {
        SlotBlock(f1, Entry(i, j));
        r := Some(addr);
        FootprintOf(State(), i, NDIRECT + j);
      }
    }

    // Writes the inode back to its inode block.
    method Iupdate(i: nat)
      requires Shaped(State()) && Placed(State()) && i < |inodes| && Fits(inodes[i])
      modifies `blocks, `logged
      ensures State() == Packed(old(State()), i)
      ensures logged == old(logged) + {InodeBlock(g, i)} == old(logged) + {g.inodestart + i / IPB}
    {
      var b := InodeBlock(g, i);
      assert b <= InodeBlock(g, |inodes| - 1);
      BitmapBelow(State(), 0);
      blocks := blocks[b := PutInode(blocks[b], i % IPB, inodes[i])];
      logged := logged + {b};
    }

    // Every block of file i is freed, and nothing but its blocks: bfree never
    // meets a clear bit, so the call returns.
    method Itrunc(i: nat) returns (panicked: bool)
      requires Rest(State()) && i < |inodes| && Synced(State())
      modifies `blocks, `inodes, `owner, `pending, `logged
      ensures !panicked
      ensures Truncated(old(State()), State(), i) && Synced(State())
    {
      hide Inv, Rest, DirectDone, CutDone, Truncated, Frame, Synced, Packed;
      ghost var f := State();
      assert Shaped(f) && |f.inodes| == |inodes| && Inv(f) && f.pending == {} by { RestShaped(f); }
      panicked := FreeDirect(i);
      ghost var f1, logged1 := State(), logged;
      if !panicked {
        panicked := FreeIndirect(f, i);
        FrameTrans(g, f.blocks, f1.blocks, blocks, old(logged), logged1, logged);
      }
      if !panicked {
        ghost var f3 := State();
        inodes := inodes[i := inodes[i].(size := 0)];
        CutEnd(f, f3, i);
        ghost var f4 := State();
        assert f4 == Sized(f3, i, 0);
        TruncatedSynced(f, f4, i, old(logged), logged);
        Iupdate(i);
      }
    }

    // What iput does to an inode with no links left whose last reference goes:
    // the file is truncated and the inode is free, in memory and on the device.
    method FreeInode(i: nat) returns (panicked: bool)
      requires Rest(State()) && i < |inodes| && Synced(State())
      modifies `blocks, `inodes, `owner, `pending, `logged
      ensures !panicked
      ensures Emptied(old(State()), State(), i, 0) && Synced(State())
    {
      hide Inv, Rest, Emptied, Synced, Packed;
      ghost var f := State();
      assert Shaped(f) by { RestShaped(f); }
      panicked := Itrunc(i);
      ghost var f1 := State();
      ErasedSynced(f, f1, i);
      assert inodes[i].size == 0 by { TruncatedSize(f, f1, i); }
      inodes := inodes[i := inodes[i].(typ := 0)];
      assert State() == Relabelled(f1, i, 0, 0);
      Iupdate(i);
    }

    // The first half of itrunc: the direct blocks.
    method FreeDirect(i: nat) returns (panicked: bool)
      requires Inv(State()) && pending == {} && i < |inodes|
      modifies `blocks, `inodes, `owner, `pending, `logged
      ensures !panicked && |inodes| == old(|inodes|)
      ensures DirectDone(old(State()), State(), i, NDIRECT)
      ensures Frame(g, old(blocks), blocks, old(logged), logged)
    {
      hide SlotOk, OwnerOk, BitOk, PendingOk, At, InUse, SameBytes, Byte, BitGone, OwnerLeft, BlockLeft, Frame;
      FrameSelf(g, blocks, logged);
      ghost var f := State();
      DirectStart(f, i);
      var k := 0;
      while k < NDIRECT
        invariant DirectDone(f, State(), i, k) && Frame(g, f.blocks, blocks, old(logged), logged)
      {
        ghost var f1, logged1 := State(), logged;
        DirectStep(f, f1, i, k);
        if inodes[i].addrs[k] != 0 {
          var ok := Bfree(inodes[i].addrs[k]);
          FrameTrans(g, f.blocks, f1.blocks, blocks, old(logged), logged1, logged);
          if !ok {
            return true;
          }
          ghost var f2 := Freed(Dropped(f1, Direct(i, k)), inodes[i].addrs[k]);
          inodes := inodes[i := inodes[i].(addrs := inodes[i].addrs[k := 0])];
          owner, pending := f2.owner, f2.pending;
          assert State() == f2;
        }
        k := k + 1;
      }
      return false;
    }

    // The state, but for the entry of the indirect block, which is taken as
    // empty before it is.
    ghost function Cleared(cut: seq<Inode>): Fs
      reads this
    {
      Fs(g, blocks, cut, owner, pending)
    }

    // The blocks in the indirect block ind.
    method FreeEntries(ghost f: Fs, ghost cut: seq<Inode>, i: nat, ind: word) returns (panicked: bool)
      requires Inv(f) && f.pending == {} && i < |f.inodes| && CutDone(f, Cleared(cut), i, NDIRECT) && Shaped(State())
      requires ind == f.inodes[i].addrs[NDIRECT] != 0 && ind as nat < |blocks|
      requires blocks[ind] == f.blocks[ind]
      modifies `blocks, `pending, `logged
      ensures !panicked
      ensures CutDone(f, Cleared(cut), i, MAXFILE)
      ensures Frame(g, old(blocks), blocks, old(logged), logged)
    {
      hide SlotOk, OwnerOk, BitOk, PendingOk, At, InUse, SameBytes, Byte, BitGone, OwnerLeft, BlockLeft, Frame,
          GetWord;
      FrameSelf(g, blocks, logged);
      ReadSlots(f, i);
      var a := blocks[ind];
      var j := 0;
      while j < NINDIRECT
        invariant j <= NINDIRECT && Shaped(State()) && Frame(g, old(blocks), blocks, old(logged), logged)
        invariant CutDone(f, Cleared(cut), i, NDIRECT + j)
      {
        ghost var f1, logged1 := Cleared(cut), logged;
        CutStep(f, f1, i, Entry(i, j));
        if GetWord(a, j) != 0 {
          SameBits(f1, State(), GetWord(a, j));
          var ok := Bfree(GetWord(a, j));
          FrameTrans(g, old(blocks), f1.blocks, blocks, old(logged), logged1, logged);
          if !ok {
            return true;
          }
          pending := pending - {GetWord(a, j) as nat};
          assert Cleared(cut) == Freed(f1, GetWord(a, j));
        }
        j := j + 1;
      }
      return false;
    }

    // The second half of itrunc: the blocks in the indirect block, then the
    // indirect block.
    method FreeIndirect(ghost f: Fs, i: nat) returns (panicked: bool)
      requires Inv(f) && f.pending == {} && i < |inodes| && i < |f.inodes| && DirectDone(f, State(), i, NDIRECT)
      modifies `blocks, `inodes, `owner, `pending, `logged
      ensures !panicked && |inodes| == old(|inodes|)
      ensures CutDone(f, State(), i, MAXFILE + 1)
      ensures Frame(g, old(blocks), blocks, old(logged), logged)
    {
      hide SlotOk, OwnerOk, BitOk, PendingOk, At, InUse, SameBytes, Byte, BitGone, OwnerLeft, BlockLeft, Frame;
      FrameSelf(g, blocks, logged);
      ReadSlots(f, i);
      if inodes[i].addrs[NDIRECT] == 0 {
        NothingMore(f, State(), i);
        return false;
      }
      CutStart(f, State(), i);
      SlotBlock(f, Ind(i));
      var ind := inodes[i].addrs[NDIRECT];
      ghost var g1 := Dropped(State(), Ind(i));
      owner, pending := g1.owner, g1.pending;
      panicked := FreeEntries(f, g1.inodes, i, ind);
      if panicked {
        return;
      }
      ghost var f1, logged1 := Cleared(g1.inodes), logged;
      CutStep(f, f1, i, Ind(i));
      SameBits(f1, State(), ind);
      var ok := Bfree(ind);
      FrameTrans(g, old(blocks), f1.blocks, blocks, old(logged), logged1, logged);
      if !ok {
        return true;
      }
      pending := pending - {ind as nat};
      inodes := inodes[i := inodes[i].(addrs := inodes[i].addrs[NDIRECT := 0])];
      assert State() == Freed(f1, ind);
      return false;
    }

    // Reads exactly the bytes of the file that are there, allocating nothing.
    method Readi(i: nat, off: word, n: word) returns (r: IoResult, dst: seq<byte>)
      requires Rest(State()) && i < |inodes|
      modifies `blocks, `inodes, `owner, `pending, `logged
      ensures State() == old(State()) && logged == old(logged)
      ensures r == ReadResult(inodes[i], off, n)
      ensures r.Device? <==> inodes[i].typ == T_DEV
      ensures !r.Device? ==> (r.Error? <==> off > inodes[i].size || off + n >= 0x1_0000_0000)
      ensures !r.Device? && off <= inodes[i].size && off + n < 0x1_0000_0000 ==>
        r.Count? && r.n == if off + n <= inodes[i].size then n else inodes[i].size - off
      ensures r.Count? ==> off + r.n <= inodes[i].size <= MAXBYTES && dst == Content(State(), i)[off..off + r.n]
    {
      hide SlotOk, OwnerOk, BitOk, PendingOk, At, InUse, SameBytes, Byte, KeptSlot, Footprint;
      ghost var f := State();
      dst := [];
      if inodes[i].typ == T_DEV {
        return Device, dst;
      }
      if off > inodes[i].size || (off + n) % 0x1_0000_0000 < off {
        return Error, dst;
      }
      assert FileOk(f, i);
      var len: nat := if off + n > inodes[i].size then inodes[i].size - off else n;
      var tot := 0;
      while tot < len
        invariant tot <= len && State() == f && logged == old(logged)
        invariant dst == Slice(f, i, off, tot)
      {
        var bn := (off + tot) / BSIZE;
        assert Mapped(f, i, bn);
        var a := Bmap(i, bn);
        if a.None? {
          return Panic, dst;
        }
        var m := if len - tot < BSIZE - (off + tot) % BSIZE then len - tot else BSIZE - (off + tot) % BSIZE;
        ReadStep(f, i, off, tot, m);
        dst := dst + blocks[a.value][(off + tot) % BSIZE..(off + tot) % BSIZE + m];
        tot := tot + m;
      }
      ContentSlice(f, i, off, len);
      r := Count(len);
    }

    // The loop of writei; false is a panic in bmap.
    method Copy(ghost f: Fs, i: nat, off: word, src: seq<byte>) returns (ok: bool)
      requires f == State() && Rest(f) && i < |inodes| && off + |src| <= MAXBYTES
      modifies `blocks, `inodes, `owner, `pending, `logged
      ensures !ok ==> Shaped(State()) && Full(State())
      ensures ok ==> Inv(State()) && Shaped(State()) && pending == {} && |inodes| == old(|inodes|)
      ensures ok ==> Written(f, State(), i, off, src) && RangeMapped(State(), i, off, |src|)
      ensures ok && src == [] ==> State() == f && logged == old(logged)
      ensures ok && src != [] ==>
        logged != {} && logged <= old(logged) + Footprint(State(), i, off / BSIZE, (off + |src| - 1) / BSIZE + 1)
      ensures Frame(g, old(blocks), blocks, old(logged), logged)
    {
      hide Rest, Inv, Bmapped, Poked, Full, At, SlotOf, Written, Footprint, Splice, RangeMapped, Copied, Frame;
      RestShaped(f);
      FrameSelf(g, blocks, logged);
      var tot: nat := 0;
      CopyStart(f, logged, i, off, src);
      while tot < |src|
        invariant tot <= |src| && |inodes| == |f.inodes| && State().g == f.g && Inv(State()) && pending == {}
        invariant Copied(f, State(), old(logged), logged, i, off, src, tot)
        invariant Frame(g, f.blocks, blocks, old(logged), logged) && (0 < tot ==> logged != {})
      {
        ghost var f1, l1 := State(), logged;
        CopyNext(f, f1, old(logged), logged, i, off, src, tot);
        var bn, x := (off + tot) / BSIZE, (off + tot) % BSIZE;
        var a := Bmap(i, bn);
        FrameTrans(g, f.blocks, f1.blocks, blocks, old(logged), l1, logged);
        if a.None? {
          return false;
        }
        ghost var f2, l2 := State(), logged;
        var m := if |src| - tot < BSIZE - x then |src| - tot else BSIZE - x;
        BmappedShape(f1, f2, i, bn, a.value);
        CopyTurn(f, f1, f2, old(logged), l1, logged, i, off, src, tot, m, a.value);
        FrameOne(g, blocks, logged, a.value, Splice(blocks[a.value], x, src[tot..tot + m]));
        blocks := blocks[a.value := Splice(blocks[a.value], x, src[tot..tot + m])];
        logged := logged + {a.value};
        FrameTrans(g, f.blocks, f2.blocks, blocks, old(logged), l2, logged);
        assert State() == Poked(f2, a.value, x, src[tot..tot + m]) by { PokedIs(f2, a.value, x, src[tot..tot + m]); }
        tot := tot + m;
      }
      CopyEnd(f, State(), old(logged), logged, i, off, src);
      return true;
    }

    // The end of writei, when the file has grown: ip->size = off and iupdate.
    method SaveSize(ghost f: Fs, i: nat, size: nat, ghost l0: set<nat>)
      requires Inv(State()) && Placed(State()) && i < |inodes| && Fits(inodes[i]) && size < 0x1_0000_0000
      requires (forall k: nat :: k != i ==> SyncedAt(State(), k))
      requires f.g == g && Frame(g, f.blocks, blocks, l0, logged)
      modifies `blocks, `inodes, `logged
      ensures Resized(old(State()), State(), i, size) && Synced(State())
      ensures logged == old(logged) + {InodeBlock(g, i)} && OnlyLogged(g, f.blocks, blocks, l0, logged)
    {
      hide Inv, Placed, SyncedAt, Fits, Frame, Packed, Resized, OnlyLogged, Synced;
      ghost var f1, l1 := State(), logged;
      InvShaped(f1);
      SizedSynced(f1, i, size);
      ResizedPacked(f1, i, size);
      inodes := inodes[i := inodes[i].(size := size)];
      ghost var f2 := State();
      assert f2 == Sized(f1, i, size);
      Iupdate(i);
      OnlyPacked(f, f2, i, l0, l1);
    }

    // Overwrites the content of file i at off with src, or fails, leaving
    // everything as it was, when the write does not fit; or finds the free
    // map full and panics. An inode whose slots or size changed is saved.
    method Writei(i: nat, off: word, src: seq<byte>) returns (r: IoResult)
      requires Rest(State()) && i < |inodes| && Synced(State()) && |src| < 0x1_0000_0000
      modifies `blocks, `inodes, `owner, `pending, `logged
      ensures r.Panic? ==> WriteResult(old(inodes)[i], off, |src|).Count? && Shaped(State()) && Full(State())
      ensures r.Panic? ==> forall b: nat :: b < g.size ==> InUse(State(), b)
      ensures !r.Panic? ==> r == WriteResult(old(inodes)[i], off, |src|)
      ensures r.Device? <==> old(inodes)[i].typ == T_DEV
      ensures !r.Device? ==> (r.Error? <==> off > old(inodes)[i].size || off + |src| > MAXBYTES)
      ensures r.Count? ==> r.n == |src|
      ensures !r.Panic? && (!r.Count? || src == []) ==> State() == old(State()) && logged == old(logged)
      ensures !r.Panic? ==> Rest(State()) && Synced(State())
      ensures r.Count? ==> WrittenTo(old(State()), State(), i, off, src)
      ensures r.Count? && src != [] ==>
        logged != {} && logged <= old(logged) + Footprint(State(), i, off / BSIZE, (off + |src| - 1) / BSIZE + 1)
      ensures !r.Panic? ==> OnlyLogged(g, old(blocks), blocks, old(logged), logged)
    {
      hide SlotOk, OwnerOk, BitOk, PendingOk, At, InUse, SameBytes, Byte, KeptSlot, Footprint, Inv, Rest, Grown,
          Written, Frame, Synced, OnlyLogged, Packed, RangeMapped, Resized,
          Placed, SyncedAt, Fits;
      ghost var f := State();
      RestShaped(f);
      WrittenNothing(f, i, off);
      OnlySelf(g, blocks, logged);
      if inodes[i].typ == T_DEV {
        return Device;
      }
      if off > inodes[i].size || (off + |src|) % 0x1_0000_0000 < off {
        return Error;
      }
      if off + |src| > MAXFILE * BSIZE {
        return Error;
      }
      var ok := Copy(f, i, off, src);
      if !ok {
        FullIs(State());
        return Panic;
      }
      ghost var f1 := State();
      WrittenInode(f, f1, i, off, src);
      CopySynced(f, f1, i, old(logged), logged);
      if 0 < |src| && off + |src| > inodes[i].size {
        SaveSize(f, i, off + |src|, old(logged));
      } else {
        ResizedSelf(f1, i);
        OnlyFrame(g, f.blocks, blocks, old(logged), logged);
      }
      WriteDone(f, f1, State(), i, off, src);
      if src != [] { FootprintResized(f1, State(), i, off / BSIZE, (off + |src| - 1) / BSIZE + 1); }
      r := Count(|src|);
    }

    // begin_op, writei of at most a chunk, end_op.
    method Transaction(i: nat, off: word, src: seq<byte>) returns (r: IoResult)
      requires Rest(State()) && Synced(State()) && i < |inodes| && 0 < |src| <= CHUNK && g.size <= BPB
      modifies `blocks, `inodes, `owner, `pending, `logged, `ops, `ends
      ensures r.Panic? ==> Shaped(State()) && Full(State())
      ensures !r.Panic? ==> r == WriteResult(old(inodes)[i], off, |src|)
      ensures r.Count? ==>
        WrittenTo(old(State()), State(), i, off, src) && Linked(old(State()), State(), logged)
      ensures r.Count? ==> ops == old(ops) + [logged] && ends == old(ends) + [State()]
      ensures !r.Count? ==> ops == old(ops) && ends == old(ends)
      ensures r.Error? || r.Device? ==> State() == old(State())
    {
      hide Inv, Rest, WrittenTo, Full, Footprint, OnlyLogged, Synced;
      ghost var f := State();
      logged := {};
      r := Writei(i, off, src);
      if r.Count? {
        WrittenShape(f, State(), i, off, src);
        ChunkLogged(State(), i, off, |src|, logged);
        ops, ends := ops + [logged], ends + [State()];
      }
    }

    // One turn of filewrite's loop.
    method WriteChunk(ghost f: Fs, i: nat, off: word, src: seq<byte>, n: int, k: nat, n1: nat) returns (r: IoResult)
      requires Rest(f) && i < |f.inodes| && n <= |src| && k < n < 0x8000_0000 && f.g.size <= BPB
      requires Rest(State()) && Synced(State()) && Progress(f, State(), i, off, src, n, k)
      requires n1 == if n - k > CHUNK then CHUNK else n - k
      modifies `blocks, `inodes, `owner, `pending, `logged, `ops, `ends
      ensures r.Panic? ==> Shaped(State()) && Full(State())
      ensures !r.Panic? ==> Chunked(f, State(), i, off, src, n, k, n1, r) && Synced(State())
      ensures r.Count? ==> ops == old(ops) + [logged] && ends == old(ends) + [State()]
      ensures r.Count? ==> Linked(old(State()), State(), logged)
      ensures !r.Count? ==> ops == old(ops) && ends == old(ends)
      ensures r.Error? || r.Device? ==> State() == old(State())
    {
      hide Inv, Rest, WrittenTo, Full, Progress, Linked, Synced;
      ghost var f1 := State();
      ProgressBound(f, f1, i, off, src, n, k);
      assert i < |inodes| by { ProgressShape(f, f1, i, off, src, n, k); }
      r := Transaction(i, off + k, src[k..k + n1]);
      if !r.Panic? { ChunkDone(f, f1, State(), i, off, src, n, k, n1, r); }
      if r.Count? { LinkedSynced(f1, State(), logged); }
    }

    // Writes n bytes of src at the offset of an open file, a few blocks to a
    // transaction, and returns the new offset. What fits is written whole
    // chunk by whole chunk; each transaction logs at most 7 blocks, among them
    // every block it changes.
    method Filewrite(i: nat, off: word, src: seq<byte>, n: int) returns (r: IoResult, newoff: nat)
      requires Rest(State()) && i < |inodes| && Synced(State()) && n <= |src| && n < 0x8000_0000 && g.size <= BPB
      requires |ops| == |ends|
      modifies `blocks, `inodes, `owner, `pending, `logged, `ops, `ends
      ensures r.Panic? ==> Shaped(State()) && Full(State())
      ensures !r.Panic? ==> Synced(State()) && Filewrote(old(State()), State(), i, off, src, n, r, newoff)
      ensures Trail(old(State()), i, off, src, n, ops, ends, |old(ops)|)
      ensures ops[..|old(ops)|] == old(ops) && ends[..|old(ops)|] == old(ends)
      ensures !r.Panic? ==> State() == Before(old(State()), ends, |old(ops)|, |ops|)
      ensures !r.Panic? && 0 <= n && old(inodes)[i].typ != T_DEV
              && off <= old(inodes)[i].size && off + n <= MAXBYTES ==>
        r == Count(n) && newoff == off + n
    {
      hide Inv, Rest, WrittenTo, Full, Footprint, Progress, Fitting, TrailAt, Synced, Linked;
      ghost var f := State();
      newoff := off;
      var k: nat := 0;
      ProgressStart(f, i, off, src, n);
      TrailNone(f, i, off, src, n, ops, ends);
      while k < n
        invariant newoff == off + k && k <= |src| && (k <= n || k == 0)
        invariant |old(ops)| <= |ops| && k == Upto(n, |ops| - |old(ops)|)
        invariant Rest(State()) && Synced(State()) && Progress(f, State(), i, off, src, n, k)
        invariant Trail(f, i, off, src, n, ops, ends, |old(ops)|)
        invariant ops[..|old(ops)|] == old(ops) && ends[..|old(ops)|] == old(ends)
        invariant State() == Before(f, ends, |old(ops)|, |ops|)
      {
        var n1: nat := if n - k > CHUNK then CHUNK else n - k;
        ghost var f1, ops1, ends1 := State(), ops, ends;
        r := WriteChunk(f, i, off, src, n, k, n1);
        if r.Panic? {
          return;
        }
        if r.Device? || r.Error? {
          if f.inodes[i].typ != T_DEV && off <= f.inodes[i].size && off + n <= MAXBYTES {
            FittingAll(f.inodes[i], off, n);
          }
          return;
        }
        TrailMore(f, i, off, src, n, ops1, ends1, |old(ops)|, logged, State());
        newoff := newoff + r.n;
        if r.n != n1 {
          return Panic, newoff;
        }
        k := k + r.n;
      }
      ProgressEnd(f, State(), i, off, src, n, k);
      r := if k == n then Count(n) else Error;
    }
  }
}
