/** Files as block maps over a device: who owns each block, what the free map
    says, and what every byte of every file is. The device is the one the
    kernel sees through the buffer cache. */
module BlockMap {
  import opened Blocks
  import opened Bits

  const NDIRECT: nat := 12
  const NINDIRECT: nat := 128
  const MAXFILE: nat := 140
  const MAXBYTES: nat := 71680   // MAXFILE * BSIZE
  const IPB: nat := 8            // inodes per block

  /** What the superblock says, and where the data blocks begin. */
  datatype Geo = Geo(size: nat, inodestart: nat, bmapstart: nat, datastart: nat)

  // BBLOCK(b, sb) and IBLOCK(i, sb)
  function BitmapBlock(g: Geo, b: nat): nat { g.bmapstart + b / BPB }
  function InodeBlock(g: Geo, i: nat): nat { g.inodestart + i / IPB }

  /** The part of an inode that describes its content. */
  datatype Inode = Inode(typ: int, size: nat, addrs: seq<word>)

  /** The places a block number can be stored: a direct slot, the indirect
      slot, an entry of the indirect block. */
  datatype Slot = Direct(i: nat, k: nat) | Ind(i: nat) | Entry(i: nat, j: nat)

  /** The device, the inodes in memory, the owner of every block in use, and
      the blocks allocated but not (or no longer) stored in any slot. */
  datatype Fs = Fs(g: Geo, blocks: seq<Block>, inodes: seq<Inode>, owner: map<nat, Slot>, pending: set<nat>)

  predicate IsSlot(f: Fs, s: Slot)
  {
    match s
    case Direct(i, k) => i < |f.inodes| && k < NDIRECT
    case Ind(i) => i < |f.inodes|
    case Entry(i, j) => i < |f.inodes| && j < NINDIRECT
  }

  predicate Shaped(f: Fs)
  {
    && (forall i: nat :: i < |f.inodes| ==> |f.inodes[i].addrs| == NDIRECT + 1)
    && 0 < f.g.size <= |f.blocks| && f.g.size <= 0x1_0000_0000
    && 0 < f.g.bmapstart && BitmapBlock(f.g, f.g.size - 1) < f.g.datastart <= f.g.size
  }

  function IndirectOf(f: Fs, i: nat): word
    requires Shaped(f) && i < |f.inodes|
  {
    f.inodes[i].addrs[NDIRECT]
  }

  // The block number in a slot; 0 is none.
  function At(f: Fs, s: Slot): word
    requires Shaped(f) && IsSlot(f, s)
  {
    match s
    case Direct(i, k) => f.inodes[i].addrs[k]
    case Ind(i) => IndirectOf(f, i)
    case Entry(i, j) => if 0 < IndirectOf(f, i) < |f.blocks| then GetWord(f.blocks[IndirectOf(f, i)], j) else 0
  }

  predicate InUse(f: Fs, b: nat)
    requires Shaped(f) && b < f.g.size
  {
    BitmapBelow(f, b);
    GetBit(f.blocks[BitmapBlock(f.g, b)], b % BPB)
  }

  lemma BitmapBelow(f: Fs, b: nat)
    requires Shaped(f) && b < f.g.size
    ensures 0 < BitmapBlock(f.g, b) < f.g.datastart
  {
    assert b / BPB <= (f.g.size - 1) / BPB;
  }

  // A slot and its block name each other.
  predicate SlotOk(f: Fs, s: Slot)
    requires Shaped(f)
  {
    IsSlot(f, s) ==> At(f, s) != 0 ==> At(f, s) in f.owner && f.owner[At(f, s)] == s
  }

  predicate OwnerOk(f: Fs, b: nat)
    requires Shaped(f)
  {
    b in f.owner ==>
      f.g.datastart <= b < f.g.size && b !in f.pending && IsSlot(f, f.owner[b]) && At(f, f.owner[b]) == b
  }

  predicate BitOk(f: Fs, b: nat)
    requires Shaped(f)
  {
    b < f.g.size ==> (InUse(f, b) <==> b < f.g.datastart || b in f.owner || b in f.pending)
  }

  predicate PendingOk(f: Fs, b: nat)
  {
    b in f.pending ==> f.g.datastart <= b < f.g.size && b !in f.owner
  }

  // Block ownership. Every stored block number is owned by that slot alone,
  // owned blocks are data blocks, and a bit of the free map is set exactly
  // for metadata, owned blocks and blocks on their way to or from an owner.
  ghost predicate Inv(f: Fs)
  {
    && Shaped(f)
    && (forall s: Slot :: SlotOk(f, s))
    && (forall b: nat :: OwnerOk(f, b))
    && (forall b: nat :: BitOk(f, b))
    && (forall b: nat :: PendingOk(f, b))
  }

  // ---- content ----

  function SlotOf(i: nat, bn: nat): Slot
  {
    if bn < NDIRECT then Direct(i, bn) else Entry(i, bn - NDIRECT)
  }

  function AddrOf(f: Fs, i: nat, bn: nat): word
    requires Shaped(f) && i < |f.inodes| && bn < MAXFILE
  {
    At(f, SlotOf(i, bn))
  }

  // Byte x of file i, whatever its size; a block that is not there reads as 0.
  function Byte(f: Fs, i: nat, x: nat): byte
    requires Shaped(f) && i < |f.inodes| && x < MAXBYTES
  {
    if 0 < AddrOf(f, i, x / BSIZE) < |f.blocks| then f.blocks[AddrOf(f, i, x / BSIZE)][x % BSIZE] else 0
  }

  predicate SameBytes(f: Fs, f': Fs, i: nat)
    requires Shaped(f) && Shaped(f') && i < |f.inodes| && i < |f'.inodes|
  {
    forall x: nat :: x < MAXBYTES ==> Byte(f', i, x) == Byte(f, i, x)
  }

  // ---- balloc ----

  function Marked(blocks: seq<Block>, m: nat, bit: nat): (r: seq<Block>)
    requires m < |blocks| && bit < BPB
    ensures |r| == |blocks|
  {
    blocks[m := SetBit(blocks[m], bit)]
  }

  function Claimed(f: Fs, b: nat): Fs
    requires Shaped(f) && b < f.g.size
  {
    BitmapBelow(f, b);
    Fs(f.g, Marked(f.blocks, BitmapBlock(f.g, b), b % BPB)[b := ZEROES], f.inodes, f.owner, f.pending + {b})
  }

  lemma BitIndex(b: nat, c: nat)
    ensures b == c <==> b / BPB == c / BPB && b % BPB == c % BPB
  {
  }

  // What a nonzero slot says about its block.
  lemma SlotBlock(f: Fs, s: Slot)
    requires Inv(f) && IsSlot(f, s) && At(f, s) != 0
    ensures f.g.datastart <= At(f, s) < f.g.size
    ensures At(f, s) in f.owner && f.owner[At(f, s)] == s && At(f, s) !in f.pending
  {
    assert SlotOk(f, s) && OwnerOk(f, At(f, s));
  }

  // A slot reads the same when the inode and its indirect block do.
  lemma AtKept(f: Fs, f': Fs, s: Slot)
    requires Shaped(f) && Shaped(f') && IsSlot(f, s) && |f'.inodes| == |f.inodes| && |f'.blocks| == |f.blocks|
    requires f'.inodes[s.i].addrs == f.inodes[s.i].addrs
    requires s.Entry? && 0 < IndirectOf(f, s.i) < |f.blocks| ==>
             f'.blocks[IndirectOf(f, s.i)] == f.blocks[IndirectOf(f, s.i)]
    ensures At(f', s) == At(f, s)
  {
  }

  // A byte reads the same when its slot and the block there do.
  lemma ByteKept(f: Fs, f': Fs, i: nat, x: nat)
    requires Shaped(f) && Shaped(f') && i < |f.inodes| && i < |f'.inodes| && x < MAXBYTES
    requires |f'.blocks| == |f.blocks| && At(f', SlotOf(i, x / BSIZE)) == At(f, SlotOf(i, x / BSIZE))
    requires 0 < AddrOf(f, i, x / BSIZE) < |f.blocks| ==>
             f'.blocks[AddrOf(f, i, x / BSIZE)] == f.blocks[AddrOf(f, i, x / BSIZE)]
    ensures Byte(f', i, x) == Byte(f, i, x)
  {
  }

  lemma ClaimedInv(f: Fs, b: nat)
    requires Inv(f) && b < f.g.size && !InUse(f, b)
    ensures Inv(Claimed(f, b)) && f.g.datastart <= b && b !in f.owner && b !in f.pending
    ensures forall s :: IsSlot(f, s) ==> At(Claimed(f, b), s) == At(f, s)
    ensures forall i: nat :: i < |f.inodes| ==> SameBytes(f, Claimed(f, b), i)
  {
    hide Byte, GetBit, SetBit, Test;
    var f', m := Claimed(f, b), BitmapBlock(f.g, b);
    assert BitOk(f, b);
    BitmapBelow(f, b);
    forall s: Slot | IsSlot(f, s) ensures At(f', s) == At(f, s) {
      if s.Entry? && IndirectOf(f, s.i) != 0 { SlotBlock(f, Ind(s.i)); }
      AtKept(f, f', s);
    }
    forall s: Slot ensures SlotOk(f', s) { assert SlotOk(f, s); }
    forall c: nat ensures OwnerOk(f', c) { assert OwnerOk(f, c); }
    forall c: nat ensures PendingOk(f', c) { assert PendingOk(f, c); }
    forall c: nat ensures BitOk(f', c) { ClaimedBit(f, b, c); }
    forall i: nat, x: nat | i < |f.inodes| && x < MAXBYTES ensures Byte(f', i, x) == Byte(f, i, x) {
      if AddrOf(f, i, x / BSIZE) != 0 { SlotBlock(f, SlotOf(i, x / BSIZE)); }
      ByteKept(f, f', i, x);
    }
  }

  lemma ClaimedBit(f: Fs, b: nat, c: nat)
    requires Inv(f) && b < f.g.size && !InUse(f, b)
    ensures BitOk(Claimed(f, b), c)
  {
    hide SlotOk, OwnerOk, PendingOk, At;
    assert BitOk(f, b) && BitOk(f, c);
    BitmapBelow(f, b);
    if c < f.g.size {
      BitmapBelow(f, c);
      SetBitAt(f.blocks[BitmapBlock(f.g, b)], b % BPB, c % BPB);
      BitIndex(b, c);
    }
  }

  // ---- a block moves from pending into an empty slot ----

  function WithAddr(f: Fs, i: nat, k: nat, v: word): (r: seq<Inode>)
    requires Shaped(f) && i < |f.inodes| && k <= NDIRECT
    ensures |r| == |f.inodes|
  {
    f.inodes[i := f.inodes[i].(addrs := f.inodes[i].addrs[k := v])]
  }

  function Stored(f: Fs, s: Slot, v: word): Fs
    requires Shaped(f) && IsSlot(f, s) && (s.Entry? ==> 0 < IndirectOf(f, s.i) < |f.blocks|)
  {
    match s
    case Direct(i, k) => f.(inodes := WithAddr(f, i, k, v))
    case Ind(i) => f.(inodes := WithAddr(f, i, NDIRECT, v))
    case Entry(i, j) => f.(blocks := f.blocks[IndirectOf(f, i) := PutWord(f.blocks[IndirectOf(f, i)], j, v)])
  }

  function Attached(f: Fs, s: Slot, b: nat): Fs
    requires Shaped(f) && IsSlot(f, s) && (s.Entry? ==> 0 < IndirectOf(f, s.i) < |f.blocks|) && b < 0x1_0000_0000
  {
    Stored(f, s, b).(owner := f.owner[b := s], pending := f.pending - {b})
  }

  // The precondition of bmap's stores: a fresh zeroed block, an empty slot.
  predicate Attachable(f: Fs, s: Slot, b: nat)
    requires Shaped(f)
  {
    && IsSlot(f, s) && At(f, s) == 0 && (s.Entry? ==> IndirectOf(f, s.i) != 0)
    && b in f.pending && b < |f.blocks| && f.blocks[b] == ZEROES
  }

  predicate IndirectOk(f: Fs, i: nat)
    requires Shaped(f) && i < |f.inodes|
  {
    && f.g.datastart <= IndirectOf(f, i) < f.g.size
    && IndirectOf(f, i) in f.owner && f.owner[IndirectOf(f, i)] == Ind(i)
  }

  lemma ZeroWord(j: nat)
    requires j < WORDS
    ensures GetWord(ZEROES, j) == 0
  {
  }

  // Storing v in s is read back there and nowhere else.
  lemma AttachedAt(f: Fs, s: Slot, b: nat, t: Slot)
    requires Inv(f) && Attachable(f, s, b) && IsSlot(f, t) && b < 0x1_0000_0000
    requires s.Entry? ==> IndirectOk(f, s.i)
    requires b < f.g.size
    ensures At(Attached(f, s, b), t) == if t == s then b else At(f, t)
  {
    hide GetWord, PutWord, BitOk, PendingOk, GetBit;
    if t.Entry? {
      if IndirectOf(f, t.i) != 0 { SlotBlock(f, Ind(t.i)); }
      if s.Ind? && s.i == t.i {
        ZeroWord(t.j);
      } else if s.Entry? {
        GetPutWord(f.blocks[IndirectOf(f, s.i)], s.j, b);
      }
    }
  }

  lemma AttachedInv(f: Fs, s: Slot, b: nat)
    requires Inv(f) && Attachable(f, s, b) && b < f.g.size
    requires s.Entry? ==> 0 < IndirectOf(f, s.i) < |f.blocks|
    ensures Inv(Attached(f, s, b))
    ensures forall t :: IsSlot(f, t) ==> At(Attached(f, s, b), t) == if t == s then b else At(f, t)
    ensures forall i: nat :: i < |f.inodes| ==> SameBytes(f, Attached(f, s, b), i)
  {
    hide At, Byte, GetBit, GetWord, PutWord;
    var f' := Attached(f, s, b);
    assert PendingOk(f, b);
    if s.Entry? {
      assert At(f, Ind(s.i)) == IndirectOf(f, s.i) by { ReadIndirect(f, s.i); }
      SlotBlock(f, Ind(s.i));
    }
    forall t: Slot | IsSlot(f, t) ensures At(f', t) == if t == s then b else At(f, t) { AttachedAt(f, s, b, t); }
    forall t: Slot ensures SlotOk(f', t) {
      assert SlotOk(f, t);
      if IsSlot(f, t) && At(f, t) != 0 { SlotBlock(f, t); }
    }
    forall c: nat ensures OwnerOk(f', c) { assert OwnerOk(f, c); }
    forall c: nat ensures PendingOk(f', c) { assert PendingOk(f, c); }
    forall c: nat ensures BitOk(f', c) {
      assert BitOk(f, c);
      if c < f.g.size { BitmapBelow(f, c); }
    }
    forall i: nat, x: nat | i < |f.inodes| && x < MAXBYTES ensures Byte(f', i, x) == Byte(f, i, x) {
      AttachedByte(f, s, b, i, x);
    }
  }

  lemma ReadIndirect(f: Fs, i: nat)
    requires Shaped(f) && i < |f.inodes|
    ensures At(f, Ind(i)) == IndirectOf(f, i)
  {
  }

  lemma AttachedByte(f: Fs, s: Slot, b: nat, i: nat, x: nat)
    requires Inv(f) && Attachable(f, s, b) && b < f.g.size && i < |f.inodes| && x < MAXBYTES
    requires s.Entry? ==> IndirectOk(f, s.i)
    requires Shaped(Attached(f, s, b))
    ensures Byte(Attached(f, s, b), i, x) == Byte(f, i, x)
  {
    hide At, GetBit, GetWord, PutWord;
    var t := SlotOf(i, x / BSIZE);
    AttachedAt(f, s, b, t);
    assert PendingOk(f, b);
    if t == s {
      assert Attached(f, s, b).blocks[b] == ZEROES;
    } else if At(f, t) != 0 {
      SlotBlock(f, t);
    }
  }

  // ---- writing inside a data block ----

  // memmove into a block.
  function Splice(b: Block, x: nat, data: seq<byte>): Block
    requires x + |data| <= BSIZE
  {
    b[..x] + data + b[x + |data|..]
  }

  function Poked(f: Fs, a: nat, x: nat, data: seq<byte>): Fs
    requires a < |f.blocks| && x + |data| <= BSIZE
  {
    f.(blocks := f.blocks[a := Splice(f.blocks[a], x, data)])
  }

  // Writing into one block of one file changes that file's bytes there and
  // no other byte of any file.
  lemma PokedInv(f: Fs, i: nat, bn: nat, x: nat, data: seq<byte>)
    requires Inv(f) && i < |f.inodes| && bn < MAXFILE && x + |data| <= BSIZE
    requires AddrOf(f, i, bn) != 0 && AddrOf(f, i, bn) < |f.blocks|
    ensures Inv(Poked(f, AddrOf(f, i, bn), x, data))
    ensures forall t :: IsSlot(f, t) ==> At(Poked(f, AddrOf(f, i, bn), x, data), t) == At(f, t)
    ensures forall k: nat :: k < |f.inodes| && k != i ==> SameBytes(f, Poked(f, AddrOf(f, i, bn), x, data), k)
    ensures forall y: nat :: y < MAXBYTES ==>
      Byte(Poked(f, AddrOf(f, i, bn), x, data), i, y)
        == if bn * BSIZE + x <= y < bn * BSIZE + x + |data| then data[y - bn * BSIZE - x] else Byte(f, i, y)
  {
    hide Byte, At, GetBit, Splice;
    var a := AddrOf(f, i, bn);
    var f' := Poked(f, a, x, data);
    SlotBlock(f, SlotOf(i, bn));
    forall t: Slot | IsSlot(f, t) ensures At(f', t) == At(f, t) {
      if t.Entry? && IndirectOf(f, t.i) != 0 {
        ReadIndirect(f, t.i);
        SlotBlock(f, Ind(t.i));
      }
      AtKept(f, f', t);
    }
    forall t: Slot ensures SlotOk(f', t) { assert SlotOk(f, t); }
    forall c: nat ensures OwnerOk(f', c) { assert OwnerOk(f, c); }
    forall c: nat ensures PendingOk(f', c) { assert PendingOk(f, c); }
    forall c: nat ensures BitOk(f', c) {
      assert BitOk(f, c);
      if c < f.g.size { BitmapBelow(f, c); }
    }
    forall k: nat, y: nat | k < |f.inodes| && y < MAXBYTES
      ensures Byte(f', k, y)
        == if k == i && bn * BSIZE + x <= y < bn * BSIZE + x + |data| then data[y - bn * BSIZE - x] else Byte(f, k, y)
    {
      PokedByte(f, i, bn, x, data, k, y);
    }
  }

  lemma PokedByte(f: Fs, i: nat, bn: nat, x: nat, data: seq<byte>, k: nat, y: nat)
    requires Inv(f) && i < |f.inodes| && bn < MAXFILE && x + |data| <= BSIZE && k < |f.inodes| && y < MAXBYTES
    requires AddrOf(f, i, bn) != 0 && AddrOf(f, i, bn) < |f.blocks|
    requires At(Poked(f, AddrOf(f, i, bn), x, data), SlotOf(k, y / BSIZE)) == At(f, SlotOf(k, y / BSIZE))
    ensures Byte(Poked(f, AddrOf(f, i, bn), x, data), k, y)
      == if k == i && bn * BSIZE + x <= y < bn * BSIZE + x + |data| then data[y - bn * BSIZE - x] else Byte(f, k, y)
  {
    hide At, GetBit;
    var t := SlotOf(k, y / BSIZE);
    SlotBlock(f, SlotOf(i, bn));
    if At(f, t) != 0 { SlotBlock(f, t); }
    assert t == SlotOf(i, bn) <==> k == i && y / BSIZE == bn;
    if bn * BSIZE + x <= y < bn * BSIZE + x + |data| {
      assert y / BSIZE == bn && y % BSIZE == y - bn * BSIZE;
    }
  }

  // ---- a block leaves its slot, and its bit is cleared ----

  function Dropped(f: Fs, s: Slot): Fs
    requires Shaped(f) && IsSlot(f, s) && !s.Entry?
  {
    var k := if s.Direct? then s.k else NDIRECT;
    f.(inodes := WithAddr(f, s.i, k, 0),
       owner := map b | b in f.owner && f.owner[b] != s
           && !(s.Ind? && f.owner[b].Entry? && f.owner[b].i == s.i) :: f.owner[b],
       pending := f.pending + set b | b in f.owner
           && (f.owner[b] == s || (s.Ind? && f.owner[b].Entry? && f.owner[b].i == s.i)))
  }

  // Freeing a pending block: its bit, and only its bit, is cleared.
  function Freed(f: Fs, b: nat): Fs
    requires Shaped(f) && b < f.g.size
  {
    BitmapBelow(f, b);
    Fs(f.g, Unmarked(f.blocks, BitmapBlock(f.g, b), b % BPB), f.inodes, f.owner, f.pending - {b})
  }

  function Unmarked(blocks: seq<Block>, m: nat, bit: nat): (r: seq<Block>)
    requires m < |blocks| && bit < BPB
    ensures |r| == |blocks|
  {
    blocks[m := ClearBit(blocks[m], bit)]
  }

  // The slots that go with s: an indirect block takes its entries along.
  predicate GoesWith(s: Slot, t: Slot)
  {
    t == s || (s.Ind? && t.Entry? && t.i == s.i)
  }

  lemma DroppedInv(f: Fs, s: Slot)
    requires Inv(f) && IsSlot(f, s) && !s.Entry?
    ensures Inv(Dropped(f, s))
    ensures forall t :: IsSlot(f, t) ==> At(Dropped(f, s), t) == if GoesWith(s, t) then 0 else At(f, t)
    ensures forall k: nat :: k < |f.inodes| && k != s.i ==> SameBytes(f, Dropped(f, s), k)
  {
    hide GetBit, GetWord;
    var f' := Dropped(f, s);
    forall t: Slot | IsSlot(f, t) ensures At(f', t) == if GoesWith(s, t) then 0 else At(f, t) { }
    forall t: Slot ensures SlotOk(f', t) { assert SlotOk(f, t); }
    forall c: nat ensures OwnerOk(f', c) { assert OwnerOk(f, c); }
    forall c: nat ensures PendingOk(f', c) { assert PendingOk(f, c) && OwnerOk(f, c); }
    forall c: nat ensures BitOk(f', c) { assert BitOk(f, c); }
  }

  lemma FreedInv(f: Fs, b: nat)
    requires Inv(f) && b in f.pending && b < f.g.size
    ensures InUse(f, b) && Inv(Freed(f, b))
    ensures forall t :: IsSlot(f, t) ==> At(Freed(f, b), t) == At(f, t)
    ensures forall i: nat :: i < |f.inodes| ==> SameBytes(f, Freed(f, b), i)
    ensures forall c: nat :: c < f.g.size ==> (InUse(Freed(f, b), c) <==> InUse(f, c) && c != b)
  {
    hide Byte, GetBit, ClearBit, Test, At, InUse;
    var f' := Freed(f, b);
    assert BitOk(f, b) && PendingOk(f, b);
    forall t: Slot | IsSlot(f, t) ensures At(f', t) == At(f, t) {
      if t.Entry? && IndirectOf(f, t.i) != 0 {
        ReadIndirect(f, t.i);
        SlotBlock(f, Ind(t.i));
      }
      BitmapBelow(f, b);
      AtKept(f, f', t);
    }
    forall t: Slot ensures SlotOk(f', t) { assert SlotOk(f, t); }
    forall c: nat ensures OwnerOk(f', c) { assert OwnerOk(f, c); }
    forall c: nat ensures PendingOk(f', c) { assert PendingOk(f, c); }
    forall c: nat | c < f.g.size ensures InUse(f', c) <==> InUse(f, c) && c != b { FreedBit(f, b, c); }
    forall c: nat ensures BitOk(f', c) { assert BitOk(f, c); }
    forall i: nat, x: nat | i < |f.inodes| && x < MAXBYTES ensures Byte(f', i, x) == Byte(f, i, x) {
      if AddrOf(f, i, x / BSIZE) != 0 { SlotBlock(f, SlotOf(i, x / BSIZE)); }
      BitmapBelow(f, b);
      ByteKept(f, f', i, x);
    }
  }

  lemma FreedBit(f: Fs, b: nat, c: nat)
    requires Shaped(f) && b < f.g.size && c < f.g.size
    ensures InUse(Freed(f, b), c) <==> InUse(f, c) && c != b
  {
    BitmapBelow(f, b);
    BitmapBelow(f, c);
    ClearBitAt(f.blocks[BitmapBlock(f.g, b)], b % BPB, c % BPB);
    BitIndex(b, c);
  }
}
