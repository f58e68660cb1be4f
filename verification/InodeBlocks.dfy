/** Inodes in their blocks: iupdate's half of the file system. */
module InodeBlocks {
  import opened Bits
  import opened Blocks
  import opened BlockMap
  import opened FileContent
  import opened Truncation

  const IWORDS: nat := 16   // words of a struct dinode

  // ws[..k] goes to words at, at + 1, ...
  function PutWords(b: Block, at: nat, ws: seq<word>, k: nat): Block
    requires k <= |ws| && at + |ws| <= WORDS
  {
    if k == 0 then b else PutWord(PutWords(b, at, ws, k - 1), at + k - 1, ws[k - 1])
  }

  lemma {:induction false} PutWordsAt(b: Block, at: nat, ws: seq<word>, k: nat, j: nat)
    requires k <= |ws| && at + |ws| <= WORDS && j < WORDS
    ensures GetWord(PutWords(b, at, ws, k), j) == if at <= j < at + k then ws[j - at] else GetWord(b, j)
  {
    hide GetWord, PutWord;
    if k > 0 {
      PutWordsAt(b, at, ws, k - 1, j);
      GetPutWord(PutWords(b, at, ws, k - 1), at + k - 1, ws[k - 1]);
    }
  }

  // What fits the fields of a struct dinode.
  predicate Fits(ip: Inode) { 0 <= ip.typ < 0x1_0000 && ip.size < 0x1_0000_0000 && |ip.addrs| == NDIRECT + 1 }

  // The copy iupdate makes in slot s of an inode block. The numbers of device
  // and links are not part of the model's inodes; they stay what they are.
  function PutInode(b: Block, s: nat, ip: Inode): Block
    requires s < IPB && Fits(ip)
  {
    var b1 := PutWord(b, IWORDS * s, ip.typ + GetWord(b, IWORDS * s) / 0x1_0000 * 0x1_0000);
    PutWords(PutWord(b1, IWORDS * s + 2, ip.size), IWORDS * s + 3, ip.addrs, NDIRECT + 1)
  }

  function GetWords(b: Block, at: nat, n: nat): (ws: seq<word>)
    requires at + n <= WORDS
    ensures |ws| == n && forall k :: 0 <= k < n ==> ws[k] == GetWord(b, at + k)
  {
    if n == 0 then [] else GetWords(b, at, n - 1) + [GetWord(b, at + n - 1)]
  }

  // The inode in slot s.
  function GetInode(b: Block, s: nat): Inode
    requires s < IPB
  {
    Inode(GetWord(b, IWORDS * s) % 0x1_0000, GetWord(b, IWORDS * s + 2), GetWords(b, IWORDS * s + 3, NDIRECT + 1))
  }

  lemma PutInodeWord(b: Block, s: nat, ip: Inode, j: nat)
    requires s < IPB && Fits(ip) && j < WORDS
    ensures var w := GetWord(PutInode(b, s, ip), j);
      && (j == IWORDS * s ==> w % 0x1_0000 == ip.typ)
      && (j == IWORDS * s + 2 ==> w == ip.size)
      && (IWORDS * s + 3 <= j < IWORDS * (s + 1) ==> w == ip.addrs[j - IWORDS * s - 3])
      && (j < IWORDS * s || IWORDS * (s + 1) <= j ==> w == GetWord(b, j))
  {
    hide GetWord, PutWord, PutWords;
    var v := ip.typ + GetWord(b, IWORDS * s) / 0x1_0000 * 0x1_0000;
    var b1 := PutWord(b, IWORDS * s, v);
    GetPutWord(b, IWORDS * s, v);
    GetPutWord(b1, IWORDS * s + 2, ip.size);
    PutWordsAt(PutWord(b1, IWORDS * s + 2, ip.size), IWORDS * s + 3, ip.addrs, NDIRECT + 1, j);
  }

  // An inode written to its slot is read back, and the others in the block are
  // what they were.
  lemma InodeRoundTrip(b: Block, s: nat, ip: Inode, t: nat)
    requires s < IPB && t < IPB && Fits(ip)
    ensures GetInode(PutInode(b, s, ip), t) == if t == s then ip else GetInode(b, t)
  {
    hide GetWord, PutInode;
    var r := GetInode(PutInode(b, s, ip), t);
    forall k: nat | k < NDIRECT + 1
      ensures r.addrs[k] == if t == s then ip.addrs[k] else GetInode(b, t).addrs[k]
    {
      PutInodeWord(b, s, ip, IWORDS * t + (3 + k));
    }
    PutInodeWord(b, s, ip, IWORDS * t);
    PutInodeWord(b, s, ip, IWORDS * t + 2);
  }

  // ---- the inodes in memory and those on the device ----

  // Every inode has its block, below the free map.
  predicate Placed(f: Fs) { f.inodes != [] ==> InodeBlock(f.g, |f.inodes| - 1) < f.g.bmapstart }

  predicate SyncedAt(f: Fs, k: nat)
    requires Shaped(f) && Placed(f)
  {
    k < |f.inodes| ==> Fits(f.inodes[k]) && GetInode(InodeBlockOf(f, k), k % IPB) == f.inodes[k]
  }

  function InodeBlockOf(f: Fs, k: nat): Block
    requires Shaped(f) && Placed(f) && k < |f.inodes|
  {
    assert InodeBlock(f.g, k) <= InodeBlock(f.g, |f.inodes| - 1);
    BitmapBelow(f, 0);
    f.blocks[InodeBlock(f.g, k)]
  }

  // Every inode in memory is the one in its block.
  ghost predicate Synced(f: Fs)
  {
    Shaped(f) && Placed(f) && forall k: nat :: SyncedAt(f, k)
  }

  // ---- a block below the free map changes ----

  function Repacked(f: Fs, b: nat, x: Block): Fs
    requires b < |f.blocks|
  {
    f.(blocks := f.blocks[b := x])
  }

  // An inode block is none of the blocks files are made of.
  lemma RepackedInv(f: Fs, b: nat, x: Block)
    requires Inv(f) && b < f.g.bmapstart
    ensures b < |f.blocks| && Inv(Repacked(f, b, x))
    ensures forall t :: IsSlot(f, t) ==> At(Repacked(f, b, x), t) == At(f, t)
    ensures forall k: nat :: k < |f.inodes| ==> SameBytes(f, Repacked(f, b, x), k)
    ensures forall c: nat :: c < f.g.size ==> InUse(Repacked(f, b, x), c) == InUse(f, c)
  {
    hide Byte, GetBit;
    BitmapBelow(f, 0);
    var f' := Repacked(f, b, x);
    forall t: Slot | IsSlot(f, t) ensures At(f', t) == At(f, t) {
      if t.Entry? && IndirectOf(f, t.i) != 0 { SlotBlock(f, Ind(t.i)); }
      AtKept(f, f', t);
    }
    hide At;
    forall c: nat | c < f.g.size ensures InUse(f', c) == InUse(f, c) { BitmapBelow(f, c); }
    forall t: Slot ensures SlotOk(f', t) { assert SlotOk(f, t); }
    forall c: nat ensures OwnerOk(f', c) { assert OwnerOk(f, c); }
    forall c: nat ensures PendingOk(f', c) { assert PendingOk(f, c); }
    forall c: nat ensures BitOk(f', c) { assert BitOk(f, c); }
    forall k: nat, y: nat | k < |f.inodes| && y < MAXBYTES ensures Byte(f', k, y) == Byte(f, k, y) {
      if AddrOf(f, k, y / BSIZE) != 0 { SlotBlock(f, SlotOf(k, y / BSIZE)); }
      ByteKept(f, f', k, y);
    }
  }

  // iupdate: inode i goes to its slot of its block.
  function Packed(f: Fs, i: nat): Fs
    requires Shaped(f) && Placed(f) && i < |f.inodes| && Fits(f.inodes[i])
  {
    var b := InodeBlockOf(f, i);
    Repacked(f, InodeBlock(f.g, i), PutInode(b, i % IPB, f.inodes[i]))
  }

  lemma PackedInv(f: Fs, i: nat)
    requires Inv(f) && Placed(f) && i < |f.inodes| && Fits(f.inodes[i])
    ensures Inv(Packed(f, i)) && Placed(Packed(f, i))
    ensures forall t :: IsSlot(f, t) ==> At(Packed(f, i), t) == At(f, t)
    ensures forall k: nat :: k < |f.inodes| ==> SameBytes(f, Packed(f, i), k)
    ensures forall c: nat :: c < f.g.size ==> InUse(Packed(f, i), c) == InUse(f, c)
  {
    hide Inv, At, InUse, SameBytes, PutInode;
    assert Shaped(f) by { InvShaped(f); }
    assert InodeBlock(f.g, i) <= InodeBlock(f.g, |f.inodes| - 1);
    RepackedInv(f, InodeBlock(f.g, i), PutInode(InodeBlockOf(f, i), i % IPB, f.inodes[i]));
  }

  lemma InvShaped(f: Fs)
    requires Inv(f)
    ensures Shaped(f)
  {
  }

  // Afterwards that inode is on the device as in memory, and so are the others
  // if they were.
  lemma PackedSynced(f: Fs, i: nat)
    requires Shaped(f) && Placed(f) && i < |f.inodes| && Fits(f.inodes[i])
    requires forall k: nat :: k != i ==> SyncedAt(f, k)
    ensures Synced(Packed(f, i))
  {
    hide GetInode, PutInode;
    var f' := Packed(f, i);
    forall k: nat ensures SyncedAt(f', k) {
      if k < |f.inodes| {
        assert k != i ==> SyncedAt(f, k);
        InodeRoundTrip(InodeBlockOf(f, i), i % IPB, f.inodes[i], k % IPB);
        SameSlot(i, k);
      }
    }
  }

  lemma SameSlot(i: nat, k: nat)
    ensures i == k <==> i / IPB == k / IPB && i % IPB == k % IPB
  {
  }

  // Inodes that have not changed, in blocks that have not, are still there.
  lemma SyncedKept(f: Fs, f': Fs, i: nat)
    requires Synced(f) && Shaped(f') && f'.g == f.g && |f'.inodes| == |f.inodes|
    requires forall b: nat :: b < |f.blocks| && b < f.g.bmapstart ==> b < |f'.blocks| && f'.blocks[b] == f.blocks[b]
    requires forall k: nat :: k < |f.inodes| && k != i ==> f'.inodes[k] == f.inodes[k]
    ensures Placed(f') && forall k: nat :: k != i ==> SyncedAt(f', k)
    ensures i < |f.inodes| && f'.inodes[i] == f.inodes[i] ==> Synced(f')
  {
    hide GetInode;
    forall k: nat | k < |f.inodes| && f'.inodes[k] == f.inodes[k] ensures SyncedAt(f', k) {
      assert SyncedAt(f, k);
      assert InodeBlock(f.g, k) <= InodeBlock(f.g, |f.inodes| - 1);
      BitmapBelow(f, 0);
    }
  }

  // ---- what a call has written ----

  // Only blocks in l differ, and of those that were not in l0 each is a block
  // of the free map or of data.
  ghost predicate Frame(g: Geo, a: seq<Block>, b: seq<Block>, l0: set<nat>, l: set<nat>)
  {
    && |a| == |b| && l0 <= l && (forall c :: c in l && c !in l0 ==> g.bmapstart <= c < g.size)
    && forall c: nat :: c < |a| && (c !in l || c < g.bmapstart) ==> b[c] == a[c]
  }

  lemma FrameSelf(g: Geo, a: seq<Block>, l: set<nat>)
    ensures Frame(g, a, a, l, l)
  {
  }

  lemma FrameTrans(g: Geo, a: seq<Block>, b: seq<Block>, c: seq<Block>, l0: set<nat>, l1: set<nat>, l2: set<nat>)
    requires Frame(g, a, b, l0, l1) && Frame(g, b, c, l1, l2)
    ensures Frame(g, a, c, l0, l2)
  {
  }

  // One more block.
  lemma FrameOne(g: Geo, a: seq<Block>, l0: set<nat>, b: nat, x: Block)
    requires g.bmapstart <= b < g.size && b < |a|
    ensures Frame(g, a, a[b := x], l0, l0 + {b})
  {
  }

  // The same for a finished call, which may have written an inode.
  ghost predicate OnlyLogged(g: Geo, a: seq<Block>, b: seq<Block>, l0: set<nat>, l: set<nat>)
  {
    && |a| == |b| && l0 <= l && (forall c :: c in l && c !in l0 ==> g.inodestart <= c < g.size)
    && forall c: nat :: c < |a| && c !in l ==> b[c] == a[c]
  }

  lemma OnlySelf(g: Geo, a: seq<Block>, l: set<nat>)
    ensures OnlyLogged(g, a, a, l, l)
  {
  }

  lemma OnlyFrame(g: Geo, a: seq<Block>, b: seq<Block>, l0: set<nat>, l: set<nat>)
    requires Frame(g, a, b, l0, l) && g.inodestart <= g.bmapstart
    ensures OnlyLogged(g, a, b, l0, l)
  {
  }

  // A copy has moved no inode but i, and none is written yet.
  lemma CopySynced(f: Fs, f1: Fs, i: nat, l0: set<nat>, l: set<nat>)
    requires Synced(f) && Shaped(f1) && f1.g == f.g && |f1.inodes| == |f.inodes| && i < |f.inodes|
    requires Frame(f.g, f.blocks, f1.blocks, l0, l)
    requires forall k: nat :: k < |f.inodes| && k != i ==> f1.inodes[k] == f.inodes[k]
    requires f1.inodes[i] == f.inodes[i].(addrs := f1.inodes[i].addrs)
    ensures f.g.inodestart <= f.g.bmapstart && Placed(f1) && Fits(f1.inodes[i])
    ensures forall k: nat :: k != i ==> SyncedAt(f1, k)
    ensures f1.inodes[i] == f.inodes[i] ==> Synced(f1)
  {
    hide SyncedAt;
    SyncedKept(f, f1, i);
    SyncedFits(f, i);
  }

  lemma SyncedFits(f: Fs, i: nat)
    requires Synced(f) && i < |f.inodes|
    ensures Fits(f.inodes[i])
  {
    assert SyncedAt(f, i);
  }

  // Then the size of inode i changes and it is written.
  lemma SizedSynced(f1: Fs, i: nat, size: nat)
    requires Shaped(f1) && Placed(f1) && i < |f1.inodes| && Fits(f1.inodes[i]) && size < 0x1_0000_0000
    requires forall k: nat :: k != i ==> SyncedAt(f1, k)
    ensures var f2 := Sized(f1, i, size);
      Shaped(f2) && Placed(f2) && Fits(f2.inodes[i]) && Synced(Packed(f2, i))
  {
    hide GetInode, PutInode, Synced, Packed;
    var f2 := Sized(f1, i, size);
    forall k: nat | k != i ensures SyncedAt(f2, k) { assert SyncedAt(f1, k); }
    PackedSynced(f2, i);
  }

  lemma OnlyPacked(f: Fs, f1: Fs, i: nat, l0: set<nat>, l: set<nat>)
    requires Shaped(f1) && Placed(f1) && i < |f1.inodes| && Fits(f1.inodes[i]) && f1.g == f.g
    requires Frame(f.g, f.blocks, f1.blocks, l0, l)
    ensures OnlyLogged(f.g, f.blocks, Packed(f1, i).blocks, l0, l + {InodeBlock(f.g, i)})
  {
    hide PutInode;
    assert InodeBlock(f.g, i) <= InodeBlock(f.g, |f1.inodes| - 1);
    BitmapBelow(f1, 0);
  }

  // The same after a truncation.
  lemma TruncatedSynced(f: Fs, f1: Fs, i: nat, l0: set<nat>, l: set<nat>)
    requires Synced(f) && i < |f.inodes| && Truncated(f, f1, i) && Frame(f.g, f.blocks, f1.blocks, l0, l)
    ensures Shaped(f1) && Placed(f1) && i < |f1.inodes| && Fits(f1.inodes[i])
    ensures Synced(Packed(f1, i)) && Truncated(f, Packed(f1, i), i)
  {
    hide At, SlotOk, OwnerOk, BitOk, PendingOk, InUse, SameBytes, Byte, GetInode, PutInode, SyncedAt;
    SyncedFits(f, i);
    SyncedKept(f, f1, i);
    PackedSynced(f1, i);
    PackedInv(f1, i);
    var f2 := Packed(f1, i);
    forall k: nat ensures FileOk(f2, k) { assert FileOk(f1, k); FileOkKept(f1, f2, k); }
    forall k: nat | k < |f.inodes| && k != i ensures SameBytes(f, f2, k) { SameBytesTrans(f, f1, f2, k); }
  }

  // Then the inode becomes free and is written.
  lemma ErasedSynced(f: Fs, f1: Fs, i: nat)
    requires Shaped(f) && i < |f.inodes| && Truncated(f, f1, i) && Synced(f1)
    ensures var f2 := Relabelled(f1, i, 0, 0);
      && Shaped(f2) && Placed(f2) && Fits(f2.inodes[i]) && Synced(Packed(f2, i)) && Emptied(f, Packed(f2, i), i, 0)
  {
    hide At, SlotOk, OwnerOk, BitOk, PendingOk, InUse, SameBytes, Byte, GetInode, PutInode, SyncedAt;
    var f2 := Relabelled(f1, i, 0, 0);
    RelabelledInv(f1, i, 0, 0);
    SyncedFits(f1, i);
    SyncedKept(f1, f2, i);
    PackedSynced(f2, i);
    PackedInv(f2, i);
    var f3 := Packed(f2, i);
    forall k: nat ensures FileOk(f3, k) {
      assert FileOk(f1, k);
      RelabelledOk(f1, f2, i, k);
      FileOkKept(f2, f3, k);
    }
    forall k: nat | k < |f.inodes| && k != i ensures SameBytes(f, f3, k) {
      SameBytesTrans(f1, f2, f3, k);
      SameBytesTrans(f, f1, f3, k);
    }
  }

  lemma RelabelledOk(f: Fs, f': Fs, i: nat, k: nat)
    requires Shaped(f) && i < |f.inodes| && f.inodes[i].size == 0 && f' == Relabelled(f, i, 0, 0) && FileOk(f, k)
    requires Shaped(f') && forall t :: IsSlot(f, t) ==> At(f', t) == At(f, t)
    ensures FileOk(f', k)
  {
    hide At;
    if k < |f.inodes| {
      forall bn: nat ensures Mapped(f', k, bn) { assert Mapped(f, k, bn); }
    }
  }

  lemma FileOkKept(f: Fs, f': Fs, k: nat)
    requires Shaped(f) && Shaped(f') && f'.inodes == f.inodes && FileOk(f, k)
    requires forall t :: IsSlot(f, t) ==> At(f', t) == At(f, t)
    ensures FileOk(f', k)
  {
    hide At;
    if k < |f.inodes| {
      forall bn: nat ensures Mapped(f', k, bn) { assert Mapped(f, k, bn); }
    }
  }
}
