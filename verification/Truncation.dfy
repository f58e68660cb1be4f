/** Freeing every block of a file, one bit at a time. */
module Truncation {
  import opened BlockMap
  import opened FileContent

  // The order in which itrunc frees the blocks of an inode.
  function Stage(s: Slot): nat
  {
    match s
    case Direct(i, k) => k
    case Entry(i, j) => NDIRECT + j
    case Ind(i) => MAXFILE
  }

  predicate Owned(f: Fs, i: nat, c: nat) { c in f.owner && f.owner[c].i == i }

  // Block c of file i is among the first n freed.
  predicate Gone(f: Fs, i: nat, n: nat, c: nat) { Owned(f, i, c) && Stage(f.owner[c]) < n }

  predicate BitGone(f: Fs, f': Fs, i: nat, n: nat, c: nat)
    requires Shaped(f) && Shaped(f') && f'.g == f.g
  {
    c < f.g.size ==> (InUse(f', c) <==> InUse(f, c) && !Gone(f, i, n, c))
  }

  // Files other than i are as they were, and so are all bits but the first n.
  ghost predicate Apart(f: Fs, f': Fs, i: nat, n: nat)
    requires Shaped(f) && i < |f.inodes|
  {
    && Inv(f') && f'.g == f.g && |f'.blocks| == |f.blocks| && |f'.inodes| == |f.inodes|
    && (forall k: nat :: k < |f.inodes| && k != i ==> f'.inodes[k] == f.inodes[k] && SameBytes(f, f', k))
    && (forall c: nat :: BitGone(f, f', i, n, c))
    && f'.inodes[i] == f.inodes[i].(addrs := f'.inodes[i].addrs)
  }

  predicate OwnerLeft(f: Fs, f': Fs, i: nat, n: nat, c: nat)
  {
    && (c in f'.owner <==> c in f.owner && !Gone(f, i, n, c))
    && (c in f'.owner ==> f'.owner[c] == f.owner[c])
  }

  // The first n direct blocks are freed.
  ghost predicate DirectDone(f: Fs, f': Fs, i: nat, n: nat)
    requires Shaped(f) && i < |f.inodes|
  {
    && n <= NDIRECT && Apart(f, f', i, n) && f'.pending == {}
    && (forall c: nat :: OwnerLeft(f, f', i, n, c))
    && (forall k: nat :: k < n ==> f'.inodes[i].addrs[k] == 0)
    && (forall k: nat :: n <= k <= NDIRECT ==> f'.inodes[i].addrs[k] == f.inodes[i].addrs[k])
    && (0 < IndirectOf(f, i) < |f.blocks| ==> f'.blocks[IndirectOf(f, i)] == f.blocks[IndirectOf(f, i)])
  }

  predicate BlockLeft(f: Fs, f': Fs, i: nat, n: nat, c: nat)
  {
    && (c in f'.owner <==> c in f.owner && !Owned(f, i, c))
    && (c in f'.owner ==> f'.owner[c] == f.owner[c])
    && (c in f'.pending <==> Owned(f, i, c) && !Gone(f, i, n, c))
  }

  // All slots are cut and the first n blocks freed.
  ghost predicate CutDone(f: Fs, f': Fs, i: nat, n: nat)
    requires Shaped(f) && i < |f.inodes|
  {
    && Apart(f, f', i, n)
    && (forall c: nat :: BlockLeft(f, f', i, n, c))
    && (forall k: nat :: k <= NDIRECT ==> f'.inodes[i].addrs[k] == 0)
  }

  lemma DirectStart(f: Fs, i: nat)
    requires Inv(f) && f.pending == {} && i < |f.inodes|
    ensures DirectDone(f, f, i, 0)
  {
  }

  // Block c goes with slot s and with no other.
  lemma OnlyOwner(f: Fs, s: Slot)
    requires Inv(f) && IsSlot(f, s)
    ensures forall c: nat :: c in f.owner && f.owner[c] == s ==> At(f, s) == c
  {
    hide At, SlotOk, BitOk, PendingOk;
    forall c: nat | c in f.owner && f.owner[c] == s ensures At(f, s) == c { assert OwnerOk(f, c); }
  }

  // A direct slot that is empty, or whose block is freed.
  lemma DirectStep(f: Fs, f1: Fs, i: nat, k: nat)
    requires Inv(f) && f.pending == {} && i < |f.inodes| && DirectDone(f, f1, i, k) && k < NDIRECT
    ensures f1.inodes[i].addrs[k] == 0 ==> DirectDone(f, f1, i, k + 1)
    ensures f1.inodes[i].addrs[k] != 0 ==>
      f1.inodes[i].addrs[k] < f.g.size && InUse(f1, f1.inodes[i].addrs[k])
      && DirectDone(f, Freed(Dropped(f1, Direct(i, k)), f1.inodes[i].addrs[k]), i, k + 1)
  {
    hide At, SlotOk, BitOk, PendingOk, InUse, SameBytes, Byte;
    var s, b, n := Direct(i, k), f1.inodes[i].addrs[k], k + 1;
    ReadDirect(f, i, k);
    ReadDirect(f1, i, k);
    OnlyOwner(f, s);
    if b == 0 {
      forall c: nat ensures BitGone(f, f1, i, n, c) {
        assert BitGone(f, f1, i, k, c) && (c in f.owner ==> OwnerOk(f, c));
      }
      forall c: nat ensures OwnerLeft(f, f1, i, n, c) {
        assert OwnerLeft(f, f1, i, k, c) && (c in f.owner ==> OwnerOk(f, c));
      }
    } else {
      SlotBlock(f1, s);
      SlotBlock(f, s);
      OnlyOwner(f1, s);
      DroppedInv(f1, s);
      var f2 := Dropped(f1, s);
      FreedInv(f2, b);
      var f3 := Freed(f2, b);
      forall c: nat | c < f.g.size ensures InUse(f2, c) == InUse(f1, c) { SameBits(f1, f2, c); }
      forall c: nat ensures BitGone(f, f3, i, n, c) { assert BitGone(f, f1, i, k, c); }
      forall c: nat ensures OwnerLeft(f, f3, i, n, c) { assert OwnerLeft(f, f1, i, k, c); }
      forall j: nat | j < |f.inodes| && j != i ensures f3.inodes[j] == f.inodes[j] && SameBytes(f, f3, j) {
        SameBytesTrans(f, f1, f2, j);
        SameBytesTrans(f, f2, f3, j);
      }
      if IndirectOf(f, i) != 0 {
        ReadIndirect(f1, i);
        SlotBlock(f1, Ind(i));
        BitmapBelow(f, b);
      }
    }
  }

  lemma SameBits(f: Fs, f': Fs, c: nat)
    requires Shaped(f) && Shaped(f') && f'.blocks == f.blocks && f'.g == f.g && c < f.g.size
    ensures InUse(f', c) == InUse(f, c)
  {
  }

  lemma SameBytesTrans(f: Fs, f1: Fs, f2: Fs, k: nat)
    requires Shaped(f) && Shaped(f1) && Shaped(f2) && k < |f.inodes| && k < |f1.inodes| && k < |f2.inodes|
    requires SameBytes(f, f1, k) && SameBytes(f1, f2, k)
    ensures SameBytes(f, f2, k)
  {
    hide Byte;
  }

  lemma ReadDirect(f: Fs, i: nat, k: nat)
    requires Shaped(f) && i < |f.inodes| && k < NDIRECT
    ensures At(f, Direct(i, k)) == f.inodes[i].addrs[k]
  {
  }

  // Without an indirect block the direct blocks were all there was.
  lemma NothingMore(f: Fs, f1: Fs, i: nat)
    requires Inv(f) && f.pending == {} && i < |f.inodes| && DirectDone(f, f1, i, NDIRECT) && IndirectOf(f, i) == 0
    ensures CutDone(f, f1, i, MAXFILE + 1)
  {
    hide SlotOk, BitOk, PendingOk, InUse, SameBytes, Byte;
    var n := MAXFILE + 1;
    forall c: nat ensures BitGone(f, f1, i, n, c) {
      assert BitGone(f, f1, i, NDIRECT, c) && OwnerOk(f, c);
    }
    forall c: nat ensures BlockLeft(f, f1, i, n, c) {
      assert OwnerLeft(f, f1, i, NDIRECT, c) && OwnerOk(f, c);
    }
  }

  // The indirect slot is cut: its block and its entries wait to be freed.
  lemma CutStart(f: Fs, f1: Fs, i: nat)
    requires Inv(f) && f.pending == {} && i < |f.inodes| && DirectDone(f, f1, i, NDIRECT)
    ensures CutDone(f, Dropped(f1, Ind(i)), i, NDIRECT)
    ensures Dropped(f1, Ind(i)).blocks == f1.blocks
  {
    hide At, SlotOk, BitOk, PendingOk, InUse, SameBytes, Byte;
    var s, f2 := Ind(i), Dropped(f1, Ind(i));
    DroppedInv(f1, s);
    forall c: nat | c < f.g.size ensures InUse(f2, c) == InUse(f1, c) { SameBits(f1, f2, c); }
    forall c: nat ensures BitGone(f, f2, i, NDIRECT, c) { assert BitGone(f, f1, i, NDIRECT, c); }
    forall c: nat ensures BlockLeft(f, f2, i, NDIRECT, c) {
      assert OwnerLeft(f, f1, i, NDIRECT, c) && OwnerOk(f, c);
    }
    forall j: nat | j < |f.inodes| && j != i ensures f2.inodes[j] == f.inodes[j] && SameBytes(f, f2, j) {
      SameBytesTrans(f, f1, f2, j);
    }
  }

  // The next slot in line, an entry or the indirect slot itself, is empty or
  // its block is freed.
  lemma CutStep(f: Fs, f1: Fs, i: nat, s: Slot)
    requires Inv(f) && f.pending == {} && i < |f.inodes| && CutDone(f, f1, i, Stage(s))
    requires IsSlot(f, s) && s.i == i && !s.Direct?
    ensures At(f, s) == 0 ==> CutDone(f, f1, i, Stage(s) + 1)
    ensures At(f, s) != 0 ==>
      At(f, s) < f.g.size && InUse(f1, At(f, s)) && At(f, s) in f1.pending
          && CutDone(f, Freed(f1, At(f, s)), i, Stage(s) + 1)
  {
    hide At, SlotOk, BitOk, PendingOk, InUse, SameBytes, Byte;
    var b, n, n' := At(f, s), Stage(s), Stage(s) + 1;
    OnlyOwner(f, s);
    assert forall c: nat :: c in f.owner && Owned(f, i, c) ==> (Stage(f.owner[c]) == n <==> f.owner[c] == s) by {
      forall c: nat | Owned(f, i, c) ensures Stage(f.owner[c]) == n <==> f.owner[c] == s { assert OwnerOk(f, c); }
    }
    if b == 0 {
      forall c: nat ensures BitGone(f, f1, i, n', c) {
        assert BitGone(f, f1, i, n, c) && (c in f.owner ==> OwnerOk(f, c));
      }
      forall c: nat ensures BlockLeft(f, f1, i, n', c) {
        assert BlockLeft(f, f1, i, n, c) && (c in f.owner ==> OwnerOk(f, c));
      }
    } else {
      SlotBlock(f, s);
      assert BlockLeft(f, f1, i, n, b);
      FreedInv(f1, b);
      var f2 := Freed(f1, b);
      forall c: nat ensures BitGone(f, f2, i, n', c) { assert BitGone(f, f1, i, n, c); }
      forall c: nat ensures BlockLeft(f, f2, i, n', c) { assert BlockLeft(f, f1, i, n, c); }
      forall j: nat | j < |f.inodes| && j != i ensures f2.inodes[j] == f.inodes[j] && SameBytes(f, f2, j) {
        SameBytesTrans(f, f1, f2, j);
      }
    }
  }

  // f' is f with file i emptied, and of this type: exactly the bits of its
  // blocks are cleared, it has no slot left, and no other file has changed.
  ghost predicate Emptied(f: Fs, f': Fs, i: nat, typ: int)
    requires Shaped(f) && i < |f.inodes|
  {
    && Rest(f') && f'.g == f.g && |f'.inodes| == |f.inodes|
    && f'.inodes[i].typ == typ && f'.inodes[i].size == 0
    && (forall k: nat :: k < |f.inodes| && k != i ==> f'.inodes[k] == f.inodes[k] && SameBytes(f, f', k))
    && (forall c: nat :: c < f.g.size ==> (InUse(f', c) <==> InUse(f, c) && !Owned(f, i, c)))
    && (forall t: Slot :: IsSlot(f', t) && t.i == i ==> At(f', t) == 0)
    && (forall t: Slot :: IsSlot(f', t) && t.i != i ==> At(f', t) == At(f, t))
  }

  ghost predicate Truncated(f: Fs, f': Fs, i: nat)
    requires Shaped(f) && i < |f.inodes|
  {
    Emptied(f, f', i, f.inodes[i].typ)
  }

  lemma TruncatedSize(f: Fs, f': Fs, i: nat)
    requires Shaped(f) && i < |f.inodes| && Truncated(f, f', i)
    ensures |f'.inodes| == |f.inodes| && f'.inodes[i].size == 0
  {
  }

  function Relabelled(f: Fs, i: nat, typ: int, size: nat): Fs
    requires i < |f.inodes|
  {
    f.(inodes := f.inodes[i := f.inodes[i].(typ := typ, size := size)])
  }

  function Sized(f: Fs, i: nat, size: nat): Fs
    requires i < |f.inodes|
  {
    f.(inodes := f.inodes[i := f.inodes[i].(size := size)])
  }

  // Type and size are no part of the block map.
  lemma RelabelledInv(f: Fs, i: nat, typ: int, size: nat)
    requires Inv(f) && i < |f.inodes|
    ensures var f' := Relabelled(f, i, typ, size);
      && Inv(f') && (forall t :: IsSlot(f, t) ==> At(f', t) == At(f, t))
      && (forall k: nat :: k < |f.inodes| ==> SameBytes(f, f', k))
      && (forall c: nat :: c < f.g.size ==> InUse(f', c) == InUse(f, c))
  {
    var f' := Relabelled(f, i, typ, size);
    forall t: Slot | IsSlot(f, t) ensures At(f', t) == At(f, t) { AtKept(f, f', t); }
    hide At, Byte;
    forall t: Slot ensures SlotOk(f', t) { assert SlotOk(f, t); }
    forall c: nat ensures OwnerOk(f', c) { assert OwnerOk(f, c); }
    forall c: nat ensures PendingOk(f', c) { assert PendingOk(f, c); }
    forall c: nat ensures BitOk(f', c) { assert BitOk(f, c); }
    forall k: nat, x: nat | k < |f.inodes| && x < MAXBYTES ensures Byte(f', k, x) == Byte(f, k, x) {
      ByteKept(f, f', k, x);
    }
  }

  lemma SizedInv(f: Fs, i: nat, size: nat)
    requires Inv(f) && i < |f.inodes|
    ensures Inv(Sized(f, i, size))
    ensures forall t :: IsSlot(f, t) ==> At(Sized(f, i, size), t) == At(f, t)
    ensures forall k: nat :: k < |f.inodes| ==> SameBytes(f, Sized(f, i, size), k)
    ensures forall c: nat :: c < f.g.size ==> InUse(Sized(f, i, size), c) == InUse(f, c)
  {
    hide At, InUse, SameBytes, Inv;
    assert Sized(f, i, size) == Relabelled(f, i, f.inodes[i].typ, size);
    RelabelledInv(f, i, f.inodes[i].typ, size);
  }

  // When everything is freed and the size is cleared, the file is truncated.
  lemma CutEnd(f: Fs, f1: Fs, i: nat)
    requires Rest(f) && i < |f.inodes| && CutDone(f, f1, i, MAXFILE + 1)
    ensures Truncated(f, Sized(f1, i, 0), i)
  {
    hide At, SlotOk, OwnerOk, BitOk, PendingOk, InUse, SameBytes, Byte, Mapped;
    var f2 := Sized(f1, i, 0);
    SizedInv(f1, i, 0);
    forall c: nat ensures c !in f1.pending {
      AllGone(f, i, c);
      assert BlockLeft(f, f1, i, MAXFILE + 1, c);
    }
    forall c: nat | c < f.g.size ensures InUse(f2, c) <==> InUse(f, c) && !Owned(f, i, c) {
      AllGone(f, i, c);
      assert BitGone(f, f1, i, MAXFILE + 1, c);
    }
    forall j: nat | j < |f.inodes| && j != i ensures f2.inodes[j] == f.inodes[j] && SameBytes(f, f2, j) {
      SameBytesTrans(f, f1, f2, j);
    }
    forall t: Slot | IsSlot(f, t) ensures At(f2, t) == if t.i == i then 0 else At(f, t) {
      if t.i == i { SlotGone(f1, t); } else { OtherSlot(f, f1, i, t); }
    }
    forall k: nat ensures FileOk(f2, k) {
      assert FileOk(f, k);
      forall bn: nat | k < |f.inodes| ensures Mapped(f2, k, bn) { MappedKept(f, f2, i, k, bn); }
    }
  }

  lemma AllGone(f: Fs, i: nat, c: nat)
    requires Inv(f)
    ensures Gone(f, i, MAXFILE + 1, c) <==> Owned(f, i, c)
  {
    hide At, SlotOk, BitOk, PendingOk;
    assert OwnerOk(f, c);
  }

  lemma SlotGone(f: Fs, t: Slot)
    requires Shaped(f) && IsSlot(f, t) && forall k: nat :: k <= NDIRECT ==> f.inodes[t.i].addrs[k] == 0
    ensures At(f, t) == 0
  {
  }

  lemma OtherSlot(f: Fs, f': Fs, i: nat, t: Slot)
    requires Inv(f) && i < |f.inodes| && IsSlot(f, t) && t.i != i && CutDone(f, f', i, MAXFILE + 1)
    ensures At(f', t) == At(f, t)
  {
    hide At, BitOk, PendingOk, InUse, SameBytes, Byte;
    assert SlotOk(f, t) && SlotOk(f', t);
    assert BlockLeft(f, f', i, MAXFILE + 1, At(f, t)) && BlockLeft(f, f', i, MAXFILE + 1, At(f', t));
    assert OwnerOk(f, At(f', t)) && OwnerOk(f', At(f, t));
  }

  lemma MappedKept(f: Fs, f': Fs, i: nat, k: nat, bn: nat)
    requires Shaped(f) && Shaped(f') && |f'.inodes| == |f.inodes| && k < |f.inodes| && Mapped(f, k, bn)
    requires k == i ==> f'.inodes[k].size == 0
    requires k != i ==> f'.inodes[k] == f.inodes[k]
    requires forall t :: IsSlot(f, t) && t.i != i ==> At(f', t) == At(f, t)
    ensures Mapped(f', k, bn)
  {
    hide At;
  }
}
