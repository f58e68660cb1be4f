/** The buffer cache of bio.c over the in-memory disk of memide.c. */
module BufferCache {
  import opened Blocks
  import opened Options
  import opened Params

  /** struct buf. `locked` is the sleep lock's state; who holds it is the
      business of the SleepLock module. */
  datatype Buf = Buf(valid: bool, dirty: bool, dev: nat, blockno: nat, locked: bool, refcnt: nat, data: Block)

  // ---- what a table of buffers means ----

  predicate Caches(b: Buf, dev: nat, blockno: nat) { b.dev == dev && b.blockno == blockno }

  // A buffer bget may recycle.
  predicate Idle(b: Buf) { b.refcnt == 0 && !b.dirty }

  // At most one buffer per block. binit leaves every buffer at (0, 0), so the
  // claim is about real devices.
  ghost predicate Unique(bufs: seq<Buf>)
  {
    forall i, j :: 0 <= i < j < |bufs| && bufs[i].dev != 0 && bufs[i].dev == bufs[j].dev
                   ==> bufs[i].blockno != bufs[j].blockno
  }

  ghost predicate BufOk(b: Buf, disk: Disk)
  {
    && (b.locked ==> b.refcnt > 0)
    && (b.dirty ==> b.valid)
    && (b.valid ==> b.dev == ROOTDEV && b.blockno < |disk|)
    && (b.valid && !b.dirty && !b.locked ==> b.data == disk[b.blockno])
  }

  ghost predicate TableOk(bufs: seq<Buf>, disk: Disk)
  {
    Unique(bufs) && forall i :: 0 <= i < |bufs| ==> BufOk(bufs[i], disk)
  }

  ghost predicate HasCopy(bufs: seq<Buf>, blockno: nat)
  {
    exists i :: 0 <= i < |bufs| && bufs[i].valid && bufs[i].blockno == blockno
  }

  // The content the kernel sees for a block: the cached copy if there is one.
  ghost function Logical(bufs: seq<Buf>, disk: Disk, blockno: nat): Block
    requires blockno < |disk|
  {
    if HasCopy(bufs, blockno) then
      var i :| 0 <= i < |bufs| && bufs[i].valid && bufs[i].blockno == blockno;
      bufs[i].data
    else disk[blockno]
  }

  // The device as the kernel sees it.
  ghost function ViewOf(bufs: seq<Buf>, disk: Disk): (v: seq<Block>)
    ensures |v| == |disk|
  {
    seq(|disk|, n requires 0 <= n < |disk| => Logical(bufs, disk, n))
  }

  // Blocks whose cached copy may not be evicted.
  ghost function PinsOf(bufs: seq<Buf>): set<nat>
  {
    set i | 0 <= i < |bufs| && bufs[i].dirty :: bufs[i].blockno
  }

  // Blocks some process has locked.
  ghost function HeldOf(bufs: seq<Buf>): set<nat>
  {
    set i | 0 <= i < |bufs| && bufs[i].locked && bufs[i].dev == ROOTDEV :: bufs[i].blockno
  }

  // Buffers bget may recycle.
  ghost function IdleOf(bufs: seq<Buf>): set<nat>
  {
    set i: nat | 0 <= i < |bufs| && Idle(bufs[i])
  }

  lemma LogicalOf(bufs: seq<Buf>, disk: Disk, i: nat)
    requires TableOk(bufs, disk) && i < |bufs| && bufs[i].valid
    ensures Logical(bufs, disk, bufs[i].blockno) == bufs[i].data
  {
    assert BufOk(bufs[i], disk);
    forall j | 0 <= j < |bufs| && bufs[j].valid && bufs[j].blockno == bufs[i].blockno ensures j == i {
      assert BufOk(bufs[j], disk);
    }
  }

  // Replacing one buffer disturbs no block but the ones it names.
  lemma Elsewhere(bufs: seq<Buf>, disk: Disk, disk': Disk, i: nat, nb: Buf, blockno: nat)
    requires TableOk(bufs, disk) && i < |bufs| && TableOk(bufs[i := nb], disk')
    requires |disk| == |disk'| && blockno < |disk| && disk[blockno] == disk'[blockno]
    requires bufs[i].valid ==> bufs[i].blockno != blockno
    requires nb.valid ==> nb.blockno != blockno
    ensures Logical(bufs[i := nb], disk', blockno) == Logical(bufs, disk, blockno)
  {
    var bufs' := bufs[i := nb];
    if j :| 0 <= j < |bufs| && bufs[j].valid && bufs[j].blockno == blockno {
      assert bufs'[j] == bufs[j];
      LogicalOf(bufs, disk, j);
      LogicalOf(bufs', disk', j);
    } else {
      forall j | 0 <= j < |bufs'| ensures !(bufs'[j].valid && bufs'[j].blockno == blockno) {
        assert j == i || bufs'[j] == bufs[j];
      }
    }
  }

  // A buffer may be dropped, filled from the disk, or change its lock and
  // count without changing the view.
  lemma ReplaceSame(bufs: seq<Buf>, disk: Disk, i: nat, nb: Buf)
    requires TableOk(bufs, disk) && i < |bufs| && TableOk(bufs[i := nb], disk)
    requires nb.dirty == bufs[i].dirty
    requires bufs[i].valid ==>
      if nb.valid then nb.blockno == bufs[i].blockno && nb.data == bufs[i].data
      else bufs[i].blockno < |disk| && bufs[i].data == disk[bufs[i].blockno]
    requires !bufs[i].valid && nb.valid ==> nb.blockno < |disk| && nb.data == disk[nb.blockno]
    ensures ViewOf(bufs[i := nb], disk) == ViewOf(bufs, disk) && PinsOf(bufs[i := nb]) == PinsOf(bufs)
  {
    var bufs' := bufs[i := nb];
    forall b: nat | b < |disk| ensures Logical(bufs', disk, b) == Logical(bufs, disk, b) {
      if bufs[i].valid && bufs[i].blockno == b {
        LogicalOf(bufs, disk, i);
        if nb.valid {
          LogicalOf(bufs', disk, i);
        } else {
          NoOtherCopy(bufs, disk, i, nb);
        }
      } else if nb.valid && nb.blockno == b {
        LogicalOf(bufs', disk, i);
        NoOtherCopy(bufs', disk, i, bufs[i]);
        assert bufs'[i := bufs[i]] == bufs;
      } else {
        Elsewhere(bufs, disk, disk, i, nb, b);
      }
    }
    assert BufOk(bufs[i], disk) && BufOk(bufs'[i], disk);
    FlagsAfter(bufs, disk, disk, i, nb);
    FlagsOne(nb);
    FlagsOne(bufs[i]);
    if nb.dirty { assert nb.blockno in PinsOf(bufs); }
  }

  lemma NoOtherCopy(bufs: seq<Buf>, disk: Disk, i: nat, nb: Buf)
    requires TableOk(bufs, disk) && i < |bufs| && bufs[i].valid
    requires !nb.valid || nb.blockno != bufs[i].blockno
    ensures !HasCopy(bufs[i := nb], bufs[i].blockno)
  {
    var bufs' := bufs[i := nb];
    assert BufOk(bufs[i], disk);
    forall j | 0 <= j < |bufs'| ensures !(bufs'[j].valid && bufs'[j].blockno == bufs[i].blockno) {
      if j != i {
        assert bufs'[j] == bufs[j];
        assert BufOk(bufs[j], disk);
      }
    }
  }

  // What replacing one buffer does to the sets that speak of flags.
  lemma FlagsAfter(bufs: seq<Buf>, disk: Disk, disk': Disk, i: nat, nb: Buf)
    requires TableOk(bufs, disk) && i < |bufs| && TableOk(bufs[i := nb], disk')
    ensures PinsOf(bufs[i := nb]) == PinsOf(bufs) - PinsOf([bufs[i]]) + PinsOf([nb])
    ensures HeldOf(bufs[i := nb]) == HeldOf(bufs) - HeldOf([bufs[i]]) + HeldOf([nb])
    ensures IdleOf(bufs[i := nb]) == IdleOf(bufs) - {i} + if Idle(nb) then {i} else {}
  {
    var bufs', x, y := bufs[i := nb], [bufs[i]], [nb];
    assert BufOk(bufs[i], disk) && x[0] == bufs[i] && y[0] == bufs'[i];
    forall j | 0 <= j < |bufs|
      ensures bufs[j].dirty ==> bufs[j].blockno in PinsOf(x) + PinsOf(bufs')
      ensures bufs[j].locked && bufs[j].dev == ROOTDEV ==> bufs[j].blockno in HeldOf(x) + HeldOf(bufs')
      ensures bufs'[j].dirty ==> bufs'[j].blockno in PinsOf(bufs) - PinsOf(x) + PinsOf(y)
      ensures bufs'[j].locked && bufs'[j].dev == ROOTDEV ==> bufs'[j].blockno in HeldOf(bufs) - HeldOf(x) + HeldOf(y)
    {
      if j != i { assert bufs'[j] == bufs[j] && BufOk(bufs[j], disk); }
    }
  }

  // The flags of one buffer.
  lemma FlagsOne(b: Buf)
    ensures PinsOf([b]) == (if b.dirty then {b.blockno} else {})
    ensures HeldOf([b]) == (if b.locked && b.dev == ROOTDEV then {b.blockno} else {})
  {
    assert [b][0] == b;
  }

  lemma TableReplace(bufs: seq<Buf>, disk: Disk, i: nat, nb: Buf)
    requires TableOk(bufs, disk) && i < |bufs| && BufOk(nb, disk)
    requires Caches(nb, bufs[i].dev, bufs[i].blockno)
             || forall j :: 0 <= j < |bufs| ==> !Caches(bufs[j], nb.dev, nb.blockno)
    ensures TableOk(bufs[i := nb], disk)
  {
    var bufs' := bufs[i := nb];
    forall j | 0 <= j < |bufs'| ensures BufOk(bufs'[j], disk) {
      assert j == i || bufs'[j] == bufs[j];
    }
  }

  // Writing the buffer through to the disk: only its own pin goes away.
  lemma WriteThrough(bufs: seq<Buf>, disk: Disk, i: nat)
    requires TableOk(bufs, disk) && i < |bufs| && bufs[i].valid
    ensures var b := bufs[i]; var bufs', disk' := bufs[i := b.(dirty := false)], disk[b.blockno := b.data];
            TableOk(bufs', disk') && ViewOf(bufs', disk') == ViewOf(bufs, disk)
  {
    var b := bufs[i];
    assert BufOk(b, disk);
    var nb := b.(dirty := false);
    var bufs', disk' := bufs[i := nb], disk[b.blockno := b.data];
    forall j | 0 <= j < |bufs'| ensures BufOk(bufs'[j], disk') {
      assert j == i || bufs'[j] == bufs[j];
      assert BufOk(bufs[j], disk);
    }
    forall n: nat | n < |disk| ensures Logical(bufs', disk', n) == Logical(bufs, disk, n) {
      if n == b.blockno {
        LogicalOf(bufs, disk, i);
        LogicalOf(bufs', disk', i);
      } else {
        Elsewhere(bufs, disk, disk', i, nb, n);
      }
    }
  }

  // A client overwriting a buffer it holds, or setting B_DIRTY on it.
  lemma Overwrite(bufs: seq<Buf>, disk: Disk, i: nat, nb: Buf)
    requires TableOk(bufs, disk) && i < |bufs| && bufs[i].valid && BufOk(nb, disk)
    requires nb.valid && Caches(nb, bufs[i].dev, bufs[i].blockno)
    ensures bufs[i].blockno < |disk| && TableOk(bufs[i := nb], disk)
    ensures ViewOf(bufs[i := nb], disk) == ViewOf(bufs, disk)[bufs[i].blockno := nb.data]
  {
    var bufs' := bufs[i := nb];
    assert BufOk(bufs[i], disk);
    TableReplace(bufs, disk, i, nb);
    forall n: nat | n < |disk|
      ensures Logical(bufs', disk, n) == if n == nb.blockno then nb.data else Logical(bufs, disk, n)
    {
      if n == nb.blockno { LogicalOf(bufs', disk, i); } else { Elsewhere(bufs, disk, disk, i, nb, n); }
    }
  }

  // The LRU list holds every buffer exactly once.
  ghost predicate Permutation(lru: seq<nat>, n: nat)
  {
    && (forall k :: 0 <= k < |lru| ==> lru[k] < n)
    && (forall j, k :: 0 <= j < k < |lru| ==> lru[j] != lru[k])
    && (forall i: nat :: i < n ==> i in lru)
  }

  lemma MoveToFront(lru: seq<nat>, n: nat, k: nat)
    requires Permutation(lru, n) && k < |lru|
    ensures Permutation([lru[k]] + lru[..k] + lru[k + 1..], n)
  {
    var r := [lru[k]] + lru[..k] + lru[k + 1..];
    forall i: nat | i < n ensures i in r {
      assert i in lru;
      var j :| 0 <= j < |lru| && lru[j] == i;
      assert r[if j == k then 0 else if j < k then j + 1 else j] == i;
    }
  }

  class Bcache {
    const bufs: array<Buf>            // struct buf buf[NBUF]
    var lru: seq<nat>                 // head.next, head.next->next, ...: most recently used first
    var disk: Disk                    // memdisk
    ghost var history: seq<Disk>      // every image the disk has held, the present one last
    ghost var view: seq<Block>        // the device as the kernel sees it
    ghost var pins: set<nat>          // the pinned blocks,
    ghost var held: set<nat>          // the locked blocks,
    ghost var idles: set<nat>         // and the buffers bget may recycle

    ghost predicate Valid()
      reads this, bufs
    {
      && bufs.Length == NBUF
      && Permutation(lru, NBUF)
      && TableOk(bufs[..], disk)
      && 0 < |history| && history[|history| - 1] == disk
      && view == ViewOf(bufs[..], disk) && pins == PinsOf(bufs[..])
      && held == HeldOf(bufs[..]) && idles == IdleOf(bufs[..])
    }

    // binit: nothing cached, every buffer claiming block 0 of device 0.
    constructor (image: Disk)
      ensures Valid() && fresh(bufs) && disk == image && history == [image]
      ensures view == image && pins == {} && held == {}
      ensures forall i: nat :: i < NBUF ==> i in idles
    {
      bufs := new Buf[NBUF](i => Buf(false, false, 0, 0, false, 0, ZEROES));
      lru := [];
      disk := image;
      history := [image];
      new;
      var n := 0;
      while n < NBUF
        invariant n <= NBUF && Permutation(lru, n)
        invariant bufs.Length == NBUF && fresh(bufs) && disk == image && history == [image]
        invariant forall i :: 0 <= i < NBUF ==> bufs[i] == Buf(false, false, 0, 0, false, 0, ZEROES)
      {
        lru := [n] + lru;
        forall i: nat | i < n + 1 ensures i in lru {
          if i < n {
            assert i in lru[1..];
          }
        }
        n := n + 1;
      }
      assert forall i :: 0 <= i < NBUF ==> !bufs[..][i].valid;
      assert ViewOf(bufs[..], disk) == image;
      Sync();
    }

    ghost method Sync()
      modifies this`view, this`pins, this`held, this`idles
      ensures view == ViewOf(bufs[..], disk) && pins == PinsOf(bufs[..])
      ensures held == HeldOf(bufs[..]) && idles == IdleOf(bufs[..])
    {
      view, pins, held, idles := ViewOf(bufs[..], disk), PinsOf(bufs[..]), HeldOf(bufs[..]), IdleOf(bufs[..]);
    }

    // The critical section of bget. None is the panic "no buffers".
    method Lookup(dev: nat, blockno: nat) returns (r: Option<nat>)
      requires Valid() && dev != 0
      modifies this`view, this`pins, this`held, this`idles, bufs
      ensures Valid() && view == old(view) && pins == old(pins) && held == old(held)
      ensures r.None? <==> old(idles) == {} && forall i :: 0 <= i < NBUF ==> !old(Caches(bufs[i], dev, blockno))
      ensures r.None? ==> bufs[..] == old(bufs[..])
      ensures r.None? ==> forall i :: 0 <= i < NBUF ==> bufs[i].refcnt > 0 || bufs[i].dirty
      ensures r.None? ==> forall i :: 0 <= i < NBUF ==> bufs[i].dev != dev || bufs[i].blockno != blockno
      ensures r.Some? ==> r.value < NBUF && bufs[r.value].dev == dev && bufs[r.value].blockno == blockno
      ensures r.Some? ==>
        && r.value < NBUF && idles == old(idles) - {r.value}
        && (forall j :: 0 <= j < NBUF && j != r.value ==> bufs[j] == old(bufs[j]))
        && Caches(bufs[r.value], dev, blockno) && bufs[r.value].refcnt == old(bufs[r.value].refcnt) + 1
        && bufs[r.value].dirty == old(bufs[r.value].dirty) && bufs[r.value].locked == old(bufs[r.value].locked)
        && (if old(Caches(bufs[r.value], dev, blockno))
            then bufs[r.value].valid == old(bufs[r.value].valid) && bufs[r.value].data == old(bufs[r.value].data)
            else // a miss takes the least recently used of the idle buffers
              && (forall i :: 0 <= i < NBUF ==> !old(Caches(bufs[i], dev, blockno)))
              && r.value in old(idles) && !bufs[r.value].valid
              && (exists k ::
                    && 0 <= k < |lru| && lru[k] == r.value
                    && forall m :: k < m < |lru| ==> !old(Idle(bufs[lru[m]]))))
    {
      ghost var before := bufs[..];
      var k := 0;
      while k < |lru|
        invariant k <= |lru| && bufs[..] == before
        invariant forall m :: 0 <= m < k ==> !Caches(bufs[lru[m]], dev, blockno)
      {
        var i := lru[k];
        if Caches(bufs[i], dev, blockno) {
          Replace(i, bufs[i].(refcnt := bufs[i].refcnt + 1));
          return Some(i);
        }
        k := k + 1;
      }
      forall i | 0 <= i < NBUF ensures !Caches(before[i], dev, blockno) {
        assert (i as nat) in lru;
        var m :| 0 <= m < |lru| && lru[m] == i;
      }
      while 0 < k
        invariant k <= |lru| && bufs[..] == before
        invariant forall m :: k <= m < |lru| ==> !Idle(bufs[lru[m]])
      {
        k := k - 1;
        var i := lru[k];
        if Idle(bufs[i]) {
          Replace(i, bufs[i].(dev := dev, blockno := blockno, valid := false, dirty := false, refcnt := 1));
          return Some(i);
        }
      }
      forall i | 0 <= i < NBUF ensures !Idle(before[i]) {
        assert (i as nat) in lru;
        var m :| 0 <= m < |lru| && lru[m] == i;
      }
      return None;
    }

    // Give a buffer new fields that nobody looking at the device can tell from
    // the old ones.
    method Replace(i: nat, nb: Buf)
      requires Valid() && i < NBUF && BufOk(nb, disk)
      requires Caches(nb, bufs[i].dev, bufs[i].blockno)
               || forall j :: 0 <= j < NBUF ==> !Caches(bufs[j], nb.dev, nb.blockno)
      requires nb.dirty == bufs[i].dirty
      requires bufs[i].valid ==>
        if nb.valid then nb.blockno == bufs[i].blockno && nb.data == bufs[i].data
        else bufs[i].blockno < |disk| && bufs[i].data == disk[bufs[i].blockno]
      requires !bufs[i].valid && nb.valid ==> nb.blockno < |disk| && nb.data == disk[nb.blockno]
      modifies this`view, this`pins, this`held, this`idles, bufs
      ensures Valid() && bufs[..] == old(bufs[..])[i := nb] && view == old(view) && pins == old(pins)
      ensures held == old(held) - HeldOf([old(bufs[i])]) + HeldOf([nb])
      ensures idles == old(idles) - {i} + if Idle(nb) then {i} else {}
    {
      ghost var before := bufs[..];
      TableReplace(before, disk, i, nb);
      ReplaceSame(before, disk, i, nb);
      FlagsAfter(before, disk, disk, i, nb);
      bufs[i] := nb;
      assert bufs[..] == before[i := nb];
      Sync();
    }

    // acquiresleep(&b->lock), once the lock is free.
    method LockBuf(i: nat)
      requires Valid() && i < NBUF && bufs[i].refcnt > 0 && !bufs[i].locked
      modifies this`view, this`pins, this`held, this`idles, bufs
      ensures Valid() && bufs[..] == old(bufs[..])[i := old(bufs[i].(locked := true))]
      ensures view == old(view) && pins == old(pins) && idles == old(idles)
      ensures held == old(held) + if bufs[i].dev == ROOTDEV then {bufs[i].blockno} else {}
    {
      assert BufOk(bufs[..][i], disk);
      FlagsOne(bufs[i]);
      FlagsOne(bufs[i].(locked := true));
      Replace(i, bufs[i].(locked := true));
    }

    // iderw: a dirty buffer goes to the disk, an invalid one comes from it;
    // ok is false for one of its panics.
    method Iderw(i: nat) returns (ok: bool)
      requires Valid() && i < NBUF
      modifies this`disk, this`history, this`view, this`pins, this`held, this`idles, bufs
      ensures ok == old(bufs[i].locked && !(bufs[i].valid && !bufs[i].dirty)
                        && bufs[i].dev == ROOTDEV && bufs[i].blockno < |disk|)
      ensures Valid() && view == old(view) && held == old(held) && idles == old(idles)
      ensures if ok && old(bufs[i].dirty) then
        && bufs[..] == old(bufs[..])[i := old(bufs[i].(dirty := false))]
        && disk == old(disk[bufs[i].blockno := bufs[i].data]) && history == old(history) + [disk]
        && pins == old(pins) - {old(bufs[i].blockno)}
      else
        && bufs[..] == (if ok then old(bufs[..])[i := old(bufs[i].(valid := true, data := disk[bufs[i].blockno]))]
                        else old(bufs[..]))
        && disk == old(disk) && history == old(history) && pins == old(pins)
    {
      if !bufs[i].locked { return false; }
      if bufs[i].valid && !bufs[i].dirty { return false; }
      if bufs[i].dev != ROOTDEV { return false; }
      if bufs[i].blockno >= |disk| { return false; }
      ghost var before := bufs[..];
      assert BufOk(before[i], disk);
      FlagsOne(before[i]);
      var p := bufs[i].blockno;
      if bufs[i].dirty {
        ghost var nb := before[i].(dirty := false);
        WriteThrough(before, disk, i);
        FlagsAfter(before, disk, disk[p := before[i].data], i, nb);
        FlagsOne(nb);
        assert p in HeldOf(before);
        bufs[i] := bufs[i].(dirty := false);
        disk := disk[p := bufs[i].data];
        history := history + [disk];
        assert bufs[..] == before[i := nb];
        Sync();
      } else {
        var nb := bufs[i].(data := disk[p], valid := true);
        FlagsOne(nb);
        assert p in HeldOf(before);
        Replace(i, nb);
      }
      return true;
    }

    // memmove into b->data, or b->flags |= B_DIRTY.
    method Update(i: nat, nb: Buf)
      requires Valid() && i < NBUF && bufs[i].valid && BufOk(nb, disk)
      requires nb == bufs[i].(data := nb.data, dirty := nb.dirty) && (bufs[i].dirty ==> nb.dirty)
      requires bufs[i].refcnt > 0
      modifies this`view, this`pins, this`held, this`idles, bufs
      ensures Valid() && bufs[..] == old(bufs[..])[i := nb] && nb.blockno < |disk|
      ensures view == old(view)[nb.blockno := nb.data] && held == old(held) && idles == old(idles)
      ensures pins == old(pins) + if nb.dirty then {nb.blockno} else {}
    {
      ghost var before := bufs[..];
      Overwrite(before, disk, i, nb);
      FlagsAfter(before, disk, disk, i, nb);
      FlagsOne(nb);
      FlagsOne(before[i]);
      if nb.locked && nb.dev == ROOTDEV { assert nb.blockno in HeldOf(before); }
      if before[i].dirty { assert nb.blockno in PinsOf(before); }
      bufs[i] := nb;
      assert bufs[..] == before[i := nb];
      Sync();
    }

    method SetData(i: nat, data: Block)
      requires Valid() && i < NBUF && bufs[i].locked && bufs[i].valid
      modifies this`view, this`pins, this`held, this`idles, bufs
      ensures Valid() && bufs[..] == old(bufs[..])[i := old(bufs[i].(data := data))] && bufs[i].blockno < |disk|
      ensures view == old(view)[bufs[i].blockno := data]
      ensures held == old(held) && idles == old(idles) && pins == old(pins)
    {
      assert BufOk(bufs[..][i], disk);
      if bufs[i].dirty { assert bufs[..][i].blockno in PinsOf(bufs[..]); }
      Update(i, bufs[i].(data := data));
    }

    method SetDirty(i: nat)
      requires Valid() && i < NBUF && bufs[i].valid && bufs[i].refcnt > 0
      modifies this`view, this`pins, this`held, this`idles, bufs
      ensures Valid() && bufs[..] == old(bufs[..])[i := old(bufs[i].(dirty := true))]
      ensures view == old(view) && held == old(held) && idles == old(idles)
      ensures pins == old(pins) + {bufs[i].blockno}
    {
      assert BufOk(bufs[..][i], disk);
      LogicalOf(bufs[..], disk, i);
      Update(i, bufs[i].(dirty := true));
    }

    // releasesleep(&b->lock). The client has written the buffer through or
    // handed it to the log, or has not changed it.
    method UnlockBuf(i: nat)
      requires Valid() && i < NBUF && bufs[i].locked && bufs[i].dev == ROOTDEV
      requires bufs[i].valid && !bufs[i].dirty ==> bufs[i].blockno < |disk| && bufs[i].data == disk[bufs[i].blockno]
      modifies this`view, this`pins, this`held, this`idles, bufs
      ensures Valid() && bufs[..] == old(bufs[..])[i := old(bufs[i].(locked := false))]
      ensures view == old(view) && pins == old(pins) && idles == old(idles)
      ensures held == old(held) - {bufs[i].blockno}
    {
      assert BufOk(bufs[..][i], disk);
      FlagsOne(bufs[i]);
      FlagsOne(bufs[i].(locked := false));
      Replace(i, bufs[i].(locked := false));
    }

    // The critical section of brelse.
    method Unref(i: nat)
      requires Valid() && i < NBUF && 0 < bufs[i].refcnt && (bufs[i].locked ==> 1 < bufs[i].refcnt)
      modifies this`lru, this`view, this`pins, this`held, this`idles, bufs
      ensures Valid() && bufs[..] == old(bufs[..])[i := old(bufs[i].(refcnt := bufs[i].refcnt - 1))]
      ensures view == old(view) && pins == old(pins) && held == old(held)
      ensures idles == old(idles) + if bufs[i].refcnt == 0 && !bufs[i].dirty then {i} else {}
      ensures if bufs[i].refcnt == 0
              then exists k :: 0 <= k < |old(lru)| && old(lru)[k] == i && lru == [i] + old(lru)[..k] + old(lru)[k + 1..]
              else lru == old(lru)
    {
      ghost var before := bufs[..];
      var nb := bufs[i].(refcnt := bufs[i].refcnt - 1);
      assert BufOk(before[i], disk);
      FlagsOne(before[i]);
      FlagsOne(nb);
      if nb.locked && nb.dev == ROOTDEV { assert nb.blockno in HeldOf(before); }
      Replace(i, nb);
      if bufs[i].refcnt == 0 {
        assert i in lru;
        var k := 0;
        while lru[k] != i
          invariant k < |lru| && lru == old(lru) && bufs[..] == before[i := nb]
          invariant i in lru[k..]
          decreases |lru| - k
        {
          k := k + 1;
        }
        MoveToFront(lru, NBUF, k);
        lru := [i] + lru[..k] + lru[k + 1..];
      }
    }

    // bread by a process that finds the buffer unlocked.
    method Bread(blockno: nat) returns (r: Option<nat>)
      requires Valid() && blockno < |disk| && blockno !in held
      modifies this`disk, this`history, this`view, this`pins, this`held, this`idles, bufs
      ensures Valid() && disk == old(disk) && history == old(history)
      ensures view == old(view) && pins == old(pins)
      ensures r.None? ==> old(idles) == {} && blockno !in pins && bufs[..] == old(bufs[..])
      ensures r.None? <==> old(idles) == {} && forall i :: 0 <= i < NBUF ==> !old(Caches(bufs[i], ROOTDEV, blockno))
      ensures r.Some? ==>
        && r.value < NBUF == bufs.Length && held == old(held) + {blockno} && idles == old(idles) - {r.value}
        && (forall j :: 0 <= j < NBUF && j != r.value ==> bufs[j] == old(bufs[j]))
        && (r.value in old(idles) ==> old(bufs[r.value].refcnt) == 0 && blockno !in pins)
        && !old(bufs[r.value].locked)
        && bufs[r.value] ==
            Buf(true, blockno in pins, ROOTDEV, blockno, true, old(bufs[r.value].refcnt) + 1, view[blockno])
    {
      ghost var before := bufs[..];
      r := Lookup(ROOTDEV, blockno);
      if r.None? {
        forall i | 0 <= i < NBUF ensures !(before[i].dirty && before[i].blockno == blockno) {
          assert BufOk(before[i], disk);
        }
        return;
      }
      assert bufs[..][r.value].locked ==> blockno in HeldOf(before);
      LockBuf(r.value);
      if !bufs[r.value].valid {
        var _ := Iderw(r.value);
      }
      LogicalOf(bufs[..], disk, r.value);
      PinnedBuffer(bufs[..], disk, r.value);
    }

    method Bwrite(i: nat)
      requires Valid() && i < NBUF && bufs[i].locked && bufs[i].valid
      modifies this`disk, this`history, this`view, this`pins, this`held, this`idles, bufs
      ensures Valid() && bufs[..] == old(bufs[..])[i := old(bufs[i].(dirty := false))]
      ensures bufs[i].blockno < |old(disk)|
      ensures disk == old(disk)[bufs[i].blockno := bufs[i].data] && history == old(history) + [disk]
      ensures view == old(view) && held == old(held) && idles == old(idles)
      ensures pins == old(pins) - {bufs[i].blockno}
    {
      assert BufOk(bufs[..][i], disk);
      SetDirty(i);
      var _ := Iderw(i);
    }

    method Brelse(i: nat)
      requires Valid() && i < NBUF && bufs[i].locked && bufs[i].dev == ROOTDEV
      requires bufs[i].valid && !bufs[i].dirty ==> bufs[i].blockno < |disk| && bufs[i].data == disk[bufs[i].blockno]
      modifies this`lru, this`view, this`pins, this`held, this`idles, bufs
      ensures Valid() && bufs[..] == old(bufs[..])[i := old(bufs[i].(locked := false, refcnt := bufs[i].refcnt - 1))]
      ensures view == old(view) && pins == old(pins) && held == old(held) - {bufs[i].blockno}
      ensures idles == old(idles) + if bufs[i].refcnt == 0 && !bufs[i].dirty then {i} else {}
    {
      assert BufOk(bufs[..][i], disk);
      UnlockBuf(i);
      Unref(i);
    }
  
    lemma CleanAll() returns (n: nat)
      requires Valid()
      ensures n == |disk| == |view| && forall b: nat :: b < n && b !in held && b !in pins ==> view[b] == disk[b]
    {
      n := |disk|;
      forall b: nat | b < n && b !in held && b !in pins ensures view[b] == disk[b] { Clean(b); }
    }

    // An unpinned block nobody holds reads as the disk.
    lemma Clean(b: nat)
      requires Valid() && b < |disk| && b !in held && b !in pins
      ensures |view| == |disk| && view[b] == disk[b]
    {
      if i :| 0 <= i < |bufs[..]| && bufs[..][i].valid && bufs[..][i].blockno == b {
        assert BufOk(bufs[..][i], disk);
        LogicalOf(bufs[..], disk, i);
      }
    }
  }

  lemma PinnedBuffer(bufs: seq<Buf>, disk: Disk, i: nat)
    requires TableOk(bufs, disk) && i < |bufs| && bufs[i].dev == ROOTDEV
    ensures bufs[i].dirty <==> bufs[i].blockno in PinsOf(bufs)
  {
    forall j | 0 <= j < |bufs| && bufs[j].dirty ensures bufs[j].dev == ROOTDEV { assert BufOk(bufs[j], disk); }
  }

  function DirtyCount(bufs: seq<Buf>): nat
  {
    if bufs == [] then 0 else DirtyCount(bufs[..|bufs| - 1]) + if bufs[|bufs| - 1].dirty then 1 else 0
  }

  lemma {:induction false} PinsCounted(bufs: seq<Buf>, disk: Disk)
    requires TableOk(bufs, disk)
    ensures |PinsOf(bufs)| == DirtyCount(bufs)
  {
    if bufs == [] {
      assert PinsOf(bufs) == {};
    } else {
      var n := |bufs| - 1;
      var init, last := bufs[..n], bufs[n];
      PinsCounted(init, disk);
      forall b | b in PinsOf(bufs) ensures b in PinsOf(init) || (last.dirty && b == last.blockno) {
        var i :| 0 <= i <= n && bufs[i].dirty && bufs[i].blockno == b;
        assert i < n ==> init[i] == bufs[i];
      }
      forall i | 0 <= i < n && init[i].dirty
        ensures init[i].blockno in PinsOf(bufs) && (last.dirty ==> init[i].blockno != last.blockno)
      {
        assert bufs[i] == init[i] && BufOk(bufs[i], disk) && BufOk(last, disk);
      }
      assert PinsOf(bufs) == PinsOf(init) + if last.dirty then {last.blockno} else {};
      assert last.dirty ==> last.blockno !in PinsOf(init);
    }
  }

  lemma {:induction false} DirtyCountBound(bufs: seq<Buf>)
    ensures DirtyCount(bufs) <= |bufs|
    ensures DirtyCount(bufs) == |bufs| <==> forall i :: 0 <= i < |bufs| ==> bufs[i].dirty
  {
    if bufs != [] {
      var init := bufs[..|bufs| - 1];
      DirtyCountBound(init);
      assert bufs == init + [bufs[|bufs| - 1]];
    }
  }

  // How many buffers some process uses or waits for.
  function UseCount(bufs: seq<Buf>): nat
  {
    if bufs == [] then 0 else UseCount(bufs[..|bufs| - 1]) + if bufs[|bufs| - 1].refcnt > 0 then 1 else 0
  }

  // A buffer that is not idle is in use or pinned.
  lemma {:induction false} NotIdle(bufs: seq<Buf>)
    requires forall i :: 0 <= i < |bufs| ==> !Idle(bufs[i])
    ensures |bufs| <= UseCount(bufs) + DirtyCount(bufs)
  {
    if bufs != [] {
      NotIdle(bufs[..|bufs| - 1]);
      assert !Idle(bufs[|bufs| - 1]);
    }
  }

  // "bget: no buffers". With nobody holding a buffer, one can be recycled
  // exactly when fewer blocks are pinned than there are buffers.
  lemma RoomExactlyWhen(bufs: seq<Buf>, disk: Disk)
    requires TableOk(bufs, disk) && |bufs| == NBUF
    requires forall i :: 0 <= i < NBUF ==> bufs[i].refcnt == 0
    ensures |PinsOf(bufs)| <= NBUF && (IdleOf(bufs) == {} <==> |PinsOf(bufs)| == NBUF)
  {
    PinsCounted(bufs, disk);
    DirtyCountBound(bufs);
    if |PinsOf(bufs)| < NBUF {
      var i :| 0 <= i < |bufs| && !bufs[i].dirty;
      assert (i as nat) in IdleOf(bufs);
    }
  }
}
