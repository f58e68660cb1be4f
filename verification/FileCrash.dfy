/** A crash inside a write. */
module FileCrash {
  // filewrite makes one transaction after the other, the log commits each of
  // them, and recovery makes of every crash one of the states between them.
  // Nobody else writes meanwhile.

  import opened Blocks
  import opened BlockMap
  import opened FileContent
  import opened FileSteps
  import opened InodeBlocks
  import opened Params
  import opened RedoLog

  // ---- a file system on a disk ----

  // As the kernel finds it after a boot: every inode out of its block.
  function Mounted(g: Geo, d: Disk, n: nat): (f: Fs)
    requires n > 0 ==> InodeBlock(g, n - 1) < |d|
    ensures |f.inodes| == n && f.blocks == d && f.g == g
  {
    Fs(g, d, Inodes(g, d, n), map[], {})
  }

  function Inodes(g: Geo, d: Disk, n: nat): (r: seq<Inode>)
    requires n > 0 ==> InodeBlock(g, n - 1) < |d|
    ensures |r| == n
  {
    if n == 0 then []
    else
      assert n > 1 ==> InodeBlock(g, n - 2) <= InodeBlock(g, n - 1);
      Inodes(g, d, n - 1) + [GetInode(d[InodeBlock(g, n - 1)], (n - 1) % IPB)]
  }

  // The log lies below the inodes.
  predicate Beneath(a: Area, g: Geo) { a.start + a.size <= g.inodestart }

  lemma {:induction false} InodesRead(a: Area, f: Fs, d: Disk, n: nat)
    requires Synced(f) && SameHome(a, d, f.blocks) && Beneath(a, f.g) && n <= |f.inodes|
    ensures n > 0 ==> InodeBlock(f.g, n - 1) < |d|
    ensures Inodes(f.g, d, n) == f.inodes[..n]
  {
    hide GetInode;
    if n > 0 {
      InodesRead(a, f, d, n - 1);
      assert SyncedAt(f, n - 1);
      assert InodeBlock(f.g, n - 1) <= InodeBlock(f.g, |f.inodes| - 1);
      BitmapBelow(f, 0);
      assert f.inodes[..n] == f.inodes[..n - 1] + [f.inodes[n - 1]];
    }
  }

  // Every file reads from the disk as the state says it is.
  lemma MountedContent(a: Area, f: Fs, d: Disk, i: nat)
    requires Rest(f) && Synced(f) && SameHome(a, d, f.blocks) && Beneath(a, f.g) && i < |f.inodes|
    ensures InodeBlock(f.g, |f.inodes| - 1) < |d|
    ensures var m := Mounted(f.g, d, |f.inodes|);
      Shaped(m) && m.inodes == f.inodes && f.inodes[i].size <= MAXBYTES && Content(m, i) == Content(f, i)
  {
    hide At, Byte, GetInode, SlotOk, OwnerOk, BitOk, PendingOk;
    InodesRead(a, f, d, |f.inodes|);
    assert f.inodes[..|f.inodes|] == f.inodes;
    var m := Mounted(f.g, d, |f.inodes|);
    assert FileOk(f, i);
    assert InodeBlock(f.g, 0) <= InodeBlock(f.g, |f.inodes| - 1);
    forall x: nat | x < MAXBYTES ensures Byte(m, i, x) == Byte(f, i, x) {
      MountedByte(a, f, d, m, i, x);
    }
    SliceKept(f, m, i, 0, f.inodes[i].size);
  }

  lemma MountedByte(a: Area, f: Fs, d: Disk, m: Fs, i: nat, x: nat)
    requires Inv(f) && SameHome(a, d, f.blocks) && Beneath(a, f.g) && f.g.inodestart <= f.g.bmapstart
    requires i < |f.inodes| && x < MAXBYTES && Shaped(m) && m.inodes == f.inodes && m.blocks == d && m.g == f.g
    ensures Byte(m, i, x) == Byte(f, i, x)
  {
    hide SlotOk, OwnerOk, BitOk, PendingOk;
    BitmapBelow(f, 0);
    var t := SlotOf(i, x / BSIZE);
    if t.Entry? && IndirectOf(f, i) != 0 {
      ReadIndirect(f, i);
      SlotBlock(f, Ind(i));
    }
    AtKept(f, m, t);
    if At(f, t) != 0 { SlotBlock(f, t); }
    ByteKept(f, m, i, x);
  }

  // ---- one transaction ----

  // hs names the blocks of l, in the order in which they were logged.
  ghost predicate Lists(hs: seq<word>, l: set<nat>) { Distinct(hs) && SetOf(hs) == l }

  // A transaction, of one call or of several: every block it changed is in l.
  ghost predicate Grouped(f: Fs, f': Fs, l: set<nat>)
  {
    && f'.g == f.g && |f'.inodes| == |f.inodes| && Synced(f')
    && OnlyLogged(f.g, f.blocks, f'.blocks, {}, l) && l != {}
  }

  // What the log commits for a transaction from f to f' that fits it.
  lemma OneTransaction(a: Area, d: Disk, f: Fs, f': Fs, l: set<nat>, hs: seq<word>)
    requires Shaped(f) && Grouped(f, f', l) && Lists(hs, l) && SameHome(a, d, f.blocks) && Beneath(a, f.g)
    requires |hs| <= LOGSIZE && |hs| < a.size
    ensures ListOk(a, d, hs) && |f'.blocks| == |d|
    ensures SameHome(a, Apply(d, hs, Gather(hs, f'.blocks)), f'.blocks)
  {
    SizeOf(hs);
    forall k | 0 <= k < |hs| ensures f.g.inodestart <= hs[k] < f.g.size { assert (hs[k] as nat) in SetOf(hs); }
    ApplyAt(d, hs, Gather(hs, f'.blocks));
    var e := Apply(d, hs, Gather(hs, f'.blocks));
    forall b: nat | b < |d| && !a.Inside(b) ensures e[b] == f'.blocks[b] {
      if b in hs {
        var k :| 0 <= k < |hs| && hs[k] == b;
      } else {
        assert b !in SetOf(hs);
      }
    }
  }

  // ---- the transactions of a write, and a crash in the last of them ----

  // The k-th transaction takes the k-th state to the next; its commit is not
  // interrupted, unless it is the last.
  ghost predicate StepOf(a: Area, states: seq<Fs>, es: seq<Episode>, k: nat)
  {
    k < |es| && k + 1 < |states| ==>
      && Distinct(es[k].hs) && Grouped(states[k], states[k + 1], SetOf(es[k].hs))
      && |es[k].hs| <= LOGSIZE && |es[k].hs| < a.size
      && (forall j :: 0 <= j < |es[k].hs| ==> es[k].hs[j] < |states[k + 1].blocks|)
      && es[k].data == Gather(es[k].hs, states[k + 1].blocks)
      && (k + 1 < |es| ==> es[k].writes >= 2 * |es[k].hs| + 2)
  }

  // How many transactions got as far as their commit point.
  function Count(es: seq<Episode>): (c: nat)
    ensures c <= |es|
  {
    if es == [] || es[|es| - 1].writes >= CommitPoint(es[|es| - 1].hs) then |es| else |es| - 1
  }

  lemma StepOk(a: Area, d: Disk, states: seq<Fs>, es: seq<Episode>, k: nat)
    requires StepOf(a, states, es, k) && k < |es| && k + 1 < |states| && Synced(states[k]) && |states[k].blocks| == |d|
    requires SameHome(a, d, states[k].blocks) && Beneath(a, states[k].g)
    ensures EpisodeOk(a, |d|, es[k]) && |states[k + 1].blocks| == |d|
    ensures SameHome(a, IdealStep(a, d, es[k]),
                     if es[k].writes < CommitPoint(es[k].hs) then states[k].blocks else states[k + 1].blocks)
  {
    hide Shaped, SyncedAt, OnlyLogged;
    var f := states[k];
    OneTransaction(a, d, f, states[k + 1], SetOf(es[k].hs), es[k].hs);
    SizeOf(es[k].hs);
  }

  // The disk after the episodes holds the state after the last transaction
  // that reached its commit point.
  lemma {:induction false} StatesReached(a: Area, d: Disk, states: seq<Fs>, es: seq<Episode>)
    requires |states| == |es| + 1 && (forall k: nat :: k < |states| ==> Synced(states[k]))
    requires Empty(a, d) && SameHome(a, d, states[0].blocks) && Beneath(a, states[0].g)
    requires forall k: nat :: StepOf(a, states, es, k)
    ensures EpisodesOk(a, |d|, es)
    ensures Empty(a, Run(a, d, es)) && SameHome(a, Run(a, d, es), states[Count(es)].blocks)
    decreases |es|
  {
    hide Synced, StepOf, IdealStep, RunEpisode, EpisodeOk;
    if es != [] {
      assert Synced(states[0]) && StepOf(a, states, es, 0);
      StepOk(a, d, states, es, 0);
      EpisodeStep(a, d, d, es[0]);
      StepLinked(a, states, es, 0);
      var d1 := RunEpisode(a, d, es[0]);
      if |es| == 1 {
        assert Run(a, d, es) == d1;
        assert SameHome(a, d1, states[Count(es)].blocks);
      } else {
        forall k: nat ensures StepOf(a, states[1..], es[1..], k) { ShiftStep(a, states, es, k); }
        StatesReached(a, d1, states[1..], es[1..]);
        assert Count(es) == Count(es[1..]) + 1;
        forall k | 0 <= k < |es| ensures EpisodeOk(a, |d|, es[k]) {
          assert k > 0 ==> EpisodeOk(a, |d|, es[1..][k - 1]);
        }
      }
    }
  }

  lemma ShiftStep(a: Area, states: seq<Fs>, es: seq<Episode>, k: nat)
    requires |states| == |es| + 1 && es != [] && StepOf(a, states, es, k + 1)
    ensures StepOf(a, states[1..], es[1..], k)
  {
  }

  lemma StepLinked(a: Area, states: seq<Fs>, es: seq<Episode>, k: nat)
    requires StepOf(a, states, es, k) && k < |es| && k + 1 < |states|
    ensures states[k + 1].g == states[k].g
    ensures k + 1 < |es| ==> es[k].writes >= CommitPoint(es[k].hs)
  {
  }

  // The k-th commit is that of the k-th transaction of a write.
  ghost predicate CommitOf(ops: seq<set<nat>>, ends: seq<Fs>, from: nat, es: seq<Episode>, k: nat)
  {
    k < |es| && from + k < |ops| == |ends| ==>
      && Lists(es[k].hs, ops[from + k])
      && (forall j :: 0 <= j < |es[k].hs| ==> es[k].hs[j] < |ends[from + k].blocks|)
      && es[k].data == Gather(es[k].hs, ends[from + k].blocks)
      && (k + 1 < |es| ==> es[k].writes >= 2 * |es[k].hs| + 2)
  }

  // What filewrite has made of file i when m bytes of src are in it, as far as
  // a reader can tell.
  ghost predicate Reads(f: Fs, f': Fs, i: nat, off: nat, src: seq<byte>, m: nat)
    requires Rest(f) && i < |f.inodes| && m <= |src|
  {
    && Shaped(f') && |f'.inodes| == |f.inodes| && FileOk(f, i)
    && (forall k: nat :: k < |f.inodes| ==> f'.inodes[k].size <= MAXBYTES && FileOk(f, k))
    && (0 < m ==> off <= f.inodes[i].size)
    && Content(f', i) == (if m == 0 then Content(f, i) else Overwritten(Content(f, i), off, src[..m]))
    && forall k: nat :: k < |f.inodes| && k != i ==> Content(f', k) == Content(f, k)
  }

  // filewrite runs and the machine goes down: between two transactions, or
  // after any number of the block writes of a commit, and any number of times
  // in the recovery. Then file i, read from the disk, has been overwritten with
  // the chunks whose commits had written their header, and with nothing else;
  // every other file is what it was.
  lemma FilewriteCrash(a: Area, d: Disk, f: Fs, i: nat, off: nat, src: seq<byte>, n: int, ops: seq<set<nat>>,
      ends: seq<Fs>, from: nat, es: seq<Episode>)
    requires Rest(f) && Synced(f) && i < |f.inodes| && n <= |src| && Trail(f, i, off, src, n, ops, ends, from)
    requires Empty(a, d) && SameHome(a, d, f.blocks) && Beneath(a, f.g) && 7 < a.size
    requires |es| <= |ops| - from && forall k: nat :: CommitOf(ops, ends, from, es, k)
    ensures EpisodesOk(a, |d|, es) && InodeBlock(f.g, |f.inodes| - 1) < |d|
    ensures Reads(f, Mounted(f.g, Run(a, d, es), |f.inodes|), i, off, src, Upto(n, Count(es)))
  {
    hide Rest, Synced, StepOf, CommitOf, Linked, Progress, Content, Reads, Upto, SameHome, TrailAt, States, Before;
    var states, c := States(f, ends, from, |es|), Count(es);
    forall k: nat ensures k < |states| ==> Synced(states[k]) && StepOf(a, states, es, k) {
      if k <= |es| { StateOk(a, f, i, off, src, n, ops, ends, from, es, k); }
    }
    forall k: nat ensures StepOf(a, states, es, k) { if k >= |states| { NoStep(a, states, es, k); } }
    StatesAt(f, ends, from, |es|, 0);
    StatesReached(a, d, states, es);
    StateProgress(f, i, off, src, n, ops, ends, from, c);
    StatesAt(f, ends, from, |es|, c);
    StateReads(a, f, states[c], Run(a, d, es), i, off, src, n, c);
  }

  // The states a write goes through, up to the end of its c-th transaction.
  function States(f: Fs, ends: seq<Fs>, from: nat, c: nat): (r: seq<Fs>)
    requires from + c <= |ends|
    ensures |r| == c + 1
  {
    [f] + ends[from..from + c]
  }

  lemma StatesAt(f: Fs, ends: seq<Fs>, from: nat, c: nat, k: nat)
    requires k <= c && from + c <= |ends|
    ensures States(f, ends, from, c)[k] == Before(f, ends, from, from + k)
    ensures k == 0 ==> Before(f, ends, from, from + k) == f
    ensures 0 < k ==> Before(f, ends, from, from + k) == ends[from + k - 1]
  {
  }

  lemma NoStep(a: Area, states: seq<Fs>, es: seq<Episode>, k: nat)
    requires k >= |states|
    ensures StepOf(a, states, es, k)
  {
  }

  lemma StateOk(a: Area, f: Fs, i: nat, off: nat, src: seq<byte>, n: int, ops: seq<set<nat>>, ends: seq<Fs>,
      from: nat, es: seq<Episode>, k: nat)
    requires Rest(f) && Synced(f) && i < |f.inodes| && n <= |src| && Trail(f, i, off, src, n, ops, ends, from)
    requires k <= |es| <= |ops| - from && CommitOf(ops, ends, from, es, k) && 7 < a.size
    ensures Synced(States(f, ends, from, |es|)[k]) && StepOf(a, States(f, ends, from, |es|), es, k)
  {
    hide Rest, Synced, Linked, Grouped, Progress, States, Upto;
    StatesAt(f, ends, from, |es|, k);
    if k > 0 {
      assert TrailAt(f, i, off, src, n, ops, ends, from, from + k - 1);
      LinkedSynced(Before(f, ends, from, from + k - 1), ends[from + k - 1], ops[from + k - 1]);
    }
    if k < |es| {
      assert TrailAt(f, i, off, src, n, ops, ends, from, from + k);
      LinkedGroup(Before(f, ends, from, from + k), ends[from + k], ops[from + k]);
      SizeOf(es[k].hs);
      StatesAt(f, ends, from, |es|, k + 1);
    }
  }

  lemma StateProgress(f: Fs, i: nat, off: nat, src: seq<byte>, n: int, ops: seq<set<nat>>, ends: seq<Fs>, from: nat,
      c: nat)
    requires Rest(f) && i < |f.inodes| && n <= |src| && Trail(f, i, off, src, n, ops, ends, from) && from + c <= |ops|
    ensures c > 0 ==> Progress(f, Before(f, ends, from, from + c), i, off, src, n, Upto(n, c))
  {
    hide Rest, Linked, Progress, Upto;
    if c > 0 { assert TrailAt(f, i, off, src, n, ops, ends, from, from + c - 1); }
  }

  lemma LinkedGroup(f: Fs, f': Fs, l: set<nat>)
    requires Linked(f, f', l)
    ensures Grouped(f, f', l) && |l| <= 7
  {
  }

  lemma StateReads(a: Area, f: Fs, f1: Fs, d: Disk, i: nat, off: nat, src: seq<byte>, n: int, c: nat)
    requires Rest(f) && i < |f.inodes| && n <= |src| && Synced(f1) && SameHome(a, d, f1.blocks) && Beneath(a, f.g)
    requires if c == 0 then f1 == f else Progress(f, f1, i, off, src, n, Upto(n, c))
    ensures InodeBlock(f.g, |f.inodes| - 1) < |d| && Upto(n, c) <= |src|
    ensures Reads(f, Mounted(f.g, d, |f.inodes|), i, off, src, Upto(n, c))
  {
    hide At, Byte, SlotOk, OwnerOk, BitOk, PendingOk, Slice, SameHome, Synced, Mounted, Overwritten, FileOk, Inv;
    var m := Upto(n, c);
    RestShaped(f);
    RestShaped(f1);
    assert Rest(f1) && f1.g == f.g && |f1.inodes| == |f.inodes|;
    MountedContent(a, f1, d, i);
    var f' := Mounted(f.g, d, |f.inodes|);
    forall k: nat | k < |f.inodes|
      ensures FileOk(f, k) && f'.inodes[k].size <= MAXBYTES
      ensures k != i ==> f.inodes[k].size <= MAXBYTES && Content(f', k) == Content(f, k)
    {
      MountedContent(a, f1, d, k);
      FileSizes(f, k);
      if k != i { OtherContent(f, f1, i, off, src[..m], k, m == 0); }
    }
    if m > 0 { assert WrittenTo(f, f1, i, off, src[..m]); }
  }

  lemma OtherContent(f: Fs, f1: Fs, i: nat, off: nat, data: seq<byte>, k: nat, same: bool)
    requires Rest(f) && Rest(f1) && i < |f.inodes| && k < |f.inodes| && k != i
    requires if same then f1 == f else WrittenTo(f, f1, i, off, data)
    ensures |f1.inodes| == |f.inodes| && f.inodes[k].size <= MAXBYTES && f1.inodes[k].size <= MAXBYTES
    ensures Content(f1, k) == Content(f, k)
  {
    hide At, Byte, SlotOk, OwnerOk, BitOk, PendingOk;
    assert FileOk(f, k);
    if !same { SliceKept(f, f1, k, 0, f.inodes[k].size); }
  }
}
