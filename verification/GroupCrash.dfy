/** Crashes with several writers. */
module GroupCrash {
  // Several writers of different files, whose transactions share commits. Each
  // is a filewrite: its transactions follow one another, those of different
  // writers come in any order. The log commits them in groups, and the
  // machine goes down as in FileCrash. A transaction is one step here: what two
  // calls of writei inside begin_op and end_op do to the free map is in the
  // order of the steps.

  import opened Blocks
  import opened BlockMap
  import opened FileContent
  import opened FileSteps
  import opened InodeBlocks
  import opened Params
  import opened RedoLog
  import opened FileCrash
  import opened Files

  /** filewrite of n bytes of src at off of file i. */
  datatype Writer = Writer(i: nat, off: nat, src: seq<byte>, n: int)

  /** The writers, who makes the k-th transaction, the states between them, and
      the blocks each of them logs. */
  datatype History = History(ws: seq<Writer>, who: seq<nat>, states: seq<Fs>, logs: seq<set<nat>>)

  predicate Shape(h: History)
  {
    && |h.states| == |h.who| + 1 && |h.logs| == |h.who|
    && (forall k :: 0 <= k < |h.who| ==> h.who[k] < |h.ws|)
    && (forall s :: 0 <= s < |h.ws| ==> h.ws[s].i < |h.states[0].inodes| && h.ws[s].n <= |h.ws[s].src|)
    && forall s, t :: 0 <= s < t < |h.ws| ==> h.ws[s].i != h.ws[t].i
  }

  // How many of the first k transactions are those of writer s.
  function Chunks(who: seq<nat>, s: nat, k: nat): (c: nat)
    requires k <= |who|
    ensures c <= k
  {
    if k == 0 then 0 else Chunks(who, s, k - 1) + if who[k - 1] == s then 1 else 0
  }

  // Writer w puts its c-th chunk into its file.
  ghost predicate Turn(f: Fs, f': Fs, w: Writer, c: nat, l: set<nat>)
    requires w.n <= |w.src|
  {
    && Rest(f) && w.i < |f.inodes| && Linked(f, f', l)
    && Upto(w.n, c) < Upto(w.n, c + 1)
    && WrittenTo(f, f', w.i, w.off + Upto(w.n, c), w.src[Upto(w.n, c)..Upto(w.n, c + 1)])
  }

  ghost predicate TurnAt(h: History, k: nat)
    requires Shape(h)
  {
    k < |h.who| ==> Turn(h.states[k], h.states[k + 1], h.ws[h.who[k]], Chunks(h.who, h.who[k], k), h.logs[k])
  }

  ghost predicate Interleaved(h: History)
  {
    Shape(h) && Rest(h.states[0]) && Synced(h.states[0]) && forall k: nat :: TurnAt(h, k)
  }

  // A turn is what filewrite's loop makes of its c-th chunk, whatever the other
  // writers have done to the file system before.
  method TakeTurn(fs: FileSystem, w: Writer, c: nat) returns (r: IoResult)
    requires Rest(fs.State()) && Synced(fs.State()) && w.i < |fs.inodes| && fs.g.size <= BPB
    requires w.n <= |w.src| && Upto(w.n, c) < Upto(w.n, c + 1) && w.off + w.n < 0x1_0000_0000
    modifies fs`blocks, fs`inodes, fs`owner, fs`pending, fs`logged, fs`ops, fs`ends
    ensures r.Panic? ==> Shaped(fs.State()) && Full(fs.State())
    ensures r.Count? ==> Turn(old(fs.State()), fs.State(), w, c, fs.logged)
    ensures r.Error? || r.Device? ==> fs.State() == old(fs.State())
  {
    hide Rest, Synced, WrittenTo, Linked, Full;
    r := fs.Transaction(w.i, w.off + Upto(w.n, c), w.src[Upto(w.n, c)..Upto(w.n, c + 1)]);
  }

  // ---- what a state holds ----

  lemma {:induction false} StateRests(h: History, k: nat)
    requires Interleaved(h) && k <= |h.who|
    ensures Rest(h.states[k]) && Synced(h.states[k]) && h.states[k].g == h.states[0].g
    ensures |h.states[k].inodes| == |h.states[0].inodes|
  {
    hide Rest, Synced;
    if k > 0 {
      assert TurnAt(h, k - 1);
      StateRests(h, k - 1);
      TurnRests(h.states[k - 1], h.states[k], h.ws[h.who[k - 1]], Chunks(h.who, h.who[k - 1], k - 1), h.logs[k - 1]);
    }
  }

  lemma TurnRests(f: Fs, f': Fs, w: Writer, c: nat, l: set<nat>)
    requires w.n <= |w.src| && Turn(f, f', w, c, l)
    ensures Rest(f') && Synced(f') && f'.g == f.g && |f'.inodes| == |f.inodes| && Grouped(f, f', l)
  {
    hide Rest, Synced, OnlyLogged;
  }

  // File j has been overwritten with the first m bytes of src.
  ghost predicate Holds(f: Fs, f': Fs, j: nat, off: nat, src: seq<byte>, m: nat)
  {
    && Shaped(f) && Shaped(f') && j < |f.inodes| == |f'.inodes| && m <= |src|
    && f.inodes[j].size <= MAXBYTES && f'.inodes[j].size <= MAXBYTES
    && (0 < m ==> off <= f.inodes[j].size)
    && Content(f', j) == if m == 0 then Content(f, j) else Overwritten(Content(f, j), off, src[..m])
  }

  lemma Joined(c: seq<byte>, off: nat, src: seq<byte>, m: nat, n: nat)
    requires m < n <= |src| && (0 < m ==> off <= |c|)
    requires off + m <= |if m == 0 then c else Overwritten(c, off, src[..m])|
    ensures off <= |c|
    ensures Overwritten(if m == 0 then c else Overwritten(c, off, src[..m]), off + m, src[m..n])
            == Overwritten(c, off, src[..n])
  {
    assert src[..m] + src[m..n] == src[..n];
    if 0 < m { OverwrittenTwice(c, off, src[..m], src[m..n]); }
  }

  // A writer's own turn takes its file one chunk further.
  lemma OwnTurn(f0: Fs, f: Fs, f': Fs, w: Writer, c: nat, l: set<nat>)
    requires w.n <= |w.src| && Holds(f0, f, w.i, w.off, w.src, Upto(w.n, c)) && Turn(f, f', w, c, l)
    ensures Holds(f0, f', w.i, w.off, w.src, Upto(w.n, c + 1))
  {
    hide Slice, Overwritten, At, Byte, SlotOk, OwnerOk, BitOk, PendingOk, OnlyLogged, Synced, SameBytes, Upto;
    var m, n := Upto(w.n, c), Upto(w.n, c + 1);
    assert n <= |w.src| by { UptoFits(w.n, c + 1, |w.src|); }
    RestShaped(f);
    RestShaped(f');
    FileSizes(f', w.i);
    assert |Content(f, w.i)| == f.inodes[w.i].size && |Content(f0, w.i)| == f0.inodes[w.i].size;
    Joined(Content(f0, w.i), w.off, w.src, m, n);
  }

  lemma UptoFits(n: int, c: nat, max: nat)
    requires n <= max
    ensures Upto(n, c) <= max
  {
  }

  // Anybody's turn leaves the other files alone.
  lemma OthersTurn(f0: Fs, f: Fs, f': Fs, w: Writer, c: nat, l: set<nat>, j: nat, off: nat, src: seq<byte>, m: nat)
    requires w.n <= |w.src| && Holds(f0, f, j, off, src, m) && Turn(f, f', w, c, l) && j != w.i
    ensures Holds(f0, f', j, off, src, m)
  {
    UptoFits(w.n, c, |w.src|);
    UptoFits(w.n, c + 1, |w.src|);
    hide Slice, Overwritten, At, Byte, Inv, OnlyLogged, Synced, SameBytes, Upto, Content, Shaped, FileOk, WrittenTo;
    RestShaped(f);
    TurnRests(f, f', w, c, l);
    RestShaped(f');
    OtherContent(f, f', w.i, w.off + Upto(w.n, c), w.src[Upto(w.n, c)..Upto(w.n, c + 1)], j, false);
  }

  lemma HoldsNothing(f: Fs, j: nat, off: nat, src: seq<byte>)
    requires Rest(f) && j < |f.inodes|
    ensures Holds(f, f, j, off, src, 0)
  {
    assert FileOk(f, j);
  }

  // Every file of a writer holds as much as its transactions have written.
  lemma {:induction false} WriterHolds(h: History, s: nat, k: nat)
    requires Interleaved(h) && s < |h.ws| && k <= |h.who|
    ensures var w := h.ws[s];
      Holds(h.states[0], h.states[k], w.i, w.off, w.src, Upto(w.n, Chunks(h.who, s, k)))
  {
    hide Holds, Rest, Synced, Turn, Upto;
    var w := h.ws[s];
    if k == 0 {
      HoldsNothing(h.states[0], w.i, w.off, w.src);
      assert Upto(w.n, 0) == 0 by { UptoNone(w.n); }
    } else {
      WriterHolds(h, s, k - 1);
      assert TurnAt(h, k - 1);
      var t := h.who[k - 1];
      if t == s {
        OwnTurn(h.states[0], h.states[k - 1], h.states[k], w, Chunks(h.who, s, k - 1), h.logs[k - 1]);
      } else {
        OthersTurn(h.states[0], h.states[k - 1], h.states[k], h.ws[t], Chunks(h.who, t, k - 1), h.logs[k - 1], w.i,
            w.off, w.src, Upto(w.n, Chunks(h.who, s, k - 1)));
      }
    }
  }

  lemma UptoNone(n: int)
    ensures Upto(n, 0) == 0
  {
  }

  // Every other file holds what it held.
  lemma {:induction false} OthersHold(h: History, j: nat, k: nat)
    requires Interleaved(h) && j < |h.states[0].inodes| && k <= |h.who|
    requires forall s :: 0 <= s < |h.ws| ==> h.ws[s].i != j
    ensures Holds(h.states[0], h.states[k], j, 0, [], 0)
  {
    hide Holds, Rest, Synced, Turn, Upto;
    if k == 0 {
      HoldsNothing(h.states[0], j, 0, []);
    } else {
      OthersHold(h, j, k - 1);
      assert TurnAt(h, k - 1);
      var t := h.who[k - 1];
      OthersTurn(h.states[0], h.states[k - 1], h.states[k], h.ws[t], Chunks(h.who, t, k - 1), h.logs[k - 1], j, 0, [],
          0);
    }
  }

  // ---- groups ----

  // The blocks that the transactions lo .. hi - 1 have logged.
  function United(logs: seq<set<nat>>, lo: nat, hi: nat): set<nat>
    requires lo <= hi <= |logs|
    decreases hi - lo
  {
    if lo == hi then {} else United(logs, lo, hi - 1) + logs[hi - 1]
  }

  lemma {:induction false} GroupOf(h: History, lo: nat, hi: nat)
    requires Interleaved(h) && lo < hi <= |h.who|
    ensures Grouped(h.states[lo], h.states[hi], United(h.logs, lo, hi))
    decreases hi - lo
  {
    hide Rest, Synced, Grouped, Turn;
    var k := hi - 1;
    assert TurnAt(h, k);
    TurnRests(h.states[k], h.states[hi], h.ws[h.who[k]], Chunks(h.who, h.who[k], k), h.logs[k]);
    if lo == k {
      assert United(h.logs, lo, hi) == h.logs[k] by { assert United(h.logs, lo, k) == {}; }
    } else {
      GroupOf(h, lo, k);
      GroupTrans(h.states[lo], h.states[k], h.states[hi], United(h.logs, lo, k), h.logs[k]);
    }
  }

  lemma GroupTrans(f: Fs, f1: Fs, f2: Fs, l1: set<nat>, l2: set<nat>)
    requires Grouped(f, f1, l1) && Grouped(f1, f2, l2)
    ensures Grouped(f, f2, l1 + l2)
  {
    hide Synced;
  }

  // The g-th commit is that of the transactions cuts[g] .. cuts[g + 1] - 1: the
  // blocks they logged, each once, as the last of them left them.
  ghost predicate GroupAt(a: Area, h: History, cuts: seq<nat>, es: seq<Episode>, g: nat)
    requires Shape(h)
  {
    g < |es| && g + 1 < |cuts| ==>
      && cuts[g] < cuts[g + 1] <= |h.who|
      && Lists(es[g].hs, United(h.logs, cuts[g], cuts[g + 1])) && |es[g].hs| <= LOGSIZE && |es[g].hs| < a.size
      && (forall j :: 0 <= j < |es[g].hs| ==> es[g].hs[j] < |h.states[cuts[g + 1]].blocks|)
      && es[g].data == Gather(es[g].hs, h.states[cuts[g + 1]].blocks)
      && (g + 1 < |es| ==> es[g].writes >= 2 * |es[g].hs| + 2)
  }

  ghost predicate Groups(a: Area, h: History, cuts: seq<nat>, es: seq<Episode>)
    requires Shape(h)
  {
    && |cuts| == |es| + 1 && cuts[0] == 0 && (forall g :: 0 <= g < |cuts| ==> cuts[g] <= |h.who|)
    && forall g: nat :: GroupAt(a, h, cuts, es, g)
  }

  // The states in which commits are made.
  function CutStates(h: History, cuts: seq<nat>): (r: seq<Fs>)
    requires |h.states| == |h.who| + 1 && forall g :: 0 <= g < |cuts| ==> cuts[g] <= |h.who|
    ensures |r| == |cuts| && forall g :: 0 <= g < |cuts| ==> r[g] == h.states[cuts[g]]
  {
    seq(|cuts|, g requires 0 <= g < |cuts| => h.states[cuts[g]])
  }

  lemma GroupStep(a: Area, h: History, cuts: seq<nat>, es: seq<Episode>, g: nat)
    requires Interleaved(h) && Groups(a, h, cuts, es)
    ensures StepOf(a, CutStates(h, cuts), es, g)
  {
    hide Rest, Synced, Grouped, TurnAt;
    assert GroupAt(a, h, cuts, es, g);
    if g < |es| { GroupOf(h, cuts[g], cuts[g + 1]); }
  }

  // ---- the crash ----

  // What a reader finds after the boot.
  ghost predicate Survived(h: History, f': Fs, k: nat)
    requires Shape(h) && k <= |h.who|
  {
    && (forall s: nat :: s < |h.ws| ==> WriterSurvived(h, f', k, s))
    && forall j: nat :: j < |h.states[0].inodes| && (forall s :: 0 <= s < |h.ws| ==> h.ws[s].i != j) ==>
         Holds(h.states[0], f', j, 0, [], 0)
  }

  ghost predicate WriterSurvived(h: History, f': Fs, k: nat, s: nat)
    requires Shape(h) && k <= |h.who| && s < |h.ws|
  {
    Holds(h.states[0], f', h.ws[s].i, h.ws[s].off, h.ws[s].src, Upto(h.ws[s].n, Chunks(h.who, s, k)))
  }

  // Writers of different files interleave their transactions, these share
  // commits, and the machine goes down at any block write and in any recovery.
  // After the boot all the files are those of one moment: each writer's file
  // holds the chunks it had written by the last commit whose header was on the
  // disk, and no other file has changed.
  lemma WritersCrash(a: Area, d: Disk, h: History, cuts: seq<nat>, es: seq<Episode>)
    requires Interleaved(h) && 0 < |h.states[0].inodes| && Groups(a, h, cuts, es)
    requires Empty(a, d) && SameHome(a, d, h.states[0].blocks) && Beneath(a, h.states[0].g)
    ensures EpisodesOk(a, |d|, es)
    ensures var n, g := |h.states[0].inodes|, h.states[0].g;
      InodeBlock(g, n - 1) < |d| && Survived(h, Mounted(g, Run(a, d, es), n), cuts[FileCrash.Count(es)])
  {
    hide Rest, Synced, StepOf, GroupAt, TurnAt, SameHome, Survived, Mounted;
    var states := CutStates(h, cuts);
    forall g: nat ensures StepOf(a, states, es, g) { GroupStep(a, h, cuts, es, g); }
    forall g: nat | g < |states| ensures Synced(states[g]) { StateRests(h, cuts[g]); }
    StatesReached(a, d, states, es);
    Booted(a, Run(a, d, es), h, cuts[FileCrash.Count(es)]);
  }

  lemma Booted(a: Area, d: Disk, h: History, k: nat)
    requires Interleaved(h) && k <= |h.who| && 0 < |h.states[0].inodes|
    requires SameHome(a, d, h.states[k].blocks) && Beneath(a, h.states[0].g)
    ensures InodeBlock(h.states[0].g, |h.states[0].inodes| - 1) < |d|
    ensures Survived(h, Mounted(h.states[0].g, d, |h.states[0].inodes|), k)
  {
    hide Rest, Synced, TurnAt, SameHome, Holds, Mounted;
    StateRests(h, k);
    MountedContent(a, h.states[k], d, 0);
    var f' := Mounted(h.states[0].g, d, |h.states[0].inodes|);
    forall s: nat | s < |h.ws| ensures WriterSurvived(h, f', k, s) {
      var w := h.ws[s];
      WriterHolds(h, s, k);
      HoldsMounted(a, h.states[0], h.states[k], d, w.i, w.off, w.src, Upto(w.n, Chunks(h.who, s, k)));
    }
    forall j: nat | j < |h.states[0].inodes| && (forall s :: 0 <= s < |h.ws| ==> h.ws[s].i != j)
      ensures Holds(h.states[0], f', j, 0, [], 0)
    {
      OthersHold(h, j, k);
      HoldsMounted(a, h.states[0], h.states[k], d, j, 0, [], 0);
    }
  }

  lemma HoldsMounted(a: Area, f0: Fs, f: Fs, d: Disk, j: nat, off: nat, src: seq<byte>, m: nat)
    requires Holds(f0, f, j, off, src, m) && Rest(f) && Synced(f) && SameHome(a, d, f.blocks) && Beneath(a, f.g)
    ensures InodeBlock(f.g, |f.inodes| - 1) < |d| && Holds(f0, Mounted(f.g, d, |f.inodes|), j, off, src, m)
  {
    hide Content, Rest, Synced, SameHome, Overwritten, Mounted, Shaped;
    MountedContent(a, f, d, j);
  }
}
