/** Sleep locks: any number of processes acquiring and releasing one of them,
    every step of acquiresleep, releasesleep, sleep and wakeup interleaved. */
module SleepLock {
  import opened Options
  import opened Monitor

  /** The channel is the lock's own address. */
  datatype Chan = Lock

  /** The fields under lk->lk. Process i has pid i + 1. */
  datatype Fields = Fields(locked: bool, pid: nat)

  // acquiresleep sleeps exactly while locked is set.
  function Waits(d: Fields): set<Chan> { if d.locked then {Lock} else {} }

  /** How far a process is in the code of the lock. */
  datatype Pc =
    | Away        // has nothing to do with the lock
    | Acquiring   // in acquiresleep's loop
    | Acquired    // locked is set, lk->lk not yet released
    | Holding     // acquiresleep has returned
    | Releasing   // in releasesleep, locked still set
    | Cleared     // locked is clear, wakeup not yet called
    | Woken       // in wakeup, or back from it

  datatype Sys = Sys(m: Mon<Chan>, d: Fields, pcs: seq<Pc>)

  predicate Owns(pc: Pc) { pc.Acquired? || pc.Holding? || pc.Releasing? }

  function Start(n: nat): Sys
  {
    Sys(Mon(None, None, {}, Fill(n, Out), {}, {}), Fields(false, 0), Fill(n, Away))
  }

  // The steps of process i.
  ghost predicate Step(s: Sys, s': Sys, i: nat)
  {
    && i < |s.pcs| && |s.pcs| == |s.m.ps|
    && s'.pcs == s.pcs[i := if i < |s'.pcs| then s'.pcs[i] else s.pcs[i]]
    && (s'.d == s.d || (s.m.ps[i].In? && (s.pcs[i].Acquiring? || s.pcs[i].Releasing?)))
    && var pc, pc', p := s.pcs[i], s'.pcs[i], s.m.ps[i];
       // acquiresleep is called; lk->lk is sought
       || (pc.Away? && pc'.Acquiring? && p.Out? && Plain(s.m, s'.m, i, Want))
       // while (lk->locked) sleep(lk, &lk->lk)
       || (pc.Acquiring? && pc' == pc && p.In? && s'.d == s.d && s.d.locked && Sleep(s.m, s'.m, i, Lock))
       // lk->locked = 1; lk->pid = myproc()->pid
       || (pc.Acquiring? && pc'.Acquired? && p.In? && !s.d.locked && Store(s, s', i, Fields(true, i + 1)))
       || (pc.Acquired? && pc'.Holding? && Leave(s.m, s'.m, i))
       // releasesleep is called
       || (pc.Holding? && pc'.Releasing? && p.Out? && Plain(s.m, s'.m, i, Want))
       // lk->locked = 0; lk->pid = 0
       || (pc.Releasing? && pc'.Cleared? && p.In? && Store(s, s', i, Fields(false, 0)))
       || (pc.Cleared? && pc'.Woken? && p.In? && Plain(s.m, s'.m, i, Waking(Lock)))
       || (pc.Woken? && pc' == pc && Wake(s.m, s'.m, i))
       || (pc.Woken? && pc'.Away? && p.In? && Leave(s.m, s'.m, i))
       // inside sleep and wakeup, and while a lock is sought
       || (pc' == pc && !p.Out? && !p.In? && exists q :: Plain(s.m, s'.m, i, q))
       || (pc' == pc && Kill(s.m, s'.m, i))
  }

  // An assignment under the lock, and the wakeup it makes due.
  ghost predicate Store(s: Sys, s': Sys, i: nat, d: Fields)
  {
    && Work(s.m, s'.m, i) && s'.d == d && s'.m.waits == Waits(d)
    && s'.m.owed == s.m.owed + (Waits(s.d) - Waits(d))
  }

  predicate PcOk(s: Sys, i: nat)
    requires |s.pcs| == |s.m.ps|
  {
    i < |s.pcs| ==>
      var p := s.m.ps[i];
      match s.pcs[i]
      case Away => p.Out?
      case Holding => p.Out?
      case Acquiring => !p.Out? && !p.Waking? && !p.Scanning? && (p.In? ==> s.m.owed == {})
      case Acquired => p.In? && s.m.owed == {}
      case Releasing => (p.Want? || p.In?) && (p.In? ==> s.m.owed == {})
      case Cleared => p.In?
      case Woken => p.Waking? || p.Scanning? || (p.In? && s.m.owed == {})
  }

  // locked says whether there is an owner, pid says who, and there is no
  // second one.
  predicate OwnerOk(s: Sys, i: nat)
  {
    i < |s.pcs| ==> (Owns(s.pcs[i]) <==> s.d.locked && s.d.pid == i + 1)
  }

  ghost predicate SysInv(s: Sys)
  {
    && |s.pcs| == |s.m.ps| && Inv(s.m) && s.m.lost == {} && s.m.waits == Waits(s.d)
    && (s.d.locked ==> 0 < s.d.pid <= |s.pcs|) && (!s.d.locked ==> s.d.pid == 0)
    && (forall i: nat :: PcOk(s, i)) && (forall i: nat :: OwnerOk(s, i))
  }

  lemma StartInv(n: nat)
    ensures SysInv(Start(n))
  {
  }

  // A step of the lock's code is a step of a monitor.
  lemma StepNext(s: Sys, s': Sys, i: nat)
    requires Step(s, s', i)
    ensures Next(s.m, s'.m, i)
  {
  }

  lemma StepInv(s: Sys, s': Sys, i: nat)
    requires SysInv(s) && Step(s, s', i)
    ensures SysInv(s')
  {
    hide Inv;
    StepNext(s, s', i);
    NextInv(s.m, s'.m, i);
    assert PcOk(s, i) && OwnerOk(s, i);
    forall j: nat ensures PcOk(s', j) { PcKept(s, s', i, j); }
    forall j: nat ensures OwnerOk(s', j) { assert OwnerOk(s, j); }
  }

  lemma PcKept(s: Sys, s': Sys, i: nat, j: nat)
    requires SysInv(s) && Step(s, s', i) && |s'.pcs| == |s'.m.ps|
    ensures PcOk(s', j)
  {
    assert PcOk(s, i) && PcOk(s, j);
    assert PhaseOk(s.m, i) && PhaseOk(s.m, j);
    if Wake(s.m, s'.m, i) {
      assert s.m.ps[i].c == Lock && s'.m.owed == {} by { OneChannel(s.m.owed); }
    } else if j == i {
    } else {
    }
  }

  lemma OneChannel(a: set<Chan>)
    ensures a - {Lock} == {}
  {
    assert forall c: Chan :: c in a ==> c.Lock?;
  }

  ghost predicate SomeStep(s: Sys, s': Sys) { exists i :: Step(s, s', i) }

  /** A run: the states and who moved. */
  ghost predicate Run(run: seq<Sys>, n: nat)
  {
    && 0 < |run| && run[0] == Start(n)
    && forall k: nat, k': nat :: k' == k + 1 < |run| ==> SomeStep(run[k], run[k'])
  }

  lemma {:induction false} RunInv(run: seq<Sys>, n: nat, k: nat)
    requires Run(run, n) && k < |run|
    ensures SysInv(run[k])
  {
    if k == 0 {
      StartInv(n);
    } else {
      RunInv(run, n, k - 1);
      assert SomeStep(run[k - 1], run[k]);
      var i :| Step(run[k - 1], run[k], i);
      StepInv(run[k - 1], run[k], i);
    }
  }

  // Over every run: at most one process is between acquiresleep and
  // releasesleep; and whenever lk->lk is free, a process sleeping on the lock
  // finds it locked.
  lemma Safety(run: seq<Sys>, n: nat, k: nat, i: nat, j: nat)
    requires Run(run, n) && k < |run| && i < n && j < n
    ensures |run[k].pcs| == |run[k].m.ps| == n
    ensures Owns(run[k].pcs[i]) && Owns(run[k].pcs[j]) ==> i == j
    ensures run[k].m.lk == None && run[k].m.ps[i].Asleep? ==> run[k].d.locked
  {
    RunInv(run, n, k);
    RunLength(run, n, k);
    assert OwnerOk(run[k], i) && OwnerOk(run[k], j);
    if run[k].m.lk == None && run[k].m.ps[i].Asleep? { NoLostWakeup(run[k].m, i); }
  }

  lemma {:induction false} RunLength(run: seq<Sys>, n: nat, k: nat)
    requires Run(run, n) && k < |run|
    ensures |run[k].pcs| == n
  {
    if 0 < k {
      RunLength(run, n, k - 1);
      assert SomeStep(run[k - 1], run[k]);
      var i :| Step(run[k - 1], run[k], i);
    }
  }

  // A quiet moment: when every process is outside the lock's code or asleep
  // and nobody owns the lock, nobody is asleep.
  lemma NobodyStuck(run: seq<Sys>, n: nat, k: nat, i: nat)
    requires Run(run, n) && k < |run| && i < n && |run[k].pcs| == |run[k].m.ps| == n
    requires forall j: nat :: j < n ==> run[k].m.ps[j].Out? || run[k].m.ps[j].Asleep?
    requires forall j: nat :: j < n ==> !run[k].pcs[j].Holding?
    ensures !run[k].m.ps[i].Asleep?
  {
    var s := run[k];
    RunInv(run, n, k);
    var keeper := if s.m.lk.Some? then s.m.lk.value else 0;
    var owner: nat := if s.d.locked then s.d.pid - 1 else 0;
    assert PhaseOk(s.m, keeper) && OwnerOk(s, owner) && PcOk(s, owner);
    Safety(run, n, k, i, i);
  }

  // holdingsleep, asked by process i with lk->lk held, tells whether i is
  // between acquiresleep and releasesleep.
  lemma HoldingSleep(run: seq<Sys>, n: nat, k: nat, i: nat)
    requires Run(run, n) && k < |run| && i < n
    ensures |run[k].pcs| == n
    ensures (run[k].d.locked && run[k].d.pid == i + 1) <==> Owns(run[k].pcs[i])
  {
    RunInv(run, n, k);
    RunLength(run, n, k);
    assert OwnerOk(run[k], i);
  }

  // Over every run: acquiresleep returns only with the lock set for its caller,
  // and releasesleep only when its caller no longer owns it.
  lemma Stages(run: seq<Sys>, n: nat, k: nat, i: nat)
    requires Run(run, n) && k + 1 < |run| && i < n
    ensures |run[k].pcs| == |run[k + 1].pcs| == n
    ensures var pc, pc' := run[k].pcs[i], run[k + 1].pcs[i];
      && (pc.Away? ==> pc'.Away? || pc'.Acquiring?)
      && (pc.Acquiring? ==>
            pc'.Acquiring? || (pc'.Acquired? && !run[k].d.locked && run[k + 1].d.locked && run[k + 1].d.pid == i + 1))
      && (pc.Acquired? ==> pc'.Acquired? || pc'.Holding?) && (pc.Holding? ==> pc'.Holding? || pc'.Releasing?)
      && (pc.Releasing? ==> pc'.Releasing? || (pc'.Cleared? && !run[k + 1].d.locked))
      && (pc.Cleared? ==> pc'.Cleared? || pc'.Woken?) && (pc.Woken? ==> pc'.Woken? || pc'.Away?)
  {
    RunLength(run, n, k);
    RunLength(run, n, k + 1);
    assert SomeStep(run[k], run[k + 1]);
    var a :| Step(run[k], run[k + 1], a);
  }
}
