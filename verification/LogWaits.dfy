/** The log's own lock, with sleep and wakeup. */
module LogWaits {
  // Processes that begin, log, end and commit, every step of begin_op,
  // log_write, end_op, sleep and wakeup interleaved. The commit itself runs
  // with the lock released.

  import opened Options
  import opened Monitor
  import opened Params

  /** The channel is &log. */
  datatype Chan = Log

  /** log.lh.n, log.outstanding and log.committing. */
  datatype Fields = Fields(n: nat, outstanding: nat, committing: bool)

  datatype Pc =
    | Away         // in no transaction
    | Beginning    // in begin_op's loop
    | Begun        // counted, lock not yet released
    | Inside       // between begin_op and end_op
    | Adding       // in log_write
    | Added        // log_write is done, lock not yet released
    | Ending       // in end_op
    | LastOut      // committing is set, lock not yet released
    | NotLast      // others are left: wakes sleepers, then leaves
    | Committing   // in commit, without the lock
    | Committed    // back from commit, seeking the lock
    | Cleared      // committing is clear: wakes sleepers, then leaves
    | Woken        // in wakeup, or back from it

  datatype Sys = Sys(m: Mon<Chan>, d: Fields, pcs: seq<Pc>)

  // begin_op sleeps exactly while this holds.
  predicate NoRoom(d: Fields) { d.committing || d.n + (d.outstanding + 1) * MAXOPBLOCKS > LOGSIZE }

  function Waits(d: Fields): set<Chan> { if NoRoom(d) then {Log} else {} }

  // Counted in log.outstanding; and in charge of the commit.
  predicate InTx(pc: Pc) { pc.Begun? || pc.Inside? || pc.Adding? || pc.Added? || pc.Ending? }
  predicate InCommit(pc: Pc) { pc.LastOut? || pc.Committing? || pc.Committed? }

  ghost predicate Store(s: Sys, s': Sys, i: nat, d: Fields)
  {
    && Work(s.m, s'.m, i) && s'.d == d && s'.m.waits == Waits(d)
    && s'.m.owed == s.m.owed + (Waits(s.d) - Waits(d))
  }

  ghost predicate Turn(s: Sys, s': Sys, i: nat, pc: Pc)
  {
    i < |s.pcs| && |s.pcs| == |s.m.ps| && s'.pcs == s.pcs[i := pc]
  }

  // A function of the log is called, or the lock sought again.
  ghost predicate Call(s: Sys, s': Sys, i: nat)
  {
    && i < |s.pcs| && |s.pcs| == |s.m.ps| && s.m.ps[i].Out? && s'.d == s.d && Plain(s.m, s'.m, i, Want)
    && match s.pcs[i]
       case Away => Turn(s, s', i, Beginning)
       case Inside => Turn(s, s', i, Adding) || Turn(s, s', i, Ending)
       case Committing => false
       case Committed => Turn(s, s', i, Committed)
       case _ => false
  }

  // commit clears the list, without the lock.
  ghost predicate Commit(s: Sys, s': Sys, i: nat)
  {
    && i < |s.pcs| && |s.pcs| == |s.m.ps| && s.pcs[i].Committing? && s.m.ps[i].Out?
    && s'.d == s.d.(n := 0) && s'.m == s.m && Turn(s, s', i, Committed)
  }

  // With the lock held.
  ghost predicate Locked(s: Sys, s': Sys, i: nat)
  {
    && i < |s.pcs| && |s.pcs| == |s.m.ps| && s.m.ps[i].In?
    && match s.pcs[i]
       case Beginning =>
         if NoRoom(s.d) then Turn(s, s', i, Beginning) && s'.d == s.d && Monitor.Sleep(s.m, s'.m, i, Log)
         else Turn(s, s', i, Begun) && Store(s, s', i, s.d.(outstanding := s.d.outstanding + 1))
       case Begun => Turn(s, s', i, Inside) && s'.d == s.d && Leave(s.m, s'.m, i)
       // a block that is in the list already adds nothing
       case Adding => Turn(s, s', i, Added) && (Store(s, s', i, s.d.(n := s.d.n + 1)) || Store(s, s', i, s.d))
       case Added => Turn(s, s', i, Inside) && s'.d == s.d && Leave(s.m, s'.m, i)
       case Ending =>
         0 < s.d.outstanding &&
         if s.d.outstanding == 1
         then Turn(s, s', i, LastOut) && Store(s, s', i, s.d.(outstanding := 0, committing := true))
         else Turn(s, s', i, NotLast) && Store(s, s', i, s.d.(outstanding := s.d.outstanding - 1))
       case LastOut => Turn(s, s', i, Committing) && s'.d == s.d && Leave(s.m, s'.m, i)
       case NotLast => Turn(s, s', i, Woken) && s'.d == s.d && Plain(s.m, s'.m, i, Waking(Log))
       case Committed => Turn(s, s', i, Cleared) && Store(s, s', i, s.d.(committing := false))
       case Cleared => Turn(s, s', i, Woken) && s'.d == s.d && Plain(s.m, s'.m, i, Waking(Log))
       case Woken => Turn(s, s', i, Away) && s'.d == s.d && Leave(s.m, s'.m, i)
       case _ => false
  }

  // Inside sleep and wakeup, and while a lock is sought; and kill.
  ghost predicate Between(s: Sys, s': Sys, i: nat)
  {
    && i < |s.pcs| && |s.pcs| == |s.m.ps| && s'.d == s.d && s'.pcs == s.pcs
    && ((!s.m.ps[i].Out? && !s.m.ps[i].In? && exists q :: Plain(s.m, s'.m, i, q)) || Wake(s.m, s'.m, i)
        || Kill(s.m, s'.m, i))
  }

  ghost predicate Step(s: Sys, s': Sys, i: nat)
  {
    Call(s, s', i) || Commit(s, s', i) || Locked(s, s', i) || Between(s, s', i)
  }

  // ---- what every step keeps ----

  function Count(pcs: seq<Pc>): nat
  {
    if pcs == [] then 0 else (if InTx(pcs[0]) then 1 else 0) + Count(pcs[1..])
  }

  lemma {:induction false} CountSet(pcs: seq<Pc>, i: nat, pc: Pc)
    requires i < |pcs|
    ensures Count(pcs[i := pc]) == Count(pcs) - (if InTx(pcs[i]) then 1 else 0) + if InTx(pc) then 1 else 0
    ensures InTx(pcs[i]) ==> 0 < Count(pcs)
  {
    if i == 0 {
      assert pcs[0 := pc][1..] == pcs[1..];
    } else {
      assert pcs[i := pc][1..] == pcs[1..][i - 1 := pc];
      CountSet(pcs[1..], i - 1, pc);
    }
  }

  predicate PcOk(s: Sys, i: nat)
    requires |s.pcs| == |s.m.ps|
  {
    i < |s.pcs| ==>
      var p, owed := s.m.ps[i], s.m.owed;
      && (InCommit(s.pcs[i]) ==> s.d.committing) && (s.pcs[i].Committed? ==> s.d.n == 0)
      && match s.pcs[i]
         case Away => p.Out?
         case Inside => p.Out?
         case Committing => p.Out?
         case Beginning => !p.Out? && !p.Waking? && !p.Scanning? && (p.In? ==> owed == {})
         case Begun => p.In? && owed == {}
         case Adding => (p.Want? || p.In?) && (p.In? ==> owed == {})
         case Added => p.In? && owed == {}
         case Ending => (p.Want? || p.In?) && (p.In? ==> owed == {})
         case LastOut => p.In? && owed == {}
         case NotLast => p.In?
         case Committed => (p.Out? || p.Want? || p.In?) && (p.In? ==> owed == {})
         case Cleared => p.In?
         case Woken => p.Waking? || p.Scanning? || (p.In? && owed == {})
  }

  // One process at most is in charge of a commit.
  predicate OneCommit(s: Sys, i: nat, j: nat)
  {
    i < j < |s.pcs| ==> !(InCommit(s.pcs[i]) && InCommit(s.pcs[j]))
  }

  ghost predicate SysInv(s: Sys)
  {
    && |s.pcs| == |s.m.ps| && Inv(s.m) && s.m.lost == {} && s.m.waits == Waits(s.d)
    && s.d.outstanding == Count(s.pcs) && (s.d.committing ==> s.d.outstanding == 0)
    && (!s.d.committing && s.d.outstanding == 0 ==> s.d.n == 0)
    && (forall i: nat :: PcOk(s, i)) && (forall i: nat, j: nat :: OneCommit(s, i, j))
  }

  function Start(n: nat): Sys
  {
    Sys(Mon(None, None, {}, Fill(n, Out), {}, {}), Fields(0, 0, false), Fill(n, Away))
  }

  lemma {:induction false} NoneCounted(pcs: seq<Pc>)
    requires forall i :: 0 <= i < |pcs| ==> pcs[i].Away?
    ensures Count(pcs) == 0
  {
    if pcs != [] { NoneCounted(pcs[1..]); }
  }

  lemma StartInv(n: nat)
    ensures SysInv(Start(n))
  {
    NoneCounted(Fill(n, Away));
  }

  lemma OneChannel(a: set<Chan>)
    ensures a - {Log} == {}
  {
    assert forall c: Chan :: c in a ==> c.Log?;
  }

  // While i holds the lock, the others are where they were and may stay.
  lemma OtherPc(s: Sys, s': Sys, i: nat, j: nat)
    requires |s.pcs| == |s.m.ps| == |s'.pcs| == |s'.m.ps| && i < |s.pcs| && j < |s.pcs| && j != i
    requires Inv(s.m) && HoldsLk(s.m.ps[i]) && PcOk(s, j) && s'.pcs[j] == s.pcs[j] && s'.m.ps[j] == s.m.ps[j]
    requires InCommit(s.pcs[j]) ==> s'.d.committing && s'.d.n == s.d.n
    ensures PcOk(s', j)
  {
    assert PhaseOk(s.m, i) && PhaseOk(s.m, j);
  }

  lemma LockedInv(s: Sys, s': Sys, i: nat)
    requires SysInv(s) && Locked(s, s', i)
    ensures SysInv(s')
  {
    hide Count;
    assert PcOk(s, i) && PhaseOk(s.m, i);
    CountSet(s.pcs, i, s'.pcs[i]);
    LockedMon(s, s', i);
    forall j: nat ensures PcOk(s', j) {
      assert PcOk(s, j) && OneCommit(s, i, j) && OneCommit(s, j, i);
      if j != i && j < |s.pcs| { OtherPc(s, s', i, j); }
    }
    forall a: nat, b: nat ensures OneCommit(s', a, b) { assert OneCommit(s, a, b) && PcOk(s, a) && PcOk(s, b); }
  }

  lemma LockedMon(s: Sys, s': Sys, i: nat)
    requires SysInv(s) && Locked(s, s', i)
    ensures Inv(s'.m) && s'.m.lost == {} && |s'.m.ps| == |s.m.ps| && s'.m.waits == Waits(s'.d)
    ensures forall j: nat :: j < |s.m.ps| && j != i ==> s'.m.ps[j] == s.m.ps[j]
  {
    hide Count, Inv;
    assert PcOk(s, i);
    if Work(s.m, s'.m, i) {
      WorkInv(s.m, s'.m, i);
    } else if Leave(s.m, s'.m, i) {
      LeaveInv(s.m, s'.m, i);
    } else if Monitor.Sleep(s.m, s'.m, i, Log) {
      SleepInv(s.m, s'.m, i, Log);
    } else {
      MovedInv(s.m, s'.m, i, Waking(Log));
    }
  }

  lemma CallInv(s: Sys, s': Sys, i: nat)
    requires SysInv(s) && (Call(s, s', i) || Commit(s, s', i))
    ensures SysInv(s')
  {
    hide Count;
    assert PcOk(s, i) && PhaseOk(s.m, i);
    CountSet(s.pcs, i, s'.pcs[i]);
    if Call(s, s', i) { MovedInv(s.m, s'.m, i, Want); }
    forall j: nat ensures PcOk(s', j) { assert PcOk(s, j); }
    forall a: nat, b: nat ensures OneCommit(s', a, b) { assert OneCommit(s, a, b); }
  }

  lemma BetweenInv(s: Sys, s': Sys, i: nat)
    requires SysInv(s) && Between(s, s', i)
    ensures SysInv(s')
  {
    hide Count, PcOk;
    if Wake(s.m, s'.m, i) {
      WakeInv(s.m, s'.m, i);
    } else if Kill(s.m, s'.m, i) {
      KillInv(s.m, s'.m, i);
    } else {
      var q :| Plain(s.m, s'.m, i, q);
      MovedInv(s.m, s'.m, i, q);
    }
    forall j: nat ensures PcOk(s', j) { BetweenPc(s, s', i, j); }
    forall a: nat, b: nat ensures OneCommit(s', a, b) { assert OneCommit(s, a, b); }
  }

  lemma BetweenPc(s: Sys, s': Sys, i: nat, j: nat)
    requires SysInv(s) && Between(s, s', i) && |s'.m.ps| == |s.m.ps|
    ensures PcOk(s', j)
  {
    hide Count, Waits;
    assert PcOk(s, i) && PcOk(s, j) && PhaseOk(s.m, i) && PhaseOk(s.m, j);
    OneChannel(s.m.owed);
    if Wake(s.m, s'.m, i) {
      assert s.m.ps[i].c.Log?;
      if j == i { } else { }
    } else if Kill(s.m, s'.m, i) {
    } else if j == i {
    } else {
    }
  }

  lemma StepInv(s: Sys, s': Sys, i: nat)
    requires SysInv(s) && Step(s, s', i)
    ensures SysInv(s')
  {
    hide SysInv, Locked, Call, Commit, Between;
    if Locked(s, s', i) {
      LockedInv(s, s', i);
    } else if Between(s, s', i) {
      BetweenInv(s, s', i);
    } else {
      CallInv(s, s', i);
    }
  }

  ghost predicate SomeStep(s: Sys, s': Sys) { exists i :: Step(s, s', i) }

  ghost predicate Run(run: seq<Sys>, n: nat)
  {
    && 0 < |run| && run[0] == Start(n)
    && forall k: nat, k': nat :: k' == k + 1 < |run| ==> SomeStep(run[k], run[k'])
  }

  lemma {:induction false} RunInv(run: seq<Sys>, n: nat, k: nat)
    requires Run(run, n) && k < |run|
    ensures SysInv(run[k])
  {
    if k == 0 {
      StartInv(n);
    } else {
      RunInv(run, n, k - 1);
      assert SomeStep(run[k - 1], run[k]);
      var i :| Step(run[k - 1], run[k], i);
      StepInv(run[k - 1], run[k], i);
    }
  }

  // Over every run: with the lock free, a process sleeps in begin_op only
  // while a commit runs or the log has no room for another call; a commit
  // runs only when no call is counted, and as many are counted as there are.
  lemma Beginners(run: seq<Sys>, n: nat, k: nat, i: nat)
    requires Run(run, n) && k < |run| && i < |run[k].m.ps| && run[k].m.lk == None && run[k].m.ps[i].Asleep?
    ensures |run[k].pcs| == |run[k].m.ps| && run[k].pcs[i].Beginning?
    ensures run[k].d.committing || run[k].d.n + (run[k].d.outstanding + 1) * MAXOPBLOCKS > LOGSIZE
  {
    RunInv(run, n, k);
    NoLostWakeup(run[k].m, i);
    assert PcOk(run[k], i);
  }

  lemma NobodyInsideACommit(run: seq<Sys>, n: nat, k: nat, i: nat, j: nat)
    requires Run(run, n) && k < |run| && i < |run[k].pcs| && j < |run[k].pcs|
    ensures run[k].d.outstanding == Count(run[k].pcs)
    ensures InCommit(run[k].pcs[i]) ==> !InTx(run[k].pcs[j]) && (InCommit(run[k].pcs[j]) ==> j == i)
    ensures run[k].pcs[i].Ending? ==> !run[k].d.committing && 0 < run[k].d.outstanding
  {
    RunInv(run, n, k);
    assert PcOk(run[k], i) && OneCommit(run[k], i, j) && OneCommit(run[k], j, i);
    CountSet(run[k].pcs, j, Away);
    CountSet(run[k].pcs, i, Away);
  }

  // With no call counted and no commit running, the list is clear and nobody
  // is asleep.
  lemma NobodyStuck(run: seq<Sys>, n: nat, k: nat, i: nat)
    requires Run(run, n) && k < |run| && i < |run[k].m.ps| && run[k].m.lk == None
    requires !run[k].d.committing && run[k].d.outstanding == 0
    ensures run[k].d.n == 0 && !run[k].m.ps[i].Asleep?
  {
    RunInv(run, n, k);
    if run[k].m.ps[i].Asleep? { Beginners(run, n, k, i); }
  }

  // ---- the order of things ----

  // Where a process goes from pc; d is what it finds.
  predicate Leads(d: Fields, pc: Pc, pc': Pc)
  {
    match pc
    case Away => pc'.Beginning?
    case Beginning => pc'.Begun? && !d.committing && d.n + (d.outstanding + 1) * MAXOPBLOCKS <= LOGSIZE
    case Begun => pc'.Inside?
    case Inside => pc'.Adding? || pc'.Ending?
    case Adding => pc'.Added?
    case Added => pc'.Inside?
    case Ending => if d.outstanding == 1 then pc'.LastOut? else pc'.NotLast?
    case LastOut => pc'.Committing?
    case NotLast => pc'.Woken?
    case Committing => pc'.Committed?
    case Committed => pc'.Cleared?
    case Cleared => pc'.Woken?
    case Woken => pc'.Away?
  }

  lemma StepLeads(s: Sys, s': Sys, a: nat, i: nat)
    requires Step(s, s', a) && i < |s.pcs| && |s.pcs| == |s.m.ps|
    ensures |s'.pcs| == |s.pcs| && (s'.pcs[i] == s.pcs[i] || Leads(s.d, s.pcs[i], s'.pcs[i]))
  {
    hide Store, Plain, Leave, Monitor.Sleep, Wake, Kill;
    if Call(s, s', a) {
    } else if Commit(s, s', a) {
    } else if Between(s, s', a) {
    } else {
      LockedLeads(s, s', a);
      if a != i { assert s'.pcs[i] == s.pcs[i]; }
    }
  }

  lemma LockedLeads(s: Sys, s': Sys, a: nat)
    requires Locked(s, s', a)
    ensures a < |s.pcs| && (s'.pcs == s.pcs || s'.pcs == s.pcs[a := s'.pcs[a]])
    ensures |s'.pcs| == |s.pcs| && (s'.pcs[a] == s.pcs[a] || Leads(s.d, s.pcs[a], s'.pcs[a]))
  {
    hide Store, Plain, Leave, Monitor.Sleep;
  }

  // Over every run: the stages of a call follow one another; begin_op lets a
  // process in only when no commit runs and the log has room for its call, and
  // the call that ends as the last one commits.
  lemma Stages(run: seq<Sys>, n: nat, k: nat, i: nat)
    requires Run(run, n) && k + 1 < |run| && i < |run[k].pcs|
    ensures |run[k + 1].pcs| == |run[k].pcs|
    ensures var d, pc, pc' := run[k].d, run[k].pcs[i], run[k + 1].pcs[i];
      && (pc.Away? ==> pc'.Away? || pc'.Beginning?)
      && (pc.Beginning? ==>
            pc'.Beginning? || (pc'.Begun? && !d.committing && d.n + (d.outstanding + 1) * MAXOPBLOCKS <= LOGSIZE))
      && (pc.Begun? ==> pc'.Begun? || pc'.Inside?)
      && (pc.Inside? ==> pc'.Inside? || pc'.Adding? || pc'.Ending?)
      && (pc.Adding? ==> pc'.Adding? || pc'.Added?) && (pc.Added? ==> pc'.Added? || pc'.Inside?)
      && (pc.Ending? ==> pc'.Ending? || if d.outstanding == 1 then pc'.LastOut? else pc'.NotLast?)
      && (pc.LastOut? ==> pc'.LastOut? || pc'.Committing?)
      && (pc.Committing? ==> pc'.Committing? || pc'.Committed?)
      && (pc.Committed? ==> pc'.Committed? || pc'.Cleared?)
      && (pc.NotLast? || pc.Cleared? ==> pc' == pc || pc'.Woken?) && (pc.Woken? ==> pc'.Woken? || pc'.Away?)
  {
    hide SysInv, Step;
    var a := StepOf(run, n, k);
    StepLeads(run[k], run[k + 1], a, i);
  }

  lemma StepOf(run: seq<Sys>, n: nat, k: nat) returns (a: nat)
    requires Run(run, n) && k + 1 < |run|
    ensures Step(run[k], run[k + 1], a) && |run[k].pcs| == |run[k].m.ps|
  {
    RunInv(run, n, k);
    assert SomeStep(run[k], run[k + 1]);
    a :| Step(run[k], run[k + 1], a);
  }

  // Over every run: no more calls are counted than the log has room for.
  lemma {:induction false} CountedFit(run: seq<Sys>, n: nat, k: nat)
    requires Run(run, n) && k < |run|
    ensures run[k].d.outstanding * MAXOPBLOCKS <= LOGSIZE
  {
    hide SysInv, Step;
    if k > 0 {
      CountedFit(run, n, k - 1);
      var a := StepOf(run, n, k - 1);
      CountStep(run[k - 1], run[k], a);
    }
  }

  lemma CountStep(s: Sys, s': Sys, a: nat)
    requires Step(s, s', a)
    ensures s'.d.outstanding > s.d.outstanding ==> s'.d.outstanding * MAXOPBLOCKS <= LOGSIZE
  {
  }
}
