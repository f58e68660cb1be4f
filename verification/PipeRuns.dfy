/** Readers and writers of one pipe, every interleaving of them, with sleep
    and wakeup in their separate steps. */
module PipeRuns {
  import opened Blocks
  import opened Options
  import opened Monitor
  import opened PipeRing

  /** Readers sleep on &p->nread, writers on &p->nwrite. */
  datatype Chan = NRead | NWrite

  /** How far a process is in pipewrite, piperead or pipeclose. */
  datatype Pc =
    | Away
    | Writing(src: seq<byte>, i: nat)   // in the loop, src[..i] is in the ring
    | Filled(src: seq<byte>, i: nat)    // found it full: wakes readers, then sleeps
    | WriteDone                         // the loop is over: wakes readers, then leaves
    | Reading(n: nat)                   // waiting for a first byte
    | Copying(n: nat, i: nat)           // in the copying loop
    | ReadDone                          // wakes writers, then leaves
    | Closing(writable: bool)
    | Closed(writable: bool)            // wakes the other side, then leaves

  /** The monitor, the pipe, what went in and came out of it, where everybody
      is, who has been killed, and whether each end has an open file. */
  datatype Sys = Sys(m: Mon<Chan>, r: Ring, written: seq<byte>, read: seq<byte>, pcs: seq<Pc>,
                     killed: set<nat>, readers: bool, writers: bool)

  function Waits(r: Ring): set<Chan>
  {
    (if Empty(r) && r.writeopen then {NRead} else {}) + (if Full(r) && r.readopen then {NWrite} else {})
  }

  // An assignment to the pipe under the lock, and the wakeups it makes due.
  ghost predicate Store(s: Sys, s': Sys, i: nat, r: Ring)
  {
    && Work(s.m, s'.m, i) && s'.r == r && s'.m.waits == Waits(r)
    && s'.m.owed == s.m.owed + (Waits(s.r) - Waits(r))
  }

  // Only process i moves, to pc, and the rest of the system is as given.
  ghost predicate Turn(s: Sys, s': Sys, i: nat, pc: Pc)
  {
    && i < |s.pcs| && |s.pcs| == |s.m.ps|
    && s'.pcs == s.pcs[i := pc] && s'.killed == s.killed
  }

  ghost predicate Still(s: Sys, s': Sys)
  {
    s'.r == s.r && s'.written == s.written && s'.read == s.read && s'.readers == s.readers && s'.writers == s.writers
  }

  predicate InWrite(pc: Pc) { pc.Writing? || pc.Filled? || pc.WriteDone? }
  predicate InRead(pc: Pc) { pc.Reading? || pc.Copying? || pc.ReadDone? }

  // A system call on an end that has an open file; the last close of an end
  // comes when nobody is in a call on it.
  ghost predicate Call(s: Sys, s': Sys, i: nat, pc: Pc)
  {
    && Turn(s, s', i, pc) && s.pcs[i].Away? && s.m.ps[i].Out? && Plain(s.m, s'.m, i, Want)
    && s'.r == s.r && s'.written == s.written && s'.read == s.read
    && match pc
       case Writing(src, k) => k == 0 && s.writers && s'.readers == s.readers && s'.writers == s.writers
       case Reading(n) => s.readers && s'.readers == s.readers && s'.writers == s.writers
       case Closing(w) =>
         if w then s.writers && !s'.writers && s'.readers == s.readers
             && forall j :: 0 <= j < |s.pcs| ==> !InWrite(s.pcs[j])
         else s.readers && !s'.readers && s'.writers == s.writers && forall j :: 0 <= j < |s.pcs| ==> !InRead(s.pcs[j])
       case _ => false
  }

  ghost predicate WriteStep(s: Sys, s': Sys, i: nat)
  {
    i < |s.pcs| && |s.pcs| == |s.m.ps| && s.m.ps[i].In? && |s.r.data| == PIPESIZE && s.pcs[i].Writing? &&
    var src, k := s.pcs[i].src, s.pcs[i].i;
    if k >= |src| then
      Turn(s, s', i, WriteDone) && Still(s, s') && Plain(s.m, s'.m, i, Waking(NRead))
    else if !Full(s.r) then
      Turn(s, s', i, Writing(src, k + 1)) && Store(s, s', i, Put(s.r, src[k]))
      && s'.written == s.written + [src[k]] && s'.read == s.read && s'.readers == s.readers && s'.writers == s.writers
    else if !s.r.readopen || i in s.killed then
      Turn(s, s', i, Away) && Still(s, s') && Leave(s.m, s'.m, i)
    else
      Turn(s, s', i, Filled(src, k)) && Still(s, s') && Plain(s.m, s'.m, i, Waking(NRead))
  }

  ghost predicate ReadStep(s: Sys, s': Sys, i: nat)
  {
    i < |s.pcs| && |s.pcs| == |s.m.ps| && s.m.ps[i].In? && |s.r.data| == PIPESIZE &&
    match s.pcs[i]
    case Reading(n) =>
      if Empty(s.r) && s.r.writeopen then
        if i in s.killed then Turn(s, s', i, Away) && Still(s, s') && Leave(s.m, s'.m, i)
        else Turn(s, s', i, Reading(n)) && Still(s, s') && Sleep(s.m, s'.m, i, NRead)
      else Turn(s, s', i, Copying(n, 0)) && Still(s, s') && s'.m == s.m
    case Copying(n, k) =>
      if k < n && !Empty(s.r) then
        Turn(s, s', i, Copying(n, k + 1)) && Store(s, s', i, Got(s.r))
        && s'.read == s.read + [Get(s.r)] && s'.written == s.written && s'.readers == s.readers
            && s'.writers == s.writers
      else Turn(s, s', i, ReadDone) && Still(s, s') && Plain(s.m, s'.m, i, Waking(NWrite))
    case _ => false
  }

  // Back from wakeup: go to sleep, or leave; and pipeclose.
  ghost predicate AfterWake(s: Sys, s': Sys, i: nat)
  {
    i < |s.pcs| && |s.pcs| == |s.m.ps| && s.m.ps[i].In? &&
    match s.pcs[i]
    case Filled(src, k) => Turn(s, s', i, Writing(src, k)) && Still(s, s') && Sleep(s.m, s'.m, i, NWrite)
    case WriteDone => Turn(s, s', i, Away) && Still(s, s') && Leave(s.m, s'.m, i)
    case ReadDone => Turn(s, s', i, Away) && Still(s, s') && Leave(s.m, s'.m, i)
    case Closed(w) => Turn(s, s', i, Away) && Still(s, s') && Leave(s.m, s'.m, i)
    case _ => false
  }

  // p->writeopen = 0 or p->readopen = 0; and the call of wakeup.
  ghost predicate CloseStep(s: Sys, s': Sys, i: nat)
  {
    i < |s.pcs| && |s.pcs| == |s.m.ps| && s.m.ps[i].In? && s.pcs[i].Closing? &&
    var w := s.pcs[i].writable;
    Turn(s, s', i, Closing(w)) && s'.written == s.written && s'.read == s.read && s'.readers == s.readers
        && s'.writers == s.writers
    && (if w then s.r.writeopen && Store(s, s', i, s.r.(writeopen := false))
        else s.r.readopen && Store(s, s', i, s.r.(readopen := false)))
  }

  ghost predicate CloseWake(s: Sys, s': Sys, i: nat)
  {
    i < |s.pcs| && |s.pcs| == |s.m.ps| && s.m.ps[i].In? && s.pcs[i].Closing? &&
    var w := s.pcs[i].writable;
    (if w then !s.r.writeopen else !s.r.readopen)
    && Turn(s, s', i, Closed(w)) && Still(s, s') && Plain(s.m, s'.m, i, Waking(Other(w)))
  }

  // Inside sleep and wakeup, and while a lock is sought.
  ghost predicate LockStep(s: Sys, s': Sys, i: nat)
  {
    i < |s.pcs| && |s.pcs| == |s.m.ps| && Turn(s, s', i, s.pcs[i]) && Still(s, s')
    && ((!s.m.ps[i].Out? && !s.m.ps[i].In? && exists q :: Plain(s.m, s'.m, i, q)) || Wake(s.m, s'.m, i))
  }

  ghost predicate KillStep(s: Sys, s': Sys, i: nat)
  {
    && i < |s.pcs| && |s.pcs| == |s.m.ps| && Still(s, s') && s'.pcs == s.pcs && s'.killed == s.killed + {i}
    && (s'.m == s.m || Kill(s.m, s'.m, i))
  }

  ghost predicate Step(s: Sys, s': Sys, i: nat)
  {
    || (exists pc :: Call(s, s', i, pc)) || WriteStep(s, s', i) || ReadStep(s, s', i) || AfterWake(s, s', i)
    || CloseStep(s, s', i) || CloseWake(s, s', i) || LockStep(s, s', i) || KillStep(s, s', i)
  }

  // ---- what every step keeps ----

  predicate PcOk(s: Sys, i: nat)
    requires |s.pcs| == |s.m.ps|
  {
    i < |s.pcs| ==>
      var p, owed := s.m.ps[i], s.m.owed;
      && (InWrite(s.pcs[i]) ==> s.writers) && (InRead(s.pcs[i]) ==> s.readers)
      && match s.pcs[i]
         case Away => p.Out?
         case Writing(src, k) =>
             && !p.Out? && !p.Waking? && !p.Scanning? && (p.In? ==> owed <= {NRead})
             && !Parked(p, NRead)
         case Filled(src, k) => (p == Waking(NRead) || p == Scanning(NRead) || p.In?)
             && owed <= {NRead} && (p.In? ==> owed == {}) && Full(s.r) && s.r.readopen
         case WriteDone =>
             && (p == Waking(NRead) || p == Scanning(NRead) || p.In?) && owed <= {NRead}
             && (p.In? ==> owed == {})
         case Reading(n) => !p.Out? && !p.Waking? && !p.Scanning? && (p.In? ==> owed == {}) && !Parked(p, NWrite)
         case Copying(n, k) => p.In? && owed <= {NWrite}
         case ReadDone =>
             && (p == Waking(NWrite) || p == Scanning(NWrite) || p.In?) && owed <= {NWrite}
             && (p.In? ==> owed == {})
         case Closing(w) => (p.Want? || p.In?) && (p.In? ==> owed <= {Other(w)})
             && (if w then !s.writers else !s.readers)
         case Closed(w) =>
             && (p == Waking(Other(w)) || p == Scanning(Other(w)) || p.In?)
             && owed <= {Other(w)} && (p.In? ==> owed == {})
  }

  // The channel pipeclose wakes.
  function Other(writable: bool): Chan { if writable then NRead else NWrite }

  // Asleep on c, or on the way there.
  predicate Parked(p: Phase<Chan>, c: Chan)
  {
    (p.Handing? || p.Handed? || p.Resting? || p.Asleep?) && p.c == c
  }

  ghost predicate SysInv(s: Sys)
  {
    && |s.pcs| == |s.m.ps| && Inv(s.m) && s.m.waits == Waits(s.r)
    && Fifo(s.r, s.written, s.read)
    && (s.readers ==> s.r.readopen) && (s.writers ==> s.r.writeopen)
    && s.m.lost <= {NRead} && (s.m.lost != {} ==> s.killed != {} || !s.r.readopen)
    && forall i: nat :: PcOk(s, i)
  }

  function Start(n: nat, data: seq<byte>): Sys
  {
    var r := Ring(data, 0, 0, true, true);
    Sys(Mon(None, None, Waits(r), Fill(n, Out), {}, {}), r, [], [], Fill(n, Away), {}, true, true)
  }

  lemma StartInv(n: nat, data: seq<byte>)
    requires |data| == PIPESIZE
    ensures SysInv(Start(n, data))
  {
  }

  // While i holds the lock, the others are where they were and may stay.
  lemma OtherPc(s: Sys, s': Sys, i: nat, j: nat)
    requires |s.pcs| == |s.m.ps| == |s'.pcs| == |s'.m.ps| && i < |s.pcs| && j < |s.pcs| && j != i
    requires Inv(s.m) && HoldsLk(s.m.ps[i]) && PcOk(s, j) && s'.pcs[j] == s.pcs[j] && s'.m.ps[j] == s.m.ps[j]
    requires s'.readers == s.readers && s'.writers == s.writers
    ensures PcOk(s', j)
  {
    assert PhaseOk(s.m, i) && PhaseOk(s.m, j);
  }

  lemma StoreFacts(s: Sys, s': Sys, i: nat, r: Ring)
    requires Store(s, s', i, r) && SysInv(s) && |r.data| == PIPESIZE
    ensures Inv(s'.m) && s'.m.ps == s.m.ps && s'.m.waits == Waits(r) && s'.m.lost == s.m.lost && s'.m.lk == s.m.lk
    ensures HoldsLk(s.m.ps[i]) && s.m.ps[i].In?
  {
    WorkInv(s.m, s'.m, i);
  }

  lemma CallInv(s: Sys, s': Sys, i: nat, pc: Pc)
    requires SysInv(s) && Call(s, s', i, pc)
    ensures SysInv(s')
  {
    hide Fifo;
    MovedInv(s.m, s'.m, i, Want);
    assert PcOk(s, i) && PhaseOk(s.m, i);
    forall j: nat ensures PcOk(s', j) { assert PcOk(s, j); }
  }

  lemma WriteInv(s: Sys, s': Sys, i: nat)
    requires SysInv(s) && WriteStep(s, s', i)
    ensures SysInv(s')
  {
    hide Stored;
    assert PcOk(s, i) && PhaseOk(s.m, i);
    var src, k := s.pcs[i].src, s.pcs[i].i;
    if k < |src| && !Full(s.r) {
      PutFifo(s.r, s.written, s.read, src[k]);
      StoreFacts(s, s', i, Put(s.r, src[k]));
    } else if k < |src| && (!s.r.readopen || i in s.killed) {
      LeaveInv(s.m, s'.m, i);
    } else {
      MovedInv(s.m, s'.m, i, Waking(NRead));
    }
    forall j: nat ensures PcOk(s', j) {
      assert PcOk(s, j);
      if j != i && j < |s.pcs| { OtherPc(s, s', i, j); }
    }
  }

  lemma ReadInv(s: Sys, s': Sys, i: nat)
    requires SysInv(s) && ReadStep(s, s', i)
    ensures SysInv(s')
  {
    hide Stored;
    assert PcOk(s, i) && PhaseOk(s.m, i);
    if s.pcs[i].Copying? {
      if s.pcs[i].i < s.pcs[i].n && !Empty(s.r) {
        GetFifo(s.r, s.written, s.read);
        StoreFacts(s, s', i, Got(s.r));
      } else {
        MovedInv(s.m, s'.m, i, Waking(NWrite));
      }
    } else if Empty(s.r) && s.r.writeopen {
      if i in s.killed { LeaveInv(s.m, s'.m, i); } else { SleepInv(s.m, s'.m, i, NRead); }
    }
    forall j: nat ensures PcOk(s', j) {
      assert PcOk(s, j);
      if j != i && j < |s.pcs| { OtherPc(s, s', i, j); }
    }
  }

  lemma AfterInv(s: Sys, s': Sys, i: nat)
    requires SysInv(s) && AfterWake(s, s', i)
    ensures SysInv(s')
  {
    hide Fifo;
    assert PcOk(s, i) && PhaseOk(s.m, i);
    if s.pcs[i].Filled? { SleepInv(s.m, s'.m, i, NWrite); } else { LeaveInv(s.m, s'.m, i); }
    forall j: nat ensures PcOk(s', j) {
      assert PcOk(s, j);
      if j != i && j < |s.pcs| { OtherPc(s, s', i, j); }
    }
  }

  lemma CloseInv(s: Sys, s': Sys, i: nat)
    requires SysInv(s) && (CloseStep(s, s', i) || CloseWake(s, s', i))
    ensures SysInv(s')
  {
    assert PcOk(s, i) && PhaseOk(s.m, i);
    var w := s.pcs[i].writable;
    if CloseStep(s, s', i) {
      var r := if w then s.r.(writeopen := false) else s.r.(readopen := false);
      StoreFacts(s, s', i, r);
      forall k: nat | |s.read| <= k < |s.written| ensures Stored(r, s.written, k) { assert Stored(s.r, s.written, k); }
    } else {
      MovedInv(s.m, s'.m, i, Waking(Other(w)));
    }
    hide Fifo;
    forall j: nat ensures PcOk(s', j) {
      assert PcOk(s, j);
      if j != i && j < |s.pcs| { OtherPc(s, s', i, j); }
    }
  }

  lemma WokenPc(s: Sys, s': Sys, i: nat, j: nat)
    requires SysInv(s) && LockStep(s, s', i) && Wake(s.m, s'.m, i) && |s'.pcs| == |s'.m.ps|
    ensures PcOk(s', j)
  {
    hide Fifo, Waits;
    assert PcOk(s, i) && PhaseOk(s.m, i) && PcOk(s, j) && PhaseOk(s.m, j);
    if j == i { } else if j < |s.pcs| && s.m.ps[j] == Asleep(s.m.ps[i].c) { } else { }
  }

  lemma MovedPc(s: Sys, s': Sys, i: nat, j: nat, q: Phase<Chan>)
    requires SysInv(s) && LockStep(s, s', i) && Plain(s.m, s'.m, i, q) && !s.m.ps[i].In? && |s'.pcs| == |s'.m.ps|
    requires !s.m.ps[i].Out?
    ensures PcOk(s', j)
  {
    hide Fifo, Waits;
    assert PcOk(s, i) && PhaseOk(s.m, i) && PcOk(s, j) && PhaseOk(s.m, j);
    if j == i { if q.In? { } else { } } else { }
  }

  lemma LockInv(s: Sys, s': Sys, i: nat)
    requires SysInv(s) && LockStep(s, s', i)
    ensures SysInv(s')
  {
    hide Fifo, PcOk;
    if Wake(s.m, s'.m, i) {
      WakeInv(s.m, s'.m, i);
      forall j: nat ensures PcOk(s', j) { WokenPc(s, s', i, j); }
    } else {
      var q :| Plain(s.m, s'.m, i, q);
      MovedInv(s.m, s'.m, i, q);
      forall j: nat ensures PcOk(s', j) { MovedPc(s, s', i, j, q); }
    }
  }

  lemma KillStepInv(s: Sys, s': Sys, i: nat)
    requires SysInv(s) && KillStep(s, s', i)
    ensures SysInv(s')
  {
    hide Fifo;
    if Kill(s.m, s'.m, i) { KillInv(s.m, s'.m, i); }
    forall j: nat ensures PcOk(s', j) { assert PcOk(s, j); }
  }

  lemma StepInv(s: Sys, s': Sys, i: nat)
    requires SysInv(s) && Step(s, s', i)
    ensures SysInv(s')
  {
    hide SysInv, WriteStep, ReadStep, AfterWake, CloseStep, CloseWake, LockStep, KillStep, Call;
    if WriteStep(s, s', i) {
      WriteInv(s, s', i);
    } else if ReadStep(s, s', i) {
      ReadInv(s, s', i);
    } else if AfterWake(s, s', i) {
      AfterInv(s, s', i);
    } else if CloseStep(s, s', i) || CloseWake(s, s', i) {
      CloseInv(s, s', i);
    } else if LockStep(s, s', i) {
      LockInv(s, s', i);
    } else if KillStep(s, s', i) {
      KillStepInv(s, s', i);
    } else {
      var pc :| Call(s, s', i, pc);
      CallInv(s, s', i, pc);
    }
  }

  ghost predicate SomeStep(s: Sys, s': Sys) { exists i :: Step(s, s', i) }

  ghost predicate Run(run: seq<Sys>, n: nat, data: seq<byte>)
  {
    && 0 < |run| && run[0] == Start(n, data) && |data| == PIPESIZE
    && forall k: nat, k': nat :: k' == k + 1 < |run| ==> SomeStep(run[k], run[k'])
  }

  lemma {:induction false} RunInv(run: seq<Sys>, n: nat, data: seq<byte>, k: nat)
    requires Run(run, n, data) && k < |run|
    ensures SysInv(run[k])
  {
    if k == 0 {
      StartInv(n, data);
    } else {
      RunInv(run, n, data, k - 1);
      assert SomeStep(run[k - 1], run[k]);
      var i :| Step(run[k - 1], run[k], i);
      StepInv(run[k - 1], run[k], i);
    }
  }

  // First in, first out, over every run: what the readers have got is a
  // prefix of what the writers have put in, and the rest is in the ring.
  lemma FifoAlways(run: seq<Sys>, n: nat, data: seq<byte>, k: nat)
    requires Run(run, n, data) && k < |run|
    ensures run[k].read <= run[k].written && |run[k].written| - |run[k].read| <= PIPESIZE
    ensures Fifo(run[k].r, run[k].written, run[k].read)
  {
    RunInv(run, n, data, k);
  }
}
