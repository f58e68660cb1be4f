/** Which wakeups of a pipe are lost, exactly. */
module PipeLost {
  import opened Blocks
  import opened Options
  import opened Monitor
  import opened PipeRing
  import opened PipeRuns

  // pipewrite returns from a full pipe, as no reader is left or the process was
  // killed, having put bytes into it that it has not yet woken the readers for.
  ghost predicate Strands(s: Sys, s': Sys, i: nat)
  {
    && WriteStep(s, s', i) && s.pcs[i].i < |s.pcs[i].src| && Full(s.r)
    && (!s.r.readopen || i in s.killed) && NRead in s.m.owed
  }

  // A wakeup is lost in exactly these steps, and it is one of the readers'.
  lemma LostExactlyWhen(s: Sys, s': Sys, i: nat)
    requires SysInv(s) && Step(s, s', i)
    ensures s'.m.lost == if Strands(s, s', i) then {NRead} else s.m.lost
  {
    hide Fifo, Inv, Waits;
    assert PcOk(s, i);
    if WriteStep(s, s', i) {
    } else if ReadStep(s, s', i) {
    } else if AfterWake(s, s', i) {
    } else if CloseStep(s, s', i) || CloseWake(s, s', i) {
    } else if LockStep(s, s', i) {
    } else if KillStep(s, s', i) {
    } else {
      var pc :| Call(s, s', i, pc);
    }
  }

  ghost predicate SomeStrands(s: Sys, s': Sys) { exists i :: Strands(s, s', i) }
  ghost predicate StrandsAt(run: seq<Sys>, k: nat) { k + 1 < |run| && SomeStrands(run[k], run[k + 1]) }

  lemma LostByStep(s: Sys, s': Sys)
    requires SysInv(s) && SomeStep(s, s')
    ensures s'.m.lost == if SomeStrands(s, s') then {NRead} else s.m.lost
    ensures s'.readers ==> s.readers
  {
    hide SysInv, Strands, WriteStep, ReadStep, AfterWake, CloseStep, CloseWake, LockStep, KillStep, Call;
    var i :| Step(s, s', i);
    LostExactlyWhen(s, s', i);
    ReadersBefore(s, s', i);
    if j :| Strands(s, s', j) {
      assert WriteStep(s, s', j) by { StrandsWrites(s, s', j); }
      LostExactlyWhen(s, s', j);
    }
  }

  lemma StrandsWrites(s: Sys, s': Sys, i: nat)
    requires Strands(s, s', i)
    ensures WriteStep(s, s', i)
  {
  }

  // No reader comes back once the last has closed its end.
  lemma ReadersBefore(s: Sys, s': Sys, i: nat)
    requires Step(s, s', i)
    ensures s'.readers ==> s.readers
  {
  }

  // Over every run: what was lost was lost in such a step.
  lemma {:induction false} LostSince(run: seq<Sys>, n: nat, data: seq<byte>, k: nat)
    requires Run(run, n, data) && k < |run|
    ensures run[k].m.lost == if exists m: nat :: m < k && StrandsAt(run, m) then {NRead} else {}
  {
    hide SysInv, SomeStep, SomeStrands;
    if k > 0 {
      LostSince(run, n, data, k - 1);
      RunInv(run, n, data, k - 1);
      assert SomeStep(run[k - 1], run[k]);
      LostByStep(run[k - 1], run[k]);
      assert StrandsAt(run, k - 1) <==> SomeStrands(run[k - 1], run[k]);
    }
  }

  lemma {:induction false} ReadersSince(run: seq<Sys>, n: nat, data: seq<byte>, m: nat, k: nat)
    requires Run(run, n, data) && m <= k < |run| && run[k].readers
    ensures run[m].readers
    decreases k - m
  {
    hide SysInv, Step, SomeStrands;
    if m < k {
      RunInv(run, n, data, k - 1);
      assert SomeStep(run[k - 1], run[k]);
      LostByStep(run[k - 1], run[k]);
      ReadersSince(run, n, data, m, k - 1);
    }
  }

  // A killed writer left a full pipe, the readers not yet woken for its bytes.
  ghost predicate KilledWriterLeft(s: Sys, s': Sys)
  {
    exists i: nat :: Strands(s, s', i) && i in s.killed && s.r.readopen
  }

  ghost predicate LeftAt(run: seq<Sys>, k: nat) { k + 1 < |run| && KilledWriterLeft(run[k], run[k + 1]) }

  // No lost wakeup but for that: with the lock free, a reader sleeps only on an
  // empty pipe that can still be written, unless a killed writer left before;
  // a writer sleeps only on a full pipe that can still be read.
  lemma Sleepers(run: seq<Sys>, n: nat, data: seq<byte>, k: nat, i: nat)
    requires Run(run, n, data) && k < |run| && run[k].m.lk == None && i < |run[k].m.ps| && run[k].m.ps[i].Asleep?
    ensures |run[k].pcs| == |run[k].m.ps| && (run[k].pcs[i].Reading? || run[k].pcs[i].Writing?)
    ensures run[k].pcs[i].Reading? ==>
      (run[k].written == run[k].read && run[k].r.writeopen) || exists m: nat :: m < k && LeftAt(run, m)
    ensures run[k].pcs[i].Writing? ==> |run[k].written| == |run[k].read| + PIPESIZE && run[k].r.readopen
  {
    hide LeftAt;
    var s := run[k];
    RunInv(run, n, data, k);
    NoLostWakeup(s.m, i);
    assert PcOk(s, i);
    Counters(s.r, s.written, s.read);
    if s.pcs[i].Reading? && NRead in s.m.lost {
      LostSince(run, n, data, k);
      var m: nat :| m < k && StrandsAt(run, m);
      ReadersSince(run, n, data, m, k);
      RunInv(run, n, data, m);
      LeftThen(run, m);
    }
  }

  lemma LeftThen(run: seq<Sys>, m: nat)
    requires StrandsAt(run, m) && run[m].readers && SysInv(run[m])
    ensures LeftAt(run, m)
  {
    var i :| Strands(run[m], run[m + 1], i);
  }

  // ---- and it happens ----

  lemma Extended(run: seq<Sys>, n: nat, data: seq<byte>, s': Sys, i: nat)
    requires Run(run, n, data) && Step(run[|run| - 1], s', i)
    ensures Run(run + [s'], n, data)
  {
    hide Step, Start;
    assert SomeStep(run[|run| - 1], s');
  }

  // A reader asleep, a writer that has put in j bytes, nobody else.
  ghost predicate Midway(s: Sys, src: seq<byte>, j: nat)
  {
    && j <= |src| && j <= PIPESIZE
    && s.m == Mon(Some(1), None, Waits(s.r), [Asleep(NRead), In], if j == 0 then {} else {NRead}, {})
    && s.pcs == [Reading(1), Writing(src, j)] && s.killed == {}
    && s.written == src[..j] && s.read == [] && s.readers && s.writers && s.r.readopen && s.r.writeopen
    && Fifo(s.r, s.written, s.read)
  }

  // The start, but for where the reader is and which locks it holds.
  function Reader(data: seq<byte>, lk: Option<nat>, pl: Option<nat>, p: Phase<Chan>): Sys
  {
    var s := Start(2, data);
    s.(m := s.m.(lk := lk, pl := pl, ps := [p, Out]), pcs := [Reading(1), Away])
  }

  lemma ReaderComes(data: seq<byte>) returns (run: seq<Sys>)
    requires |data| == PIPESIZE
    ensures Run(run, 2, data) && 0 < |run| && run[|run| - 1] == Reader(data, Some(0), None, In)
  {
    var s, s1 := Start(2, data), Reader(data, None, None, Want);
    run := [s];
    assert s.m.ps == [Out, Out] && s.pcs == [Away, Away];
    assert Plain(s.m, s1.m, 0, Want) && Call(s, s1, 0, Reading(1));
    Extended(run, 2, data, s1, 0);
    run := run + [s1];
    run := Locked(run, data, 0, In, Reader(data, Some(0), None, In));
  }

  lemma ReaderSleeps(data: seq<byte>) returns (run: seq<Sys>)
    requires |data| == PIPESIZE
    ensures Run(run, 2, data) && 0 < |run| && run[|run| - 1] == Reader(data, None, None, Asleep(NRead))
  {
    hide Run;
    run := ReaderComes(data);
    var s, s1 := Reader(data, Some(0), None, In), Reader(data, Some(0), None, Handing(NRead));
    assert Empty(s.r) && Sleep(s.m, s1.m, 0, NRead) && ReadStep(s, s1, 0);
    Extended(run, 2, data, s1, 0);
    run := run + [s1];
    run := Locked(run, data, 0, Handed(NRead), Reader(data, Some(0), Some(0), Handed(NRead)));
    run := Locked(run, data, 0, Resting(NRead), Reader(data, None, Some(0), Resting(NRead)));
    run := Locked(run, data, 0, Asleep(NRead), Reader(data, None, None, Asleep(NRead)));
  }

  // A move inside sleep, or the taking of the lock.
  lemma Locked(run0: seq<Sys>, data: seq<byte>, i: nat, q: Phase<Chan>, s': Sys) returns (run: seq<Sys>)
    requires Run(run0, 2, data) && 0 < |run0|
    requires var s := run0[|run0| - 1];
      && |s.pcs| == |s.m.ps| && i < |s.pcs| && CanMove(s.m, i, q) && PlainMove(s.m.ps[i], q)
      && !s.m.ps[i].Out? && !s.m.ps[i].In? && s' == s.(m := Moved(s.m, i, q))
    ensures run == run0 + [s'] && Run(run, 2, data)
  {
    var s := run0[|run0| - 1];
    assert Plain(s.m, s'.m, i, q) && LockStep(s, s', i);
    Extended(run0, 2, data, s', i);
    run := run0 + [s'];
  }

  lemma WriterComes(data: seq<byte>, src: seq<byte>) returns (run: seq<Sys>)
    requires |data| == PIPESIZE
    ensures Run(run, 2, data) && 0 < |run| && Midway(run[|run| - 1], src, 0)
  {
    hide Run;
    run := ReaderSleeps(data);
    var s := run[|run| - 1];
    var s1 := s.(m := Moved(s.m, 1, Want), pcs := [Reading(1), Writing(src, 0)]);
    assert Plain(s.m, s1.m, 1, Want) && Call(s, s1, 1, Writing(src, 0));
    Extended(run, 2, data, s1, 1);
    run := run + [s1];
    run := Locked(run, data, 1, In, s1.(m := Moved(s1.m, 1, In)));
    RunInv(run, 2, data, |run| - 1);
  }

  lemma {:induction false} WriterFills(data: seq<byte>, src: seq<byte>, j: nat) returns (run: seq<Sys>)
    requires |data| == PIPESIZE && j <= PIPESIZE && j <= |src|
    ensures Run(run, 2, data) && 0 < |run| && Midway(run[|run| - 1], src, j)
  {
    if j == 0 {
      run := WriterComes(data, src);
    } else {
      run := WriterFills(data, src, j - 1);
      var s := run[|run| - 1];
      var s' := OneMore(s, src, j - 1);
      Extended(run, 2, data, s', 1);
      run := run + [s'];
    }
  }

  lemma OneMore(s: Sys, src: seq<byte>, j: nat) returns (s': Sys)
    requires Midway(s, src, j) && j < PIPESIZE && j < |src|
    ensures Step(s, s', 1) && Midway(s', src, j + 1)
  {
    Counters(s.r, s.written, s.read);
    PutFifo(s.r, s.written, s.read, src[j]);
    var r := Put(s.r, src[j]);
    s' := s.(r := r, m := s.m.(waits := Waits(r), owed := {NRead}), pcs := [Reading(1), Writing(src, j + 1)],
             written := s.written + [src[j]]);
    Counters(r, s'.written, s'.read);
    assert Store(s, s', 1, r) && WriteStep(s, s', 1);
    assert src[..j + 1] == src[..j] + [src[j]];
  }

  // Whatever a writer has to write, if it is more than the ring holds: a run
  // that leaves a reader asleep on a full pipe.
  lemma KilledWriterStrands(data: seq<byte>, src: seq<byte>) returns (run: seq<Sys>)
    requires |data| == PIPESIZE && |src| > PIPESIZE
    ensures Run(run, 2, data) && 0 < |run|
    ensures var s := run[|run| - 1];
      && s.m.lk == None && s.m.ps == [Asleep(NRead), Out] && s.pcs == [Reading(1), Away]
      && s.written == src[..PIPESIZE] && s.read == [] && s.m.owed == {}
  {
    run := WriterFills(data, src, PIPESIZE);
    var s := run[|run| - 1];
    Counters(s.r, s.written, s.read);
    var s1 := s.(killed := {1});
    assert KillStep(s, s1, 1);
    Extended(run, 2, data, s1, 1);
    run := run + [s1];
    var s2 := s1.(m := Moved(s1.m, 1, Out).(owed := {}, lost := {NRead}), pcs := [Reading(1), Away]);
    assert Leave(s1.m, s2.m, 1) && WriteStep(s1, s2, 1);
    Extended(run, 2, data, s2, 1);
    run := run + [s2];
  }
}
