/** Whom a kill hits, over every run of the process table. */
module ProcKill {
  import opened ProcTable

  // ---- what happens to one entry ----

  predicate Unborn(p: Proc) { p.state == UNUSED || p.state == EMBRYO }

  ghost predicate Reaps(t: Table, t': Table, i: nat) { exists cur :: Reap(t, t', cur, i) }
  ghost predicate Allocates(t: Table, t': Table, i: nat) { exists cur :: Allocproc(t, t', cur, i) }

  // fork gives up on entry i.
  ghost predicate Abandons(t: Table, t': Table, i: nat)
  {
    exists cur: nat :: cur < |t.doing| && t.doing[cur] == Forking(i) && ForkFails(t, t', cur)
  }

  // The same for the step that leaves run[k].
  ghost predicate ReapedAt(run: seq<Table>, k: nat, i: nat) { k + 1 < |run| && Reaps(run[k], run[k + 1], i) }
  ghost predicate AllocatedAt(run: seq<Table>, k: nat, i: nat) { k + 1 < |run| && Allocates(run[k], run[k + 1], i) }
  ghost predicate AbandonedAt(run: seq<Table>, k: nat, i: nat) { k + 1 < |run| && Abandons(run[k], run[k + 1], i) }
  ghost predicate KilledAt(run: seq<Table>, k: nat, i: nat) { k + 1 < |run| && Kill(run[k], run[k + 1], i) }

  ghost predicate NotReaped(run: seq<Table>, m: nat, n: nat, i: nat)
  {
    forall k: nat :: m <= k < n ==> !ReapedAt(run, k, i)
  }

  ghost predicate NotAllocated(run: seq<Table>, m: nat, n: nat, i: nat)
  {
    forall k: nat :: m <= k < n ==> !AllocatedAt(run, k, i)
  }

  // Positive pids are never shared, not even with an entry that is unused.
  predicate Numbered(t: Table, i: nat, j: nat)
  {
    i < |t.ps| ==>
      && 0 <= t.ps[i].pid < t.nextpid && (t.ps[i].state != UNUSED ==> 0 < t.ps[i].pid)
      && (j < |t.ps| && j != i && 0 < t.ps[i].pid ==> t.ps[j].pid != t.ps[i].pid)
  }

  lemma SizeStep(t: Table, t': Table, a: nat, k: nat)
    requires Step(t, t', a, k)
    ensures |t'.ps| == |t.ps| && t.nextpid <= t'.nextpid
  {
  }

  // How one entry comes out of one step.
  ghost predicate Changed(t: Table, t': Table, i: nat)
  {
    i < |t.ps| == |t'.ps| ==>
      && (t'.ps[i].killed && !t.ps[i].killed ==> Kill(t, t', i))
      && (t.ps[i].killed && !t'.ps[i].killed ==> Reaps(t, t', i))
      && (!Unborn(t.ps[i]) && Unborn(t'.ps[i]) ==> Reaps(t, t', i))
      && (t'.ps[i].pid != t.ps[i].pid ==> Reaps(t, t', i) || Allocates(t, t', i))
      && (t.ps[i].state == UNUSED && t'.ps[i].state != UNUSED ==> Allocates(t, t', i))
      && (t.ps[i].state != UNUSED && t'.ps[i].state == UNUSED ==> Reaps(t, t', i) || Abandons(t, t', i))
  }

  lemma EntryStep(t: Table, t': Table, a: nat, k: nat, i: nat)
    requires Tree(t) && Step(t, t', a, k) && i < |t.ps|
    ensures |t'.ps| == |t.ps| && Changed(t, t', i)
  {
    hide Changed, Tree, Allocproc, ForkFails, SetParent, ForkDone, Exit, Reap, WaitFails, WaitSleeps, Sleeps, Wakes,
        Kill, Runs, Resumes, Yields;
    SizeStep(t, t', a, k);
    if Allocproc(t, t', a, k) || ForkFails(t, t', a) || SetParent(t, t', a) || ForkDone(t, t', a) {
      ForkChanged(t, t', a, k, i);
    } else if Exit(t, t', a) || Wakes(t, t', Elsewhere(k)) {
      WakeChanged(t, t', a, k, i);
    } else if Reap(t, t', a, k) || WaitFails(t, t', a) || WaitSleeps(t, t', a) || Kill(t, t', a) {
      WaitChanged(t, t', a, k, i);
    } else {
      RunChanged(t, t', a, k, i);
    }
  }

  lemma ForkChanged(t: Table, t': Table, a: nat, k: nat, i: nat)
    requires Tree(t) && i < |t.ps|
    requires Allocproc(t, t', a, k) || ForkFails(t, t', a) || SetParent(t, t', a) || ForkDone(t, t', a)
    ensures Changed(t, t', i)
  {
    hide Reaps, Kill;
    assert TreeAt(t, a, a);
    assert Allocproc(t, t', a, i) ==> Allocates(t, t', i);
    assert t.doing[a] == Forking(i) && ForkFails(t, t', a) ==> Abandons(t, t', i);
  }

  lemma WakeChanged(t: Table, t': Table, a: nat, k: nat, i: nat)
    requires i < |t.ps| && (Exit(t, t', a) || Wakes(t, t', Elsewhere(k)))
    ensures Changed(t, t', i)
  {
    hide Reaps, Allocates, Abandons, Kill, HasZombie;
    if Exit(t, t', a) { assert t'.ps[i] == ExitEntry(t, a, HasZombie(t, a), i); }
  }

  lemma WaitChanged(t: Table, t': Table, a: nat, k: nat, i: nat)
    requires i < |t.ps| && (Reap(t, t', a, k) || WaitFails(t, t', a) || WaitSleeps(t, t', a) || Kill(t, t', a))
    ensures Changed(t, t', i)
  {
    hide Allocates, Abandons;
    assert Reap(t, t', a, i) ==> Reaps(t, t', i);
  }

  lemma RunChanged(t: Table, t': Table, a: nat, k: nat, i: nat)
    requires i < |t.ps|
    requires Sleeps(t, t', a, k) || Runs(t, t', a) || Resumes(t, t', a) || Yields(t, t', a)
    ensures Changed(t, t', i)
  {
    hide Reaps, Allocates, Abandons, Kill;
  }

  // What those steps do to the entry, and to the others.
  lemma Comings(t: Table, t': Table, i: nat)
    ensures Reaps(t, t', i) ==> i < |t'.ps| && t'.ps[i].pid == 0 && t'.ps[i].state == UNUSED && !t'.ps[i].killed
    ensures Allocates(t, t', i) ==> i < |t.ps| && t'.ps == t.ps[i := t.ps[i].(state := EMBRYO, pid := t.nextpid)]
                                    && t'.nextpid == t.nextpid + 1 && t.ps[i].state == UNUSED
    ensures Abandons(t, t', i) ==> i < |t.ps| && t'.ps == t.ps[i := t.ps[i].(state := UNUSED)]
    ensures Kill(t, t', i) ==> i < |t.ps| && t'.ps[i].killed
  {
  }

  lemma NumberedStep(t: Table, t': Table, a: nat, k: nat, i: nat, j: nat)
    requires Tree(t) && Step(t, t', a, k) && Numbered(t, i, j) && Numbered(t, j, i)
    ensures Numbered(t', i, j)
  {
    hide Tree, Step, Reaps, Allocates, Abandons, Kill;
    SizeStep(t, t', a, k);
    if i < |t.ps| { EntryStep(t, t', a, k, i); }
    if j < |t.ps| { EntryStep(t, t', a, k, j); }
    Comings(t, t', i);
    Comings(t, t', j);
  }

  lemma {:induction false} RunNumbered(run: seq<Table>, n: nat)
    requires Run(run) && n < |run|
    ensures |run[n].ps| == |run[0].ps| && forall i: nat, j: nat :: Numbered(run[n], i, j)
  {
    hide Run, Tree, Step, Numbered;
    if n == 0 {
      BootNumbered(run);
    } else {
      RunNumbered(run, n - 1);
      var a, k := StepOf(run, n - 1);
      forall i: nat, j: nat ensures Numbered(run[n], i, j) {
        assert Numbered(run[n - 1], i, j) && Numbered(run[n - 1], j, i);
        NumberedStep(run[n - 1], run[n], a, k, i, j);
      }
      SizeStep(run[n - 1], run[n], a, k);
    }
  }

  lemma BootNumbered(run: seq<Table>)
    requires Run(run)
    ensures forall i: nat, j: nat :: Numbered(run[0], i, j)
  {
  }

  lemma StepOf(run: seq<Table>, n: nat) returns (a: nat, k: nat)
    requires Run(run) && n + 1 < |run|
    ensures Tree(run[n]) && Step(run[n], run[n + 1], a, k)
  {
    RunInv(run, n);
    assert SomeStep(run[n], run[n + 1]);
    a, k :| Step(run[n], run[n + 1], a, k);
  }

  // ---- who is marked ----

  // A kill hit the entry and wait has not reaped it since.
  ghost predicate Hit(run: seq<Table>, n: nat, i: nat)
  {
    exists m: nat :: m < n && KilledAt(run, m, i) && NotReaped(run, m + 1, n, i)
  }

  // The same, and it hit the entry when that was unused or in a fork that was
  // yet to fail.
  ghost predicate HitUnborn(run: seq<Table>, n: nat, i: nat)
  {
    exists m: nat :: m < n && KilledAt(run, m, i) && Unborn(run[m].ps[i]) && NotReaped(run, m + 1, n, i)
  }

  // An entry is marked as killed if and only if a kill hit it and wait has not
  // reaped it since.
  lemma {:induction false} MarkedExactlyWhen(run: seq<Table>, n: nat, i: nat)
    requires Run(run) && n < |run| && i < |run[n].ps|
    ensures run[n].ps[i].killed <==> Hit(run, n, i)
  {
    hide Run, Hit, Tree, Step, Kill, Reaps;
    if n > 0 {
      var a, k := StepOf(run, n - 1);
      SizeStep(run[n - 1], run[n], a, k);
      MarkedExactlyWhen(run, n - 1, i);
      EntryStep(run[n - 1], run[n], a, k, i);
      Comings(run[n - 1], run[n], i);
      HitStep(run, n, i);
    } else {
      BootUnmarked(run, i);
    }
  }

  lemma BootUnmarked(run: seq<Table>, i: nat)
    requires Run(run) && i < |run[0].ps|
    ensures !run[0].ps[i].killed && !Hit(run, 0, i)
  {
  }

  lemma HitStep(run: seq<Table>, n: nat, i: nat)
    requires 0 < n < |run|
    ensures Hit(run, n, i) <==> KilledAt(run, n - 1, i) || (Hit(run, n - 1, i) && !ReapedAt(run, n - 1, i))
  {
  }

  lemma UnbornBefore(run: seq<Table>, m: nat, n: nat, i: nat)
    requires Run(run) && m <= n < |run| && i < |run[m].ps| == |run[n].ps|
    requires Unborn(run[n].ps[i]) && NotReaped(run, m, n, i)
    ensures Unborn(run[m].ps[i])
    decreases n - m
  {
    if m < n {
      var a, k := StepOf(run, m);
      EntryStep(run[m], run[m + 1], a, k, i);
      assert !ReapedAt(run, m, i);
      UnbornBefore(run, m + 1, n, i);
    }
  }

  lemma HitEarly(run: seq<Table>, n: nat, i: nat)
    requires Run(run) && n < |run| && i < |run[n].ps| && run[n].ps[i].state == UNUSED && Hit(run, n, i)
    ensures HitUnborn(run, n, i)
  {
    hide Run;
    var m: nat :| m < n && KilledAt(run, m, i) && NotReaped(run, m + 1, n, i);
    RunNumbered(run, n);
    RunNumbered(run, m + 1);
    UnbornBefore(run, m + 1, n, i);
    assert Unborn(run[m].ps[i]);
  }

  // A new process starts its life killed if and only if a kill hit its entry
  // when it was unused or in a fork that was yet to fail, and wait has not
  // reaped it since: allocproc does not reset the mark.
  lemma BornKilledExactlyWhen(run: seq<Table>, n: nat, i: nat)
    requires Run(run) && AllocatedAt(run, n, i)
    ensures i < |run[n + 1].ps| && run[n + 1].ps[i].state == EMBRYO
    ensures run[n + 1].ps[i].killed <==> HitUnborn(run, n, i)
  {
    hide Run, Hit;
    Comings(run[n], run[n + 1], i);
    MarkedExactlyWhen(run, n, i);
    if Hit(run, n, i) { HitEarly(run, n, i); }
    assert HitUnborn(run, n, i) ==> Hit(run, n, i) by { HitMeans(run, n, i); }
  }

  lemma HitMeans(run: seq<Table>, n: nat, i: nat)
    ensures HitUnborn(run, n, i) ==> Hit(run, n, i)
  {
  }

  // ---- which pids kill finds ----

  // A fork failed on entry i when it had this pid, and no other has used the
  // entry since.
  ghost predicate Left(run: seq<Table>, n: nat, i: nat, pid: int)
  {
    exists m: nat :: m < n && AbandonedAt(run, m, i) && LeftPid(run, m, i, pid) && NotAllocated(run, m + 1, n, i)
  }

  ghost predicate LeftPid(run: seq<Table>, m: nat, i: nat, pid: int)
  {
    m < |run| && i < |run[m].ps| && run[m].ps[i].pid == pid
  }

  lemma LeftStep(run: seq<Table>, n: nat, i: nat, pid: int)
    requires 0 < n < |run|
    ensures Left(run, n, i, pid) <==>
      (AbandonedAt(run, n - 1, i) && LeftPid(run, n - 1, i, pid))
      || (Left(run, n - 1, i, pid) && !AllocatedAt(run, n - 1, i))
  {
  }

  // The positive pids of unused entries are those of forks that failed.
  lemma {:induction false} LeftExactlyWhen(run: seq<Table>, n: nat, i: nat, pid: int)
    requires Run(run) && n < |run| && i < |run[n].ps|
    ensures Left(run, n, i, pid) <==> run[n].ps[i].state == UNUSED && run[n].ps[i].pid == pid && pid != 0
  {
    hide Run, Left, Tree, Step;
    if n > 0 {
      RunNumbered(run, n - 1);
      RunNumbered(run, n);
      var a, k := StepOf(run, n - 1);
      LeftExactlyWhen(run, n - 1, i, pid);
      LeftStep(run, n, i, pid);
      EntryStep(run[n - 1], run[n], a, k, i);
      Comings(run[n - 1], run[n], i);
      UsedWhenLeft(run[n - 1], run[n], i);
      assert Numbered(run[n - 1], i, i);
    } else {
      BootLeft(run, i, pid);
    }
  }

  lemma BootLeft(run: seq<Table>, i: nat, pid: int)
    requires Run(run) && i < |run[0].ps|
    ensures !Left(run, 0, i, pid) && (run[0].ps[i].state == UNUSED ==> run[0].ps[i].pid == 0)
  {
  }

  lemma UsedWhenLeft(t: Table, t': Table, i: nat)
    requires Tree(t) && i < |t.ps|
    ensures Abandons(t, t', i) ==> t.ps[i].state == EMBRYO
    ensures Reaps(t, t', i) ==> t.ps[i].state == ZOMBIE
  {
    if cur: nat :| cur < |t.doing| && t.doing[cur] == Forking(i) && ForkFails(t, t', cur) {
      assert TreeAt(t, cur, cur);
    }
  }

  // kill(pid) answers 0 although no process has the pid if and only if a fork
  // left it behind, or it is 0 and some unused entry was not left by a fork.
  lemma KillHitsNobodyExactlyWhen(run: seq<Table>, n: nat, pid: int)
    requires Run(run) && n < |run|
    ensures (exists i: nat :: i < |run[n].ps| && run[n].ps[i].pid == pid)
            && (forall i: nat :: i < |run[n].ps| && run[n].ps[i].pid == pid ==> run[n].ps[i].state == UNUSED)
            <==> exists i: nat :: Answers(run, n, i, pid)
  {
    hide Run, Answers;
    RunNumbered(run, n);
    if i: nat :| i < |run[n].ps| && run[n].ps[i].pid == pid && run[n].ps[i].state == UNUSED {
      AnswersWhen(run, n, i, pid);
      forall j: nat | j < |run[n].ps| && run[n].ps[j].pid == pid ensures run[n].ps[j].state == UNUSED {
        assert Numbered(run[n], i, j) && Numbered(run[n], j, i);
      }
    } else {
      forall i: nat ensures !Answers(run, n, i, pid) { AnswersWhen(run, n, i, pid); }
    }
  }

  lemma AnswersWhen(run: seq<Table>, n: nat, i: nat, pid: int)
    requires Run(run) && n < |run|
    ensures Answers(run, n, i, pid) <==> i < |run[n].ps| && run[n].ps[i].pid == pid && run[n].ps[i].state == UNUSED
  {
    hide Run, Left;
    if i < |run[n].ps| {
      LeftExactlyWhen(run, n, i, pid);
      LeftExactlyWhen(run, n, i, run[n].ps[i].pid);
      forall q: int ensures Left(run, n, i, q) <==>
          run[n].ps[i].state == UNUSED && run[n].ps[i].pid == q && q != 0
      {
        LeftExactlyWhen(run, n, i, q);
      }
    }
  }

  ghost predicate Answers(run: seq<Table>, n: nat, i: nat, pid: int)
    requires n < |run|
  {
    && i < |run[n].ps| && run[n].ps[i].state == UNUSED
    && if pid == 0 then forall q: int :: !Left(run, n, i, q) else Left(run, n, i, pid)
  }

  // ---- both happen ----

  lemma Extended(run: seq<Table>, t': Table, a: nat, k: nat)
    requires Run(run) && Step(run[|run| - 1], t', a, k)
    ensures Run(run + [t'])
  {
    hide Step, Boot;
    assert SomeStep(run[|run| - 1], t');
  }

  // The table with init running, and entry i as given.
  function With(t: Table, i: nat, p: Proc): Table
    requires i < |t.ps| && t.init < |t.ps|
  {
    t.(ps := t.ps[t.init := t.ps[t.init].(state := RUNNING)][i := p])
  }

  // allocproc for init.
  function Taken(t: Table, i: nat): Table
    requires i < |t.ps| && t.init < |t.doing|
  {
    t.(ps := t.ps[i := t.ps[i].(state := EMBRYO, pid := t.nextpid)], nextpid := t.nextpid + 1,
       doing := t.doing[t.init := Forking(i)])
  }

  // The first entry that boot leaves unused.
  ghost predicate First(t: Table, i: nat)
  {
    Boot(t) && i < |t.ps| && t.ps[i].state == UNUSED && forall j: nat :: j < i ==> t.ps[j].state != UNUSED
  }

  // init runs.
  lemma InitRuns(t: Table, i: nat) returns (run: seq<Table>)
    requires First(t, i)
    ensures run == [t, With(t, i, t.ps[i])] && Run(run)
  {
    run := [t];
    Extended(run, With(t, i, t.ps[i]), t.init, 0);
    run := run + [With(t, i, t.ps[i])];
  }

  // From every boot: init runs, kills pid 0 and forks into the entry it hit.
  lemma ZeroKilled(t: Table, i: nat) returns (run: seq<Table>)
    requires First(t, i)
    ensures Run(run) && run[0] == t && |run| == 4 && AllocatedAt(run, 2, i)
    ensures i < |run[1].ps| && run[1].ps[i].pid == 0 && KilledAt(run, 1, i)
    ensures i < |run[3].ps| && run[3].ps[i].killed
  {
    run := InitRuns(t, i);
    var t2 := With(t, i, t.ps[i].(killed := true));
    assert Kill(run[1], t2, i);
    Extended(run, t2, i, 0);
    run := run + [t2];
    assert Allocproc(t2, Taken(t2, i), t.init, i);
    Extended(run, Taken(t2, i), t.init, i);
    run := run + [Taken(t2, i)];
  }

  // init runs and a fork of it fails.
  lemma ForkFailed(t: Table, i: nat) returns (run: seq<Table>)
    requires First(t, i)
    ensures Run(run) && run[0] == t && |run| == 4 && AbandonedAt(run, 2, i)
    ensures run[3] == With(t, i, t.ps[i].(pid := t.nextpid)).(nextpid := t.nextpid + 1)
  {
    run := InitRuns(t, i);
    var t2 := Taken(run[1], i);
    Extended(run, t2, t.init, i);
    run := run + [t2];
    var t3 := With(t, i, t.ps[i].(pid := t.nextpid)).(nextpid := t.nextpid + 1);
    assert t3.doing == t2.doing[t.init := Plain] && t3.ps == t2.ps[i := t2.ps[i].(state := UNUSED)];
    assert ForkFails(t2, t3, t.init) && t2.doing[t.init] == Forking(i);
    Extended(run, t3, t.init, 0);
    run := run + [t3];
  }

  // From every boot: init runs, a fork of it fails, init kills the pid that
  // fork had and forks again.
  lemma LeftKilled(t: Table, i: nat) returns (run: seq<Table>)
    requires First(t, i)
    ensures Run(run) && run[0] == t && |run| == 6 && AbandonedAt(run, 2, i) && AllocatedAt(run, 4, i)
    ensures i < |run[3].ps| && run[3].ps[i].pid == t.nextpid && KilledAt(run, 3, i)
    ensures i < |run[5].ps| && run[5].ps[i].killed
  {
    run := ForkFailed(t, i);
    var t4 := run[3].(ps := run[3].ps[i := run[3].ps[i].(killed := true)]);
    assert Kill(run[3], t4, i);
    Extended(run, t4, i, 0);
    run := run + [t4];
    assert Allocproc(t4, Taken(t4, i), t.init, i);
    Extended(run, Taken(t4, i), t.init, i);
    run := run + [Taken(t4, i)];
  }
}
