/** The life of a process. */
module ProcLife {
  // The states of a process over every run of the process table, and what kill,
  // wakeup, wait and exit do to them.

  import opened Options
  import opened ProcTable
  import opened ProcKill

  // ---- from state to state ----

  predicate Lives(s: ProcState, s': ProcState)
  {
    match s
    case UNUSED => s' == UNUSED || s' == EMBRYO
    case EMBRYO => s' == EMBRYO || s' == RUNNABLE || s' == UNUSED
    case RUNNABLE => s' == RUNNABLE || s' == RUNNING
    case RUNNING => s' == RUNNING || s' == RUNNABLE || s' == SLEEPING || s' == ZOMBIE
    case SLEEPING => s' == SLEEPING || s' == RUNNABLE
    case ZOMBIE => s' == ZOMBIE || s' == UNUSED
  }

  // Asleep in wait, and marked.
  predicate Deaf(p: Proc) { p.state == SLEEPING && p.chan.Self? && p.killed }

  // What one step does to one entry.
  ghost predicate Sound(t: Table, t': Table, i: nat)
  {
    i < |t.ps| == |t'.ps| ==>
      && Lives(t.ps[i].state, t'.ps[i].state) && (!Deaf(t.ps[i]) ==> !Deaf(t'.ps[i]))
      && (t.ps[i].state == EMBRYO && t'.ps[i].state == RUNNABLE ==>
          && t.ps[i].parent.Some? && t.ps[i].parent.value < |t.doing| && t.doing[t.ps[i].parent.value] == Forking(i)
          && t'.ps[i] == t.ps[i].(state := RUNNABLE))
  }

  lemma StepSound(t: Table, t': Table, a: nat, k: nat, i: nat)
    requires Tree(t) && Step(t, t', a, k)
    ensures Sound(t, t', i)
  {
    hide Sound, Tree, Allocproc, ForkFails, SetParent, ForkDone, Exit, Reap, WaitFails, WaitSleeps, Sleeps, Wakes,
        Kill, Runs, Resumes, Yields;
    if Allocproc(t, t', a, k) || ForkFails(t, t', a) || SetParent(t, t', a) || ForkDone(t, t', a) {
      ForkSound(t, t', a, k, i);
    } else if Exit(t, t', a) || Wakes(t, t', Elsewhere(k)) {
      WakeSound(t, t', a, k, i);
    } else if Reap(t, t', a, k) || WaitFails(t, t', a) || WaitSleeps(t, t', a) || Kill(t, t', a) {
      WaitSound(t, t', a, k, i);
    } else {
      RunSound(t, t', a, k, i);
    }
  }

  lemma ForkSound(t: Table, t': Table, a: nat, k: nat, i: nat)
    requires Tree(t)
    requires Allocproc(t, t', a, k) || ForkFails(t, t', a) || SetParent(t, t', a) || ForkDone(t, t', a)
    ensures Sound(t, t', i)
  {
    assert TreeAt(t, a, a);
  }

  lemma WakeSound(t: Table, t': Table, a: nat, k: nat, i: nat)
    requires Tree(t) && (Exit(t, t', a) || Wakes(t, t', Elsewhere(k)))
    ensures Sound(t, t', i)
  {
    hide HasZombie;
    assert TreeAt(t, i, i);
    if Exit(t, t', a) && i < |t.ps| { assert t'.ps[i] == ExitEntry(t, a, HasZombie(t, a), i); }
  }

  lemma WaitSound(t: Table, t': Table, a: nat, k: nat, i: nat)
    requires Reap(t, t', a, k) || WaitFails(t, t', a) || WaitSleeps(t, t', a) || Kill(t, t', a)
    ensures Sound(t, t', i)
  {
  }

  lemma RunSound(t: Table, t': Table, a: nat, k: nat, i: nat)
    requires Sleeps(t, t', a, k) || Runs(t, t', a) || Resumes(t, t', a) || Yields(t, t', a)
    ensures Sound(t, t', i)
  {
  }

  // Over every run: the states an entry goes through, and that fork hands its
  // child over runnable, as the child of the process that makes it.
  lemma LifeCycle(run: seq<Table>, n: nat, i: nat)
    requires Run(run) && n + 1 < |run| && i < |run[n].ps|
    ensures |run[n + 1].ps| == |run[n].ps|
    ensures var s, s' := run[n].ps[i].state, run[n + 1].ps[i].state;
      match s
      case UNUSED => s' == UNUSED || s' == EMBRYO
      case EMBRYO => s' == EMBRYO || s' == RUNNABLE || s' == UNUSED
      case RUNNABLE => s' == RUNNABLE || s' == RUNNING
      case RUNNING => s' == RUNNING || s' == RUNNABLE || s' == SLEEPING || s' == ZOMBIE
      case SLEEPING => s' == SLEEPING || s' == RUNNABLE
      case ZOMBIE => s' == ZOMBIE || s' == UNUSED
    ensures run[n].ps[i].state == EMBRYO && run[n + 1].ps[i].state == RUNNABLE ==>
      && run[n].ps[i].parent.Some? && run[n].ps[i].parent.value < |run[n].doing|
      && run[n].doing[run[n].ps[i].parent.value] == Forking(i)
      && run[n + 1].ps[i] == run[n].ps[i].(state := RUNNABLE)
  {
    hide Run, Step, Tree;
    var a, k := StepOf(run, n);
    SizeStep(run[n], run[n + 1], a, k);
    StepSound(run[n], run[n + 1], a, k, i);
  }

  // ---- kill and wait ----

  // Over every run nobody sleeps in wait while marked as killed.
  lemma {:induction false} NoDeafSleeper(run: seq<Table>, n: nat, i: nat)
    requires Run(run) && n < |run| && i < |run[n].ps|
    ensures run[n].ps[i].state == SLEEPING && run[n].ps[i].chan.Self? ==> !run[n].ps[i].killed
  {
    hide Run, Step, Tree;
    if n == 0 {
      BootAwake(run, i);
    } else {
      var a, k := StepOf(run, n - 1);
      SizeStep(run[n - 1], run[n], a, k);
      NoDeafSleeper(run, n - 1, i);
      StepSound(run[n - 1], run[n], a, k, i);
    }
  }

  lemma BootAwake(run: seq<Table>, i: nat)
    requires Run(run) && i < |run[0].ps|
    ensures run[0].ps[i].state != SLEEPING
  {
  }

  // The entry a kill hits is marked and does not sleep, whatever it slept on;
  // nobody else notices.
  lemma KillWakes(t: Table, t': Table, i: nat)
    requires Kill(t, t', i)
    ensures i < |t.ps| == |t'.ps| && t'.ps[i].killed && t'.ps[i].state != SLEEPING
    ensures t.ps[i].state != SLEEPING ==> t'.ps[i].state == t.ps[i].state
    ensures t'.ps[i].pid == t.ps[i].pid && t'.ps[i].parent == t.ps[i].parent
    ensures forall j: nat :: j < |t.ps| && j != i ==> t'.ps[j] == t.ps[j]
  {
  }

  // wakeup on a channel leaves nobody asleep on it, and nothing else changed.
  lemma WakeupWakes(t: Table, t': Table, c: Chan, j: nat)
    requires Wakes(t, t', c) && j < |t.ps|
    ensures |t'.ps| == |t.ps| && !(t'.ps[j].state == SLEEPING && t'.ps[j].chan == c)
    ensures t.ps[j].state == SLEEPING && t.ps[j].chan == c ==> t'.ps[j] == t.ps[j].(state := RUNNABLE)
    ensures !(t.ps[j].state == SLEEPING && t.ps[j].chan == c) ==> t'.ps[j] == t.ps[j]
  {
  }

  // wait comes back with -1 only for a process without children or marked, and
  // sleeps only for one that has living children and is not.
  lemma WaitReturns(t: Table, t': Table, cur: nat)
    ensures WaitFails(t, t', cur) ==>
      && cur < |t.ps| && t'.ps == t.ps
      && (t.ps[cur].killed || forall j: nat :: j < |t.ps| ==> t.ps[j].parent != Some(cur))
    ensures WaitSleeps(t, t', cur) ==>
      && cur < |t.ps| == |t'.ps| && !t.ps[cur].killed && t'.ps[cur].state == SLEEPING && t'.ps[cur].chan == Self(cur)
      && (forall j: nat :: j < |t.ps| && t.ps[j].parent == Some(cur) ==> t.ps[j].state != ZOMBIE)
      && exists j: nat :: j < |t.ps| && t.ps[j].parent == Some(cur)
  {
    assert forall j: nat :: ChildOf(t, j, cur) <==> j < |t.ps| && t.ps[j].parent == Some(cur);
  }

  // exit leaves a zombie, hands its children to init, wakes its parent, and
  // init for a child that is a zombie already; nobody else changes state.
  lemma ExitReturns(t: Table, t': Table, cur: nat, j: nat)
    requires Exit(t, t', cur) && j < |t.ps|
    ensures t.ps[cur].parent.Some? && |t'.ps| == |t.ps| && t'.ps[cur].state == ZOMBIE && t'.ps[j].pid == t.ps[j].pid
    ensures t'.ps[j].parent == if t.ps[j].parent == Some(cur) then Some(t.init) else t.ps[j].parent
    ensures j != cur && t'.ps[j].state != t.ps[j].state ==>
      && t.ps[j].state == SLEEPING && t'.ps[j].state == RUNNABLE
      && (t.ps[j].chan == Self(t.ps[cur].parent.value) || t.ps[j].chan == Self(t.init))
    ensures t'.ps[j].state == SLEEPING ==> t'.ps[j].chan == t.ps[j].chan != Self(t.ps[cur].parent.value)
    ensures t'.ps[j].state == SLEEPING && t'.ps[j].chan == Self(t.init) ==>
      forall k: nat :: k < |t.ps| && t.ps[k].parent == Some(cur) ==> t.ps[k].state != ZOMBIE
  {
    assert t'.ps[j] == ExitEntry(t, cur, HasZombie(t, cur), j);
    assert t'.ps[cur] == ExitEntry(t, cur, HasZombie(t, cur), cur);
    if k: nat :| k < |t.ps| && t.ps[k].parent == Some(cur) && t.ps[k].state == ZOMBIE { assert ChildOf(t, k, cur); }
  }
}
