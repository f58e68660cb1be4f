/** The process table and what happens to it. */
module ProcTable {
  // Who is whose parent, who sleeps in wait, who has been reaped. Every
  // transition is what one section of the code does with ptable.lock held (or,
  // in fork, to its own new entry).

  import opened Options

  datatype ProcState = UNUSED | EMBRYO | SLEEPING | RUNNABLE | RUNNING | ZOMBIE

  /** What a process sleeps on: its own address, in wait, or something else. */
  datatype Chan = NoChan | Self(i: nat) | Elsewhere(n: nat)

  datatype Proc = Proc(state: ProcState, pid: int, parent: Option<nat>, chan: Chan, killed: bool)

  /** What else there is to know of a process: it is in fork, making an entry,
      or in wait, going to look for children again. */
  datatype Doing = Plain | Forking(child: nat) | Waiting

  /** The table, and by ghost: who is doing what, the pids that have exited
      with the entries they were in, and the pids wait has returned. */
  datatype Table = Table(ps: seq<Proc>, nextpid: int, init: nat, doing: seq<Doing>, exited: map<int, nat>,
      reaped: seq<int>)

  predicate Alive(p: Proc) { p.state == SLEEPING || p.state == RUNNABLE || p.state == RUNNING }

  predicate ChildOf(t: Table, j: nat, i: nat) { j < |t.ps| && t.ps[j].parent == Some(i) }

  // An entry makes sense on its own, given who its parent or its maker is.
  predicate EntryOk(t: Table, i: nat)
    requires |t.doing| == |t.ps|
  {
    i < |t.ps| ==>
      match t.ps[i].state
      case UNUSED => t.ps[i].parent == None
      case EMBRYO => t.ps[i].parent.Some? ==>
          t.ps[i].parent.value < |t.ps| && t.doing[t.ps[i].parent.value] == Forking(i)
      case _ => i != t.init ==>
          t.ps[i].parent.Some? && t.ps[i].parent.value < |t.ps| && t.ps[i].parent.value != i
              && Alive(t.ps[t.ps[i].parent.value])
  }

  predicate DoingOk(t: Table, i: nat)
    requires |t.doing| == |t.ps|
  {
    i < |t.ps| ==>
      && (t.doing[i] != Plain ==> Alive(t.ps[i]))
      && (t.doing[i].Forking? ==> t.doing[i].child < |t.ps| && t.ps[t.doing[i].child].state == EMBRYO)
  }

  // A process asleep in wait is there on its own account.
  predicate SleepOk(t: Table, i: nat)
    requires |t.doing| == |t.ps|
  {
    i < |t.ps| && t.ps[i].state == SLEEPING && t.ps[i].chan.Self? ==> t.ps[i].chan.i == i && t.doing[i] == Waiting
  }

  // No child of a process asleep in wait is a zombie.
  predicate WaitOk(t: Table, i: nat, j: nat)
  {
    i < |t.ps| && t.ps[i].state == SLEEPING && t.ps[i].chan == Self(i) && ChildOf(t, j, i) ==> t.ps[j].state != ZOMBIE
  }

  predicate PidOk(t: Table, i: nat)
  {
    i < |t.ps| && t.ps[i].state != UNUSED ==>
      && t.ps[i].pid < t.nextpid && t.ps[i].pid !in t.reaped
      && (t.ps[i].pid in t.exited <==> t.ps[i].state == ZOMBIE)
      && (t.ps[i].state == ZOMBIE ==> t.exited[t.ps[i].pid] == i)
  }

  predicate PidsApart(t: Table, i: nat, j: nat)
  {
    i < j < |t.ps| && t.ps[i].state != UNUSED && t.ps[j].state != UNUSED ==> t.ps[i].pid != t.ps[j].pid
  }

  predicate MakersApart(t: Table, i: nat, j: nat)
  {
    i < j < |t.doing| && t.doing[i].Forking? && t.doing[j].Forking? ==> t.doing[i].child != t.doing[j].child
  }

  // Every pid that has exited is a zombie's or has been reaped, once.
  ghost predicate ReapOk(t: Table)
  {
    && (forall pid: int :: pid in t.exited ==>
          pid < t.nextpid && (pid in t.reaped
              || (t.exited[pid] < |t.ps| && t.ps[t.exited[pid]].state == ZOMBIE && t.ps[t.exited[pid]].pid == pid)))
    && (forall pid: int :: pid in t.reaped ==> pid in t.exited)
    && (forall i, j :: 0 <= i < j < |t.reaped| ==> t.reaped[i] != t.reaped[j])
  }

  // The tree half of the invariant at one entry, and at one pair.
  predicate TreeAt(t: Table, i: nat, j: nat)
    requires |t.doing| == |t.ps|
  {
    EntryOk(t, i) && DoingOk(t, i) && SleepOk(t, i) && WaitOk(t, i, j) && MakersApart(t, i, j)
  }

  ghost predicate Tree(t: Table)
  {
    && |t.doing| == |t.ps| && t.init < |t.ps| && Alive(t.ps[t.init])
    && forall i: nat, j: nat :: TreeAt(t, i, j)
  }

  predicate PidsAt(t: Table, i: nat, j: nat) { PidOk(t, i) && PidsApart(t, i, j) }

  ghost predicate Pids(t: Table)
  {
    (forall i: nat, j: nat :: PidsAt(t, i, j)) && ReapOk(t)
  }

  ghost predicate Inv(t: Table) { Tree(t) && Pids(t) }

  // ---- transitions ----

  // wakeup1, entry by entry.
  function Wake(p: Proc, c: Chan): Proc
  {
    if p.state == SLEEPING && p.chan == c then p.(state := RUNNABLE) else p
  }

  // allocproc, called from fork by cur: the first unused entry.
  ghost predicate Allocproc(t: Table, t': Table, cur: nat, i: nat)
  {
    && cur < |t.ps| && |t.doing| == |t.ps| && t.ps[cur].state == RUNNING && t.doing[cur] == Plain
    && i < |t.ps| && t.ps[i].state == UNUSED && (forall j: nat :: j < i ==> t.ps[j].state != UNUSED)
    && t' == t.(ps := t.ps[i := t.ps[i].(state := EMBRYO, pid := t.nextpid)], nextpid := t.nextpid + 1,
        doing := t.doing[cur := Forking(i)])
  }

  // fork gives up: no kernel stack, or no memory for the copy.
  ghost predicate ForkFails(t: Table, t': Table, cur: nat)
  {
    && cur < |t.ps| && |t.doing| == |t.ps| && t.doing[cur].Forking? && t.doing[cur].child < |t.ps|
    && t.ps[t.doing[cur].child].parent == None
    && t' == t.(ps := t.ps[t.doing[cur].child := t.ps[t.doing[cur].child].(state := UNUSED)],
        doing := t.doing[cur := Plain])
  }

  // np->parent = curproc, without the lock.
  ghost predicate SetParent(t: Table, t': Table, cur: nat)
  {
    && cur < |t.ps| && |t.doing| == |t.ps| && t.doing[cur].Forking? && t.doing[cur].child < |t.ps|
    && t' == t.(ps := t.ps[t.doing[cur].child := t.ps[t.doing[cur].child].(parent := Some(cur))])
  }

  // np->state = RUNNABLE
  ghost predicate ForkDone(t: Table, t': Table, cur: nat)
  {
    && cur < |t.ps| && |t.doing| == |t.ps| && t.doing[cur].Forking? && t.doing[cur].child < |t.ps|
    && t.ps[t.doing[cur].child].parent == Some(cur)
    && t' == t.(ps := t.ps[t.doing[cur].child := t.ps[t.doing[cur].child].(state := RUNNABLE)],
        doing := t.doing[cur := Plain])
  }

  // What exit does to one entry: the exiting process's parent is woken, its
  // children go to init, init is woken if one of those is a zombie.
  function ExitEntry(t: Table, cur: nat, zombies: bool, j: nat): Proc
    requires j < |t.ps| && cur < |t.ps| && t.ps[cur].parent.Some?
  {
    var p := Wake(t.ps[j], Self(t.ps[cur].parent.value));
    var q := if p.parent == Some(cur) then p.(parent := Some(t.init)) else p;
    var r := if zombies then Wake(q, Self(t.init)) else q;
    if j == cur then r.(state := ZOMBIE) else r
  }

  ghost predicate HasZombie(t: Table, cur: nat)
  {
    exists j: nat :: ChildOf(t, j, cur) && t.ps[j].state == ZOMBIE
  }

  ghost predicate Exit(t: Table, t': Table, cur: nat)
  {
    && cur < |t.ps| && cur != t.init && |t.doing| == |t.ps| && t.ps[cur].state == RUNNING && t.doing[cur] == Plain
    && t.ps[cur].parent.Some? && |t'.ps| == |t.ps|
    && (forall j: nat :: j < |t.ps| ==> t'.ps[j] == ExitEntry(t, cur, HasZombie(t, cur), j))
    && t' == t.(ps := t'.ps, exited := t.exited[t.ps[cur].pid := cur])
  }

  // wait finds child i, the first zombie, and frees its entry.
  ghost predicate Reap(t: Table, t': Table, cur: nat, i: nat)
  {
    && cur < |t.ps| && |t.doing| == |t.ps| && t.ps[cur].state == RUNNING && !t.doing[cur].Forking?
    && i < |t.ps| && ChildOf(t, i, cur) && t.ps[i].state == ZOMBIE
    && (forall j: nat :: j < i && ChildOf(t, j, cur) ==> t.ps[j].state != ZOMBIE)
    && t' == t.(ps := t.ps[i := Proc(UNUSED, 0, None, t.ps[i].chan, false)], doing := t.doing[cur := Plain],
        reaped := t.reaped + [t.ps[i].pid])
  }

  // wait returns -1: there are no children, or the process was killed.
  ghost predicate WaitFails(t: Table, t': Table, cur: nat)
  {
    && cur < |t.ps| && |t.doing| == |t.ps| && t.ps[cur].state == RUNNING && !t.doing[cur].Forking?
    && (forall j: nat :: !(ChildOf(t, j, cur) && t.ps[j].state == ZOMBIE))
    && ((forall j: nat :: !ChildOf(t, j, cur)) || t.ps[cur].killed)
    && t' == t.(doing := t.doing[cur := Plain])
  }

  // wait goes to sleep on the process's own address.
  ghost predicate WaitSleeps(t: Table, t': Table, cur: nat)
  {
    && cur < |t.ps| && |t.doing| == |t.ps| && t.ps[cur].state == RUNNING && !t.doing[cur].Forking?
    && (forall j: nat :: !(ChildOf(t, j, cur) && t.ps[j].state == ZOMBIE))
    && (exists j: nat :: ChildOf(t, j, cur)) && !t.ps[cur].killed
    && t' == t.(ps := t.ps[cur := t.ps[cur].(state := SLEEPING, chan := Self(cur))], doing := t.doing[cur := Waiting])
  }

  // sleep from anywhere else.
  ghost predicate Sleeps(t: Table, t': Table, cur: nat, n: nat)
  {
    && cur < |t.ps| && |t.doing| == |t.ps| && t.ps[cur].state == RUNNING && t.doing[cur] == Plain
    && t' == t.(ps := t.ps[cur := t.ps[cur].(state := SLEEPING, chan := Elsewhere(n))])
  }

  ghost predicate Wakes(t: Table, t': Table, c: Chan)
  {
    && |t'.ps| == |t.ps| && (forall j: nat :: j < |t.ps| ==> t'.ps[j] == Wake(t.ps[j], c))
    && t' == t.(ps := t'.ps)
  }

  // kill marks the first entry with the pid, and wakes it if it sleeps.
  ghost predicate Kill(t: Table, t': Table, i: nat)
  {
    && i < |t.ps| && (forall j: nat :: j < i ==> t.ps[j].pid != t.ps[i].pid)
    && t' == t.(ps := t.ps[i := t.ps[i].(killed := true,
                                         state := if t.ps[i].state == SLEEPING then RUNNABLE else t.ps[i].state)])
  }

  // The scheduler picks i; back from sched, sleep clears the channel; yield.
  ghost predicate Runs(t: Table, t': Table, i: nat)
  {
    && i < |t.ps| && t.ps[i].state == RUNNABLE && t' == t.(ps := t.ps[i := t.ps[i].(state := RUNNING)])
  }

  ghost predicate Resumes(t: Table, t': Table, i: nat)
  {
    && i < |t.ps| && t.ps[i].state == RUNNING && t' == t.(ps := t.ps[i := t.ps[i].(chan := NoChan)])
  }

  ghost predicate Yields(t: Table, t': Table, i: nat)
  {
    && i < |t.ps| && t.ps[i].state == RUNNING && t' == t.(ps := t.ps[i := t.ps[i].(state := RUNNABLE)])
  }

  ghost predicate Step(t: Table, t': Table, i: nat, k: nat)
  {
    || Allocproc(t, t', i, k) || ForkFails(t, t', i) || SetParent(t, t', i) || ForkDone(t, t', i)
    || Exit(t, t', i) || Reap(t, t', i, k) || WaitFails(t, t', i) || WaitSleeps(t, t', i)
    || Sleeps(t, t', i, k) || Wakes(t, t', Elsewhere(k)) || Kill(t, t', i)
    || Runs(t, t', i) || Resumes(t, t', i) || Yields(t, t', i)
  }

  // ---- every transition keeps the invariant ----

  lemma ForkTree(t: Table, t': Table, cur: nat, k: nat)
    requires Tree(t) && (Allocproc(t, t', cur, k) || ForkFails(t, t', cur) || SetParent(t, t', cur)
             || ForkDone(t, t', cur))
    ensures Tree(t')
  {
    assert TreeAt(t, cur, cur);
    forall i: nat, j: nat ensures TreeAt(t', i, j) {
      assert TreeAt(t, i, j) && TreeAt(t, cur, i) && TreeAt(t, i, cur) && TreeAt(t, j, i);
      ForkTreeAt(t, t', cur, k, i, j);
    }
  }

  lemma ForkTreeAt(t: Table, t': Table, cur: nat, k: nat, i: nat, j: nat)
    requires Allocproc(t, t', cur, k) || ForkFails(t, t', cur) || SetParent(t, t', cur) || ForkDone(t, t', cur)
    requires |t.doing| == |t.ps| && TreeAt(t, cur, cur) && TreeAt(t, i, j) && TreeAt(t, cur, i) && TreeAt(t, i, cur)
             && TreeAt(t, j, i)
    ensures |t'.doing| == |t'.ps| && TreeAt(t', i, j)
  {
    if Allocproc(t, t', cur, k) {
    } else if ForkFails(t, t', cur) {
    } else if SetParent(t, t', cur) {
    } else {
    }
  }

  lemma ExitTree(t: Table, t': Table, cur: nat)
    requires Tree(t) && Exit(t, t', cur)
    ensures Tree(t')
  {
    hide TreeAt, ExitEntry;
    assert TreeAt(t, cur, cur);
    forall i: nat, j: nat ensures TreeAt(t', i, j) {
      assert TreeAt(t, i, j) && TreeAt(t, cur, i) && TreeAt(t, i, cur);
      ExitTreeAt(t, t', cur, i, j);
    }
    assert Alive(t'.ps[t.init]) by { ExitAlive(t, t', cur, t.init); }
  }

  lemma ExitAlive(t: Table, t': Table, cur: nat, i: nat)
    requires Exit(t, t', cur) && i < |t.ps|
    ensures Alive(t'.ps[i]) <==> Alive(t.ps[i]) && i != cur
  {
    assert t'.ps[i] == ExitEntry(t, cur, HasZombie(t, cur), i);
  }

  lemma ExitTreeAt(t: Table, t': Table, cur: nat, i: nat, j: nat)
    requires Exit(t, t', cur) && |t.doing| == |t.ps| && t.init < |t.ps| && Alive(t.ps[t.init])
    requires TreeAt(t, i, j) && TreeAt(t, cur, i) && TreeAt(t, i, cur) && TreeAt(t, cur, cur)
    ensures TreeAt(t', i, j)
  {
    hide HasZombie;
    if i < |t.ps| {
      assert t'.ps[i] == ExitEntry(t, cur, HasZombie(t, cur), i);
      if t.ps[i].parent.Some? && t.ps[i].parent.value < |t.ps| { ExitAlive(t, t', cur, t.ps[i].parent.value); }
      if t.doing[i].Forking? {
        assert t'.ps[t.doing[i].child] == ExitEntry(t, cur, HasZombie(t, cur), t.doing[i].child);
      }
      ExitAlive(t, t', cur, t.init);
      assert EntryOk(t', i) && DoingOk(t', i) && SleepOk(t', i) && MakersApart(t', i, j);
      assert WaitOk(t', i, j) by { ExitWait(t, t', cur, i, j); }
    }
  }

  lemma ExitWait(t: Table, t': Table, cur: nat, i: nat, j: nat)
    requires Exit(t, t', cur) && |t.doing| == |t.ps| && i < |t.ps| && EntryOk(t, cur) && WaitOk(t, i, j)
    ensures WaitOk(t', i, j)
  {
    if j < |t.ps| {
      assert t'.ps[i] == ExitEntry(t, cur, HasZombie(t, cur), i) && t'.ps[j] == ExitEntry(t, cur, HasZombie(t, cur), j);
      assert ChildOf(t, j, cur) && t.ps[j].state == ZOMBIE ==> HasZombie(t, cur);
      if j == cur { } else if t.ps[j].parent == Some(cur) { } else { }
    }
  }

  lemma WaitTree(t: Table, t': Table, cur: nat, k: nat)
    requires Tree(t) && (Reap(t, t', cur, k) || WaitFails(t, t', cur) || WaitSleeps(t, t', cur))
    ensures Tree(t')
  {
    hide TreeAt;
    assert TreeAt(t, cur, k) && TreeAt(t, k, cur);
    forall i: nat, j: nat ensures TreeAt(t', i, j) {
      assert TreeAt(t, i, j) && TreeAt(t, k, i) && TreeAt(t, j, i);
      if Reap(t, t', cur, k) { ReapTreeAt(t, t', cur, k, i, j); } else { WaitTreeAt(t, t', cur, k, i, j); }
    }
    assert Reap(t, t', cur, k) ==> k != t.init && t.ps[k].state == ZOMBIE;
  }

  lemma ReapTreeAt(t: Table, t': Table, cur: nat, k: nat, i: nat, j: nat)
    requires Reap(t, t', cur, k) && TreeAt(t, cur, k) && TreeAt(t, k, cur) && TreeAt(t, i, j) && TreeAt(t, k, i)
             && TreeAt(t, j, i)
    ensures |t'.doing| == |t'.ps| && TreeAt(t', i, j)
  {
  }

  lemma WaitTreeAt(t: Table, t': Table, cur: nat, k: nat, i: nat, j: nat)
    requires WaitFails(t, t', cur) || WaitSleeps(t, t', cur)
    requires TreeAt(t, cur, k) && TreeAt(t, k, cur) && TreeAt(t, i, j) && TreeAt(t, k, i) && TreeAt(t, j, i)
    ensures |t'.doing| == |t'.ps| && TreeAt(t', i, j)
  {
    assert !(ChildOf(t, j, cur) && t.ps[j].state == ZOMBIE);
  }

  lemma OtherTree(t: Table, t': Table, i: nat, k: nat)
    requires Tree(t)
    requires Sleeps(t, t', i, k) || Wakes(t, t', Elsewhere(k)) || Kill(t, t', i) || Runs(t, t', i)
             || Resumes(t, t', i) || Yields(t, t', i)
    ensures Tree(t')
  {
    assert TreeAt(t, i, i);
    forall a: nat, b: nat ensures TreeAt(t', a, b) {
      assert TreeAt(t, a, b);
      if Sleeps(t, t', i, k) {
        SleepsTreeAt(t, t', i, k, a, b);
      } else if Wakes(t, t', Elsewhere(k)) {
        WakesTreeAt(t, t', i, k, a, b);
      } else if Kill(t, t', i) {
        KillTreeAt(t, t', i, k, a, b);
      } else {
        RunsTreeAt(t, t', i, k, a, b);
      }
    }
  }

  lemma SleepsTreeAt(t: Table, t': Table, i: nat, k: nat, a: nat, b: nat)
    requires |t.doing| == |t.ps| && TreeAt(t, i, i) && TreeAt(t, a, b) && Sleeps(t, t', i, k)
    ensures |t'.doing| == |t'.ps| && TreeAt(t', a, b)
  {
  }

  lemma WakesTreeAt(t: Table, t': Table, i: nat, k: nat, a: nat, b: nat)
    requires |t.doing| == |t.ps| && TreeAt(t, i, i) && TreeAt(t, a, b) && Wakes(t, t', Elsewhere(k))
    ensures |t'.doing| == |t'.ps| && TreeAt(t', a, b)
  {
  }

  lemma KillTreeAt(t: Table, t': Table, i: nat, k: nat, a: nat, b: nat)
    requires |t.doing| == |t.ps| && TreeAt(t, i, i) && TreeAt(t, a, b) && Kill(t, t', i)
    ensures |t'.doing| == |t'.ps| && TreeAt(t', a, b)
  {
  }

  lemma RunsTreeAt(t: Table, t': Table, i: nat, k: nat, a: nat, b: nat)
    requires |t.doing| == |t.ps| && TreeAt(t, i, i) && TreeAt(t, a, b)
             && (Runs(t, t', i) || Resumes(t, t', i) || Yields(t, t', i))
    ensures |t'.doing| == |t'.ps| && TreeAt(t', a, b)
  {
  }

  lemma StepTree(t: Table, t': Table, i: nat, k: nat)
    requires Tree(t) && Step(t, t', i, k)
    ensures Tree(t')
  {
    hide Tree, Allocproc, ForkFails, SetParent, ForkDone, Exit, Reap, WaitFails, WaitSleeps, Sleeps, Wakes, Kill,
        Runs, Resumes, Yields;
    if Exit(t, t', i) {
      ExitTree(t, t', i);
    } else if Reap(t, t', i, k) || WaitFails(t, t', i) || WaitSleeps(t, t', i) {
      WaitTree(t, t', i, k);
    } else if Allocproc(t, t', i, k) || ForkFails(t, t', i) || SetParent(t, t', i) || ForkDone(t, t', i) {
      ForkTree(t, t', i, k);
    } else {
      OtherTree(t, t', i, k);
    }
  }

  // Which entries a step changes in state or pid, apart from the exits and
  // the reaping, does not matter to the pids.
  lemma SamePids(t: Table, t': Table)
    requires Pids(t) && |t'.ps| == |t.ps| && t'.nextpid == t.nextpid && t'.exited == t.exited && t'.reaped == t.reaped
    requires forall j: nat :: j < |t.ps| ==> SamePid(t.ps[j], t'.ps[j])
    ensures Pids(t')
  {
    forall i: nat, j: nat ensures PidsAt(t', i, j) {
      assert PidsAt(t, i, j);
      assert i < |t.ps| ==> SamePid(t.ps[i], t'.ps[i]);
      assert j < |t.ps| ==> SamePid(t.ps[j], t'.ps[j]);
    }
    forall pid: int | pid in t'.exited ensures pid in t.reaped
        || (t.exited[pid] < |t.ps| && t'.ps[t.exited[pid]].state == ZOMBIE && t'.ps[t.exited[pid]].pid == pid) {
      assert pid in t.exited;
    }
  }

  predicate SamePid(p: Proc, q: Proc)
  {
    (q.state == UNUSED || (p.state != UNUSED && q.pid == p.pid)) && (p.state == ZOMBIE <==> q.state == ZOMBIE)
  }

  lemma AllocPids(t: Table, t': Table, cur: nat, k: nat)
    requires Pids(t) && Allocproc(t, t', cur, k)
    ensures Pids(t')
  {
    forall i: nat, j: nat ensures PidsAt(t', i, j) { assert PidsAt(t, i, j) && PidsAt(t, j, i) && PidsAt(t, k, i); }
  }

  lemma ExitPids(t: Table, t': Table, cur: nat)
    requires Tree(t) && Pids(t) && Exit(t, t', cur)
    ensures Pids(t')
  {
    assert PidsAt(t, cur, cur);
    forall i: nat, j: nat ensures PidsAt(t', i, j) { assert PidsAt(t, i, j) && PidsAt(t, cur, i) && PidsAt(t, i, cur); }
    forall pid: int | pid in t'.exited ensures pid < t.nextpid && (pid in t.reaped
        || (t'.exited[pid] < |t.ps| && t'.ps[t'.exited[pid]].state == ZOMBIE && t'.ps[t'.exited[pid]].pid == pid)) {
      assert pid == t.ps[cur].pid || pid in t.exited;
    }
  }

  lemma ReapPids(t: Table, t': Table, cur: nat, k: nat)
    requires Pids(t) && Reap(t, t', cur, k)
    ensures Pids(t')
  {
    assert PidsAt(t, k, k);
    forall i: nat, j: nat ensures PidsAt(t', i, j) { assert PidsAt(t, i, j) && PidsAt(t, k, i) && PidsAt(t, i, k); }
    forall pid: int | pid in t'.exited ensures pid < t.nextpid && (pid in t'.reaped
        || (t'.exited[pid] < |t.ps| && t'.ps[t'.exited[pid]].state == ZOMBIE && t'.ps[t'.exited[pid]].pid == pid)) {
      assert pid in t.exited;
    }
  }

  lemma StepPids(t: Table, t': Table, i: nat, k: nat)
    requires Tree(t) && Pids(t) && Step(t, t', i, k)
    ensures Pids(t')
  {
    if Exit(t, t', i) {
      ExitPids(t, t', i);
    } else if Reap(t, t', i, k) {
      ReapPids(t, t', i, k);
    } else if Allocproc(t, t', i, k) {
      AllocPids(t, t', i, k);
    } else {
      assert TreeAt(t, i, i);
      SamePids(t, t');
    }
  }

  lemma StepInv(t: Table, t': Table, i: nat, k: nat)
    requires Inv(t) && Step(t, t', i, k)
    ensures Inv(t')
  {
    hide Tree, Pids, Step;
    StepTree(t, t', i, k);
    StepPids(t, t', i, k);
  }

  // ---- runs ----

  ghost predicate SomeStep(t: Table, t': Table) { exists i, k :: Step(t, t', i, k) }

  // The table after userinit: init runnable, every other entry all zeroes.
  ghost predicate Boot(t: Table)
  {
    && |t.doing| == |t.ps| && t.init < |t.ps| && t.ps[t.init].state == RUNNABLE && t.ps[t.init].parent == None
    && 0 < t.ps[t.init].pid < t.nextpid && !t.ps[t.init].killed && t.exited == map[] && t.reaped == []
    && (forall j: nat :: j < |t.ps| ==> t.doing[j] == Plain)
    && (forall j: nat :: j < |t.ps| && j != t.init ==> t.ps[j] == Proc(UNUSED, 0, None, NoChan, false))
  }

  ghost predicate Run(run: seq<Table>)
  {
    && 0 < |run| && Boot(run[0])
    && forall k: nat, k': nat :: k' == k + 1 < |run| ==> SomeStep(run[k], run[k'])
  }

  lemma {:induction false} RunInv(run: seq<Table>, n: nat)
    requires Run(run) && n < |run|
    ensures Inv(run[n])
  {
    if n != 0 {
      RunInv(run, n - 1);
      assert SomeStep(run[n - 1], run[n]);
      var i, k :| Step(run[n - 1], run[n], i, k);
      StepInv(run[n - 1], run[n], i, k);
    }
  }

  // Over every run: a process that lives or is a zombie, init apart, has a
  // living parent.
  lemma NoOrphans(run: seq<Table>, n: nat, i: nat)
    requires Run(run) && n < |run| && i < |run[n].ps| && i != run[n].init
    requires Alive(run[n].ps[i]) || run[n].ps[i].state == ZOMBIE
    ensures run[n].ps[i].parent.Some? && run[n].ps[i].parent.value < |run[n].ps|
    ensures Alive(run[n].ps[run[n].ps[i].parent.value])
  {
    RunInv(run, n);
    assert TreeAt(run[n], i, i);
  }

  // Over every run: nobody sleeps in wait while a child of his is a zombie.
  lemma NoMissedExit(run: seq<Table>, n: nat, i: nat, j: nat)
    requires Run(run) && n < |run| && i < |run[n].ps| && run[n].ps[i].state == SLEEPING && run[n].ps[i].chan.Self?
    ensures run[n].ps[i].chan.i == i
    ensures ChildOf(run[n], j, i) ==> run[n].ps[j].state != ZOMBIE
  {
    RunInv(run, n);
    assert TreeAt(run[n], i, j);
  }

  // Over every run: wait has returned no pid twice, only pids that exited,
  // and a pid that exited and was not returned is still a zombie's.
  lemma ReapedOnce(run: seq<Table>, n: nat, pid: int)
    requires Run(run) && n < |run|
    ensures forall i, j :: 0 <= i < j < |run[n].reaped| ==> run[n].reaped[i] != run[n].reaped[j]
    ensures pid in run[n].reaped ==> pid in run[n].exited
    ensures pid in run[n].exited && pid !in run[n].reaped ==>
      run[n].exited[pid] < |run[n].ps| && run[n].ps[run[n].exited[pid]].state == ZOMBIE
          && run[n].ps[run[n].exited[pid]].pid == pid
  {
    RunInv(run, n);
  }
}
