/** Data shared under a spinlock, with sleep and wakeup. */
module Monitor {
  // sleep is not atomic: it takes ptable.lock, gives up the caller's lock,
  // marks the process and only then gives up ptable.lock. The rules below are
  // those of the process table. Of the data they know only on which channels
  // it tells a process to wait.

  import opened Options

  /** Where a process is. Only Asleep is the SLEEPING state. */
  datatype Phase<C> =
    | Out            // elsewhere
    | Want           // spinning for the lock
    | In             // holding the lock
    | Handing(c: C)  // in sleep, spinning for ptable.lock
    | Handed(c: C)   // in sleep, holding both locks
    | Resting(c: C)  // in sleep, holding ptable.lock, the lock released
    | Asleep(c: C)   // SLEEPING on c
    | Runnable       // made RUNNABLE again
    | Rising         // scheduled, still holding ptable.lock
    | Waking(c: C)   // in wakeup, spinning for ptable.lock
    | Scanning(c: C) // in wakeup, holding both locks

  /** The two locks, the channels to wait on, the processes. owed are the channels whose
      sleepers have something to be woken for; lost are those the lock was
      ever released with. */
  datatype Mon<C(==)> = Mon(lk: Option<nat>, pl: Option<nat>, waits: set<C>, ps: seq<Phase<C>>, owed: set<C>,
      lost: set<C>)

  // As many processes, all in the same place.
  function Fill<T>(n: nat, x: T): (s: seq<T>)
    ensures |s| == n && forall i :: 0 <= i < n ==> s[i] == x
  {
    if n == 0 then [] else Fill(n - 1, x) + [x]
  }

  predicate HoldsLk<C>(p: Phase<C>) { p.In? || p.Handing? || p.Handed? || p.Waking? || p.Scanning? }
  predicate HoldsPl<C>(p: Phase<C>) { p.Handed? || p.Resting? || p.Rising? || p.Scanning? }

  // Process i goes from one phase to another; the locks follow.
  function Moved<C>(s: Mon<C>, i: nat, p: Phase<C>): Mon<C>
    requires i < |s.ps|
  {
    Mon(if HoldsLk(p) then Some(i) else if HoldsLk(s.ps[i]) then None else s.lk,
        if HoldsPl(p) then Some(i) else if HoldsPl(s.ps[i]) then None else s.pl,
        s.waits, s.ps[i := p], s.owed, s.lost)
  }

  // A lock that is to be taken is free or already ours.
  predicate CanMove<C>(s: Mon<C>, i: nat, p: Phase<C>)
  {
    && i < |s.ps|
    && (HoldsLk(p) && !HoldsLk(s.ps[i]) ==> s.lk == None)
    && (HoldsPl(p) && !HoldsPl(s.ps[i]) ==> s.pl == None)
  }

  // Moves that touch nothing but locks.
  predicate PlainMove<C(==)>(p: Phase<C>, q: Phase<C>)
  {
    || (p.Out? && q.Want?)
    || (p.Want? && q.In?)
    || (p.In? && q.Waking?)
    || (p.Waking? && q == Scanning(p.c))
    || (p.Handing? && q == Handed(p.c))
    || (p.Handed? && q == Resting(p.c))
    || (p.Resting? && q == Asleep(p.c))
    || (p.Runnable? && q.Rising?)
    || (p.Rising? && q.Want?)
  }

  ghost predicate Plain<C>(s: Mon<C>, s': Mon<C>, i: nat, p: Phase<C>)
  {
    CanMove(s, i, p) && PlainMove(s.ps[i], p) && s' == Moved(s, i, p)
  }

  // The holder of the lock changes the data; channels whose sleepers no
  // longer have to wait are owed a wakeup.
  ghost predicate Work<C(!new)>(s: Mon<C>, s': Mon<C>, i: nat)
  {
    && i < |s.ps| && s.ps[i].In?
    && s' == s.(waits := s'.waits, owed := s'.owed)
    && s.owed <= s'.owed && s.waits - s'.waits <= s'.owed
  }

  function WakeOne<C(==)>(p: Phase<C>, c: C): Phase<C> { if p == Asleep(c) then Runnable else p }

  // wakeup1, and the release of ptable.lock.
  ghost predicate Wake<C>(s: Mon<C>, s': Mon<C>, i: nat)
  {
    && i < |s.ps| && s.ps[i].Scanning? && |s'.ps| == |s.ps|
    && (forall j: nat :: j < |s.ps| ==> s'.ps[j] == if j == i then In else WakeOne(s.ps[j], s.ps[i].c))
    && s' == Mon(s.lk, None, s.waits, s'.ps, s.owed - {s.ps[i].c}, s.lost)
  }

  // The lock is released; what is still owed is lost.
  ghost predicate Leave<C>(s: Mon<C>, s': Mon<C>, i: nat)
  {
    && i < |s.ps| && s.ps[i].In?
    && s' == Moved(s, i, Out).(owed := {}, lost := s.lost + s.owed)
  }

  // sleep is called, by a process that has to wait and owes nobody a wakeup.
  ghost predicate Sleep<C>(s: Mon<C>, s': Mon<C>, i: nat, c: C)
  {
    && i < |s.ps| && s.ps[i].In? && c in s.waits && s.owed == {}
    && s' == Moved(s, i, Handing(c))
  }

  // kill makes a sleeper runnable whatever it sleeps on.
  ghost predicate Kill<C>(s: Mon<C>, s': Mon<C>, i: nat)
  {
    && i < |s.ps| && s.ps[i].Asleep? && s.pl == None
    && s' == Moved(s, i, Runnable)
  }

  ghost predicate Next<C(!new)>(s: Mon<C>, s': Mon<C>, i: nat)
  {
    || (exists p :: Plain(s, s', i, p))
    || Work(s, s', i)
    || Wake(s, s', i)
    || Leave(s, s', i)
    || (exists c :: Sleep(s, s', i, c))
    || Kill(s, s', i)
  }

  // The locks are held by the processes that say so, and a sleeper, or one
  // that has let go of the lock to sleep, has to wait unless a wakeup is on
  // its way or was lost.
  predicate PhaseOk<C(==)>(s: Mon<C>, i: nat)
  {
    i < |s.ps| ==>
      && (HoldsLk(s.ps[i]) <==> s.lk == Some(i))
      && (HoldsPl(s.ps[i]) <==> s.pl == Some(i))
      && (s.ps[i].Handing? || s.ps[i].Handed? ==> s.ps[i].c in s.waits && s.owed == {})
      && (s.ps[i].Resting? || s.ps[i].Asleep? ==> s.ps[i].c in s.waits || s.ps[i].c in s.owed || s.ps[i].c in s.lost)
  }

  ghost predicate Inv<C>(s: Mon<C>)
  {
    && (s.lk == None ==> s.owed == {})
    && (s.lk.Some? ==> s.lk.value < |s.ps|) && (s.pl.Some? ==> s.pl.value < |s.ps|)
    && forall i: nat :: PhaseOk(s, i)
  }

  lemma MovedInv<C>(s: Mon<C>, s': Mon<C>, i: nat, p: Phase<C>)
    requires Inv(s) && Plain(s, s', i, p)
    ensures Inv(s')
  {
    assert PhaseOk(s, i);
    forall j: nat ensures PhaseOk(s', j) { assert PhaseOk(s, j); }
  }

  lemma WorkInv<C(!new)>(s: Mon<C>, s': Mon<C>, i: nat)
    requires Inv(s) && Work(s, s', i)
    ensures Inv(s')
  {
    assert PhaseOk(s, i);
    forall j: nat ensures PhaseOk(s', j) { assert PhaseOk(s, j); }
  }

  lemma WakeInv<C>(s: Mon<C>, s': Mon<C>, i: nat)
    requires Inv(s) && Wake(s, s', i)
    ensures Inv(s')
  {
    assert PhaseOk(s, i);
    forall j: nat ensures PhaseOk(s', j) { assert PhaseOk(s, j); }
  }

  lemma LeaveInv<C>(s: Mon<C>, s': Mon<C>, i: nat)
    requires Inv(s) && Leave(s, s', i)
    ensures Inv(s')
  {
    assert PhaseOk(s, i);
    forall j: nat ensures PhaseOk(s', j) { assert PhaseOk(s, j); }
  }

  lemma SleepInv<C>(s: Mon<C>, s': Mon<C>, i: nat, c: C)
    requires Inv(s) && Sleep(s, s', i, c)
    ensures Inv(s')
  {
    assert PhaseOk(s, i);
    forall j: nat ensures PhaseOk(s', j) { assert PhaseOk(s, j); }
  }

  lemma KillInv<C>(s: Mon<C>, s': Mon<C>, i: nat)
    requires Inv(s) && Kill(s, s', i)
    ensures Inv(s')
  {
    assert PhaseOk(s, i);
    forall j: nat ensures PhaseOk(s', j) { assert PhaseOk(s, j); }
  }

  // Every step keeps the invariant.
  lemma NextInv<C(!new)>(s: Mon<C>, s': Mon<C>, i: nat)
    requires Inv(s) && Next(s, s', i)
    ensures Inv(s')
  {
    if Work(s, s', i) {
      WorkInv(s, s', i);
    } else if Wake(s, s', i) {
      WakeInv(s, s', i);
    } else if Leave(s, s', i) {
      LeaveInv(s, s', i);
    } else if Kill(s, s', i) {
      KillInv(s, s', i);
    } else if p :| Plain(s, s', i, p) {
      MovedInv(s, s', i, p);
    } else {
      var c :| Sleep(s, s', i, c);
      SleepInv(s, s', i, c);
    }
  }

  // No lost wakeup: when nobody holds the lock, every sleeper has to wait,
  // unless its channel is one whose wakeup was lost.
  lemma NoLostWakeup<C>(s: Mon<C>, i: nat)
    requires Inv(s) && s.lk == None && i < |s.ps| && s.ps[i].Asleep?
    ensures s.ps[i].c in s.waits || s.ps[i].c in s.lost
  {
    assert PhaseOk(s, i);
  }

  // The lock excludes.
  lemma Exclusive<C>(s: Mon<C>, i: nat, j: nat)
    requires Inv(s) && i < |s.ps| && j < |s.ps| && HoldsLk(s.ps[i]) && HoldsLk(s.ps[j])
    ensures i == j
  {
    assert PhaseOk(s, i) && PhaseOk(s, j);
  }
}
