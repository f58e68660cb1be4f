/** The code that works on the process table with ptable.lock held. */
module ProcCode {
  import opened Options
  import opened ProcTable

  /** What one scan of wait comes to. */
  datatype WaitResult = Reaped(pid: int) | Failed | Slept

  class Ptable {
    const ps: array<Proc>
    var nextpid: int
    const init: nat
    ghost var doing: seq<Doing>
    ghost var exited: map<int, nat>
    ghost var reaped: seq<int>

    ghost function View(): Table
      reads this, ps
    {
      Table(ps[..], nextpid, init, doing, exited, reaped)
    }

    // Makes RUNNABLE every process sleeping on c.
    method Wakeup1(c: Chan)
      modifies ps
      ensures Wakes(old(View()), View(), c)
      ensures forall j: nat :: j < ps.Length ==>
        && !(ps[j].state == SLEEPING && ps[j].chan == c)
        && ps[j] == if old(ps[j].state == SLEEPING && ps[j].chan == c) then old(ps[j]).(state := RUNNABLE)
                    else old(ps[j])
    {
      var i := 0;
      while i < ps.Length
        invariant i <= ps.Length
        invariant forall j: nat :: j < ps.Length ==> ps[j] == if j < i then Wake(old(ps[j]), c) else old(ps[j])
      {
        if ps[i].state == SLEEPING && ps[i].chan == c {
          ps[i] := ps[i].(state := RUNNABLE);
        }
        i := i + 1;
      }
    }

    // The first half of allocproc: None when every entry is used.
    method Alloc(cur: nat) returns (r: Option<nat>)
      requires cur < ps.Length && |doing| == ps.Length && ps[cur].state == RUNNING && doing[cur] == Plain
      modifies ps, `nextpid, `doing
      ensures r.Some? ==> Allocproc(old(View()), View(), cur, r.value)
      ensures r.Some? ==>
        && r.value < ps.Length && old(ps[..])[r.value].state == UNUSED
        && (forall j: nat :: j < r.value ==> old(ps[j].state) != UNUSED)
        && (forall j: nat :: j < ps.Length && j != r.value ==> ps[j] == old(ps[j]))
        && ps[r.value].state == EMBRYO && ps[r.value].pid == old(nextpid) && nextpid == old(nextpid) + 1
      ensures r.None? ==> View() == old(View()) && forall j: nat :: j < ps.Length ==> ps[j].state != UNUSED
    {
      ghost var t := View();
      var i := 0;
      while i < ps.Length
        invariant i <= ps.Length && View() == t
        invariant forall j: nat :: j < i ==> ps[j].state != UNUSED
      {
        if ps[i].state == UNUSED {
          ps[i] := ps[i].(state := EMBRYO, pid := nextpid);
          nextpid := nextpid + 1;
          doing := doing[cur := Forking(i)];
          assert View().ps == t.ps[i := ps[i]];
          return Some(i);
        }
        i := i + 1;
      }
      return None;
    }

    // The part of exit that holds ptable.lock.
    method ExitProc(cur: nat)
      requires cur < ps.Length && |doing| == ps.Length && init < ps.Length && cur != init
      requires ps[cur].state == RUNNING && doing[cur] == Plain && ps[cur].parent.Some?
      modifies ps, `exited
      ensures Exit(old(View()), View(), cur)
    {
      ghost var t := View();
      Wakeup1(Self(ps[cur].parent.value));
      ghost var t1 := View();
      ghost var z := false;
      var i := 0;
      while i < ps.Length
        invariant i <= ps.Length && nextpid == t.nextpid && exited == t.exited
        invariant z <==> exists k: nat :: k < i && ChildOf(t, k, cur) && t.ps[k].state == ZOMBIE
        invariant forall j: nat :: j < ps.Length ==> ps[j] == Passed(t1, cur, z, j, i)
      {
        if ps[i].parent == Some(cur) {
          assert ChildOf(t, i, cur);
          ps[i] := ps[i].(parent := Some(init));
          if ps[i].state == ZOMBIE {
            z := true;
            Wakeup1(Self(init));
          }
        }
        i := i + 1;
      }
      assert z <==> HasZombie(t, cur);
      exited := exited[ps[cur].pid := cur];
      ps[cur] := ps[cur].(state := ZOMBIE);
      forall j: nat | j < ps.Length ensures ps[j] == ExitEntry(t, cur, z, j) {
        assert t1.ps[j] == Wake(t.ps[j], Self(t.ps[cur].parent.value));
      }
    }

    // One scan of wait, up to its return or its sleep.
    method WaitScan(cur: nat) returns (r: WaitResult)
      requires cur < ps.Length && |doing| == ps.Length && ps[cur].state == RUNNING && !doing[cur].Forking?
      modifies ps, `doing, `reaped
      ensures r.Reaped? ==> exists i: nat :: Reap(old(View()), View(), cur, i) && r.pid == old(ps[i].pid)
      ensures r.Reaped? <==>
        exists j: nat :: j < ps.Length && old(ps[j].parent) == Some(cur) && old(ps[j].state) == ZOMBIE
      ensures r.Failed? ==> WaitFails(old(View()), View(), cur)
      ensures !r.Reaped? ==>
        (r.Failed? <==> old(ps[cur].killed) || forall j: nat :: j < ps.Length ==> old(ps[j].parent) != Some(cur))
      ensures r.Failed? ==> ps[..] == old(ps[..])
      ensures r.Slept? ==> ps[cur].state == SLEEPING && ps[cur].chan == Self(cur)
      ensures r.Slept? ==> WaitSleeps(old(View()), View(), cur)
    {
      ghost var t := View();
      var havekids := false;
      var i := 0;
      while i < ps.Length
        invariant i <= ps.Length && View() == t
        invariant havekids <==> exists k: nat :: k < i && ChildOf(t, k, cur)
        invariant forall k: nat :: k < i && ChildOf(t, k, cur) ==> t.ps[k].state != ZOMBIE
      {
        if ps[i].parent == Some(cur) {
          assert ChildOf(t, i, cur);
          havekids := true;
          if ps[i].state == ZOMBIE {
            var pid := ps[i].pid;
            ps[i] := Proc(UNUSED, 0, None, ps[i].chan, false);
            doing := doing[cur := Plain];
            reaped := reaped + [pid];
            assert View().ps == t.ps[i := ps[i]];
            assert Reap(t, View(), cur, i);
            return Reaped(pid);
          }
        }
        i := i + 1;
      }
      assert havekids <==> exists k: nat :: k < ps.Length && t.ps[k].parent == Some(cur) by {
        assert forall k: nat :: ChildOf(t, k, cur) <==> k < ps.Length && t.ps[k].parent == Some(cur);
      }
      if !havekids || ps[cur].killed {
        doing := doing[cur := Plain];
        return Failed;
      }
      ps[cur] := ps[cur].(chan := Self(cur), state := SLEEPING);
      doing := doing[cur := Waiting];
      assert View().ps == t.ps[cur := ps[cur]];
      return Slept;
    }

    // kill: 0 when an entry, used or not, has the pid.
    method KillPid(pid: int) returns (r: int)
      modifies ps
      ensures r == 0 <==> exists i: nat :: i < ps.Length && old(ps[i]).pid == pid
      ensures r == 0 ==> exists i: nat :: Kill(old(View()), View(), i) && old(ps[..])[i].pid == pid
      ensures r == 0 ==> exists i: nat ::
        && i < ps.Length && old(ps[..])[i].pid == pid && (forall j: nat :: j < i ==> old(ps[j].pid) != pid)
        && (forall j: nat :: j < ps.Length && j != i ==> ps[j] == old(ps[j]))
        && ps[i] == old(ps[..])[i].(killed := true, state := ps[i].state) && ps[i].state != SLEEPING
        && ps[i].state == if old(ps[..])[i].state == SLEEPING then RUNNABLE else old(ps[..])[i].state
      ensures r == -1 ==> View() == old(View())
      ensures r == 0 || r == -1
    {
      ghost var t := View();
      var i := 0;
      while i < ps.Length
        invariant i <= ps.Length && View() == t
        invariant forall j: nat :: j < i ==> ps[j].pid != pid
      {
        if ps[i].pid == pid {
          ps[i] := ps[i].(killed := true);
          if ps[i].state == SLEEPING {
            ps[i] := ps[i].(state := RUNNABLE);
          }
          assert View().ps == t.ps[i := ps[i]];
          assert Kill(t, View(), i);
          return 0;
        }
        i := i + 1;
      }
      return -1;
    }
  }

  // Entry j when exit's loop has passed the first i entries; z says whether it
  // has met a zombie child.
  function Passed(t: Table, cur: nat, z: bool, j: nat, i: nat): Proc
    requires j < |t.ps|
  {
    var q := if j < i && t.ps[j].parent == Some(cur) then t.ps[j].(parent := Some(t.init)) else t.ps[j];
    if z then Wake(q, Self(t.init)) else q
  }
}
