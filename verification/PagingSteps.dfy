/** The steps the virtual memory code is made of, each confined to one address
    space, and how they add up. Quiet is a step that changes no entry and no
    user page of the address space it works on, walkpgdir making a table for
    one; PagesMapped is how far mappages has come. Both say what they leave
    alone with Local, outside the address space, and UsersKept, inside it; a
    page held by the kernel in between is an exception that is absorbed again
    when the page has gone into the address space or back to the allocator. */
module PagingSteps {
  import opened Paging

  predicate UserKept(v: Vm, v': Vm, d: nat, lo: nat, hi: nat, p: nat)
    requires |v'.mem| == |v.mem|
  {
    Belongs(v, p, d) && !(v.owner[p].User? && lo <= v.owner[p].n < hi) ==>
      p in v'.owner && v'.owner[p] == v.owner[p] && (v.owner[p].User? && p < |v.mem| ==> v'.mem[p] == v.mem[p])
  }

  // The pages of d, its user pages lo..hi aside, are used as they were, and
  // the user pages among them have the same content.
  ghost predicate UsersKept(v: Vm, v': Vm, d: nat, lo: nat, hi: nat)
    requires |v'.mem| == |v.mem|
  {
    forall p: nat :: UserKept(v, v', d, lo, hi, p)
  }

  // Entries n..n+k of d are fresh ones for consecutive frames; the others
  // are as they were.
  ghost predicate Entries(v: Vm, v': Vm, d: nat, n: nat, k: nat, frame: nat, perm: nat)
  {
    d < |v.mem| && d < |v'.mem| && perm < 0x1000
    && forall m: nat :: EntryOk(v, v', d, n, k, frame, perm, m)
  }

  predicate EntryOk(v: Vm, v': Vm, d: nat, n: nat, k: nat, frame: nat, perm: nat, m: nat)
    requires d < |v.mem| && d < |v'.mem| && perm < 0x1000
  {
    m < PAGES ==>
      if n <= m < n + k then frame + (m - n) < PAGES && Pte(v', d, m) == MakePte(frame + (m - n), perm)
      else Pte(v', d, m) == Pte(v, d, m)
  }

  // d is still a sound address space with the same entries and pages, and
  // nothing else but page u has changed.
  ghost predicate Quiet(v: Vm, v': Vm, d: nat, u: nat)
  {
    && Inv(v') && IsDir(v, d) && IsDir(v', d) && Local(v, v', d, u) && UsersKept(v, v', d, 0, 0)
    && Entries(v, v', d, 0, 0, 0, 0)
  }

  lemma UsersTrans(v: Vm, v1: Vm, v2: Vm, d: nat, lo: nat, hi: nat)
    requires |v1.mem| == |v.mem| && |v2.mem| == |v.mem| && UsersKept(v, v1, d, lo, hi) && UsersKept(v1, v2, d, lo, hi)
    ensures UsersKept(v, v2, d, lo, hi)
  {
    forall p: nat ensures UserKept(v, v2, d, lo, hi, p) {
      assert UserKept(v, v1, d, lo, hi, p) && UserKept(v1, v2, d, lo, hi, p);
    }
  }

  lemma QuietTrans(v: Vm, v1: Vm, v2: Vm, d: nat, u: nat)
    requires Quiet(v, v1, d, u) && Quiet(v1, v2, d, u)
    ensures Quiet(v, v2, d, u)
  {
    hide Inv, LocalFrame, UserKept, Pte;
    LocalTrans(v, v1, v2, d, u);
    UsersTrans(v, v1, v2, d, 0, 0);
    forall m: nat ensures EntryOk(v, v2, d, 0, 0, 0, 0, m) {
      assert EntryOk(v, v1, d, 0, 0, 0, 0, m) && EntryOk(v1, v2, d, 0, 0, 0, 0, m);
    }
  }

  lemma QuietSelf(v: Vm, d: nat, u: nat)
    requires Inv(v) && IsDir(v, d)
    ensures Quiet(v, v, d, u)
  {
    hide Inv, Pte;
    LocalSelf(v, d, u);
  }

  lemma PoppedQuiet(v: Vm, d: nat)
    requires Inv(v) && IsDir(v, d) && v.free != []
    ensures Quiet(v, Popped(v), d, v.free[0])
  {
    hide Inv, Pte, Pde;
    PoppedInv(v);
    forall m: nat ensures EntryOk(v, Popped(v), d, 0, 0, 0, 0, m) { PteSame(v, Popped(v), d, m); }
  }

  lemma PushedQuiet(v: Vm, d: nat, p: nat)
    requires Inv(v) && IsDir(v, d) && p in v.owner && v.owner[p].Held? && p < |v.mem|
    ensures Quiet(v, Pushed(v, p), d, p)
  {
    hide Inv, Pte, Pde;
    PushedInv(v, p);
    forall q: nat ensures LocalFrame(v, Pushed(v, p), d, p, q) { }
    forall q: nat ensures UserKept(v, Pushed(v, p), d, 0, 0, q) { }
  }

  lemma WroteQuiet(v: Vm, d: nat, p: nat, page: Page)
    requires Inv(v) && IsDir(v, d) && p in v.owner && v.owner[p].Held? && p < |v.mem|
    ensures Quiet(v, Wrote(v, p, page), d, p)
  {
    hide Inv, Pte, Pde;
    WroteInv(v, p, page);
    forall q: nat ensures LocalFrame(v, Wrote(v, p, page), d, p, q) { }
    forall q: nat ensures UserKept(v, Wrote(v, p, page), d, 0, 0, q) { }
  }

  lemma LinkedQuiet(v: Vm, d: nat, n: nat, t: nat)
    requires Inv(v) && IsDir(v, d) && n < PAGES && !HasTable(v, d, n)
    requires t in v.owner && v.owner[t].Held? && t < |v.mem| && t < PAGES && v.mem[t] == ZERO_PAGE
    ensures Quiet(v, Linked(v, d, n, t), d, t) && HasTable(Linked(v, d, n, t), d, n)
  {
    hide Inv, Pte, HasTable;
    LinkedInv(v, d, n, t);
    forall q: nat ensures UserKept(v, Linked(v, d, n, t), d, 0, 0, q) { }
  }

  // An exception that came out of the free list and went into d is none.
  lemma Absorbed(v: Vm, v': Vm, d: nat, u: nat)
    requires Local(v, v', d, u) && (u !in v.owner || Belongs(v, u, d)) && (u !in v'.owner || Belongs(v', u, d))
    ensures Local(v, v', d, 0)
  {
    forall p: nat ensures LocalFrame(v, v', d, 0, p) { assert LocalFrame(v, v', d, u, p); }
  }

  // Frame 0 is nobody's, so an exception for it can be any other.
  lemma Unexcepted(v: Vm, v': Vm, d: nat, u: nat)
    requires Local(v, v', d, 0) && Inv(v) && Inv(v')
    ensures Local(v, v', d, u)
  {
    forall p: nat ensures LocalFrame(v, v', d, u, p) {
      assert LocalFrame(v, v', d, 0, p) && FrameOk(v, p) && FrameOk(v', p);
    }
  }

  // Another address space is untouched: same entries, same page contents.
  lemma LocalOther(v: Vm, v': Vm, d: nat, e: nat)
    requires Inv(v) && IsDir(v, e) && e != d && Local(v, v', d, 0)
    ensures IsDir(v', e)
    ensures forall n: nat :: n < PAGES ==> Pte(v', e, n) == Pte(v, e, n)
    ensures UsersKept(v, v', e, 0, 0)
  {
    hide Inv;
    InvParts(v, e);
    assert LocalFrame(v, v', d, 0, e);
    forall n: nat | n < PAGES ensures Pte(v', e, n) == Pte(v, e, n) {
      if HasTable(v, e, n) {
        TableFrame(v, e, n);
        assert LocalFrame(v, v', d, 0, TableOf(v, e, n));
      }
    }
    forall p: nat ensures UserKept(v, v', e, 0, 0, p) {
      if p in v.owner { InvParts(v, p); }
      assert LocalFrame(v, v', d, 0, p);
    }
  }

  lemma AllocFacts(v: Vm)
    requires Inv(v) && v.free != []
    ensures v.free[0] !in v.owner && 0 < v.lo <= v.free[0] < v.hi && v.hi <= |v.mem| && v.hi < PAGES
  {
    PoppedInv(v);
  }

  // walkpgdir's allocation: a free page, zeroed, linked into d.
  lemma NewTable(v: Vm, d: nat, n: nat)
    requires Inv(v) && IsDir(v, d) && v.free != [] && n < PAGES && !HasTable(v, d, n)
    ensures v.free[0] < |v.mem| && v.free[0] < PAGES
    ensures Quiet(v, Linked(Wrote(Popped(v), v.free[0], ZERO_PAGE), d, n, v.free[0]), d, 0)
    ensures HasTable(Linked(Wrote(Popped(v), v.free[0], ZERO_PAGE), d, n, v.free[0]), d, n)
  {
    hide Inv, Pte, LocalFrame, UserKept, EntryOk, OwnerOk, PdeOk, PteOk;
    var t := v.free[0];
    AllocFacts(v);
    var v1 := Popped(v);
    PoppedQuiet(v, d);
    var v2 := Wrote(v1, t, ZERO_PAGE);
    WroteQuiet(v1, d, t, ZERO_PAGE);
    assert d != t;
    assert HasTable(v2, d, n) == HasTable(v, d, n);
    var v3 := Linked(v2, d, n, t);
    LinkedQuiet(v2, d, n, t);
    QuietTrans(v, v1, v2, d, t);
    QuietTrans(v, v2, v3, d, t);
    Absorbed(v, v3, d, t);
  }

  // What mappages has done to d after k pages. The frame of a user page is
  // held until it is mapped.
  ghost predicate PagesMapped(v: Vm, v': Vm, d: nat, n: nat, k: nat, frame: nat, perm: nat)
  {
    && Inv(v') && IsDir(v', d) && Local(v, v', d, if n < KERNPAGE then frame else 0)
    && UsersKept(v, v', d, 0, 0) && Entries(v, v', d, n, k, frame, perm)
    && (n < KERNPAGE ==>
          frame in v'.owner && frame < |v.mem| && v'.mem[frame] == v.mem[frame]
          && v'.owner[frame] == if k == 0 then Held else User(d, n))
  }

  lemma PagesStart(v: Vm, d: nat, n: nat, frame: nat, perm: nat)
    requires Inv(v) && IsDir(v, d) && perm < 0x1000
    requires n < KERNPAGE ==> frame in v.owner && v.owner[frame].Held?
    ensures PagesMapped(v, v, d, n, 0, frame, perm)
  {
    hide Inv, Pte;
    LocalSelf(v, d, if n < KERNPAGE then frame else 0);
    if frame in v.owner { InvParts(v, frame); }
  }

  lemma PagesWalked(v: Vm, v1: Vm, v2: Vm, d: nat, n: nat, k: nat, frame: nat, perm: nat)
    requires Inv(v) && Inv(v1) && PagesMapped(v, v1, d, n, k, frame, perm) && Quiet(v1, v2, d, 0)
    requires n < KERNPAGE ==> k == 0
    ensures PagesMapped(v, v2, d, n, k, frame, perm) && Inv(v2) && IsDir(v2, d)
  {
    hide Inv, Pte, LocalFrame, UserKept;
    if n < KERNPAGE {
      assert LocalFrame(v1, v2, d, 0, frame) && frame != 0 by { HeldLocal(v1, v2, d, frame); }
      Unexcepted(v1, v2, d, frame);
    }
    LocalTrans(v, v1, v2, d, if n < KERNPAGE then frame else 0);
    UsersTrans(v, v1, v2, d, 0, 0);
    if n < KERNPAGE { HeldLocal(v1, v2, d, frame); }
    forall m: nat ensures EntryOk(v, v2, d, n, k, frame, perm, m) {
      assert EntryOk(v, v1, d, n, k, frame, perm, m) && EntryOk(v1, v2, d, 0, 0, 0, 0, m);
    }
  }

  // A held page stays held and keeps its content.
  lemma HeldLocal(v: Vm, v': Vm, d: nat, p: nat)
    requires Inv(v) && Local(v, v', d, 0) && p in v.owner && v.owner[p].Held?
    ensures LocalFrame(v, v', d, 0, p) && p != 0
    ensures p in v'.owner && v'.owner[p].Held? && p < |v.mem| && v'.mem[p] == v.mem[p]
  {
    InvParts(v, p);
    assert LocalFrame(v, v', d, 0, p);
  }

  lemma PteIs(v: Vm, d: nat, n: nat)
    requires d < |v.mem| && n < PAGES && HasTable(v, d, n) && TableOf(v, d, n) < |v.mem|
    ensures Pte(v, d, n) == v.mem[TableOf(v, d, n)][n % NPT]
  {
  }

  // The store of one entry.
  lemma PagesNext(v: Vm, v2: Vm, v3: Vm, d: nat, n: nat, k: nat, frame: nat, perm: nat)
    requires Inv(v) && PagesMapped(v, v2, d, n, k, frame, perm) && n + k < PAGES && frame + k < PAGES
    requires n < KERNPAGE ==> k == 0
    requires HasTable(v2, d, n + k) && TableOf(v2, d, n + k) < |v2.mem| && !Present(Pte(v2, d, n + k))
    requires v3 == if n + k < KERNPAGE then Mapped(v2, d, n + k, frame + k, perm)
             else PteStored(v2, d, n + k, MakePte(frame + k, perm))
    ensures PagesMapped(v, v3, d, n, k + 1, frame, perm) && Inv(v3) && IsDir(v3, d)
  {
    hide Inv, Pte, LocalFrame, Present, MakePte, HasTable, TableOf;
    if n < KERNPAGE {
      MappedInv(v2, d, n, frame, perm);
      LocalTrans(v, v2, v3, d, frame);
    } else {
      RestoredInv(v2, d, n + k, MakePte(frame + k, perm));
      LocalTrans(v, v2, v3, d, 0);
    }
    StoredElsewhere(v2, v3, d, n + k);
    UsersTrans(v, v2, v3, d, 0, 0);
    var k' := k + 1;
    forall m: nat ensures EntryOk(v, v3, d, n, k', frame, perm, m) {
      assert EntryOk(v, v2, d, n, k, frame, perm, m);
    }
  }

  // Stores into a table miss every page that is not one.
  lemma StoredElsewhere(v: Vm, v': Vm, d: nat, n: nat)
    requires Inv(v) && IsDir(v, d) && n < PAGES && HasTable(v, d, n) && |v'.mem| == |v.mem|
    requires forall p: nat :: p < |v.mem| && p != TableOf(v, d, n) ==> v'.mem[p] == v.mem[p]
    requires forall p: nat :: p in v.owner && !v.owner[p].Held? ==> p in v'.owner && v'.owner[p] == v.owner[p]
    ensures UsersKept(v, v', d, 0, 0)
    ensures forall p: nat :: p in v.owner && !v.owner[p].Table? ==> p < |v.mem| && v'.mem[p] == v.mem[p]
  {
    hide Inv, Pte, HasTable, TableOf;
    TableFrame(v, d, n);
    forall p: nat | p in v.owner ensures p < |v.mem| { InvParts(v, p); }
  }
}
