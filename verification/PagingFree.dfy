/** Taking an address space apart: some of its user pages, or all of it.
    Trimmed is what deallocuvm leaves: the user pages of a range are unmapped
    and free, every other page is used as it was and holds what it held. Torn
    is where freevm has got to with the page tables, and Gone what it leaves.
    A page given back goes to the allocator alone; that it was given back once
    only is the partition of physical memory, kept at every step. */
module PagingFree {
  import opened Paging
  import opened PagingSteps

  // Page p is one of the user pages lo..hi of d.
  predicate InRange(v: Vm, p: nat, d: nat, lo: nat, hi: nat)
  {
    p in v.owner && v.owner[p].User? && v.owner[p].d == d && lo <= v.owner[p].n < hi
  }

  predicate TrimmedFrame(v: Vm, v': Vm, d: nat, lo: nat, hi: nat, p: nat)
    requires |v'.mem| == |v.mem|
  {
    && (p in v'.owner <==> p in v.owner && !InRange(v, p, d, lo, hi))
    && (p in v'.owner ==> v'.owner[p] == v.owner[p])
    && (p in v'.owner && p < |v.mem| && !(v.owner[p].Table? && v.owner[p].d == d) ==> v'.mem[p] == v.mem[p])
  }

  predicate TrimmedEntry(v: Vm, v': Vm, d: nat, lo: nat, hi: nat, m: nat)
    requires d < |v.mem| && d < |v'.mem|
  {
    m < PAGES ==> Pte(v', d, m) == if lo <= m < hi && Present(Pte(v, d, m)) then 0 else Pte(v, d, m)
  }

  // The user pages lo..hi of d, and nothing else, are unmapped and free.
  ghost predicate Trimmed(v: Vm, v': Vm, d: nat, lo: nat, hi: nat)
  {
    && Inv(v') && IsDir(v, d) && IsDir(v', d) && v'.lo == v.lo && v'.hi == v.hi && |v'.mem| == |v.mem|
    && (forall p: nat :: TrimmedFrame(v, v', d, lo, hi, p))
    && (forall m: nat :: TrimmedEntry(v, v', d, lo, hi, m))
  }

  lemma TrimStart(v: Vm, d: nat, lo: nat)
    requires Inv(v) && IsDir(v, d)
    ensures Trimmed(v, v, d, lo, lo)
  {
  }

  // Pages that are not present need no freeing.
  lemma TrimSkip(v: Vm, v1: Vm, d: nat, lo: nat, n: nat, n': nat)
    requires Inv(v) && Trimmed(v, v1, d, lo, n) && lo <= n <= n'
    requires forall m: nat :: n <= m < n' && m < PAGES ==> !Present(Pte(v1, d, m))
    ensures Trimmed(v, v1, d, lo, n')
  {
    hide Inv, Pte;
    forall m: nat ensures TrimmedEntry(v, v1, d, lo, n', m) { assert TrimmedEntry(v, v1, d, lo, n, m); }
    forall p: nat ensures !InRange(v, p, d, n, n') {
      if p in v.owner && v.owner[p].User? {
        assert TrimmedEntry(v, v1, d, lo, n, v.owner[p].n);
        Owned(v, p);
      }
    }
    forall p: nat ensures TrimmedFrame(v, v1, d, lo, n', p) {
      assert TrimmedFrame(v, v1, d, lo, n, p) && !InRange(v, p, d, n, n');
    }
  }

  lemma Owned(v: Vm, p: nat)
    requires Inv(v) && p in v.owner
    ensures OwnerOk(v, p) && 0 < v.lo <= p < v.hi <= |v.mem|
  {
    assert FrameOk(v, p);
  }

  // One page is freed: kfree, then the entry is cleared.
  lemma TrimStep(v: Vm, v1: Vm, d: nat, lo: nat, n: nat)
    requires Inv(v) && Trimmed(v, v1, d, lo, n) && lo <= n < KERNPAGE && HasTable(v1, d, n) && Present(Pte(v1, d, n))
    ensures var u, t := FrameOf(Pte(v1, d, n)), TableOf(v1, d, n);
      t < |v1.mem| && v1.lo <= u < v1.hi && u < |v1.mem| && u != t && u != 0
      && Trimmed(v, Pushed(Unmapped(v1, d, n), u), d, lo, n + 1)
  {
    hide Inv, Pte, Pde, HasTable, TableOf, FrameOf, Present, PteStored;
    var u, t := FrameOf(Pte(v1, d, n)), TableOf(v1, d, n);
    TableFrame(v1, d, n);
    UserFrame(v1, d, n);
    Owned(v1, u);
    Owned(v1, t);
    UnmappedInv(v1, d, n);
    var v2 := Unmapped(v1, d, n);
    var v3, n' := Pushed(v2, u), n + 1;
    PushedInv(v2, u);
    assert u in v2.owner && v2.owner[u] == Held;
    forall m: nat ensures TrimmedEntry(v, v3, d, lo, n', m) {
      assert TrimmedEntry(v, v1, d, lo, n, m);
    }
    StoredFrames(v1, d, n);
    forall p: nat ensures TrimmedFrame(v, v3, d, lo, n', p) {
      assert TrimmedFrame(v, v1, d, lo, n, p);
      if InRange(v1, p, d, n, n') { Owned(v1, p); }
    }
  }

  lemma StoredFrames(v: Vm, d: nat, n: nat)
    requires d < |v.mem| && n < PAGES && TableOf(v, d, n) < |v.mem|
    ensures |Unmapped(v, d, n).mem| == |v.mem|
    ensures forall p: nat :: p < |v.mem| && p != TableOf(v, d, n) ==> Unmapped(v, d, n).mem[p] == v.mem[p]
  {
  }

  // ---- the whole address space ----

  predicate GoneFrame(v: Vm, v': Vm, d: nat, p: nat)
    requires |v'.mem| == |v.mem|
  {
    && (p in v'.owner <==> p in v.owner && !Belongs(v, p, d))
    && (p in v'.owner ==> v'.owner[p] == v.owner[p] && (p < |v.mem| ==> v'.mem[p] == v.mem[p]))
  }

  // The pages of the address space d, and no others, are free.
  ghost predicate Gone(v: Vm, v': Vm, d: nat)
  {
    && Inv(v') && v'.lo == v.lo && v'.hi == v.hi && |v'.mem| == |v.mem|
    && forall p: nat :: GoneFrame(v, v', d, p)
  }

  // The tables of the first x entries of d are among the freed.
  predicate TableGone(v: Vm, p: nat, d: nat, x: nat)
  {
    p in v.owner && v.owner[p].Table? && v.owner[p].d == d && v.owner[p].x < x
  }

  predicate TornFrame(v: Vm, v': Vm, d: nat, x: nat, p: nat)
    requires |v'.mem| == |v.mem|
  {
    && (p in v'.owner <==> p in v.owner && !TableGone(v, p, d, x))
    && (p in v'.owner ==> v'.owner[p] == if Belongs(v, p, d) then Held else v.owner[p])
    && (p in v'.owner && p < |v.mem| && !Belongs(v, p, d) ==> v'.mem[p] == v.mem[p])
  }

  ghost predicate Torn(v: Vm, v': Vm, d: nat, x: nat)
  {
    && Inv(v') && IsDir(v, d) && v'.lo == v.lo && v'.hi == v.hi && |v'.mem| == |v.mem| && v'.mem[d] == v.mem[d]
    && forall p: nat :: TornFrame(v, v', d, x, p)
  }

  ghost predicate NoUserPages(v: Vm, d: nat)
    requires d < |v.mem|
  {
    forall n: nat :: n < KERNPAGE ==> !Present(Pte(v, d, n))
  }

  lemma TornStart(v: Vm, d: nat)
    requires Inv(v) && IsDir(v, d) && NoUserPages(v, d)
    ensures Torn(v, Dismantled(v, d), d, 0)
  {
    hide Inv, Pte;
    DismantledInv(v, d);
  }

  lemma TornStep(v: Vm, v1: Vm, d: nat, x: nat)
    requires Inv(v) && IsDir(v, d) && NoUserPages(v, d) && Torn(v, v1, d, x) && x < NPT
    ensures !Present(v1.mem[d][x]) ==> Torn(v, v1, d, x + 1)
    ensures Present(v1.mem[d][x]) ==>
      v1.lo <= FrameOf(v1.mem[d][x]) < v1.hi && FrameOf(v1.mem[d][x]) < |v1.mem|
      && Torn(v, Pushed(v1, FrameOf(v1.mem[d][x])), d, x + 1)
  {
    hide Inv, Pte, FrameOf, Present;
    var t, x' := FrameOf(v1.mem[d][x]), x + 1;
    assert v1.mem[d][x] == Pde(v, d, x);
    if Present(v1.mem[d][x]) {
      assert t in v.owner && v.owner[t] == Table(d, x) by { Entry(v, d, x); }
      Owned(v, t);
      assert TornFrame(v, v1, d, x, t) && d != t;
      PushedInv(v1, t);
      var v2 := Pushed(v1, t);
      forall p: nat ensures TornFrame(v, v2, d, x', p) {
        assert TornFrame(v, v1, d, x, p);
        if p in v.owner { Owned(v, p); }
      }
    } else {
      forall p: nat ensures TornFrame(v, v1, d, x', p) {
        assert TornFrame(v, v1, d, x, p);
        if p in v.owner { Owned(v, p); }
      }
    }
  }

  lemma Entry(v: Vm, d: nat, x: nat)
    requires Inv(v) && IsDir(v, d) && x < NPT && Present(Pde(v, d, x))
    ensures FrameOf(Pde(v, d, x)) in v.owner && v.owner[FrameOf(Pde(v, d, x))] == Table(d, x)
  {
    assert PdeOk(v, d, x);
  }

  lemma TornEnd(v: Vm, v1: Vm, d: nat)
    requires Inv(v) && IsDir(v, d) && NoUserPages(v, d) && Torn(v, v1, d, NPT)
    ensures v1.lo <= d < v1.hi && Gone(v, Pushed(v1, d), d)
  {
    hide Inv, Pte;
    Owned(v, d);
    assert TornFrame(v, v1, d, NPT, d);
    PushedInv(v1, d);
    DismantledInv(v, d);
    var v2 := Pushed(v1, d);
    forall p: nat ensures GoneFrame(v, v2, d, p) {
      assert TornFrame(v, v1, d, NPT, p);
      if p in v.owner { Owned(v, p); }
    }
  }

  // Trimming everything and then tearing down frees the whole space.
  lemma FreedAll(v: Vm, v1: Vm, v2: Vm, d: nat)
    requires Inv(v) && Trimmed(v, v1, d, 0, KERNPAGE) && Gone(v1, v2, d)
    ensures Gone(v, v2, d)
  {
    hide Inv, Pte;
    forall p: nat ensures GoneFrame(v, v2, d, p) {
      assert TrimmedFrame(v, v1, d, 0, KERNPAGE, p) && GoneFrame(v1, v2, d, p);
      if p in v.owner { Owned(v, p); }
    }
  }

  lemma AllTrimmed(v: Vm, v1: Vm, d: nat)
    requires Trimmed(v, v1, d, 0, KERNPAGE)
    ensures NoUserPages(v1, d)
  {
    hide Inv, Pte;
    forall n: nat | n < KERNPAGE ensures !Present(Pte(v1, d, n)) { assert TrimmedEntry(v, v1, d, 0, KERNPAGE, n); }
  }

  // Memory is as it was, apart from the order of the free list.
  ghost predicate Same(v: Vm, v': Vm)
  {
    && Inv(v') && v'.lo == v.lo && v'.hi == v.hi && |v'.mem| == |v.mem| && v'.owner == v.owner
    && forall p: nat :: p in v.owner && p < |v.mem| ==> v'.mem[p] == v.mem[p]
  }

  // An address space made and destroyed again leaves no trace.
  lemma MadeAndGone(v: Vm, v1: Vm, v2: Vm, d: nat)
    requires Inv(v) && d !in v.owner && Local(v, v1, d, 0) && Gone(v1, v2, d)
    ensures Same(v, v2)
  {
    hide Inv, Pte, IsDir;
    forall p: nat ensures (p in v2.owner <==> p in v.owner) && (p in v.owner ==> v2.owner[p] == v.owner[p])
        && (p in v.owner && p < |v.mem| ==> v2.mem[p] == v.mem[p]) {
      assert LocalFrame(v, v1, d, 0, p) && GoneFrame(v1, v2, d, p);
      if p in v.owner { Stranger(v, d, p); }
      if p == 0 { NoFrameZero(v); NoFrameZero(v2); }
    }
  }

  lemma Stranger(v: Vm, d: nat, p: nat)
    requires Inv(v) && d !in v.owner && p in v.owner
    ensures !Belongs(v, p, d)
  {
    assert OwnerOk(v, p);
  }

  lemma NoFrameZero(v: Vm)
    requires Inv(v)
    ensures 0 !in v.owner
  {
    assert FrameOk(v, 0);
  }

  // Trimming changes nothing outside d, and no user page of d out of range.
  lemma TrimmedLocal(v: Vm, v': Vm, d: nat, lo: nat, hi: nat)
    requires Inv(v) && Trimmed(v, v', d, lo, hi)
    ensures Local(v, v', d, 0) && UsersKept(v, v', d, lo, hi)
  {
    hide Inv, Pte;
    forall p: nat ensures LocalFrame(v, v', d, 0, p) && UserKept(v, v', d, lo, hi, p) {
      assert TrimmedFrame(v, v', d, lo, hi, p);
    }
  }

  lemma TrimShape(v: Vm, v': Vm, d: nat, lo: nat, hi: nat)
    requires Trimmed(v, v', d, lo, hi)
    ensures Inv(v') && IsDir(v', d) && |v'.mem| == |v.mem|
  {
  }

  // A missing table: none of its pages is present.
  lemma TrimHole(v: Vm, v1: Vm, d: nat, lo: nat, n: nat, n': nat)
    requires Inv(v) && Trimmed(v, v1, d, lo, n) && lo <= n <= n' <= (n / NPT + 1) * NPT && n < PAGES
    requires d < |v1.mem| && !HasTable(v1, d, n)
    ensures Trimmed(v, v1, d, lo, n')
  {
    hide Inv, Trimmed;
    forall m: nat | n <= m < n' && m < PAGES ensures !Present(Pte(v1, d, m)) { assert m / NPT == n / NPT; }
    TrimSkip(v, v1, d, lo, n, n');
  }

  // What deallocuvm leaves, also when there is nothing between the sizes.
  lemma TrimSame(v: Vm, v': Vm, d: nat, oldsz: nat, newsz: nat)
    requires Inv(v) && IsDir(v, d) && newsz <= oldsz
    requires newsz == oldsz ==> v' == v
    requires newsz < oldsz ==> Trimmed(v, v', d, (newsz + PGSIZE - 1) / PGSIZE, (oldsz + PGSIZE - 1) / PGSIZE)
    ensures Trimmed(v, v', d, (newsz + PGSIZE - 1) / PGSIZE, (oldsz + PGSIZE - 1) / PGSIZE)
  {
    hide Inv, Trimmed;
    if newsz == oldsz { TrimStart(v, d, (newsz + PGSIZE - 1) / PGSIZE); }
  }
}
