/** Whole address spaces: what exec, fork, sbrk and mprotect make of them. */
module PagingProtect {
  import opened Blocks
  import opened Paging
  import opened PagingFree
  import opened PagingGrow
  import opened PagingSteps

  // The user pages of d that are there are exactly 1, 2, ... below sz bytes:
  // page 0 never is.
  ghost predicate Space(v: Vm, d: nat, sz: nat)
  {
    IsDir(v, d) && forall m: nat :: SpaceEntry(v, d, sz, m)
  }

  predicate SpaceEntry(v: Vm, d: nat, sz: nat, m: nat)
    requires d < |v.mem|
  {
    m < KERNPAGE ==> (Present(Pte(v, d, m)) <==> 1 <= m < (sz + PGSIZE - 1) / PGSIZE)
  }

  lemma SpaceGrown(v: Vm, v': Vm, d: nat, sz: nat, sz': nat)
    requires Space(v, d, sz) && 0 < sz <= sz'
    requires Grown(v, v', d, (sz + PGSIZE - 1) / PGSIZE, (sz' + PGSIZE - 1) / PGSIZE)
    ensures Space(v', d, sz')
  {
    hide Inv, Pte, LocalFrame, UserKept, MakePte, Present;
    forall m: nat ensures SpaceEntry(v', d, sz', m) {
      assert SpaceEntry(v, d, sz, m) && NewEntry(v, v', d, (sz + PGSIZE - 1) / PGSIZE, (sz' + PGSIZE - 1) / PGSIZE, m);
      if m < KERNPAGE && FrameOf(Pte(v', d, m)) < PAGES { PteParts(FrameOf(Pte(v', d, m)), FLAGS_WU); }
    }
  }

  lemma SpaceTrimmed(v: Vm, v': Vm, d: nat, sz: nat, sz': nat)
    requires Space(v, d, sz) && sz' <= sz
    requires Trimmed(v, v', d, (sz' + PGSIZE - 1) / PGSIZE, (sz + PGSIZE - 1) / PGSIZE)
    ensures Space(v', d, sz')
  {
    hide Inv, Pte;
    forall m: nat ensures SpaceEntry(v', d, sz', m) {
      assert SpaceEntry(v, d, sz, m)
             && TrimmedEntry(v, v', d, (sz' + PGSIZE - 1) / PGSIZE, (sz + PGSIZE - 1) / PGSIZE, m);
    }
  }

  lemma SpaceRestored(v: Vm, v': Vm, d: nat, sz: nat)
    requires Space(v, d, sz) && Restored(v, v', d)
    ensures Space(v', d, sz)
  {
    hide Inv, Pte, Present;
    forall m: nat ensures SpaceEntry(v', d, sz, m) { assert SpaceEntry(v, d, sz, m) && MapEntry(v, v', d, m); }
  }

  // fork: the child has a page wherever the parent has one, and only there.
  lemma SpaceCopied(v: Vm, v': Vm, d: nat, c: nat, data: nat, sz: nat)
    requires Space(v, d, sz) && sz <= KERNPAGE * PGSIZE
    requires Copied(v, v', d, c, data, if (sz + PGSIZE - 1) / PGSIZE < 1 then 1 else (sz + PGSIZE - 1) / PGSIZE)
    ensures Space(v', c, sz)
  {
    hide Inv, Pte, FlagsOf;
    var n := if (sz + PGSIZE - 1) / PGSIZE < 1 then 1 else (sz + PGSIZE - 1) / PGSIZE;
    forall m: nat ensures SpaceEntry(v', c, sz, m) { assert CopyEntry(v, v', d, c, data, n, m); }
  }

  // ... and no physical page in common with it.
  lemma CopyDisjoint(v: Vm, v': Vm, d: nat, c: nat, data: nat, n: nat, i: nat, j: nat)
    requires Inv(v) && Copied(v, v', d, c, data, n) && 1 <= i < n <= KERNPAGE && j < KERNPAGE && Present(Pte(v, d, j))
    ensures FrameOf(Pte(v', c, i)) != FrameOf(Pte(v, d, j))
    ensures Pte(v', d, j) == Pte(v, d, j)
    ensures 1 <= j < n && i != j ==> FrameOf(Pte(v', c, i)) != FrameOf(Pte(v', c, j))
  {
    hide Inv, Pte, Present, FlagsOf;
    assert CopyEntry(v, v', d, c, data, n, i) && CopyEntry(v, v', d, c, data, n, j);
    UserFrame(v, d, j);
    SourceKept(v, v', d, c, data, n, j);
    UserFrame(v', c, i);
    if 1 <= j < n { UserFrame(v', c, j); }
  }

  // ---- flags ----

  // e with PTE_W set or cleared.
  function WithW(e: word, w: bool): word
  {
    if w && !Writable(e) then e + 2 else if !w && Writable(e) then e - 2 else e
  }

  // e & ~PTE_U
  function WithoutU(e: word): word
  {
    if ForUser(e) then e - 4 else e
  }

  lemma WithWBits(e: word, w: bool)
    ensures Writable(WithW(e, w)) == w
    ensures FrameOf(WithW(e, w)) == FrameOf(e) && Present(WithW(e, w)) == Present(e)
            && ForUser(WithW(e, w)) == ForUser(e)
  {
    var h, b := e / 8, e % 8;
    LowBits(e, h, b);
    hide Writable, ForUser, Present, FrameOf;
    if w && !Writable(e) { LowBits(e + 2, h, b + 2); } else if !w && Writable(e) { LowBits(e - 2, h, b - 2); }
  }

  lemma WithoutUBits(e: word)
    ensures !ForUser(WithoutU(e))
    ensures FrameOf(WithoutU(e)) == FrameOf(e) && Present(WithoutU(e)) == Present(e)
            && Writable(WithoutU(e)) == Writable(e)
  {
    var h, b := e / 8, e % 8;
    LowBits(e, h, b);
    hide Writable, ForUser, Present, FrameOf;
    if ForUser(e) { LowBits(e - 4, h, b - 4); }
  }

  predicate FlagEntry(v: Vm, v': Vm, d: nat, lo: nat, hi: nat, w: bool, m: nat)
    requires d < |v.mem| && d < |v'.mem|
  {
    m < PAGES ==> Pte(v', d, m) == if lo <= m < hi && HasTable(v, d, m) then WithW(Pte(v, d, m), w) else Pte(v, d, m)
  }

  // The entries lo..hi of d that have a table are made writable or not; no
  // other entry, no page and no other address space has changed.
  ghost predicate Reflagged(v: Vm, v': Vm, d: nat, lo: nat, hi: nat, w: bool)
  {
    && Inv(v') && IsDir(v, d) && IsDir(v', d) && Local(v, v', d, 0) && UsersKept(v, v', d, 0, 0)
        && v'.mem[d] == v.mem[d]
    && forall m: nat :: FlagEntry(v, v', d, lo, hi, w, m)
  }

  lemma ReflagStart(v: Vm, d: nat, lo: nat, w: bool)
    requires Inv(v) && IsDir(v, d)
    ensures Reflagged(v, v, d, lo, lo, w)
  {
  }

  lemma ReflagSkip(v: Vm, v1: Vm, d: nat, lo: nat, n: nat, w: bool)
    requires Reflagged(v, v1, d, lo, n, w) && lo <= n < PAGES && !HasTable(v1, d, n)
    ensures Reflagged(v, v1, d, lo, n + 1, w)
  {
    hide Inv, Pte, WithW;
    var n' := n + 1;
    forall m: nat ensures FlagEntry(v, v1, d, lo, n', w, m) { assert FlagEntry(v, v1, d, lo, n, w, m); }
  }

  lemma ReflagStep(v: Vm, v1: Vm, d: nat, lo: nat, n: nat, w: bool)
    requires Inv(v) && Reflagged(v, v1, d, lo, n, w) && lo <= n < KERNPAGE && HasTable(v1, d, n)
             && TableOf(v1, d, n) < |v1.mem|
    ensures Reflagged(v, PteStored(v1, d, n, WithW(Pte(v1, d, n), w)), d, lo, n + 1, w)
  {
    hide Inv, Pte, WithW, LocalFrame, UserKept, Present, FrameOf, TableOf;
    var e, n' := WithW(Pte(v1, d, n), w), n + 1;
    var v2 := PteStored(v1, d, n, e);
    WithWBits(Pte(v1, d, n), w);
    RestoredInv(v1, d, n, e);
    StoredElsewhere(v1, v2, d, n);
    LocalTrans(v, v1, v2, d, 0);
    UsersTrans(v, v1, v2, d, 0, 0);
    forall m: nat ensures FlagEntry(v, v2, d, lo, n', w, m) { assert FlagEntry(v, v1, d, lo, n, w, m); }
  }

  // What a program sees of mprotect: the same pages, writable exactly as
  // asked for on lo..hi and as before elsewhere.
  lemma ReflaggedSpace(v: Vm, v': Vm, d: nat, lo: nat, hi: nat, w: bool, sz: nat)
    requires Inv(v) && Space(v, d, sz) && Reflagged(v, v', d, lo, hi, w)
    ensures Space(v', d, sz)
    ensures forall m: nat :: m < KERNPAGE && Present(Pte(v, d, m)) ==>
      FrameOf(Pte(v', d, m)) == FrameOf(Pte(v, d, m)) && ForUser(Pte(v', d, m)) == ForUser(Pte(v, d, m))
      && Writable(Pte(v', d, m)) == if lo <= m < hi then w else Writable(Pte(v, d, m))
  {
    hide Inv, WithW, LocalFrame, UserKept, FrameOf, Writable, ForUser, TableOf;
    forall m: nat | m < KERNPAGE ensures SpaceEntry(v', d, sz, m)
      && (Present(Pte(v, d, m)) ==>
      FrameOf(Pte(v', d, m)) == FrameOf(Pte(v, d, m)) && ForUser(Pte(v', d, m)) == ForUser(Pte(v, d, m))
      && Writable(Pte(v', d, m)) == if lo <= m < hi then w else Writable(Pte(v, d, m))) {
      assert FlagEntry(v, v', d, lo, hi, w, m) && SpaceEntry(v, d, sz, m);
      WithWBits(Pte(v, d, m), w);
    }
  }

  // ---- exec ----

  // A new address space: exactly the pages below sz, all of them the user's
  // to write but for the guard page, and the kernel's mappings.
  ghost predicate Executable(v: Vm, v': Vm, d: nat, data: nat, sz: nat, guard: nat)
  {
    && Inv(v') && d !in v.owner && Local(v, v', d, 0) && Space(v', d, sz)
    && forall m: nat :: ExecEntry(v', d, data, sz, guard, m)
  }

  predicate ExecEntry(v: Vm, d: nat, data: nat, sz: nat, guard: nat, m: nat)
    requires d < |v.mem|
  {
    && (KERNPAGE <= m < PAGES ==> Pte(v, d, m) == KernPte(data, m))
    && (1 <= m < KERNPAGE && m < (sz + PGSIZE - 1) / PGSIZE ==>
        Writable(Pte(v, d, m)) && (ForUser(Pte(v, d, m)) <==> m != guard))
  }

  lemma ExecStart(v: Vm, v': Vm, d: nat, data: nat)
    requires KernMade(v, v', d, data, PAGES)
    ensures Executable(v, v', d, data, PGSIZE, 0)
  {
    hide Inv, Pte, LocalFrame;
    forall m: nat ensures SpaceEntry(v', d, PGSIZE, m) && ExecEntry(v', d, data, PGSIZE, 0, m) {
      assert KernEntry(v', d, data, PAGES, m);
    }
  }

  lemma ExecGrown(v: Vm, v1: Vm, v2: Vm, d: nat, data: nat, sz: nat, sz': nat)
    requires Executable(v, v1, d, data, sz, 0) && 0 < sz <= sz' < KERNPAGE * PGSIZE
    requires Grown(v1, v2, d, (sz + PGSIZE - 1) / PGSIZE, (sz' + PGSIZE - 1) / PGSIZE)
    ensures Executable(v, v2, d, data, sz', 0)
  {
    hide Inv, Pte, LocalFrame, UserKept, MakePte, Present, Writable, ForUser, KernPte;
    SpaceGrown(v1, v2, d, sz, sz');
    LocalTrans(v, v1, v2, d, 0);
    forall m: nat ensures ExecEntry(v2, d, data, sz', 0, m) {
      assert ExecEntry(v1, d, data, sz, 0, m);
      assert NewEntry(v1, v2, d, (sz + PGSIZE - 1) / PGSIZE, (sz' + PGSIZE - 1) / PGSIZE, m);
      if m < KERNPAGE && FrameOf(Pte(v2, d, m)) < PAGES { WUBits(FrameOf(Pte(v2, d, m))); }
    }
  }

  // Rounding up to a page boundary makes no page more.
  lemma ExecRounded(v: Vm, v': Vm, d: nat, data: nat, sz: nat)
    requires Executable(v, v', d, data, sz, 0)
    ensures Executable(v, v', d, data, (sz + PGSIZE - 1) / PGSIZE * PGSIZE, 0)
  {
    hide Inv, Pte, LocalFrame, Present, Writable, ForUser, KernPte;
    var sz' := (sz + PGSIZE - 1) / PGSIZE * PGSIZE;
    assert (sz' + PGSIZE - 1) / PGSIZE == (sz + PGSIZE - 1) / PGSIZE;
    forall m: nat ensures SpaceEntry(v', d, sz', m) { assert SpaceEntry(v', d, sz, m); }
    forall m: nat ensures ExecEntry(v', d, data, sz', 0, m) { assert ExecEntry(v', d, data, sz, 0, m); }
  }

  // clearpteu on the guard page.
  lemma ExecGuarded(v: Vm, v1: Vm, d: nat, data: nat, sz: nat, guard: nat)
    requires Executable(v, v1, d, data, sz, 0) && 1 <= guard < KERNPAGE && guard < (sz + PGSIZE - 1) / PGSIZE
    ensures HasTable(v1, d, guard) && TableOf(v1, d, guard) < |v1.mem|
    ensures Executable(v, PteStored(v1, d, guard, WithoutU(Pte(v1, d, guard))), d, data, sz, guard)
  {
    assert Present(Pte(v1, d, guard)) by { assert SpaceEntry(v1, d, sz, guard); }
    HasIt(v1, d, guard);
    hide Inv, Pte, LocalFrame, UserKept, Present, Writable, ForUser, KernPte, WithoutU, FrameOf, TableOf;
    var e := WithoutU(Pte(v1, d, guard));
    var v2 := PteStored(v1, d, guard, e);
    WithoutUBits(Pte(v1, d, guard));
    RestoredInv(v1, d, guard, e);
    LocalTrans(v, v1, v2, d, 0);
    forall m: nat ensures SpaceEntry(v2, d, sz, m) { assert SpaceEntry(v1, d, sz, m); }
    forall m: nat ensures ExecEntry(v2, d, data, sz, guard, m) { assert ExecEntry(v1, d, data, sz, 0, m); }
  }

  lemma HasIt(v: Vm, d: nat, n: nat)
    requires d < |v.mem| && n < PAGES && Present(Pte(v, d, n))
    ensures HasTable(v, d, n) && TableOf(v, d, n) < |v.mem|
  {
  }

  // A failed exec: its new space, whatever it has, is torn down.
  lemma ExecUndone(v: Vm, v1: Vm, v2: Vm, v3: Vm, d: nat, data: nat, sz: nat)
    requires Inv(v) && Executable(v, v1, d, data, sz, 0) && (v2 == v1 || Restored(v1, v2, d)) && Gone(v2, v3, d)
    ensures Same(v, v3)
  {
    hide Inv, Pte, LocalFrame, UserKept, Space, ExecEntry, MapEntry;
    if v2 != v1 { LocalTrans(v, v1, v2, d, 0); }
    MadeAndGone(v, v2, v3, d);
  }

  lemma ExecShape(v: Vm, v': Vm, d: nat, data: nat, sz: nat, guard: nat)
    requires Executable(v, v', d, data, sz, guard)
    ensures Inv(v') && IsDir(v', d) && |v'.mem| == |v.mem|
    ensures forall m: nat :: (sz + PGSIZE - 1) / PGSIZE <= m < KERNPAGE ==> !Present(Pte(v', d, m))
  {
    hide Inv, Pte, Present, LocalFrame, ExecEntry;
    forall m: nat | (sz + PGSIZE - 1) / PGSIZE <= m < KERNPAGE ensures !Present(Pte(v', d, m)) {
      assert SpaceEntry(v', d, sz, m);
    }
  }

  lemma RestoredShape(v: Vm, v': Vm, d: nat)
    requires Restored(v, v', d)
    ensures Inv(v') && IsDir(v', d)
  {
  }

  lemma RestoredSelf(v: Vm, d: nat)
    requires Inv(v) && IsDir(v, d)
    ensures Restored(v, v, d)
  {
    hide Inv, Pte;
    LocalSelf(v, d, 0);
  }

  lemma SpaceAbove(v: Vm, d: nat, sz: nat)
    requires Space(v, d, sz)
    ensures IsDir(v, d) && forall m: nat :: (sz + PGSIZE - 1) / PGSIZE <= m < KERNPAGE ==> !Present(Pte(v, d, m))
  {
    hide Pte, Present;
    forall m: nat | (sz + PGSIZE - 1) / PGSIZE <= m < KERNPAGE ensures !Present(Pte(v, d, m)) {
      assert SpaceEntry(v, d, sz, m);
    }
  }

  lemma ReflagShape(v: Vm, v': Vm, d: nat, lo: nat, hi: nat, w: bool)
    requires Reflagged(v, v', d, lo, hi, w)
    ensures Inv(v') && IsDir(v', d)
  {
  }
}
