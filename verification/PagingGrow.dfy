/** Adding pages to an address space: growing it (allocuvm), copying it
    (copyuvm) and mapping the kernel's part (setupkvm). Each adds one page or
    one table at a time. A step either succeeds, and then the page map gains
    exactly that page, or runs out of frames, and then nothing but the tables
    made so far has changed; freevm gives those back. */
module PagingGrow {
  import opened Blocks
  import opened Paging
  import opened PagingFree
  import opened PagingSteps

  // d has page n more than before: a frame that was free, holding the given
  // content. Nothing else has changed.
  ghost predicate PageAdded(v: Vm, v': Vm, d: nat, n: nat, page: Page, perm: nat)
  {
    && Inv(v') && IsDir(v, d) && IsDir(v', d) && Local(v, v', d, 0) && UsersKept(v, v', d, 0, 0)
    && n < PAGES && FrameOf(Pte(v', d, n)) < |v'.mem| && FrameOf(Pte(v', d, n)) !in v.owner
    && v'.mem[FrameOf(Pte(v', d, n))] == page
    && Entries(v, v', d, n, 1, FrameOf(Pte(v', d, n)), perm)
  }

  // kalloc, fill, mappages.
  lemma AddPage(v: Vm, v': Vm, d: nat, n: nat, page: Page, perm: nat)
    requires Inv(v) && IsDir(v, d) && v.free != [] && n < KERNPAGE && v.free[0] < |v.mem| && perm < 0x1000
    requires PagesMapped(Wrote(Popped(v), v.free[0], page), v', d, n, 1, v.free[0], perm)
    ensures PageAdded(v, v', d, n, page, perm)
  {
    hide Inv, Pte, LocalFrame, UserKept, FrameOf, MakePte, Present;
    var u := v.free[0];
    AddQuiet(v, d, page);
    var v2 := Wrote(Popped(v), u, page);
    LocalTrans(v, v2, v', d, u);
    Absorbed(v, v', d, u);
    UsersTrans(v, v2, v', d, 0, 0);
    AllocFacts(v);
    PteParts(u, perm);
    assert EntryOk(v2, v', d, n, 1, u, perm, n);
    forall m: nat ensures EntryOk(v, v', d, n, 1, u, perm, m) {
      assert EntryOk(v2, v', d, n, 1, u, perm, m) && EntryOk(v, v2, d, 0, 0, 0, 0, m);
    }
  }

  lemma AddQuiet(v: Vm, d: nat, page: Page)
    requires Inv(v) && IsDir(v, d) && v.free != [] && v.free[0] < |v.mem|
    ensures Quiet(v, Wrote(Popped(v), v.free[0], page), d, v.free[0]) && v.free[0] !in v.owner
  {
    hide Inv, Pte, Quiet;
    var u := v.free[0];
    PoppedQuiet(v, d);
    assert Inv(Popped(v)) && IsDir(Popped(v), d) by { PoppedInv(v); }
    WroteQuiet(Popped(v), d, u, page);
    QuietTrans(v, Popped(v), Wrote(Popped(v), u, page), d, u);
    AllocFacts(v);
  }

  // mappages failed, for want of a page table: the page is still held and d
  // is as it was.
  lemma AddFailed(v: Vm, v': Vm, d: nat, n: nat, page: Page, perm: nat)
    requires Inv(v) && IsDir(v, d) && v.free != [] && n < KERNPAGE && v.free[0] < |v.mem| && perm < 0x1000
    requires PagesMapped(Wrote(Popped(v), v.free[0], page), v', d, n, 0, v.free[0], perm)
    ensures Quiet(v, v', d, v.free[0]) && v.free[0] in v'.owner && v'.owner[v.free[0]].Held? && v.free[0] !in v.owner
    ensures v.free[0] < |v'.mem|
  {
    hide Inv, Pte, LocalFrame, UserKept, FrameOf, MakePte, Present;
    var u := v.free[0];
    AddQuiet(v, d, page);
    var v2 := Wrote(Popped(v), u, page);
    LocalTrans(v, v2, v', d, u);
    UsersTrans(v, v2, v', d, 0, 0);
    forall m: nat ensures EntryOk(v, v', d, 0, 0, 0, 0, m) {
      assert EntryOk(v2, v', d, n, 0, u, perm, m) && EntryOk(v, v2, d, 0, 0, 0, 0, m);
    }
  }

  // Giving that page back leaves no trace of it.
  lemma GaveBack(v: Vm, v': Vm, d: nat, u: nat)
    requires Inv(v) && Quiet(v, v', d, u) && u !in v.owner && u in v'.owner && v'.owner[u].Held? && u < |v'.mem|
    ensures Quiet(v, Pushed(v', u), d, 0)
  {
    hide Inv, Pte, LocalFrame, UserKept;
    PushedQuiet(v', d, u);
    QuietTrans(v, v', Pushed(v', u), d, u);
    Absorbed(v, Pushed(v', u), d, u);
  }

  // ---- allocuvm ----

  predicate NewEntry(v: Vm, v': Vm, d: nat, lo: nat, hi: nat, m: nat)
    requires d < |v.mem| && d < |v'.mem|
  {
    m < PAGES ==>
      if lo <= m < hi then FreshZero(v, v', d, m) else Pte(v', d, m) == Pte(v, d, m)
  }

  // Page m of d is a zeroed page, writable by the user, that was free before.
  predicate FreshZero(v: Vm, v': Vm, d: nat, m: nat)
    requires d < |v'.mem| && m < PAGES
  {
    && FrameOf(Pte(v', d, m)) < |v'.mem| && FrameOf(Pte(v', d, m)) < PAGES
    && Pte(v', d, m) == MakePte(FrameOf(Pte(v', d, m)), FLAGS_WU)
    && FrameOf(Pte(v', d, m)) !in v.owner && v'.mem[FrameOf(Pte(v', d, m))] == ZERO_PAGE
  }

  // Pages lo..hi of d are new; its other pages, and all other memory, are as
  // they were.
  ghost predicate Grown(v: Vm, v': Vm, d: nat, lo: nat, hi: nat)
  {
    && Inv(v') && IsDir(v, d) && IsDir(v', d) && Local(v, v', d, 0) && UsersKept(v, v', d, 0, 0)
    && forall m: nat :: NewEntry(v, v', d, lo, hi, m)
  }

  lemma GrowStart(v: Vm, d: nat, lo: nat)
    requires Inv(v) && IsDir(v, d)
    ensures Grown(v, v, d, lo, lo)
  {
    hide Inv, Pte;
  }

  lemma GrowStep(v: Vm, v1: Vm, v2: Vm, d: nat, lo: nat, n: nat)
    requires Inv(v) && Inv(v1) && Grown(v, v1, d, lo, n) && PageAdded(v1, v2, d, n, ZERO_PAGE, FLAGS_WU)
             && lo <= n < KERNPAGE
    ensures Grown(v, v2, d, lo, n + 1)
  {
    hide Inv, Pte, LocalFrame, UserKept, MakePte, Present;
    LocalTrans(v, v1, v2, d, 0);
    UsersTrans(v, v1, v2, d, 0, 0);
    var u, n' := FrameOf(Pte(v2, d, n)), n + 1;
    assert u !in v.owner by { Unowned(v, v1, d, u); }
    forall m: nat ensures NewEntry(v, v2, d, lo, n', m) {
      assert NewEntry(v, v1, d, lo, n, m) && EntryOk(v1, v2, d, n, 1, u, FLAGS_WU, m);
      if lo <= m < n {
        PteParts(FrameOf(Pte(v1, d, m)), FLAGS_WU);
        Unmoved(v1, v2, d, m);
      }
    }
  }

  // A page nobody owns now was nobody's before.
  lemma Unowned(v: Vm, v': Vm, d: nat, u: nat)
    requires Inv(v) && Local(v, v', d, 0) && UsersKept(v, v', d, 0, 0) && u !in v'.owner && IsDir(v, d) && IsDir(v', d)
    ensures u !in v.owner
  {
    NoFrameZero(v);
    assert LocalFrame(v, v', d, 0, u) && UserKept(v, v', d, 0, 0, u);
  }

  // A present user page keeps its content.
  lemma Unmoved(v: Vm, v': Vm, d: nat, m: nat)
    requires Inv(v) && IsDir(v, d) && m < KERNPAGE && Present(Pte(v, d, m)) && |v'.mem| == |v.mem|
             && UsersKept(v, v', d, 0, 0)
    ensures FrameOf(Pte(v, d, m)) < |v.mem| && v'.mem[FrameOf(Pte(v, d, m))] == v.mem[FrameOf(Pte(v, d, m))]
  {
    UserFrame(v, d, m);
    InvParts(v, 0);
    assert UserKept(v, v', d, 0, 0, FrameOf(Pte(v, d, m)));
  }

  // The entry is the same, or was and is not there.
  predicate MapEntry(v: Vm, v': Vm, d: nat, m: nat)
    requires d < |v.mem| && d < |v'.mem|
  {
    m < PAGES ==> Pte(v', d, m) == Pte(v, d, m) || (!Present(Pte(v', d, m)) && !Present(Pte(v, d, m)))
  }

  // d maps exactly what it did, to the same pages with the same content, and
  // no other memory has changed (d may have more page tables).
  ghost predicate Restored(v: Vm, v': Vm, d: nat)
  {
    && Inv(v') && IsDir(v, d) && IsDir(v', d) && Local(v, v', d, 0) && UsersKept(v, v', d, 0, 0)
    && forall m: nat :: MapEntry(v, v', d, m)
  }

  // Growing part of the way and trimming it all off again; u is a page held
  // for the kernel meanwhile, 0 if there is none.
  lemma Undone(v: Vm, v1: Vm, v2: Vm, v3: Vm, d: nat, lo: nat, n: nat, hi: nat, u: nat)
    requires Inv(v) && Grown(v, v1, d, lo, n) && Quiet(v1, v2, d, u) && Trimmed(v2, v3, d, lo, hi)
             && lo <= n <= hi <= KERNPAGE
    requires forall m: nat :: lo <= m < hi ==> !Present(Pte(v, d, m))
    requires u != 0 ==> u !in v1.owner && u in v2.owner && v2.owner[u].Held?
    ensures u == 0 ==> Restored(v, v3, d)
    ensures u != 0 ==> u in v3.owner && v3.owner[u].Held? && u < |v3.mem| && Restored(v, Pushed(v3, u), d)
  {
    hide Inv, Pte, LocalFrame, UserKept, MakePte, Present, FrameOf, NewEntry;
    assert Inv(v1) && Inv(v2) && Inv(v3);
    TrimmedLocal(v2, v3, d, lo, hi);
    UndoneUsers(v, v1, v2, v3, d, lo, n, hi);
    UndoneEntries(v, v1, v2, v3, d, lo, n, hi, u);
    if u == 0 {
      LocalTrans(v, v1, v2, d, 0);
      LocalTrans(v, v2, v3, d, 0);
    } else {
      Unexcepted(v2, v3, d, u);
      Unexcepted(v, v1, d, u);
      LocalTrans(v, v1, v2, d, u);
      LocalTrans(v, v2, v3, d, u);
      Unowned(v, v1, d, u);
      assert TrimmedFrame(v2, v3, d, lo, hi, u);
      Owned(v3, u);
      PushedQuiet(v3, d, u);
      LocalTrans(v, v3, Pushed(v3, u), d, u);
      Absorbed(v, Pushed(v3, u), d, u);
      UsersTrans(v, v3, Pushed(v3, u), d, 0, 0);
      forall m: nat ensures MapEntry(v, Pushed(v3, u), d, m) {
        assert MapEntry(v, v3, d, m) && EntryOk(v3, Pushed(v3, u), d, 0, 0, 0, 0, m);
      }
    }
  }

  lemma UndoneUsers(v: Vm, v1: Vm, v2: Vm, v3: Vm, d: nat, lo: nat, n: nat, hi: nat)
    requires Inv(v) && |v1.mem| == |v.mem| && |v2.mem| == |v.mem| && |v3.mem| == |v.mem|
    requires UsersKept(v, v1, d, 0, 0) && UsersKept(v1, v2, d, 0, 0) && UsersKept(v2, v3, d, lo, hi) && IsDir(v, d)
    requires forall m: nat :: lo <= m < hi && m < PAGES ==> !Present(Pte(v, d, m))
    ensures UsersKept(v, v3, d, 0, 0)
  {
    hide Inv, Pte;
    forall p: nat ensures UserKept(v, v3, d, 0, 0, p) {
      assert UserKept(v, v1, d, 0, 0, p) && UserKept(v1, v2, d, 0, 0, p) && UserKept(v2, v3, d, lo, hi, p);
      if p in v.owner { Owned(v, p); }
    }
  }

  lemma UndoneEntries(v: Vm, v1: Vm, v2: Vm, v3: Vm, d: nat, lo: nat, n: nat, hi: nat, u: nat)
    requires Grown(v, v1, d, lo, n) && Quiet(v1, v2, d, u) && Trimmed(v2, v3, d, lo, hi) && n <= hi
    requires forall m: nat :: lo <= m < hi && m < PAGES ==> !Present(Pte(v, d, m))
    ensures forall m: nat :: MapEntry(v, v3, d, m)
  {
    hide Inv, Pte, LocalFrame, UserKept, FreshZero;
    forall m: nat ensures MapEntry(v, v3, d, m) {
      assert NewEntry(v, v1, d, lo, n, m) && EntryOk(v1, v2, d, 0, 0, 0, 0, m) && TrimmedEntry(v2, v3, d, lo, hi, m);
    }
  }

  lemma GrownShape(v: Vm, v': Vm, d: nat, lo: nat, hi: nat)
    requires Inv(v) && Grown(v, v', d, lo, hi)
    ensures Inv(v') && IsDir(v', d) && |v'.mem| == |v.mem| && v'.hi == v.hi && v'.hi < PAGES && v'.hi <= |v'.mem|
    ensures hi < PAGES && hi >= lo ==> Pte(v', d, hi) == Pte(v, d, hi)
  {
    hide Pte, LocalFrame, UserKept, NewEntry;
    if hi < PAGES && hi >= lo { AtEdge(v, v', d, lo, hi); }
  }

  lemma AtEdge(v: Vm, v': Vm, d: nat, lo: nat, hi: nat)
    requires Grown(v, v', d, lo, hi) && lo <= hi < PAGES
    ensures Pte(v', d, hi) == Pte(v, d, hi)
  {
    hide Pte, FreshZero;
    assert NewEntry(v, v', d, lo, hi, hi);
  }

  // ---- setupkvm ----

  // The kernel's own mappings: I/O space, text, data and memory, devices.
  // data is the page of the kernel's data, as linked.
  const EXTPAGE: nat := 0x8_0100        // KERNLINK / PGSIZE
  const TOPPAGE: nat := 0x8_E000        // P2V(PHYSTOP) / PGSIZE
  const DEVPAGE: nat := 0xF_E000        // DEVSPACE / PGSIZE

  function KernPte(data: nat, m: nat): word
    requires m < PAGES
  {
    if m < KERNPAGE then 0
    else if m < EXTPAGE then MakePte(m - KERNPAGE, 2)
    else if m < data && m < TOPPAGE then MakePte(m - KERNPAGE, 0)
    else if m < TOPPAGE then MakePte(m - KERNPAGE, 2)
    else if m < DEVPAGE then 0
    else MakePte(m, 2)
  }

  /** One line of kmap: pages from virt on refer to frames from phys on. */
  datatype Region = Region(virt: nat, phys: nat, count: nat, perm: nat)

  function Kmap(data: nat): (s: seq<Region>)
    requires EXTPAGE < data < TOPPAGE
    ensures |s| == 4
  {
    [Region(KERNPAGE, 0, EXTPAGE - KERNPAGE, 2), Region(EXTPAGE, EXTPAGE - KERNPAGE, data - EXTPAGE, 0),
     Region(data, data - KERNPAGE, TOPPAGE - data, 2), Region(DEVPAGE, DEVPAGE, PAGES - DEVPAGE, 2)]
  }

  // Where the part of the address space above the first j regions begins.
  function KernTop(data: nat, j: nat): nat
    requires EXTPAGE < data < TOPPAGE && j <= 4
  {
    if j == 4 then PAGES else Kmap(data)[j].virt
  }

  predicate KernEntry(v: Vm, d: nat, data: nat, top: nat, m: nat)
    requires d < |v.mem|
  {
    m < PAGES ==> Pte(v, d, m) == if m < top then KernPte(data, m) else 0
  }

  // d, which v did not have, has the kernel's mappings below top and nothing
  // else.
  ghost predicate KernMade(v: Vm, v': Vm, d: nat, data: nat, top: nat)
  {
    && Inv(v') && IsDir(v', d) && d !in v.owner && Local(v, v', d, 0)
    && forall m: nat :: KernEntry(v', d, data, top, m)
  }

  lemma KernStart(v: Vm, data: nat)
    requires Inv(v) && v.free != [] && v.free[0] < |v.mem|
    ensures var v2 := Wrote(Popped(v), v.free[0], ZERO_PAGE);
      v.free[0] in v2.owner && KernMade(v, v2.(owner := v2.owner[v.free[0] := Dir]), v.free[0], data, KERNPAGE)
  {
    hide Inv, Pte, LocalFrame, UserKept, EntryOk;
    var u := v.free[0];
    PoppedInv(v);
    var v1 := Popped(v);
    WroteInv(v1, u, ZERO_PAGE);
    var v2 := Wrote(v1, u, ZERO_PAGE);
    NewDirInv(v2, u);
    var v3 := v2.(owner := v2.owner[u := Dir]);
    assert Local(v, v2, u, u) by { PoppedLocal(v); }
    LocalTrans(v, v2, v3, u, u);
    Absorbed(v, v3, u, u);
    forall m: nat ensures KernEntry(v3, u, data, KERNPAGE, m) {
      if m < PAGES { ZeroDir(v3, u, m); }
    }
  }

  lemma PoppedLocal(v: Vm)
    requires Inv(v) && v.free != [] && v.free[0] < |v.mem|
    ensures Local(v, Wrote(Popped(v), v.free[0], ZERO_PAGE), v.free[0], v.free[0])
  {
    hide Inv;
    PoppedInv(v);
    var v', u := Wrote(Popped(v), v.free[0], ZERO_PAGE), v.free[0];
    forall p: nat ensures LocalFrame(v, v', u, u, p) {
      if p in v.owner { Stranger(v, u, p); }
    }
  }

  // One region done.
  lemma KernStep(v: Vm, v1: Vm, v2: Vm, d: nat, data: nat, j: nat, k: nat)
    requires Inv(v) && EXTPAGE < data < TOPPAGE && j < 4 && KernMade(v, v1, d, data, KernTop(data, j))
    requires var r := Kmap(data)[j]; PagesMapped(v1, v2, d, r.virt, k, r.phys, r.perm) && k <= r.count
    ensures Inv(v2) && IsDir(v2, d) && d !in v.owner && Local(v, v2, d, 0)
    ensures k == Kmap(data)[j].count ==> KernMade(v, v2, d, data, KernTop(data, j + 1))
    ensures k < Kmap(data)[j].count ==> Pte(v2, d, Kmap(data)[j].virt + k) == 0
  {
    hide Inv, Pte, LocalFrame, UserKept, MakePte;
    var r := Kmap(data)[j];
    LocalTrans(v, v1, v2, d, 0);
    var top, top' := KernTop(data, j), KernTop(data, j + 1);
    forall m: nat | m < PAGES
      ensures Pte(v2, d, m) == if r.virt <= m < r.virt + k then MakePte(r.phys + (m - r.virt), r.perm)
                               else if m < top then KernPte(data, m) else 0
    {
      assert EntryOk(v1, v2, d, r.virt, k, r.phys, r.perm, m) && KernEntry(v1, d, data, top, m);
    }
    if k == r.count {
      forall m: nat ensures KernEntry(v2, d, data, top', m) { }
    }
  }

  lemma QuietShape(v: Vm, v': Vm, d: nat, u: nat, n: nat)
    requires Quiet(v, v', d, u)
    ensures Inv(v') && IsDir(v', d) && |v'.mem| == |v.mem| && v'.lo == v.lo && v'.hi == v.hi
    ensures n < PAGES ==> Pte(v', d, n) == Pte(v, d, n)
  {
    hide Inv, Pte, LocalFrame, UserKept;
    assert EntryOk(v, v', d, 0, 0, 0, 0, n);
  }

  // mappages stopped before its first page: that entry is as it was.
  lemma MappedNot(v: Vm, v': Vm, d: nat, n: nat, frame: nat, perm: nat)
    requires PagesMapped(v, v', d, n, 0, frame, perm) && n < PAGES
    ensures Inv(v') && IsDir(v', d) && |v'.mem| == |v.mem| && Pte(v', d, n) == Pte(v, d, n)
  {
    hide Inv, Pte, LocalFrame, UserKept;
    assert EntryOk(v, v', d, n, 0, frame, perm, n);
  }

  // ---- copyuvm ----

  // Page m of c is a copy of page m of d, in a frame that was free in v.
  predicate PageCopied(v: Vm, v': Vm, d: nat, c: nat, m: nat)
    requires d < |v.mem| && c < |v'.mem| && m < PAGES
  {
    && Present(Pte(v, d, m)) && Present(Pte(v', c, m)) && FlagsOf(Pte(v', c, m)) == FlagsOf(Pte(v, d, m))
    && FrameOf(Pte(v, d, m)) < |v.mem| && FrameOf(Pte(v', c, m)) < |v'.mem|
    && v'.mem[FrameOf(Pte(v', c, m))] == v.mem[FrameOf(Pte(v, d, m))]
    && FrameOf(Pte(v', c, m)) !in v.owner
  }

  predicate CopyEntry(v: Vm, v': Vm, d: nat, c: nat, data: nat, n: nat, m: nat)
    requires d < |v.mem| && c < |v'.mem|
  {
    m < PAGES ==> if 1 <= m < n then PageCopied(v, v', d, c, m) else Pte(v', c, m) == KernPte(data, m)
  }

  // c is a new address space with the kernel's mappings and copies of the
  // pages 1..n of d. Nothing that v had has changed.
  ghost predicate Copied(v: Vm, v': Vm, d: nat, c: nat, data: nat, n: nat)
  {
    && Inv(v') && IsDir(v, d) && IsDir(v', c) && c !in v.owner && Local(v, v', c, 0)
    && forall m: nat :: CopyEntry(v, v', d, c, data, n, m)
  }

  lemma CopyStart(v: Vm, v': Vm, d: nat, c: nat, data: nat)
    requires Inv(v) && IsDir(v, d) && KernMade(v, v', c, data, PAGES)
    ensures Copied(v, v', d, c, data, 1)
  {
    hide Inv, Pte, LocalFrame;
    forall m: nat ensures CopyEntry(v, v', d, c, data, 1, m) { assert KernEntry(v', c, data, PAGES, m); }
  }

  // The source of the next copy is as it was in v.
  lemma SourceKept(v: Vm, v': Vm, d: nat, c: nat, data: nat, n: nat, m: nat)
    requires Inv(v) && Copied(v, v', d, c, data, n) && m < KERNPAGE
    ensures c != d && IsDir(v', d) && |v'.mem| == |v.mem| && Pte(v', d, m) == Pte(v, d, m)
    ensures Present(Pte(v, d, m)) ==>
            FrameOf(Pte(v, d, m)) < |v.mem| && v'.mem[FrameOf(Pte(v, d, m))] == v.mem[FrameOf(Pte(v, d, m))]
    ensures Present(Pte(v, d, m)) ==> FrameOf(Pte(v, d, m)) in v.owner
  {
    hide Inv, Pte, LocalFrame, UserKept, PageCopied;
    LocalOther(v, v', c, d);
    if Present(Pte(v, d, m)) {
      Unmoved(v, v', d, m);
      UserFrame(v, d, m);
    }
  }

  lemma CopyStep(v: Vm, v1: Vm, v2: Vm, d: nat, c: nat, data: nat, n: nat, page: Page)
    requires Inv(v) && Copied(v, v1, d, c, data, n) && 1 <= n < KERNPAGE && Present(Pte(v, d, n))
    requires FrameOf(Pte(v, d, n)) < |v.mem| && page == v.mem[FrameOf(Pte(v, d, n))]
    requires PageAdded(v1, v2, c, n, page, FlagsOf(Pte(v, d, n)))
    ensures Copied(v, v2, d, c, data, n + 1)
  {
    hide Inv, Pte, LocalFrame, UserKept, MakePte, Present, KernPte, FlagsOf;
    LocalTrans(v, v1, v2, c, 0);
    var u, n', perm := FrameOf(Pte(v2, c, n)), n + 1, FlagsOf(Pte(v, d, n));
    assert u !in v.owner by { StillFree(v, v1, c, u); }
    assert EntryOk(v1, v2, c, n, 1, u, perm, n);
    PteParts(u, perm);
    FlagsPresent(Pte(v, d, n));
    forall m: nat ensures CopyEntry(v, v2, d, c, data, n', m) {
      assert CopyEntry(v, v1, d, c, data, n, m) && EntryOk(v1, v2, c, n, 1, u, perm, m);
      if 1 <= m < n { Unmoved(v1, v2, c, m); }
    }
  }

  lemma FlagsPresent(e: word)
    ensures Present(e) <==> FlagsOf(e) % 2 == 1
  {
  }

  lemma StillFree(v: Vm, v': Vm, c: nat, u: nat)
    requires Inv(v) && c !in v.owner && Local(v, v', c, 0) && u !in v'.owner
    ensures u !in v.owner
  {
    NoFrameZero(v);
    assert LocalFrame(v, v', c, 0, u);
    if u in v.owner { Stranger(v, c, u); }
  }

  // After a failed copy: what is left of c is Local to it, so tearing c down
  // leaves memory as it was.
  lemma CopyUndone(v: Vm, v1: Vm, v2: Vm, v3: Vm, d: nat, c: nat, data: nat, n: nat)
    requires Inv(v) && Copied(v, v1, d, c, data, n) && Quiet(v1, v2, c, 0) && Gone(v2, v3, c)
    ensures Same(v, v3)
  {
    hide Inv, Pte, LocalFrame, UserKept, CopyEntry;
    LocalTrans(v, v1, v2, c, 0);
    MadeAndGone(v, v2, v3, c);
  }

  lemma CopiedShape(v: Vm, v': Vm, d: nat, c: nat, data: nat, n: nat)
    requires Copied(v, v', d, c, data, n)
    ensures Inv(v') && IsDir(v', c) && IsDir(v, d) && v'.hi < PAGES && 0 < v'.lo && v'.hi <= |v'.mem| == |v.mem|
    ensures n < KERNPAGE && 1 <= n ==> Pte(v', c, n) == 0
  {
    hide Pte, LocalFrame, PageCopied;
    assert CopyEntry(v, v', d, c, data, n, n);
  }

  lemma KernShape(v: Vm, v': Vm, d: nat, data: nat, top: nat)
    requires KernMade(v, v', d, data, top)
    ensures Inv(v') && IsDir(v', d) && d !in v.owner && Local(v, v', d, 0)
  {
  }

  // ---- how many page tables that can take ----

  // The tables that hold the entries of k pages from n on.
  function Tables(n: nat, k: nat): nat
  {
    if k == 0 then 0 else (n + k - 1) / NPT - n / NPT + 1
  }

  lemma TablesNext(n: nat, k: nat)
    ensures Tables(n, k + 1) == Tables(n, k) + if 0 < k && (n + k) / NPT == (n + k - 1) / NPT then 0 else 1
  {
  }

  lemma TablesMore(n: nat, j: nat, k: nat)
    requires j <= k
    ensures Tables(n, j) <= Tables(n, k)
  {
  }

  // Next to a page that is mapped there is a table already.
  lemma TableThere(v: Vm, v1: Vm, d: nat, n: nat, k: nat, frame: nat, perm: nat)
    requires PagesMapped(v, v1, d, n, k, frame, perm) && 0 < k && n + k < PAGES && (n + k) / NPT == (n + k - 1) / NPT
    ensures HasTable(v1, d, n + k)
  {
    hide Inv, LocalFrame, UserKept, MakePte;
    assert EntryOk(v, v1, d, n, k, frame, perm, n + k - 1);
    PteParts(frame + k - 1, perm);
  }

  // The directory and the tables of the kernel's regions are no more.
  const KERNTABLES: nat := 130

  function KernTables(data: nat, j: nat): nat
    requires EXTPAGE < data < TOPPAGE && j <= 4
  {
    if j == 0 then 0 else KernTables(data, j - 1) + Tables(Kmap(data)[j - 1].virt, Kmap(data)[j - 1].count)
  }

  lemma KernTablesBound(data: nat, j: nat)
    requires EXTPAGE < data < TOPPAGE && j <= 4
    ensures j < 4 ==> KernTables(data, j) + Tables(Kmap(data)[j].virt, Kmap(data)[j].count) == KernTables(data, j + 1)
    ensures KernTables(data, j) < KERNTABLES
  {
    assert KernTables(data, 1) == 1;
    assert KernTables(data, 2) == 1 + (data - 1) / NPT - EXTPAGE / NPT + 1;
    assert KernTables(data, 3) == KernTables(data, 2) + (TOPPAGE - 1) / NPT - data / NPT + 1;
    assert KernTables(data, 4) == KernTables(data, 3) + 8;
  }

  lemma RegionOk(data: nat, j: nat)
    requires EXTPAGE < data < TOPPAGE && j < 4
    ensures var r := Kmap(data)[j];
            KERNPAGE <= r.virt && 0 < r.count && r.virt + r.count <= PAGES && r.phys + r.count <= PAGES
                && r.perm < 0x1000
    ensures KernTop(data, 0) == KERNPAGE && KernTop(data, 4) == PAGES && KernTables(data, 0) == 0
  {
  }
}
