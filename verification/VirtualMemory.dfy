/** The page allocator and the virtual memory code over physical memory. */
module VirtualMemory {
  import opened Blocks
  import opened Options
  import opened Paging
  import opened PagingAccess
  import opened PagingFree
  import opened PagingGrow
  import opened PagingProtect
  import opened PagingSteps

  /** What mappages comes back with; Remap is the panic. */
  datatype MapResult = Done | NoMemory | Remap

  function PageUp(a: nat): nat { (a + PGSIZE - 1) / PGSIZE }    // PGROUNDUP(a) / PGSIZE

  class Machine {
    const lo: nat
    const hi: nat
    var mem: seq<Page>
    var free: seq<nat>
    ghost var owner: map<nat, Use>

    ghost function State(): Vm
      reads this
    {
      Vm(lo, hi, mem, free, owner)
    }

    method Kalloc() returns (r: Option<nat>)
      modifies `free, `owner
      ensures old(free) == [] ==> r.None? && State() == old(State())
      ensures old(free) != [] ==> r == Some(old(free)[0]) && State() == Popped(old(State()))
    {
      if free == [] {
        return None;
      }
      r := Some(free[0]);
      owner := owner[free[0] := Held];
      free := free[1..];
    }

    // false is the panic for a page that is not the allocator's.
    method Kfree(p: nat) returns (ok: bool)
      requires p < |mem|
      modifies `mem, `free, `owner
      ensures ok <==> lo <= p < hi
      ensures State() == if ok then Pushed(old(State()), p) else old(State())
      ensures ok ==> free == [p] + old(free) && |mem[p]| == NPT && forall k :: 0 <= k < NPT ==> mem[p][k] == 0x0101_0101
    {
      if p < lo || hi <= p {
        return false;
      }
      mem := mem[p := JUNK_PAGE];
      free := [p] + free;
      owner := owner - {p};
      return true;
    }

    // The table that holds the entry for page n of d; with alloc set, a table
    // that is missing is made.
    method Walkpgdir(d: nat, n: nat, alloc: bool) returns (t: Option<nat>)
      requires Inv(State()) && IsDir(State(), d) && n < PAGES
      modifies `mem, `free, `owner
      ensures Quiet(old(State()), State(), d, 0)
      ensures t.Some? <==> HasTable(State(), d, n)
      ensures t.Some? ==> t.value == TableOf(State(), d, n) < |mem|
      ensures t.Some? ==> d < |mem| && Writable(mem[d][n / NPT]) && ForUser(mem[d][n / NPT])
      ensures !alloc || HasTable(old(State()), d, n) || t.None? ==> State() == old(State())
      ensures alloc && t.None? ==> free == []
      ensures |free| + (if HasTable(old(State()), d, n) then 0 else 1) >= |old(free)|
    {
      hide Inv, Quiet, Pte;
      ghost var v := State();
      QuietSelf(v, d, 0);
      var pde := mem[d][n / NPT];
      if Present(pde) {
        TableFrame(v, d, n);
        TableFlags(v, d, n);
        InvParts(v, d);
        return Some(FrameOf(pde));
      }
      if !alloc {
        return None;
      }
      var page := Kalloc();
      if page.None? {
        return None;
      }
      var pgtab := page.value;
      AllocFacts(v);
      mem := mem[pgtab := ZERO_PAGE];
      mem := mem[d := mem[d][n / NPT := MakePte(pgtab, FLAGS_WU)]];
      owner := owner[pgtab := Table(d, n / NPT)];
      PteParts(pgtab, FLAGS_WU);
      WUBits(pgtab);
      NewTable(v, d, n);
      assert State() == Linked(Wrote(Popped(v), pgtab, ZERO_PAGE), d, n, pgtab);
      return Some(pgtab);
    }

    // Entries for count consecutive pages from n on, referring to consecutive
    // frames; k says how many were made. A user page comes alone, and its
    // frame was held for it.
    method Mappages(d: nat, n: nat, count: nat, frame: nat, perm: nat) returns (r: MapResult, ghost k: nat)
      requires Inv(State()) && IsDir(State(), d) && 0 < count && n + count <= PAGES && frame + count <= PAGES
               && perm < 0x1000
      requires n < KERNPAGE ==> count == 1 && frame in owner && owner[frame].Held?
      modifies `mem, `free, `owner
      ensures k <= count && PagesMapped(old(State()), State(), d, n, k, frame, perm)
      ensures r.Done? <==> k == count
      ensures r.NoMemory? ==> free == []
      ensures |free| + Tables(n, if r.Remap? then k + 1 else k) >= |old(free)|
      ensures r.Remap? ==> k < count && Present(Pte(State(), d, n + k))
    {
      hide Inv, Quiet, Pte, PagesMapped;
      ghost var v := State();
      var a, last, pa := n, n + count - 1, frame;
      k := 0;
      PagesStart(v, d, n, frame, perm);
      while true
        invariant k < count && a == n + k && pa == frame + k
        invariant Inv(State()) && IsDir(State(), d)
        invariant PagesMapped(v, State(), d, n, k, frame, perm)
        invariant |free| + Tables(n, k) >= |old(free)|
        decreases count - k
      {
        ghost var v1 := State();
        if 0 < k && (n + k) / NPT == (n + k - 1) / NPT { TableThere(v, v1, d, n, k, frame, perm); }
        TablesNext(n, k);
        var t := Walkpgdir(d, a, true);
        ghost var v2 := State();
        PagesWalked(v, v1, v2, d, n, k, frame, perm);
        if t.None? {
          return NoMemory, k;
        }
        PteIs(v2, d, a);
        if Present(mem[t.value][a % NPT]) {
          return Remap, k;
        }
        mem := mem[t.value := mem[t.value][a % NPT := MakePte(pa, perm)]];
        if a < KERNPAGE { owner := owner[pa := User(d, a)]; }
        PagesNext(v, v2, State(), d, n, k, frame, perm);
        k := k + 1;
        if a == last {
          break;
        }
        a := a + 1;
        pa := pa + 1;
      }
      return Done, k;
    }

    // Unmaps and frees the user pages between the two sizes, whatever holes
    // there are; panicked would be kfree's or the one for frame 0.
    method Deallocuvm(d: nat, oldsz: nat, newsz: nat) returns (r: nat, panicked: bool)
      requires Inv(State()) && IsDir(State(), d) && oldsz <= KERNPAGE * PGSIZE
      modifies `mem, `free, `owner
      ensures !panicked
      ensures newsz >= oldsz ==> r == oldsz && State() == old(State())
      ensures newsz < oldsz ==> r == newsz && Trimmed(old(State()), State(), d, PageUp(newsz), PageUp(oldsz))
    {
      hide Inv, Pte, Trimmed, Quiet;
      if newsz >= oldsz {
        return oldsz, false;
      }
      ghost var v := State();
      var a := PageUp(newsz);
      ghost var top := PageUp(oldsz);
      TrimStart(v, d, a);
      while a * PGSIZE < oldsz
        invariant PageUp(newsz) <= a && Inv(State()) && IsDir(State(), d)
        invariant Trimmed(v, State(), d, PageUp(newsz), if a < top then a else top)
        decreases top - a
      {
        ghost var v1 := State();
        var t := Walkpgdir(d, a, false);
        if t.None? {
          ghost var skipped := (a / NPT + 1) * NPT;
          TrimHole(v, v1, d, PageUp(newsz), a, if skipped < top then skipped else top);
          a := (a / NPT + 1) * NPT - 1;
        } else if Present(mem[t.value][a % NPT]) {
          PteIs(v1, d, a);
          TrimStep(v, v1, d, PageUp(newsz), a);
          var pa := FrameOf(mem[t.value][a % NPT]);
          if pa == 0 {
            return newsz, true;
          }
          var ok := Kfree(pa);
          if !ok {
            return newsz, true;
          }
          mem := mem[t.value := mem[t.value][a % NPT := 0]];
          assert State() == Pushed(Unmapped(v1, d, a), pa);
          TrimShape(v, State(), d, PageUp(newsz), a + 1);
        } else {
          PteIs(v1, d, a);
          TrimSkip(v, v1, d, PageUp(newsz), a, a + 1);
        }
        a := a + 1;
      }
      return newsz, false;
    }

    // Frees every page of the address space d: its user pages, its tables,
    // its directory.
    method Freevm(d: nat) returns (panicked: bool)
      requires Inv(State()) && IsDir(State(), d)
      modifies `mem, `free, `owner
      ensures !panicked
      ensures Gone(old(State()), State(), d)
    {
      hide Inv, Pte, Trimmed, Gone, Torn, NoUserPages;
      ghost var v := State();
      var _, failed := Deallocuvm(d, KERNPAGE * PGSIZE, 0);
      ghost var v1 := State();
      TrimShape(v, v1, d, 0, KERNPAGE);
      AllTrimmed(v, v1, d);
      TornStart(v1, d);
      owner := Dismantled(v1, d).owner;
      assert State() == Dismantled(v1, d);
      var i := 0;
      while i < NPT
        invariant i <= NPT && |mem| == |v.mem| && d < |mem|
        invariant Torn(v1, State(), d, i)
      {
        TornStep(v1, State(), d, i);
        if Present(mem[d][i]) {
          var ok := Kfree(FrameOf(mem[d][i]));
          if !ok {
            return true;
          }
        }
        i := i + 1;
      }
      TornEnd(v1, State(), d);
      var ok := Kfree(d);
      FreedAll(v, v1, State(), d);
      panicked := !ok;
    }

    // Grows d from oldsz to newsz bytes with zeroed pages. A failure gives
    // back every page and leaves d mapping exactly what it did; the two
    // panics underneath do not happen.
    method Allocuvm(d: nat, oldsz: nat, newsz: nat) returns (r: nat, panicked: bool)
      requires Inv(State()) && IsDir(State(), d)
      requires newsz < KERNPAGE * PGSIZE ==>
               forall m: nat :: PageUp(oldsz) <= m < PageUp(newsz) ==> !Present(Pte(State(), d, m))
      modifies `mem, `free, `owner
      ensures !panicked
      ensures newsz >= KERNPAGE * PGSIZE ==> r == 0 && State() == old(State())
      ensures newsz < KERNPAGE * PGSIZE && newsz < oldsz ==> r == oldsz && State() == old(State())
      ensures newsz < KERNPAGE * PGSIZE && newsz >= oldsz ==>
        || (r == newsz && Grown(old(State()), State(), d, PageUp(oldsz), PageUp(newsz))
            && |free| + 2 * (PageUp(newsz) - PageUp(oldsz)) >= |old(free)|)
        || (r == 0 && Restored(old(State()), State(), d) && |old(free)| < 2 * (PageUp(newsz) - PageUp(oldsz)))
    {
      hide Inv, Pte, Grown, Trimmed, Quiet, PagesMapped, Restored, PageAdded, Present;
      if newsz >= KERNPAGE * PGSIZE {
        return 0, false;
      }
      if newsz < oldsz {
        return oldsz, false;
      }
      ghost var v, first := State(), PageUp(oldsz);
      var a := PageUp(oldsz);
      GrowStart(v, d, a);
      while a * PGSIZE < newsz
        invariant first <= a <= PageUp(newsz) && Inv(State()) && IsDir(State(), d)
        invariant Grown(v, State(), d, first, a) && |free| + 2 * (a - first) >= |old(free)|
      {
        ghost var v1 := State();
        GrownShape(v, v1, d, first, a);
        var page := Kalloc();
        if page.None? {
          QuietSelf(v1, d, 0);
          r, panicked := Deallocuvm(d, newsz, oldsz);
          TrimSame(v1, State(), d, newsz, oldsz);
          Undone(v, v1, v1, State(), d, first, a, PageUp(newsz), 0);
          return 0, panicked;
        }
        var u := page.value;
        AllocFacts(v1);
        AddQuiet(v1, d, ZERO_PAGE);
        QuietShape(v1, Wrote(Popped(v1), u, ZERO_PAGE), d, u, a);
        mem := mem[u := ZERO_PAGE];
        ghost var v3 := State();
        var mapped, k := Mappages(d, a, 1, u, FLAGS_WU);
        ghost var v4 := State();
        if k == 0 { MappedNot(v3, v4, d, a, u, FLAGS_WU); }
        r, panicked := 0, mapped.Remap?;
        if panicked {
          return;
        }
        if mapped.NoMemory? {
          AddFailed(v1, v4, d, a, ZERO_PAGE, FLAGS_WU);
          r, panicked := Deallocuvm(d, newsz, oldsz);
          TrimSame(v4, State(), d, newsz, oldsz);
          Undone(v, v1, v4, State(), d, first, a, PageUp(newsz), u);
          var ok := Kfree(u);
          return 0, panicked || !ok;
        }
        AddPage(v1, State(), d, a, ZERO_PAGE, FLAGS_WU);
        GrowStep(v, v1, State(), d, first, a);
        GrownShape(v, State(), d, first, a + 1);
        a := a + 1;
      }
      return newsz, false;
    }

    // A new address space with exactly the kernel's mappings, or none and
    // nothing changed.
    method Setupkvm(data: nat) returns (r: Option<nat>, panicked: bool)
      requires Inv(State()) && EXTPAGE < data < TOPPAGE
      modifies `mem, `free, `owner
      ensures !panicked
      ensures r.Some? ==> KernMade(old(State()), State(), r.value, data, PAGES) && |free| + KERNTABLES >= |old(free)|
      ensures r.None? ==> Same(old(State()), State()) && |old(free)| <= KERNTABLES
    {
      hide Inv, Pte, PagesMapped, KernMade, Gone, Present, KernPte, KernTables, Tables, Kmap, KernTop;
      ghost var v := State();
      r := Kalloc();
      if r.None? {
        return None, false;
      }
      var d := r.value;
      AllocFacts(v);
      KernStart(v, data);
      mem := mem[d := ZERO_PAGE];
      owner := owner[d := Dir];
      KernShape(v, State(), d, data, KERNPAGE);
      RegionOk(data, 0);
      var kmap := Kmap(data);
      var i := 0;
      while i < |kmap|
        invariant i <= |kmap| && Inv(State()) && IsDir(State(), d)
        invariant KernMade(v, State(), d, data, KernTop(data, i))
        invariant |free| + 1 + KernTables(data, i) >= |old(free)|
      {
        ghost var v1 := State();
        KernTablesBound(data, i);
        KernTablesBound(data, i + 1);
        RegionOk(data, i);
        var mapped, k := Mappages(d, kmap[i].virt, kmap[i].count, kmap[i].phys, kmap[i].perm);
        TablesMore(kmap[i].virt, k, kmap[i].count);
        KernStep(v, v1, State(), d, data, i, k);
        if k < kmap[i].count { NotPresent(State(), d, kmap[i].virt + k); }
        panicked := mapped.Remap?;
        if panicked {
          return;
        }
        if mapped.NoMemory? {
          ghost var v2 := State();
          panicked := Freevm(d);
          MadeAndGone(v, v2, State(), d);
          return None, panicked;
        }
        i := i + 1;
      }
      KernTablesBound(data, i);
      RegionOk(data, 0);
      return Some(d), false;
    }

    // A copy of the first sz bytes of d, without page 0: the same contents and
    // flags in pages of its own, or no copy and nothing changed. It panics
    // only on a page that is missing from d.
    method Copyuvm(d: nat, sz: nat, data: nat) returns (r: Option<nat>, panicked: bool)
      requires Inv(State()) && IsDir(State(), d) && sz <= KERNPAGE * PGSIZE && EXTPAGE < data < TOPPAGE
      modifies `mem, `free, `owner
      ensures panicked ==> exists n: nat :: 1 <= n < PageUp(sz) && !Present(Pte(old(State()), d, n))
      ensures !panicked && r.Some? ==>
        Copied(old(State()), State(), d, r.value, data, if PageUp(sz) < 1 then 1 else PageUp(sz))
      ensures !panicked && r.Some? ==> d < |old(mem)| && r.value < |mem| && forall m: nat :: m < PAGES ==>
        && (UserReads(State(), r.value, m) <==> 1 <= m < PageUp(sz) && UserReads(old(State()), d, m))
        && (UserWrites(State(), r.value, m) <==> 1 <= m < PageUp(sz) && UserWrites(old(State()), d, m))
      ensures !panicked && r.None? ==> Same(old(State()), State()) && |old(free)| <= KERNTABLES + 2 * PageUp(sz)
    {
      hide Inv, Pte, Quiet, PagesMapped, Copied, KernMade, Gone, Same, PageAdded, Present, UserReads, UserWrites;
      ghost var v := State();
      r, panicked := Setupkvm(data);
      if r.None? {
        return;
      }
      var c := r.value;
      CopyStart(v, State(), d, c, data);
      var i := 1;
      while i * PGSIZE < sz
        invariant 1 <= i <= (if PageUp(sz) < 1 then 1 else PageUp(sz))
        invariant Copied(v, State(), d, c, data, i) && |free| + KERNTABLES + 2 * (i - 1) >= |old(free)|
      {
        ghost var v1 := State();
        CopiedShape(v, v1, d, c, data, i);
        SourceKept(v, v1, d, c, data, i, i);
        var t := Walkpgdir(d, i, false);
        if t.None? {
          MissingPage(v1, d, i);
          return None, true;
        }
        PteIs(v1, d, i);
        var pte := mem[t.value][i % NPT];
        if !Present(pte) {
          return None, true;
        }
        var flags := FlagsOf(pte);
        var page := Kalloc();
        if page.None? {
          QuietSelf(v1, c, 0);
          panicked := Freevm(c);
          CopyUndone(v, v1, v1, State(), d, c, data, i);
          return None, panicked;
        }
        var u := page.value;
        AllocFacts(v1);
        ghost var content := v.mem[FrameOf(pte)];
        AddQuiet(v1, c, content);
        QuietShape(v1, Wrote(Popped(v1), u, content), c, u, i);
        mem := mem[u := mem[FrameOf(pte)]];
        ghost var v3 := State();
        assert v3 == Wrote(Popped(v1), u, content);
        var mapped, k := Mappages(c, i, 1, u, flags);
        ghost var v4 := State();
        if k == 0 {
          MappedNot(v3, v4, c, i, u, flags);
          NotPresent(v4, c, i);
        }
        panicked := mapped.Remap?;
        if panicked {
          return;
        }
        if mapped.NoMemory? {
          AddFailed(v1, v4, c, i, content, flags);
          GaveBack(v1, v4, c, u);
          var ok := Kfree(u);
          QuietShape(v1, State(), c, 0, i);
          panicked := Freevm(c);
          CopyUndone(v, v1, Pushed(v4, u), State(), d, c, data, i);
          return None, panicked || !ok;
        }
        AddPage(v1, v4, c, i, content, flags);
        CopyStep(v, v1, v4, d, c, data, i, content);
        i := i + 1;
      }
      CopiedShape(v, State(), d, c, data, i);
      forall m: nat | m < PAGES
        ensures UserReads(State(), c, m) <==> 1 <= m < PageUp(sz) && UserReads(v, d, m)
        ensures UserWrites(State(), c, m) <==> 1 <= m < PageUp(sz) && UserWrites(v, d, m)
      {
        CopyAccess(v, State(), d, c, data, i, m);
      }
    }

    // The mprotect and munprotect system calls on a process of sz bytes: they
    // differ in the one bit they leave in the entries. The pages changed are
    // exactly the len pages from addr.
    method Protect(d: nat, sz: nat, addr: word, len: int, w: bool) returns (r: int)
      requires Inv(State()) && Space(State(), d, sz) && sz <= KERNPAGE * PGSIZE && len < 0x8_0000
      modifies `mem, `free, `owner
      ensures r == 0 || r == -1
      ensures r == 0 <==> 0 < len && addr % PGSIZE == 0 && PGSIZE <= addr && addr + len * PGSIZE <= sz
      ensures r == 0 ==> Reflagged(old(State()), State(), d, addr / PGSIZE, addr / PGSIZE + len, w)
      ensures r == 0 ==> d < |old(mem)| && d < |mem| && forall m: nat :: m < PAGES ==>
        && (UserReads(State(), d, m) <==> UserReads(old(State()), d, m))
        && (UserWrites(State(), d, m) <==>
            if addr / PGSIZE <= m < addr / PGSIZE + len then w && UserReads(State(), d, m)
            else UserWrites(old(State()), d, m))
      ensures r == -1 ==> State() == old(State())
    {
      hide Inv, Pte, Reflagged, Quiet, WithW, SpaceEntry, UserReads, UserWrites;
      if len <= 0 {
        return -1;
      }
      var base := addr / PGSIZE * PGSIZE;
      var totLen := addr + len * PGSIZE - 1;
      if base != addr || addr == 0 || addr > sz || len * PGSIZE + addr > sz || addr < PGSIZE {
        return -1;
      }
      ghost var v := State();
      var a := addr / PGSIZE;
      ghost var first, last := a, a + len;
      ReflagStart(v, d, a, w);
      while true
        invariant first <= a < last <= KERNPAGE && Inv(State()) && IsDir(State(), d)
        invariant Reflagged(v, State(), d, first, a, w)
        decreases last - a
      {
        ghost var v1 := State();
        var t := Walkpgdir(d, a, false);
        if t.None? {
          ReflagSkip(v, v1, d, first, a, w);
        } else {
          ReflagStep(v, v1, d, first, a, w);
          PteIs(v1, d, a);
          mem := mem[t.value := mem[t.value][a % NPT := WithW(mem[t.value][a % NPT], w)]];
        }
        a := a + 1;
        ReflagShape(v, State(), d, first, a, w);
        if a * PGSIZE >= totLen {
          break;
        }
      }
      forall m: nat | m < PAGES
        ensures (UserReads(State(), d, m) <==> UserReads(v, d, m))
        ensures UserWrites(State(), d, m) <==>
            if first <= m < last then w && UserReads(State(), d, m) else UserWrites(v, d, m)
      {
        ReflagAccess(v, State(), d, first, last, w, m);
      }
      return 0;
    }

    // sbrk: grows or shrinks a process of sz bytes by n. A failure leaves the
    // address space as it was, unless it is the shrinking to exactly 0.
    method Growproc(d: nat, sz: nat, n: int) returns (r: int, newsz: nat)
      requires Inv(State()) && Space(State(), d, sz) && 0 < sz < KERNPAGE * PGSIZE && -0x8000_0000 <= n < 0x8000_0000
      modifies `mem, `free, `owner
      ensures r == 0 || (r == -1 && newsz == sz)
      ensures r == 0 ==> Inv(State()) && Space(State(), d, newsz) && newsz == if sz + n < 0 then sz else sz + n
      ensures r == 0 && 0 < n ==> Grown(old(State()), State(), d, PageUp(sz), PageUp(newsz))
      ensures r == 0 && n < 0 && 0 < sz + n ==> Trimmed(old(State()), State(), d, PageUp(newsz), PageUp(sz))
      ensures r == 0 && (n == 0 || sz + n < 0) ==> State() == old(State())
      ensures r == -1 && sz + n != 0 ==> Restored(old(State()), State(), d) && Space(State(), d, sz)
      ensures r == -1 && 0 < n && sz + n < KERNPAGE * PGSIZE ==> |old(free)| < 2 * (PageUp(sz + n) - PageUp(sz))
      ensures sz + n == 0 ==> r == -1 && Trimmed(old(State()), State(), d, 0, PageUp(sz))
      ensures n < 0 && sz + n != 0 ==> r == 0
    {
      hide Inv, Pte, Grown, Trimmed, Restored, SpaceEntry;
      ghost var v := State();
      SpaceAbove(v, d, sz);
      newsz := sz;
      if n > 0 {
        var got, panicked := Allocuvm(d, sz, sz + n);
        if got == 0 {
          if sz + n >= KERNPAGE * PGSIZE { RestoredSelf(v, d); }
          SpaceRestored(v, State(), d, sz);
          return -1, sz;
        }
        SpaceGrown(v, State(), d, sz, got);
        GrownShape(v, State(), d, PageUp(sz), PageUp(got));
        newsz := got;
      } else if n < 0 {
        var got, panicked := Deallocuvm(d, sz, (sz + n) % 0x1_0000_0000);
        if got == 0 {
          return -1, sz;
        }
        if got < sz {
          SpaceTrimmed(v, State(), d, sz, got);
          TrimShape(v, State(), d, PageUp(got), PageUp(sz));
        }
        newsz := got;
      }
      return 0, newsz;
    }

    // exec's loop body: room for one segment; 0 when it is refused, and then
    // the address space is given back.
    method ExecSegment(ghost v: Vm, d: nat, data: nat, sz: nat, ph: Segment) returns (grown: nat, panicked: bool)
      requires Inv(v) && Executable(v, State(), d, data, sz, 0) && PGSIZE <= sz < KERNPAGE * PGSIZE
      modifies `mem, `free, `owner
      ensures !panicked
      ensures grown == 0 ==> Same(v, State())
      ensures grown == 0 ==>
        || ph.memsz < ph.filesz || ph.vaddr + ph.memsz >= KERNPAGE * PGSIZE || ph.vaddr % PGSIZE != 0
        || |old(free)| < 2 * (PageUp(ph.vaddr + ph.memsz) - PageUp(sz))
      ensures grown != 0 ==>
        && Executable(v, State(), d, data, grown, 0) && grown < KERNPAGE * PGSIZE
        && ph.filesz <= ph.memsz && ph.vaddr + ph.memsz <= grown && ph.vaddr % PGSIZE == 0
      ensures grown != 0 ==> grown == if ph.vaddr + ph.memsz < sz then sz else ph.vaddr + ph.memsz
      ensures grown != 0 ==> |free| + 2 * (PageUp(grown) - PageUp(sz)) >= |old(free)|
    {
      hide Inv, Pte, Executable, Grown, Restored, Gone, Same, Present;
      ghost var v1 := State();
      ExecShape(v, v1, d, data, sz, 0);
      var bad := ph.memsz < ph.filesz || (ph.vaddr + ph.memsz) % 0x1_0000_0000 < ph.vaddr;
      grown, panicked := 0, false;
      if !bad {
        grown, panicked := Allocuvm(d, sz, ph.vaddr + ph.memsz);
        bad := grown == 0 || ph.vaddr % PGSIZE != 0;
      }
      if grown != 0 && sz <= ph.vaddr + ph.memsz { ExecGrown(v, v1, State(), d, data, sz, grown); }
      ghost var v2 := State();
      if bad {
        if grown == 0 {
          if v2 != v1 { RestoredShape(v1, v2, d); }
          panicked := Freevm(d);
          ExecUndone(v, v1, v2, State(), d, data, sz);
        } else {
          ExecShape(v, v2, d, data, grown, 0);
          panicked := Freevm(d);
          ExecUndone(v, v2, v2, State(), d, data, grown);
          grown := 0;
        }
      }
    }

    // The guard page and the stack page above sz; 0 for want of room.
    method ExecStack(ghost v: Vm, d: nat, data: nat, sz: nat) returns (grown: nat, panicked: bool)
      requires Inv(v) && Executable(v, State(), d, data, sz, 0) && PGSIZE <= sz && sz % PGSIZE == 0
      modifies `mem, `free, `owner
      ensures !panicked
      ensures grown == 0 ==> Same(v, State()) && (sz + 2 * PGSIZE >= KERNPAGE * PGSIZE || |old(free)| < 4)
      ensures grown != 0 ==> grown == sz + 2 * PGSIZE < KERNPAGE * PGSIZE
      ensures grown != 0 ==> Executable(v, State(), d, data, grown, grown / PGSIZE - 2)
    {
      hide Inv, Pte, Executable, Grown, Restored, Gone, Same, Present;
      ghost var v3 := State();
      ExecShape(v, v3, d, data, sz, 0);
      grown, panicked := Allocuvm(d, sz, sz + 2 * PGSIZE);
      ghost var v4 := State();
      if grown == 0 {
        if v4 != v3 { RestoredShape(v3, v4, d); }
        panicked := Freevm(d);
        ExecUndone(v, v3, v4, State(), d, data, sz);
        return 0, panicked;
      }
      ExecGrown(v, v3, v4, d, data, sz, grown);
      ExecShape(v, v4, d, data, grown, 0);
      ExecGuarded(v, v4, d, data, grown, grown / PGSIZE - 2);
      panicked := Clearpteu(d, grown / PGSIZE - 2);
    }

    // The address space exec builds for the segments of a program: user pages
    // from PGSIZE on, a guard page, a stack page. Nothing that was there
    // before is touched. A failure gives everything back, and has a reason: a
    // segment that will not do, no room below the kernel, or no memory.
    method ExecSpace(segments: seq<Segment>, data: nat) returns (r: Option<nat>, sz: nat, panicked: bool)
      requires Inv(State()) && EXTPAGE < data < TOPPAGE
      modifies `mem, `free, `owner
      ensures !panicked
      ensures r.None? ==> Same(old(State()), State())
      ensures r.None? ==>
        || (exists k :: 0 <= k < |segments|
              && (segments[k].memsz < segments[k].filesz || segments[k].vaddr % PGSIZE != 0
                  || segments[k].vaddr + segments[k].memsz >= KERNPAGE * PGSIZE))
        || (PageUp(Reach(segments)) + 2) * PGSIZE >= KERNPAGE * PGSIZE
        || |old(free)| <= KERNTABLES + 2 * (PageUp(Reach(segments)) + 2)
      ensures r.Some? ==> sz == (PageUp(Reach(segments)) + 2) * PGSIZE < KERNPAGE * PGSIZE
      ensures r.Some? ==> Executable(old(State()), State(), r.value, data, sz, sz / PGSIZE - 2)
      ensures r.Some? ==> forall k :: 0 <= k < |segments| ==>
        && segments[k].filesz <= segments[k].memsz && segments[k].vaddr + segments[k].memsz <= sz
        && segments[k].vaddr % PGSIZE == 0
      ensures r.Some? ==> r.value < |mem| && forall m: nat :: m < PAGES ==>
        && (UserReads(State(), r.value, m) <==> 1 <= m < sz / PGSIZE && m != sz / PGSIZE - 2)
        && (UserWrites(State(), r.value, m) <==> UserReads(State(), r.value, m))
    {
      hide Inv, Pte, Executable, Same, KernMade, Reach, UserReads, UserWrites;
      ghost var v := State();
      sz := PGSIZE;
      ReachNone(segments);
      r, panicked := Setupkvm(data);
      if r.None? {
        return;
      }
      var d := r.value;
      ExecStart(v, State(), d, data);
      var i := 0;
      while i < |segments|
        invariant 0 <= i <= |segments| && PGSIZE <= sz < KERNPAGE * PGSIZE
        invariant Executable(v, State(), d, data, sz, 0)
        invariant sz == Reach(segments[..i]) && |free| + KERNTABLES + 2 * PageUp(sz) >= |old(free)|
        invariant forall k :: 0 <= k < i ==>
          && segments[k].filesz <= segments[k].memsz && segments[k].vaddr + segments[k].memsz <= sz
          && segments[k].vaddr % PGSIZE == 0
      {
        ReachNext(segments, i);
        ReachGrows(segments, i + 1);
        var grown: nat;
        grown, panicked := ExecSegment(v, d, data, sz, segments[i]);
        if grown == 0 {
          return None, sz, panicked;
        }
        sz := grown;
        i := i + 1;
      }
      assert segments[..i] == segments;
      ExecRounded(v, State(), d, data, sz);
      sz := PageUp(sz) * PGSIZE;
      var grown: nat;
      grown, panicked := ExecStack(v, d, data, sz);
      if grown == 0 {
        return None, sz, panicked;
      }
      ExecShape(v, State(), d, data, grown, grown / PGSIZE - 2);
      forall m: nat | m < PAGES
        ensures (UserWrites(State(), d, m) <==> UserReads(State(), d, m))
        ensures UserReads(State(), d, m) <==> 1 <= m < grown / PGSIZE && m != grown / PGSIZE - 2
      {
        ExecAccess(v, State(), d, data, grown, grown / PGSIZE - 2, m);
      }
      return Some(d), grown, panicked;
    }

    // Takes page n of d from the user; the panic is for a page with no table.
    method Clearpteu(d: nat, n: nat) returns (panicked: bool)
      requires Inv(State()) && IsDir(State(), d) && n < PAGES
      modifies `mem, `free, `owner
      ensures panicked <==> !HasTable(old(State()), d, n)
      ensures panicked ==> State() == old(State())
      ensures !panicked ==>
        TableOf(old(State()), d, n) < |old(mem)|
        && State() == PteStored(old(State()), d, n, WithoutU(Pte(old(State()), d, n)))
    {
      hide Inv, Quiet;
      var t := Walkpgdir(d, n, false);
      if t.None? {
        return true;
      }
      mem := mem[t.value := mem[t.value][n % NPT := WithoutU(mem[t.value][n % NPT])]];
      return false;
    }
  }

  /** A loadable segment, as its program header gives it. */
  datatype Segment = Segment(vaddr: word, memsz: word, filesz: word)

  // How far the segments reach: the size of the process before its stack.
  function Reach(segments: seq<Segment>): (r: nat)
    ensures PGSIZE <= r
  {
    if segments == [] then PGSIZE
    else
      var r := Reach(segments[..|segments| - 1]);
      var s := segments[|segments| - 1];
      if s.vaddr + s.memsz < r then r else s.vaddr + s.memsz
  }

  lemma ReachNone(segments: seq<Segment>)
    ensures Reach(segments[..0]) == PGSIZE <= Reach(segments)
  {
    assert segments[..0] == [];
  }

  lemma ReachNext(segments: seq<Segment>, i: nat)
    requires i < |segments|
    ensures var r := Reach(segments[..i]);
      Reach(segments[..i + 1]) ==
          if segments[i].vaddr + segments[i].memsz < r then r else segments[i].vaddr + segments[i].memsz
  {
    assert segments[..i + 1][..i] == segments[..i];
  }

  lemma {:induction false} ReachGrows(segments: seq<Segment>, i: nat)
    requires i <= |segments|
    ensures Reach(segments[..i]) <= Reach(segments)
    decreases |segments| - i
  {
    if i < |segments| {
      ReachNext(segments, i);
      ReachGrows(segments, i + 1);
    } else {
      assert segments[..i] == segments;
    }
  }

  // It is the end of the last segment, or the first page if that is above it.
  lemma {:induction false} ReachIs(segments: seq<Segment>)
    ensures forall k :: 0 <= k < |segments| ==> segments[k].vaddr + segments[k].memsz <= Reach(segments)
    ensures Reach(segments) == PGSIZE
            || exists k :: 0 <= k < |segments| && segments[k].vaddr + segments[k].memsz == Reach(segments)
  {
    if segments != [] {
      var rest := segments[..|segments| - 1];
      ReachIs(rest);
      assert forall k :: 0 <= k < |rest| ==> rest[k] == segments[k];
    }
  }

  lemma MissingPage(v: Vm, d: nat, n: nat)
    requires d < |v.mem| && n < PAGES && !HasTable(v, d, n)
    ensures !Present(Pte(v, d, n))
  {
  }
}
