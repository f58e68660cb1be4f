/** What a user may access. */
module PagingAccess {
  // The processor lets a user in if both the directory entry and the table's
  // entry do. Here is what the operations on address spaces come to in these
  // terms.

  import opened Blocks
  import opened Paging
  import opened PagingFree
  import opened PagingGrow
  import opened PagingProtect
  import opened PagingSteps

  predicate UserReads(v: Vm, d: nat, n: nat)
    requires d < |v.mem| && n < PAGES
  {
    && Present(Pde(v, d, n / NPT)) && ForUser(Pde(v, d, n / NPT))
    && Present(Pte(v, d, n)) && ForUser(Pte(v, d, n))
  }

  predicate UserWrites(v: Vm, d: nat, n: nat)
    requires d < |v.mem| && n < PAGES
  {
    UserReads(v, d, n) && Writable(Pde(v, d, n / NPT)) && Writable(Pte(v, d, n))
  }

  // The directory is no obstacle.
  lemma ByEntry(v: Vm, d: nat, n: nat)
    requires Inv(v) && IsDir(v, d) && n < PAGES
    ensures UserReads(v, d, n) <==> Present(Pte(v, d, n)) && ForUser(Pte(v, d, n))
    ensures UserWrites(v, d, n) <==> Present(Pte(v, d, n)) && ForUser(Pte(v, d, n)) && Writable(Pte(v, d, n))
  {
    if Present(Pte(v, d, n)) { HasIt(v, d, n); }
    hide Inv, Pte, Present, ForUser, Writable;
    if HasTable(v, d, n) { TableFlags(v, d, n); }
  }

  lemma NoEntry()
    ensures !Present(0)
  {
  }

  // The kernel's own pages: physical memory from KERNBASE on, the text
  // read-only, and the devices; none of them the user's.
  lemma KernBits(data: nat, m: nat)
    requires EXTPAGE < data < TOPPAGE && m < PAGES
    ensures Present(KernPte(data, m)) <==> KERNPAGE <= m < TOPPAGE || DEVPAGE <= m
    ensures !ForUser(KernPte(data, m))
    ensures KERNPAGE <= m < TOPPAGE ==>
      FrameOf(KernPte(data, m)) == m - KERNPAGE && (Writable(KernPte(data, m)) <==> m < EXTPAGE || data <= m)
    ensures DEVPAGE <= m ==> FrameOf(KernPte(data, m)) == m && Writable(KernPte(data, m))
  {
    var frame, b := if DEVPAGE <= m then m else m - KERNPAGE, if EXTPAGE <= m < data then 1 else 3;
    if KERNPAGE <= m < TOPPAGE || DEVPAGE <= m {
      assert KernPte(data, m) == frame * 0x1000 + b;
      LowBits(KernPte(data, m), 512 * frame, b);
    }
  }

  lemma KernAccess(v: Vm, v': Vm, d: nat, data: nat, m: nat)
    requires KernMade(v, v', d, data, PAGES) && EXTPAGE < data < TOPPAGE && m < PAGES
    ensures IsDir(v', d) && !UserReads(v', d, m)
    ensures Present(Pte(v', d, m)) <==> KERNPAGE <= m < TOPPAGE || DEVPAGE <= m
    ensures KERNPAGE <= m < TOPPAGE ==>
      FrameOf(Pte(v', d, m)) == m - KERNPAGE && (Writable(Pte(v', d, m)) <==> m < EXTPAGE || data <= m)
    ensures DEVPAGE <= m ==> FrameOf(Pte(v', d, m)) == m && Writable(Pte(v', d, m))
  {
    hide Inv, Pte, Present, ForUser, Writable, FrameOf, KernPte, LocalFrame;
    assert KernEntry(v', d, data, PAGES, m);
    KernBits(data, m);
    ByEntry(v', d, m);
  }

  // exec: everything below sz but page 0 and the guard page is the user's to
  // write, and nothing else the user's at all.
  lemma ExecAccess(v: Vm, v': Vm, d: nat, data: nat, sz: nat, guard: nat, m: nat)
    requires Executable(v, v', d, data, sz, guard) && EXTPAGE < data < TOPPAGE && m < PAGES
    ensures d < |v'.mem|
    ensures UserReads(v', d, m) <==> 1 <= m < KERNPAGE && m < (sz + PGSIZE - 1) / PGSIZE && m != guard
    ensures UserWrites(v', d, m) <==> UserReads(v', d, m)
  {
    hide Inv, Pte, Present, ForUser, Writable, FrameOf, KernPte, LocalFrame;
    assert ExecEntry(v', d, data, sz, guard, m) && SpaceEntry(v', d, sz, m);
    KernBits(data, m);
    ByEntry(v', d, m);
  }

  // sbrk and exec's growing: the new pages are the user's to write and zeroed,
  // the others what they were.
  lemma GrownAccess(v: Vm, v': Vm, d: nat, lo: nat, hi: nat, m: nat)
    requires Inv(v) && Grown(v, v', d, lo, hi) && m < PAGES
    ensures d < |v.mem| && d < |v'.mem|
    ensures lo <= m < hi ==>
      && UserWrites(v', d, m) && FrameOf(Pte(v', d, m)) < |v'.mem|
      && forall k :: 0 <= k < NPT ==> v'.mem[FrameOf(Pte(v', d, m))][k] == 0
    ensures !(lo <= m < hi) ==>
      && UserReads(v', d, m) == UserReads(v, d, m) && UserWrites(v', d, m) == UserWrites(v, d, m)
      && FrameOf(Pte(v', d, m)) == FrameOf(Pte(v, d, m))
  {
    hide Inv, Pte, Present, ForUser, Writable, FrameOf, LocalFrame, UserKept, MakePte, UserReads, UserWrites;
    assert NewEntry(v, v', d, lo, hi, m);
    ByEntry(v, d, m);
    ByEntry(v', d, m);
    if lo <= m < hi {
      WUBits(FrameOf(Pte(v', d, m)));
      PteParts(FrameOf(Pte(v', d, m)), FLAGS_WU);
    }
  }

  // Shrinking: the pages of the range are nobody's, the others what they were.
  lemma TrimmedAccess(v: Vm, v': Vm, d: nat, lo: nat, hi: nat, m: nat)
    requires Inv(v) && Trimmed(v, v', d, lo, hi) && m < PAGES
    ensures d < |v.mem| && d < |v'.mem|
    ensures lo <= m < hi ==> !UserReads(v', d, m)
    ensures !(lo <= m < hi) ==>
      && UserReads(v', d, m) == UserReads(v, d, m) && UserWrites(v', d, m) == UserWrites(v, d, m)
      && FrameOf(Pte(v', d, m)) == FrameOf(Pte(v, d, m))
  {
    hide Inv, Pte, Present, ForUser, Writable, FrameOf, TrimmedFrame, UserReads, UserWrites;
    assert TrimmedEntry(v, v', d, lo, hi, m);
    ByEntry(v, d, m);
    ByEntry(v', d, m);
    NoEntry();
  }

  // fork: the child may read and write the pages the parent may, below sz, and
  // finds the parent's bytes there.
  lemma CopyAccess(v: Vm, v': Vm, d: nat, c: nat, data: nat, n: nat, m: nat)
    requires Inv(v) && Copied(v, v', d, c, data, n) && EXTPAGE < data < TOPPAGE && m < PAGES
    ensures d < |v.mem| && c < |v'.mem|
    ensures UserReads(v', c, m) <==> 1 <= m < n && UserReads(v, d, m)
    ensures UserWrites(v', c, m) <==> 1 <= m < n && UserWrites(v, d, m)
    ensures UserReads(v', c, m) ==>
      && FrameOf(Pte(v, d, m)) < |v.mem| && FrameOf(Pte(v', c, m)) < |v'.mem|
      && v'.mem[FrameOf(Pte(v', c, m))] == v.mem[FrameOf(Pte(v, d, m))]
  {
    hide Inv, Pte, Present, ForUser, Writable, FrameOf, FlagsOf, LocalFrame, KernPte, UserReads, UserWrites;
    assert CopyEntry(v, v', d, c, data, n, m);
    ByEntry(v, d, m);
    ByEntry(v', c, m);
    KernBits(data, m);
    if 1 <= m < n {
      FlagBits(Pte(v, d, m));
      FlagBits(Pte(v', c, m));
    }
  }

  // Both flags are among PTE_FLAGS.
  lemma FlagBits(e: word)
    ensures Writable(e) == Writable(FlagsOf(e)) && ForUser(e) == ForUser(FlagsOf(e))
  {
    var h, b := e / 8, e % 8;
    LowBits(e, h, b);
    LowBits(FlagsOf(e), FlagsOf(e) / 8, FlagsOf(e) % 8);
    SameLow(e);
  }

  lemma SameLow(e: word)
    ensures FlagsOf(e) % 8 == e % 8
  {
    var q, r := e / 0x1000, e % 0x1000;
    var h, b := r / 8, r % 8;
    assert e == 0x1000 * q + r && r == 8 * h + b;
    assert e == 8 * (512 * q + h) + b;
  }

  // mprotect and munprotect: the same pages can be read, and the pages of the
  // range that can be read can be written exactly if that was asked for.
  lemma ReflagAccess(v: Vm, v': Vm, d: nat, lo: nat, hi: nat, w: bool, m: nat)
    requires Inv(v) && Reflagged(v, v', d, lo, hi, w) && m < PAGES
    ensures d < |v.mem| && d < |v'.mem|
    ensures UserReads(v', d, m) <==> UserReads(v, d, m)
    ensures UserWrites(v', d, m) <==> if lo <= m < hi then w && UserReads(v, d, m) else UserWrites(v, d, m)
    ensures Present(Pte(v, d, m)) ==> FrameOf(Pte(v', d, m)) == FrameOf(Pte(v, d, m))
  {
    hide Inv, Present, ForUser, Writable, FrameOf, LocalFrame, UserKept, WithW, UserReads, UserWrites;
    assert FlagEntry(v, v', d, lo, hi, w, m);
    if Present(Pte(v, d, m)) { HasIt(v, d, m); }
    if lo <= m < hi && !HasTable(v, d, m) { NoEntry(); }
    hide Pte;
    ByEntry(v, d, m);
    ByEntry(v', d, m);
    WithWBits(Pte(v, d, m), w);
  }
}
