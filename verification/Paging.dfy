/** Two-level page tables in physical memory, and who owns each page of it. */
module Paging {
  import opened Blocks

  const PGSIZE: nat := 4096
  const NPT: nat := 1024               // entries in a directory or a table
  const PAGES: nat := 0x10_0000        // pages in a 32-bit address space
  const KERNPAGE: nat := 0x8_0000      // KERNBASE / PGSIZE, the first page that is not the user's
  const FLAGS_WU: nat := 6             // PTE_W | PTE_U

  function Words(n: nat, w: word): (s: seq<word>)
    ensures |s| == n && forall k :: 0 <= k < n ==> s[k] == w
  {
    if n == 0 then [] else Words(n - 1, w) + [w]
  }

  const ZERO_PAGE: seq<word> := Words(NPT, 0)
  const JUNK_PAGE: seq<word> := Words(NPT, 0x0101_0101)
  type Page = s: seq<word> | |s| == NPT witness ZERO_PAGE

  // ---- entries ----

  function FrameOf(e: word): nat { e / 0x1000 }              // PTE_ADDR
  function FlagsOf(e: word): nat { e % 0x1000 }              // PTE_FLAGS
  predicate Present(e: word) { e % 2 == 1 }                  // PTE_P
  predicate Writable(e: word) { e / 2 % 2 == 1 }             // PTE_W
  predicate ForUser(e: word) { e / 4 % 2 == 1 }              // PTE_U

  // pa | perm | PTE_P
  function MakePte(frame: nat, perm: nat): word
    requires frame < PAGES && perm < 0x1000
  {
    frame * 0x1000 + if perm % 2 == 1 then perm else perm + 1
  }

  lemma LowP(h: nat, b: nat)
    ensures (8 * h + b) % 2 == b % 2
  {
  }

  lemma LowW(h: nat, b: nat)
    ensures (8 * h + b) / 2 == 4 * h + b / 2 && (4 * h + b / 2) % 2 == b / 2 % 2
  {
  }

  lemma LowU(h: nat, b: nat)
    requires b < 8
    ensures (8 * h + b) / 4 == 2 * h + b / 4 && (2 * h + b / 4) % 2 == b / 4
  {
  }

  lemma LowF(h: nat, b: nat)
    requires b < 8
    ensures (8 * h + b) / 0x1000 == h / 512
  {
    assert h == h / 512 * 512 + h % 512;
  }

  // An entry's three low bits, and what they are not part of.
  lemma LowBits(e: word, h: nat, b: nat)
    requires e == 8 * h + b && b < 8
    ensures Present(e) == (b % 2 == 1) && Writable(e) == (b / 2 % 2 == 1) && ForUser(e) == (b / 4 == 1)
    ensures FrameOf(e) == h / 512
  {
    LowP(h, b);
    LowW(h, b);
    LowU(h, b);
    LowF(h, b);
  }

  lemma WUBits(frame: nat)
    requires frame < PAGES
    ensures Writable(MakePte(frame, FLAGS_WU)) && ForUser(MakePte(frame, FLAGS_WU))
  {
    LowBits(MakePte(frame, FLAGS_WU), 512 * frame, 7);
  }

  lemma PteParts(frame: nat, perm: nat)
    requires frame < PAGES && perm < 0x1000
    ensures FrameOf(MakePte(frame, perm)) == frame && Present(MakePte(frame, perm))
    ensures FlagsOf(MakePte(frame, perm)) == if perm % 2 == 1 then perm else perm + 1
  {
  }

  // ---- physical memory ----

  /** What a page that is not free is used for: the directory of an address
      space, table x of directory d, user page n of directory d, or something
      of the kernel's own. */
  datatype Use = Dir | Table(d: nat, x: nat) | User(d: nat, n: nat) | Held

  /** Physical memory; the pages lo..hi are the allocator's. */
  datatype Vm = Vm(lo: nat, hi: nat, mem: seq<Page>, free: seq<nat>, owner: map<nat, Use>)

  predicate Shaped(v: Vm)
  {
    0 < v.lo <= v.hi <= |v.mem| && v.hi < PAGES
  }

  predicate IsDir(v: Vm, d: nat) { d in v.owner && v.owner[d].Dir? && d < |v.mem| }

  predicate FrameOk(v: Vm, p: nat)
  {
    && (p in v.owner ==> v.lo <= p < v.hi && p !in v.free)
    && (p in v.free ==> v.lo <= p < v.hi)
    && (v.lo <= p < v.hi ==> p in v.owner || p in v.free)
  }

  predicate Once(s: seq<nat>)
  {
    forall i, j :: 0 <= i < j < |s| ==> s[i] != s[j]
  }

  function Pde(v: Vm, d: nat, x: nat): word
    requires d < |v.mem| && x < NPT
  {
    v.mem[d][x]
  }

  predicate HasTable(v: Vm, d: nat, n: nat)
    requires d < |v.mem| && n < PAGES
  {
    Present(Pde(v, d, n / NPT))
  }

  function TableOf(v: Vm, d: nat, n: nat): nat
    requires d < |v.mem| && n < PAGES
  {
    FrameOf(Pde(v, d, n / NPT))
  }

  // The entry for page n; a table that is not there has empty entries.
  function Pte(v: Vm, d: nat, n: nat): word
    requires d < |v.mem| && n < PAGES
  {
    if HasTable(v, d, n) && TableOf(v, d, n) < |v.mem| then v.mem[TableOf(v, d, n)][n % NPT] else 0
  }

  predicate PdeOk(v: Vm, d: nat, x: nat)
  {
    IsDir(v, d) && x < NPT && Present(Pde(v, d, x)) ==>
      && FrameOf(Pde(v, d, x)) in v.owner && v.owner[FrameOf(Pde(v, d, x))] == Table(d, x)
      && Writable(Pde(v, d, x)) && ForUser(Pde(v, d, x))
  }

  predicate PteOk(v: Vm, d: nat, n: nat)
  {
    IsDir(v, d) && n < KERNPAGE && Present(Pte(v, d, n)) ==>
      FrameOf(Pte(v, d, n)) in v.owner && v.owner[FrameOf(Pte(v, d, n))] == User(d, n)
  }

  predicate OwnerOk(v: Vm, p: nat)
  {
    p in v.owner ==>
      match v.owner[p]
      case Dir => true
      case Table(d, x) => IsDir(v, d) && x < NPT && Present(Pde(v, d, x)) && FrameOf(Pde(v, d, x)) == p
      case User(d, n) => IsDir(v, d) && n < KERNPAGE && Present(Pte(v, d, n)) && FrameOf(Pte(v, d, n)) == p
      case Held => true
  }

  // Every allocatable page is either free or has exactly one use, and the
  // directories and tables name exactly the pages used by them.
  ghost predicate Inv(v: Vm)
  {
    && Shaped(v) && Once(v.free)
    && (forall p: nat :: FrameOk(v, p))
    && (forall d: nat, x: nat :: PdeOk(v, d, x))
    && (forall d: nat, n: nat :: PteOk(v, d, n))
    && (forall p: nat :: OwnerOk(v, p))
  }

  // The table of a present directory entry.
  lemma TableFrame(v: Vm, d: nat, n: nat)
    requires Inv(v) && IsDir(v, d) && n < PAGES && HasTable(v, d, n)
    ensures v.lo <= TableOf(v, d, n) < v.hi && TableOf(v, d, n) in v.owner
    ensures v.owner[TableOf(v, d, n)] == Table(d, n / NPT)
  {
    assert PdeOk(v, d, n / NPT) && FrameOk(v, TableOf(v, d, n));
  }

  // It leaves everything to the entries of the table.
  lemma TableFlags(v: Vm, d: nat, n: nat)
    requires Inv(v) && IsDir(v, d) && n < PAGES && HasTable(v, d, n)
    ensures d < |v.mem| && Writable(Pde(v, d, n / NPT)) && ForUser(Pde(v, d, n / NPT))
  {
    assert PdeOk(v, d, n / NPT);
  }

  lemma UserFrame(v: Vm, d: nat, n: nat)
    requires Inv(v) && IsDir(v, d) && n < KERNPAGE && Present(Pte(v, d, n))
    ensures v.lo <= FrameOf(Pte(v, d, n)) < v.hi && FrameOf(Pte(v, d, n)) in v.owner
    ensures v.owner[FrameOf(Pte(v, d, n))] == User(d, n)
  {
    assert PteOk(v, d, n) && FrameOk(v, FrameOf(Pte(v, d, n)));
  }

  // ---- one address space changes, the rest of memory does not ----

  // Page p is part of the address space of d.
  predicate Belongs(v: Vm, p: nat, d: nat)
  {
    p in v.owner && match v.owner[p]
      case Dir => p == d
      case Table(e, x) => e == d
      case User(e, n) => e == d
      case Held => false
  }

  predicate LocalFrame(v: Vm, v': Vm, d: nat, u: nat, p: nat)
    requires |v'.mem| == |v.mem|
  {
    && (p in v.owner && !Belongs(v, p, d) && p != u ==>
          p in v'.owner && v'.owner[p] == v.owner[p] && (p < |v.mem| ==> v'.mem[p] == v.mem[p]))
    && (p in v'.owner && !Belongs(v', p, d) && p != u ==> p in v.owner && !Belongs(v, p, d))
  }

  // Page u aside, no page outside the address space of d has changed hands or
  // content; u == 0 makes no exception.
  ghost predicate Local(v: Vm, v': Vm, d: nat, u: nat)
  {
    && v'.lo == v.lo && v'.hi == v.hi && |v'.mem| == |v.mem|
    && forall p: nat :: LocalFrame(v, v', d, u, p)
  }

  lemma LocalTrans(v: Vm, v1: Vm, v2: Vm, d: nat, u: nat)
    requires Local(v, v1, d, u) && Local(v1, v2, d, u)
    ensures Local(v, v2, d, u)
  {
    forall p: nat ensures LocalFrame(v, v2, d, u, p) {
      assert LocalFrame(v, v1, d, u, p) && LocalFrame(v1, v2, d, u, p);
    }
  }

  lemma LocalSelf(v: Vm, d: nat, u: nat)
    ensures Local(v, v, d, u)
  {
  }

  // ---- kalloc and kfree ----

  function Popped(v: Vm): Vm
    requires v.free != []
  {
    v.(free := v.free[1..], owner := v.owner[v.free[0] := Held])
  }

  function Pushed(v: Vm, p: nat): Vm
    requires p < |v.mem|
  {
    Vm(v.lo, v.hi, v.mem[p := JUNK_PAGE], [p] + v.free, v.owner - {p})
  }

  lemma PoppedInv(v: Vm)
    requires Inv(v) && v.free != []
    ensures Inv(Popped(v)) && v.free[0] !in v.owner && v.lo <= v.free[0] < v.hi
    ensures forall d: nat :: IsDir(v, d) <==> IsDir(Popped(v), d)
  {
    hide Pte, Pde, Present, FrameOf;
    var v', p := Popped(v), v.free[0];
    assert FrameOk(v, p);
    forall q: nat ensures FrameOk(v', q) { assert FrameOk(v, q) && (q in v.free <==> q == p || q in v'.free); }
    forall d: nat ensures IsDir(v', d) <==> IsDir(v, d) { }
    forall d: nat, x: nat ensures PdeOk(v', d, x) { assert PdeOk(v, d, x); PdeSame(v, v', d, x); }
    forall d: nat, n: nat ensures PteOk(v', d, n) { assert PteOk(v, d, n); PteSame(v, v', d, n); }
    forall q: nat ensures OwnerOk(v', q) {
      assert OwnerOk(v, q);
      if q in v.owner && v.owner[q].Table? { PdeSame(v, v', v.owner[q].d, v.owner[q].x); }
      if q in v.owner && v.owner[q].User? { PteSame(v, v', v.owner[q].d, v.owner[q].n); }
    }
  }

  lemma PdeSame(v: Vm, v': Vm, d: nat, x: nat)
    requires v'.mem == v.mem
    ensures d < |v.mem| && x < NPT ==> Pde(v', d, x) == Pde(v, d, x)
  {
  }

  lemma PteSame(v: Vm, v': Vm, d: nat, n: nat)
    requires v'.mem == v.mem
    ensures d < |v.mem| && n < PAGES ==> Pte(v', d, n) == Pte(v, d, n)
  {
  }

  // A page that is held but in no address space does not appear in any entry.
  lemma HeldApart(v: Vm, p: nat, d: nat, n: nat)
    requires Inv(v) && p in v.owner && v.owner[p].Held? && IsDir(v, d) && n < PAGES
    ensures d != p && (HasTable(v, d, n) ==> TableOf(v, d, n) != p)
    ensures n < KERNPAGE && Present(Pte(v, d, n)) ==> FrameOf(Pte(v, d, n)) != p
  {
    hide Pte, Pde, Present, FrameOf;
    if HasTable(v, d, n) { TableFrame(v, d, n); }
    if n < KERNPAGE && Present(Pte(v, d, n)) { UserFrame(v, d, n); }
  }

  // Writing into a held page disturbs no address space.
  lemma HeldWrite(v: Vm, v': Vm, p: nat)
    requires Inv(v) && p in v.owner && v.owner[p].Held? && p < |v.mem|
    requires |v'.mem| == |v.mem| && v'.mem == v.mem[p := v'.mem[p]]
    ensures forall d: nat, x: nat :: IsDir(v, d) && x < NPT ==> Pde(v', d, x) == Pde(v, d, x)
    ensures forall d: nat, n: nat :: IsDir(v, d) && n < PAGES ==> Pte(v', d, n) == Pte(v, d, n)
  {
    hide Inv;
    forall d: nat, n: nat | IsDir(v, d) && n < PAGES ensures Pte(v', d, n) == Pte(v, d, n) {
      HeldApart(v, p, d, n);
    }
    forall d: nat, x: nat | IsDir(v, d) && x < NPT ensures Pde(v', d, x) == Pde(v, d, x) {
      HeldApart(v, p, d, 0);
    }
  }

  lemma PushedInv(v: Vm, p: nat)
    requires Inv(v) && p in v.owner && v.owner[p].Held? && p < |v.mem|
    ensures Inv(Pushed(v, p))
    ensures forall d: nat :: IsDir(v, d) <==> IsDir(Pushed(v, p), d)
    ensures forall d: nat, n: nat :: IsDir(v, d) && n < PAGES ==> Pte(Pushed(v, p), d, n) == Pte(v, d, n)
    ensures forall d: nat, x: nat :: IsDir(v, d) && x < NPT ==> Pde(Pushed(v, p), d, x) == Pde(v, d, x)
  {
    hide Pte, Pde, Present, FrameOf;
    var v' := Pushed(v, p);
    HeldWrite(v, v', p);
    assert FrameOk(v, p);
    forall q: nat ensures FrameOk(v', q) { assert FrameOk(v, q) && (q in v'.free <==> q == p || q in v.free); }
    forall d: nat, x: nat ensures PdeOk(v', d, x) { assert PdeOk(v, d, x); }
    forall d: nat, n: nat ensures PteOk(v', d, n) { assert PteOk(v, d, n); }
    forall q: nat ensures OwnerOk(v', q) { assert OwnerOk(v, q); }
  }

  // memset or memmove into a held page.
  function Wrote(v: Vm, p: nat, page: Page): Vm
    requires p < |v.mem|
  {
    v.(mem := v.mem[p := page])
  }

  lemma WroteInv(v: Vm, p: nat, page: Page)
    requires Inv(v) && p in v.owner && v.owner[p].Held? && p < |v.mem|
    ensures Inv(Wrote(v, p, page))
    ensures forall d: nat, n: nat :: IsDir(v, d) && n < PAGES ==> Pte(Wrote(v, p, page), d, n) == Pte(v, d, n)
    ensures forall d: nat, x: nat :: IsDir(v, d) && x < NPT ==> Pde(Wrote(v, p, page), d, x) == Pde(v, d, x)
  {
    hide Pte, Pde, Present, FrameOf;
    var v' := Wrote(v, p, page);
    HeldWrite(v, v', p);
    forall q: nat ensures FrameOk(v', q) { assert FrameOk(v, q); }
    forall d: nat, x: nat ensures PdeOk(v', d, x) { assert PdeOk(v, d, x); }
    forall d: nat, n: nat ensures PteOk(v', d, n) { assert PteOk(v, d, n); }
    forall q: nat ensures OwnerOk(v', q) { assert OwnerOk(v, q); }
  }

  // ---- page table pages ----

  // A held zeroed page becomes the table for page n of d.
  function Linked(v: Vm, d: nat, n: nat, t: nat): Vm
    requires d < |v.mem| && n < PAGES && t < PAGES
  {
    v.(mem := v.mem[d := v.mem[d][n / NPT := MakePte(t, FLAGS_WU)]], owner := v.owner[t := Table(d, n / NPT)])
  }

  lemma LinkedInv(v: Vm, d: nat, n: nat, t: nat)
    requires Inv(v) && IsDir(v, d) && n < PAGES && !HasTable(v, d, n)
    requires t in v.owner && v.owner[t].Held? && t < |v.mem| && t < PAGES && v.mem[t] == ZERO_PAGE
    ensures Inv(Linked(v, d, n, t)) && HasTable(Linked(v, d, n, t), d, n)
    ensures forall e: nat :: IsDir(v, e) <==> IsDir(Linked(v, d, n, t), e)
    ensures forall e: nat, m: nat :: IsDir(v, e) && m < PAGES ==> Pte(Linked(v, d, n, t), e, m) == Pte(v, e, m)
    ensures Local(v, Linked(v, d, n, t), d, t)
  {
    hide Inv;
    var v' := Linked(v, d, n, t);
    assert v.lo <= t < v.hi && Shaped(v) by { InvParts(v, t); }
    PteParts(t, FLAGS_WU);
    forall e: nat, m: nat | IsDir(v, e) && m < PAGES ensures Pte(v', e, m) == Pte(v, e, m) {
      HeldApart(v, t, e, m);
      if HasTable(v, e, m) { TableFrame(v, e, m); }
    }
    LinkedRest(v, d, n, t);
  }

  lemma InvParts(v: Vm, p: nat)
    requires Inv(v)
    ensures Shaped(v) && (p in v.owner ==> v.lo <= p < v.hi)
  {
    assert FrameOk(v, p);
  }

  lemma LinkedRest(v: Vm, d: nat, n: nat, t: nat)
    requires Inv(v) && IsDir(v, d) && n < PAGES && !HasTable(v, d, n)
    requires t in v.owner && v.owner[t].Held? && t < |v.mem| && t < PAGES
    requires forall e: nat, m: nat :: IsDir(v, e) && m < PAGES ==> Pte(Linked(v, d, n, t), e, m) == Pte(v, e, m)
    ensures Inv(Linked(v, d, n, t)) && Local(v, Linked(v, d, n, t), d, t)
  {
    hide Pte, MakePte, Present, FrameOf, Writable, ForUser;
    var v' := Linked(v, d, n, t);
    PteParts(t, FLAGS_WU);
    WUBits(t);
    forall q: nat ensures FrameOk(v', q) { assert FrameOk(v, q); }
    forall e: nat, x: nat ensures PdeOk(v', e, x) {
      assert PdeOk(v, e, x);
      if IsDir(v, e) && x < NPT && Present(Pde(v, e, x)) { HeldApart(v, t, e, x * NPT); }
    }
    forall e: nat, m: nat ensures PteOk(v', e, m) {
      assert PteOk(v, e, m);
      if IsDir(v, e) && m < KERNPAGE { HeldApart(v, t, e, m); }
    }
    forall q: nat ensures OwnerOk(v', q) { assert OwnerOk(v, q); }
    forall q: nat ensures LocalFrame(v, v', d, t, q) { assert OwnerOk(v, q); }
  }

  // ---- entries for pages ----

  function PteStored(v: Vm, d: nat, n: nat, e: word): Vm
    requires d < |v.mem| && n < PAGES && TableOf(v, d, n) < |v.mem|
  {
    v.(mem := v.mem[TableOf(v, d, n) := v.mem[TableOf(v, d, n)][n % NPT := e]])
  }

  // The entry of (d, n) reads as e, every other as before.
  ghost predicate OnlyPte(v: Vm, v': Vm, d: nat, n: nat, e: word)
  {
    && |v'.mem| == |v.mem|
    && (forall f: nat :: IsDir(v, f) ==> v'.mem[f] == v.mem[f])
    && (forall f: nat, m: nat :: IsDir(v, f) && m < PAGES ==>
        Pte(v', f, m) == if f == d && m == n then e else Pte(v, f, m))
  }

  lemma StoredAt(v: Vm, d: nat, n: nat, e: word)
    requires Inv(v) && IsDir(v, d) && n < PAGES && HasTable(v, d, n)
    ensures TableOf(v, d, n) < |v.mem| && OnlyPte(v, PteStored(v, d, n, e), d, n, e)
  {
    hide Inv;
    TableFrame(v, d, n);
    InvParts(v, d);
    var t, v' := TableOf(v, d, n), PteStored(v, d, n, e);
    forall f: nat, m: nat | IsDir(v, f) && m < PAGES
      ensures Pte(v', f, m) == if f == d && m == n then e else Pte(v, f, m)
    {
      if HasTable(v, f, m) { TableFrame(v, f, m); }
      assert m == m / NPT * NPT + m % NPT && n == n / NPT * NPT + n % NPT;
    }
  }

  // A held page u becomes page n of d.
  function Mapped(v: Vm, d: nat, n: nat, u: nat, perm: nat): Vm
    requires d < |v.mem| && n < PAGES && TableOf(v, d, n) < |v.mem| && u < PAGES && perm < 0x1000
  {
    PteStored(v, d, n, MakePte(u, perm)).(owner := v.owner[u := User(d, n)])
  }

  lemma MappedInv(v: Vm, d: nat, n: nat, u: nat, perm: nat)
    requires Inv(v) && IsDir(v, d) && n < KERNPAGE && HasTable(v, d, n) && !Present(Pte(v, d, n))
    requires u in v.owner && v.owner[u].Held? && u < PAGES && perm < 0x1000 && TableOf(v, d, n) < |v.mem|
    ensures Inv(Mapped(v, d, n, u, perm)) && Local(v, Mapped(v, d, n, u, perm), d, u)
    ensures OnlyPte(v, Mapped(v, d, n, u, perm), d, n, MakePte(u, perm))
    ensures forall e: nat :: IsDir(v, e) <==> IsDir(Mapped(v, d, n, u, perm), e)
  {
    hide Pte, MakePte, Present, FrameOf, TableOf, HasTable;
    var v', v1 := Mapped(v, d, n, u, perm), PteStored(v, d, n, MakePte(u, perm));
    StoredAt(v, d, n, MakePte(u, perm));
    TableFrame(v, d, n);
    PteParts(u, perm);
    forall f: nat, m: nat | IsDir(v, f) && m < PAGES ensures Pte(v', f, m) == Pte(v1, f, m) { PteSame(v1, v', f, m); }
    forall q: nat ensures FrameOk(v', q) { assert FrameOk(v, q); }
    forall e: nat, x: nat ensures PdeOk(v', e, x) {
      assert PdeOk(v, e, x);
    }
    forall e: nat, m: nat ensures PteOk(v', e, m) {
      assert PteOk(v, e, m);
      if IsDir(v, e) && m < KERNPAGE { HeldApart(v, u, e, m); }
    }
    forall q: nat ensures OwnerOk(v', q) { assert OwnerOk(v, q); }
    forall q: nat ensures LocalFrame(v, v', d, u, q) { }
  }

  // The page of (d, n) is held again, and its entry is cleared.
  function Unmapped(v: Vm, d: nat, n: nat): Vm
    requires d < |v.mem| && n < PAGES && TableOf(v, d, n) < |v.mem|
  {
    PteStored(v, d, n, 0).(owner := v.owner[FrameOf(Pte(v, d, n)) := Held])
  }

  lemma UnmappedInv(v: Vm, d: nat, n: nat)
    requires Inv(v) && IsDir(v, d) && n < KERNPAGE && HasTable(v, d, n) && Present(Pte(v, d, n))
             && TableOf(v, d, n) < |v.mem|
    ensures Inv(Unmapped(v, d, n)) && Local(v, Unmapped(v, d, n), d, FrameOf(Pte(v, d, n)))
    ensures OnlyPte(v, Unmapped(v, d, n), d, n, 0)
    ensures forall e: nat :: IsDir(v, e) <==> IsDir(Unmapped(v, d, n), e)
  {
    hide Pte, FrameOf, TableOf, HasTable;
    var v', v1, u := Unmapped(v, d, n), PteStored(v, d, n, 0), FrameOf(Pte(v, d, n));
    StoredAt(v, d, n, 0);
    TableFrame(v, d, n);
    UserFrame(v, d, n);
    forall f: nat, m: nat | IsDir(v, f) && m < PAGES ensures Pte(v', f, m) == Pte(v1, f, m) { PteSame(v1, v', f, m); }
    forall q: nat ensures FrameOk(v', q) { assert FrameOk(v, q); }
    forall e: nat, x: nat ensures PdeOk(v', e, x) { assert PdeOk(v, e, x); }
    forall e: nat, m: nat ensures PteOk(v', e, m) { assert PteOk(v, e, m); }
    forall q: nat ensures OwnerOk(v', q) { assert OwnerOk(v, q); }
    forall q: nat ensures LocalFrame(v, v', d, u, q) { }
  }

  // An entry that keeps its page and its present bit, or belongs to the
  // kernel's part, may change in any other way.
  lemma RestoredInv(v: Vm, d: nat, n: nat, e: word)
    requires Inv(v) && IsDir(v, d) && n < PAGES && HasTable(v, d, n) && TableOf(v, d, n) < |v.mem|
    requires n < KERNPAGE ==> FrameOf(e) == FrameOf(Pte(v, d, n)) && Present(e) == Present(Pte(v, d, n))
    ensures Inv(PteStored(v, d, n, e)) && Local(v, PteStored(v, d, n, e), d, 0)
    ensures OnlyPte(v, PteStored(v, d, n, e), d, n, e)
  {
    hide Pte, FrameOf, TableOf, HasTable, Present;
    var v' := PteStored(v, d, n, e);
    StoredAt(v, d, n, e);
    TableFrame(v, d, n);
    forall q: nat ensures FrameOk(v', q) { assert FrameOk(v, q); }
    forall f: nat, x: nat ensures PdeOk(v', f, x) { assert PdeOk(v, f, x); }
    forall f: nat, m: nat ensures PteOk(v', f, m) { assert PteOk(v, f, m); }
    forall q: nat ensures OwnerOk(v', q) { assert OwnerOk(v, q); }
    forall q: nat ensures LocalFrame(v, v', d, 0, q) { }
  }

  // ---- directories ----

  lemma ZeroDir(v: Vm, d: nat, n: nat)
    requires d < |v.mem| && n < PAGES && v.mem[d] == ZERO_PAGE
    ensures !HasTable(v, d, n) && Pte(v, d, n) == 0
  {
  }

  // A held zeroed page becomes a directory with nothing in it.
  lemma NewDirInv(v: Vm, d: nat)
    requires Inv(v) && d in v.owner && v.owner[d].Held? && d < |v.mem| && v.mem[d] == ZERO_PAGE
    ensures Inv(v.(owner := v.owner[d := Dir])) && Local(v, v.(owner := v.owner[d := Dir]), d, d)
  {
    hide Pte, FrameOf, TableOf, HasTable, Present;
    var v' := v.(owner := v.owner[d := Dir]);
    forall n: nat | n < PAGES ensures !HasTable(v', d, n) && Pte(v', d, n) == 0 { ZeroDir(v', d, n); }
    forall e: nat, n: nat | e < |v.mem| && n < PAGES ensures Pte(v', e, n) == Pte(v, e, n) { PteSame(v, v', e, n); }
    forall q: nat ensures FrameOk(v', q) { assert FrameOk(v, q); }
    forall e: nat, x: nat ensures PdeOk(v', e, x) {
      assert PdeOk(v, e, x);
      if e == d && x < NPT { EmptyPde(v', d, x); }
    }
    forall e: nat, n: nat ensures PteOk(v', e, n) {
      assert PteOk(v, e, n);
      if e == d && n < KERNPAGE { NotPresent(v', d, n); }
    }
    forall q: nat ensures OwnerOk(v', q) { assert OwnerOk(v, q); }
    forall q: nat ensures LocalFrame(v, v', d, d, q) { assert OwnerOk(v, q); }
  }

  lemma EmptyPde(v: Vm, d: nat, x: nat)
    requires d < |v.mem| && x < NPT && v.mem[d] == ZERO_PAGE
    ensures !Present(Pde(v, d, x))
  {
  }

  lemma NotPresent(v: Vm, d: nat, n: nat)
    requires d < |v.mem| && n < PAGES && Pte(v, d, n) == 0
    ensures !Present(Pte(v, d, n))
  {
  }

  // The directory d and its tables are given up, to be freed one by one.
  function Dismantled(v: Vm, d: nat): Vm
  {
    v.(owner := map p | p in v.owner :: if Belongs(v, p, d) then Held else v.owner[p])
  }

  lemma DismantledInv(v: Vm, d: nat)
    requires Inv(v) && IsDir(v, d) && forall n: nat :: n < KERNPAGE ==> !Present(Pte(v, d, n))
    ensures Inv(Dismantled(v, d))
    ensures forall p: nat :: Belongs(v, p, d) <==> p == d || (p in v.owner && v.owner[p].Table? && v.owner[p].d == d)
  {
    hide Pte, FrameOf, TableOf, HasTable, Present;
    var v' := Dismantled(v, d);
    forall e: nat, n: nat | e < |v.mem| && n < PAGES ensures Pte(v', e, n) == Pte(v, e, n) { PteSame(v, v', e, n); }
    forall q: nat ensures Belongs(v, q, d) <==> q == d || (q in v.owner && v.owner[q].Table? && v.owner[q].d == d) {
      assert OwnerOk(v, q);
    }
    forall q: nat ensures FrameOk(v', q) { assert FrameOk(v, q); }
    forall e: nat, x: nat ensures PdeOk(v', e, x) { assert PdeOk(v, e, x); }
    forall e: nat, n: nat ensures PteOk(v', e, n) { assert PteOk(v, e, n); }
    forall q: nat ensures OwnerOk(v', q) { assert OwnerOk(v, q); }
  }
}
