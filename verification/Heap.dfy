/** The allocator as a state machine: free list, live allocations, the units
    sbrk has handed over, and the roving pointer freep. */
module Heap {
  import opened Options
  import opened FreeList

  const MINUNITS: nat := 4096   // morecore asks for at least this many units

  // Nodes of the circular list: 0 is base, k is free[k - 1]. `rover` is the
  // node freep points at.
  datatype Heap = Heap(free: seq<Chunk>, live: seq<Chunk>, owned: set<nat>, rover: nat)

  const FRESH: Heap := Heap([], [], {}, 0)

  function Span(addr: nat, size: nat): (s: set<nat>)
    ensures forall u: nat :: u in s <==> addr <= u < addr + size
    ensures |s| == size
  {
    if size == 0 then {} else Span(addr, size - 1) + {addr + size - 1}
  }

  function Units(c: Chunk): set<nat> { Span(c.addr, c.size) }

  // ---- the invariant ----

  predicate Disjoint(live: seq<Chunk>)
  {
    && (forall i :: 0 <= i < |live| ==> 0 < live[i].addr && 0 < live[i].size)
    && (forall i, j :: 0 <= i < j < |live| ==> Apart(live[i], live[j]))
  }

  predicate AllApart(live: seq<Chunk>, free: seq<Chunk>)
  {
    forall i, j :: 0 <= i < |live| && 0 <= j < |free| ==> Apart(live[i], free[j])
  }

  // Every unit from sbrk is in exactly one block, free or live.
  ghost predicate Partition(h: Heap)
  {
    && (forall u: nat :: u in h.owned <==> Covers(h.free, u) || Covers(h.live, u))
    && |h.owned| == Total(h.free) + Total(h.live)
  }

  ghost predicate HeapOk(h: Heap)
  {
    && Ordered(h.free) && Disjoint(h.live) && AllApart(h.live, h.free) && Partition(h) && h.rover <= |h.free|
  }

  // ---- the transitions ----

  function NodeAddr(free: seq<Chunk>, k: nat): nat
    requires k <= |free|
  {
    if k == 0 then 0 else free[k - 1].addr
  }

  function NodeSize(free: seq<Chunk>, k: nat): nat
    requires k <= |free|
  {
    if k == 0 then 0 else free[k - 1].size
  }

  function NextNode(free: seq<Chunk>, k: nat): (r: nat)
    requires k <= |free|
    ensures r <= |free|
  {
    if k == |free| then 0 else k + 1
  }

  // The s-th node after node r, going round.
  function Round(free: seq<Chunk>, r: nat, s: nat): (k: nat)
    requires r <= |free| && s <= |free| + 1
    ensures k <= |free|
  {
    if r + s <= |free| then r + s else r + s - (|free| + 1)
  }

  // malloc's search: the first node big enough, from the s-th after r up to r
  // itself.
  function Scan(free: seq<Chunk>, r: nat, s: nat, n: nat): (k: Option<nat>)
    requires r <= |free| && 0 < n
    ensures k.Some? ==> k.value < |free| && n <= free[k.value].size
    decreases |free| + 2 - s
  {
    if s > |free| + 1 then None else
      var k := Round(free, r, s);
      if NodeSize(free, k) >= n then Some(k - 1) else Scan(free, r, s + 1, n)
  }

  lemma {:induction false} ScanMisses(free: seq<Chunk>, r: nat, s: nat, n: nat)
    requires r <= |free| && 0 < n && 0 < s && Scan(free, r, s, n).None?
    ensures forall t: nat :: s <= t <= |free| + 1 ==> NodeSize(free, Round(free, r, t)) < n
    decreases |free| + 2 - s
  {
    if s <= |free| + 1 { ScanMisses(free, r, s + 1, n); }
  }

  // malloc finds a block whenever one is big enough.
  lemma ScanFinds(free: seq<Chunk>, r: nat, n: nat)
    requires r <= |free| && 0 < n
    ensures Scan(free, r, 1, n).None? <==> forall k :: 0 <= k < |free| ==> free[k].size < n
  {
    if Scan(free, r, 1, n).None? {
      ScanMisses(free, r, 1, n);
      forall k | 0 <= k < |free| ensures free[k].size < n {
        var t: nat := if k + 1 > r then k + 1 - r else k + 1 + |free| + 1 - r;
        assert Round(free, r, t) == k + 1;
        assert NodeSize(free, Round(free, r, t)) < n;
      }
    }
  }

  // It finds the first one, going round from node r: those passed over are too
  // small.
  lemma {:induction false} ScanFirst(free: seq<Chunk>, r: nat, s: nat, n: nat)
    requires r <= |free| && 0 < n && 0 < s && Scan(free, r, s, n).Some?
    ensures var k := Scan(free, r, s, n).value;
      exists t: nat :: s <= t <= |free| + 1 && Round(free, r, t) == k + 1
                       && forall u: nat :: s <= u < t ==> NodeSize(free, Round(free, r, u)) < n
    decreases |free| + 2 - s
  {
    var k := Scan(free, r, s, n).value;
    if NodeSize(free, Round(free, r, s)) >= n {
      assert Round(free, r, s) == k + 1;
    } else {
      ScanFirst(free, r, s + 1, n);
      var t: nat :| s + 1 <= t <= |free| + 1 && Round(free, r, t) == k + 1
                    && forall u: nat :: s + 1 <= u < t ==> NodeSize(free, Round(free, r, u)) < n;
      assert forall u: nat :: s <= u < t ==> NodeSize(free, Round(free, r, u)) < n;
    }
  }

  // The same by places in the list: from freep's block upwards, or to the end
  // and on from the beginning.
  lemma FirstFit(free: seq<Chunk>, r: nat, n: nat)
    requires r <= |free| && 0 < n && Scan(free, r, 1, n).Some?
    ensures var k := Scan(free, r, 1, n).value;
      && k < |free| && n <= free[k].size
      && forall j: nat :: j < |free| && (if r <= k then r <= j < k else r <= j || j < k) ==> free[j].size < n
  {
    ScanFirst(free, r, 1, n);
    var k := Scan(free, r, 1, n).value;
    var t: nat :| 1 <= t <= |free| + 1 && Round(free, r, t) == k + 1
                  && forall u: nat :: 1 <= u < t ==> NodeSize(free, Round(free, r, u)) < n;
    forall j: nat | j < |free| && (if r <= k then r <= j < k else r <= j || j < k) ensures free[j].size < n {
      var u: nat := if r <= j then j + 1 - r else j + 1 + |free| + 1 - r;
      assert Round(free, r, u) == j + 1 && 1 <= u < t;
      assert NodeSize(free, Round(free, r, u)) < n;
    }
  }

  function Allocate(h: Heap, k: nat, n: nat): Heap
    requires k < |h.free| && n <= h.free[k].size
  {
    Heap(Carve(h.free, k, n), h.live + [Taken(h.free, k, n)], h.owned, k)
  }

  function Obtain(h: Heap, c: Chunk): Heap
  {
    h.(live := h.live + [c], owned := h.owned + Units(c))
  }

  function Release(h: Heap, i: nat): Heap
    requires i < |h.live|
  {
    Heap(Insert(h.free, h.live[i]), h.live[..i] + h.live[i + 1..], h.owned, Below(h.free, h.live[i].addr))
  }

  function Grow(h: Heap, c: Chunk): Heap { Release(Obtain(h, c), |h.live|) }

  function MoreUnits(n: nat): nat { if n < MINUNITS then MINUNITS else n }

  predicate Fits(h: Heap, n: nat)
  {
    exists k :: 0 <= k < |h.free| && n <= h.free[k].size
  }

  // ---- the transitions keep the invariant ----

  lemma TotalOne(c: Chunk)
    ensures Total([c]) == c.size
  {
    assert [c][1..] == [];
  }

  lemma AllocateOk(h: Heap, k: nat, n: nat)
    requires HeapOk(h) && k < |h.free| && 0 < n <= h.free[k].size
    ensures HeapOk(Allocate(h, k, n))
  {
    hide Total, Covers;
    TotalOne(Taken(h.free, k, n));
    var h', c := Allocate(h, k, n), Taken(h.free, k, n);
    CarveOrdered(h.free, k, n);
    CarveTotal(h.free, k, n);
    TotalSplit(h.live, [c]);
    forall i | 0 <= i < |h'.free| ensures Apart(c, h'.free[i]) { TakenApart(h.free, k, n, i); }
    forall i, j | 0 <= i < |h.live| && 0 <= j < |h'.free| ensures Apart(h.live[i], h'.free[j]) {
      assert Apart(h.live[i], h.free[if h.free[k].size == n && j >= k then j + 1 else j]);
    }
    forall i | 0 <= i < |h.live| ensures Apart(h.live[i], c) { assert Apart(h.live[i], h.free[k]); }
    forall u: nat ensures u in h.owned <==> Covers(h'.free, u) || Covers(h'.live, u) {
      CarveCovers(h.free, k, n, u);
      CoversSplit(h.live, [c], u);
      CoversOne(c, u);
    }
  }

  lemma ObtainOk(h: Heap, c: Chunk)
    requires HeapOk(h) && 0 < c.addr && 0 < c.size && Units(c) !! h.owned
    ensures HeapOk(Obtain(h, c))
  {
    hide Total, Covers;
    TotalOne(c);
    var h' := Obtain(h, c);
    TotalSplit(h.live, [c]);
    forall i | 0 <= i < |h.live| ensures Apart(h.live[i], c) { NewApart(h.live, i, c, h.owned); }
    forall i | 0 <= i < |h.free| ensures Apart(c, h.free[i]) { NewApart(h.free, i, c, h.owned); }
    forall u: nat ensures u in h'.owned <==> Covers(h'.free, u) || Covers(h'.live, u) {
      CoversSplit(h.live, [c], u);
      CoversOne(c, u);
    }
  }

  lemma NewApart(cs: seq<Chunk>, i: nat, c: Chunk, owned: set<nat>)
    requires i < |cs| && 0 < cs[i].size && 0 < c.size && Units(c) !! owned
    requires forall u: nat :: Covers(cs, u) ==> u in owned
    ensures Apart(cs[i], c)
  {
    var d := cs[i];
    var u := if d.addr <= c.addr then c.addr else d.addr;
    assert d.Has(u) ==> Covers(cs, u);
    assert c.Has(u) ==> u in Units(c);
  }

  lemma Removed(h: Heap, i: nat)
    requires HeapOk(h) && i < |h.live|
    ensures var rest := h.live[..i] + h.live[i + 1..];
      && Disjoint(rest) && AllApart(rest, h.free)
      && forall a :: 0 <= a < |rest| ==> Apart(rest[a], h.live[i])
  {
    var rest := h.live[..i] + h.live[i + 1..];
    forall a | 0 <= a < |rest| ensures Apart(rest[a], h.live[i]) && rest[a] == h.live[if a < i then a else a + 1] {}
  }

  lemma ReleaseOk(h: Heap, i: nat)
    requires HeapOk(h) && i < |h.live|
    ensures Insertable(h.free, h.live[i]) && HeapOk(Release(h, i))
  {
    var c, rest := h.live[i], h.live[..i] + h.live[i + 1..];
    Removed(h, i);
    forall j | 0 <= j < |h.free| ensures Apart(c, h.free[j]) {}
    InsertOrdered(h.free, c);
    InsertTotal(h.free, c);
    TotalAt(h.live, i);
    TotalSplit(h.live[..i], h.live[i + 1..]);
    forall u: nat ensures u in h.owned <==> Covers(Insert(h.free, c), u) || Covers(rest, u) { ReleaseCovers(h, i, u); }
    forall a, b | 0 <= a < |rest| && 0 <= b < |Insert(h.free, c)| ensures Apart(rest[a], Insert(h.free, c)[b]) {
      InsertApart(h.free, c, rest[a], b);
    }
    InsertLength(h.free, c);
    hide Insert, Below, Covers, Total, Ordered, Disjoint, Apart;
  }

  lemma InsertLength(free: seq<Chunk>, c: Chunk)
    ensures Below(free, c.addr) <= |Insert(free, c)|
  {
  }

  lemma ReleaseCovers(h: Heap, i: nat, u: nat)
    requires HeapOk(h) && i < |h.live| && Insertable(h.free, h.live[i])
    ensures u in h.owned <==> Covers(Release(h, i).free, u) || Covers(Release(h, i).live, u)
  {
    assert u in h.owned <==> Covers(h.free, u) || Covers(h.live, u);
    hide Covers, Insert, HeapOk, Insertable, Below;
    InsertCovers(h.free, h.live[i], u);
    WithoutCovers(h.live, i, u);
  }

  lemma WithoutCovers(live: seq<Chunk>, i: nat, u: nat)
    requires i < |live|
    ensures Covers(live, u) <==> Covers(live[..i] + live[i + 1..], u) || live[i].Has(u)
  {
    hide Covers;
    var a, b := live[..i], live[i + 1..];
    CoversSplit(a, b, u);
    CoversSplit(a, [live[i]], u);
    CoversOne(live[i], u);
    CoversSplit(a + [live[i]], b, u);
    assert live == (a + [live[i]]) + b;
  }

  lemma InsertApart(free: seq<Chunk>, c: Chunk, d: Chunk, b: nat)
    requires Insertable(free, c) && Apart(d, c) && 0 < d.size && b < |Insert(free, c)|
    requires forall i :: 0 <= i < |free| ==> Apart(d, free[i])
    ensures Apart(d, Insert(free, c)[b])
  {
    var x := Insert(free, c)[b];
    var u := if d.addr <= x.addr then x.addr else d.addr;
    InsertCovers(free, c, u);
    InsertOrdered(free, c);
    assert x.Has(u) ==> Covers(Insert(free, c), u);
  }

  // After sbrk delivers what morecore asked for, the search succeeds.
  lemma GrowFits(h: Heap, c: Chunk, n: nat)
    requires HeapOk(h) && 0 < c.addr && 0 < n <= c.size && Units(c) !! h.owned
    ensures HeapOk(Grow(h, c)) && Scan(Grow(h, c).free, Grow(h, c).rover, 1, n).Some?
  {
    ObtainOk(h, c);
    ReleaseOk(Obtain(h, c), |h.live|);
    InsertHolds(h.free, c);
    hide Insert, HeapOk, Scan;
    assert Obtain(h, c).live[|h.live|] == c;
    ScanFinds(Grow(h, c).free, Grow(h, c).rover, n);
  }

  lemma InsertHolds(free: seq<Chunk>, c: Chunk)
    ensures Below(free, c.addr) <= |Insert(free, c)|
    ensures Lo(free, c) < |Insert(free, c)| && c.size <= Insert(free, c)[Lo(free, c)].size
  {
    assert Insert(free, c)[Lo(free, c)] == Merged(free, c);
  }

  // ---- runs ----

  /** malloc(n units), told what sbrk would answer, or free of a live block. */
  datatype Op = Malloc(n: nat, sbrk: Option<nat>) | Free(i: nat)

  predicate Allowed(h: Heap, op: Op)
  {
    match op
    case Malloc(n, sbrk) =>
      0 < n && (sbrk.Some? ==> 0 < sbrk.value && Units(Chunk(sbrk.value, MoreUnits(n))) !! h.owned)
    case Free(i) => i < |h.live|
  }

  function Step(h: Heap, op: Op): Heap
    requires HeapOk(h) && Allowed(h, op)
  {
    match op
    case Malloc(n, sbrk) =>
      (match Scan(h.free, h.rover, 1, n)
       case Some(k) => Allocate(h, k, n)
       case None =>
         if sbrk.None? then h else
           var c := Chunk(sbrk.value, MoreUnits(n));
           GrowFits(h, c, n);
           Allocate(Grow(h, c), Scan(Grow(h, c).free, Grow(h, c).rover, 1, n).value, n))
    case Free(i) => Release(h, i)
  }

  lemma StepOk(h: Heap, op: Op)
    requires HeapOk(h) && Allowed(h, op)
    ensures HeapOk(Step(h, op))
  {
    match op
    case Malloc(n, sbrk) =>
      match Scan(h.free, h.rover, 1, n) {
        case Some(k) => AllocateOk(h, k, n);
        case None =>
          if sbrk.Some? {
            var c := Chunk(sbrk.value, MoreUnits(n));
            GrowFits(h, c, n);
            AllocateOk(Grow(h, c), Scan(Grow(h, c).free, Grow(h, c).rover, 1, n).value, n);
          }
      }
    case Free(i) => ReleaseOk(h, i);
  }

  ghost predicate IsRun(h: Heap, ops: seq<Op>)
    requires HeapOk(h)
    decreases |ops|
  {
    ops == [] || (Allowed(h, ops[0]) && (StepOk(h, ops[0]); IsRun(Step(h, ops[0]), ops[1..])))
  }

  ghost function After(h: Heap, ops: seq<Op>): Heap
    requires HeapOk(h) && IsRun(h, ops)
    decreases |ops|
  {
    if ops == [] then h else StepOk(h, ops[0]); After(Step(h, ops[0]), ops[1..])
  }

  // Over every sequence of malloc and free the heap stays a partition of what
  // sbrk gave: an ordered, fully coalesced free list and disjoint live blocks.
  lemma {:induction false} RunOk(h: Heap, ops: seq<Op>)
    requires HeapOk(h) && IsRun(h, ops)
    ensures HeapOk(After(h, ops)) && |After(h, ops).owned| == Total(After(h, ops).free) + Total(After(h, ops).live)
    ensures h.owned <= After(h, ops).owned
    decreases |ops|
  {
    if ops != [] {
      StepOk(h, ops[0]);
      StepOwned(h, ops[0]);
      RunOk(Step(h, ops[0]), ops[1..]);
    }
  }

  lemma StepOwned(h: Heap, op: Op)
    requires HeapOk(h) && Allowed(h, op)
    ensures h.owned <= Step(h, op).owned
  {
  }

  // ---- the free list has no memory ----

  // Two ordered, coalesced lists of the same units are the same list.
  lemma {:induction false} Canonical(a: seq<Chunk>, b: seq<Chunk>)
    requires Ordered(a) && Ordered(b) && forall u: nat :: Covers(a, u) <==> Covers(b, u)
    ensures a == b
    decreases |a|
  {
    if a == [] {
      if b != [] { assert b[0].Has(b[0].addr) && Covers(b, b[0].addr); }
    } else {
      assert a[0].Has(a[0].addr) && Covers(a, a[0].addr);
      assert Covers(b, a[0].addr);
      assert b[0].Has(b[0].addr) && Covers(b, b[0].addr);
      assert Covers(a, b[0].addr);
      assert a[0].addr == b[0].addr;
      FirstEnd(a);
      FirstEnd(b);
      var x, y := a[0], b[0];
      assert x.size < y.size ==> y.Has(x.End());
      assert y.size < x.size ==> x.Has(y.End());
      assert x.size == y.size;
      assert a == [a[0]] + a[1..] && b == [b[0]] + b[1..];
      forall u: nat ensures Covers(a[1..], u) <==> Covers(b[1..], u) {
        Rest(a, u);
        Rest(b, u);
        assert Covers(a, u) <==> Covers(b, u);
      }
      Canonical(a[1..], b[1..]);
    }
  }

  lemma FirstEnd(a: seq<Chunk>)
    requires Ordered(a) && a != []
    ensures !Covers(a, a[0].End())
  {
    forall i | 0 <= i < |a| ensures !a[i].Has(a[0].End()) {
      if i > 0 { Sorted(a, 0, i); }
    }
  }

  lemma Rest(a: seq<Chunk>, u: nat)
    requires Ordered(a) && a != []
    ensures Covers(a[1..], u) <==> Covers(a, u) && !a[0].Has(u)
  {
    assert a == [a[0]] + a[1..];
    CoversSplit([a[0]], a[1..], u);
    CoversOne(a[0], u);
    forall i | 0 <= i < |a[1..]| ensures !(a[1..][i].Has(u) && a[0].Has(u)) { Sorted(a, 0, i + 1); }
  }

  // free undoes malloc: the list is back exactly as it was.
  lemma FreeUndoesMalloc(h: Heap, k: nat, n: nat)
    requires HeapOk(h) && k < |h.free| && 0 < n <= h.free[k].size
    ensures var h' := Release(Allocate(h, k, n), |h.live|);
            h'.free == h.free && h'.live == h.live && h'.owned == h.owned
  {
    var a := Allocate(h, k, n);
    AllocateOk(h, k, n);
    ReleaseOk(a, |h.live|);
    var h' := Release(a, |h.live|);
    assert a.live[|h.live|] == Taken(h.free, k, n);
    assert h'.live == h.live;
    forall u: nat ensures Covers(h'.free, u) <==> Covers(h.free, u) {
      InsertCovers(a.free, Taken(h.free, k, n), u);
      CarveCovers(h.free, k, n, u);
    }
    Canonical(h'.free, h.free);
  }

  // Once everything is freed, the free list depends only on what sbrk gave.
  lemma AllFreed(g: Heap, h: Heap)
    requires HeapOk(g) && HeapOk(h) && g.live == [] && h.live == [] && g.owned == h.owned
    ensures g.free == h.free
  {
    forall u: nat ensures Covers(g.free, u) <==> Covers(h.free, u) {
      assert u in g.owned <==> Covers(g.free, u) || Covers(g.live, u);
      assert u in h.owned <==> Covers(h.free, u) || Covers(h.live, u);
    }
    Canonical(g.free, h.free);
  }
}
