/** umalloc.c: malloc, free and morecore over headers linked in place. Memory
    is an array of headers, one for each unit; Linked says that it holds a
    free list of FreeList as a circle through base, Labelled that each live
    block has its size in its header. Every method is proved to move memory
    along with a transition of Heap, and to leave the units of live blocks, in
    which a program may keep anything, as they are. The lemmas below the class
    say what the loads and stores of the code do to memory so linked. */
module Umalloc {
  import opened Options
  import opened FreeList
  import opened Heap

  /** union header: next free block and size in units. Units inside a live
      block belong to the program and may hold anything. */
  datatype Header = Header(ptr: nat, size: nat)

  predicate NodeOk(m: seq<Header>, free: seq<Chunk>, k: nat)
    requires k <= |free|
  {
    var a := NodeAddr(free, k);
    a < |m| && m[a] == Header(NodeAddr(free, NextNode(free, k)), NodeSize(free, k))
  }

  // Memory holds this list: base and the free blocks in a circle.
  ghost predicate Linked(m: seq<Header>, free: seq<Chunk>)
  {
    && 0 < |m|
    && (forall i :: 0 <= i < |free| ==> free[i].End() <= |m|)
    && forall k :: 0 <= k <= |free| ==> NodeOk(m, free, k)
  }

  // Live blocks carry their sizes in their headers.
  ghost predicate Labelled(m: seq<Header>, live: seq<Chunk>)
  {
    forall i :: 0 <= i < |live| ==> 0 < live[i].size && live[i].End() <= |m| && m[live[i].addr].size == live[i].size
  }

  class Umalloc {
    const mem: array<Header>        // the address space, in units; base is mem[0]
    var freep: Option<nat>          // None before the first malloc
    ghost var h: Heap

    ghost predicate Valid()
      reads this, mem
    {
      && 0 < mem.Length && HeapOk(h) && Labelled(mem[..], h.live)
      && if freep.None? then h == FRESH else freep.value == NodeAddr(h.free, h.rover) && Linked(mem[..], h.free)
    }

    constructor (limit: nat)
      requires 0 < limit
      ensures Valid() && fresh(mem) && mem.Length == limit && h == FRESH
    {
      mem := new Header[limit](i => Header(0, 0));
      freep := None;
      h := FRESH;
    }

    // The program writing inside a block malloc gave it.
    method Store(u: nat, v: Header, ghost i: nat)
      requires Valid() && i < |h.live| && h.live[i].addr < u < h.live[i].End()
      modifies mem
      ensures Valid()
    {
      ghost var m := mem[..];
      mem[u] := v;
      StoreKeeps(m, h, i, u, v);
      assert mem[..] == m[u := v];
    }
  
    // free's loop: walk the circle from freep to the node bp belongs after.
    method Search(bp: nat, ghost c: Chunk) returns (p: nat)
      requires freep.Some? && h.rover <= |h.free| && freep.value == NodeAddr(h.free, h.rover)
      requires Linked(mem[..], h.free) && Insertable(h.free, c) && bp == c.addr
      ensures p == NodeAddr(h.free, Below(h.free, bp)) && p < mem.Length
    {
      ghost var free, m := h.free, mem[..];
      p := freep.value;
      ghost var k: nat, t: nat := h.rover, Below(free, bp);
      hide Linked, Insertable, Below, Ordered;
      SearchStep(m, free, c, k);
      while !(bp > p && bp < mem[p].ptr)
        invariant k <= |free| && t <= |free| && p == NodeAddr(free, k) && p < mem.Length
        invariant m[p].ptr < |m| && m[p].ptr == NodeAddr(free, NextNode(free, k))
        invariant ((bp > p && bp < m[p].ptr) || (p >= m[p].ptr && (bp > p || bp < m[p].ptr))) <==> k == t
        decreases if k <= t then t - k else t + |free| + 1 - k
      {
        if p >= mem[p].ptr && (bp > p || bp < mem[p].ptr) { break; }
        p := mem[p].ptr;
        k := NextNode(free, k);
        SearchStep(m, free, c, k);
      }
    }

    // free's stores: join the upper neighbour, then the lower one.
    method Splice(bp: nat, p: nat)
      requires bp < mem.Length && p < mem.Length && mem[p].ptr < mem.Length
      modifies mem
      ensures mem[..] == FreeWrites(old(mem[..]), bp, p)
    {
      if bp + mem[bp].size == mem[p].ptr {
        mem[bp] := Header(mem[mem[p].ptr].ptr, mem[bp].size + mem[mem[p].ptr].size);
      } else {
        mem[bp] := mem[bp].(ptr := mem[p].ptr);
      }
      if p + mem[p].size == bp {
        mem[p] := Header(mem[bp].ptr, mem[p].size + mem[bp].size);
      } else {
        mem[p] := mem[p].(ptr := bp);
      }
    }

    method Free(ap: nat, ghost i: nat)
      requires Valid() && i < |h.live| && 0 < ap && ap - 1 == h.live[i].addr
      modifies this, mem
      ensures Valid() && h == Release(old(h), i) && freep.Some?
      // What the program keeps in its other blocks stays as it is.
      ensures forall u: nat :: Covers(h.live, u) ==> u < mem.Length && mem[u] == old(mem[u])
    {
      ghost var free, c, m := h.free, h.live[i], mem[..];
      ReleaseOk(h, i);
      hide HeapOk, Below, Insertable, Insert, Labelled, Linked, FreeWrites, Covers, NodeAddr;
      var bp := ap - 1;
      var p := Search(bp, c);
      Freed(m, h, i);
      Splice(bp, p);
      freep := Some(p);
      h := Release(h, i);
    }
  
    // New memory becomes a live block, so that free can take it.
    method Adopt(hp: nat, nu: nat)
      requires Valid() && freep.Some? && 0 < nu && Grants(Chunk(hp, nu), h, mem.Length)
      modifies this`h, mem
      ensures Valid() && h == Obtain(old(h), Chunk(hp, nu)) && h.live[|h.live| - 1] == Chunk(hp, nu)
      ensures forall u: nat :: old(Covers(h.live, u)) ==> u < mem.Length && mem[u] == old(mem[u])
    {
      ghost var m, c := mem[..], Chunk(hp, nu);
      ObtainOk(h, c);
      ObtainKeeps(m, h, c);
      hide HeapOk, Labelled, Linked, Covers, NodeAddr;
      mem[hp] := mem[hp].(size := nu);
      assert mem[..] == m[hp := m[hp].(size := nu)];
      h := Obtain(h, c);
    }

    // sbrk's answer is an input: where it puts the new memory, or None.
    method Morecore(n: nat, sbrk: Option<nat>) returns (p: Option<nat>)
      requires Valid() && freep.Some? && 0 < n
      requires sbrk.Some? ==> Grants(Chunk(sbrk.value, MoreUnits(n)), h, mem.Length)
      modifies this, mem
      ensures Valid() && freep.Some?
      ensures p == if sbrk.None? then None else freep
      ensures h == if sbrk.None? then old(h) else Grow(old(h), Chunk(sbrk.value, MoreUnits(n)))
      ensures sbrk.Some? ==> h == Grow(old(h), Chunk(sbrk.value, if n < 4096 then 4096 else n))
      ensures sbrk.None? ==> freep == old(freep) && mem[..] == old(mem[..])
      ensures forall u: nat :: old(Covers(h.live, u)) ==> u < mem.Length && mem[u] == old(mem[u])
    {
      var nu := if n < MINUNITS then MINUNITS else n;
      if sbrk.None? { return None; }
      var hp := sbrk.value;
      ghost var c := Chunk(hp, nu);
      Adopt(hp, nu);
      GrowLive(old(h), c);
      hide HeapOk, Labelled, Linked, Insert, Covers, NodeAddr, Release, Span;
      Free(hp + 1, |h.live| - 1);
      return freep;
    }
  
    // malloc's stores: unlink an exact fit, or cut the tail off.
    method Cut(n: nat, prevp: nat, p: nat) returns (q: nat)
      requires prevp < mem.Length && p < mem.Length && 0 < n <= mem[p].size && p + mem[p].size <= mem.Length
      modifies mem
      ensures q == p + old(mem[p].size) - n && mem[..] == CarveWrites(old(mem[..]), prevp, p, n)
    {
      q := p;
      if mem[p].size == n {
        mem[prevp] := mem[prevp].(ptr := mem[p].ptr);
      } else {
        mem[p] := mem[p].(size := mem[p].size - n);
        q := p + mem[p].size;
        mem[q] := mem[q].(size := n);
      }
    }

    // Cut n units off block k, found at p behind prevp.
    method Take(n: nat, ghost k: nat, prevp: nat, p: nat) returns (q: nat)
      requires Valid() && freep.Some? && k < |h.free| && 0 < n <= h.free[k].size
      requires prevp == NodeAddr(h.free, k) && p == NodeAddr(h.free, k + 1) && prevp < mem.Length && p < mem.Length
      modifies this, mem
      ensures Valid() && freep.Some? && h == Allocate(old(h), k, n)
      ensures h.live == old(h).live + [Chunk(q, n)] && freep == Some(prevp)
      ensures forall u: nat :: old(Covers(h.live, u)) ==> u < mem.Length && mem[u] == old(mem[u])
    {
      hide HeapOk, Labelled, Linked, Carve, Covers, NodeAddr, NodeSize, Allocate, CarveWrites;
      ghost var m := mem[..];
      AllocateOk(h, k, n);
      CarvedKeeps(m, h, k, n);
      q := Cut(n, prevp, p);
      freep := Some(prevp);
      h := Allocate(h, k, n);
    }
  
    // What the search has looked at so far holds nothing big enough.
    ghost predicate Searching(s: nat, n: nat, prevp: nat, p: nat)
      reads this, mem
    {
      && 0 < n && 1 <= s <= |h.free| + 1 && h.rover <= |h.free|
      && prevp == NodeAddr(h.free, Round(h.free, h.rover, s - 1)) && p == NodeAddr(h.free, Round(h.free, h.rover, s))
      && Scan(h.free, h.rover, 1, n) == Scan(h.free, h.rover, s, n)
    }

    // The first call: base alone, pointing at itself.
    method Init()
      requires Valid() && freep.None?
      modifies this`freep, mem
      ensures Valid() && freep == Some(0) && h == old(h) && h == FRESH
      ensures forall u: nat :: !Covers(h.live, u)
    {
      mem[0] := Header(0, 0);
      freep := Some(0);
      forall k: nat | k <= |h.free| ensures NodeOk(mem[..], h.free, k) {}
    }

    lemma LiveInside()
      requires Valid()
      ensures forall u: nat :: Covers(h.live, u) ==> 0 < u < mem.Length
    {
    }

    lemma Begin(n: nat)
      requires Valid() && freep.Some? && 0 < n
      ensures freep.value < mem.Length && Searching(1, n, freep.value, mem[freep.value].ptr)
    {
      assert NodeOk(mem[..], h.free, h.rover);
    }

    // One look at a node: it fits, or the search is over, or it moves on.
    lemma Probe(s: nat, n: nat, prevp: nat, p: nat)
      requires Valid() && freep.Some? && Searching(s, n, prevp, p)
      ensures prevp < mem.Length && p < mem.Length
      ensures var k := Scan(h.free, h.rover, 1, n);
        && (mem[p].size >= n ==> k.Some? && prevp == NodeAddr(h.free, k.value) && p == NodeAddr(h.free, k.value + 1))
        && (mem[p].size < n && p == freep.value ==> k.None?)
        && (mem[p].size < n && p != freep.value ==> s <= |h.free| && Searching(s + 1, n, p, mem[p].ptr))
    {
      NodeAt(mem[..], h.free, Round(h.free, h.rover, s));
      NodeAt(mem[..], h.free, Round(h.free, h.rover, s - 1));
      RoundStep(h.free, h.rover, s);
      ScanStep(h.free, h.rover, s, n);
      hide HeapOk, Labelled, Linked, NodeOk, Round, Scan, NodeAddr, NodeSize;
    }

    // malloc's walk from freep: it stops at the first block that is big
    // enough, or when it is back at freep.
    method Walk(n: nat) returns (found: bool, prevp: nat, p: nat)
      requires Valid() && freep.Some? && 0 < n
      ensures prevp < mem.Length && p < mem.Length && h.rover <= |h.free|
      ensures var k := Scan(h.free, h.rover, 1, n);
        && found == k.Some?
        && (found ==> prevp == NodeAddr(h.free, k.value) && p == NodeAddr(h.free, k.value + 1))
    {
      hide HeapOk, Labelled, Linked, NodeAddr, Searching, Scan;
      Begin(n);
      prevp := freep.value;
      p := mem[prevp].ptr;
      ghost var s: nat := 1;
      Probe(s, n, prevp, p);
      while mem[p].size < n && p != freep.value
        invariant p < mem.Length && Searching(s, n, prevp, p)
        decreases |h.free| + 2 - s
      {
        Probe(s, n, prevp, p);
        prevp := p;
        p := mem[p].ptr;
        s := s + 1;
        Probe(s, n, prevp, p);
      }
      Probe(s, n, prevp, p);
      found := mem[p].size >= n;
    }

    // The whole search: walk, and if that fails ask for memory and walk again.
    // One grant is enough; the second walk cannot fail.
    method FindOrGrow(n: nat, sbrk: Option<nat>) returns (found: bool, prevp: nat, p: nat)
      requires Valid() && freep.Some? && 0 < n
      requires sbrk.Some? ==> Grants(Chunk(sbrk.value, MoreUnits(n)), h, mem.Length)
      modifies this, mem
      ensures Valid() && freep.Some? && Searched(old(h), h, n, sbrk, found)
      ensures found ==> Found(h, n, prevp, p) && prevp < mem.Length && p < mem.Length
      ensures forall u: nat :: Covers(old(h).live, u) ==> u < mem.Length && mem[u] == old(mem[u])
    {
      hide HeapOk, Labelled, Linked, Insert, Covers, NodeAddr, NodeSize, Release, Scan, Step, Span, Grants, Fits,
          Searched;
      LiveInside();
      GrantAllowed(h, n, sbrk, mem.Length);
      SearchedAtOnce(h, n, sbrk);
      found, prevp, p := Walk(n);
      if !found {
        SearchedAfter(h, n, sbrk);
        var hp := Morecore(n, sbrk);
        if hp.Some? {
          found, prevp, p := Walk(n);
        }
      }
    }

    method AllocUnits(n: nat, sbrk: Option<nat>) returns (r: Option<nat>)
      requires Valid() && freep.Some? && 0 < n
      requires sbrk.Some? ==> Grants(Chunk(sbrk.value, MoreUnits(n)), h, mem.Length)
      modifies this, mem
      ensures Valid() && Outcome(old(h), h, n, sbrk, r)
      ensures forall u: nat :: Covers(old(h).live, u) ==> u < mem.Length && mem[u] == old(mem[u])
    {
      ghost var h0 := h;
      GrantAllowed(h, n, sbrk, mem.Length);
      hide HeapOk, Labelled, Linked, Insert, Covers, NodeAddr, Release, Scan, Step, Span, Fits, Carve, Taken, Grants,
          Searched, Outcome;
      var found, prevp, p := FindOrGrow(n, sbrk);
      OutcomeIs(h0, h, n, sbrk, found);
      if !found { return None; }
      var q := Take(n, Scan(h.free, h.rover, 1, n).value, prevp, p);
      return Some(q + 1);
    }

    // malloc, told what sbrk would answer.
    method Malloc(nbytes: nat, sbrk: Option<nat>) returns (r: Option<nat>)
      requires Valid()
      requires sbrk.Some? ==> Grants(Chunk(sbrk.value, MoreUnits(Nunits(nbytes))), h, mem.Length)
      modifies this, mem
      ensures Valid() && Outcome(old(h), h, Nunits(nbytes), sbrk, r)
      // What the program keeps in its blocks stays as it is.
      ensures forall u: nat :: Covers(old(h).live, u) ==> u < mem.Length && mem[u] == old(mem[u])
    {
      LiveInside();
      GrantAllowed(h, Nunits(nbytes), sbrk, mem.Length);
      hide HeapOk, Labelled, Linked, Insert, Covers, NodeAddr, Release, Scan, Span, Carve, Taken, Allowed, Grants,
          Step, Fits, Outcome;
      if freep.None? { Init(); }
      r := AllocUnits((nbytes + 8 - 1) / 8 + 1, sbrk);
    }
  }

  // What malloc owes its caller: it fails exactly when no free block is big
  // enough and sbrk refuses; otherwise a new live block of n units begins one
  // unit before the address it returns. Either way the heap makes one Step.
  ghost predicate Outcome(h: Heap, h': Heap, n: nat, sbrk: Option<nat>, r: Option<nat>)
  {
    && HeapOk(h) && Allowed(h, Op.Malloc(n, sbrk)) && h' == Step(h, Op.Malloc(n, sbrk))
    && (r.None? <==> !Fits(h, n) && sbrk.None?)
    && (if r.Some? then 0 < r.value && h'.live == h.live + [Chunk(r.value - 1, n)] else h' == h)
  }

  // The search on heap g found block Scan(..), behind prevp.
  ghost predicate Found(g: Heap, n: nat, prevp: nat, p: nat)
  {
    && 0 < n && g.rover <= |g.free|
    && var k := Scan(g.free, g.rover, 1, n);
       k.Some? && prevp == NodeAddr(g.free, k.value) && p == NodeAddr(g.free, k.value + 1)
  }

  // Where the search leaves the heap: as it was, or grown once.
  ghost predicate Searched(h: Heap, g: Heap, n: nat, sbrk: Option<nat>, found: bool)
  {
    && 0 < n && g.rover <= |g.free| && g.live == h.live
    && (found <==> Fits(h, n) || sbrk.Some?)
    && (found <==> Scan(g.free, g.rover, 1, n).Some?)
    && g == if Fits(h, n) || sbrk.None? then h else Grow(h, Chunk(sbrk.value, MoreUnits(n)))
  }

  lemma SearchedAtOnce(h: Heap, n: nat, sbrk: Option<nat>)
    requires HeapOk(h) && Allowed(h, Op.Malloc(n, sbrk))
    ensures Scan(h.free, h.rover, 1, n).Some? || sbrk.None? ==>
            Searched(h, h, n, sbrk, Scan(h.free, h.rover, 1, n).Some?)
  {
    ScanFinds(h.free, h.rover, n);
  }

  lemma SearchedAfter(h: Heap, n: nat, sbrk: Option<nat>)
    requires HeapOk(h) && Allowed(h, Op.Malloc(n, sbrk)) && Scan(h.free, h.rover, 1, n).None?
    ensures sbrk.Some? ==>
      var g := Grow(h, Chunk(sbrk.value, MoreUnits(n))); HeapOk(g) && Searched(h, g, n, sbrk, true)
  {
    ScanFinds(h.free, h.rover, n);
    if sbrk.Some? {
      GrowFits(h, Chunk(sbrk.value, MoreUnits(n)), n);
      GrowLive(h, Chunk(sbrk.value, MoreUnits(n)));
    }
  }

  lemma OutcomeIs(h: Heap, g: Heap, n: nat, sbrk: Option<nat>, found: bool)
    requires HeapOk(h) && Allowed(h, Op.Malloc(n, sbrk)) && Searched(h, g, n, sbrk, found)
    ensures if found then
        var k := Scan(g.free, g.rover, 1, n).value;
        forall q: nat :: Allocate(g, k, n).live == g.live + [Chunk(q, n)] ==>
            Outcome(h, Allocate(g, k, n), n, sbrk, Some(q + 1))
      else Outcome(h, g, n, sbrk, None)
  {
    ScanFinds(h.free, h.rover, n);
    hide HeapOk, Scan;
  }

  lemma NodeAt(m: seq<Header>, free: seq<Chunk>, k: nat)
    requires Linked(m, free) && k <= |free|
    ensures NodeAddr(free, k) < |m|
            && m[NodeAddr(free, k)] == Header(NodeAddr(free, NextNode(free, k)), NodeSize(free, k))
  {
    assert NodeOk(m, free, k);
  }

  // Going round, only the last step comes back to where it began.
  lemma RoundStep(free: seq<Chunk>, r: nat, s: nat)
    requires Ordered(free) && r <= |free| && 1 <= s <= |free| + 1
    ensures var k := Round(free, r, s);
      && (0 < k ==> Round(free, r, s - 1) == k - 1)
      && (s <= |free| ==> Round(free, r, s + 1) == NextNode(free, k))
      && (NodeAddr(free, k) == NodeAddr(free, r) <==> s == |free| + 1)
  {
    var k := Round(free, r, s);
    if k < r { NodesAscend(free, k, r); } else if r < k { NodesAscend(free, r, k); }
  }

  lemma ScanStep(free: seq<Chunk>, r: nat, s: nat, n: nat)
    requires r <= |free| && 0 < n && 1 <= s <= |free| + 1
    ensures var k := Round(free, r, s);
      && (NodeSize(free, k) >= n ==> 0 < k && Scan(free, r, s, n) == Some(k - 1))
      && (NodeSize(free, k) < n && s == |free| + 1 ==> Scan(free, r, s, n).None?)
      && (NodeSize(free, k) < n && s <= |free| ==> Scan(free, r, s, n) == Scan(free, r, s + 1, n))
  {
  }

  // Units for a request: the payload rounded up, and one for the header.
  function Nunits(nbytes: nat): (n: nat)
    ensures 0 < n && nbytes <= (n - 1) * 8 < nbytes + 8
  {
    (nbytes + 8 - 1) / 8 + 1
  }

  // malloc's stores.
  function CarveWrites(m: seq<Header>, prevp: nat, p: nat, n: nat): (r: seq<Header>)
    requires prevp < |m| && p < |m| && n <= m[p].size && p + m[p].size - n < |m|
    ensures |r| == |m|
  {
    if m[p].size == n then m[prevp := m[prevp].(ptr := m[p].ptr)] else
      var m1 := m[p := m[p].(size := m[p].size - n)];
      var q := p + m[p].size - n;
      m1[q := m1[q].(size := n)]
  }

  lemma CarveReads(m: seq<Header>, free: seq<Chunk>, k: nat)
    requires Ordered(free) && Linked(m, free) && k < |free|
    ensures var prevp, p := NodeAddr(free, k), NodeAddr(free, k + 1);
      && prevp < p < |m| && 0 < m[p].size && p + m[p].size <= |m|
      && m[p] == Header(NodeAddr(free, NextNode(free, k + 1)), free[k].size)
      && m[prevp] == Header(p, NodeSize(free, k))
  {
    NodesAscend(free, k, k + 1);
    assert NodeOk(m, free, k) && NodeOk(m, free, k + 1);
  }

  // An exact fit: the previous node skips the block.
  lemma SkippedNode(m: seq<Header>, free: seq<Chunk>, k: nat, j: nat)
    requires Ordered(free) && Linked(m, free) && k < |free| && j < |free|
    requires NodeAddr(free, k) < |m| && NodeAddr(free, k + 1) < |m|
    ensures NodeOk(m[NodeAddr(free, k) := m[NodeAddr(free, k)].(ptr := m[NodeAddr(free, k + 1)].ptr)],
            free[..k] + free[k + 1..], j)
  {
    CarveReads(m, free, k);
    var i: nat := if j > k then j + 1 else j;
    assert NodeOk(m, free, i);
    if i < k { NodesAscend(free, i, k); } else if k < i { NodesAscend(free, k, i); }
    hide Linked, Ordered;
    if j < k {
      SkippedBelow(m, free, k, j);
    } else if j == k {
      SkippedAt(m, free, k);
    } else {
      SkippedAbove(m, free, k, j);
    }
  }

  lemma SkippedBelow(m: seq<Header>, free: seq<Chunk>, k: nat, j: nat)
    requires j < k < |free| && NodeAddr(free, j) < NodeAddr(free, k) < |m| && NodeAddr(free, k + 1) < |m|
             && NodeOk(m, free, j)
    ensures NodeOk(m[NodeAddr(free, k) := m[NodeAddr(free, k)].(ptr := m[NodeAddr(free, k + 1)].ptr)],
            free[..k] + free[k + 1..], j)
  {
    var r := free[..k] + free[k + 1..];
    assert NodeAddr(r, j) == NodeAddr(free, j) && NodeAddr(r, j + 1) == NodeAddr(free, j + 1)
           && NodeSize(r, j) == NodeSize(free, j);
  }

  lemma SkippedAt(m: seq<Header>, free: seq<Chunk>, k: nat)
    requires k < |free| && NodeAddr(free, k) < |m| && NodeAddr(free, k + 1) < |m| && NodeOk(m, free, k)
    requires m[NodeAddr(free, k + 1)].ptr == NodeAddr(free, NextNode(free, k + 1))
    ensures NodeOk(m[NodeAddr(free, k) := m[NodeAddr(free, k)].(ptr := m[NodeAddr(free, k + 1)].ptr)],
            free[..k] + free[k + 1..], k)
  {
    var r := free[..k] + free[k + 1..];
    assert NodeAddr(r, k) == NodeAddr(free, k) && NodeSize(r, k) == NodeSize(free, k);
    assert NodeAddr(r, NextNode(r, k)) == NodeAddr(free, NextNode(free, k + 1));
  }

  lemma SkippedAbove(m: seq<Header>, free: seq<Chunk>, k: nat, j: nat)
    requires k < j < |free| && NodeAddr(free, k) < NodeAddr(free, j + 1) && NodeAddr(free, k) < |m|
             && NodeAddr(free, k + 1) < |m|
    requires NodeOk(m, free, j + 1)
    ensures NodeOk(m[NodeAddr(free, k) := m[NodeAddr(free, k)].(ptr := m[NodeAddr(free, k + 1)].ptr)],
            free[..k] + free[k + 1..], j)
  {
    var r := free[..k] + free[k + 1..];
    assert NodeAddr(r, j) == NodeAddr(free, j + 1) && NodeSize(r, j) == NodeSize(free, j + 1);
    assert NodeAddr(r, NextNode(r, j)) == NodeAddr(free, NextNode(free, j + 1));
  }

  // Otherwise the block keeps its place and loses its tail.
  lemma ShrunkNode(m: seq<Header>, free: seq<Chunk>, k: nat, n: nat, j: nat)
    requires Ordered(free) && Linked(m, free) && k < |free| && 0 < n < free[k].size && j <= |free|
    requires var p := NodeAddr(free, k + 1); p < |m| && p + m[p].size - n < |m| && n < m[p].size
    ensures var p := NodeAddr(free, k + 1);
      var m1 := m[p := m[p].(size := m[p].size - n)];
      var q := p + m[p].size - n;
      NodeOk(m1[q := m1[q].(size := n)], free[k := Chunk(free[k].addr, free[k].size - n)], j)
  {
    var r := free[k := Chunk(free[k].addr, free[k].size - n)];
    var q := free[k].End() - n;
    CarveReads(m, free, k);
    assert NodeOk(m, free, j);
    if j < k + 1 { NodesAscend(free, j, k + 1); } else if k + 1 < j { Sorted(free, k, j - 1); }
    hide Linked, Ordered;
    assert NodeAddr(free, j) != q;
    assert NodeAddr(r, j) == NodeAddr(free, j) && NodeAddr(r, NextNode(r, j)) == NodeAddr(free, NextNode(free, j));
  }

  lemma CarvedLinks(m: seq<Header>, free: seq<Chunk>, k: nat, n: nat)
    requires Ordered(free) && Linked(m, free) && k < |free| && 0 < n <= free[k].size
    ensures var prevp, p := NodeAddr(free, k), NodeAddr(free, k + 1);
      && prevp < p < |m| && m[p].size == free[k].size && p + m[p].size <= |m|
      && Linked(CarveWrites(m, prevp, p, n), Carve(free, k, n))
  {
    var prevp, p, r := NodeAddr(free, k), NodeAddr(free, k + 1), Carve(free, k, n);
    CarveReads(m, free, k);
    var m' := CarveWrites(m, prevp, p, n);
    forall i | 0 <= i < |r| ensures r[i].End() <= |m| {
      assert r[i].End() <= free[if free[k].size == n && i >= k then i + 1 else i].End();
    }
    forall j: nat | j <= |r| ensures NodeOk(m', r, j) {
      if free[k].size == n { SkippedNode(m, free, k, j); } else { ShrunkNode(m, free, k, n, j); }
    }
  }

  // The stores fall on base, on free blocks, and on the block being taken.
  lemma CarvedElsewhere(m: seq<Header>, h: Heap, k: nat, n: nat, i: nat, u: nat)
    requires HeapOk(h) && Labelled(m, h.live) && Linked(m, h.free) && k < |h.free| && 0 < n <= h.free[k].size
    requires i < |h.live| && h.live[i].Has(u)
    requires var prevp, p := NodeAddr(h.free, k), NodeAddr(h.free, k + 1);
      prevp < |m| && p < |m| && m[p].size == h.free[k].size && p + m[p].size <= |m|
    ensures u < |m| && CarveWrites(m, NodeAddr(h.free, k), NodeAddr(h.free, k + 1), n)[u] == m[u]
  {
    NodeOutside(h, k, i);
    assert Apart(h.live[i], h.free[k]);
    hide HeapOk, Linked;
  }

  // The units of live blocks are as they were.
  ghost predicate Untouched(m: seq<Header>, m': seq<Header>, live: seq<Chunk>)
  {
    |m'| == |m| && forall u: nat :: Covers(live, u) ==> u < |m| && m'[u] == m[u]
  }

  lemma CarvedUntouched(m: seq<Header>, h: Heap, k: nat, n: nat)
    requires HeapOk(h) && Labelled(m, h.live) && Linked(m, h.free) && k < |h.free| && 0 < n <= h.free[k].size
    requires NodeAddr(h.free, k) < NodeAddr(h.free, k + 1) < |m|
    requires m[NodeAddr(h.free, k + 1)].size == h.free[k].size && NodeAddr(h.free, k + 1) + h.free[k].size <= |m|
    ensures Untouched(m, CarveWrites(m, NodeAddr(h.free, k), NodeAddr(h.free, k + 1), n), h.live)
  {
    hide HeapOk, Linked, Labelled, CarveWrites, NodeAddr;
    var m' := CarveWrites(m, NodeAddr(h.free, k), NodeAddr(h.free, k + 1), n);
    forall u: nat | Covers(h.live, u) ensures u < |m| && m'[u] == m[u] {
      var i :| 0 <= i < |h.live| && h.live[i].Has(u);
      CarvedElsewhere(m, h, k, n, i, u);
    }
  }

  lemma CarvedLabels(m: seq<Header>, m': seq<Header>, live: seq<Chunk>, c: Chunk)
    requires Labelled(m, live) && Untouched(m, m', live)
    requires 0 < c.size && c.End() <= |m| && m'[c.addr].size == c.size
    ensures Labelled(m', live + [c])
  {
    forall i | 0 <= i < |live| ensures m'[live[i].addr] == m[live[i].addr] {
      assert live[i].Has(live[i].addr);
      assert Covers(live, live[i].addr);
    }
  }

  // What the stores of Cut come to.
  ghost predicate CarvedOk(m: seq<Header>, h: Heap, k: nat, n: nat)
    requires k < |h.free| && 0 < n <= h.free[k].size
  {
    var prevp, p, h' := NodeAddr(h.free, k), NodeAddr(h.free, k + 1), Allocate(h, k, n);
    && prevp < p < |m| && m[p].size == h.free[k].size && p + m[p].size <= |m|
    && var m' := CarveWrites(m, prevp, p, n);
    && Labelled(m', h'.live) && Linked(m', h'.free) && h'.rover == k <= |h'.free| && prevp == NodeAddr(h'.free, k)
    && h'.live == h.live + [Chunk(p + m[p].size - n, n)]
    && Untouched(m, m', h.live)
  }

  lemma CarvedKeeps(m: seq<Header>, h: Heap, k: nat, n: nat)
    requires HeapOk(h) && Labelled(m, h.live) && Linked(m, h.free) && k < |h.free| && 0 < n <= h.free[k].size
    ensures CarvedOk(m, h, k, n)
  {
    hide Linked, Labelled, Untouched, CarveWrites, Allocate, Carve, Covers;
    CarvedLinks(m, h.free, k, n);
    CarvedUntouched(m, h, k, n);
    AllocateIs(h, k, n);
    var prevp, p := NodeAddr(h.free, k), NodeAddr(h.free, k + 1);
    CarvedSize(m, prevp, p, n);
    hide HeapOk, NodeAddr;
    CarvedLabels(m, CarveWrites(m, prevp, p, n), h.live, Chunk(p + m[p].size - n, n));
  }

  lemma AllocateIs(h: Heap, k: nat, n: nat)
    requires k < |h.free| && 0 < n <= h.free[k].size
    ensures var h' := Allocate(h, k, n);
      && h'.free == Carve(h.free, k, n) && h'.rover == k <= |h'.free| && NodeAddr(h'.free, k) == NodeAddr(h.free, k)
      && h'.live == h.live + [Chunk(NodeAddr(h.free, k + 1) + h.free[k].size - n, n)]
  {
  }

  lemma CarvedSize(m: seq<Header>, prevp: nat, p: nat, n: nat)
    requires prevp < |m| && p < |m| && 0 < n <= m[p].size && p + m[p].size - n < |m| && prevp != p
    ensures CarveWrites(m, prevp, p, n)[p + m[p].size - n].size == n
  {
  }

  lemma GrantAllowed(h: Heap, n: nat, sbrk: Option<nat>, limit: nat)
    requires 0 < n && (sbrk.Some? ==> Grants(Chunk(sbrk.value, MoreUnits(n)), h, limit))
    ensures Allowed(h, Op.Malloc(n, sbrk))
  {
  }

  lemma GrowLive(h: Heap, c: Chunk)
    ensures Grow(h, c).live == h.live && |Obtain(h, c).live| == |h.live| + 1
  {
  }

  // The memory sbrk hands over is inside the address space, above base, and
  // none of it was handed over before.
  predicate Grants(c: Chunk, h: Heap, limit: nat)
  {
    0 < c.addr && c.End() <= limit && Units(c) !! h.owned
  }

  lemma ObtainKeeps(m: seq<Header>, h: Heap, c: Chunk)
    requires HeapOk(h) && Labelled(m, h.live) && Linked(m, h.free) && 0 < c.size && Grants(c, h, |m|)
    ensures var m' := m[c.addr := m[c.addr].(size := c.size)];
      && Labelled(m', Obtain(h, c).live) && Linked(m', h.free)
      && forall u: nat :: Covers(h.live, u) ==> u < |m| && m'[u] == m[u]
  {
    var m' := m[c.addr := m[c.addr].(size := c.size)];
    assert c.addr in Units(c);
    forall k: nat | k <= |h.free| ensures NodeOk(m', h.free, k) {
      assert NodeOk(m, h.free, k);
      if 0 < k { assert h.free[k - 1].Has(NodeAddr(h.free, k)); }
    }
    forall j | 0 <= j < |h.live| ensures h.live[j].addr != c.addr {
      assert h.live[j].Has(h.live[j].addr);
    }
    forall u: nat | Covers(h.live, u) ensures u < |m| && m'[u] == m[u] {
      var j :| 0 <= j < |h.live| && h.live[j].Has(u);
    }
  }

  // The stores free makes once the search has stopped at p.
  function FreeWrites(m: seq<Header>, bp: nat, p: nat): (r: seq<Header>)
    requires bp < |m| && p < |m| && m[p].ptr < |m|
    ensures |r| == |m|
  {
    var q := m[p].ptr;
    var m1 := m[bp := if bp + m[bp].size == q then Header(m[q].ptr, m[bp].size + m[q].size) else Header(q, m[bp].size)];
    m1[p := if p + m1[p].size == bp then Header(m1[bp].ptr, m1[p].size + m1[bp].size) else Header(bp, m1[p].size)]
  }

  lemma NodesAscend(free: seq<Chunk>, j: nat, k: nat)
    requires Ordered(free) && j < k <= |free|
    ensures NodeAddr(free, j) < NodeAddr(free, k)
  {
    if 0 < j { Sorted(free, j - 1, k - 1); }
  }

  lemma NodeRead(m: seq<Header>, free: seq<Chunk>, c: Chunk, k: nat)
    requires Linked(m, free) && Insertable(free, c) && k <= |free|
    ensures var p := NodeAddr(free, k);
      && p < |m| && m[p].ptr < |m| && c.addr != p && c.addr != m[p].ptr
      && m[p] == Header(NodeAddr(free, NextNode(free, k)), NodeSize(free, k))
  {
    assert NodeOk(m, free, k) && NodeOk(m, free, NextNode(free, k));
    assert 0 < k ==> Apart(c, free[k - 1]);
    assert k < |free| ==> Apart(c, free[k]);
  }

  // After free the search begins at the last free block below the one freed.
  lemma FreedRover(h: Heap, i: nat, k: nat)
    requires HeapOk(h) && i < |h.live| && k < |h.free|
    ensures var h', c := Release(h, i), h.live[i];
      && h'.rover <= |h'.free| && NodeAddr(h'.free, h'.rover) < c.addr
      && (h.free[k].addr < c.addr ==> h.free[k].addr <= NodeAddr(h'.free, h'.rover))
  {
    ReleaseOk(h, i);
    hide HeapOk, Insert;
    FreedNode(h.free, h.live[i]);
    NodeBelow(h.free, h.live[i], k);
  }

  lemma NodeBelow(free: seq<Chunk>, c: Chunk, k: nat)
    requires Insertable(free, c) && k < |free|
    ensures NodeAddr(free, Below(free, c.addr)) < c.addr
    ensures free[k].addr < c.addr ==> free[k].addr <= NodeAddr(free, Below(free, c.addr))
  {
    var t := Below(free, c.addr);
    assert Ordered(free) && 0 < c.addr;
    hide Below, Insertable, Ordered;
    if 0 < t { BelowAt(free, c.addr, t - 1); }
    BelowAt(free, c.addr, k);
    if k + 1 < t { Sorted(free, k, t - 1); }
  }

  lemma BelowAt(free: seq<Chunk>, addr: nat, k: nat)
    requires Ordered(free) && k < |free|
    ensures free[k].addr < addr <==> k < Below(free, addr)
  {
    BelowIs(free, addr);
  }

  // free's loop condition holds at one node only, the last one below bp.
  lemma SearchStep(m: seq<Header>, free: seq<Chunk>, c: Chunk, k: nat)
    requires Linked(m, free) && Insertable(free, c) && k <= |free|
    ensures var bp, p, t := c.addr, NodeAddr(free, k), Below(free, c.addr);
      && p < |m| && m[p].ptr < |m| && m[p].ptr == NodeAddr(free, NextNode(free, k))
      && (((bp > p && bp < m[p].ptr) || (p >= m[p].ptr && (bp > p || bp < m[p].ptr))) <==> k == t)
  {
    var bp, t := c.addr, Below(free, c.addr);
    BelowIs(free, bp);
    NodeRead(m, free, c, k);
    hide Below, Linked;
    if k < |free| { NodesAscend(free, k, k + 1); }
    if 0 < k && k <= t { assert free[k - 1].addr < bp; }
    if t < k { assert bp <= free[k - 1].addr; }
    if k < t { assert free[k].addr < bp; }
    if t == k < |free| { assert bp <= free[k].addr; }
  }

  // The node that precedes the freed block keeps its number and its address.
  lemma FreedNode(free: seq<Chunk>, c: Chunk)
    requires Insertable(free, c)
    ensures var t, r := Below(free, c.addr), Insert(free, c); t <= |r| && NodeAddr(r, t) == NodeAddr(free, t)
  {
    MergedAddr(free, c);
  }

  lemma LowerNode(free: seq<Chunk>, c: Chunk)
    ensures var t := Below(free, c.addr);
      JoinsLower(free, c) ==> 0 < t && free[t - 1] == Chunk(NodeAddr(free, t), NodeSize(free, t))
  {
  }

  lemma HiIs(free: seq<Chunk>, c: Chunk)
    ensures Hi(free, c) == Below(free, c.addr) + if JoinsUpper(free, c) then 1 else 0
    ensures JoinsUpper(free, c) ==> Below(free, c.addr) < |free|
  {
  }

  // What those stores leave: one header for the merged block, and the lower
  // neighbour's if it was not merged.
  lemma WritesPlain(m: seq<Header>, bp: nat, p: nat, up: bool, low: bool)
    requires bp < |m| && p < |m| && m[p].ptr < |m| && bp != p && bp != m[p].ptr
    requires up == (bp + m[bp].size == m[p].ptr) && low == (p + m[p].size == bp) && (up ==> p != m[p].ptr)
    ensures var r, q := FreeWrites(m, bp, p), m[p].ptr;
      && (forall a :: 0 <= a < |m| && a != bp && a != p ==> r[a] == m[a])
      && r[if low then p else bp]
         == Header(if up then m[q].ptr else q,
                   m[bp].size + (if low then m[p].size else 0) + (if up then m[q].size else 0))
      && (!low ==> r[p] == Header(bp, m[p].size))
  {
  }

  // The t-th node and the one after it, which is base if there is none.
  predicate NodesRead(m: seq<Header>, free: seq<Chunk>, t: nat)
    requires t <= |free|
  {
    && NodeAddr(free, t) < |m|
    && if t < |free| then
         && NodeAddr(free, t) < free[t].addr < |m|
         && m[free[t].addr] == Header(if t + 1 < |free| then free[t + 1].addr else 0, free[t].size)
         && m[NodeAddr(free, t)] == Header(free[t].addr, NodeSize(free, t))
       else m[NodeAddr(free, t)] == Header(0, NodeSize(free, t))
  }

  lemma UpperRead(m: seq<Header>, free: seq<Chunk>, c: Chunk)
    requires Linked(m, free) && Insertable(free, c)
    ensures NodesRead(m, free, Below(free, c.addr))
  {
    assert Ordered(free);
    hide Below, Insertable, Ordered, Linked, NodesRead;
    var t := Below(free, c.addr);
    if t < |free| {
      NodePair(m, free, c, t);
    } else {
      LastNode(m, free, c);
    }
  }

  lemma NodePair(m: seq<Header>, free: seq<Chunk>, c: Chunk, t: nat)
    requires Linked(m, free) && Insertable(free, c) && t < |free| && Ordered(free)
    ensures NodesRead(m, free, t)
  {
    hide Insertable, Ordered, Linked;
    NodeRead(m, free, c, t);
    NodeRead(m, free, c, t + 1);
    NodesAscend(free, t, t + 1);
  }

  lemma LastNode(m: seq<Header>, free: seq<Chunk>, c: Chunk)
    requires Linked(m, free) && Insertable(free, c)
    ensures NodesRead(m, free, |free|)
  {
    hide Insertable, Linked;
    NodeRead(m, free, c, |free|);
  }

  // How the tests and loads of free read the list.
  lemma ReadsAre(m: seq<Header>, free: seq<Chunk>, c: Chunk)
    requires Linked(m, free) && Insertable(free, c) && c.End() <= |m|
    ensures var p := NodeAddr(free, Below(free, c.addr));
      && p < |m| && 0 < c.addr < |m| && m[p].ptr < |m| && c.addr != p && c.addr != m[p].ptr
      && (c.End() == m[p].ptr <==> JoinsUpper(free, c)) && (p + m[p].size == c.addr <==> JoinsLower(free, c))
  {
    assert 0 < c.addr < |m|;
    NodeRead(m, free, c, Below(free, c.addr));
    UpperRead(m, free, c);
    JoinsAre(free, c);
    hide Below, Insertable, Linked, NextNode, NodeAddr, NodeSize, JoinsUpper, JoinsLower;
  }

  lemma JoinsAre(free: seq<Chunk>, c: Chunk)
    requires 0 < c.addr
    ensures var t := Below(free, c.addr);
      && (JoinsUpper(free, c) <==> t < |free| && c.End() == free[t].addr)
      && (JoinsLower(free, c) <==> NodeAddr(free, t) + NodeSize(free, t) == c.addr)
  {
    hide Below;
  }

  // The address the merged block must point at.
  function Following(free: seq<Chunk>, c: Chunk): nat
  {
    if Hi(free, c) < |free| then free[Hi(free, c)].addr else 0
  }

  // What free has loaded when it stores: bp, p and p's successor say all of
  // the merged block.
  predicate MergeRead(m: seq<Header>, free: seq<Chunk>, c: Chunk)
  {
    var t, x, up, low := Below(free, c.addr), Merged(free, c), JoinsUpper(free, c), JoinsLower(free, c);
    var p := NodeAddr(free, t);
    && p < |m| && c.addr < |m| && m[p].ptr < |m| && c.addr != p && c.addr != m[p].ptr
    && up == (c.addr + m[c.addr].size == m[p].ptr) && low == (p + m[p].size == c.addr) && (up ==> p != m[p].ptr)
    && m[p].size == NodeSize(free, t) && x.addr == (if low then p else c.addr)
    && x.size == m[c.addr].size + (if low then m[p].size else 0) + (if up then m[m[p].ptr].size else 0)
    && Following(free, c) == if up then m[m[p].ptr].ptr else m[p].ptr
  }

  lemma MergeIsRead(m: seq<Header>, free: seq<Chunk>, c: Chunk)
    requires Linked(m, free) && Insertable(free, c) && c.End() <= |m| && m[c.addr].size == c.size
    ensures MergeRead(m, free, c)
  {
    ReadsAre(m, free, c);
    UpperRead(m, free, c);
    HiIs(free, c);
    MergedAddr(free, c);
    MergedSize(free, c);
    LowerNode(free, c);
    JoinsAre(free, c);
    hide Below, Insertable, Ordered, Linked, NodeOk, NodeAddr, NodeSize, JoinsUpper, JoinsLower, NextNode, Hi, Lo,
        Merged;
  }

  // The same stores in terms of the list.
  ghost predicate FreedOk(m: seq<Header>, free: seq<Chunk>, c: Chunk)
  {
    var t, x := Below(free, c.addr), Merged(free, c);
    var p := NodeAddr(free, t);
    && p < |m| && c.addr < |m| && m[p].ptr < |m| && x.addr < |m|
    && var r := FreeWrites(m, c.addr, p);
    && (forall a :: 0 <= a < |m| && a != c.addr && a != p ==> r[a] == m[a])
    && r[x.addr] == Header(Following(free, c), x.size)
    && (!JoinsLower(free, c) ==> r[p] == Header(x.addr, NodeSize(free, t)))
  }

  lemma WritesAre(m: seq<Header>, free: seq<Chunk>, c: Chunk)
    requires Linked(m, free) && Insertable(free, c) && c.End() <= |m| && m[c.addr].size == c.size
    ensures FreedOk(m, free, c)
  {
    MergeIsRead(m, free, c);
    hide Below, Insertable, Linked, NodeAddr, NodeSize, JoinsUpper, JoinsLower, Following, Merged, FreeWrites;
    WritesPlain(m, c.addr, NodeAddr(free, Below(free, c.addr)), JoinsUpper(free, c), JoinsLower(free, c));
  }

  // The nodes of the new list, by their places in the old one.
  lemma InsertNodes(free: seq<Chunk>, c: Chunk, k: nat)
    requires Insertable(free, c) && k <= |Insert(free, c)|
    ensures NodesAre(free, Lo(free, c), Merged(free, c), Hi(free, c), Insert(free, c), k)
  {
    hide Below, Merged, Lo, Hi, Insertable, NodesAre;
    NodesWith(free, Lo(free, c), Merged(free, c), Hi(free, c), k);
  }

  predicate NodesAre(free: seq<Chunk>, lo: nat, x: Chunk, hi: nat, r: seq<Chunk>, k: nat)
    requires lo <= hi <= |free| && k <= |r|
  {
    && |r| == lo + 1 + |free| - hi
    && (k <= lo ==> NodeAddr(r, k) == NodeAddr(free, k) && NodeSize(r, k) == NodeSize(free, k))
    && (k == lo + 1 ==> NodeAddr(r, k) == x.addr && NodeSize(r, k) == x.size)
    && (k > lo + 1 ==>
        && NodeAddr(r, k) == NodeAddr(free, k - lo - 1 + hi) && NodeSize(r, k) == NodeSize(free, k - lo - 1 + hi))
  }

  lemma NodesWith(free: seq<Chunk>, lo: nat, x: Chunk, hi: nat, k: nat)
    requires lo <= hi <= |free| && k <= lo + 1 + |free| - hi
    ensures NodesAre(free, lo, x, hi, free[..lo] + [x] + free[hi..], k)
  {
  }

  // A node the stores do not touch.
  lemma OldNode(m: seq<Header>, free: seq<Chunk>, c: Chunk, j: nat)
    requires Linked(m, free) && Insertable(free, c) && c.End() <= |m| && m[c.addr].size == c.size
    requires j <= |free| && j != Below(free, c.addr)
    ensures var p := NodeAddr(free, Below(free, c.addr));
      && p < |m| && m[p].ptr < |m|
      && NodeAddr(free, j) < |m|
      && FreeWrites(m, c.addr, p)[NodeAddr(free, j)] == Header(NodeAddr(free, NextNode(free, j)), NodeSize(free, j))
  {
    var t := Below(free, c.addr);
    WritesAre(m, free, c);
    if j < t { NodesAscend(free, j, t); } else { NodesAscend(free, t, j); }
    assert NodeOk(m, free, j);
    assert NodeAddr(free, j) != c.addr by { if 0 < j { assert Apart(c, free[j - 1]); } }
  }

  lemma LoHi(free: seq<Chunk>, c: Chunk)
    ensures var t := Below(free, c.addr);
      && Lo(free, c) == (if JoinsLower(free, c) then t - 1 else t)
      && t <= Hi(free, c) <= t + 1
  {
  }

  lemma NewNode(m: seq<Header>, free: seq<Chunk>, c: Chunk, k: nat)
    requires Linked(m, free) && Insertable(free, c) && c.End() <= |m| && m[c.addr].size == c.size
             && k <= |Insert(free, c)|
    ensures var p := NodeAddr(free, Below(free, c.addr));
            p < |m| && m[p].ptr < |m| && NodeOk(FreeWrites(m, c.addr, p), Insert(free, c), k)
  {
    hide Below, Merged, Insert, Insertable, FreeWrites, Linked, Lo, Hi, JoinsLower, JoinsUpper, Ordered;
    var t: nat, lo: nat, hi: nat, r := Below(free, c.addr), Lo(free, c), Hi(free, c), Insert(free, c);
    var p := NodeAddr(free, t);
    WritesAre(m, free, c);
    var m', x := FreeWrites(m, c.addr, p), Merged(free, c);
    InsertNodes(free, c, k);
    var next := NextNode(r, k);
    InsertNodes(free, c, next);
    MergedAddr(free, c);
    LoHi(free, c);
    if k == lo + 1 {
      assert NodeAddr(r, next) == if hi < |free| then free[hi].addr else 0;
    } else if k <= lo && k != t {
      OldNode(m, free, c, k);
      assert NodeAddr(r, next) == NodeAddr(free, k + 1);
    } else if k > lo + 1 {
      OldNode(m, free, c, k - lo - 1 + hi);
      assert NodeAddr(r, next) == NodeAddr(free, NextNode(free, k - lo - 1 + hi));
    } else {
      assert NodeAddr(r, next) == x.addr;
    }
  }

  lemma FreedLinks(m: seq<Header>, free: seq<Chunk>, c: Chunk)
    requires Linked(m, free) && Insertable(free, c) && c.End() <= |m| && m[c.addr].size == c.size
    ensures m[NodeAddr(free, Below(free, c.addr))].ptr < |m|
    ensures Linked(FreeWrites(m, c.addr, NodeAddr(free, Below(free, c.addr))), Insert(free, c))
  {
    hide Below, Merged, FreeWrites, Insert, Insertable;
    var r := Insert(free, c);
    WritesAre(m, free, c);
    var m' := FreeWrites(m, c.addr, NodeAddr(free, Below(free, c.addr)));
    forall k: nat | k <= |r| ensures NodeOk(m', r, k) { NewNode(m, free, c, k); }
    InsertFits(free, c, |m|);
  }

  lemma InsertFits(free: seq<Chunk>, c: Chunk, limit: nat)
    requires Insertable(free, c) && c.End() <= limit && forall i :: 0 <= i < |free| ==> free[i].End() <= limit
    ensures forall i :: 0 <= i < |Insert(free, c)| ==> Insert(free, c)[i].End() <= limit
  {
    var lo, hi, x := Lo(free, c), Hi(free, c), Merged(free, c);
    assert x.End() <= limit by { MergedEnds(free, c); }
    hide Below, Merged, Lo, Hi, Insertable;
    WithFits(free, lo, x, hi, limit);
  }

  lemma WithFits(free: seq<Chunk>, lo: nat, x: Chunk, hi: nat, limit: nat)
    requires lo <= |free| && hi <= |free| && x.End() <= limit && forall i :: 0 <= i < |free| ==> free[i].End() <= limit
    ensures var r := free[..lo] + [x] + free[hi..]; forall i :: 0 <= i < |r| ==> r[i].End() <= limit
  {
  }

  // A unit inside a live block is no header.
  lemma StoreKeeps(m: seq<Header>, h: Heap, i: nat, u: nat, v: Header)
    requires HeapOk(h) && Labelled(m, h.live) && i < |h.live| && h.live[i].addr < u < h.live[i].End() && u < |m|
    ensures Labelled(m[u := v], h.live)
    ensures Linked(m, h.free) ==> Linked(m[u := v], h.free)
  {
    forall j | 0 <= j < |h.live| ensures h.live[j].addr != u {
      if j != i { assert if i < j then Apart(h.live[i], h.live[j]) else Apart(h.live[j], h.live[i]); }
    }
    if Linked(m, h.free) {
      var m' := m[u := v];
      forall k: nat | k <= |h.free| ensures NodeOk(m', h.free, k) {
        assert NodeOk(m, h.free, k);
        if k > 0 { assert Apart(h.live[i], h.free[k - 1]); }
      }
    }
  }

  // No header of the free list lies in a live block.
  lemma NodeOutside(h: Heap, k: nat, i: nat)
    requires HeapOk(h) && k <= |h.free| && i < |h.live|
    ensures !h.live[i].Has(NodeAddr(h.free, k))
  {
    if 0 < k { assert Apart(h.live[i], h.free[k - 1]); }
  }

  // Freeing one block leaves the memory of the others alone.
  lemma FreedKeeps(m: seq<Header>, h: Heap, i: nat, p: nat)
    requires HeapOk(h) && i < |h.live| && Labelled(m, h.live) && Linked(m, h.free) && Insertable(h.free, h.live[i])
    requires p == NodeAddr(h.free, Below(h.free, h.live[i].addr)) && m[p].ptr < |m|
    ensures var m', rest := FreeWrites(m, h.live[i].addr, p), h.live[..i] + h.live[i + 1..];
      && Labelled(m', rest)
      && forall u: nat :: Covers(rest, u) ==> u < |m| && m'[u] == m[u]
  {
    hide Below, FreeWrites, Insertable, HeapOk, Linked;
    WritesAre(m, h.free, h.live[i]);
    var m', rest := FreeWrites(m, h.live[i].addr, p), h.live[..i] + h.live[i + 1..];
    forall j, u: nat | 0 <= j < |rest| && rest[j].Has(u) ensures u < |m| && m'[u] == m[u] {
      var j' := if j < i then j else j + 1;
      assert rest[j] == h.live[j'];
      LiveApart(h, i, j');
      NodeOutside(h, Below(h.free, h.live[i].addr), j');
    }
    forall j | 0 <= j < |rest|
      ensures 0 < rest[j].size && rest[j].End() <= |m| && m'[rest[j].addr].size == rest[j].size
    {
      assert rest[j] == h.live[if j < i then j else j + 1];
      assert rest[j].Has(rest[j].addr);
    }
  }

  lemma LiveApart(h: Heap, i: nat, j: nat)
    requires HeapOk(h) && i < |h.live| && j < |h.live| && i != j
    ensures Apart(h.live[i], h.live[j]) && 0 < h.live[i].size && 0 < h.live[j].size
  {
    assert if i < j then Apart(h.live[i], h.live[j]) else Apart(h.live[j], h.live[i]);
  }

  // Everything free owes its caller, about memory before and after.
  lemma Freed(m: seq<Header>, h: Heap, i: nat)
    requires HeapOk(h) && i < |h.live| && Labelled(m, h.live) && Linked(m, h.free) && Insertable(h.free, h.live[i])
    ensures var bp, h' := h.live[i].addr, Release(h, i);
      var p := NodeAddr(h.free, Below(h.free, bp));
      && bp < |m| && p < |m| && m[p].ptr < |m| && p != bp && bp != m[p].ptr
      && var m' := FreeWrites(m, bp, p);
      && Labelled(m', h'.live) && Linked(m', h'.free)
      && h'.rover <= |h'.free| && p == NodeAddr(h'.free, h'.rover)
      && forall u: nat :: Covers(h'.live, u) ==> u < |m| && m'[u] == m[u]
  {
    NodeRead(m, h.free, h.live[i], Below(h.free, h.live[i].addr));
    FreedLinks(m, h.free, h.live[i]);
    FreedNode(h.free, h.live[i]);
    FreedKeeps(m, h, i, NodeAddr(h.free, Below(h.free, h.live[i].addr)));
  }
}
