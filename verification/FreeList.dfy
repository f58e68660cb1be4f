/** The K&R free list of umalloc.c as a value. */
module FreeList {
  // Blocks in address order, what free and malloc do to them, and what that
  // preserves. Addresses count Header-sized units; `base` is address 0, below
  // every block.

  datatype Chunk = Chunk(addr: nat, size: nat) {
    function End(): nat { addr + size }
    predicate Has(u: nat) { addr <= u < addr + size }
  }

  predicate Apart(c: Chunk, d: Chunk) { c.End() <= d.addr || d.End() <= c.addr }

  // Address-ordered, and no two neighbours touch: nothing is left to coalesce.
  predicate Ordered(free: seq<Chunk>)
  {
    && (forall i :: 0 <= i < |free| ==> 0 < free[i].addr && 0 < free[i].size)
    && (forall i, j :: 0 <= i < j < |free| ==> free[i].End() < free[j].addr)
  }

  ghost predicate Covers(cs: seq<Chunk>, u: nat) { exists i :: 0 <= i < |cs| && cs[i].Has(u) }

  lemma CoversSplit(a: seq<Chunk>, b: seq<Chunk>, u: nat)
    ensures Covers(a + b, u) <==> Covers(a, u) || Covers(b, u)
  {
    if i :| 0 <= i < |a| && a[i].Has(u) { assert (a + b)[i].Has(u); }
    if i :| 0 <= i < |b| && b[i].Has(u) { assert (a + b)[|a| + i].Has(u); }
    if i :| 0 <= i < |a + b| && (a + b)[i].Has(u) { assert if i < |a| then a[i].Has(u) else b[i - |a|].Has(u); }
  }

  lemma CoversOne(c: Chunk, u: nat)
    ensures Covers([c], u) <==> c.Has(u)
  {
    if c.Has(u) { assert [c][0].Has(u); }
  }

  function Total(cs: seq<Chunk>): nat
  {
    if cs == [] then 0 else cs[0].size + Total(cs[1..])
  }

  lemma {:induction false} TotalSplit(a: seq<Chunk>, b: seq<Chunk>)
    ensures Total(a + b) == Total(a) + Total(b)
    decreases |a|
  {
    if a == [] {
      assert a + b == b;
    } else {
      assert (a + b)[0] == a[0] && (a + b)[1..] == a[1..] + b;
      TotalSplit(a[1..], b);
    }
  }

  lemma TotalAt(cs: seq<Chunk>, i: nat)
    requires i < |cs|
    ensures Total(cs) == Total(cs[..i]) + cs[i].size + Total(cs[i + 1..])
  {
    assert cs == cs[..i] + cs[i..];
    TotalSplit(cs[..i], cs[i..]);
  }

  // ---- giving a block back ----

  // How many free blocks lie below an address.
  function Below(free: seq<Chunk>, addr: nat): (t: nat)
    ensures t <= |free|
  {
    if free == [] then 0
    else if free[|free| - 1].addr < addr then |free|
    else Below(free[..|free| - 1], addr)
  }

  lemma {:induction false} BelowIs(free: seq<Chunk>, addr: nat)
    requires Ordered(free)
    ensures var t := Below(free, addr);
            (forall i :: 0 <= i < t ==> free[i].addr < addr) && (forall i :: t <= i < |free| ==> addr <= free[i].addr)
  {
    if free != [] && free[|free| - 1].addr >= addr {
      BelowIs(free[..|free| - 1], addr);
    }
  }

  predicate JoinsLower(free: seq<Chunk>, c: Chunk)
  {
    var t := Below(free, c.addr);
    0 < t && free[t - 1].End() == c.addr
  }

  predicate JoinsUpper(free: seq<Chunk>, c: Chunk)
  {
    var t := Below(free, c.addr);
    t < |free| && c.End() == free[t].addr
  }

  // The neighbours that survive a merge are free[..Lo] and free[Hi..].
  function Lo(free: seq<Chunk>, c: Chunk): (lo: nat)
    ensures lo <= |free|
  {
    var t := Below(free, c.addr);
    if JoinsLower(free, c) then t - 1 else t
  }

  function Hi(free: seq<Chunk>, c: Chunk): (hi: nat)
    ensures Lo(free, c) <= hi <= |free|
  {
    var t := Below(free, c.addr);
    if JoinsUpper(free, c) then t + 1 else t
  }

  function Merged(free: seq<Chunk>, c: Chunk): Chunk
  {
    var t := Below(free, c.addr);
    Chunk(if JoinsLower(free, c) then free[t - 1].addr else c.addr, Total(free[Lo(free, c)..Hi(free, c)]) + c.size)
  }

  // The list after free(c): c in its place, merged with the neighbours it touches.
  function Insert(free: seq<Chunk>, c: Chunk): seq<Chunk>
  {
    free[..Lo(free, c)] + [Merged(free, c)] + free[Hi(free, c)..]
  }

  predicate Insertable(free: seq<Chunk>, c: Chunk)
  {
    Ordered(free) && 0 < c.addr && 0 < c.size && forall i :: 0 <= i < |free| ==> Apart(c, free[i])
  }

  lemma MergedSize(free: seq<Chunk>, c: Chunk)
    ensures var t := Below(free, c.addr);
      Merged(free, c).size
      == c.size + (if JoinsLower(free, c) then free[t - 1].size else 0)
         + (if JoinsUpper(free, c) then free[t].size else 0)
  {
    hide Below;
    var t, lo, hi := Below(free, c.addr), Lo(free, c), Hi(free, c);
    var gone := free[lo..hi];
    if lo < t && t < hi {
      assert gone == [free[t - 1], free[t]];
      assert gone[1..] == [free[t]] && gone[1..][1..] == [];
      assert Total(gone) == free[t - 1].size + Total(gone[1..]) && Total(gone[1..]) == free[t].size;
    } else if lo < t {
      assert lo == t - 1 && hi == t && gone == [free[t - 1]] && gone[1..] == [];
      assert Total(gone) == free[t - 1].size;
    } else if t < hi {
      assert lo == t && hi == t + 1 && gone == [free[t]] && gone[1..] == [];
      assert Total(gone) == free[t].size;
    } else {
      assert gone == [];
    }
  }

  // A block that is apart from the list falls in one gap of it.
  lemma Gap(free: seq<Chunk>, c: Chunk)
    requires Insertable(free, c)
    ensures forall i :: 0 <= i < Below(free, c.addr) ==> free[i].End() <= c.addr
    ensures forall i :: Below(free, c.addr) <= i < |free| ==> c.End() <= free[i].addr
  {
    BelowIs(free, c.addr);
    hide Below;
    forall i | 0 <= i < |free|
      ensures i < Below(free, c.addr) ==> free[i].End() <= c.addr
      ensures Below(free, c.addr) <= i ==> c.End() <= free[i].addr
    {
      assert Apart(c, free[i]);
    }
  }

  lemma Sorted(free: seq<Chunk>, i: nat, j: nat)
    requires Ordered(free) && i < j < |free|
    ensures free[i].End() < free[j].addr
  {
  }

  // Where the merged block begins and ends.
  lemma MergedEnds(free: seq<Chunk>, c: Chunk)
    requires Insertable(free, c)
    ensures var t, m := Below(free, c.addr), Merged(free, c);
      && m.addr == (if JoinsLower(free, c) then free[t - 1].addr else c.addr) && 0 < m.addr <= c.addr
      && m.End() == (if JoinsUpper(free, c) then free[t].End() else c.End()) && c.End() <= m.End()
  {
    Gap(free, c);
    MergedSize(free, c);
    hide Below;
    MergedAddr(free, c);
  }

  // It touches nothing that is left.
  lemma MergedExtent(free: seq<Chunk>, c: Chunk)
    requires Insertable(free, c)
    ensures forall i :: 0 <= i < Lo(free, c) ==> free[i].End() < Merged(free, c).addr
    ensures forall i :: Hi(free, c) <= i < |free| ==> Merged(free, c).End() < free[i].addr
  {
    Gap(free, c);
    MergedEnds(free, c);
    var t := Below(free, c.addr);
    hide Below, Merged;
    forall i | 0 <= i < Lo(free, c) ensures free[i].End() < Merged(free, c).addr {
      if i < t - 1 { Sorted(free, i, t - 1); }
    }
    forall i | Hi(free, c) <= i < |free| ensures Merged(free, c).End() < free[i].addr {
      if t < i { Sorted(free, t, i); }
    }
  }

  lemma MergedAddr(free: seq<Chunk>, c: Chunk)
    ensures Merged(free, c).addr == if JoinsLower(free, c) then free[Below(free, c.addr) - 1].addr else c.addr
  {
  }

  lemma OrderedAround(a: seq<Chunk>, m: Chunk, b: seq<Chunk>)
    requires Ordered(a) && Ordered(b) && 0 < m.addr && 0 < m.size
    requires (forall i :: 0 <= i < |a| ==> a[i].End() < m.addr) && (forall i :: 0 <= i < |b| ==> m.End() < b[i].addr)
    ensures Ordered(a + [m] + b)
  {
    var r := a + [m] + b;
    forall i, j | 0 <= i < j < |r| ensures r[i].End() < r[j].addr {
      if i < |a| {
        assert r[i].End() < m.addr <= m.End();
      }
    }
  }

  lemma OrderedWith(free: seq<Chunk>, lo: nat, m: Chunk, hi: nat)
    requires Ordered(free) && lo <= hi <= |free| && 0 < m.addr && 0 < m.size
    requires forall i :: 0 <= i < lo ==> free[i].End() < m.addr
    requires forall i :: hi <= i < |free| ==> m.End() < free[i].addr
    ensures Ordered(free[..lo] + [m] + free[hi..])
  {
    OrderedAround(free[..lo], m, free[hi..]);
  }

  lemma InsertOrdered(free: seq<Chunk>, c: Chunk)
    requires Insertable(free, c)
    ensures Ordered(Insert(free, c))
  {
    MergedExtent(free, c);
    MergedEnds(free, c);
    OrderedList(free, c);
    hide Below, Merged, Lo, Hi, JoinsLower, JoinsUpper, Insertable, Ordered;
    OrderedWith(free, Lo(free, c), Merged(free, c), Hi(free, c));
  }

  lemma OrderedList(free: seq<Chunk>, c: Chunk)
    requires Insertable(free, c)
    ensures Ordered(free) && 0 < Merged(free, c).size
  {
  }

  lemma InsertTotal(free: seq<Chunk>, c: Chunk)
    ensures Total(Insert(free, c)) == Total(free) + c.size
  {
    var lo, hi := Lo(free, c), Hi(free, c);
    TotalSplit(free[..lo] + [Merged(free, c)], free[hi..]);
    TotalSplit(free[..lo], [Merged(free, c)]);
    assert free == free[..lo] + free[lo..hi] + free[hi..];
    TotalSplit(free[..lo] + free[lo..hi], free[hi..]);
    TotalSplit(free[..lo], free[lo..hi]);
  }

  // The merged block is the freed one and the neighbours it swallowed.
  lemma MergedHas(free: seq<Chunk>, c: Chunk, u: nat)
    requires Insertable(free, c)
    ensures Merged(free, c).Has(u) <==> c.Has(u) || Covers(free[Lo(free, c)..Hi(free, c)], u)
  {
    var t, m, gone := Below(free, c.addr), Merged(free, c), free[Lo(free, c)..Hi(free, c)];
    MergedEnds(free, c);
    Gap(free, c);
    hide Below, Merged, Ordered;
    if m.Has(u) && u < c.addr {
      assert JoinsLower(free, c) && gone[0] == free[t - 1];
    } else if m.Has(u) && c.End() <= u {
      assert JoinsUpper(free, c) && gone[|gone| - 1] == free[t];
    }
  }

  lemma InsertCovers(free: seq<Chunk>, c: Chunk, u: nat)
    requires Insertable(free, c)
    ensures Covers(Insert(free, c), u) <==> Covers(free, u) || c.Has(u)
  {
    hide Covers, Merged, Lo, Hi, Insertable;
    var lo, hi, m := Lo(free, c), Hi(free, c), Merged(free, c);
    Gap(free, c);
    MergedHas(free, c, u);
    CoversSplit(free[..lo] + [m], free[hi..], u);
    CoversSplit(free[..lo], [m], u);
    CoversOne(m, u);
    assert free == free[..lo] + free[lo..hi] + free[hi..];
    CoversSplit(free[..lo] + free[lo..hi], free[hi..], u);
    CoversSplit(free[..lo], free[lo..hi], u);
  }

  // ---- taking a block ----

  // The tail of block k is cut off; an exact fit leaves the list.
  function Carve(free: seq<Chunk>, k: nat, n: nat): seq<Chunk>
    requires k < |free| && n <= free[k].size
  {
    if free[k].size == n then free[..k] + free[k + 1..] else free[k := Chunk(free[k].addr, free[k].size - n)]
  }

  function Taken(free: seq<Chunk>, k: nat, n: nat): Chunk
    requires k < |free| && n <= free[k].size
  {
    Chunk(free[k].End() - n, n)
  }

  lemma CarveTotal(free: seq<Chunk>, k: nat, n: nat)
    requires k < |free| && n <= free[k].size
    ensures Total(Carve(free, k, n)) + n == Total(free)
  {
    TotalAt(free, k);
    if free[k].size == n {
      TotalSplit(free[..k], free[k + 1..]);
    } else {
      var r := Carve(free, k, n);
      TotalAt(r, k);
      assert r[..k] == free[..k] && r[k + 1..] == free[k + 1..];
    }
  }

  lemma CarveOrdered(free: seq<Chunk>, k: nat, n: nat)
    requires Ordered(free) && k < |free| && 0 < n <= free[k].size
    ensures Ordered(Carve(free, k, n))
  {
  }

  lemma CarveCovers(free: seq<Chunk>, k: nat, n: nat, u: nat)
    requires Ordered(free) && k < |free| && 0 < n <= free[k].size
    ensures Covers(free, u) <==> Covers(Carve(free, k, n), u) || Taken(free, k, n).Has(u)
  {
    var rest := if free[k].size == n then [] else [Chunk(free[k].addr, free[k].size - n)];
    assert free == free[..k] + [free[k]] + free[k + 1..];
    assert Carve(free, k, n) == free[..k] + rest + free[k + 1..];
    CoversSplit(free[..k] + [free[k]], free[k + 1..], u);
    CoversSplit(free[..k], [free[k]], u);
    CoversSplit(free[..k] + rest, free[k + 1..], u);
    CoversSplit(free[..k], rest, u);
    CoversOne(free[k], u);
    if rest != [] { CoversOne(rest[0], u); }
  }

  // What was taken overlaps nothing that stays.
  lemma TakenApart(free: seq<Chunk>, k: nat, n: nat, i: nat)
    requires Ordered(free) && k < |free| && 0 < n <= free[k].size && i < |Carve(free, k, n)|
    ensures Apart(Taken(free, k, n), Carve(free, k, n)[i])
  {
    if free[k].size == n {
      var j := if i < k then i else i + 1;
      assert Carve(free, k, n)[i] == free[j];
      if j < k { Sorted(free, j, k); } else { Sorted(free, k, j); }
    } else if i != k {
      if i < k { Sorted(free, i, k); } else { Sorted(free, k, i); }
    }
  }
}
