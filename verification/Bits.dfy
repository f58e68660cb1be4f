/** One bit of a byte, as the free map tests, sets and clears it. */
module Bits {
  import opened Blocks

  function Pow2(n: nat): nat { if n == 0 then 1 else 2 * Pow2(n - 1) }

  // (v & (1 << k)) != 0
  predicate Test(v: nat, k: nat)
  {
    if k == 0 then v % 2 == 1 else Test(v / 2, k - 1)
  }

  // v | (1 << k)
  function Or(v: nat, k: nat): nat
  {
    if k == 0 then v / 2 * 2 + 1 else v % 2 + 2 * Or(v / 2, k - 1)
  }

  // v & ~(1 << k)
  function AndNot(v: nat, k: nat): (r: nat)
    ensures r <= v
  {
    if k == 0 then v / 2 * 2 else v % 2 + 2 * AndNot(v / 2, k - 1)
  }

  lemma {:induction false} OrTest(v: nat, k: nat, j: nat)
    ensures Test(Or(v, k), j) == (j == k || Test(v, j))
  {
    if 0 < k && 0 < j { OrTest(v / 2, k - 1, j - 1); }
  }

  lemma {:induction false} AndNotTest(v: nat, k: nat, j: nat)
    ensures Test(AndNot(v, k), j) == (j != k && Test(v, j))
  {
    if 0 < k && 0 < j { AndNotTest(v / 2, k - 1, j - 1); }
  }

  lemma {:induction false} OrFits(v: nat, k: nat, n: nat)
    requires v < Pow2(n) && k < n
    ensures Or(v, k) < Pow2(n)
  {
    var p := Pow2(n - 1);
    assert Pow2(n) == 2 * p && v / 2 < p;
    if 0 < k {
      OrFits(v / 2, k - 1, n - 1);
      assert Or(v, k) == v % 2 + 2 * Or(v / 2, k - 1);
    }
  }

  function OrByte(v: byte, k: nat): byte
    requires k < 8
  {
    assert Pow2(8) == 256 by { assert Pow2(4) == 16; }
    OrFits(v, k, 8);
    Or(v, k)
  }

  predicate GetBit(b: Block, i: nat)
    requires i < BPB
  {
    Test(b[i / 8], i % 8)
  }

  function SetBit(b: Block, i: nat): Block
    requires i < BPB
  {
    b[i / 8 := OrByte(b[i / 8], i % 8)]
  }

  function ClearBit(b: Block, i: nat): Block
    requires i < BPB
  {
    b[i / 8 := AndNot(b[i / 8], i % 8)]
  }

  lemma SetBitAt(b: Block, i: nat, j: nat)
    requires i < BPB && j < BPB
    ensures GetBit(SetBit(b, i), j) == (j == i || GetBit(b, j))
  {
    if j / 8 == i / 8 { OrTest(b[i / 8], i % 8, j % 8); }
  }

  lemma ClearBitAt(b: Block, i: nat, j: nat)
    requires i < BPB && j < BPB
    ensures GetBit(ClearBit(b, i), j) == (j != i && GetBit(b, j))
  {
    if j / 8 == i / 8 { AndNotTest(b[i / 8], i % 8, j % 8); }
  }
}
