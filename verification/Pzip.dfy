/** The parallel compressor on one file: four blocks, each compressed into
    arrays of its own, the seams mended, everything printed in order. */
module Pzip {
  import opened Blocks
  import opened RunLength

  const NUMBER_OF_THREADS: nat := 4

  // Chars and counts, side by side, as runs.
  function Zip(chars: seq<byte>, nums: seq<nat>): (rs: seq<Run>)
    requires |chars| == |nums|
    ensures |rs| == |chars| && forall i :: 0 <= i < |rs| ==> rs[i] == Run(nums[i], chars[i])
  {
    if chars == [] then [] else [Run(nums[0], chars[0])] + Zip(chars[1..], nums[1..])
  }

  lemma ZipLast(chars: seq<byte>, nums: seq<nat>, v: nat)
    requires 0 < |chars| == |nums|
    ensures Zip(chars, nums[|nums| - 1 := v]) == Zip(chars, nums)[..|nums| - 1] + [Run(v, chars[|nums| - 1])]
  {
    hide Zip;
  }

  lemma ZipTail(chars: seq<byte>, nums: seq<nat>)
    requires 0 < |chars| == |nums|
    ensures Zip(chars[1..], nums[1..]) == Zip(chars, nums)[1..]
  {
    hide Zip;
  }

  /** arg_t: the two arrays, and the pointers into them as the index of the
      first run that is still the block's own. */
  class Arg {
    const compressed: array<byte>
    const compressedNums: array<nat>
    var start: nat
    var compressedSize: nat

    constructor (blocksize: nat)
      ensures compressed.Length == blocksize + 1 && compressedNums.Length == blocksize
      ensures start == 0 && compressedSize == 0 && fresh(compressed) && fresh(compressedNums)
    {
      compressed := new byte[blocksize + 1];
      compressedNums := new nat[blocksize];
      start, compressedSize := 0, 0;
    }

    // The arrays hold the runs and, after them, a null character.
    ghost predicate Valid()
      reads this, compressed, compressedNums
    {
      && compressed.Length == compressedNums.Length + 1
      && start + compressedSize <= compressedNums.Length && compressed[start + compressedSize] == 0
    }

    ghost function Runs(): seq<Run>
      reads this, compressed, compressedNums
      requires Valid()
    {
      Zip(compressed[start..start + compressedSize], compressedNums[start..start + compressedSize])
    }

    // The last run grows by n.
    method AddToLast(n: nat)
      requires Valid() && 0 < compressedSize
      modifies compressedNums
      ensures Valid() && |old(Runs())| == compressedSize
      ensures Runs() == old(Runs())[..compressedSize - 1]
                        + [Run(old(Runs())[compressedSize - 1].count + n, old(Runs())[compressedSize - 1].c)]
    {
      hide Zip;
      ghost var nums := compressedNums[start..start + compressedSize];
      var last := start + compressedSize - 1;
      compressedNums[last] := compressedNums[last] + n;
      assert compressedNums[start..start + compressedSize] == nums[compressedSize - 1 := compressedNums[last]];
      ZipLast(compressed[start..start + compressedSize], nums, compressedNums[last]);
    }

    // The first run is given up.
    method DropFirst()
      requires Valid() && 0 < compressedSize
      modifies `start, `compressedSize
      ensures Valid() && compressedSize == old(compressedSize) - 1
      ensures old(Runs()) != [] && Runs() == old(Runs())[1..]
    {
      hide Zip;
      ghost var chars, nums := compressed[start..start + compressedSize], compressedNums[start..start + compressedSize];
      ZipTail(chars, nums);
      start := start + 1;
      compressedSize := compressedSize - 1;
      assert compressed[start..start + compressedSize] == chars[1..];
      assert compressedNums[start..start + compressedSize] == nums[1..];
    }

    // The body of one thread.
    method Compression(block: seq<byte>)
      requires 0 < |block| && compressed.Length == |block| + 1 && compressedNums.Length == |block|
      requires start == 0 && compressedSize == 0
      modifies `compressedSize, compressed, compressedNums
      ensures Valid() && start == 0 && Runs() == Rle(block) && 0 < compressedSize
    {
      hide Expand, Repeat, Tight, Rle;
      var offset, counter := 0, 1;
      ghost var rs: seq<Run> := [];
      Begun(block);
      while offset != |block|
        invariant offset <= |block| && compressedSize == |rs| <= offset && 0 < counter && start == 0
        invariant offset < |block| ==> Pending(block, rs, offset, counter)
        invariant offset == |block| ==> 0 < |rs| && rs == Rle(block) && compressed[|rs|] == 0
        invariant forall k :: 0 <= k < |rs| ==> compressedNums[k] == rs[k].count && compressed[k] == rs[k].c
      {
        var a := block[offset];
        PendingStep(block, rs, offset, counter);
        if offset != |block| - 1 {
          var b := block[offset + 1];
          if a == b {
            counter := counter + 1;
          } else {
            compressedNums[compressedSize] := counter;
            compressed[compressedSize] := a;
            compressed[compressedSize + 1] := 0;
            rs := rs + [Run(counter, a)];
            counter := 1;
            compressedSize := compressedSize + 1;
          }
        } else {
          compressedNums[compressedSize] := counter;
          compressed[compressedSize] := a;
          compressed[compressedSize + 1] := 0;
          rs := rs + [Run(counter, a)];
          compressedSize := compressedSize + 1;
        }
        offset := offset + 1;
      }
      assert Runs() == rs;
    }
  }

  // Before byte offset: rs are the finished runs, and counter counts byte
  // offset and its equals just before it.
  ghost predicate Pending(block: seq<byte>, rs: seq<Run>, offset: nat, counter: nat)
    requires offset < |block|
  {
    && Tight(rs) && 0 < counter
    && Expand(rs) + Repeat(block[offset], counter) == block[..offset + 1]
    && (rs != [] ==> rs[|rs| - 1].c != block[offset])
  }

  lemma Begun(block: seq<byte>)
    requires 0 < |block|
    ensures Pending(block, [], 0, 1)
  {
    assert Repeat(block[0], 0) == [];
  }

  lemma PendingStep(block: seq<byte>, rs: seq<Run>, offset: nat, counter: nat)
    requires offset < |block| && Pending(block, rs, offset, counter)
    ensures offset + 1 < |block| && block[offset + 1] == block[offset] ==> Pending(block, rs, offset + 1, counter + 1)
    ensures offset + 1 < |block| && block[offset + 1] != block[offset] ==>
      Pending(block, rs + [Run(counter, block[offset])], offset + 1, 1)
    ensures offset + 1 == |block| ==> rs + [Run(counter, block[offset])] == Rle(block)
  {
    hide Expand, Repeat, Rle, Tight;
    var c := block[offset];
    ExpandSnoc(rs, Run(counter, c));
    TightSnoc(rs, Run(counter, c));
    if offset + 1 < |block| {
      var d := block[offset + 1];
      OneOf(d);
      RepeatPlus(c, counter, 1);
      NextByte(block, Expand(rs), Repeat(c, counter), Repeat(d, 1), offset);
    } else {
      assert block[..offset + 1] == block;
      RleOnly(rs + [Run(counter, c)]);
    }
  }

  lemma NextByte(block: seq<byte>, e: seq<byte>, r: seq<byte>, d: seq<byte>, offset: nat)
    requires offset + 1 < |block| && e + r == block[..offset + 1] && d == [block[offset + 1]]
    ensures e + (r + d) == block[..offset + 2] == (e + r) + d
  {
  }

  lemma TightSnoc(rs: seq<Run>, r: Run)
    requires Tight(rs) && 0 < r.count && (rs != [] ==> rs[|rs| - 1].c != r.c)
    ensures Tight(rs + [r])
  {
  }

  lemma OneOf(c: byte)
    ensures Repeat(c, 1) == [c]
  {
    assert Repeat(c, 0) == [];
  }

  // What mending the seam does to the runs on either side.
  function SeamLeft(a: seq<Run>, b: seq<Run>): seq<Run>
  {
    if a != [] && b != [] && a[|a| - 1].c == b[0].c
    then a[..|a| - 1] + [Run(a[|a| - 1].count + b[0].count, b[0].c)]
    else a
  }

  function SeamRight(a: seq<Run>, b: seq<Run>): seq<Run>
  {
    if a != [] && b != [] && a[|a| - 1].c == b[0].c then b[1..] else b
  }

  // fixInter's answer r, and the runs x and y of the two blocks afterwards.
  predicate Fixed(r: int, x: seq<Run>, y: seq<Run>, x': seq<Run>, y': seq<Run>)
  {
    if x == [] then r == -1 && x' == x && y' == y else r == 0 && x' == SeamLeft(x, y) && y' == SeamRight(x, y)
  }

  // fixInter on the last run of A and the first of B: 0, or -1 when A has no
  // run.
  method FixInter(A: Arg, B: Arg) returns (r: int)
    requires A.Valid() && B.Valid() && A != B && A.compressedNums != B.compressedNums && 0 < B.compressedSize
    modifies A.compressedNums, B`start, B`compressedSize
    ensures A.Valid() && B.Valid()
    ensures Fixed(r, old(A.Runs()), old(B.Runs()), A.Runs(), B.Runs())
  {
    hide Zip, SeamLeft, SeamRight;
    ghost var x, y := A.Runs(), B.Runs();
    if A.compressedSize == 0 {
      return -1;
    }
    var a := A.compressed[A.start + A.compressedSize - 1];
    var b := B.compressed[B.start];
    assert x[|x| - 1].c == a && y[0] == Run(B.compressedNums[B.start], b);
    Seams(x, y);
    hide Arg.Runs, Arg.Valid;
    if a == b {
      A.AddToLast(B.compressedNums[B.start]);
      B.DropFirst();
    }
    r := 0;
  }

  lemma Seams(x: seq<Run>, y: seq<Run>)
    requires x != [] && y != []
    ensures x[|x| - 1].c == y[0].c ==>
      SeamLeft(x, y) == x[..|x| - 1] + [Run(x[|x| - 1].count + y[0].count, x[|x| - 1].c)] && SeamRight(x, y) == y[1..]
    ensures x[|x| - 1].c != y[0].c ==> SeamLeft(x, y) == x && SeamRight(x, y) == y
  {
  }

  // ---- the four blocks ----

  function Flat(rss: seq<seq<Run>>): seq<Run>
  {
    if rss == [] then [] else Flat(rss[..|rss| - 1]) + rss[|rss| - 1]
  }

  lemma FlatSnoc(rss: seq<seq<Run>>, rs: seq<Run>)
    ensures Flat(rss + [rs]) == Flat(rss) + rs
  {
    assert (rss + [rs])[..|rss|] == rss;
  }

  // Empty blocks at the end add nothing.
  lemma {:induction false} FlatEmpty(rss: seq<seq<Run>>, m: nat)
    requires m <= |rss| && forall i :: m <= i < |rss| ==> rss[i] == []
    ensures Flat(rss) == Flat(rss[..m])
  {
    if m < |rss| {
      FlatEmpty(rss[..|rss| - 1], m);
      assert rss[..|rss| - 1][..m] == rss[..m];
    } else {
      assert rss[..m] == rss;
    }
  }

  // The seam between block k and the last block before it that has a run.
  function Mended(rss: seq<seq<Run>>, a: nat, k: nat): seq<seq<Run>>
    requires a < k < |rss|
  {
    rss[a := SeamLeft(rss[a], rss[k])][k := SeamRight(rss[a], rss[k])]
  }

  lemma MendedFlat(rss: seq<seq<Run>>, a: nat, k: nat)
    requires a < k < |rss| && rss[a] != [] && rss[k] != []
    requires forall i :: a < i < k ==> rss[i] == []
    ensures Flat(Mended(rss, a, k)[..k + 1]) == Joined(Flat(rss[..k]), rss[k])
  {
    hide Flat, SeamLeft, SeamRight, Joined;
    var before, x, y := rss[..a], rss[a], rss[k];
    var m := Mended(rss, a, k);
    assert m[..k + 1] == m[..k] + [SeamRight(x, y)];
    FlatSnoc(m[..k], SeamRight(x, y));
    FlatEmpty(m[..k], a + 1);
    FlatEmpty(rss[..k], a + 1);
    assert m[..k][..a + 1] == before + [SeamLeft(x, y)] && rss[..k][..a + 1] == before + [x];
    FlatSnoc(before, SeamLeft(x, y));
    FlatSnoc(before, x);
    SeamJoined(Flat(before), x, y);
  }

  lemma SeamJoined(f: seq<Run>, a: seq<Run>, b: seq<Run>)
    requires a != [] && b != []
    ensures (f + SeamLeft(a, b)) + SeamRight(a, b) == Joined(f + a, b)
  {
    assert (f + a)[..|f + a| - 1] == f + a[..|a| - 1];
  }

  ghost predicate Apart(args: seq<Arg>)
  {
    forall i, j :: 0 <= i < j < |args| ==> args[i] != args[j] && args[i].compressedNums != args[j].compressedNums
  }

  // The arguments hold these runs.
  ghost predicate Hold(args: seq<Arg>, rss: seq<seq<Run>>)
    reads set a | a in args, set a | a in args :: a.compressed, set a | a in args :: a.compressedNums
  {
    |rss| == |args| && forall i :: 0 <= i < |args| ==> args[i].Valid() && args[i].Runs() == rss[i]
  }

  // fixInter on two of the blocks: the others are not disturbed.
  method FixAt(args: seq<Arg>, a: nat, k: nat, ghost rss: seq<seq<Run>>) returns (r: int)
    requires a < k < |args| && Apart(args) && Hold(args, rss) && rss[k] != []
    modifies args[a].compressedNums, args[k]
    ensures r == if rss[a] == [] then -1 else 0
    ensures Hold(args, if rss[a] == [] then rss else Mended(rss, a, k))
  {
    hide SeamLeft, SeamRight, Zip;
    assert args[a] != args[k] && args[a].compressedNums != args[k].compressedNums;
    assert args[a].Valid() && args[k].Valid() && args[a].Runs() == rss[a] && args[k].Runs() == rss[k];
    RunsSize(args[a]);
    RunsSize(args[k]);
    r := FixInter(args[a], args[k]);
    ghost var m := if rss[a] == [] then rss else Mended(rss, a, k);
    forall i | 0 <= i < |args| ensures args[i].Valid() && args[i].Runs() == m[i] {
      if i != a && i != k {
        assert old(args[i].Valid()) && args[i].compressedNums != args[a].compressedNums;
        assert args[i] != args[k];
        assert args[i].Runs() == old(args[i].Runs());
      }
    }
  }

  // The seam before block k: fixInter, further back for as long as the block
  // there has no run left.
  method MendSeam(args: seq<Arg>, k: nat, ghost rss: seq<seq<Run>>) returns (ghost mended: seq<seq<Run>>)
    requires 0 < k < |args| && Apart(args) && Hold(args, rss) && rss[0] != [] && rss[k] != []
    modifies set a | a in args, set a | a in args :: a.compressedNums
    ensures Hold(args, mended) && mended[0] != [] && forall i :: k < i < |args| ==> mended[i] == rss[i]
    ensures Flat(mended[..k + 1]) == Joined(Flat(rss[..k]), rss[k])
  {
    hide Flat, Joined, Arg.Runs, Arg.Valid, Mended;
    mended := rss;
    var correctA := k - 1;
    var nullFlag := -1;
    while nullFlag < 0
      invariant 0 <= correctA < k && Hold(args, mended) && nullFlag <= 0
      invariant forall i :: correctA < i < k ==> rss[i] == []
      invariant nullFlag < 0 ==> mended == rss
      invariant nullFlag == 0 ==> mended == Mended(rss, correctA, k) && rss[correctA] != []
      decreases correctA - nullFlag
    {
      nullFlag := FixAt(args, correctA, k, rss);
      if nullFlag != 0 {
        correctA := correctA - 1;
      } else {
        mended := Mended(rss, correctA, k);
      }
    }
    MendedFlat(rss, correctA, k);
    MendedRest(rss, correctA, k);
  }

  // The joining half of printEverything: after it the blocks' runs, one after
  // the other, are those of the whole.
  method MendSeams(args: seq<Arg>, ghost blocks: seq<seq<byte>>) returns (ghost rss: seq<seq<Run>>)
    requires 0 < |args| == |blocks| && Apart(args)
    requires forall i :: 0 <= i < |args| ==>
             args[i].Valid() && args[i].Runs() == Rle(blocks[i]) && 0 < args[i].compressedSize
    modifies set a | a in args, set a | a in args :: a.compressedNums
    ensures Hold(args, rss) && Flat(rss) == Rle(Whole(blocks))
  {
    hide Flat, Rle, Joined, Arg.Runs, Arg.Valid, Whole;
    rss := RlesOf(blocks);
    forall i | 0 <= i < |args| ensures rss[i] != [] { RunsSize(args[i]); }
    var k := 1;
    assert Flat(rss[..1]) == Rle(Whole(blocks[..1])) by { FirstBlock(blocks); }
    while k < |args|
      invariant 1 <= k <= |args| && Hold(args, rss) && rss[0] != []
      invariant forall i :: k <= i < |args| ==> rss[i] == Rle(blocks[i]) != []
      invariant Flat(rss[..k]) == Rle(Whole(blocks[..k]))
    {
      rss := MendSeam(args, k, rss);
      WholeSnoc(blocks, k);
      RleJoined(Whole(blocks[..k]), blocks[k]);
      k := k + 1;
    }
    assert blocks[..k] == blocks && rss[..k] == rss;
  }

  // ---- printing ----

  // What is printed of a block: its runs up to the first null character.
  function Printed(rs: seq<Run>): seq<Run>
  {
    if rs == [] || rs[0].c == 0 then [] else [rs[0]] + Printed(rs[1..])
  }

  function AllPrinted(rss: seq<seq<Run>>): seq<byte>
  {
    if rss == [] then [] else AllPrinted(rss[..|rss| - 1]) + Encode(Printed(rss[|rss| - 1]))
  }

  lemma {:induction false} EncodeConcat(a: seq<Run>, b: seq<Run>)
    ensures Encode(a + b) == Encode(a) + Encode(b)
  {
    if a == [] {
      assert a + b == b;
    } else {
      assert (a + b)[1..] == a[1..] + b;
      EncodeConcat(a[1..], b);
    }
  }

  predicate NoNul(s: seq<byte>) { 0 !in s }

  predicate NoNulRun(rs: seq<Run>) { forall i :: 0 <= i < |rs| ==> rs[i].c != 0 }

  lemma {:induction false} PrintedAll(rs: seq<Run>)
    ensures NoNulRun(rs) ==> Printed(rs) == rs
    ensures !NoNulRun(rs) ==> |Printed(rs)| < |rs|
  {
    if rs != [] {
      PrintedAll(rs[1..]);
      assert NoNulRun(rs) <==> rs[0].c != 0 && NoNulRun(rs[1..]) by {
        assert rs == [rs[0]] + rs[1..];
      }
    }
  }

  lemma {:induction false} EncodeLength(rs: seq<Run>)
    ensures |Encode(rs)| == 5 * |rs|
  {
    if rs != [] { EncodeLength(rs[1..]); }
  }

  // All blocks printed: the encoding of their runs, and nothing else, exactly
  // when there is no null character.
  lemma {:induction false} PrintedFlat(rss: seq<seq<Run>>)
    ensures NoNulRun(Flat(rss)) ==> AllPrinted(rss) == Encode(Flat(rss))
    ensures !NoNulRun(Flat(rss)) ==> |AllPrinted(rss)| < |Encode(Flat(rss))|
    ensures |AllPrinted(rss)| <= |Encode(Flat(rss))|
  {
    hide Bytes;
    if rss != [] {
      var front, last := rss[..|rss| - 1], rss[|rss| - 1];
      PrintedFlat(front);
      PrintedAll(last);
      EncodeConcat(Flat(front), last);
      EncodeLength(last);
      EncodeLength(Printed(last));
      NulSplit(Flat(front), last);
    }
  }

  lemma NulSplit(a: seq<Run>, b: seq<Run>)
    ensures NoNulRun(a + b) <==> NoNulRun(a) && NoNulRun(b)
  {
    if NoNulRun(a + b) {
      forall i | 0 <= i < |a| ensures a[i].c != 0 { assert (a + b)[i] == a[i]; }
      forall i | 0 <= i < |b| ensures b[i].c != 0 { assert (a + b)[|a| + i] == b[i]; }
    }
  }

  lemma {:induction false} NulRuns(rs: seq<Run>)
    requires Tight(rs)
    ensures NoNulRun(rs) <==> NoNul(Expand(rs))
  {
    if rs != [] {
      var f, r := rs[..|rs| - 1], rs[|rs| - 1];
      assert rs == f + [r] && NoNulRun([r]) == (r.c != 0);
      NulSplit(f, [r]);
      NulRuns(f);
      assert Repeat(r.c, r.count)[0] == r.c;
    }
  }

  // The printing of one block.
  method Print(a: Arg, before: seq<byte>) returns (stdout: seq<byte>)
    requires a.Valid()
    ensures stdout == before + Encode(Printed(a.Runs()))
  {
    hide Bytes, Zip;
    stdout := before;
    ghost var rs := a.Runs();
    var i := 0;
    while a.compressed[a.start + i] != 0
      invariant i <= a.compressedSize && stdout + Encode(Printed(rs[i..])) == before + Encode(Printed(rs))
      decreases a.compressedSize - i
    {
      assert rs[i..][0] == rs[i] && rs[i..][1..] == rs[i + 1..];
      PrintedStep(rs[i..]);
      stdout := stdout + Bytes(Run(a.compressedNums[a.start + i], a.compressed[a.start + i]));
      i := i + 1;
    }
    assert Printed(rs[i..]) == [];
  }

  lemma PrintedStep(rs: seq<Run>)
    requires rs != [] && rs[0].c != 0
    ensures Encode(Printed(rs)) == Bytes(rs[0]) + Encode(Printed(rs[1..]))
  {
    assert ([rs[0]] + Printed(rs[1..]))[1..] == Printed(rs[1..]);
  }

  // printEverything.
  method PrintEverything(args: seq<Arg>, ghost blocks: seq<seq<byte>>) returns (stdout: seq<byte>)
    requires 0 < |args| == |blocks| && Apart(args)
    requires forall i :: 0 <= i < |args| ==>
             args[i].Valid() && args[i].Runs() == Rle(blocks[i]) && 0 < args[i].compressedSize
    modifies set a | a in args, set a | a in args :: a.compressedNums
    ensures NoNul(Whole(blocks)) <==> stdout == Encode(Rle(Whole(blocks)))
  {
    hide Flat, Rle, Arg.Runs, Arg.Valid, Whole, Encode, Printed;
    ghost var rss := MendSeams(args, blocks);
    stdout := [];
    var k := 0;
    while k < |args|
      invariant k <= |args| && Hold(args, rss) && stdout == AllPrinted(rss[..k])
    {
      stdout := Print(args[k], stdout);
      assert rss[..k + 1][..k] == rss[..k];
      k := k + 1;
    }
    assert rss[..k] == rss;
    PrintedFlat(rss);
    RleRight(Whole(blocks));
    NulRuns(Flat(rss));
  }

  // Block j of the file: a quarter of it, the last one with what is left over.
  function BlockOf(file: seq<byte>, j: nat): seq<byte>
    requires j < NUMBER_OF_THREADS && 4 <= |file|
  {
    file[j * (|file| / 4)..if j == 3 then |file| else (j + 1) * (|file| / 4)]
  }

  function BlocksOf(file: seq<byte>): (blocks: seq<seq<byte>>)
    requires 4 <= |file|
    ensures |blocks| == 4 && forall j :: 0 <= j < 4 ==> blocks[j] == BlockOf(file, j)
  {
    [BlockOf(file, 0), BlockOf(file, 1), BlockOf(file, 2), BlockOf(file, 3)]
  }

  lemma WholeFile(file: seq<byte>)
    requires 4 <= |file|
    ensures Whole(BlocksOf(file)) == file
  {
    var b := BlocksOf(file);
    WholeSnoc(b, 0);
    WholeSnoc(b, 1);
    WholeSnoc(b, 2);
    WholeSnoc(b, 3);
    assert b[..4] == b && Whole(b[..0]) == [];
  }

  // One thread: its argument and its work.
  method Thread(block: seq<byte>, blocksize: nat) returns (arg: Arg)
    requires 0 < blocksize == |block|
    ensures fresh(arg) && fresh(arg.compressed) && fresh(arg.compressedNums)
    ensures arg.Valid() && arg.Runs() == Rle(block) && 0 < arg.compressedSize
  {
    arg := new Arg(blocksize);
    arg.Compression(block);
  }

  // pzip on one file: it prints the runs of the file exactly when the file
  // has no null byte, and then my-unzip restores the file exactly when byte
  // 255 occurs at its end only.
  method Pzip(file: seq<byte>) returns (stdout: seq<byte>)
    requires 4 <= |file| < 0x8000_0000
    ensures NoNul(file) <==> stdout == Encode(Rle(file))
    ensures NoNul(file) ==> (Unzip(stdout) == file <==> EndsWith255(file))
  {
    hide Rle, Arg.Runs, Arg.Valid, Encode, Unzip, EndsWith255, NoNul;
    var blockcalc := |file| / NUMBER_OF_THREADS;
    var remainderBits := |file| % NUMBER_OF_THREADS;
    ghost var blocks := BlocksOf(file);
    var args: seq<Arg> := [];
    var j := 0;
    while j < NUMBER_OF_THREADS
      invariant |args| == j <= NUMBER_OF_THREADS && Apart(args)
      invariant fresh(set a | a in args) && fresh(set a | a in args :: a.compressed)
                && fresh(set a | a in args :: a.compressedNums)
      invariant forall i :: 0 <= i < j ==>
                args[i].Valid() && args[i].Runs() == Rle(blocks[i]) && 0 < args[i].compressedSize
    {
      var blocksize := blockcalc;
      if remainderBits != 0 && j == NUMBER_OF_THREADS - 1 {
        blocksize := blocksize + remainderBits;
      }
      var head := j * blockcalc;
      assert file[head..head + blocksize] == blocks[j];
      var arg := Thread(file[head..head + blocksize], blocksize);
      args := args + [arg];
      j := j + 1;
    }
    stdout := PrintEverything(args, blocks);
    WholeFile(file);
    UnzipRestores(file);
  }

  lemma RunsSize(a: Arg)
    requires a.Valid()
    ensures |a.Runs()| == a.compressedSize
  {
  }

  lemma MendedRest(rss: seq<seq<Run>>, a: nat, k: nat)
    requires a < k < |rss| && rss[a] != []
    ensures var m := Mended(rss, a, k);
            && |m| == |rss| && (rss[0] != [] ==> m[0] != [])
            && forall i :: k < i < |rss| ==> m[i] == rss[i]
  {
  }

  function Whole(blocks: seq<seq<byte>>): seq<byte>
  {
    if blocks == [] then [] else Whole(blocks[..|blocks| - 1]) + blocks[|blocks| - 1]
  }

  lemma WholeSnoc(blocks: seq<seq<byte>>, k: nat)
    requires k < |blocks|
    ensures Whole(blocks[..k + 1]) == Whole(blocks[..k]) + blocks[k]
  {
    assert blocks[..k + 1][..k] == blocks[..k];
  }

  function RlesOf(blocks: seq<seq<byte>>): (rss: seq<seq<Run>>)
    ensures |rss| == |blocks| && forall i :: 0 <= i < |rss| ==> rss[i] == Rle(blocks[i])
  {
    if blocks == [] then [] else RlesOf(blocks[..|blocks| - 1]) + [Rle(blocks[|blocks| - 1])]
  }

  lemma FirstBlock(blocks: seq<seq<byte>>)
    requires blocks != []
    ensures Flat(RlesOf(blocks)[..1]) == Rle(Whole(blocks[..1]))
  {
    FlatSnoc([], Rle(blocks[0]));
    assert RlesOf(blocks)[..1] == [] + [Rle(blocks[0])];
    WholeSnoc(blocks, 0);
    assert Whole(blocks[..1]) == blocks[0];
  }
}
