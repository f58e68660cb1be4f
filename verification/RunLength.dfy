/** Run-length encoding: the runs of a file, how they merge at a seam, the
    bytes they are stored as, and what is decoded from those bytes. */
module RunLength {
  import opened Blocks

  datatype Run = Run(count: nat, c: byte)

  function Repeat(c: byte, n: nat): (s: seq<byte>)
    ensures |s| == n && forall k :: 0 <= k < n ==> s[k] == c
  {
    if n == 0 then [] else Repeat(c, n - 1) + [c]
  }

  function Expand(rs: seq<Run>): seq<byte>
  {
    if rs == [] then [] else Expand(rs[..|rs| - 1]) + Repeat(rs[|rs| - 1].c, rs[|rs| - 1].count)
  }

  // No run is empty, and neighbours differ.
  predicate Tight(rs: seq<Run>)
  {
    && (forall i :: 0 <= i < |rs| ==> 0 < rs[i].count)
    && (forall i, j :: 0 <= i && j == i + 1 < |rs| ==> rs[i].c != rs[j].c)
  }

  // The runs of s, byte by byte.
  function Rle(s: seq<byte>): seq<Run>
  {
    if s == [] then [] else Grown(Rle(s[..|s| - 1]), s[|s| - 1])
  }

  function Grown(rs: seq<Run>, c: byte): seq<Run>
  {
    if rs != [] && rs[|rs| - 1].c == c then rs[..|rs| - 1] + [Run(rs[|rs| - 1].count + 1, c)] else rs + [Run(1, c)]
  }

  lemma ExpandSnoc(rs: seq<Run>, r: Run)
    ensures Expand(rs + [r]) == Expand(rs) + Repeat(r.c, r.count)
  {
    assert (rs + [r])[..|rs|] == rs;
  }

  lemma RepeatPlus(c: byte, m: nat, n: nat)
    ensures Repeat(c, m) + Repeat(c, n) == Repeat(c, m + n)
  {
    hide Repeat;
  }

  lemma Single(r: Run)
    ensures Expand([r]) == Repeat(r.c, r.count)
  {
    assert [r][..0] == [];
  }

  lemma {:induction false} ExpandConcat(a: seq<Run>, b: seq<Run>)
    ensures Expand(a + b) == Expand(a) + Expand(b)
  {
    hide Repeat;
    if b == [] {
      assert a + b == a;
    } else {
      var n := |b| - 1;
      ExpandConcat(a, b[..n]);
      assert a + b == (a + b[..n]) + [b[n]];
      ExpandSnoc(a + b[..n], b[n]);
    }
  }

  lemma GrownExpand(rs: seq<Run>, c: byte)
    ensures Expand(Grown(rs, c)) == Expand(rs) + [c]
    ensures Tight(rs) ==> Tight(Grown(rs, c))
  {
    hide Expand;
    assert Repeat(c, 1) == [c] by { assert Repeat(c, 0) == []; }
    if rs != [] && rs[|rs| - 1].c == c {
      var f, r := rs[..|rs| - 1], rs[|rs| - 1];
      assert rs == f + [r];
      ExpandSnoc(f, r);
      ExpandSnoc(f, Run(r.count + 1, c));
      RepeatPlus(c, r.count, 1);
    } else {
      ExpandSnoc(rs, Run(1, c));
    }
  }

  // The runs spell s and are as few as can be.
  lemma {:induction false} RleRight(s: seq<byte>)
    ensures Expand(Rle(s)) == s && Tight(Rle(s))
  {
    hide Grown, Tight;
    if s != [] {
      RleRight(s[..|s| - 1]);
      GrownExpand(Rle(s[..|s| - 1]), s[|s| - 1]);
    } else {
      NoRuns();
    }
  }

  lemma NoRuns()
    ensures Tight([])
  {
  }

  lemma RleSnoc(s: seq<byte>, c: byte)
    ensures Rle(s + [c]) == Grown(Rle(s), c)
  {
    hide Grown;
    assert (s + [c])[..|s|] == s;
  }

  lemma NoRepeat(c: byte)
    ensures Repeat(c, 0) == []
  {
  }

  // A run of its own adds one run.
  lemma {:induction false} RleRepeat(s: seq<byte>, c: byte, n: nat)
    requires 0 < n && (Rle(s) == [] || Rle(s)[|Rle(s)| - 1].c != c)
    ensures Rle(s + Repeat(c, n)) == Rle(s) + [Run(n, c)]
  {
    assert s + Repeat(c, n) == s + Repeat(c, n - 1) + [c];
    RleSnoc(s + Repeat(c, n - 1), c);
    hide Rle, Repeat, Grown;
    if n == 1 {
      assert Repeat(c, 0) == [] by { NoRepeat(c); }
      assert s + Repeat(c, 0) == s;
      GrownNew(Rle(s), c);
    } else {
      RleRepeat(s, c, n - 1);
      GrownAgain(Rle(s), c, n - 1);
    }
  }

  lemma GrownNew(rs: seq<Run>, c: byte)
    requires rs == [] || rs[|rs| - 1].c != c
    ensures Grown(rs, c) == rs + [Run(1, c)]
  {
  }

  lemma GrownAgain(rs: seq<Run>, c: byte, n: nat)
    ensures Grown(rs + [Run(n, c)], c) == rs + [Run(n + 1, c)]
  {
    assert (rs + [Run(n, c)])[..|rs|] == rs;
  }

  // There is one way only to be so.
  lemma {:induction false} RleOnly(rs: seq<Run>)
    requires Tight(rs)
    ensures Rle(Expand(rs)) == rs
  {
    hide Rle, Repeat;
    if rs != [] {
      var f, r := rs[..|rs| - 1], rs[|rs| - 1];
      assert rs == f + [r];
      RleOnly(f);
      RleRepeat(Expand(f), r.c, r.count);
    } else {
      assert Rle([]) == [] by { RleNone(); }
    }
  }

  lemma RleNone()
    ensures Rle([]) == []
  {
  }

  // Two lists of runs joined; runs that meet at the seam become one.
  function Joined(a: seq<Run>, b: seq<Run>): seq<Run>
  {
    if a != [] && b != [] && a[|a| - 1].c == b[0].c
    then a[..|a| - 1] + [Run(a[|a| - 1].count + b[0].count, b[0].c)] + b[1..]
    else a + b
  }

  lemma Regroup(a: seq<byte>, b: seq<byte>, c: seq<byte>, d: seq<byte>)
    ensures (a + (b + c)) + d == (a + b) + (c + d)
  {
  }

  lemma JoinedExpand(a: seq<Run>, b: seq<Run>)
    ensures Expand(Joined(a, b)) == Expand(a) + Expand(b)
  {
    hide Expand, Repeat;
    if a != [] && b != [] && a[|a| - 1].c == b[0].c {
      var fa, la, hb, tb := a[..|a| - 1], a[|a| - 1], b[0], b[1..];
      SeamExpand(fa, la, hb, tb);
      assert a == fa + [la] && b == [hb] + tb;
    } else {
      ExpandConcat(a, b);
    }
  }

  lemma SeamExpand(fa: seq<Run>, la: Run, hb: Run, tb: seq<Run>)
    requires la.c == hb.c
    ensures Expand(fa + [Run(la.count + hb.count, hb.c)] + tb) == Expand(fa + [la]) + Expand([hb] + tb)
  {
    hide Expand, Repeat;
    var m := Run(la.count + hb.count, hb.c);
    ExpandConcat(fa + [m], tb);
    ExpandSnoc(fa, m);
    ExpandSnoc(fa, la);
    ExpandConcat([hb], tb);
    Single(hb);
    RepeatPlus(hb.c, la.count, hb.count);
    Regroup(Expand(fa), Repeat(hb.c, la.count), Repeat(hb.c, hb.count), Expand(tb));
  }

  lemma JoinedTight(a: seq<Run>, b: seq<Run>)
    requires Tight(a) && Tight(b)
    ensures Tight(Joined(a, b))
  {
    var t := Joined(a, b);
    if a != [] && b != [] && a[|a| - 1].c == b[0].c {
      forall i, j | 0 <= i && j == i + 1 < |t| ensures t[i].c != t[j].c {
        if j < |a| { assert a[i].c != a[j].c; } else { assert b[i - |a| + 1].c != b[j - |a| + 1].c; }
      }
    }
  }

  lemma JoinedRight(a: seq<Run>, b: seq<Run>)
    ensures Expand(Joined(a, b)) == Expand(a) + Expand(b)
    ensures Tight(a) && Tight(b) ==> Tight(Joined(a, b))
  {
    hide Expand, Joined, Tight;
    JoinedExpand(a, b);
    if Tight(a) && Tight(b) { JoinedTight(a, b); }
  }

  // The runs of two pieces, joined, are the runs of the whole.
  lemma RleJoined(a: seq<byte>, b: seq<byte>)
    ensures Rle(a + b) == Joined(Rle(a), Rle(b))
  {
    hide Rle, Expand, Joined, Tight;
    RleRight(a);
    RleRight(b);
    JoinedRight(Rle(a), Rle(b));
    RleOnly(Joined(Rle(a), Rle(b)));
  }

  // ---- the stored form ----

  // One run as my-zip writes it: an int, least byte first, and a char.
  function Bytes(r: Run): (s: seq<byte>)
    ensures |s| == 5
  {
    [r.count % 0x100, r.count / 0x100 % 0x100, r.count / 0x1_0000 % 0x100, r.count / 0x100_0000 % 0x100, r.c]
  }

  function Encode(rs: seq<Run>): seq<byte>
  {
    if rs == [] then [] else Bytes(rs[0]) + Encode(rs[1..])
  }

  // The int in four bytes: the top bit is the sign.
  function Int(b0: byte, b1: byte, b2: byte, b3: byte): int
  {
    var v := b0 + 0x100 * b1 + 0x1_0000 * b2 + 0x100_0000 * b3;
    if v < 0x8000_0000 then v else v - 0x1_0000_0000
  }

  const EOFCHAR: byte := 255   // (char)EOF

  // my-unzip on the bytes of a file. It ends with the char that looks like
  // EOF, once that run is written out, and takes a missing char for it.
  function Unzip(s: seq<byte>): seq<byte>
  {
    if |s| < 4 then []
    else
      var n := Int(s[0], s[1], s[2], s[3]);
      var c := if |s| == 4 then EOFCHAR else s[4];
      Repeat(c, if n < 0 then 0 else n) + if c == EOFCHAR then [] else Unzip(s[5..])
  }

  // One turn of the loop below.
  lemma UnzipTurn(s: seq<byte>, out: seq<byte>)
    requires 4 <= |s|
    ensures var n, c := Int(s[0], s[1], s[2], s[3]), if |s| == 4 then EOFCHAR else s[4];
      out + Unzip(s) == (out + Repeat(c, if n < 0 then 0 else n)) + if c == EOFCHAR then [] else Unzip(s[5..])
  {
    hide Unzip, Repeat, Int;
    var n, c := Int(s[0], s[1], s[2], s[3]), if |s| == 4 then EOFCHAR else s[4];
    UnzipOnce(s);
    Reassociate(out, Repeat(c, if n < 0 then 0 else n), if c == EOFCHAR then [] else Unzip(s[5..]));
  }

  lemma UnzipOnce(s: seq<byte>)
    requires 4 <= |s|
    ensures var n, c := Int(s[0], s[1], s[2], s[3]), if |s| == 4 then EOFCHAR else s[4];
      Unzip(s) == Repeat(c, if n < 0 then 0 else n) + if c == EOFCHAR then [] else Unzip(s[5..])
  {
    hide Repeat, Int;
  }

  lemma Reassociate(a: seq<byte>, b: seq<byte>, c: seq<byte>)
    ensures a + (b + c) == (a + b) + c
  {
  }

  // my-unzip's loop.
  method UnzipLoop(fp: seq<byte>) returns (out: seq<byte>)
    ensures out == Unzip(fp)
  {
    hide Unzip, Repeat, Int;
    out := [];
    var at := 0;
    while true
      invariant at <= |fp| && out + Unzip(fp[at..]) == Unzip(fp)
      decreases |fp| - at
    {
      ghost var rest := fp[at..];
      if |fp| - at < 4 {
        assert Unzip(rest) == [] by { UnzipShort(rest); }
        break;
      }
      UnzipTurn(rest, out);
      var numChars := Int(fp[at], fp[at + 1], fp[at + 2], fp[at + 3]);
      var theChar := if at + 4 < |fp| then fp[at + 4] else EOFCHAR;
      out := PrintRun(out, theChar, numChars);
      if theChar == EOFCHAR {
        break;
      }
      assert rest[5..] == fp[at + 5..];
      at := at + 5;
    }
  }

  lemma UnzipShort(s: seq<byte>)
    requires |s| < 4
    ensures Unzip(s) == []
  {
  }

  method PrintRun(before: seq<byte>, theChar: byte, numChars: int) returns (out: seq<byte>)
    ensures out == before + Repeat(theChar, if numChars < 0 then 0 else numChars)
  {
    out := before;
    var j := 0;
    while j < numChars
      invariant 0 <= j && (j <= numChars || j == 0) && out == before + Repeat(theChar, j)
    {
      out := out + [theChar];
      j := j + 1;
    }
  }

  // The runs up to and including the first of the char that ends my-unzip.
  function Heard(rs: seq<Run>): seq<Run>
  {
    if rs == [] then [] else if rs[0].c == EOFCHAR then [rs[0]] else [rs[0]] + Heard(rs[1..])
  }

  predicate Ints(rs: seq<Run>) { forall i :: 0 <= i < |rs| ==> rs[i].count < 0x8000_0000 }

  lemma BytesInt(n: nat)
    requires n < 0x8000_0000
    ensures Int(n % 0x100, n / 0x100 % 0x100, n / 0x1_0000 % 0x100, n / 0x100_0000 % 0x100) == n
  {
    var b0, b1, b2, b3 := n % 0x100, n / 0x100 % 0x100, n / 0x1_0000 % 0x100, n / 0x100_0000;
    assert n == b0 + 0x100 * b1 + 0x1_0000 * b2 + 0x100_0000 * b3 by { Spelled(n); }
    assert b3 < 0x100 && b3 % 0x100 == b3;
  }

  // The int goes first, least byte first, and the char behind it.
  lemma EncodeOne()
    ensures Encode([Run(0x1020304, 98)]) == [4, 3, 2, 1, 98]
  {
    assert [Run(0x1020304, 98)][1..] == [];
  }

  lemma {:induction false} UnzipEncode(rs: seq<Run>)
    requires Ints(rs)
    ensures Unzip(Encode(rs)) == Expand(Heard(rs))
  {
    if rs != [] {
      var s, r := Encode(rs), rs[0];
      BytesInt(r.count);
      assert s[..5] == Bytes(r) && s[5..] == Encode(rs[1..]);
      assert s[4] == Bytes(r)[4];
      Single(r);
      if r.c != EOFCHAR {
        UnzipEncode(rs[1..]);
        ExpandConcat([r], Heard(rs[1..]));
      }
    }
  }

  // Byte 255 is followed by nothing but more of itself.
  predicate EndsWith255(s: seq<byte>)
  {
    forall i, j :: 0 <= i < j < |s| && s[i] == 255 ==> s[j] == 255
  }

  predicate Last255(rs: seq<Run>) { forall i :: 0 <= i < |rs| - 1 ==> rs[i].c != EOFCHAR }

  lemma {:induction false} HeardAll(rs: seq<Run>)
    requires Tight(rs)
    ensures Last255(rs) ==> Heard(rs) == rs
    ensures !Last255(rs) ==> |Expand(Heard(rs))| < |Expand(rs)|
  {
    hide Repeat, Expand;
    if rs != [] {
      var r := rs[0];
      assert rs == [r] + rs[1..];
      ExpandConcat([r], rs[1..]);
      Single(r);
      if r.c == EOFCHAR {
        if 1 < |rs| {
          assert rs[1..] == [rs[1]] + rs[2..];
          ExpandConcat([rs[1]], rs[2..]);
          Single(rs[1]);
          assert !Last255(rs);
        }
      } else {
        HeardAll(rs[1..]);
        ExpandConcat([r], Heard(rs[1..]));
        assert Last255(rs[1..]) ==> Last255(rs) by {
          if Last255(rs[1..]) {
            forall i | 0 <= i < |rs| - 1 ensures rs[i].c != EOFCHAR { if 0 < i { assert rs[1..][i - 1].c != EOFCHAR; } }
          }
        }
        assert Last255(rs) ==> Last255(rs[1..]);
      }
    }
  }

  lemma Last255Bytes(rs: seq<Run>)
    requires Tight(rs)
    ensures Last255(rs) <==> EndsWith255(Expand(rs))
  {
    hide Expand, Repeat;
    var e := Expand(rs);
    if rs != [] && Last255(rs) {
      var f, r := rs[..|rs| - 1], rs[|rs| - 1];
      assert rs == f + [r];
      ExpandSnoc(f, r);
      No255(f);
      forall i: nat | i < |Expand(f)| ensures e[i] != EOFCHAR { assert e[i] in Expand(f); }
      assert forall i: nat :: |Expand(f)| <= i < |e| ==> e[i] == r.c;
    } else if rs != [] {
      var i :| 0 <= i < |rs| - 1 && rs[i].c == EOFCHAR;
      var f, r, q, g := rs[..i], rs[i], rs[i + 1], rs[i + 2..];
      assert rs == ((f + [r]) + [q]) + g;
      ExpandConcat((f + [r]) + [q], g);
      ExpandSnoc(f + [r], q);
      ExpandSnoc(f, r);
      assert e[|Expand(f)|] == EOFCHAR && e[|Expand(f)| + r.count] == q.c;
    } else {
      NothingExpands();
    }
  }

  lemma NothingExpands()
    ensures Expand([]) == []
  {
  }

  lemma {:induction false} No255(rs: seq<Run>)
    requires forall i :: 0 <= i < |rs| ==> rs[i].c != EOFCHAR
    ensures EOFCHAR !in Expand(rs)
  {
    if rs != [] { No255(rs[..|rs| - 1]); }
  }

  // my-unzip gives a file back from its runs exactly when byte 255 occurs at
  // its end only.
  lemma UnzipRestores(s: seq<byte>)
    requires |s| < 0x8000_0000
    ensures Unzip(Encode(Rle(s))) == s <==> EndsWith255(s)
  {
    var rs := Rle(s);
    RleRight(s);
    CountsBelow(rs);
    UnzipEncode(rs);
    HeardAll(rs);
    Last255Bytes(rs);
  }

  lemma {:induction false} CountsBelow(rs: seq<Run>)
    ensures forall i :: 0 <= i < |rs| ==> rs[i].count <= |Expand(rs)|
  {
    if rs != [] { CountsBelow(rs[..|rs| - 1]); }
  }
}
