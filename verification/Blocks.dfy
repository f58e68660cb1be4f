/** Disk blocks as byte arrays, and the two ways the kernel looks into one:
    as an array of 32-bit little-endian words (the log header, an indirect
    block) and as an array of bits (the free map). */
module Blocks {
  const BSIZE: nat := 512
  const WORDS: nat := 128   // BSIZE / sizeof(uint)
  const BPB: nat := 4096    // BSIZE * 8

  type byte = x: int | 0 <= x < 256
  type word = x: int | 0 <= x < 0x1_0000_0000

  function Zeros(n: nat): (s: seq<byte>)
    ensures |s| == n && forall k :: 0 <= k < n ==> s[k] == 0
  {
    if n == 0 then [] else Zeros(n - 1) + [0]
  }

  const ZEROES: seq<byte> := Zeros(BSIZE)
  type Block = b: seq<byte> | |b| == BSIZE witness ZEROES

  type Disk = seq<Block>

  // ---- words ----

  function GetWord(b: Block, i: nat): word
    requires i < WORDS
  {
    (b[4 * i] as int) + 0x100 * (b[4 * i + 1] as int) + 0x1_0000 * (b[4 * i + 2] as int)
        + 0x100_0000 * (b[4 * i + 3] as int)
  }

  function PutWord(b: Block, i: nat, v: word): (r: Block)
    requires i < WORDS
  {
    b[4 * i := v % 0x100][4 * i + 1 := v / 0x100 % 0x100]
     [4 * i + 2 := v / 0x1_0000 % 0x100][4 * i + 3 := v / 0x100_0000]
  }

  // Four bytes and the number they spell.
  lemma Digits(v: int, b0: int, b1: int, b2: int, b3: int)
    requires 0 <= b0 < 0x100 && 0 <= b1 < 0x100 && 0 <= b2 < 0x100 && 0 <= b3 < 0x100
    requires v == b0 + 0x100 * b1 + 0x1_0000 * b2 + 0x100_0000 * b3
    ensures v % 0x100 == b0 && v / 0x100 % 0x100 == b1 && v / 0x1_0000 % 0x100 == b2 && v / 0x100_0000 == b3
  {
    assert v / 0x100 == b1 + 0x100 * b2 + 0x1_0000 * b3;
    assert v / 0x1_0000 == b2 + 0x100 * b3;
  }

  lemma PutElsewhere(b: Block, i: nat, v: word, j: nat)
    requires i < WORDS && j < WORDS && j != i
    ensures GetWord(PutWord(b, i, v), j) == GetWord(b, j)
  {
    var r := PutWord(b, i, v);
    assert r[4 * j] == b[4 * j] && r[4 * j + 1] == b[4 * j + 1] && r[4 * j + 2] == b[4 * j + 2]
           && r[4 * j + 3] == b[4 * j + 3];
  }

  // A number from its four bytes.
  lemma Spelled(v: nat)
    ensures v == v % 0x100 + 0x100 * (v / 0x100 % 0x100) + 0x1_0000 * (v / 0x1_0000 % 0x100)
            + 0x100_0000 * (v / 0x100_0000)
  {
    var q := v / 0x100;
    var r := q / 0x100;
    assert v / 0x1_0000 == r && v / 0x100_0000 == r / 0x100;
    assert v == 0x100 * q + v % 0x100 && q == 0x100 * r + q % 0x100 && r == 0x100 * (r / 0x100) + r % 0x100;
  }

  lemma PutHere(b: Block, i: nat, v: word)
    requires i < WORDS
    ensures GetWord(PutWord(b, i, v), i) == v
  {
    Spelled(v);
    var r := PutWord(b, i, v);
    assert r[4 * i] == v % 0x100 && r[4 * i + 1] == v / 0x100 % 0x100;
    assert r[4 * i + 2] == v / 0x1_0000 % 0x100 && r[4 * i + 3] == v / 0x100_0000;
  }

  lemma GetPutWord(b: Block, i: nat, v: word)
    requires i < WORDS
    ensures GetWord(PutWord(b, i, v), i) == v
    ensures forall j: nat :: j < WORDS && j != i ==> GetWord(PutWord(b, i, v), j) == GetWord(b, j)
  {
    hide GetWord, PutWord;
    PutHere(b, i, v);
    forall j: nat | j < WORDS && j != i ensures GetWord(PutWord(b, i, v), j) == GetWord(b, j) {
      PutElsewhere(b, i, v, j);
    }
  }

  lemma PutGetWord(b: Block, i: nat)
    requires i < WORDS
    ensures PutWord(b, i, GetWord(b, i)) == b
  {
    Digits(GetWord(b, i), b[4 * i], b[4 * i + 1], b[4 * i + 2], b[4 * i + 3]);
  }
}
