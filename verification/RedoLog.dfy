/** The redo log as a protocol on disk images. */
module RedoLog {
  // What each single-block write of commit() and of recover_from_log() leaves
  // on the disk, and why a crash between any two of them is harmless. Nothing
  // here is state: BufferCache and Log prove that the running code writes
  // exactly these images.

  import opened Blocks
  import opened Params

  // ---- the header block ----

  function HeaderN(b: Block): word { GetWord(b, 0) }

  function HeaderList(b: Block): (hs: seq<word>)
    requires HeaderN(b) <= LOGSIZE
    ensures |hs| == HeaderN(b)
  {
    seq(HeaderN(b), i requires 0 <= i < HeaderN(b) => GetWord(b, i + 1))
  }

  // The copy loop of write_head, after its first k iterations. Words past the
  // n-th keep whatever an earlier transaction left there.
  function PutList(b: Block, hs: seq<word>, k: nat): Block
    requires k <= |hs| <= LOGSIZE
  {
    if k == 0 then PutWord(b, 0, |hs|) else PutWord(PutList(b, hs, k - 1), k, hs[k - 1])
  }

  function PutHeader(b: Block, hs: seq<word>): Block
    requires |hs| <= LOGSIZE
  {
    PutList(b, hs, |hs|)
  }

  lemma {:induction false} PutListWords(b: Block, hs: seq<word>, k: nat)
    requires k <= |hs| <= LOGSIZE
    ensures GetWord(PutList(b, hs, k), 0) == |hs|
    ensures forall i: nat :: i < k ==> GetWord(PutList(b, hs, k), i + 1) == hs[i]
  {
    if k == 0 {
      GetPutWord(b, 0, |hs|);
    } else {
      PutListWords(b, hs, k - 1);
      GetPutWord(PutList(b, hs, k - 1), k, hs[k - 1]);
    }
  }

  // read_head after write_head gives back the list, whatever the block held.
  lemma HeaderRoundTrip(b: Block, hs: seq<word>)
    requires |hs| <= LOGSIZE
    ensures HeaderN(PutHeader(b, hs)) == |hs|
    ensures HeaderList(PutHeader(b, hs)) == hs
  {
    PutListWords(b, hs, |hs|);
  }

  // ---- images ----

  /** Where the log lives: blocks [start, start + size) of the disk. */
  datatype Area = Area(start: nat, size: nat) {
    predicate Inside(b: int) { start <= b < start + size }
  }

  predicate Distinct(hs: seq<word>) { forall i, j :: 0 <= i < j < |hs| ==> hs[i] != hs[j] }

  // A list of home blocks that fits the log and stays outside it. That it fits,
  // |hs| < a.size, is what the tests of log_write are for; when they see to it is
  // LogReservation.OutgrowsExactlyWhen.
  predicate ListOk(a: Area, d: Disk, hs: seq<word>)
  {
    && |hs| <= LOGSIZE && |hs| < a.size && a.start + a.size <= |d|
    && Distinct(hs)
    && forall i :: 0 <= i < |hs| ==> hs[i] < |d| && !a.Inside(hs[i])
  }

  // The disk carries a log that recovery can read.
  predicate LogOk(a: Area, d: Disk)
  {
    && 0 < a.size && a.start + a.size <= |d|
    && HeaderN(d[a.start]) <= LOGSIZE
    && ListOk(a, d, HeaderList(d[a.start]))
  }

  predicate Empty(a: Area, d: Disk) { LogOk(a, d) && HeaderN(d[a.start]) == 0 }

  // The blocks a file system sees agree: everything outside the log.
  ghost predicate SameHome(a: Area, d: Disk, e: Disk)
  {
    && |d| == |e|
    && forall b :: 0 <= b < |d| && !a.Inside(b) ==> d[b] == e[b]
  }

  // write_log after k iterations: log slot i + 1 holds data[i].
  function Fill(a: Area, d: Disk, data: seq<Block>, k: nat): (r: Disk)
    requires k <= |data| && a.start + |data| < |d|
    ensures |r| == |d|
  {
    if k == 0 then d else Fill(a, d, data, k - 1)[a.start + k := data[k - 1]]
  }

  // install_trans after k iterations: home block hs[i] holds log slot i + 1.
  function Install(a: Area, d: Disk, hs: seq<word>, k: nat): (r: Disk)
    requires ListOk(a, d, hs) && k <= |hs|
    ensures |r| == |d|
  {
    if k == 0 then d else
      var r := Install(a, d, hs, k - 1);
      r[hs[k - 1] := r[a.start + k]]
  }

  function WriteHead(a: Area, d: Disk, hs: seq<word>): (r: Disk)
    requires |hs| <= LOGSIZE && a.start < |d|
    ensures |r| == |d|
  {
    d[a.start := PutHeader(d[a.start], hs)]
  }

  // The image recover_from_log leaves when nothing interrupts it.
  function Recovered(a: Area, d: Disk): (r: Disk)
    requires LogOk(a, d)
    ensures |r| == |d|
  {
    var hs := HeaderList(d[a.start]);
    WriteHead(a, Install(a, d, hs, |hs|), [])
  }

  // The transaction as the file system means it: all the blocks at once.
  function Apply(d: Disk, hs: seq<word>, data: seq<Block>): (r: Disk)
    requires |hs| == |data| && forall i :: 0 <= i < |hs| ==> hs[i] < |d|
    ensures |r| == |d|
  {
    if hs == [] then d else Apply(d, hs[..|hs| - 1], data[..|hs| - 1])[hs[|hs| - 1] := data[|hs| - 1]]
  }

  // The blocks of a transaction, out of the device they are to make.
  ghost function Gather(hs: seq<word>, view: seq<Block>): (r: seq<Block>)
    requires forall i :: 0 <= i < |hs| ==> hs[i] < |view|
    ensures |r| == |hs|
  {
    seq(|hs|, i requires 0 <= i < |hs| => view[hs[i]])
  }

  function SetOf(hs: seq<word>): set<nat> { set b | b in hs }

  lemma {:induction false} SizeOf(hs: seq<word>)
    requires Distinct(hs)
    ensures |SetOf(hs)| == |hs|
  {
    if hs == [] {
      assert SetOf(hs) == {};
    } else {
      var k := |hs| - 1;
      SizeOf(hs[..k]);
      assert hs == hs[..k] + [hs[k]];
      assert SetOf(hs) == SetOf(hs[..k]) + {hs[k] as nat};
    }
  }

  // ---- what the phases do to one block ----

  lemma {:induction false} FillAt(a: Area, d: Disk, data: seq<Block>, k: nat, b: nat)
    requires k <= |data| && a.start + |data| < |d| && b < |d|
    ensures Fill(a, d, data, k)[b] == if a.start < b <= a.start + k then data[b - a.start - 1] else d[b]
  {
    if k > 0 { FillAt(a, d, data, k - 1, b); }
  }

  lemma {:induction false} InstallAt(a: Area, d: Disk, hs: seq<word>, k: nat)
    requires ListOk(a, d, hs) && k <= |hs|
    ensures forall b :: a.Inside(b) ==> Install(a, d, hs, k)[b] == d[b]
    ensures forall b :: 0 <= b < |d| && b !in hs[..k] ==> Install(a, d, hs, k)[b] == d[b]
    ensures forall i :: 0 <= i < k ==> Install(a, d, hs, k)[hs[i]] == d[a.start + 1 + i]
  {
    if k > 0 {
      InstallAt(a, d, hs, k - 1);
      assert hs[..k] == hs[..k - 1] + [hs[k - 1]];
    }
  }

  lemma {:induction false} ApplyAt(d: Disk, hs: seq<word>, data: seq<Block>)
    requires |hs| == |data| && Distinct(hs) && forall i :: 0 <= i < |hs| ==> hs[i] < |d|
    ensures forall b :: 0 <= b < |d| && b !in hs ==> Apply(d, hs, data)[b] == d[b]
    ensures forall i :: 0 <= i < |hs| ==> Apply(d, hs, data)[hs[i]] == data[i]
  {
    if hs != [] {
      ApplyAt(d, hs[..|hs| - 1], data[..|hs| - 1]);
      assert hs == hs[..|hs| - 1] + [hs[|hs| - 1]];
    }
  }

  // ---- recovery ----

  // The disk after recover_from_log has made t of its n + 1 block writes.
  function RecoverImage(a: Area, d: Disk, t: nat): (r: Disk)
    requires LogOk(a, d) && t <= HeaderN(d[a.start]) + 1
    ensures |r| == |d|
  {
    var hs := HeaderList(d[a.start]);
    if t <= |hs| then Install(a, d, hs, t) else WriteHead(a, Install(a, d, hs, |hs|), [])
  }

  lemma WriteHeadEmpty(a: Area, d: Disk)
    requires 0 < a.size && a.start + a.size <= |d|
    ensures Empty(a, WriteHead(a, d, [])) && SameHome(a, d, WriteHead(a, d, []))
    ensures Recovered(a, WriteHead(a, d, [])) == WriteHead(a, d, [])
  {
    var e := WriteHead(a, d, []);
    HeaderRoundTrip(d[a.start], []);
    PutGetWord(e[a.start], 0);
  }

  // One crash inside recovery: the image left behind still carries a readable
  // log, and recovering from it ends on the very same image.
  lemma RecoverIdempotent(a: Area, d: Disk, t: nat)
    requires LogOk(a, d) && t <= HeaderN(d[a.start]) + 1
    ensures LogOk(a, RecoverImage(a, d, t))
    ensures Recovered(a, RecoverImage(a, d, t)) == Recovered(a, d)
  {
    var hs := HeaderList(d[a.start]);
    if t <= |hs| {
      var e := RecoverImage(a, d, t);
      InstallAt(a, d, hs, t);
      InstallAt(a, e, hs, |hs|);
      InstallAt(a, d, hs, |hs|);
      var x, y := Install(a, e, hs, |hs|), Install(a, d, hs, |hs|);
      forall b | 0 <= b < |d| ensures x[b] == y[b] {
        if b in hs {
          var i :| 0 <= i < |hs| && hs[i] == b;
          assert a.Inside(a.start + 1 + i);
        }
      }
      assert x == y;
    } else {
      WriteHeadEmpty(a, Install(a, d, hs, |hs|));
    }
  }

  // Recovery interrupted again and again: crashes[0] is how many writes the
  // first attempt makes before the power fails, and so on; the last attempt
  // runs to its end.
  function CrashyRecovery(a: Area, d: Disk, crashes: seq<nat>): (r: Disk)
    requires LogOk(a, d)
    ensures |r| == |d|
    decreases |crashes|
  {
    if crashes == [] then Recovered(a, d) else
      var n := HeaderN(d[a.start]);
      var t := if crashes[0] <= n + 1 then crashes[0] else n + 1;
      RecoverIdempotent(a, d, t);
      CrashyRecovery(a, RecoverImage(a, d, t), crashes[1..])
  }

  lemma {:induction false} CrashyRecoveryEnds(a: Area, d: Disk, crashes: seq<nat>)
    requires LogOk(a, d)
    ensures CrashyRecovery(a, d, crashes) == Recovered(a, d)
    decreases |crashes|
  {
    if crashes != [] {
      var n := HeaderN(d[a.start]);
      var t := if crashes[0] <= n + 1 then crashes[0] else n + 1;
      RecoverIdempotent(a, d, t);
      CrashyRecoveryEnds(a, RecoverImage(a, d, t), crashes[1..]);
    }
  }

  // ---- commit ----

  // A transaction commit() can be asked to write, on a disk whose log is clear.
  predicate TxOk(a: Area, d: Disk, hs: seq<word>, data: seq<Block>)
  {
    Empty(a, d) && ListOk(a, d, hs) && 0 < |hs| == |data|
  }

  // The disk after commit has made t of its 2n + 2 block writes: n log blocks,
  // the header, n home blocks, the header again.
  function CommitImage(a: Area, d: Disk, hs: seq<word>, data: seq<Block>, t: nat): (r: Disk)
    requires TxOk(a, d, hs, data) && t <= 2 * |hs| + 2
    ensures |r| == |d|
  {
    var n := |hs|;
    if t <= n then Fill(a, d, data, t) else
      var e := WriteHead(a, Fill(a, d, data, n), hs);
      if t <= 2 * n + 1 then Install(a, e, hs, t - n - 1) else WriteHead(a, Install(a, e, hs, n), [])
  }

  // The header write that switches the transaction on.
  function CommitPoint(hs: seq<word>): nat { |hs| + 1 }

  lemma BeforeCommitPoint(a: Area, d: Disk, hs: seq<word>, data: seq<Block>, t: nat)
    requires TxOk(a, d, hs, data) && t < CommitPoint(hs)
    ensures LogOk(a, CommitImage(a, d, hs, data, t))
    ensures SameHome(a, Recovered(a, CommitImage(a, d, hs, data, t)), d)
    ensures Empty(a, Recovered(a, CommitImage(a, d, hs, data, t)))
  {
    var e := CommitImage(a, d, hs, data, t);
    forall b | 0 <= b < |d| && (b == a.start || !a.Inside(b)) ensures e[b] == d[b] {
      FillAt(a, d, data, t, b);
    }
    WriteHeadEmpty(a, e);
  }

  // A list that is longer than its area has log blocks: write_log goes on past
  // the end of the area. A crash there, before any header is written, leaves the
  // home blocks alone if and only if those already held what was written.
  lemma WriteLogOverrun(a: Area, d: Disk, data: seq<Block>, t: nat)
    requires Empty(a, d) && t <= |data| && a.start + |data| < |d|
    ensures LogOk(a, Fill(a, d, data, t))
    ensures SameHome(a, Recovered(a, Fill(a, d, data, t)), d) <==>
            forall b: nat :: a.start + a.size <= b <= a.start + t ==> data[b - a.start - 1] == d[b]
  {
    var e := Fill(a, d, data, t);
    forall b: nat | b < |d|
      ensures e[b] == if a.start < b <= a.start + t then data[b - a.start - 1] else d[b]
    {
      FillAt(a, d, data, t, b);
    }
    WriteHeadEmpty(a, e);
    var r := Recovered(a, e);
    if SameHome(a, r, d) {
      forall b: nat | a.start + a.size <= b <= a.start + t ensures data[b - a.start - 1] == d[b] {
        assert r[b] == e[b] && r[b] == d[b];
      }
    }
  }

  // The image at the commit point: the header names the blocks, the log holds
  // their new contents, and no home block has moved.
  lemma CommittedImage(a: Area, d: Disk, hs: seq<word>, data: seq<Block>)
    requires TxOk(a, d, hs, data)
    ensures var e := CommitImage(a, d, hs, data, CommitPoint(hs));
            && LogOk(a, e) && HeaderList(e[a.start]) == hs && SameHome(a, d, e)
            && forall i :: 0 <= i < |hs| ==> e[a.start + 1 + i] == data[i]
  {
    var n := |hs|;
    var f := Fill(a, d, data, n);
    var e := WriteHead(a, f, hs);
    HeaderRoundTrip(f[a.start], hs);
    forall b | 0 <= b < |d| && !a.Inside(b) ensures e[b] == d[b] { FillAt(a, d, data, n, b); }
    forall i | 0 <= i < n ensures e[a.start + 1 + i] == data[i] { FillAt(a, d, data, n, a.start + 1 + i); }
    assert ListOk(a, e, hs);
  }

  lemma AtCommitPoint(a: Area, d: Disk, hs: seq<word>, data: seq<Block>)
    requires TxOk(a, d, hs, data)
    ensures var e := CommitImage(a, d, hs, data, CommitPoint(hs));
            LogOk(a, e) && HeaderList(e[a.start]) == hs && SameHome(a, Recovered(a, e), Apply(d, hs, data))
  {
    var e := CommitImage(a, d, hs, data, CommitPoint(hs));
    CommittedImage(a, d, hs, data);
    InstallAt(a, e, hs, |hs|);
    ApplyAt(d, hs, data);
    var x, y := Install(a, e, hs, |hs|), Apply(d, hs, data);
    forall b | 0 <= b < |d| && !a.Inside(b) ensures x[b] == y[b] {
      if b in hs { var i :| 0 <= i < |hs| && hs[i] == b; }
    }
  }

  // Crash atomicity. Whatever number of its block writes commit() gets to
  // make, recovery reaches the old home blocks or the whole transaction, never
  // a mixture; which of the two is decided by the one header write.
  lemma CrashAtomicity(a: Area, d: Disk, hs: seq<word>, data: seq<Block>, t: nat, crashes: seq<nat>)
    requires TxOk(a, d, hs, data) && t <= 2 * |hs| + 2
    ensures var e := CommitImage(a, d, hs, data, t);
            && LogOk(a, e)
            && Empty(a, CrashyRecovery(a, e, crashes))
            && SameHome(a, CrashyRecovery(a, e, crashes), if t < CommitPoint(hs) then d else Apply(d, hs, data))
  {
    var e := CommitImage(a, d, hs, data, t);
    if t < CommitPoint(hs) {
      BeforeCommitPoint(a, d, hs, data, t);
    } else {
      var c := CommitImage(a, d, hs, data, CommitPoint(hs));
      AtCommitPoint(a, d, hs, data);
      assert e == RecoverImage(a, c, t - CommitPoint(hs));
      RecoverIdempotent(a, c, t - CommitPoint(hs));
      WriteHeadEmpty(a, Install(a, c, hs, |hs|));
    }
    CrashyRecoveryEnds(a, e, crashes);
  }

  // ---- the images in the order they appear on the disk ----

  function FillTrace(a: Area, d: Disk, data: seq<Block>): seq<Disk>
    requires |data| < a.size && a.start + a.size <= |d|
  {
    seq(|data|, t requires 0 <= t < |data| => Fill(a, d, data, t + 1))
  }

  function InstallTrace(a: Area, d: Disk, hs: seq<word>): seq<Disk>
    requires ListOk(a, d, hs)
  {
    seq(|hs|, t requires 0 <= t < |hs| => Install(a, d, hs, t + 1))
  }

  function RecoverTrace(a: Area, d: Disk): seq<Disk>
    requires LogOk(a, d)
  {
    seq(HeaderN(d[a.start]) + 1, t requires 0 <= t < HeaderN(d[a.start]) + 1 => RecoverImage(a, d, t + 1))
  }

  function CommitTrace(a: Area, d: Disk, hs: seq<word>, data: seq<Block>): seq<Disk>
    requires TxOk(a, d, hs, data)
  {
    seq(2 * |hs| + 2, t requires 0 <= t < 2 * |hs| + 2 => CommitImage(a, d, hs, data, t + 1))
  }

  lemma CommitTraceParts(a: Area, d: Disk, hs: seq<word>, data: seq<Block>)
    requires TxOk(a, d, hs, data)
    ensures var e := WriteHead(a, Fill(a, d, data, |hs|), hs);
            CommitTrace(a, d, hs, data)
            == FillTrace(a, d, data) + [e] + InstallTrace(a, e, hs) + [WriteHead(a, Install(a, e, hs, |hs|), [])]
  {
    hide *;
    TxParts(a, d, hs, data);
    var n, e := |hs|, WriteHead(a, Fill(a, d, data, |hs|), hs);
    var last := WriteHead(a, Install(a, e, hs, n), []);
    var trace, fill, install := CommitTrace(a, d, hs, data), FillTrace(a, d, data), InstallTrace(a, e, hs);
    TraceSizes(a, d, hs, data, e);
    forall t: nat | t < 2 * n + 2
      ensures trace[t] == if t < n then fill[t] else if t == n then e else if t <= 2 * n then install[t - n - 1]
                          else last
    {
      TraceEntry(a, d, hs, data, e, last, t);
    }
    Pieces(trace, fill, e, install, last);
  }

  lemma TraceEntry(a: Area, d: Disk, hs: seq<word>, data: seq<Block>, e: Disk, last: Disk, t: nat)
    requires TxOk(a, d, hs, data) && t < 2 * |hs| + 2 && |hs| == |data| < a.size && a.start + a.size <= |d|
    requires e == WriteHead(a, Fill(a, d, data, |hs|), hs) && ListOk(a, e, hs)
    requires last == WriteHead(a, Install(a, e, hs, |hs|), [])
    ensures |CommitTrace(a, d, hs, data)| == 2 * |hs| + 2
    ensures |FillTrace(a, d, data)| == |hs| && |InstallTrace(a, e, hs)| == |hs|
    ensures CommitTrace(a, d, hs, data)[t] ==
      if t < |hs| then FillTrace(a, d, data)[t]
      else if t == |hs| then e
      else if t <= 2 * |hs| then InstallTrace(a, e, hs)[t - |hs| - 1]
      else last
  {
    hide *;
    TraceSizes(a, d, hs, data, e);
    CommitTraceAt(a, d, hs, data, t);
    CommitImageAt(a, d, hs, data, e, last, t + 1);
    if t < |hs| { FillTraceAt(a, d, data, t); }
    if |hs| < t <= 2 * |hs| { InstallTraceAt(a, e, hs, t - |hs| - 1); }
  }

  lemma TraceSizes(a: Area, d: Disk, hs: seq<word>, data: seq<Block>, e: Disk)
    requires TxOk(a, d, hs, data) && ListOk(a, e, hs)
    ensures |CommitTrace(a, d, hs, data)| == 2 * |hs| + 2
    ensures |FillTrace(a, d, data)| == |data| && |InstallTrace(a, e, hs)| == |hs|
  {
  }

  lemma CommitTraceAt(a: Area, d: Disk, hs: seq<word>, data: seq<Block>, t: nat)
    requires TxOk(a, d, hs, data) && t < 2 * |hs| + 2
    ensures |CommitTrace(a, d, hs, data)| == 2 * |hs| + 2
    ensures CommitTrace(a, d, hs, data)[t] == CommitImage(a, d, hs, data, t + 1)
  {
    hide CommitImage;
  }

  lemma FillTraceAt(a: Area, d: Disk, data: seq<Block>, t: nat)
    requires t < |data| < a.size && a.start + a.size <= |d|
    ensures |FillTrace(a, d, data)| == |data| && FillTrace(a, d, data)[t] == Fill(a, d, data, t + 1)
  {
    hide Fill;
  }

  lemma InstallTraceAt(a: Area, d: Disk, hs: seq<word>, t: nat)
    requires ListOk(a, d, hs) && t < |hs|
    ensures |InstallTrace(a, d, hs)| == |hs| && InstallTrace(a, d, hs)[t] == Install(a, d, hs, t + 1)
  {
    hide Install;
  }

  lemma Pieces(trace: seq<Disk>, fill: seq<Disk>, e: Disk, install: seq<Disk>, last: Disk)
    requires |trace| == |fill| + |install| + 2
    requires forall t: nat :: t < |trace| ==>
      trace[t] == if t < |fill| then fill[t] else if t == |fill| then e
                  else if t <= |fill| + |install| then install[t - |fill| - 1] else last
    ensures trace == fill + [e] + install + [last]
  {
  }

  lemma TxParts(a: Area, d: Disk, hs: seq<word>, data: seq<Block>)
    requires TxOk(a, d, hs, data)
    ensures |hs| == |data| < a.size && a.start + a.size <= |d| && ListOk(a, d, hs) && |hs| <= LOGSIZE
    ensures ListOk(a, WriteHead(a, Fill(a, d, data, |hs|), hs), hs)
  {
  }

  lemma CommitImageAt(a: Area, d: Disk, hs: seq<word>, data: seq<Block>, e: Disk, last: Disk, t: nat)
    requires TxOk(a, d, hs, data) && t <= 2 * |hs| + 2
    requires e == WriteHead(a, Fill(a, d, data, |hs|), hs) && last == WriteHead(a, Install(a, e, hs, |hs|), [])
    ensures var n := |hs|;
      CommitImage(a, d, hs, data, t) ==
        if t <= n then Fill(a, d, data, t)
        else if t == n + 1 then e
        else if t <= 2 * n + 1 then Install(a, e, hs, t - n - 1)
        else last
  {
    hide Fill, WriteHead;
  }

  lemma RecoverTraceParts(a: Area, d: Disk)
    requires LogOk(a, d)
    ensures var hs := HeaderList(d[a.start]);
            RecoverTrace(a, d) == InstallTrace(a, d, hs) + [WriteHead(a, Install(a, d, hs, |hs|), [])]
  {
  }

  // ---- whole runs ----

  /** One transaction of a run: commit gets to make `writes` block writes. If
      that is not all of them the machine goes down there, and recovery itself
      goes down at each of `crashes` before it completes. */
  datatype Episode = Episode(hs: seq<word>, data: seq<Block>, writes: nat, crashes: seq<nat>)

  predicate EpisodeOk(a: Area, size: nat, e: Episode)
  {
    && 0 < |e.hs| == |e.data| && |e.hs| <= LOGSIZE && |e.hs| < a.size && a.start + a.size <= size
    && Distinct(e.hs) && forall i :: 0 <= i < |e.hs| ==> e.hs[i] < size && !a.Inside(e.hs[i])
  }

  predicate EpisodesOk(a: Area, size: nat, es: seq<Episode>)
  {
    forall i :: 0 <= i < |es| ==> EpisodeOk(a, size, es[i])
  }

  function RunEpisode(a: Area, d: Disk, e: Episode): (r: Disk)
    requires Empty(a, d) && EpisodeOk(a, |d|, e)
    ensures |r| == |d| && Empty(a, r)
  {
    var n := |e.hs|;
    var t := if e.writes <= 2 * n + 2 then e.writes else 2 * n + 2;
    CrashAtomicity(a, d, e.hs, e.data, t, e.crashes);
    CrashAtomicity(a, d, e.hs, e.data, t, []);
    if t < 2 * n + 2 then CrashyRecovery(a, CommitImage(a, d, e.hs, e.data, t), e.crashes)
    else CompleteCommit(a, d, e.hs, e.data); CommitImage(a, d, e.hs, e.data, t)
  }

  lemma CompleteCommit(a: Area, d: Disk, hs: seq<word>, data: seq<Block>)
    requires TxOk(a, d, hs, data)
    ensures var e := CommitImage(a, d, hs, data, 2 * |hs| + 2);
            Empty(a, e) && SameHome(a, e, Apply(d, hs, data))
  {
    var c := CommitImage(a, d, hs, data, CommitPoint(hs));
    AtCommitPoint(a, d, hs, data);
    assert CommitImage(a, d, hs, data, 2 * |hs| + 2) == Recovered(a, c);
    WriteHeadEmpty(a, Install(a, c, hs, |hs|));
  }

  function Run(a: Area, d: Disk, es: seq<Episode>): (r: Disk)
    requires Empty(a, d) && EpisodesOk(a, |d|, es)
    ensures |r| == |d| && Empty(a, r)
    decreases |es|
  {
    if es == [] then d else Run(a, RunEpisode(a, d, es[0]), es[1..])
  }

  // The ideal disk: transactions that reached their commit point, in order.
  function IdealStep(a: Area, d: Disk, e: Episode): (r: Disk)
    requires EpisodeOk(a, |d|, e)
    ensures |r| == |d|
  {
    if e.writes < CommitPoint(e.hs) then d else Apply(d, e.hs, e.data)
  }

  function Ideal(a: Area, d: Disk, es: seq<Episode>): (r: Disk)
    requires EpisodesOk(a, |d|, es)
    ensures |r| == |d|
    decreases |es|
  {
    if es == [] then d else Ideal(a, IdealStep(a, d, es[0]), es[1..])
  }

  lemma ApplySame(a: Area, d: Disk, ideal: Disk, hs: seq<word>, data: seq<Block>)
    requires SameHome(a, d, ideal) && ListOk(a, d, hs) && |hs| == |data|
    ensures SameHome(a, Apply(d, hs, data), Apply(ideal, hs, data))
  {
    ApplyAt(d, hs, data);
    ApplyAt(ideal, hs, data);
    forall b | 0 <= b < |d| && !a.Inside(b) ensures Apply(d, hs, data)[b] == Apply(ideal, hs, data)[b] {
      if b in hs { var i :| 0 <= i < |hs| && hs[i] == b; }
    }
  }

  lemma EpisodeStep(a: Area, d: Disk, ideal: Disk, e: Episode)
    requires Empty(a, d) && SameHome(a, d, ideal) && EpisodeOk(a, |d|, e)
    ensures SameHome(a, RunEpisode(a, d, e), IdealStep(a, ideal, e))
  {
    var n := |e.hs|;
    var t := if e.writes <= 2 * n + 2 then e.writes else 2 * n + 2;
    CrashAtomicity(a, d, e.hs, e.data, t, e.crashes);
    CompleteCommit(a, d, e.hs, e.data);
    ApplySame(a, d, ideal, e.hs, e.data);
  }

  // Over every run of transactions and crashes the home blocks are those of
  // the committed transactions applied whole, in order, and the log is clear.
  lemma {:induction false} DurableRun(a: Area, d: Disk, ideal: Disk, es: seq<Episode>)
    requires Empty(a, d) && SameHome(a, d, ideal) && EpisodesOk(a, |d|, es)
    ensures Empty(a, Run(a, d, es)) && SameHome(a, Run(a, d, es), Ideal(a, ideal, es))
    decreases |es|
  {
    if es != [] {
      EpisodeStep(a, d, ideal, es[0]);
      DurableRun(a, RunEpisode(a, d, es[0]), IdealStep(a, ideal, es[0]), es[1..]);
    }
  }
}
