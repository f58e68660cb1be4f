/** Calls on a pipe. */
module PipeCalls {
  // What pipewrite, piperead and pipeclose come to, each from its call to its
  // return, over every run of readers and writers.

  import opened Blocks
  import opened Monitor
  import opened PipeRing
  import opened PipeRuns

  // ---- one step of one process ----

  // Where a process goes from pc, and what it does to the streams.
  ghost predicate Goes(s: Sys, s': Sys, i: nat)
    requires |s.r.data| == PIPESIZE && i < |s.pcs| && i < |s'.pcs|
  {
    var put, got, pc := s'.written != s.written, s'.read != s.read, s'.pcs[i];
    match s.pcs[i]
    case Away => !put && !got && ((pc.Writing? && pc.i == 0) || pc.Reading? || pc.Closing?)
    case Writing(src, k) =>
      && !got
      && match pc {
        case Writing(src', k') =>
          src' == src && k' == k + 1 <= |src| && s'.written == s.written + [src[k]] && !Full(s.r)
        case Filled(src', k') => src' == src && k' == k < |src| && !put && Full(s.r) && s.r.readopen && i !in s.killed
        case WriteDone => !put && k >= |src|
        case Away => !put && k < |src| && Full(s.r) && (!s.r.readopen || i in s.killed)
        case _ => false
      }
    case Filled(src, k) => !put && !got && pc == Writing(src, k)
    case WriteDone => !put && !got && pc.Away?
    case Reading(n) =>
      && !put && !got
      && ((pc == Copying(n, 0) && !(Empty(s'.r) && s'.r.writeopen))
          || (pc.Away? && i in s.killed && Empty(s.r) && s.r.writeopen))
    case Copying(n, k) =>
      && !put
      && ((pc == Copying(n, k + 1) && k < n && !Empty(s.r) && s'.read == s.read + [Get(s.r)])
          || (pc.ReadDone? && !got && (k >= n || Empty(s.r))))
    case ReadDone => !put && !got && pc.Away?
    case Closing(w) => !put && !got && pc == Closed(w) && if w then !s'.r.writeopen else !s'.r.readopen
    case Closed(w) => !put && !got && pc.Away?
  }

  // Process i moves; or it stays where it is, and then nobody touches the pipe
  // while i holds its lock. No end opens again.
  ghost predicate Moves(s: Sys, s': Sys, i: nat)
  {
    && |s.pcs| == |s.m.ps| && |s'.pcs| == |s.pcs| && |s.r.data| == PIPESIZE
    && (s'.r.writeopen ==> s.r.writeopen) && (s'.r.readopen ==> s.r.readopen) && s.killed <= s'.killed
    && (i < |s.pcs| && s'.pcs[i] != s.pcs[i] ==> Goes(s, s', i))
    && (i < |s.pcs| && s'.pcs[i] == s.pcs[i] && s.pcs[i].Copying? ==> s'.r == s.r && s'.read == s.read)
  }

  lemma StepMoves(s: Sys, s': Sys, a: nat, i: nat)
    requires SysInv(s) && Step(s, s', a)
    ensures Moves(s, s', i)
  {
    hide Waits, Goes;
    Parts(s, a);
    Parts(s, i);
    if i < |s.pcs| && s.pcs[i].Copying? && a != i && a < |s.pcs| && s.m.ps[a].In? { Exclusive(s.m, a, i); }
    if a == i { OwnMove(s, s', i); }
    hide SysInv, Inv;
    if WriteStep(s, s', a) {
    } else if ReadStep(s, s', a) {
    } else if AfterWake(s, s', a) {
    } else if CloseStep(s, s', a) || CloseWake(s, s', a) {
    } else if LockStep(s, s', a) {
    } else if KillStep(s, s', a) {
    } else {
      var pc :| Call(s, s', a, pc);
    }
  }

  lemma Parts(s: Sys, i: nat)
    requires SysInv(s)
    ensures |s.pcs| == |s.m.ps| && Inv(s.m) && PcOk(s, i) && |s.r.data| == PIPESIZE
    ensures i < |s.pcs| && s.pcs[i].Copying? ==> s.m.ps[i].In?
  {
  }

  lemma OwnMove(s: Sys, s': Sys, i: nat)
    requires |s.pcs| == |s.m.ps| && |s.r.data| == PIPESIZE && Step(s, s', i)
    ensures |s'.pcs| == |s.pcs|
    ensures i < |s.pcs| && s'.pcs[i] != s.pcs[i] ==> Goes(s, s', i)
    ensures i < |s.pcs| && s'.pcs[i] == s.pcs[i] && s.pcs[i].Copying? ==> s'.r == s.r && s'.read == s.read
  {
    hide Waits;
    if WriteStep(s, s', i) {
    } else if ReadStep(s, s', i) {
    } else if AfterWake(s, s', i) {
    } else if CloseStep(s, s', i) || CloseWake(s, s', i) {
    } else if LockStep(s, s', i) {
    } else if KillStep(s, s', i) {
    } else {
      var pc :| Call(s, s', i, pc);
    }
  }

  lemma RunMoves(run: seq<Sys>, n: nat, data: seq<byte>, k: nat, i: nat)
    requires Run(run, n, data) && k + 1 < |run|
    ensures Moves(run[k], run[k + 1], i)
  {
    hide Run, SysInv, Moves, Step;
    RunInv(run, n, data, k);
    var a := StepFrom(run, n, data, k);
    StepMoves(run[k], run[k + 1], a, i);
  }

  lemma StepFrom(run: seq<Sys>, n: nat, data: seq<byte>, k: nat) returns (a: nat)
    requires Run(run, n, data) && k + 1 < |run|
    ensures Step(run[k], run[k + 1], a)
  {
    assert SomeStep(run[k], run[k + 1]);
    a :| Step(run[k], run[k + 1], a);
  }

  // ---- what one process has put in and taken out ----

  ghost predicate MovedAt(run: seq<Sys>, i: nat, k: nat)
  {
    k + 1 < |run| && i < |run[k].pcs| && i < |run[k + 1].pcs| && run[k + 1].pcs[i] != run[k].pcs[i]
  }

  // What came to a stream in the steps m .. k - 1 of process i.
  ghost function Given(run: seq<Sys>, i: nat, m: nat, k: nat): seq<byte>
    requires m <= k < |run|
  {
    if m == k then []
    else
      var a, b := run[k - 1].written, run[k].written;
      Given(run, i, m, k - 1) + if MovedAt(run, i, k - 1) && |a| <= |b| then b[|a|..] else []
  }

  ghost function Taken(run: seq<Sys>, i: nat, m: nat, k: nat): seq<byte>
    requires m <= k < |run|
  {
    if m == k then []
    else
      var a, b := run[k - 1].read, run[k].read;
      Taken(run, i, m, k - 1) + if MovedAt(run, i, k - 1) && |a| <= |b| then b[|a|..] else []
  }

  // From step m to step k process i is in one call, which began with pc.
  ghost predicate InCall(run: seq<Sys>, i: nat, m: nat, k: nat, pc: Pc)
  {
    && m < k < |run| && (forall j: nat :: m <= j <= k ==> i < |run[j].pcs|)
    && run[m].pcs[i].Away? && run[m + 1].pcs[i] == pc
    && forall j: nat :: m < j < k ==> !run[j].pcs[i].Away?
  }

  lemma InCallBefore(run: seq<Sys>, i: nat, m: nat, k: nat, pc: Pc)
    requires InCall(run, i, m, k, pc) && m + 1 < k
    ensures InCall(run, i, m, k - 1, pc) && !run[k - 1].pcs[i].Away?
  {
  }

  // ---- pipewrite ----

  // So much of src is in the pipe.
  ghost predicate Midwrite(pc: Pc, src: seq<byte>, given: seq<byte>)
  {
    match pc
    case Writing(src', k) => src' == src && k <= |src| && given == src[..k]
    case Filled(src', k) => src' == src && k <= |src| && given == src[..k]
    case WriteDone => given == src
    case _ => false
  }

  lemma {:induction false} WriteSoFar(run: seq<Sys>, n: nat, data: seq<byte>, i: nat, src: seq<byte>, m: nat, k: nat)
    requires Run(run, n, data) && InCall(run, i, m, k, Writing(src, 0)) && !run[k].pcs[i].Away?
    ensures Midwrite(run[k].pcs[i], src, Given(run, i, m, k))
    decreases k
  {
    hide Run, Full, Empty;
    RunMoves(run, n, data, k - 1, i);
    if k == m + 1 {
      assert Given(run, i, m, m) == [];
    } else {
      InCallBefore(run, i, m, k, Writing(src, 0));
      WriteSoFar(run, n, data, i, src, m, k - 1);
      WriteMore(run, i, src, m, k);
    }
  }

  lemma WriteMore(run: seq<Sys>, i: nat, src: seq<byte>, m: nat, k: nat)
    requires m < k < |run| && Moves(run[k - 1], run[k], i) && i < |run[k].pcs| && i < |run[k - 1].pcs|
    requires Midwrite(run[k - 1].pcs[i], src, Given(run, i, m, k - 1))
    ensures !run[k].pcs[i].Away? ==> Midwrite(run[k].pcs[i], src, Given(run, i, m, k))
    ensures run[k].pcs[i].Away? ==> Given(run, i, m, k) == Given(run, i, m, k - 1)
  {
    var s, s', given := run[k - 1], run[k], Given(run, i, m, k - 1);
    if MovedAt(run, i, k - 1) {
      if s.pcs[i].Writing? && s'.pcs[i].Writing? {
        assert s'.written[|s.written|..] == [src[s.pcs[i].i]];
        assert src[..s.pcs[i].i + 1] == src[..s.pcs[i].i] + [src[s.pcs[i].i]];
      } else {
        assert s'.written[|s.written|..] == [] && given + [] == given;
      }
    } else {
      assert given + [] == given;
    }
  }

  // A call of pipewrite puts in the bytes of src, in order; all of them, unless
  // it ends at a full pipe that nobody can read any more or because the process
  // was killed.
  lemma WriteEnds(run: seq<Sys>, n: nat, data: seq<byte>, i: nat, src: seq<byte>, m: nat, k: nat)
    requires Run(run, n, data) && InCall(run, i, m, k, Writing(src, 0)) && run[k].pcs[i].Away?
    ensures Given(run, i, m, k) <= src
    ensures Given(run, i, m, k) == src
            || (|run[k - 1].written| == |run[k - 1].read| + PIPESIZE
                && (!run[k - 1].r.readopen || i in run[k - 1].killed))
  {
    hide Run, Full, Empty;
    InCallBefore(run, i, m, k, Writing(src, 0));
    RunMoves(run, n, data, k - 1, i);
    WriteSoFar(run, n, data, i, src, m, k - 1);
    WriteMore(run, i, src, m, k);
    RingIs(run, n, data, k - 1);
  }

  lemma RingIs(run: seq<Sys>, n: nat, data: seq<byte>, k: nat)
    requires Run(run, n, data) && k < |run|
    ensures var s := run[k];
      && |s.r.data| == PIPESIZE && s.read <= s.written && Fifo(s.r, s.written, s.read)
      && (Full(s.r) <==> |s.written| == |s.read| + PIPESIZE) && (Empty(s.r) <==> s.written == s.read)
  {
    hide Run;
    RunInv(run, n, data, k);
    Counters(run[k].r, run[k].written, run[k].read);
  }

  // ---- piperead ----

  // The last |taken| bytes of the stream as far as it has been read.
  predicate IsEnd(read: seq<byte>, taken: seq<byte>) { |taken| <= |read| && read[|read| - |taken|..] == taken }

  // The copying ended here: what was taken are the last bytes of the stream so
  // far, as many as were asked for or all there were; none only at the end of
  // the stream.
  ghost predicate Stopped(s: Sys, n: nat, taken: seq<byte>)
  {
    && IsEnd(s.read, taken) && |taken| <= n && (|taken| < n ==> s.written == s.read)
    && (taken == [] && 0 < n ==> !s.r.writeopen)
  }

  ghost predicate StoppedBefore(run: seq<Sys>, m: nat, k: nat, n: nat, taken: seq<byte>)
  {
    exists j: nat :: m < j < k && j < |run| && Stopped(run[j], n, taken)
  }

  ghost predicate Midread(run: seq<Sys>, i: nat, m: nat, k: nat, n: nat, taken: seq<byte>)
    requires k < |run| && i < |run[k].pcs|
  {
    match run[k].pcs[i]
    case Reading(n') => n' == n && taken == []
    case Copying(n', c) =>
      && n' == n && |taken| == c <= n && IsEnd(run[k].read, taken)
      && (c == 0 ==> !(run[k].written == run[k].read && run[k].r.writeopen))
    case ReadDone => StoppedBefore(run, m, k, n, taken)
    case _ => false
  }

  lemma {:induction false} ReadSoFar(run: seq<Sys>, n: nat, data: seq<byte>, i: nat, c: nat, m: nat, k: nat)
    requires Run(run, n, data) && InCall(run, i, m, k, Reading(c)) && !run[k].pcs[i].Away?
    ensures Midread(run, i, m, k, c, Taken(run, i, m, k))
    decreases k
  {
    hide Run, Full, Empty, Fifo;
    RunMoves(run, n, data, k - 1, i);
    RingIs(run, n, data, k - 1);
    RingIs(run, n, data, k);
    if k == m + 1 {
      assert Taken(run, i, m, m) == [];
    } else {
      InCallBefore(run, i, m, k, Reading(c));
      ReadSoFar(run, n, data, i, c, m, k - 1);
      ReadMore(run, i, c, m, k);
    }
  }

  lemma ReadMore(run: seq<Sys>, i: nat, c: nat, m: nat, k: nat)
    requires m + 1 < k < |run| && Moves(run[k - 1], run[k], i) && i < |run[k].pcs| && i < |run[k - 1].pcs|
    requires Empty(run[k - 1].r) <==> run[k - 1].written == run[k - 1].read
    requires Empty(run[k].r) <==> run[k].written == run[k].read
    requires Midread(run, i, m, k - 1, c, Taken(run, i, m, k - 1))
    ensures !run[k].pcs[i].Away? ==> Midread(run, i, m, k, c, Taken(run, i, m, k))
    ensures run[k].pcs[i].Away? ==> Taken(run, i, m, k) == Taken(run, i, m, k - 1)
  {
    hide Empty, Full;
    var s, s', taken := run[k - 1], run[k], Taken(run, i, m, k - 1);
    assert taken + [] == taken;
    if !MovedAt(run, i, k - 1) {
      if s.pcs[i].ReadDone? { StoppedLater(run, m, k, c, taken); }
    } else if s.pcs[i].Copying? && s'.pcs[i].Copying? {
      OneByte(run, i, c, m, k);
    } else {
      assert Goes(s, s', i) && s'.read[|s.read|..] == [];
      if s.pcs[i].Copying? {
        hide Moves;
        assert Stopped(s, c, taken);
      }
    }
  }

  lemma StoppedLater(run: seq<Sys>, m: nat, k: nat, n: nat, taken: seq<byte>)
    requires 0 < k && StoppedBefore(run, m, k - 1, n, taken)
    ensures StoppedBefore(run, m, k, n, taken)
  {
  }

  lemma OneByte(run: seq<Sys>, i: nat, c: nat, m: nat, k: nat)
    requires m + 1 < k < |run| && Moves(run[k - 1], run[k], i) && MovedAt(run, i, k - 1)
    requires run[k - 1].pcs[i].Copying? && run[k].pcs[i].Copying?
    requires Midread(run, i, m, k - 1, c, Taken(run, i, m, k - 1))
    ensures Midread(run, i, m, k, c, Taken(run, i, m, k))
  {
    hide Empty, Full, Get, IsEnd;
    var s, s', taken := run[k - 1], run[k], Taken(run, i, m, k - 1);
    assert Goes(s, s', i) && s'.read[|s.read|..] == [Get(s.r)];
    EndMore(s.read, taken, Get(s.r));
  }

  lemma EndMore(read: seq<byte>, taken: seq<byte>, b: byte)
    requires IsEnd(read, taken)
    ensures IsEnd(read + [b], taken + [b])
  {
    var r := read + [b];
    assert r[|r| - |taken| - 1..] == read[|read| - |taken|..] + [b];
  }

  // A call of piperead takes consecutive bytes of the stream: as many as were
  // asked for, or all there were at the time; none at all only at the end of
  // the stream, when nobody can write any more, or because the process was
  // killed.
  lemma ReadEnds(run: seq<Sys>, n: nat, data: seq<byte>, i: nat, c: nat, m: nat, k: nat)
    requires Run(run, n, data) && InCall(run, i, m, k, Reading(c)) && run[k].pcs[i].Away?
    ensures var taken := Taken(run, i, m, k);
      || (taken == [] && i in run[k - 1].killed && run[k - 1].written == run[k - 1].read)
      || StoppedBefore(run, m, k, c, taken)
  {
    hide Run, Full, Empty, Fifo, Stopped, StoppedBefore;
    InCallBefore(run, i, m, k, Reading(c));
    RunMoves(run, n, data, k - 1, i);
    RingIs(run, n, data, k - 1);
    RingIs(run, n, data, k);
    ReadSoFar(run, n, data, i, c, m, k - 1);
    ReadMore(run, i, c, m, k);
    if run[k - 1].pcs[i].ReadDone? { StoppedLater(run, m, k, c, Taken(run, i, m, k - 1)); }
  }

  // ---- pipeclose ----

  // Once a call of pipeclose is over, its end stays closed.
  lemma {:induction false} CloseSoFar(run: seq<Sys>, n: nat, data: seq<byte>, i: nat, w: bool, m: nat, k: nat)
    requires Run(run, n, data) && InCall(run, i, m, k, Closing(w)) && run[k].pcs[i] != Closing(w)
    ensures if w then !run[k].r.writeopen else !run[k].r.readopen
    ensures run[k].pcs[i].Away? || run[k].pcs[i] == Closed(w)
    decreases k
  {
    hide Run, Full, Empty;
    RunMoves(run, n, data, k - 1, i);
    if m + 1 < k {
      InCallBefore(run, i, m, k, Closing(w));
      assert run[k - 1].pcs[i] == Closing(w) && run[k].pcs[i] != Closing(w) ==> Goes(run[k - 1], run[k], i);
      if run[k - 1].pcs[i] != Closing(w) { CloseSoFar(run, n, data, i, w, m, k - 1); }
    }
  }

  lemma {:induction false} CloseEnds(run: seq<Sys>, n: nat, data: seq<byte>, i: nat, w: bool, m: nat, k: nat, j: nat)
    requires Run(run, n, data) && InCall(run, i, m, k, Closing(w)) && run[k].pcs[i].Away? && k <= j < |run|
    ensures if w then !run[j].r.writeopen else !run[j].r.readopen
    decreases j
  {
    hide Run, Moves, InCall;
    if j == k {
      CloseSoFar(run, n, data, i, w, m, k);
    } else {
      CloseEnds(run, n, data, i, w, m, k, j - 1);
      NeverOpened(run, n, data, j - 1);
    }
  }

  lemma NeverOpened(run: seq<Sys>, n: nat, data: seq<byte>, k: nat)
    requires Run(run, n, data) && k + 1 < |run|
    ensures run[k + 1].r.writeopen ==> run[k].r.writeopen
    ensures run[k + 1].r.readopen ==> run[k].r.readopen
  {
    hide Run;
    RunMoves(run, n, data, k, 0);
  }
}
