/** Who may write how much to the log. */
module LogReservation {
  // Over every interleaving of file system calls. begin_op, end_op and the end
  // of log_write are critical sections of log.lock, one step each; the two
  // tests at the head of log_write are made without the lock, and are steps of
  // their own; the commit runs without the lock, from the last End to Commit.

  import opened Params

  /** The fields of struct log that begin_op, log_write and end_op touch. */
  datatype LogState = LogState(size: nat, outstanding: int, committing: bool, lh: seq<nat>)

  // ---- what the steps do to the log ----

  predicate Admits(s: LogState)
  {
    !s.committing && |s.lh| + (s.outstanding + 1) * MAXOPBLOCKS <= LOGSIZE
  }

  function Begun(s: LogState): LogState { s.(outstanding := s.outstanding + 1) }

  // log_write's first panic, its two operands, and its second panic.
  predicate Full(s: LogState) { |s.lh| >= LOGSIZE }
  predicate AtEnd(s: LogState) { |s.lh| >= s.size - 1 }
  predicate OutsideTrans(s: LogState) { s.outstanding < 1 }

  function Written(s: LogState, b: nat): LogState
  {
    if b in s.lh then s else s.(lh := s.lh + [b])
  }

  function Ended(s: LogState): LogState
  {
    s.(outstanding := s.outstanding - 1, committing := s.outstanding == 1)
  }

  function Committed(s: LogState): LogState { s.(committing := false, lh := []) }

  // ---- runs ----

  /** Where a call is: not in log_write; in it with block b, before the test
      against log.size; or past all tests. */
  datatype Stage = Idle | Entered(b: nat) | Cleared(b: nat)

  /** A call inside a transaction, and how many blocks it has added. */
  datatype Op = Op(added: nat, stage: Stage)

  /** The log and the calls in progress. No call adds more than `budget`. */
  datatype World = World(log: LogState, ops: seq<Op>, budget: nat)

  datatype Event = Begin | Enter(op: nat, b: nat) | Clear(op: nat) | Put(op: nat) | End(op: nat) | Commit

  // The block is logged already or the call may add another.
  predicate Within(w: World, op: nat, b: nat)
  {
    op < |w.ops| && (b in w.log.lh || w.ops[op].added < w.budget)
  }

  // What the code lets happen; a call that sleeps or panics takes no step.
  predicate Enabled(w: World, e: Event)
  {
    match e
    case Begin => Admits(w.log)
    case Enter(op, b) => Within(w, op, b) && w.ops[op].stage.Idle? && !Full(w.log)
    case Clear(op) => op < |w.ops| && w.ops[op].stage.Entered? && !AtEnd(w.log) && !OutsideTrans(w.log)
    case Put(op) => op < |w.ops| && w.ops[op].stage.Cleared?
    case End(op) => op < |w.ops| && w.ops[op].stage.Idle?
    case Commit => w.log.committing
  }

  function Next(w: World, e: Event): World
    requires Enabled(w, e)
  {
    match e
    case Begin => w.(log := Begun(w.log), ops := w.ops + [Op(0, Idle)])
    case Enter(op, b) => w.(ops := w.ops[op := w.ops[op].(stage := Entered(b))])
    case Clear(op) => w.(ops := w.ops[op := w.ops[op].(stage := Cleared(w.ops[op].stage.b))])
    case Put(op) =>
      var o := w.ops[op];
      w.(log := Written(w.log, o.stage.b),
         ops := w.ops[op := Op(if o.stage.b in w.log.lh then o.added else o.added + 1, Idle)])
    case End(op) => w.(log := Ended(w.log), ops := w.ops[..op] + w.ops[op + 1..])
    case Commit => w.(log := Committed(w.log))
  }

  function Boot(size: nat, budget: nat): World { World(LogState(size, 0, false, []), [], budget) }

  predicate IsRun(w: World, es: seq<Event>)
    decreases |es|
  {
    es == [] || (Enabled(w, es[0]) && IsRun(Next(w, es[0]), es[1..]))
  }

  function After(w: World, es: seq<Event>): World
    requires IsRun(w, es)
    decreases |es|
  {
    if es == [] then w else After(Next(w, es[0]), es[1..])
  }

  // ---- sums over the calls ----

  // Blocks the calls in progress may still add, when each may add `share`.
  function Unspent(ops: seq<Op>, share: nat): int
  {
    if ops == [] then 0 else share - ops[0].added + Unspent(ops[1..], share)
  }

  // Calls past the first test, and calls past both.
  function Inside(ops: seq<Op>): nat
  {
    if ops == [] then 0 else (if ops[0].stage.Idle? then 0 else 1) + Inside(ops[1..])
  }

  function Passed(ops: seq<Op>): nat
  {
    if ops == [] then 0 else (if ops[0].stage.Cleared? then 1 else 0) + Passed(ops[1..])
  }

  lemma {:induction false} SumSplit(a: seq<Op>, b: seq<Op>, share: nat)
    ensures Unspent(a + b, share) == Unspent(a, share) + Unspent(b, share)
    ensures Inside(a + b) == Inside(a) + Inside(b) && Passed(a + b) == Passed(a) + Passed(b)
    decreases |a|
  {
    if a == [] {
      assert a + b == b;
    } else {
      assert (a + b)[0] == a[0] && (a + b)[1..] == a[1..] + b;
      SumSplit(a[1..], b, share);
    }
  }

  lemma SumOne(o: Op, share: nat)
    ensures Unspent([o], share) == share - o.added
    ensures Inside([o]) == (if o.stage.Idle? then 0 else 1) && Passed([o]) == if o.stage.Cleared? then 1 else 0
  {
    assert [o][1..] == [];
  }

  lemma SumAt(ops: seq<Op>, i: nat, share: nat)
    requires i < |ops|
    ensures Unspent(ops, share) == Unspent(ops[..i], share) + (share - ops[i].added) + Unspent(ops[i + 1..], share)
    ensures Inside(ops) == Inside(ops[..i]) + (if ops[i].stage.Idle? then 0 else 1) + Inside(ops[i + 1..])
    ensures Passed(ops) == Passed(ops[..i]) + (if ops[i].stage.Cleared? then 1 else 0) + Passed(ops[i + 1..])
  {
    hide Unspent, Inside, Passed;
    assert ops == ops[..i] + ([ops[i]] + ops[i + 1..]);
    SumSplit(ops[..i], [ops[i]] + ops[i + 1..], share);
    SumSplit([ops[i]], ops[i + 1..], share);
    SumOne(ops[i], share);
  }

  lemma {:induction false} SumBounds(ops: seq<Op>, share: nat)
    ensures Unspent(ops, share) <= |ops| * share && Passed(ops) <= Inside(ops) <= |ops|
    ensures (forall i :: 0 <= i < |ops| ==> ops[i].added <= share) ==> Unspent(ops, share) >= 0
    decreases |ops|
  {
    if ops != [] { SumBounds(ops[1..], share); }
  }

  // ---- what every step keeps ----

  // The first bound is what begin_op reserves. The second is sharper for calls
  // that keep to less than MAXOPBLOCKS: once ten blocks are logged, at most two
  // calls are in progress.
  ghost predicate Reserved(w: World)
  {
    && |w.log.lh| + Unspent(w.ops, MAXOPBLOCKS) <= LOGSIZE
    && |w.log.lh| + Unspent(w.ops, w.budget) <= MAXOPBLOCKS + 2 * w.budget
  }

  // No more than three calls are in progress, and no more than that many have
  // passed a test since the log stood where the test lets it pass.
  ghost predicate Overshoot(w: World)
  {
    && |w.ops| <= 3
    && |w.log.lh| + Inside(w.ops) <= LOGSIZE + 2
    && if w.log.size < 2 then w.log.lh == [] && Passed(w.ops) == 0
       else |w.log.lh| + Passed(w.ops) <= w.log.size + 1
  }

  predicate OpOk(w: World, i: nat)
  {
    i < |w.ops| ==>
      w.ops[i].added <= w.budget && (w.ops[i].stage.Idle? || Within(w, i, w.ops[i].stage.b))
  }

  ghost predicate Inv(w: World)
  {
    && w.log.outstanding == |w.ops|
    && (forall i: nat :: OpOk(w, i))
    && (w.budget <= MAXOPBLOCKS ==> Reserved(w))
    && Overshoot(w)
    && (forall i, j :: 0 <= i < j < |w.log.lh| ==> w.log.lh[i] != w.log.lh[j])
    && (w.log.committing ==> w.log.outstanding == 0)
    && (w.ops == [] && !w.log.committing ==> w.log.lh == [])
    && (w.budget == 0 ==> w.log.lh == [])
  }

  // What one step does to the sums.
  lemma SumStep(w: World, e: Event, share: nat)
    requires Enabled(w, e)
    ensures var ops, ops' := w.ops, Next(w, e).ops;
      var d, d' := |w.log.lh|, |Next(w, e).log.lh|;
      match e
      case Begin =>
        && Unspent(ops', share) == Unspent(ops, share) + share <= |ops'| * share
        && Inside(ops') == Inside(ops) && Passed(ops') == Passed(ops)
      case Enter(_, _) =>
        && Unspent(ops', share) == Unspent(ops, share)
        && Inside(ops') == Inside(ops) + 1 && Passed(ops') == Passed(ops)
      case Clear(_) =>
        && Unspent(ops', share) == Unspent(ops, share)
        && Inside(ops') == Inside(ops) && Passed(ops') == Passed(ops) + 1
      case Put(_) =>
        && d' + Unspent(ops', share) == d + Unspent(ops, share) && d' <= d + 1
        && Inside(ops') == Inside(ops) - 1 && Passed(ops') == Passed(ops) - 1
      case End(op) =>
        && Unspent(ops', share) == Unspent(ops, share) - (share - ops[op].added)
        && Inside(ops') == Inside(ops) && Passed(ops') == Passed(ops)
      case Commit => ops' == ops
  {
    hide Unspent, Inside, Passed;
    var ops' := Next(w, e).ops;
    if e.Begin? {
      SumSplit(w.ops, [Op(0, Idle)], share);
      SumOne(Op(0, Idle), share);
      SumBounds(ops', share);
    } else if e.End? {
      SumAt(w.ops, e.op, share);
      SumSplit(w.ops[..e.op], w.ops[e.op + 1..], share);
    } else if !e.Commit? {
      SumAt(w.ops, e.op, share);
      SumAt(ops', e.op, share);
      assert ops'[..e.op] == w.ops[..e.op] && ops'[e.op + 1..] == w.ops[e.op + 1..];
    }
  }

  lemma ReservedStep(w: World, e: Event)
    requires Inv(w) && Enabled(w, e) && w.budget <= MAXOPBLOCKS
    ensures Reserved(Next(w, e))
  {
    hide Unspent, Overshoot;
    SumStep(w, e, MAXOPBLOCKS);
    SumStep(w, e, w.budget);
    if e.Begin? { SumBounds(w.ops, w.budget); }
    if e.End? { assert OpOk(w, e.op); }
  }

  lemma OvershootStep(w: World, e: Event)
    requires Inv(w) && Enabled(w, e)
    ensures Overshoot(Next(w, e))
  {
    hide Unspent, Reserved, Inside, Passed;
    SumStep(w, e, 0);
    SumBounds(w.ops, 0);
    SumBounds(Next(w, e).ops, 0);
  }

  lemma OpsStep(w: World, e: Event, i: nat)
    requires Enabled(w, e) && forall j: nat :: OpOk(w, j)
    requires e.Commit? ==> w.ops == []
    ensures OpOk(Next(w, e), i)
  {
    assert OpOk(w, i) && OpOk(w, i + 1);
  }

  lemma InvStep(w: World, e: Event)
    requires Inv(w) && Enabled(w, e)
    ensures Inv(Next(w, e)) && Next(w, e).budget == w.budget && Next(w, e).log.size == w.log.size
  {
    hide Reserved, Overshoot;
    if w.budget <= MAXOPBLOCKS { ReservedStep(w, e); }
    OvershootStep(w, e);
    forall i: nat ensures OpOk(Next(w, e), i) { OpsStep(w, e, i); }
    if e.Put? { assert OpOk(w, e.op); }
  }

  // In every reachable state: the log and what is still reserved fit LOGSIZE
  // while calls keep to MAXOPBLOCKS, the log overshoots its tests by no more
  // than the calls in progress, no block is logged twice, and nothing is
  // outstanding during a commit.
  lemma {:induction false} RunInv(w: World, es: seq<Event>)
    requires Inv(w) && IsRun(w, es)
    ensures Inv(After(w, es)) && After(w, es).budget == w.budget && After(w, es).log.size == w.log.size
    decreases |es|
  {
    hide Inv;
    if es != [] {
      InvStep(w, es[0]);
      RunInv(Next(w, es[0]), es[1..]);
    }
  }

  lemma BootInv(size: nat, budget: nat)
    ensures Inv(Boot(size, budget))
  {
  }

  // end_op's panic "log.committing" cannot happen, whatever the calls write: a
  // call that is about to end is outstanding, and then no commit is running.
  lemma EndOpNeverPanics(size: nat, budget: nat, es: seq<Event>, op: nat)
    requires IsRun(Boot(size, budget), es)
    requires op < |After(Boot(size, budget), es).ops|
    ensures !After(Boot(size, budget), es).log.committing
  {
    BootInv(size, budget);
    RunInv(Boot(size, budget), es);
  }

  // ---- runs that fill the log ----

  lemma {:induction false} RunSnoc(w: World, es: seq<Event>, e: Event)
    requires IsRun(w, es) && Enabled(After(w, es), e)
    ensures IsRun(w, es + [e]) && After(w, es + [e]) == Next(After(w, es), e)
    decreases |es|
  {
    if es == [] {
      assert es + [e] == [e];
      assert [e][1..] == [];
    } else {
      RunSnoc(Next(w, es[0]), es[1..], e);
      assert (es + [e])[0] == es[0] && (es + [e])[1..] == es[1..] + [e];
    }
  }

  // A call about to write b may pass the tests.
  predicate MayPass(w: World, op: nat, b: nat)
  {
    && Within(w, op, b) && w.ops[op].stage.Idle?
    && !Full(w.log) && !AtEnd(w.log) && !OutsideTrans(w.log)
  }

  function PassedBy(w: World, op: nat, b: nat): World
    requires op < |w.ops|
  {
    w.(ops := w.ops[op := w.ops[op].(stage := Cleared(b))])
  }

  lemma Pass(w0: World, es0: seq<Event>, op: nat, b: nat) returns (es: seq<Event>)
    requires IsRun(w0, es0) && MayPass(After(w0, es0), op, b)
    ensures IsRun(w0, es) && After(w0, es) == PassedBy(After(w0, es0), op, b)
  {
    RunSnoc(w0, es0, Enter(op, b));
    RunSnoc(w0, es0 + [Enter(op, b)], Clear(op));
    es := es0 + [Enter(op, b)] + [Clear(op)];
  }

  function Upto(k: nat): (lh: seq<nat>)
    ensures |lh| == k && forall i :: 0 <= i < k ==> lh[i] == i
  {
    seq(k, i => i)
  }

  // Blocks 0, 1, ..., k - 1 are logged.
  ghost predicate Holds(w: World, size: nat, budget: nat, k: nat)
  {
    w.log == LogState(size, |w.ops|, false, Upto(k)) && w.budget == budget
  }

  // The call that has passed the tests with block k puts it.
  lemma PutNext(w0: World, es0: seq<Event>, op: nat, size: nat, budget: nat, k: nat) returns (es: seq<Event>)
    requires IsRun(w0, es0) && Holds(After(w0, es0), size, budget, k)
    requires op < |After(w0, es0).ops| && After(w0, es0).ops[op].stage == Cleared(k)
    ensures IsRun(w0, es) && Holds(After(w0, es), size, budget, k + 1)
    ensures var ops := After(w0, es0).ops; After(w0, es).ops == ops[op := Op(ops[op].added + 1, Idle)]
  {
    RunSnoc(w0, es0, Put(op));
    es := es0 + [Put(op)];
    assert Upto(k + 1) == Upto(k) + [k];
  }

  // A whole write of block k.
  lemma WriteNext(w0: World, es0: seq<Event>, op: nat, size: nat, budget: nat, k: nat) returns (es: seq<Event>)
    requires IsRun(w0, es0) && Holds(After(w0, es0), size, budget, k) && MayPass(After(w0, es0), op, k)
    ensures IsRun(w0, es) && Holds(After(w0, es), size, budget, k + 1)
    ensures var ops := After(w0, es0).ops; After(w0, es).ops == ops[op := Op(ops[op].added + 1, Idle)]
  {
    es := Pass(w0, es0, op, k);
    es := PutNext(w0, es, op, size, budget, k);
  }

  // Two calls in progress that add at most `share` blocks. Up to MAXOPBLOCKS of
  // the blocks in the log were added by calls that came and went while the first
  // of the two was waiting; the others they have added by turns.
  ghost predicate Two(w: World, size: nat, budget: nat, share: nat, k: nat)
  {
    && Holds(w, size, budget, k) && |w.ops| == 2
    && if k <= MAXOPBLOCKS then w.ops[0] == Op(0, Idle) && w.ops[1].stage.Idle? && w.ops[1].added <= share
       else w.ops == [Op((k - MAXOPBLOCKS) / 2, Idle), Op((k - MAXOPBLOCKS + 1) / 2, Idle)]
  }

  lemma {:induction false} FillTwo(size: nat, budget: nat, share: nat, k: nat) returns (es: seq<Event>)
    requires 0 < share <= budget && share <= MAXOPBLOCKS && k <= MAXOPBLOCKS + 2 * share && (k == 0 || k < size)
    ensures IsRun(Boot(size, budget), es) && Two(After(Boot(size, budget), es), size, budget, share, k)
  {
    hide IsRun, After, MayPass;
    if k == 0 {
      es := StartTwo(size, budget, share);
    } else {
      es := FillTwo(size, budget, share, k - 1);
      if k <= MAXOPBLOCKS + 1 { es := Relieved(size, budget, share, k - 1, es); }
      var op := if k <= MAXOPBLOCKS + 1 || (k - MAXOPBLOCKS) % 2 == 1 then 1 else 0;
      TwoMayPass(After(Boot(size, budget), es), size, budget, share, k - 1, op);
      es := WriteNext(Boot(size, budget), es, op, size, budget, k - 1);
    }
  }

  lemma StartTwo(size: nat, budget: nat, share: nat) returns (es: seq<Event>)
    ensures IsRun(Boot(size, budget), es) && Two(After(Boot(size, budget), es), size, budget, share, 0)
  {
    RunSnoc(Boot(size, budget), [], Begin);
    RunSnoc(Boot(size, budget), [] + [Begin], Begin);
    es := [] + [Begin] + [Begin];
  }

  lemma TwoMayPass(w: World, size: nat, budget: nat, share: nat, k: nat, op: nat)
    requires Two(w, size, budget, share, k) && 0 < share <= budget && share <= MAXOPBLOCKS && k + 1 < size
    requires k < MAXOPBLOCKS + 2 * share && op == if k <= MAXOPBLOCKS || (k - MAXOPBLOCKS) % 2 == 0 then 1 else 0
    requires k <= MAXOPBLOCKS ==> w.ops == [Op(0, Idle), Op(0, Idle)]
    ensures MayPass(w, op, k)
  {
  }

  // The second call ends and another begins in its place.
  lemma Relieved(size: nat, budget: nat, share: nat, k: nat, es0: seq<Event>) returns (es: seq<Event>)
    requires IsRun(Boot(size, budget), es0) && Two(After(Boot(size, budget), es0), size, budget, share, k)
    requires k <= MAXOPBLOCKS
    ensures IsRun(Boot(size, budget), es) && Two(After(Boot(size, budget), es), size, budget, share, k)
    ensures After(Boot(size, budget), es).ops == [Op(0, Idle), Op(0, Idle)]
  {
    RunSnoc(Boot(size, budget), es0, End(1));
    RunSnoc(Boot(size, budget), es0 + [End(1)], Begin);
    es := es0 + [End(1)] + [Begin];
  }

  // Three calls in progress from the start, which write by turns.
  ghost predicate Three(w: World, size: nat, budget: nat, k: nat)
  {
    Holds(w, size, budget, k) && w.ops == Thirds(k)
  }

  function Thirds(k: nat): seq<Op> { [Op((k + 2) / 3, Idle), Op((k + 1) / 3, Idle), Op(k / 3, Idle)] }

  lemma ThirdsNext(k: nat)
    ensures var i := k % 3; Thirds(k + 1) == Thirds(k)[i := Op(Thirds(k)[i].added + 1, Idle)]
    ensures Thirds(k)[k % 3] == Op(k / 3, Idle)
  {
  }

  lemma ThreeMayPass(w: World, size: nat, budget: nat, k: nat)
    requires Three(w, size, budget, k) && MAXOPBLOCKS <= budget && k < LOGSIZE && k + 1 < size
    ensures |w.ops| == 3 && MayPass(w, k % 3, k)
  {
    ThirdsNext(k);
  }

  lemma StartThree(size: nat, budget: nat) returns (es: seq<Event>)
    ensures IsRun(Boot(size, budget), es) && Three(After(Boot(size, budget), es), size, budget, 0)
  {
    var w0 := Boot(size, budget);
    RunSnoc(w0, [], Begin);
    RunSnoc(w0, [] + [Begin], Begin);
    RunSnoc(w0, [] + [Begin] + [Begin], Begin);
    es := [] + [Begin] + [Begin] + [Begin];
  }

  lemma {:induction false} FillThree(size: nat, budget: nat, k: nat) returns (es: seq<Event>)
    requires MAXOPBLOCKS <= budget && k <= LOGSIZE && (k == 0 || k < size)
    ensures IsRun(Boot(size, budget), es) && Three(After(Boot(size, budget), es), size, budget, k)
  {
    hide IsRun, After, MayPass, Thirds;
    if k == 0 {
      es := StartThree(size, budget);
    } else {
      es := FillThree(size, budget, k - 1);
      ThreeMayPass(After(Boot(size, budget), es), size, budget, k - 1);
      ThirdsNext(k - 1);
      es := WriteNext(Boot(size, budget), es, (k - 1) % 3, size, budget, k - 1);
    }
  }

  // The first n of the calls in progress have passed the tests while k blocks
  // were logged, with the next n blocks.
  ghost predicate Waiting(w: World, size: nat, budget: nat, k: nat, n: nat)
  {
    && Holds(w, size, budget, k) && n <= |w.ops|
    && (forall i :: 0 <= i < n ==> w.ops[i].stage == Cleared(k + i))
    && (forall i :: n <= i < |w.ops| ==> w.ops[i].stage.Idle? && w.ops[i].added < budget)
  }

  // All of them pass the tests, each finding room for one more.
  lemma {:induction false} AllPass(w0: World, es0: seq<Event>, size: nat, budget: nat, k: nat, n: nat)
    returns (es: seq<Event>)
    requires IsRun(w0, es0) && Waiting(After(w0, es0), size, budget, k, n)
    requires k < LOGSIZE && k + 1 < size && 0 < |After(w0, es0).ops|
    ensures IsRun(w0, es) && |After(w0, es).ops| == |After(w0, es0).ops|
    ensures Waiting(After(w0, es), size, budget, k, |After(w0, es).ops|)
    decreases |After(w0, es0).ops| - n
  {
    es := es0;
    if n < |After(w0, es0).ops| {
      es := Pass(w0, es0, n, k + n);
      es := AllPass(w0, es, size, budget, k, n + 1);
    }
  }

  // Then n of them put their blocks.
  lemma {:induction false} AllPut(w0: World, es0: seq<Event>, size: nat, budget: nat, k: nat, n: nat)
    returns (es: seq<Event>)
    requires IsRun(w0, es0) && Waiting(After(w0, es0), size, budget, k, |After(w0, es0).ops|)
    requires n <= |After(w0, es0).ops|
    ensures IsRun(w0, es) && Holds(After(w0, es), size, budget, k + n)
    ensures |After(w0, es).ops| == |After(w0, es0).ops|
    ensures forall i :: n <= i < |After(w0, es).ops| ==> After(w0, es).ops[i].stage == Cleared(k + i)
  {
    es := es0;
    if n > 0 {
      es := AllPut(w0, es0, size, budget, k, n - 1);
      es := PutNext(w0, es, n - 1, size, budget, k + n - 1);
    }
  }

  // The log overshoots by as many blocks as there are calls.
  lemma Overshot(w0: World, es0: seq<Event>, size: nat, budget: nat, k: nat) returns (es: seq<Event>)
    requires IsRun(w0, es0) && Waiting(After(w0, es0), size, budget, k, 0)
    requires k < LOGSIZE && k + 1 < size && 0 < |After(w0, es0).ops|
    ensures IsRun(w0, es) && Holds(After(w0, es), size, budget, k + |After(w0, es0).ops|)
  {
    es := AllPass(w0, es0, size, budget, k, 0);
    es := AllPut(w0, es, size, budget, k, |After(w0, es).ops|);
  }

  function Min(a: nat, b: nat): nat { if a <= b then a else b }

  // ---- log_write's panics, exactly ----

  // Some call that keeps to its budget is at a test and panics: writing any
  // block, or writing one that is not yet in the log.
  predicate Panics(w: World, op: nat, b: nat)
  {
    && op < |w.ops|
    && ((w.ops[op].stage.Idle? && Within(w, op, b) && Full(w.log))
        || (w.ops[op].stage == Entered(b) && (AtEnd(w.log) || OutsideTrans(w.log))))
  }

  ghost predicate WritePanics(w: World) { exists op: nat, b: nat :: Panics(w, op, b) }
  ghost predicate NewWritePanics(w: World) { exists op: nat, b: nat :: Panics(w, op, b) && b !in w.log.lh }

  // How far the log can be filled while a call is in progress.
  lemma LogBound(w: World, op: nat)
    requires Inv(w) && w.budget <= MAXOPBLOCKS && op < |w.ops|
    ensures |w.log.lh| + (w.budget - w.ops[op].added) <= MAXOPBLOCKS + 2 * w.budget && w.ops[op].added <= w.budget
  {
    hide Overshoot;
    forall i: nat | i < |w.ops| ensures w.ops[i].added <= w.budget { assert OpOk(w, i); }
    SumAt(w.ops, op, w.budget);
    SumBounds(w.ops[..op], w.budget);
    SumBounds(w.ops[op + 1..], w.budget);
  }

  // A call that writes block b has come as far as the test it cannot pass.
  lemma AtTest(w0: World, es0: seq<Event>, op: nat, b: nat) returns (es: seq<Event>)
    requires IsRun(w0, es0)
    requires var w := After(w0, es0); Within(w, op, b) && w.ops[op].stage.Idle? && (Full(w.log) || AtEnd(w.log))
    ensures IsRun(w0, es) && Panics(After(w0, es), op, b) && After(w0, es).log == After(w0, es0).log
  {
    es := es0;
    if !Full(After(w0, es0).log) {
      RunSnoc(w0, es0, Enter(op, b));
      es := es0 + [Enter(op, b)];
    }
  }

  // A write of a block that is not in the log yet panics in some run if and
  // only if this holds. With calls that keep to MAXOPBLOCKS: if and only if the
  // log area is LOGSIZE blocks or less.
  lemma NewWritePanicsExactlyWhen(size: nat, budget: nat)
    ensures (exists es :: IsRun(Boot(size, budget), es) && NewWritePanics(After(Boot(size, budget), es)))
            <==> 0 < budget && (budget > MAXOPBLOCKS || size <= MAXOPBLOCKS + 2 * budget)
  {
    if 0 < budget && (budget > MAXOPBLOCKS || size <= MAXOPBLOCKS + 2 * budget) {
      var k := Min(LOGSIZE, if size == 0 then 0 else size - 1);
      var es := FillTwo(size, budget, Min(budget, MAXOPBLOCKS), k);
      es := AtTest(Boot(size, budget), es, 0, k);
      assert Panics(After(Boot(size, budget), es), 0, k);
      assert exists es :: IsRun(Boot(size, budget), es) && NewWritePanics(After(Boot(size, budget), es));
    } else {
      forall es | IsRun(Boot(size, budget), es) ensures !NewWritePanics(After(Boot(size, budget), es)) {
        NewWriteSafe(size, budget, es);
      }
    }
  }

  lemma NewWriteSafe(size: nat, budget: nat, es: seq<Event>)
    requires budget == 0 || (budget <= MAXOPBLOCKS && size > MAXOPBLOCKS + 2 * budget)
    requires IsRun(Boot(size, budget), es)
    ensures !NewWritePanics(After(Boot(size, budget), es))
  {
    hide Inv;
    var w := After(Boot(size, budget), es);
    BootInv(size, budget);
    RunInv(Boot(size, budget), es);
    forall op: nat, b: nat | op < |w.ops| && b !in w.log.lh ensures !Panics(w, op, b) {
      LogBound(w, op);
      InProgress(w, op);
    }
  }

  lemma InProgress(w: World, op: nat)
    requires Inv(w) && op < |w.ops|
    ensures !OutsideTrans(w.log) && (w.ops[op].stage.Entered? ==> Within(w, op, w.ops[op].stage.b))
    ensures w.budget == 0 ==> w.log.lh == []
  {
    assert OpOk(w, op);
  }

  // Absorption does not help a full log: log_write tests for room before it
  // looks for the block, so a write that would be absorbed can panic too. Some
  // write panics in some run if and only if this holds: with calls that keep to
  // MAXOPBLOCKS whatever the log area is, with the area mkfs makes if and only
  // if calls may add ten blocks.
  lemma WritePanicsExactlyWhen(size: nat, budget: nat)
    ensures (exists es :: IsRun(Boot(size, budget), es) && WritePanics(After(Boot(size, budget), es)))
            <==> 0 < budget && (budget >= MAXOPBLOCKS || size <= MAXOPBLOCKS + 2 * budget + 1)
  {
    if 0 < budget && (budget >= MAXOPBLOCKS || size <= MAXOPBLOCKS + 2 * budget + 1) {
      var k := Min(LOGSIZE, if size == 0 then 0 else size - 1);
      var es := FillTwo(size, budget, Min(budget, MAXOPBLOCKS), k);
      assert k > 0 ==> After(Boot(size, budget), es).log.lh[0] == 0;
      es := AtTest(Boot(size, budget), es, 0, 0);
      assert Panics(After(Boot(size, budget), es), 0, 0);
      assert exists es :: IsRun(Boot(size, budget), es) && WritePanics(After(Boot(size, budget), es));
    } else {
      forall es | IsRun(Boot(size, budget), es) ensures !WritePanics(After(Boot(size, budget), es)) {
        WriteSafe(size, budget, es);
      }
    }
  }

  lemma WriteSafe(size: nat, budget: nat, es: seq<Event>)
    requires budget == 0 || (budget < MAXOPBLOCKS && size > MAXOPBLOCKS + 2 * budget + 1)
    requires IsRun(Boot(size, budget), es)
    ensures !WritePanics(After(Boot(size, budget), es))
  {
    hide Inv;
    var w := After(Boot(size, budget), es);
    BootInv(size, budget);
    RunInv(Boot(size, budget), es);
    forall op: nat, b: nat | op < |w.ops| ensures !Panics(w, op, b) {
      LogBound(w, op);
      InProgress(w, op);
    }
  }

  // ---- a log that outgrows its area, and one as large as the cache ----

  // The list has more blocks than the area has behind its header.
  predicate Outgrown(s: LogState) { s.lh != [] && |s.lh| >= s.size }

  // Calls that pass the tests together put more blocks than there is room for:
  // the log outgrows its area in some run if and only if this holds. With calls
  // that keep to MAXOPBLOCKS: if and only if the area is LOGSIZE blocks or less
  // and large enough for a write to be let through at all.
  lemma OutgrowsExactlyWhen(size: nat, budget: nat)
    ensures (exists es :: IsRun(Boot(size, budget), es) && Outgrown(After(Boot(size, budget), es).log))
            <==> 0 < budget && 2 <= size <= if budget <= MAXOPBLOCKS then MAXOPBLOCKS + 2 * budget else LOGSIZE + 2
  {
    if 0 < budget && 2 <= size <= if budget <= MAXOPBLOCKS then MAXOPBLOCKS + 2 * budget else LOGSIZE + 2 {
      var es;
      if budget <= MAXOPBLOCKS { es := OutgrowTwo(size, budget); } else { es := OutgrowThree(size, budget); }
      assert exists es :: IsRun(Boot(size, budget), es) && Outgrown(After(Boot(size, budget), es).log);
    } else {
      forall es | IsRun(Boot(size, budget), es) ensures !Outgrown(After(Boot(size, budget), es).log) {
        LogFits(size, budget, es);
      }
    }
  }

  lemma OutgrowTwo(size: nat, budget: nat) returns (es: seq<Event>)
    requires 0 < budget <= MAXOPBLOCKS && 2 <= size <= MAXOPBLOCKS + 2 * budget
    ensures IsRun(Boot(size, budget), es) && Outgrown(After(Boot(size, budget), es).log)
  {
    es := FillTwo(size, budget, budget, size - 2);
    if size - 2 <= MAXOPBLOCKS { es := Relieved(size, budget, budget, size - 2, es); }
    es := Overshot(Boot(size, budget), es, size, budget, size - 2);
  }

  lemma OutgrowThree(size: nat, budget: nat) returns (es: seq<Event>)
    requires MAXOPBLOCKS < budget && 2 <= size <= LOGSIZE + 2
    ensures IsRun(Boot(size, budget), es) && Outgrown(After(Boot(size, budget), es).log)
  {
    es := FillThree(size, budget, Min(LOGSIZE - 1, size - 2));
    es := Overshot(Boot(size, budget), es, size, budget, Min(LOGSIZE - 1, size - 2));
  }

  lemma LogFits(size: nat, budget: nat, es: seq<Event>)
    requires IsRun(Boot(size, budget), es)
    requires budget == 0 || size < 2 || size > if budget <= MAXOPBLOCKS then MAXOPBLOCKS + 2 * budget else LOGSIZE + 2
    ensures !Outgrown(After(Boot(size, budget), es).log)
  {
    var w := After(Boot(size, budget), es);
    BootInv(size, budget);
    RunInv(Boot(size, budget), es);
    Shares(w);
  }

  lemma Shares(w: World)
    requires Inv(w)
    ensures w.budget <= MAXOPBLOCKS ==> |w.log.lh| <= MAXOPBLOCKS + 2 * w.budget
  {
    forall i: nat | i < |w.ops| ensures w.ops[i].added <= w.budget { assert OpOk(w, i); }
    SumBounds(w.ops, w.budget);
  }

  // A log of LOGSIZE blocks or more, and there are no more buffers than that,
  // is reached in some run if and only if this holds.
  lemma FullLogExactlyWhen(size: nat, budget: nat)
    ensures (exists es :: IsRun(Boot(size, budget), es) && |After(Boot(size, budget), es).log.lh| >= LOGSIZE)
            <==> size >= LOGSIZE - 1 && budget >= MAXOPBLOCKS
  {
    if size >= LOGSIZE - 1 && budget >= MAXOPBLOCKS {
      var es := FillThree(size, budget, LOGSIZE - 3);
      es := Overshot(Boot(size, budget), es, size, budget, LOGSIZE - 3);
      assert |After(Boot(size, budget), es).log.lh| >= LOGSIZE;
    } else {
      forall es | IsRun(Boot(size, budget), es) ensures |After(Boot(size, budget), es).log.lh| < LOGSIZE {
        BootInv(size, budget);
        RunInv(Boot(size, budget), es);
        Shares(After(Boot(size, budget), es));
      }
    }
  }

  // What calls of at most seven blocks, as filewrite makes them, may rely on
  // with the area mkfs makes: nobody panics, the log fits its area, and less
  // than NBUF blocks are pinned.
  lemma SmallCallsAreSafe(es: seq<Event>)
    requires IsRun(Boot(LOGSIZE, 7), es)
    ensures var w := After(Boot(LOGSIZE, 7), es);
      !WritePanics(w) && !Outgrown(w.log) && |w.log.lh| < NBUF && |w.log.lh| < w.log.size
  {
    WriteSafe(LOGSIZE, 7, es);
    BootInv(LOGSIZE, 7);
    RunInv(Boot(LOGSIZE, 7), es);
    Shares(After(Boot(LOGSIZE, 7), es));
  }
}
