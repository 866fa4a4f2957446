/**
 begin_op, log_write and end_op interleaved by any number of processes.

 Each step is what one process does between two points where another may run:
 begin_op and end_op hold the log's spin lock; log_write tests for a full log
 before it takes the lock, so its test and its append are two steps.
 */
module LogAdmission {
  import opened Common

  datatype Pc =
    | Idle
    | InOp(touched: set<nat>)              // between begin_op and end_op; the blocks it has logged
    | Appending(touched: set<nat>, b: nat) // inside log_write(b), past the test
    | Committing

  datatype Panic = NoPanic | EndWhileCommitting | LogFull(absorbing: bool) | OutsideTransaction

  /** `size` is log.size, the superblock's nlog; `lh` is lh.block up to lh.n. */
  datatype State = State(size: nat, outstanding: int, committing: bool, lh: seq<nat>, procs: seq<Pc>, panic: Panic)

  // ---- Steps ----

  /** begin_op lets process `p` in; when it would sleep instead, nothing changes. */
  predicate Begin(s: State, p: nat, s': State) {
    && p < |s.procs| && s.procs[p].Idle?
    && !s.committing
    && |s.lh| + (s.outstanding + 1) * MAXOPBLOCKS <= LOGSIZE
    && s' == s.(outstanding := s.outstanding + 1, procs := s.procs[p := InOp({})])
  }

  /** The tests at the head of log_write(b); an operation never touches more than MAXOPBLOCKS blocks. */
  predicate Test(s: State, p: nat, b: nat, s': State) {
    && p < |s.procs| && s.procs[p].InOp?
    && |s.procs[p].touched + {b}| <= MAXOPBLOCKS
    && s' == if |s.lh| >= LOGSIZE || |s.lh| >= s.size - 1 then s.(panic := LogFull(b in s.lh))
             else if s.outstanding < 1 then s.(panic := OutsideTransaction)
             else s.(procs := s.procs[p := Appending(s.procs[p].touched, b)])
  }

  /** The locked part of log_write: absorb the block or append it. */
  predicate Append(s: State, p: nat, s': State) {
    && p < |s.procs| && s.procs[p].Appending?
    && var b, touched := s.procs[p].b, s.procs[p].touched;
    && s' == s.(lh := if b in s.lh then s.lh else s.lh + [b], procs := s.procs[p := InOp(touched + {b})])
  }

  /** end_op: the last operation out commits. */
  predicate End(s: State, p: nat, s': State) {
    && p < |s.procs| && s.procs[p].InOp?
    && var out := s.outstanding - 1;
    && s' == if s.committing then s.(outstanding := out, panic := EndWhileCommitting)
             else if out == 0 then s.(outstanding := out, committing := true, procs := s.procs[p := Committing])
             else s.(outstanding := out, procs := s.procs[p := Idle])
  }

  /** commit() empties lh while committing is set ... */
  predicate Clear(s: State, p: nat, s': State) {
    && p < |s.procs| && s.procs[p].Committing?
    && s' == s.(lh := [])
  }

  /** ... and end_op then lets operations in again. */
  predicate Finish(s: State, p: nat, s': State) {
    && p < |s.procs| && s.procs[p].Committing? && s.lh == []
    && s' == s.(committing := false, procs := s.procs[p := Idle])
  }

  datatype Step = Begin(p: nat) | Test(p: nat, b: nat) | Append(p: nat) | End(p: nat) | Clear(p: nat) | Finish(p: nat)

  predicate Next(s: State, e: Step, s': State) {
    && s.panic.NoPanic?
    && match e
       case Begin(p) => Begin(s, p, s')
       case Test(p, b) => Test(s, p, b, s')
       case Append(p) => Append(s, p, s')
       case End(p) => End(s, p, s')
       case Clear(p) => Clear(s, p, s')
       case Finish(p) => Finish(s, p, s')
  }

  function Init(size: nat, n: nat): State {
    State(size, 0, false, [], seq(n, _ => Idle), NoPanic)
  }

  /** A finite run: `states[i + 1]` follows `states[i]` by step `steps[i]`. */
  ghost predicate Run(states: seq<State>, steps: seq<Step>) {
    && |states| == |steps| + 1
    && states[0] == Init(states[0].size, |states[0].procs|)
    && forall i :: 0 <= i < |steps| ==> Next(states[i], steps[i], states[i + 1])
  }

  // ---- The invariant ----

  function Touched(pc: Pc): set<nat> {
    match pc
    case InOp(t) => t
    case Appending(t, b) => t + {b}
    case _ => {}
  }

  predicate Active(pc: Pc) {
    pc.InOp? || pc.Appending?
  }

  /** The log blocks an operation may still take. A block being appended is not yet taken. */
  function Unspent(pc: Pc): int {
    match pc
    case InOp(t) => MAXOPBLOCKS - |t|
    case Appending(t, b) => MAXOPBLOCKS - |t|
    case _ => 0
  }

  function TotalUnspent(procs: seq<Pc>): int {
    if procs == [] then 0 else Unspent(procs[0]) + TotalUnspent(procs[1..])
  }

  function CountActive(procs: seq<Pc>): nat {
    if procs == [] then 0 else (if Active(procs[0]) then 1 else 0) + CountActive(procs[1..])
  }

  ghost predicate Inv(s: State) {
    && s.outstanding == CountActive(s.procs)
    && (s.committing ==> s.outstanding == 0)
    && (s.committing <==> exists p :: 0 <= p < |s.procs| && s.procs[p].Committing?)
    && (forall p, q :: 0 <= p < |s.procs| && 0 <= q < |s.procs| ==>
          s.procs[p].Committing? && s.procs[q].Committing? ==> p == q)
    && (forall p :: 0 <= p < |s.procs| ==> |Touched(s.procs[p])| <= MAXOPBLOCKS)
    && (forall p, b :: 0 <= p < |s.procs| && Active(s.procs[p]) && b in s.procs[p].touched ==> b in s.lh)
    && Distinct(s.lh)
    && |s.lh| + TotalUnspent(s.procs) <= LOGSIZE
    && (s.outstanding == 0 && !s.committing ==> s.lh == [])
  }

  // ---- Sums over the process table ----

  lemma {:induction false} UpdateTotals(procs: seq<Pc>, p: nat, pc: Pc)
    requires p < |procs|
    ensures TotalUnspent(procs[p := pc]) == TotalUnspent(procs) - Unspent(procs[p]) + Unspent(pc)
    ensures CountActive(procs[p := pc]) ==
      CountActive(procs) - (if Active(procs[p]) then 1 else 0) + (if Active(pc) then 1 else 0)
  {
    if p == 0 {
      assert procs[0 := pc][1..] == procs[1..];
    } else {
      assert procs[p := pc][1..] == procs[1..][p - 1 := pc];
      UpdateTotals(procs[1..], p - 1, pc);
    }
  }

  lemma {:induction false} UnspentOfOne(procs: seq<Pc>, p: nat)
    requires p < |procs| && forall q :: 0 <= q < |procs| ==> |Touched(procs[q])| <= MAXOPBLOCKS
    ensures TotalUnspent(procs) >= Unspent(procs[p])
    ensures Active(procs[p]) ==> CountActive(procs) >= 1
    ensures TotalUnspent(procs) <= MAXOPBLOCKS * CountActive(procs)
  {
    forall q | 0 <= q < |procs|
      ensures 0 <= Unspent(procs[q]) <= MAXOPBLOCKS
    {
      UnspentBounds(procs[q]);
    }
    TotalBounds(procs);
    UpdateTotals(procs, p, Idle);
    TotalBounds(procs[p := Idle]);
  }

  lemma AddOne(t: set<nat>, b: nat)
    ensures |t + {b}| == if b in t then |t| else |t| + 1
  {
    if b in t {
      assert t + {b} == t;
    }
  }

  lemma UnspentBounds(pc: Pc)
    requires |Touched(pc)| <= MAXOPBLOCKS
    ensures 0 <= Unspent(pc) <= MAXOPBLOCKS
  {
    if pc.Appending? {
      AddOne(pc.touched, pc.b);
    }
  }

  lemma {:induction false} TotalBounds(procs: seq<Pc>)
    requires forall q :: 0 <= q < |procs| ==> 0 <= Unspent(procs[q]) <= MAXOPBLOCKS
    ensures 0 <= TotalUnspent(procs) <= MAXOPBLOCKS * CountActive(procs)
  {
    if procs != [] {
      TotalBounds(procs[1..]);
    }
  }

  lemma {:induction false} IdleTotals(procs: seq<Pc>)
    requires forall q :: 0 <= q < |procs| ==> !Active(procs[q])
    ensures TotalUnspent(procs) == 0 && CountActive(procs) == 0
  {
    if procs != [] {
      IdleTotals(procs[1..]);
    }
  }

  // ---- Every step keeps the invariant ----

  lemma BeginKeeps(s: State, p: nat, s': State)
    requires Inv(s) && Begin(s, p, s')
    ensures Inv(s') && s'.panic == s.panic
  {
    UpdateTotals(s.procs, p, InOp({}));
    UnspentOfOne(s.procs, p);
  }

  lemma TestKeeps(s: State, p: nat, b: nat, s': State)
    requires Inv(s) && Test(s, p, b, s')
    ensures Inv(s')
    ensures s.size > LOGSIZE && s'.panic != s.panic ==> s'.panic == LogFull(true) && |s.lh| == LOGSIZE
  {
    UnspentOfOne(s.procs, p);
    UpdateTotals(s.procs, p, Appending(s.procs[p].touched, b));
    AddOne(s.procs[p].touched, b);
  }

  lemma AppendKeeps(s: State, p: nat, s': State)
    requires Inv(s) && Append(s, p, s')
    ensures Inv(s') && s'.panic == s.panic
  {
    var t, b := s.procs[p].touched, s.procs[p].b;
    UpdateTotals(s.procs, p, InOp(t + {b}));
    UnspentOfOne(s.procs, p);
    AddOne(t, b);
    assert forall q :: 0 <= q < |s.procs| ==> (s'.procs[q].Committing? <==> s.procs[q].Committing?);
    assert Distinct(s'.lh);
  }

  lemma EndKeeps(s: State, p: nat, s': State)
    requires Inv(s) && End(s, p, s')
    ensures Inv(s') && s'.panic == s.panic
  {
    UnspentOfOne(s.procs, p);
    UpdateTotals(s.procs, p, Idle);
    UpdateTotals(s.procs, p, Committing);
    UnspentBounds(s.procs[p]);
    assert s'.procs[p].Idle? || s'.procs[p].Committing?;
    assert forall q :: 0 <= q < |s.procs| && q != p ==> s'.procs[q] == s.procs[q];
  }

  lemma {:induction false} NoneActive(procs: seq<Pc>, p: nat)
    requires CountActive(procs) == 0 && p < |procs|
    ensures !Active(procs[p])
  {
    if p > 0 {
      NoneActive(procs[1..], p - 1);
    }
  }

  lemma CommitKeeps(s: State, p: nat, s': State)
    requires Inv(s) && (Clear(s, p, s') || Finish(s, p, s'))
    ensures Inv(s') && s'.panic == s.panic
  {
    forall q | 0 <= q < |s.procs|
      ensures !Active(s.procs[q])
    {
      NoneActive(s.procs, q);
    }
    IdleTotals(s.procs);
    UpdateTotals(s.procs, p, Idle);
  }

  /** What a state of a run may have panicked with: only an absorbing write to a completely full log. */
  predicate Expected(s: State) {
    s.panic == NoPanic || (s.panic == LogFull(true) && |s.lh| == LOGSIZE)
  }

  /**
   Safety of every run. With a log of more than LOGSIZE blocks, and operations that
   touch at most MAXOPBLOCKS blocks each, the invariant holds throughout: the log
   holds at most LOGSIZE blocks even with every reservation spent, a commit starts
   only when no operation is active, and end_op's panic is never reached.
   */
  lemma {:induction false} RunSafe(states: seq<State>, steps: seq<Step>, k: nat)
    requires Run(states, steps) && k < |states| && states[0].size > LOGSIZE
    ensures Inv(states[k]) && Expected(states[k]) && states[k].size == states[0].size
  {
    if k == 0 {
      IdleTotals(states[0].procs);
    } else {
      RunSafe(states, steps, k - 1);
      var s, s' := states[k - 1], states[k];
      assert Next(s, steps[k - 1], s');
      match steps[k - 1]
      case Begin(p) => BeginKeeps(s, p, s');
      case Test(p, b) => TestKeeps(s, p, b, s');
      case Append(p) => AppendKeeps(s, p, s');
      case End(p) => EndKeeps(s, p, s');
      case Clear(p) => CommitKeeps(s, p, s');
      case Finish(p) => CommitKeeps(s, p, s');
    }
  }

  /** While a commit runs, no operation is active: a commit contains finished operations only. */
  lemma CommitsOnlyFinished(states: seq<State>, steps: seq<Step>, k: nat, p: nat)
    requires Run(states, steps) && k < |states| && states[0].size > LOGSIZE
    requires states[k].committing && p < |states[k].procs|
    ensures !Active(states[k].procs[p])
  {
    RunSafe(states, steps, k);
    NoneActive(states[k].procs, p);
  }

  // ---- What is logged is committed ----

  /**
   Nothing finished is left behind: in every run, once no operation is active and no commit
   runs, the log is empty. The last operation out has committed what all of them logged.
   */
  lemma FinishedIsCommitted(states: seq<State>, steps: seq<Step>, k: nat)
    requires Run(states, steps) && k < |states| && states[0].size > LOGSIZE
    requires forall p :: 0 <= p < |states[k].procs| ==> !Active(states[k].procs[p])
    ensures !states[k].committing ==> states[k].lh == []
    ensures states[k].committing ==> exists p :: 0 <= p < |states[k].procs| && states[k].procs[p].Committing?
  {
    RunSafe(states, steps, k);
    IdleTotals(states[k].procs);
  }

  /** Step `i` is that of a commit, with block `b` in it and every operation finished. */
  ghost predicate CommitsBlock(s: State, e: Step, b: nat) {
    e.Clear? && b in s.lh && s.committing && forall p :: 0 <= p < |s.procs| ==> !Active(s.procs[p])
  }

  /** In every run, a block that has been logged leaves the log by being committed, and in no other way. */
  lemma {:induction false} LoggedUntilCommitted(states: seq<State>, steps: seq<Step>, j: nat, k: nat, b: nat)
    requires Run(states, steps) && j <= k < |states| && states[0].size > LOGSIZE && b in states[j].lh
    ensures b in states[k].lh || exists i :: j <= i < k && CommitsBlock(states[i], steps[i], b)
  {
    hide Inv, CommitsBlock;
    if j < k {
      LoggedUntilCommitted(states, steps, j, k - 1, b);
      var s, e := states[k - 1], steps[k - 1];
      assert Next(s, e, states[k]);
      if b in s.lh && b !in states[k].lh {
        ClearsAll(states, steps, k - 1, b);
      }
    }
  }

  lemma ClearsAll(states: seq<State>, steps: seq<Step>, k: nat, b: nat)
    requires Run(states, steps) && k < |steps| && states[0].size > LOGSIZE
    ensures b in states[k].lh && b !in states[k + 1].lh ==> CommitsBlock(states[k], steps[k], b)
  {
    var s := states[k];
    assert Next(s, steps[k], states[k + 1]);
    RunSafe(states, steps, k);
    if s.committing {
      forall p | 0 <= p < |s.procs|
        ensures !Active(s.procs[p])
      {
        NoneActive(s.procs, p);
      }
    }
  }

  /** Once all is committed, begin_op lets any process in. */
  lemma QuietAdmits(states: seq<State>, steps: seq<Step>, k: nat, p: nat)
    requires Run(states, steps) && k < |states| && states[0].size > LOGSIZE && states[k].panic.NoPanic?
    requires forall q :: 0 <= q < |states[k].procs| ==> states[k].procs[q].Idle?
    requires p < |states[k].procs|
    ensures exists s' :: Next(states[k], Step.Begin(p), s') && s'.procs[p] == InOp({})
  {
    FinishedIsCommitted(states, steps, k);
    RunSafe(states, steps, k);
    IdleTotals(states[k].procs);
    var s := states[k];
    assert Next(s, Step.Begin(p), s.(outstanding := s.outstanding + 1, procs := s.procs[p := InOp({})]));
  }

  /** An operation that logs block `b`, alone, from begin_op to the end of its commit. */
  lemma CommitsOne(b: nat) returns (states: seq<State>, steps: seq<Step>)
    ensures Run(states, steps) && states[0].size > LOGSIZE
    ensures steps == [Step.Begin(0), Step.Test(0, b), Step.Append(0), Step.End(0), Step.Clear(0), Step.Finish(0)]
    ensures states[3].lh == [b] && CommitsBlock(states[4], steps[4], b) && states[6] == states[0]
  {
    var s0 := Init(LOGSIZE + 1, 1);
    var s1 := s0.(outstanding := 1, procs := [InOp({})]);
    var s2 := s1.(procs := [Appending({}, b)]);
    var s3 := s1.(lh := [b], procs := [InOp({b})]);
    var s4 := s3.(outstanding := 0, committing := true, procs := [Committing]);
    var s5 := s4.(lh := []);
    assert |{} + {b}| == 1;
    assert Next(s0, Step.Begin(0), s1);
    assert Next(s1, Step.Test(0, b), s2);
    assert Next(s2, Step.Append(0), s3);
    assert Next(s3, Step.End(0), s4);
    assert Next(s4, Step.Clear(0), s5);
    assert Next(s5, Step.Finish(0), s0);
    states := [s0, s1, s2, s3, s4, s5, s0];
    steps := [Step.Begin(0), Step.Test(0, b), Step.Append(0), Step.End(0), Step.Clear(0), Step.Finish(0)];
  }

  /** In every run the logged blocks and all that running operations may still log fit in LOGSIZE. */
  lemma LogNeverOverflows(states: seq<State>, steps: seq<Step>, k: nat)
    requires Run(states, steps) && k < |states| && states[0].size > LOGSIZE
    ensures |states[k].lh| <= |states[k].lh| + TotalUnspent(states[k].procs) <= LOGSIZE
  {
    RunSafe(states, steps, k);
    var procs := states[k].procs;
    forall q | 0 <= q < |procs|
      ensures 0 <= Unspent(procs[q]) <= MAXOPBLOCKS
    {
      UnspentBounds(procs[q]);
    }
    TotalBounds(procs);
  }

  /**
   When log_write panics. In any run, a write by an operation within its budget panics
   if and only if the log already holds LOGSIZE blocks, and then the block is one of
   them: a write that needs no room is refused, one that needs room never is.
   */
  lemma PanicsExactlyWhenFull(states: seq<State>, steps: seq<Step>, k: nat, p: nat, b: nat, s': State)
    requires Run(states, steps) && k < |states| && states[0].size > LOGSIZE
    requires states[k].panic.NoPanic? && Test(states[k], p, b, s')
    ensures !s'.panic.NoPanic? <==> |states[k].lh| == LOGSIZE
    ensures !s'.panic.NoPanic? ==> b in states[k].lh
  {
    RunSafe(states, steps, k);
    TestKeeps(states[k], p, b, s');
    UnspentOfOne(states[k].procs, p);
  }

  // ---- A run that ends in that panic ----

  function Interval(lo: nat, hi: nat): (r: set<nat>)
    ensures forall b :: b in r <==> lo <= b < hi
    ensures |r| == if lo <= hi then hi - lo else 0
  {
    if lo >= hi then {} else Interval(lo, hi - 1) + {hi - 1}
  }

  /** The blocks among 0 .. j - 1 that process `p` logs in the run below. */
  function Share(p: nat, j: nat): set<nat> {
    Interval(MAXOPBLOCKS * p, if j < MAXOPBLOCKS * (p + 1) then j else MAXOPBLOCKS * (p + 1))
  }

  /** Three operations have logged blocks 0 .. j - 1, ten each in turn. */
  function Filled(j: nat): State {
    State(LOGSIZE + 1, 3, false, seq(j, i => i), [InOp(Share(0, j)), InOp(Share(1, j)), InOp(Share(2, j))], NoPanic)
  }

  lemma Extend(states: seq<State>, steps: seq<Step>, e: Step, s': State)
    requires Run(states, steps) && Next(states[|states| - 1], e, s')
    ensures Run(states + [s'], steps + [e])
  {}

  lemma ShareNext(q: nat, j: nat)
    ensures Share(q, j + 1) == if j / MAXOPBLOCKS == q then Share(q, j) + {j} else Share(q, j)
    ensures |Share(q, j)| <= MAXOPBLOCKS
    ensures j / MAXOPBLOCKS == q ==> |Share(q, j)| < MAXOPBLOCKS
  {}

  /** Process j / 10 is inside log_write(j). */
  function Filling(j: nat): State
    requires j < LOGSIZE
  {
    var p, s := j / MAXOPBLOCKS, Filled(j);
    s.(procs := s.procs[p := Appending(Share(p, j), j)])
  }

  lemma FillTest(j: nat)
    requires j < LOGSIZE
    ensures Next(Filled(j), Step.Test(j / MAXOPBLOCKS, j), Filling(j))
  {
    hide Share;
    var p := j / MAXOPBLOCKS;
    ShareNext(p, j);
    AddOne(Share(p, j), j);
    assert Filled(j).procs[p] == InOp(Share(p, j));
  }

  lemma FillAppend(j: nat)
    requires j < LOGSIZE
    ensures Next(Filling(j), Step.Append(j / MAXOPBLOCKS), Filled(j + 1))
  {
    hide Share;
    var p := j / MAXOPBLOCKS;
    ShareNext(0, j);
    ShareNext(1, j);
    ShareNext(2, j);
    assert j !in seq(j, i => i);
    assert seq(j, i => i) + [j] == seq(j + 1, i => i);
    assert Filling(j).procs[p := InOp(Share(p, j) + {j})] == Filled(j + 1).procs;
  }

  lemma StartThree() returns (states: seq<State>, steps: seq<Step>)
    ensures Run(states, steps) && states[|states| - 1] == Filled(0)
  {
    var s0 := Init(LOGSIZE + 1, 3);
    var s1 := s0.(outstanding := 1, procs := s0.procs[0 := InOp({})]);
    var s2 := s1.(outstanding := 2, procs := s1.procs[1 := InOp({})]);
    var s3 := s2.(outstanding := 3, procs := s2.procs[2 := InOp({})]);
    states, steps := [s0], [];
    Extend(states, steps, Step.Begin(0), s1);
    states, steps := states + [s1], steps + [Step.Begin(0)];
    Extend(states, steps, Step.Begin(1), s2);
    states, steps := states + [s2], steps + [Step.Begin(1)];
    Extend(states, steps, Step.Begin(2), s3);
    states, steps := states + [s3], steps + [Step.Begin(2)];
    assert Share(0, 0) == {} && Share(1, 0) == {} && Share(2, 0) == {};
    assert s3 == Filled(0);
  }

  /** Three operations, each within its budget, fill the log; rewriting block 0 then panics. */
  lemma AbsorbingWriteCanPanic() returns (states: seq<State>, steps: seq<Step>)
    ensures Run(states, steps) && states[0].size > LOGSIZE
    ensures states[|states| - 1].panic == LogFull(true)
  {
    states, steps := StartThree();
    var j := 0;
    while j < LOGSIZE
      invariant 0 <= j <= LOGSIZE
      invariant Run(states, steps) && states[|states| - 1] == Filled(j)
    {
      var p := j / MAXOPBLOCKS;
      FillTest(j);
      Extend(states, steps, Step.Test(p, j), Filling(j));
      states, steps := states + [Filling(j)], steps + [Step.Test(p, j)];
      FillAppend(j);
      Extend(states, steps, Step.Append(p), Filled(j + 1));
      states, steps := states + [Filled(j + 1)], steps + [Step.Append(p)];
      j := j + 1;
    }
    var s := Filled(LOGSIZE);
    ShareNext(0, LOGSIZE);
    AddOne(Share(0, LOGSIZE), 0);
    assert s.lh[0] == 0;
    Extend(states, steps, Step.Test(0, 0), s.(panic := LogFull(true)));
    states, steps := states + [s.(panic := LogFull(true))], steps + [Step.Test(0, 0)];
    SizeConstant(states, steps, |states| - 1);
  }

  lemma {:induction false} SizeConstant(states: seq<State>, steps: seq<Step>, k: nat)
    requires Run(states, steps) && k < |states|
    ensures states[k].size == states[0].size
  {
    if k > 0 {
      SizeConstant(states, steps, k - 1);
      assert Next(states[k - 1], steps[k - 1], states[k]);
    }
  }
}
