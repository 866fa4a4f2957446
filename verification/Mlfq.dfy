/**
 The scheduler: deadline processes first (earliest deadline), then real-time
 ones (highest priority), then the multi-level feedback queue.

 `Table` is the process table of one processor; `Round` is one turn of the
 scheduler's loop. Slice and boost counters are as in the code; the process a
 round runs is runnable again when it returns unless the caller says otherwise.
 */
module Mlfq {
  import opened Common

  const LEVELS := 4
  const BOOST_INTERVAL := 100
  const NO_DEADLINE := 0xFFFF_FFFF_FFFF_FFFF

  datatype PState = Unused | Runnable | NotRunnable
  datatype Policy = Normal | Fifo | RoundRobin | Deadline

  datatype Proc = Proc(state: PState, policy: Policy, level: nat, allotment: int, rtPriority: int,
                       deadline: nat, period: nat, runtime: nat, remaining: nat, slices: nat)

  function Quota(level: nat): int
    requires level < LEVELS
  {
    [5, 10, 20, 40][level]
  }

  // ---- What each part of a round computes ----

  function Boosted(p: Proc): Proc {
    if p.state == Unused then p else p.(level := 0, allotment := Quota(0))
  }

  function BoostAll(t: seq<Proc>): (r: seq<Proc>)
    ensures |r| == |t|
  {
    seq(|t|, i requires 0 <= i < |t| => Boosted(t[i]))
  }

  predicate IsRt(p: Proc) {
    p.state == Runnable && (p.policy == Fifo || p.policy == RoundRobin) && p.rtPriority > -1
  }

  predicate IsReady(p: Proc) {
    p.state == Runnable && p.policy == Deadline && p.remaining > 0 && p.deadline < NO_DEADLINE
  }

  predicate IsNormal(p: Proc) {
    p.state == Runnable && p.policy == Normal && p.level < LEVELS
  }

  /** The first process, in table order, of highest real-time priority. */
  ghost predicate BestRt(t: seq<Proc>, i: nat) {
    && i < |t| && IsRt(t[i])
    && forall j :: 0 <= j < |t| && IsRt(t[j]) ==>
         t[j].rtPriority < t[i].rtPriority || (t[j].rtPriority == t[i].rtPriority && i <= j)
  }

  /** The first process, in table order, of earliest deadline among those with budget left. */
  ghost predicate EarliestDeadline(t: seq<Proc>, i: nat) {
    && i < |t| && IsReady(t[i])
    && forall j :: 0 <= j < |t| && IsReady(t[j]) ==>
         t[i].deadline < t[j].deadline || (t[i].deadline == t[j].deadline && i <= j)
  }

  /** The first process, in table order, on the highest non-empty queue. */
  ghost predicate FirstQueued(t: seq<Proc>, i: nat) {
    && i < |t| && IsNormal(t[i])
    && forall j :: 0 <= j < |t| && IsNormal(t[j]) ==> t[i].level < t[j].level || (t[i].level == t[j].level && i <= j)
  }

  ghost predicate NoneReady(t: seq<Proc>) {
    forall j :: 0 <= j < |t| ==> !IsReady(t[j])
  }

  ghost predicate NoneRt(t: seq<Proc>) {
    forall j :: 0 <= j < |t| ==> !IsRt(t[j])
  }

  ghost predicate NoneNormal(t: seq<Proc>) {
    forall j :: 0 <= j < |t| ==> !IsNormal(t[j])
  }

  /** Process `i` is the one the scheduler runs. */
  ghost predicate Selected(t: seq<Proc>, i: nat) {
    || EarliestDeadline(t, i)
    || (NoneReady(t) && BestRt(t, i))
    || (NoneReady(t) && NoneRt(t) && FirstQueued(t, i))
  }

  /** A process after its slice, if it is still runnable. */
  function AfterSlice(p: Proc): Proc {
    var p := p.(slices := p.slices + 1);
    match p.policy
    case Deadline => if p.remaining > 0 then p.(remaining := p.remaining - 1) else p
    case Normal =>
      if p.allotment - 1 <= 0 && p.level < LEVELS - 1 then p.(level := p.level + 1, allotment := Quota(p.level + 1))
      else p.(allotment := p.allotment - 1)
    case _ => p
  }

  /** A deadline process at time `ticks`: a new period starts once its deadline is reached. */
  function Renewed(p: Proc, ticks: nat): Proc {
    if p.state != Unused && p.policy == Deadline && ticks >= p.deadline
    then p.(deadline := ticks + p.period, remaining := p.runtime) else p
  }

  function RenewAll(t: seq<Proc>, ticks: nat): (r: seq<Proc>)
    ensures |r| == |t|
  {
    seq(|t|, i requires 0 <= i < |t| => Renewed(t[i], ticks))
  }

  predicate Missed(p: Proc, ticks: nat) {
    p.state != Unused && p.policy == Deadline && ticks > p.deadline && p.remaining > 0
  }

  /** How many of the first `n` processes have missed their deadline with budget left. */
  function Misses(t: seq<Proc>, ticks: nat, n: nat): nat
    requires n <= |t|
  {
    if n == 0 then 0 else Misses(t, ticks, n - 1) + if Missed(t[n - 1], ticks) then 1 else 0
  }

  /** The table a round selects from: boosted if a boost is due, deadlines renewed. */
  function Prepared(t: seq<Proc>, counter: nat, ticks: nat): seq<Proc> {
    RenewAll(if counter + 1 >= BOOST_INTERVAL then BoostAll(t) else t, ticks)
  }

  datatype Sched = Sched(t: seq<Proc>, counter: nat)

  /** One turn of the scheduler's loop: what ran, if anything, and whether it was runnable when it came back. */
  datatype Turn = Turn(ran: Option<nat>, runnable: bool, ticks: nat)

  ghost predicate Took(s: Sched, turn: Turn, s': Sched) {
    var t := Prepared(s.t, s.counter, turn.ticks);
    && s'.counter == (if s.counter + 1 >= BOOST_INTERVAL then 0 else s.counter + 1)
    && match turn.ran
       case None => NoneReady(t) && NoneRt(t) && NoneNormal(t) && s'.t == t
       case Some(i) =>
         && Selected(t, i)
         && s'.t == t[i := if turn.runnable then AfterSlice(t[i]) else t[i].(state := NotRunnable)]
  }

  class Table {
    const procs: array<Proc>
    var boostCounter: nat

    function Now(): Sched
      reads this, procs
    {
      Sched(procs[..], boostCounter)
    }

    constructor (procs: array<Proc>)
      ensures this.procs == procs && boostCounter == 0
    {
      this.procs := procs;
      boostCounter := 0;
    }

    method PriorityBoost()
      modifies procs
      ensures procs[..] == BoostAll(old(procs[..]))
    {
      var i := 0;
      while i < procs.Length
        invariant 0 <= i <= procs.Length
        invariant forall j :: 0 <= j < i ==> procs[j] == Boosted(old(procs[j]))
        invariant forall j :: i <= j < procs.Length ==> procs[j] == old(procs[j])
      {
        if procs[i].state != Unused {
          procs[i] := procs[i].(level := 0, allotment := Quota(0));
        }
        i := i + 1;
      }
    }

    method FindDeadlineProcess() returns (best: Option<nat>)
      ensures best.None? ==> NoneReady(procs[..])
      ensures best.Some? ==> EarliestDeadline(procs[..], best.value)
    {
      best := None;
      var earliest := NO_DEADLINE;
      var i := 0;
      while i < procs.Length
        invariant 0 <= i <= procs.Length
        invariant best.None? ==> earliest == NO_DEADLINE && forall j :: 0 <= j < i ==> !IsReady(procs[j])
        invariant best.Some? ==> best.value < i && IsReady(procs[best.value]) && earliest == procs[best.value].deadline
        invariant best.Some? ==> forall j :: 0 <= j < i && IsReady(procs[j]) ==>
          earliest < procs[j].deadline || (earliest == procs[j].deadline && best.value <= j)
      {
        var p := procs[i];
        if p.state == Runnable && p.policy == Deadline {
          if p.remaining > 0 && p.deadline < earliest {
            best, earliest := Some(i), p.deadline;
          }
        }
        i := i + 1;
      }
    }

    method FindRtProcess() returns (best: Option<nat>)
      ensures best.None? ==> NoneRt(procs[..])
      ensures best.Some? ==> BestRt(procs[..], best.value)
    {
      best := None;
      var bestPriority := -1;
      var i := 0;
      while i < procs.Length
        invariant 0 <= i <= procs.Length
        invariant best.None? ==> bestPriority == -1 && forall j :: 0 <= j < i ==> !IsRt(procs[j])
        invariant best.Some? ==>
          best.value < i && IsRt(procs[best.value]) && bestPriority == procs[best.value].rtPriority
        invariant best.Some? ==> forall j :: 0 <= j < i && IsRt(procs[j]) ==>
          procs[j].rtPriority < bestPriority || (procs[j].rtPriority == bestPriority && best.value <= j)
      {
        var p := procs[i];
        if p.state == Runnable && (p.policy == Fifo || p.policy == RoundRobin) {
          if p.rtPriority > bestPriority {
            best, bestPriority := Some(i), p.rtPriority;
          }
        }
        i := i + 1;
      }
    }

    method FindQueued() returns (selected: Option<nat>)
      ensures selected.None? ==> NoneNormal(procs[..])
      ensures selected.Some? ==> FirstQueued(procs[..], selected.value)
    {
      selected := None;
      var level := 0;
      while level < LEVELS && selected == None
        invariant 0 <= level <= LEVELS
        invariant selected.None? ==> forall j :: 0 <= j < procs.Length && IsNormal(procs[j]) ==> procs[j].level >= level
        invariant selected.Some? ==> FirstQueued(procs[..], selected.value)
      {
        var i := 0;
        while i < procs.Length
          invariant 0 <= i <= procs.Length
          invariant selected.None?
          invariant forall j :: 0 <= j < i ==> !(IsNormal(procs[j]) && procs[j].level == level)
        {
          if procs[i].state == Runnable && procs[i].level == level && procs[i].policy == Normal {
            selected := Some(i);
            break;
          }
          i := i + 1;
        }
        level := level + 1;
      }
    }

    method UpdateDeadlinePeriods(ticks: nat) returns (misses: nat)
      modifies procs
      ensures procs[..] == RenewAll(old(procs[..]), ticks)
      ensures misses == Misses(old(procs[..]), ticks, procs.Length)
    {
      ghost var t := procs[..];
      misses := 0;
      var i := 0;
      while i < procs.Length
        invariant 0 <= i <= procs.Length
        invariant forall j :: 0 <= j < i ==> procs[j] == Renewed(t[j], ticks)
        invariant forall j :: i <= j < procs.Length ==> procs[j] == t[j]
        invariant misses == Misses(t, ticks, i)
      {
        if procs[i].state != Unused && procs[i].policy == Deadline {
          if ticks > procs[i].deadline && procs[i].remaining > 0 {
            misses := misses + 1;
          }
          if ticks >= procs[i].deadline {
            procs[i] := procs[i].(deadline := ticks + procs[i].period, remaining := procs[i].runtime);
          }
        }
        i := i + 1;
      }
    }

    /** One turn of the scheduler's loop; `runnable` says whether the process is runnable when it returns. */
    method Round(ticks: nat, runnable: bool) returns (ran: Option<nat>)
      modifies this, procs
      ensures Took(old(Now()), Turn(ran, runnable, ticks), Now())
    {
      boostCounter := boostCounter + 1;
      if boostCounter >= BOOST_INTERVAL {
        PriorityBoost();
        boostCounter := 0;
      }
      var _ := UpdateDeadlinePeriods(ticks);
      ran := FindDeadlineProcess();
      if ran.None? {
        ran := FindRtProcess();
      }
      if ran.None? {
        ran := FindQueued();
      }
      if ran.Some? {
        var p := procs[ran.value];
        procs[ran.value] := if runnable then AfterSlice(p) else p.(state := NotRunnable);
      }
    }
  }

  // ---- Runs of always-runnable ordinary processes ----

  /** Round `s` to `s'` at time `ticks` ran process `i`, which stayed runnable. */
  ghost predicate Ran(s: Sched, i: nat, s': Sched, ticks: nat) {
    Took(s, Turn(Some(i), true, ticks), s')
  }

  /** Every process in use is an ordinary one and runnable. */
  ghost predicate Steady(t: seq<Proc>) {
    forall i :: 0 <= i < |t| && t[i].state != Unused ==> IsNormal(t[i])
  }

  /** Any run of rounds, with processes of any kind. */
  ghost predicate Rounds(ss: seq<Sched>, picks: seq<nat>, ticks: seq<nat>) {
    && |ss| == |picks| + 1 && |ticks| == |picks|
    && forall k :: 0 <= k < |picks| ==> Ran(ss[k], picks[k], ss[k + 1], ticks[k])
  }

  ghost predicate Run(ss: seq<Sched>, picks: seq<nat>, ticks: seq<nat>) {
    Rounds(ss, picks, ticks) && Steady(ss[0].t)
  }

  /** How many processes in use come before table slot `i`. */
  function Rank(t: seq<Proc>, i: nat): nat
    requires i <= |t|
  {
    if i == 0 then 0 else Rank(t, i - 1) + if t[i - 1].state == Unused then 0 else 1
  }

  function Population(t: seq<Proc>): nat {
    Rank(t, |t|)
  }

  ghost predicate SameUse(t: seq<Proc>, u: seq<Proc>) {
    |t| == |u| && forall i :: 0 <= i < |t| ==> (t[i].state == Unused <==> u[i].state == Unused)
  }

  lemma {:induction false} SameRank(t: seq<Proc>, u: seq<Proc>, i: nat)
    requires SameUse(t, u) && i <= |t|
    ensures Rank(t, i) == Rank(u, i)
  {
    if i > 0 {
      SameRank(t, u, i - 1);
    }
  }

  lemma {:induction false} RankRises(t: seq<Proc>, i: nat, j: nat)
    requires i <= j <= |t|
    ensures Rank(t, i) <= Rank(t, j)
    ensures i < j && t[i].state != Unused ==> Rank(t, i) < Rank(t, j)
  {
    if i < j {
      RankRises(t, i, j - 1);
    }
  }

  lemma {:induction false} AtRank(t: seq<Proc>, r: nat, n: nat) returns (i: nat)
    requires n <= |t| && r < Rank(t, n)
    ensures i < n && t[i].state != Unused && Rank(t, i) == r
  {
    if t[n - 1].state != Unused && Rank(t, n - 1) == r {
      i := n - 1;
    } else {
      i := AtRank(t, r, n - 1);
    }
  }

  /** Slices the process of rank `r` has had after `j` slices in all since a boost, as long as j <= 5 * population. */
  function Served(r: nat, j: nat): nat {
    if j <= 5 * r then 0 else if j >= 5 * r + 5 then 5 else j - 5 * r
  }

  lemma ServedFully(r: nat, j: nat)
    ensures Served(r, j) == 5 <==> r < j / 5
    ensures 0 <= Served(r, j) <= 5
  {}

  lemma NotServedYet(r: nat, j: nat)
    requires j <= 5 * r
    ensures Served(r, j) == 0
  {}

  /** The table `j` slices after a boost: the processes are served five slices each, in table order. */
  ghost predicate Phase(t: seq<Proc>, base: seq<Proc>, j: nat) {
    && SameUse(t, base)
    && Steady(t)
    && forall i :: 0 <= i < |t| && t[i].state != Unused ==> ServedAt(t, base, j, i)
  }

  predicate ServedAt(t: seq<Proc>, base: seq<Proc>, j: nat, i: nat)
    requires i < |t| == |base|
  {
    var n := Served(Rank(t, i), j);
    && t[i].slices == base[i].slices + n
    && t[i].level == (if n == 5 then 1 else 0)
    && t[i].allotment == (if n == 5 then Quota(1) else Quota(0) - n)
  }

  lemma BoostStartsPhase(t: seq<Proc>)
    requires Steady(t)
    ensures Phase(BoostAll(t), t, 0)
  {
    var u := BoostAll(t);
    forall i | 0 <= i < |u| && u[i].state != Unused
      ensures ServedAt(u, t, 0, i)
    {
    }
  }

  /** In a phase the process of rank j / 5 runs next. */
  lemma PhasePick(t: seq<Proc>, base: seq<Proc>, j: nat, i: nat)
    requires Phase(t, base, j) && j < 5 * Population(t) && FirstQueued(t, i)
    ensures Rank(t, i) == j / 5
  {
    hide Rank, Served;
    var m := AtRank(t, j / 5, |t|);
    assert ServedAt(t, base, j, m) && ServedAt(t, base, j, i);
    ServedFully(Rank(t, m), j);
    ServedFully(Rank(t, i), j);
    assert IsNormal(t[m]);
    if i < m {
      RankRises(t, i, m);
    } else {
      RankRises(t, m, i);
    }
  }

  lemma PhaseStep(t: seq<Proc>, base: seq<Proc>, j: nat, i: nat)
    requires Phase(t, base, j) && j < 5 * Population(t) && FirstQueued(t, i)
    ensures Phase(t[i := AfterSlice(t[i])], base, j + 1)
  {
    PhasePick(t, base, j, i);
    var u := t[i := AfterSlice(t[i])];
    forall k | 0 <= k < |u| && u[k].state != Unused
      ensures ServedAt(u, base, j + 1, k)
    {
      SameRank(t, u, k);
      assert ServedAt(t, base, j, k);
      if k < i {
        RankRises(t, k, i);
      } else if i < k {
        RankRises(t, i, k);
      }
    }
  }

  /** The table a round of a steady run selects from. */
  function Current(s: Sched): seq<Proc> {
    if s.counter + 1 >= BOOST_INTERVAL then BoostAll(s.t) else s.t
  }

  lemma SteadyRound(s: Sched, i: nat, s': Sched, ticks: nat)
    requires Steady(s.t) && Ran(s, i, s', ticks)
    ensures FirstQueued(Current(s), i)
    ensures s'.t == Current(s)[i := AfterSlice(Current(s)[i])]
    ensures Steady(s'.t) && SameUse(s'.t, s.t)
    ensures forall k :: 0 <= k < |s.t| ==> s'.t[k].slices == s.t[k].slices + if k == i then 1 else 0
  {
    var u := Current(s);
    assert Steady(u);
    assert RenewAll(u, ticks) == u;
  }

  lemma {:induction false} SteadyRun(ss: seq<Sched>, picks: seq<nat>, ticks: seq<nat>, m: nat, k: nat)
    requires Run(ss, picks, ticks) && m <= k < |ss| && Steady(ss[m].t)
    ensures Steady(ss[k].t) && SameUse(ss[k].t, ss[m].t)
    ensures forall i :: 0 <= i < |ss[m].t| ==> ss[m].t[i].slices <= ss[k].t[i].slices
  {
    if m < k {
      SteadyRun(ss, picks, ticks, m, k - 1);
      assert Ran(ss[k - 1], picks[k - 1], ss[k], ticks[k - 1]);
      SteadyRound(ss[k - 1], picks[k - 1], ss[k], ticks[k - 1]);
    }
  }

  lemma RunSteady(ss: seq<Sched>, picks: seq<nat>, ticks: seq<nat>)
    requires Run(ss, picks, ticks)
    ensures |ss| >= 1 && Steady(ss[0].t)
  {}

  lemma PhaseGains(t: seq<Proc>, base: seq<Proc>, j: nat, i: nat)
    requires Phase(t, base, j) && i < |base| && base[i].state != Unused
    ensures |t| == |base| && Steady(t) && t[i].slices == base[i].slices + Served(Rank(base, i), j)
  {
    SameRank(t, base, i);
    assert ServedAt(t, base, j, i);
  }

  lemma PhasePopulation(t: seq<Proc>, base: seq<Proc>, j: nat)
    requires Phase(t, base, j)
    ensures Population(t) == Population(base)
  {
    SameRank(t, base, |t|);
  }

  /** With a boost due at round `m`, the first five rounds per process serve the table in order. */
  lemma {:induction false} IntervalPhase(ss: seq<Sched>, picks: seq<nat>, ticks: seq<nat>, m: nat, j: nat)
    requires Run(ss, picks, ticks) && m + j < |ss| && Steady(ss[m].t) && ss[m].counter == BOOST_INTERVAL - 1
    requires 1 <= j <= BOOST_INTERVAL && j <= 5 * Population(ss[m].t)
    ensures Phase(ss[m + j].t, ss[m].t, j) && ss[m + j].counter == j - 1
  {
    hide Phase, FirstQueued, BoostAll, Steady, AfterSlice, Selected;
    var s, s', i := ss[m + j - 1], ss[m + j], picks[m + j - 1];
    SteadyRun(ss, picks, ticks, m, m + j - 1);
    assert Ran(s, i, s', ticks[m + j - 1]);
    SteadyRound(s, i, s', ticks[m + j - 1]);
    if j == 1 {
      BoostStartsPhase(s.t);
    } else {
      IntervalPhase(ss, picks, ticks, m, j - 1);
    }
    PhasePopulation(Current(s), ss[m].t, j - 1);
    PhaseStep(Current(s), ss[m].t, j - 1, i);
  }

  /** Bounded waiting: with at most 20 processes, each gets at least five slices between two boosts. */
  lemma BoundedWaiting(ss: seq<Sched>, picks: seq<nat>, ticks: seq<nat>, m: nat, i: nat)
    requires Run(ss, picks, ticks) && m + BOOST_INTERVAL < |ss| && ss[m].counter == BOOST_INTERVAL - 1
    requires Population(ss[0].t) <= 20 && i < |ss[m].t| && ss[m].t[i].state != Unused
    ensures |ss[m + BOOST_INTERVAL].t| == |ss[m].t|
    ensures ss[m + BOOST_INTERVAL].t[i].slices >= ss[m].t[i].slices + 5
  {
    hide Run, Steady, Phase;
    RunSteady(ss, picks, ticks);
    SteadyRun(ss, picks, ticks, 0, m);
    var t := ss[m].t;
    SameRank(t, ss[0].t, |t|);
    RankRises(t, i, |t|);
    var j := 5 * Population(t);
    IntervalPhase(ss, picks, ticks, m, j);
    PhaseGains(ss[m + j].t, t, j, i);
    SteadyRun(ss, picks, ticks, m + j, m + BOOST_INTERVAL);
  }

  /** Starvation: a process with 20 others before it in the table never runs again once a boost has come. */
  lemma {:induction false} Starved(ss: seq<Sched>, picks: seq<nat>, ticks: seq<nat>, m: nat, k: nat, i: nat)
    requires Run(ss, picks, ticks) && m <= k < |ss| && Steady(ss[m].t) && ss[m].counter == BOOST_INTERVAL - 1
    requires i < |ss[m].t| && ss[m].t[i].state != Unused && Rank(ss[m].t, i) >= 20
    ensures |ss[k].t| == |ss[m].t| && ss[k].t[i].slices == ss[m].t[i].slices
    decreases k - m
  {
    hide Run, ServedAt, Served, Rank, Steady;
    var t := ss[m].t;
    RankRises(t, i, |t|);
    var j := if k - m <= BOOST_INTERVAL then k - m else BOOST_INTERVAL;
    if j > 0 {
      IntervalPhase(ss, picks, ticks, m, j);
      PhaseGains(ss[m + j].t, t, j, i);
      NotServedYet(Rank(t, i), j);
      SameRank(ss[m + j].t, t, i);
    }
    if k - m > BOOST_INTERVAL {
      Starved(ss, picks, ticks, m + BOOST_INTERVAL, k, i);
    }
  }

  /** Every process gets five slices between two boosts if and only if there are at most 20 of them. */
  lemma FairExactlyUpToTwenty(ss: seq<Sched>, picks: seq<nat>, ticks: seq<nat>, m: nat)
    requires Run(ss, picks, ticks) && m + BOOST_INTERVAL < |ss| && ss[m].counter == BOOST_INTERVAL - 1
    ensures |ss[m + BOOST_INTERVAL].t| == |ss[m].t|
    ensures Population(ss[0].t) <= 20 <==>
      forall i :: 0 <= i < |ss[m].t| && ss[m].t[i].state != Unused ==>
        ss[m + BOOST_INTERVAL].t[i].slices >= ss[m].t[i].slices + 5
  {
    SteadyRun(ss, picks, ticks, 0, m);
    SteadyRun(ss, picks, ticks, m, m + BOOST_INTERVAL);
    SameRank(ss[m].t, ss[0].t, |ss[m].t|);
    if Population(ss[0].t) <= 20 {
      forall i | 0 <= i < |ss[m].t| && ss[m].t[i].state != Unused
        ensures ss[m + BOOST_INTERVAL].t[i].slices >= ss[m].t[i].slices + 5
      {
        BoundedWaiting(ss, picks, ticks, m, i);
      }
    } else {
      var i := AtRank(ss[m].t, 20, |ss[m].t|);
      Starved(ss, picks, ticks, m, m + BOOST_INTERVAL, i);
    }
  }

  // ---- Levels and allotments between boosts ----

  /** Below the last level a process has between one slice and the level's quota left. */
  predicate WithinQuota(p: Proc) {
    p.level < LEVELS && (p.level < LEVELS - 1 ==> 1 <= p.allotment <= Quota(p.level))
  }

  /** How many slices the level and the allotment left say a process has had since it was boosted. */
  function Spent(p: Proc): int
    requires p.level < LEVELS
  {
    [0, 5, 15, 35][p.level] + Quota(p.level) - p.allotment
  }

  /** A turn keeps every process within its quota; without a boost, levels only rise, and every slice is spent. */
  lemma TurnKeepsQuota(s: Sched, turn: Turn, s': Sched, k: nat)
    requires Took(s, turn, s') && k < |s.t| && s.t[k].state != Unused && WithinQuota(s.t[k])
    ensures |s'.t| == |s.t| && s'.t[k].state != Unused && WithinQuota(s'.t[k])
    ensures s.counter + 1 < BOOST_INTERVAL ==> s.t[k].level <= s'.t[k].level
    ensures s.counter + 1 < BOOST_INTERVAL && s.t[k].policy == Normal ==>
      Spent(s'.t[k]) - Spent(s.t[k]) == s'.t[k].slices - s.t[k].slices
    ensures s.counter + 1 >= BOOST_INTERVAL && s.t[k].policy == Normal ==>
      Spent(s'.t[k]) == s'.t[k].slices - s.t[k].slices
  {}

  // ---- Runs with processes that sleep, wake, come and go ----

  /** A process as allocproc makes it. */
  predicate IsNew(p: Proc) {
    p.state != Unused && p.level == 0 && p.allotment == Quota(0) && p.slices == 0
  }

  /** The process stays; it may wake or sleep, and its policy may change. */
  predicate Stays(p: Proc, q: Proc) {
    && p.state != Unused && q.state != Unused
    && q.level == p.level && q.allotment == p.allotment && q.slices == p.slices
  }

  /** What may happen to the table between two turns: a process stays, ends, or a new one takes the slot. */
  ghost predicate Between(t: seq<Proc>, u: seq<Proc>) {
    |u| == |t| && forall k :: 0 <= k < |t| ==> u[k].state == Unused || IsNew(u[k]) || Stays(t[k], u[k])
  }

  /** Any run of turns: from state `ss[k]`, events lead to table `mids[k]`, and turn k starts there. */
  ghost predicate Turns(ss: seq<Sched>, mids: seq<seq<Proc>>, turns: seq<Turn>) {
    && |ss| == |turns| + 1 && |mids| == |turns|
    && forall k :: 0 <= k < |turns| ==>
         Between(ss[k].t, mids[k]) && Took(Sched(mids[k], ss[k].counter), turns[k], ss[k + 1])
  }

  ghost predicate AllWithin(t: seq<Proc>) {
    forall k :: 0 <= k < |t| && t[k].state != Unused ==> WithinQuota(t[k])
  }

  /** In every state of every run every process is within its quota. */
  lemma {:induction false} RunKeepsQuota(ss: seq<Sched>, mids: seq<seq<Proc>>, turns: seq<Turn>, n: nat)
    requires Turns(ss, mids, turns) && n < |ss| && AllWithin(ss[0].t)
    ensures |ss[n].t| == |ss[0].t| && AllWithin(ss[n].t)
    ensures n > 0 ==> |mids[n - 1]| == |ss[0].t| && AllWithin(mids[n - 1])
  {
    hide WithinQuota, Selected, AfterSlice, BoostAll, RenewAll, Took;
    if n > 0 {
      RunKeepsQuota(ss, mids, turns, n - 1);
      NewWithin(ss[n - 1].t, mids[n - 1]);
      TurnWithin(Sched(mids[n - 1], ss[n - 1].counter), turns[n - 1], ss[n]);
    }
  }

  lemma NewWithin(t: seq<Proc>, u: seq<Proc>)
    requires Between(t, u) && AllWithin(t)
    ensures AllWithin(u)
  {}

  lemma TurnSlots(s: Sched, turn: Turn, s': Sched)
    requires Took(s, turn, s')
    ensures |s'.t| == |s.t| && forall k :: 0 <= k < |s.t| ==> (s'.t[k].state == Unused <==> s.t[k].state == Unused)
  {}

  lemma TurnWithin(s: Sched, turn: Turn, s': Sched)
    requires Took(s, turn, s') && AllWithin(s.t)
    ensures |s'.t| == |s.t| && AllWithin(s'.t)
  {
    hide WithinQuota, Took;
    TurnSlots(s, turn, s');
    forall k | 0 <= k < |s.t| && s'.t[k].state != Unused
      ensures WithinQuota(s'.t[k])
    {
      TurnKeepsQuota(s, turn, s', k);
    }
  }

  /** The process in slot `k` is the same, and an ordinary one, in turns m to n - 1. */
  ghost predicate Present(ss: seq<Sched>, mids: seq<seq<Proc>>, m: nat, n: nat, k: nat) {
    forall j :: m <= j < n && j < |ss| && j < |mids| ==>
      k < |ss[j].t| && k < |mids[j]| && Stays(ss[j].t[k], mids[j][k]) && mids[j][k].policy == Normal
  }

  /** As long as no boost comes the level of a process only rises, and its quotas are spent slice by slice. */
  lemma {:induction false} SpentBySlices(ss: seq<Sched>, mids: seq<seq<Proc>>, turns: seq<Turn>, m: nat, n: nat, k: nat)
    requires Turns(ss, mids, turns) && m <= n < |ss| && ss[m].counter + (n - m) < BOOST_INTERVAL
    requires k < |ss[m].t| && ss[m].t[k].state != Unused && WithinQuota(ss[m].t[k]) && Present(ss, mids, m, n, k)
    ensures |ss[n].t| == |ss[m].t| && ss[n].counter == ss[m].counter + (n - m)
    ensures ss[n].t[k].state != Unused && WithinQuota(ss[n].t[k]) && ss[m].t[k].level <= ss[n].t[k].level
    ensures Spent(ss[n].t[k]) - Spent(ss[m].t[k]) == ss[n].t[k].slices - ss[m].t[k].slices
  {
    hide Selected, AfterSlice, BoostAll, RenewAll;
    if m < n {
      SpentBySlices(ss, mids, turns, m, n - 1, k);
      var s := Sched(mids[n - 1], ss[n - 1].counter);
      assert Stays(ss[n - 1].t[k], s.t[k]) && Took(s, turns[n - 1], ss[n]);
      TurnKeepsQuota(s, turns[n - 1], ss[n], k);
    }
  }

  /**
   From a boost to the next, the level and allotment of an ordinary process are those its
   slices since the boost have used up: 5 on level 0, 10 on level 1, 20 on level 2.
   */
  lemma SpentSinceBoost(ss: seq<Sched>, mids: seq<seq<Proc>>, turns: seq<Turn>, m: nat, n: nat, k: nat)
    requires Turns(ss, mids, turns) && m < n < |ss| && n <= m + BOOST_INTERVAL && ss[m].counter + 1 >= BOOST_INTERVAL
    requires k < |ss[m].t| && ss[m].t[k].state != Unused && WithinQuota(ss[m].t[k]) && Present(ss, mids, m, n, k)
    ensures |ss[n].t| == |ss[m].t| && WithinQuota(ss[n].t[k])
    ensures Spent(ss[n].t[k]) == ss[n].t[k].slices - ss[m].t[k].slices
  {
    hide Selected, AfterSlice, BoostAll, RenewAll;
    var s := Sched(mids[m], ss[m].counter);
    assert Stays(ss[m].t[k], s.t[k]) && Took(s, turns[m], ss[m + 1]);
    TurnKeepsQuota(s, turns[m], ss[m + 1], k);
    SpentBySlices(ss, mids, turns, m + 1, n, k);
  }

  /** The same holds from its arrival on for a process that came since the boost. */
  lemma SpentSinceArrival(ss: seq<Sched>, mids: seq<seq<Proc>>, turns: seq<Turn>, m: nat, n: nat, k: nat)
    requires Turns(ss, mids, turns) && m < n < |ss| && ss[m].counter + (n - m) < BOOST_INTERVAL
    requires k < |mids[m]| && IsNew(mids[m][k]) && mids[m][k].policy == Normal && Present(ss, mids, m + 1, n, k)
    ensures |ss[n].t| == |mids[m]| && WithinQuota(ss[n].t[k]) && Spent(ss[n].t[k]) == ss[n].t[k].slices
  {
    hide Selected, AfterSlice, BoostAll, RenewAll;
    var s := Sched(mids[m], ss[m].counter);
    assert Took(s, turns[m], ss[m + 1]);
    TurnKeepsQuota(s, turns[m], ss[m + 1], k);
    SpentBySlices(ss, mids, turns, m + 1, n, k);
  }

  // ---- The order of the classes ----

  /** A deadline process that may run in this turn: it has budget left, or gets a new one. */
  predicate MayRun(p: Proc, ticks: nat) {
    && p.state == Runnable && p.policy == Deadline
    && if ticks >= p.deadline then p.runtime > 0 && ticks + p.period < NO_DEADLINE
       else p.remaining > 0 && p.deadline < NO_DEADLINE
  }

  /** While a deadline process may run, the one that runs is such a process, of earliest deadline. */
  lemma DeadlineFirst(s: Sched, turn: Turn, s': Sched, k: nat)
    requires Took(s, turn, s') && k < |s.t| && MayRun(s.t[k], turn.ticks)
    ensures turn.ran.Some? && turn.ran.value < |s.t| == |s'.t|
    ensures s.t[turn.ran.value].policy == Deadline && s'.t[turn.ran.value].deadline <= s'.t[k].deadline
  {
    var t := Prepared(s.t, s.counter, turn.ticks);
    assert IsReady(t[k]);
  }

  /** While a real-time process is runnable, no ordinary one runs, and no real-time one of lower priority. */
  lemma RealTimeNext(s: Sched, turn: Turn, s': Sched, k: nat)
    requires Took(s, turn, s') && k < |s.t| && IsRt(s.t[k])
    ensures turn.ran.Some? && turn.ran.value < |s.t|
    ensures var p := s.t[turn.ran.value];
      p.policy == Deadline || (IsRt(p) && p.rtPriority >= s.t[k].rtPriority)
  {
    var t := Prepared(s.t, s.counter, turn.ticks);
    assert IsRt(t[k]);
  }

  /** Without those, the ordinary process of the highest queue that is first in the table runs, if any is runnable. */
  lemma QueuesLast(s: Sched, turn: Turn, s': Sched, k: nat)
    requires Took(s, turn, s') && k < |s.t| && IsNormal(s.t[k]) && s.counter + 1 < BOOST_INTERVAL
    requires forall j :: 0 <= j < |s.t| ==> !IsRt(s.t[j]) && !MayRun(s.t[j], turn.ticks)
    ensures turn.ran.Some? && turn.ran.value < |s.t|
    ensures var i := turn.ran.value;
      IsNormal(s.t[i]) && (s.t[i].level < s.t[k].level || (s.t[i].level == s.t[k].level && i <= k))
  {
    var t := Prepared(s.t, s.counter, turn.ticks);
    assert forall j :: 0 <= j < |t| ==>
      (IsRt(t[j]) <==> IsRt(s.t[j])) && (IsReady(t[j]) <==> MayRun(s.t[j], turn.ticks));
    assert IsNormal(t[k]);
  }

  // ---- Deadline processes ----

  /** The process stays a deadline process with the same parameters; it may wake or sleep. */
  predicate StaysDeadline(p: Proc, q: Proc) {
    && p.state != Unused && q.state != Unused && q.policy == Deadline
    && q.deadline == p.deadline && q.period == p.period && q.runtime == p.runtime
    && q.remaining == p.remaining && q.slices == p.slices
  }

  ghost predicate DeadlinePresent(ss: seq<Sched>, mids: seq<seq<Proc>>, m: nat, n: nat, k: nat) {
    forall j :: m <= j < n && j < |ss| && j < |mids| ==>
      k < |ss[j].t| && k < |mids[j]| && StaysDeadline(ss[j].t[k], mids[j][k])
  }

  /** In how many of the turns m to n - 1 process `k` ran and came back runnable. */
  function Charged(turns: seq<Turn>, m: nat, n: nat, k: nat): nat
    requires m <= n <= |turns|
  {
    if m == n then 0
    else Charged(turns, m, n - 1, k) + if turns[n - 1].ran == Some(k) && turns[n - 1].runnable then 1 else 0
  }

  /** In how many of them a new period of process `k` began: the time had come to its deadline. */
  ghost function Renewals(mids: seq<seq<Proc>>, turns: seq<Turn>, m: nat, n: nat, k: nat): nat
    requires m <= n <= |turns| == |mids|
  {
    if m == n then 0
    else
      Renewals(mids, turns, m, n - 1, k) +
      if k < |mids[n - 1]| && turns[n - 1].ticks >= mids[n - 1][k].deadline then 1 else 0
  }

  /**
   One turn of a deadline process. Before its deadline only a slice takes from its budget; at
   the deadline it has a whole budget, less the slice, until one period from now.
   */
  lemma DeadlineTurn(s: Sched, turn: Turn, s': Sched, k: nat)
    requires Took(s, turn, s') && k < |s.t| && s.t[k].state != Unused && s.t[k].policy == Deadline
    ensures |s'.t| == |s.t| && s'.t[k].state != Unused && s'.t[k].policy == Deadline
    ensures s'.t[k].period == s.t[k].period && s'.t[k].runtime == s.t[k].runtime
    ensures
      var slice := if turn.ran == Some(k) && turn.runnable then 1 else 0;
      var renewed := turn.ticks >= s.t[k].deadline;
      && s'.t[k].slices == s.t[k].slices + slice
      && s'.t[k].remaining + slice == (if renewed then s.t[k].runtime else s.t[k].remaining)
      && s'.t[k].deadline == if renewed then turn.ticks + s.t[k].period else s.t[k].deadline
  {}

  /** Until its next period every slice of a deadline process comes off its budget, and nothing else does. */
  lemma {:induction false} BudgetBySlices(ss: seq<Sched>, mids: seq<seq<Proc>>, turns: seq<Turn>, m: nat, n: nat,
                                          k: nat)
    requires Turns(ss, mids, turns) && m <= n < |ss| && DeadlinePresent(ss, mids, m, n, k)
    requires k < |ss[m].t| && ss[m].t[k].state != Unused && (m == n ==> ss[m].t[k].policy == Deadline)
    requires forall j :: m <= j < n ==> turns[j].ticks < ss[m].t[k].deadline
    ensures |ss[n].t| == |ss[m].t| && ss[n].t[k].state != Unused && ss[n].t[k].policy == Deadline
    ensures ss[n].t[k].deadline == ss[m].t[k].deadline
    ensures ss[n].t[k].remaining + Charged(turns, m, n, k) == ss[m].t[k].remaining
    ensures ss[n].t[k].slices == ss[m].t[k].slices + Charged(turns, m, n, k)
  {
    hide Took, Selected;
    if m < n {
      var s := Sched(mids[n - 1], ss[n - 1].counter);
      assert StaysDeadline(ss[n - 1].t[k], s.t[k]) by { assert n - 1 < |mids|; }
      if m < n - 1 {
        BudgetBySlices(ss, mids, turns, m, n - 1, k);
      }
      assert Took(s, turns[n - 1], ss[n]);
      DeadlineTurn(s, turns[n - 1], ss[n], k);
    }
  }

  /** In one period a deadline process is charged at most its runtime, and what is left of it is left. */
  lemma BudgetOfAPeriod(ss: seq<Sched>, mids: seq<seq<Proc>>, turns: seq<Turn>, m: nat, n: nat, k: nat)
    requires Turns(ss, mids, turns) && m < n < |ss| && DeadlinePresent(ss, mids, m, n, k)
    requires k < |ss[m].t| && turns[m].ticks >= ss[m].t[k].deadline
    requires forall j :: m < j < n ==> turns[j].ticks < turns[m].ticks + ss[m].t[k].period
    ensures |ss[n].t| == |ss[m].t| && ss[n].t[k].deadline == turns[m].ticks + ss[m].t[k].period
    ensures ss[n].t[k].remaining + Charged(turns, m, n, k) == ss[m].t[k].runtime
  {
    hide Took, Selected;
    var s := Sched(mids[m], ss[m].counter);
    assert StaysDeadline(ss[m].t[k], s.t[k]) by { assert m < |mids|; }
    assert Took(s, turns[m], ss[m + 1]);
    DeadlineTurn(s, turns[m], ss[m + 1], k);
    BudgetBySlices(ss, mids, turns, m + 1, n, k);
    ChargedFrom(turns, m, n, k);
  }

  lemma {:induction false} ChargedFrom(turns: seq<Turn>, m: nat, n: nat, k: nat)
    requires m < n <= |turns|
    ensures Charged(turns, m, n, k) == Charged(turns, m, m + 1, k) + Charged(turns, m + 1, n, k)
  {
    if m + 1 < n {
      ChargedFrom(turns, m, n - 1, k);
    }
  }

  /**
   The bandwidth of a deadline process over any run, however often its period ends: it is
   charged at most what it had left and one runtime for each new period, and each of those
   puts its deadline off by a period at least.
   */
  lemma {:induction false} Bandwidth(ss: seq<Sched>, mids: seq<seq<Proc>>, turns: seq<Turn>, m: nat, n: nat, k: nat)
    requires Turns(ss, mids, turns) && m <= n < |ss| && DeadlinePresent(ss, mids, m, n, k)
    requires k < |ss[m].t| && ss[m].t[k].state != Unused && (m == n ==> ss[m].t[k].policy == Deadline)
    ensures |ss[n].t| == |ss[m].t| && ss[n].t[k].state != Unused && ss[n].t[k].policy == Deadline
    ensures ss[n].t[k].runtime == ss[m].t[k].runtime && ss[n].t[k].period == ss[m].t[k].period
    ensures
      var r := Renewals(mids, turns, m, n, k);
      && Charged(turns, m, n, k) + ss[n].t[k].remaining <= ss[m].t[k].remaining + r * ss[m].t[k].runtime
      && ss[n].t[k].deadline >= ss[m].t[k].deadline + r * ss[m].t[k].period
  {
    hide Took, Selected;
    if m < n {
      var s := Sched(mids[n - 1], ss[n - 1].counter);
      assert StaysDeadline(ss[n - 1].t[k], s.t[k]) by { assert n - 1 < |mids|; }
      if m < n - 1 {
        Bandwidth(ss, mids, turns, m, n - 1, k);
      }
      assert Took(s, turns[n - 1], ss[n]);
      DeadlineTurn(s, turns[n - 1], ss[n], k);
      var r, before := Renewals(mids, turns, m, n, k), Renewals(mids, turns, m, n - 1, k);
      if r != before {
        OneTimesMore(before, ss[m].t[k].runtime);
        OneTimesMore(before, ss[m].t[k].period);
      }
    }
  }

  lemma OneTimesMore(r: nat, x: nat)
    ensures (r + 1) * x == r * x + x
  {}

  /**
   A slice that ends asleep is not charged: a deadline process with a runtime of one that
   sleeps at the end of each slice and is woken at once has every turn of its period.
   */
  lemma SleeperIsNotCharged(n: nat) returns (ss: seq<Sched>, mids: seq<seq<Proc>>, turns: seq<Turn>)
    ensures Turns(ss, mids, turns) && |turns| == n && |ss[0].t| == 1 && ss[0].t[0].runtime == 1
    ensures DeadlinePresent(ss, mids, 0, n, 0) && forall j :: 0 <= j < n ==> turns[j].ticks < ss[0].t[0].deadline
    ensures forall j :: 0 <= j < n ==> turns[j].ran == Some(0)
    ensures Charged(turns, 0, n, 0) == 0
  {
    var q := Proc(NotRunnable, Deadline, 0, Quota(0), 0, 1, 1, 1, 1, 0);
    var p := q.(state := Runnable);
    ss := seq(n + 1, i => Sched([q], i % BOOST_INTERVAL));
    mids := seq(n, _ => [p]);
    turns := seq(n, _ => Turn(Some(0), false, 0));
    forall j | 0 <= j < n
      ensures Took(Sched(mids[j], ss[j].counter), turns[j], ss[j + 1]) && Between(ss[j].t, mids[j])
    {
      assert EarliestDeadline(Prepared([p], ss[j].counter, 0), 0);
    }
    NoneCharged(turns, n, 0);
  }

  /** In how many of the turns m to n - 1 process `k` ran. */
  function Given(turns: seq<Turn>, m: nat, n: nat, k: nat): nat
    requires m <= n <= |turns|
  {
    if m == n then 0 else Given(turns, m, n - 1, k) + if turns[n - 1].ran == Some(k) then 1 else 0
  }

  /** The turns a process is given are those it is charged for, exactly if it never ends one asleep. */
  lemma {:induction false} ChargedForAll(turns: seq<Turn>, m: nat, n: nat, k: nat)
    requires m <= n <= |turns|
    ensures Charged(turns, m, n, k) <= Given(turns, m, n, k)
    ensures Charged(turns, m, n, k) == Given(turns, m, n, k) <==>
      forall j :: m <= j < n && turns[j].ran == Some(k) ==> turns[j].runnable
  {
    if m < n {
      ChargedForAll(turns, m, n - 1, k);
    }
  }

  lemma {:induction false} NoneCharged(turns: seq<Turn>, n: nat, k: nat)
    requires n <= |turns| && forall j :: 0 <= j < n ==> !turns[j].runnable
    ensures Charged(turns, 0, n, k) == 0
  {
    if n > 0 {
      NoneCharged(turns, n - 1, k);
    }
  }

  // ---- Real-time processes ----

  /** A turn gives a real-time process a slice or nothing; but for a boost all else about it stays. */
  lemma RtTurn(s: Sched, turn: Turn, s': Sched, k: nat)
    requires Took(s, turn, s') && k < |s.t| && s.t[k].state != Unused
    requires s.t[k].policy == Fifo || s.t[k].policy == RoundRobin
    ensures |s'.t| == |s.t|
    ensures
      var p, q := s.t[k], s'.t[k];
      && q.policy == p.policy && q.rtPriority == p.rtPriority
      && q.deadline == p.deadline && q.period == p.period && q.runtime == p.runtime && q.remaining == p.remaining
      && q.slices == p.slices + (if turn.ran == Some(k) && turn.runnable then 1 else 0)
      && q.state == (if turn.ran == Some(k) && !turn.runnable then NotRunnable else p.state)
      && (s.counter + 1 < BOOST_INTERVAL ==> q.level == p.level && q.allotment == p.allotment)
  {}

  /** Every process in use is a real-time one and runnable. */
  ghost predicate AllRt(t: seq<Proc>) {
    forall i :: 0 <= i < |t| && t[i].state != Unused ==> IsRt(t[i])
  }

  ghost predicate SameRt(t: seq<Proc>, t': seq<Proc>) {
    && |t'| == |t|
    && forall i :: 0 <= i < |t| ==>
         t'[i].state == t[i].state && t'[i].policy == t[i].policy && t'[i].rtPriority == t[i].rtPriority
  }

  lemma RtRound(s: Sched, i: nat, s': Sched, ticks: nat)
    requires Ran(s, i, s', ticks) && AllRt(s.t)
    ensures SameRt(s.t, s'.t) && BestRt(s.t, i)
  {
    var t := Prepared(s.t, s.counter, ticks);
    assert forall j :: 0 <= j < |t| ==>
        t[j].state == s.t[j].state && t[j].policy == s.t[j].policy && t[j].rtPriority == s.t[j].rtPriority;
    assert NoneReady(t) && IsRt(t[i]);
    assert BestRt(t, i);
    assert forall j :: 0 <= j < |t| ==> (IsRt(t[j]) <==> IsRt(s.t[j]));
  }

  lemma {:induction false} RtRounds(ss: seq<Sched>, picks: seq<nat>, ticks: seq<nat>, n: nat)
    requires Rounds(ss, picks, ticks) && n < |ss| && AllRt(ss[0].t)
    ensures SameRt(ss[0].t, ss[n].t) && AllRt(ss[n].t)
  {
    hide Ran, BestRt;
    if n > 0 {
      RtRounds(ss, picks, ticks, n - 1);
      assert Ran(ss[n - 1], picks[n - 1], ss[n], ticks[n - 1]);
      RtRound(ss[n - 1], picks[n - 1], ss[n], ticks[n - 1]);
    }
  }

  /** Of always-runnable real-time processes every round runs the same one, round-robin or not. */
  lemma RtNeverRotates(ss: seq<Sched>, picks: seq<nat>, ticks: seq<nat>, n: nat)
    requires Rounds(ss, picks, ticks) && n < |picks| && AllRt(ss[0].t)
    ensures BestRt(ss[0].t, picks[n])
  {
    RtRounds(ss, picks, ticks, n);
    assert Ran(ss[n], picks[n], ss[n + 1], ticks[n]);
    RtRound(ss[n], picks[n], ss[n + 1], ticks[n]);
  }

  /** Two round-robin processes of the same priority, and rounds as many as one likes: only the first runs. */
  lemma SecondOfTwo(n: nat) returns (ss: seq<Sched>, picks: seq<nat>, ticks: seq<nat>)
    ensures Rounds(ss, picks, ticks) && |picks| == n && AllRt(ss[0].t)
    ensures |ss[0].t| == 2 && forall i :: 0 <= i < 2 ==> ss[0].t[i].policy == RoundRobin && TopRt(ss[0].t, i)
    ensures forall k :: 0 <= k < n ==> picks[k] == 0
  {
    var p := Proc(Runnable, RoundRobin, 0, Quota(0), 50, 0, 0, 0, 0, 0);
    ss := seq(n + 1, i requires i >= 0 => Sched([p.(slices := i), p], i % BOOST_INTERVAL));
    picks, ticks := seq(n, _ => 0), seq(n, _ => 0);
    forall k | 0 <= k < n
      ensures Ran(ss[k], picks[k], ss[k + 1], ticks[k])
    {
      var t := Prepared(ss[k].t, ss[k].counter, 0);
      assert t == [p.(slices := k), p];
      assert NoneReady(t) && BestRt(t, 0);
      assert t[0 := AfterSlice(t[0])] == ss[k + 1].t;
    }
  }

  predicate TopRt(t: seq<Proc>, i: nat) {
    i < |t| && IsRt(t[i]) && forall j :: 0 <= j < |t| && IsRt(t[j]) ==> t[j].rtPriority <= t[i].rtPriority
  }

  /**
   Round-robin processes of the highest priority take turns if and only if there is but one of
   them: in any run of always-runnable ones, all of them run exactly if no two are equal.
   */
  lemma TakeTurnsOnlyAlone(ss: seq<Sched>, picks: seq<nat>, ticks: seq<nat>)
    requires Rounds(ss, picks, ticks) && |picks| > 0 && AllRt(ss[0].t)
    ensures (forall i :: TopRt(ss[0].t, i) ==> i in picks) <==>
      (forall i, j :: TopRt(ss[0].t, i) && TopRt(ss[0].t, j) ==> i == j)
  {
    var t := ss[0].t;
    RtNeverRotates(ss, picks, ticks, 0);
    assert TopRt(t, picks[0]);
    forall i | i in picks
      ensures i == picks[0]
    {
      var n :| 0 <= n < |picks| && picks[n] == i;
      RtNeverRotates(ss, picks, ticks, n);
    }
  }

  // ---- There are such runs ----

  lemma {:induction false} SomeQueued(t: seq<Proc>, n: nat) returns (i: nat)
    requires n <= |t| && Steady(t) && exists k :: 0 <= k < n && t[k].state != Unused
    ensures i < n && IsNormal(t[i])
    ensures forall j :: 0 <= j < n && IsNormal(t[j]) ==> t[i].level < t[j].level || (t[i].level == t[j].level && i <= j)
  {
    if exists k :: 0 <= k < n - 1 && t[k].state != Unused {
      i := SomeQueued(t, n - 1);
      if t[n - 1].state != Unused && t[n - 1].level < t[i].level {
        i := n - 1;
      }
    } else {
      i := n - 1;
    }
  }

  /** A steady table with a process in it has runs of any length. */
  lemma {:induction false} SteadyRuns(s: Sched, n: nat) returns (ss: seq<Sched>, picks: seq<nat>, ticks: seq<nat>)
    requires Steady(s.t) && Population(s.t) > 0
    ensures Run(ss, picks, ticks) && ss[0] == s && |picks| == n
  {
    if n == 0 {
      ss, picks, ticks := [s], [], [];
    } else {
      ss, picks, ticks := SteadyRuns(s, n - 1);
      SteadyRun(ss, picks, ticks, 0, n - 1);
      var last := ss[n - 1];
      SameRank(last.t, s.t, |s.t|);
      var i, next := SteadyNext(last);
      ss, picks, ticks := MoreRounds(ss, picks, ticks, i, next);
    }
  }

  lemma SteadyNext(s: Sched) returns (i: nat, s': Sched)
    requires Steady(s.t) && Population(s.t) > 0
    ensures Ran(s, i, s', 0)
  {
    var u := Current(s);
    assert Steady(u);
    assert RenewAll(u, 0) == u;
    var k := AtRank(s.t, 0, |s.t|);
    assert u[k].state != Unused;
    i := SomeQueued(u, |u|);
    s' := Sched(u[i := AfterSlice(u[i])], if s.counter + 1 >= BOOST_INTERVAL then 0 else s.counter + 1);
  }

  lemma MoreRounds(ss: seq<Sched>, picks: seq<nat>, ticks: seq<nat>, i: nat, s': Sched)
    returns (ss': seq<Sched>, picks': seq<nat>, ticks': seq<nat>)
    requires Run(ss, picks, ticks) && Ran(ss[|picks|], i, s', 0)
    ensures Run(ss', picks', ticks') && ss'[0] == ss[0] && |picks'| == |picks| + 1
  {
    hide Ran, Steady;
    ss', picks', ticks' := ss + [s'], picks + [i], ticks + [0];
    forall k | 0 <= k < |picks'|
      ensures Ran(ss'[k], picks'[k], ss'[k + 1], ticks'[k])
    {
      if k < |picks| {
        assert Ran(ss[k], picks[k], ss[k + 1], ticks[k]);
      }
    }
  }

  /** Twenty-one always-runnable processes, and rounds as many as one likes: the last one never runs. */
  lemma LastOfTwentyOne(n: nat) returns (ss: seq<Sched>, picks: seq<nat>, ticks: seq<nat>)
    ensures Run(ss, picks, ticks) && |picks| == n && Population(ss[0].t) == 21
    ensures forall k :: 0 <= k < |ss| ==> |ss[k].t| == 21 && ss[k].t[20].state == Runnable && ss[k].t[20].slices == 0
  {
    hide Rank;
    var p := Proc(Runnable, Normal, 0, Quota(0), -1, 0, 0, 0, 0, 0);
    var t := seq(21, _ => p);
    FullTable(t, 21);
    FullTable(t, 20);
    ss, picks, ticks := SteadyRuns(Sched(t, BOOST_INTERVAL - 1), n);
    forall k | 0 <= k < |ss|
      ensures |ss[k].t| == 21 && ss[k].t[20].state == Runnable && ss[k].t[20].slices == 0
    {
      Starved(ss, picks, ticks, 0, k, 20);
      SteadyRun(ss, picks, ticks, 0, k);
    }
  }

  lemma {:induction false} FullTable(t: seq<Proc>, n: nat)
    requires n <= |t| && forall i :: 0 <= i < |t| ==> t[i].state != Unused
    ensures Rank(t, n) == n
  {
    if n > 0 {
      FullTable(t, n - 1);
    }
  }
}
