/**
 One sleep lock used by any number of processes, over all interleavings.

 A step is one action between two points where another processor may act: taking
 or releasing a spin lock, or what is done under one. `spin` is the spin lock
 inside the sleep lock, `plock[p]` is p->lock. The scheduler takes and releases
 p->lock on behalf of a process that goes to sleep or resumes, and kill() may
 wake any sleeper at any time.
 */
module SleepLock {
  import opened Common

  datatype RunState = Running | Runnable | Sleeping
  datatype Chan = NoChan | OnLock

  /** Where a process is in acquiresleep, sleep, releasesleep or wakeup. */
  datatype Pc =
    | Idle                  // does not use the lock
    | WantSpin              // acquiresleep: acquire(&lk->lk)
    | Test                  // the loop test, holding the spin lock
    | WantSelf              // sleep: acquire(&p->lock), still holding the spin lock
    | DropSpin              // sleep: release(lk), holding both
    | SetSleep              // sleep: set chan and state, holding p->lock
    | Switch                // sched: the scheduler is about to release p->lock
    | Asleep                // off the processor until it is made runnable and scheduled
    | Resume                // back from sched, holding p->lock
    | Take                  // loop left: set locked and pid, holding the spin lock
    | Taken                 // release(&lk->lk)
    | Holder                // acquiresleep has returned
    | WantRelease           // releasesleep: acquire(&lk->lk)
    | Clear                 // clear locked and pid, holding the spin lock
    | Scan(i: nat)          // wakeup: acquire(&proc[i].lock)
    | Wake(i: nat)          // wakeup: test and wake process i, holding its lock
    | Done                  // release(&lk->lk)

  datatype Proc = Proc(pc: Pc, state: RunState, chan: Chan)

  datatype State = State(procs: seq<Proc>, spin: Option<nat>, plock: seq<Option<nat>>, locked: bool, pid: Option<nat>)

  // ---- Steps ----

  datatype Step = Advance(p: nat) | Schedule(p: nat) | Kill(p: nat)

  function Goto(s: State, p: nat, pc: Pc): State
    requires p < |s.procs|
  {
    s.(procs := s.procs[p := s.procs[p].(pc := pc)])
  }

  /** The next action of process `p`, if it is on a processor and not waiting for a spin lock. */
  predicate Advance(s: State, p: nat, s': State)
    requires |s.plock| == |s.procs|
  {
    && p < |s.procs|
    && match s.procs[p].pc
       case Idle => s' == Goto(s, p, WantSpin)
       case WantSpin => s.spin == None && s' == Goto(s, p, Test).(spin := Some(p))
       case Test => s' == Goto(s, p, if s.locked then WantSelf else Take)
       case WantSelf => s.plock[p] == None && s' == Goto(s, p, DropSpin).(plock := s.plock[p := Some(p)])
       case DropSpin => s' == Goto(s, p, SetSleep).(spin := None)
       case SetSleep => s' == s.(procs := s.procs[p := Proc(Switch, Sleeping, OnLock)])
       case Switch => s' == Goto(s, p, Asleep).(plock := s.plock[p := None])
       case Asleep => false
       case Resume =>
         s' == s.(procs := s.procs[p := s.procs[p].(pc := WantSpin, chan := NoChan)], plock := s.plock[p := None])
       case Take => s' == Goto(s, p, Taken).(locked := true, pid := Some(p))
       case Taken => s' == Goto(s, p, Holder).(spin := None)
       case Holder => s' == Goto(s, p, WantRelease)
       case WantRelease => s.spin == None && s' == Goto(s, p, Clear).(spin := Some(p))
       case Clear => s' == Goto(s, p, Scan(0)).(locked := false, pid := None)
       case Scan(i) =>
         if i < |s.procs| then s.plock[i] == None && s' == Goto(s, p, Wake(i)).(plock := s.plock[i := Some(p)])
         else s' == Goto(s, p, Done)
       case Wake(i) =>
         && i < |s.procs|
         && var woken := s.procs[i].state == Sleeping && s.procs[i].chan == OnLock;
         && var procs := if woken then s.procs[i := s.procs[i].(state := Runnable)] else s.procs;
         && s' == s.(procs := procs[p := procs[p].(pc := Scan(i + 1))], plock := s.plock[i := None])
       case Done => s' == Goto(s, p, Idle).(spin := None)
  }

  /** The scheduler picks a runnable process and switches to it holding its lock. */
  predicate Schedule(s: State, p: nat, s': State)
    requires |s.plock| == |s.procs|
  {
    && p < |s.procs|
    && s.procs[p].pc == Asleep && s.procs[p].state == Runnable && s.plock[p] == None
    && s' == s.(procs := s.procs[p := s.procs[p].(pc := Resume, state := Running)], plock := s.plock[p := Some(p)])
  }

  /** kill() makes a sleeping process runnable, under its lock. */
  predicate Kill(s: State, p: nat, s': State)
    requires |s.plock| == |s.procs|
  {
    && p < |s.procs|
    && s.plock[p] == None && s.procs[p].state == Sleeping
    && s' == s.(procs := s.procs[p := s.procs[p].(state := Runnable)])
  }

  predicate Next(s: State, e: Step, s': State) {
    && |s.plock| == |s.procs|
    && match e
       case Advance(p) => Advance(s, p, s')
       case Schedule(p) => Schedule(s, p, s')
       case Kill(p) => Kill(s, p, s')
  }

  function Init(n: nat): State {
    State(seq(n, _ => Proc(Idle, Running, NoChan)), None, seq(n, _ => None), false, None)
  }

  ghost predicate Run(states: seq<State>, steps: seq<Step>) {
    && |states| == |steps| + 1
    && states[0] == Init(|states[0].procs|)
    && forall i :: 0 <= i < |steps| ==> Next(states[i], steps[i], states[i + 1])
  }

  // ---- The invariant ----

  predicate HasSpin(pc: Pc) {
    pc.Test? || pc.WantSelf? || pc.DropSpin? || pc.Take? || pc.Taken? || pc.Clear? || pc.Scan? || pc.Wake? || pc.Done?
  }

  predicate HasSelf(pc: Pc) {
    pc.DropSpin? || pc.SetSleep? || pc.Switch? || pc.Resume?
  }

  /** acquiresleep has set the lock for this process and releasesleep has not yet cleared it. */
  predicate HasLock(pc: Pc) {
    pc.Taken? || pc.Holder? || pc.WantRelease? || pc.Clear?
  }

  /** Decided to sleep on the lock and not woken since. */
  predicate Waiting(p: Proc) {
    p.pc.WantSelf? || p.pc.DropSpin? || p.pc.SetSleep? || p.pc.Switch? || (p.pc.Asleep? && p.state == Sleeping)
  }

  /** A releaser whose wakeup scan has not yet passed process `q`. */
  predicate WillReach(pc: Pc, q: nat) {
    (pc.Scan? && pc.i <= q) || (pc.Wake? && pc.i <= q)
  }

  ghost predicate SomeoneWillReach(s: State, q: nat) {
    exists r :: 0 <= r < |s.procs| && WillReach(s.procs[r].pc, q)
  }

  /** The spin lock, p->lock, and the lock being scanned have the holders p's program counter says. */
  predicate SpinAt(s: State, p: nat)
    requires |s.plock| == |s.procs| && p < |s.procs|
  {
    var pc := s.procs[p].pc;
    && (HasSpin(pc) <==> s.spin == Some(p))
    && (HasSelf(pc) ==> s.plock[p] == Some(p))
    && ScanAt(s, p)
  }

  predicate ScanAt(s: State, p: nat)
    requires |s.plock| == |s.procs| && p < |s.procs|
  {
    var pc := s.procs[p].pc;
    pc.Wake? ==> pc.i < |s.procs| && s.plock[pc.i] == Some(p) && !HasSelf(s.procs[pc.i].pc)
  }

  /** pid names the process that has the lock; what was tested under the spin lock still holds. */
  predicate LockAt(s: State, p: nat)
    requires p < |s.procs|
  {
    var pc := s.procs[p].pc;
    && (HasLock(pc) <==> s.pid == Some(p))
    && (pc.WantSelf? || pc.DropSpin? ==> s.locked)
    && (pc.Take? || pc.Scan? || pc.Wake? || pc.Done? ==> !s.locked)
  }

  ghost predicate SpinOk(s: State) {
    && |s.plock| == |s.procs|
    && forall p :: 0 <= p < |s.procs| ==> SpinAt(s, p)
  }

  ghost predicate LockOk(s: State) {
    && (s.locked <==> s.pid.Some?)
    && (s.pid.Some? ==> s.pid.value < |s.procs|)
    && forall p :: 0 <= p < |s.procs| ==> LockAt(s, p)
  }

  /** state and chan are as the code sets them. */
  predicate StateOk(r: Proc) {
    && (r.pc.Switch? ==> r.state == Sleeping && r.chan == OnLock)
    && (r.pc.Asleep? ==> r.state != Running && r.chan == OnLock)
    && (!r.pc.Switch? && !r.pc.Asleep? ==> r.state == Running)
  }

  /** No wakeup is lost: a process asleep on a free lock will be reached by a releaser's scan. */
  ghost predicate WakeOk(s: State) {
    !s.locked ==> forall q :: 0 <= q < |s.procs| && Waiting(s.procs[q]) ==> SomeoneWillReach(s, q)
  }

  ghost predicate Inv(s: State) {
    && SpinOk(s)
    && LockOk(s)
    && (forall p :: 0 <= p < |s.procs| ==> StateOk(s.procs[p]))
    && WakeOk(s)
  }

  // ---- Every step keeps it ----

  lemma AdvanceKeepsHolders(s: State, p: nat, s': State, q: nat)
    requires SpinOk(s) && Advance(s, p, s') && q < |s.procs|
    ensures |s'.plock| == |s'.procs| == |s.procs|
    ensures HasSpin(s'.procs[q].pc) <==> s'.spin == Some(q)
    ensures HasSelf(s'.procs[q].pc) ==> s'.plock[q] == Some(q)
  {
    assert SpinAt(s, p) && SpinAt(s, q);
  }

  lemma AdvanceKeepsScan(s: State, p: nat, s': State, q: nat)
    requires SpinOk(s) && Advance(s, p, s') && q < |s.procs|
    ensures |s'.plock| == |s'.procs| == |s.procs| && ScanAt(s', q)
  {
    assert SpinAt(s, p) && SpinAt(s, q);
    var pc := s'.procs[q].pc;
    if pc.Wake? {
      if q == p {
        assert SpinAt(s, pc.i);
      } else {
        assert s.procs[q].pc == pc;
        assert HasSpin(pc) && !HasSpin(s.procs[p].pc);
      }
    }
  }

  lemma AdvanceKeepsSpin(s: State, p: nat, s': State, q: nat)
    requires SpinOk(s) && Advance(s, p, s') && q < |s.procs|
    ensures |s'.plock| == |s'.procs| == |s.procs| && SpinAt(s', q)
  {
    hide Advance;
    AdvanceKeepsHolders(s, p, s', q);
    AdvanceKeepsScan(s, p, s', q);
  }

  lemma AdvanceKeepsLock(s: State, p: nat, s': State, q: nat)
    requires SpinOk(s) && LockOk(s) && Advance(s, p, s') && q < |s.procs|
    ensures |s'.procs| == |s.procs| && LockAt(s', q)
    ensures (s'.locked <==> s'.pid.Some?) && (s'.pid.Some? ==> s'.pid.value < |s'.procs|)
  {
    assert SpinAt(s, p) && SpinAt(s, q) && LockAt(s, p) && LockAt(s, q);
  }

  lemma AdvanceKeepsState(s: State, p: nat, s': State, q: nat)
    requires Inv(s) && Advance(s, p, s') && q < |s.procs|
    ensures |s'.procs| == |s.procs| && StateOk(s'.procs[q])
  {
    hide WakeOk, LockOk;
    assert SpinAt(s, p) && SpinAt(s, q);
  }

  lemma AdvanceKeepsWake(s: State, p: nat, s': State)
    requires Inv(s) && Advance(s, p, s')
    ensures WakeOk(s')
  {
    if !s'.locked {
      forall q | 0 <= q < |s'.procs| && Waiting(s'.procs[q])
        ensures SomeoneWillReach(s', q)
      {
        ReachAfterAdvance(s, p, s', q);
      }
    }
  }

  lemma ReachAfterAdvance(s: State, p: nat, s': State, q: nat)
    requires Inv(s) && Advance(s, p, s') && !s'.locked && q < |s'.procs| && Waiting(s'.procs[q])
    ensures SomeoneWillReach(s', q)
  {
    assert SpinAt(s, p);
    if s.procs[p].pc.Clear? {
      assert WillReach(s'.procs[p].pc, q);
    } else {
      assert Waiting(s.procs[q]);
      var r :| 0 <= r < |s.procs| && WillReach(s.procs[r].pc, q);
      assert SpinAt(s, r) && SpinAt(s, q);
      assert r == p || s'.procs[r].pc == s.procs[r].pc;
      assert WillReach(s'.procs[r].pc, q);
    }
  }

  lemma AdvanceKeeps(s: State, p: nat, s': State)
    requires Inv(s) && p < |s.procs| && Advance(s, p, s')
    ensures Inv(s')
  {
    hide Advance, SpinAt, LockAt;
    AdvanceKeepsLock(s, p, s', p);
    AdvanceKeepsSpin(s, p, s', p);
    forall q | 0 <= q < |s.procs|
      ensures SpinAt(s', q) && LockAt(s', q) && StateOk(s'.procs[q])
    {
      AdvanceKeepsSpin(s, p, s', q);
      AdvanceKeepsLock(s, p, s', q);
      AdvanceKeepsState(s, p, s', q);
    }
    AdvanceKeepsWake(s, p, s');
  }

  /** A process that is scheduled or killed was not waiting, or waits no longer. */
  lemma OthersKeep(s: State, p: nat, s': State)
    requires Inv(s) && (Schedule(s, p, s') || Kill(s, p, s'))
    ensures Inv(s')
  {
    assert SpinAt(s, p) && LockAt(s, p) && StateOk(s.procs[p]);
    forall q | 0 <= q < |s.procs|
      ensures SpinAt(s', q) && LockAt(s', q) && StateOk(s'.procs[q])
    {
      assert SpinAt(s, q) && LockAt(s, q);
    }
    if !s'.locked {
      forall q | 0 <= q < |s'.procs| && Waiting(s'.procs[q])
        ensures SomeoneWillReach(s', q)
      {
        assert Waiting(s.procs[q]);
        var r :| 0 <= r < |s.procs| && WillReach(s.procs[r].pc, q);
        assert WillReach(s'.procs[r].pc, q);
      }
    }
  }

  lemma {:induction false} RunInv(states: seq<State>, steps: seq<Step>, k: nat)
    requires Run(states, steps) && k < |states|
    ensures Inv(states[k]) && |states[k].procs| == |states[0].procs|
  {
    if k > 0 {
      RunInv(states, steps, k - 1);
      var s, s' := states[k - 1], states[k];
      assert Next(s, steps[k - 1], s');
      match steps[k - 1]
      case Advance(p) => AdvanceKeeps(s, p, s');
      case Schedule(p) => OthersKeep(s, p, s');
      case Kill(p) => OthersKeep(s, p, s');
    }
  }

  // ---- What every run promises ----

  /** At most one process has the lock, and then locked and pid say so. */
  lemma MutualExclusion(states: seq<State>, steps: seq<Step>, k: nat, p: nat, q: nat)
    requires Run(states, steps) && k < |states| && p < |states[k].procs| && q < |states[k].procs|
    requires HasLock(states[k].procs[p].pc) && HasLock(states[k].procs[q].pc)
    ensures p == q
    ensures states[k].locked && states[k].pid == Some(p)
  {
    RunInv(states, steps, k);
    assert LockAt(states[k], p) && LockAt(states[k], q);
  }

  /** A process asleep on the lock while it is free will be reached by the wakeup scan of a releaser. */
  lemma NoLostWakeup(states: seq<State>, steps: seq<Step>, k: nat, q: nat)
    requires Run(states, steps) && k < |states| && q < |states[k].procs|
    requires Waiting(states[k].procs[q]) && !states[k].locked
    ensures exists r :: 0 <= r < |states[k].procs| && WillReach(states[k].procs[r].pc, q)
  {
    RunInv(states, steps, k);
  }

  /** Once nobody is inside the lock's critical sections and the lock is free, nobody sleeps on it. */
  lemma FreeLockHasNoSleeper(states: seq<State>, steps: seq<Step>, k: nat, q: nat)
    requires Run(states, steps) && k < |states| && q < |states[k].procs|
    requires states[k].spin == None && !states[k].locked
    ensures !Waiting(states[k].procs[q])
  {
    RunInv(states, steps, k);
    forall r | 0 <= r < |states[k].procs|
      ensures !WillReach(states[k].procs[r].pc, q)
    {
      assert SpinAt(states[k], r);
    }
  }

  // ---- Nobody is stuck ----

  /** Whoever has a process's own lock is that process on its way to or from sleep, or a releaser at it. */
  ghost predicate PlocksOk(s: State)
    requires |s.plock| == |s.procs|
  {
    forall x :: 0 <= x < |s.procs| && s.plock[x].Some? ==> PlockAt(s, x)
  }

  predicate PlockAt(s: State, x: nat)
    requires |s.plock| == |s.procs| && x < |s.procs| && s.plock[x].Some?
  {
    var r := s.plock[x].value;
    r < |s.procs| && ((r == x && HasSelf(s.procs[x].pc)) || s.procs[r].pc == Wake(x))
  }

  lemma AdvanceKeepsPlocks(s: State, p: nat, s': State)
    requires Inv(s) && PlocksOk(s) && Advance(s, p, s')
    ensures |s'.plock| == |s'.procs| && PlocksOk(s')
  {
    hide LockOk, WakeOk;
    assert SpinAt(s, p) && StateOk(s.procs[p]);
    forall x | 0 <= x < |s'.procs| && s'.plock[x].Some?
      ensures PlockAt(s', x)
    {
      assert SpinAt(s, x);
      if s.plock[x].Some? {
        assert PlockAt(s, x);
      }
    }
  }

  lemma OthersKeepPlocks(s: State, p: nat, s': State)
    requires Inv(s) && PlocksOk(s) && (Schedule(s, p, s') || Kill(s, p, s'))
    ensures |s'.plock| == |s'.procs| && PlocksOk(s')
  {
    forall x | 0 <= x < |s'.procs| && s'.plock[x].Some?
      ensures PlockAt(s', x)
    {
      if s.plock[x].Some? {
        assert PlockAt(s, x);
      }
    }
  }

  lemma {:induction false} RunPlocks(states: seq<State>, steps: seq<Step>, k: nat)
    requires Run(states, steps) && k < |states|
    ensures Inv(states[k]) && PlocksOk(states[k])
  {
    hide Inv, Advance, Schedule, Kill, PlocksOk;
    RunInv(states, steps, k);
    if k == 0 {
      NoPlocks(states[0]);
    } else {
      RunPlocks(states, steps, k - 1);
      var s, s' := states[k - 1], states[k];
      assert Next(s, steps[k - 1], s');
      match steps[k - 1] {
        case Advance(p) => AdvanceKeepsPlocks(s, p, s');
        case Schedule(p) => OthersKeepPlocks(s, p, s');
        case Kill(p) => OthersKeepPlocks(s, p, s');
      }
    }
  }

  lemma NoPlocks(s: State)
    requires s == Init(|s.procs|)
    ensures |s.plock| == |s.procs| && PlocksOk(s)
  {}

  /** What a process waits for is free. */
  predicate Unblocked(s: State, p: nat)
    requires |s.plock| == |s.procs| && p < |s.procs|
  {
    match s.procs[p].pc
    case WantSpin => s.spin == None
    case WantRelease => s.spin == None
    case WantSelf => s.plock[p] == None
    case Scan(i) => i < |s.procs| ==> s.plock[i] == None
    case Wake(i) => i < |s.procs|
    case Asleep => s.procs[p].state == Runnable && s.plock[p] == None
    case _ => true
  }

  /** Then it goes on. */
  lemma GoesOn(s: State, p: nat)
    requires |s.plock| == |s.procs| && p < |s.procs| && Unblocked(s, p)
    ensures exists e, s' :: (e == Step.Advance(p) || e == Step.Schedule(p)) && Next(s, e, s')
  {
    var s' :=
      match s.procs[p].pc
      case Idle => Goto(s, p, WantSpin)
      case WantSpin => Goto(s, p, Test).(spin := Some(p))
      case Test => Goto(s, p, if s.locked then WantSelf else Take)
      case WantSelf => Goto(s, p, DropSpin).(plock := s.plock[p := Some(p)])
      case DropSpin => Goto(s, p, SetSleep).(spin := None)
      case SetSleep => s.(procs := s.procs[p := Proc(Switch, Sleeping, OnLock)])
      case Switch => Goto(s, p, Asleep).(plock := s.plock[p := None])
      case Asleep =>
        s.(procs := s.procs[p := s.procs[p].(pc := Resume, state := Running)], plock := s.plock[p := Some(p)])
      case Resume =>
        s.(procs := s.procs[p := s.procs[p].(pc := WantSpin, chan := NoChan)], plock := s.plock[p := None])
      case Take => Goto(s, p, Taken).(locked := true, pid := Some(p))
      case Taken => Goto(s, p, Holder).(spin := None)
      case Holder => Goto(s, p, WantRelease)
      case WantRelease => Goto(s, p, Clear).(spin := Some(p))
      case Clear => Goto(s, p, Scan(0)).(locked := false, pid := None)
      case Scan(i) =>
        if i < |s.procs| then Goto(s, p, Wake(i)).(plock := s.plock[i := Some(p)]) else Goto(s, p, Done)
      case Wake(i) => Woken(s, p, i)
      case Done => Goto(s, p, Idle).(spin := None);
    if s.procs[p].pc.Asleep? {
      assert Next(s, Step.Schedule(p), s');
    } else {
      assert Next(s, Step.Advance(p), s');
    }
  }

  /** Process `i` is woken if it sleeps on the lock, and the scan goes on. */
  function Woken(s: State, p: nat, i: nat): State
    requires p < |s.procs| && i < |s.procs| && i < |s.plock|
  {
    var woken := s.procs[i].state == Sleeping && s.procs[i].chan == OnLock;
    var procs := if woken then s.procs[i := s.procs[i].(state := Runnable)] else s.procs;
    s.(procs := procs[p := procs[p].(pc := Scan(i + 1))], plock := s.plock[i := None])
  }

  /** In the middle of acquiresleep or releasesleep. */
  predicate Busy(pc: Pc) {
    !pc.Idle? && !pc.Holder?
  }

  /** Someone who has the spin lock waits at most for a process's own lock, whose owner waits for nothing. */
  lemma SpinnerGoesOn(s: State, p: nat) returns (q: nat)
    requires Inv(s) && PlocksOk(s) && p < |s.procs| && s.spin == Some(p)
    ensures q < |s.procs| && Busy(s.procs[q].pc) && Unblocked(s, q)
  {
    assert SpinAt(s, p);
    q := p;
    if !Unblocked(s, p) {
      var x := if s.procs[p].pc.WantSelf? then p else s.procs[p].pc.i;
      assert PlockAt(s, x);
      q := s.plock[x].value;
      assert SpinAt(s, q);
    }
  }

  /**
   No deadlock: in every state of every run, as long as anyone is in the middle of acquiresleep or
   releasesleep, someone who is can go on; or else all of them sleep, and another holds the lock.
   */
  lemma NoDeadlock(states: seq<State>, steps: seq<Step>, k: nat, p: nat)
    requires Run(states, steps) && k < |states| && p < |states[k].procs| && Busy(states[k].procs[p].pc)
    ensures
      || (exists q :: 0 <= q < |states[k].procs| && Busy(states[k].procs[q].pc) && Goes(states[k], q))
      || ((exists h :: 0 <= h < |states[k].procs| && states[k].procs[h].pc == Holder) &&
          forall q :: 0 <= q < |states[k].procs| && Busy(states[k].procs[q].pc) ==>
            states[k].procs[q].pc == Asleep && states[k].procs[q].state == Sleeping)
  {
    hide Run;
    RunPlocks(states, steps, k);
    var s := states[k];
    if s.spin.Some? {
      SpinnerInRange(states, steps, k);
      var q := SpinnerGoesOn(s, s.spin.value);
      GoesOn(s, q);
    } else if q :| 0 <= q < |s.procs| && Busy(s.procs[q].pc) && Unblocked(s, q) {
      GoesOn(s, q);
    } else {
      AllAsleep(s, p);
    }
  }

  ghost predicate Goes(s: State, p: nat) {
    exists e, s' :: (e == Step.Advance(p) || e == Step.Schedule(p)) && Next(s, e, s')
  }

  lemma {:induction false} SpinnerInRange(states: seq<State>, steps: seq<Step>, k: nat)
    requires Run(states, steps) && k < |states|
    ensures |states[k].procs| == |states[0].procs|
    ensures states[k].spin.Some? ==> states[k].spin.value < |states[k].procs|
  {
    if k > 0 {
      SpinnerInRange(states, steps, k - 1);
      assert Next(states[k - 1], steps[k - 1], states[k]);
    }
  }

  lemma AllAsleep(s: State, p: nat)
    requires Inv(s) && PlocksOk(s) && s.spin == None && p < |s.procs| && Busy(s.procs[p].pc)
    requires forall q :: 0 <= q < |s.procs| && Busy(s.procs[q].pc) ==> !Unblocked(s, q)
    ensures exists h :: 0 <= h < |s.procs| && s.procs[h].pc == Holder
    ensures forall q :: 0 <= q < |s.procs| && Busy(s.procs[q].pc) ==>
      s.procs[q].pc == Asleep && s.procs[q].state == Sleeping
  {
    forall q | 0 <= q < |s.procs| && Busy(s.procs[q].pc)
      ensures s.procs[q].pc == Asleep && s.procs[q].state == Sleeping
    {
      assert SpinAt(s, q) && StateOk(s.procs[q]);
      OwnLock(s, q);
    }
    assert Waiting(s.procs[p]);
    SleeperHasHolder(s, p);
    var h := s.pid.value;
    assert LockAt(s, h) && SpinAt(s, h);
  }

  lemma OwnLock(s: State, q: nat)
    requires Inv(s) && PlocksOk(s) && s.spin == None && q < |s.procs|
    ensures s.plock[q].Some? ==> HasSelf(s.procs[q].pc)
  {
    forall r | 0 <= r < |s.procs|
      ensures !s.procs[r].pc.Wake?
    {
      assert SpinAt(s, r);
    }
  }

  lemma SleeperHasHolder(s: State, p: nat)
    requires Inv(s) && s.spin == None && p < |s.procs| && Waiting(s.procs[p])
    ensures s.locked
  {
    forall r | 0 <= r < |s.procs|
      ensures !WillReach(s.procs[r].pc, p)
    {
      assert SpinAt(s, r);
    }
  }

  /** kill() wakes any sleeper whose own lock is free. */
  lemma KillWakes(s: State, p: nat)
    requires |s.plock| == |s.procs| && p < |s.procs| && s.plock[p] == None && s.procs[p].state == Sleeping
    ensures Next(s, Step.Kill(p), s.(procs := s.procs[p := s.procs[p].(state := Runnable)]))
  {}

  // ---- What a process does alone ----

  /** The steps lead from the first state to the last. */
  ghost predicate Leads(states: seq<State>, steps: seq<Step>) {
    |states| == |steps| + 1 && forall i :: 0 <= i < |steps| ==> Next(states[i], steps[i], states[i + 1])
  }

  lemma LeadsOn(states: seq<State>, steps: seq<Step>, e: Step, s': State)
    requires Leads(states, steps) && Next(states[|steps|], e, s')
    ensures Leads(states + [s'], steps + [e])
  {}

  lemma LeadsThrough(ss: seq<State>, es: seq<Step>, ss': seq<State>, es': seq<Step>)
    requires Leads(ss, es) && Leads(ss', es') && ss[|es|] == ss'[0]
    ensures Leads(ss + ss'[1..], es + es')
  {
    var all := ss + ss'[1..];
    forall i | 0 <= i < |es + es'|
      ensures Next(all[i], (es + es')[i], all[i + 1])
    {
      if i >= |es| {
        assert Next(ss'[i - |es|], es'[i - |es|], ss'[i - |es| + 1]);
      }
    }
  }

  /** From any state in which the lock and its spin lock are free, a process that wants the lock gets it. */
  lemma CanTake(s: State, p: nat) returns (ss: seq<State>, es: seq<Step>)
    requires |s.plock| == |s.procs| && p < |s.procs| && s.procs[p].pc == WantSpin && s.spin == None && !s.locked
    ensures Leads(ss, es) && ss[0] == s
    ensures ss[|es|] == Goto(s, p, Holder).(locked := true, pid := Some(p))
  {
    var s1 := Goto(s, p, Test).(spin := Some(p));
    var s2 := Goto(s1, p, Take);
    var s3 := Goto(s2, p, Taken).(locked := true, pid := Some(p));
    var s4 := Goto(s3, p, Holder).(spin := None);
    var e := Step.Advance(p);
    assert Next(s, e, s1) && Next(s1, e, s2) && Next(s2, e, s3) && Next(s3, e, s4);
    ss, es := [s, s1, s2, s3, s4], [e, e, e, e];
    assert s4.procs == s.procs[p := s.procs[p].(pc := Holder)];
  }

  /** A process with the wakeup of those it finds asleep on the lock. */
  function Roused(r: Proc): Proc {
    if r.state == Sleeping && r.chan == OnLock then r.(state := Runnable) else r
  }

  /** From process `i` on, the scan rouses whoever sleeps on the lock. */
  lemma {:induction false} ScanRest(s: State, p: nat, i: nat) returns (ss: seq<State>, es: seq<Step>)
    requires |s.plock| == |s.procs| && p < |s.procs| && s.procs[p].pc == Scan(i) && i <= |s.procs|
    requires s.procs[p].state == Running && forall x :: 0 <= x < |s.procs| ==> s.plock[x] == None
    ensures Leads(ss, es) && ss[0] == s
    ensures
      var t := ss[|es|];
      && |t.procs| == |s.procs| && t == s.(procs := t.procs) && t.procs[p] == s.procs[p].(pc := Done)
      && forall q :: 0 <= q < |s.procs| && q != p ==> t.procs[q] == if q < i then s.procs[q] else Roused(s.procs[q])
    decreases |s.procs| - i
  {
    var e := Step.Advance(p);
    if i == |s.procs| {
      var t := Goto(s, p, Done);
      assert Next(s, e, t);
      ss, es := [s, t], [e];
    } else {
      var s1 := Goto(s, p, Wake(i)).(plock := s.plock[i := Some(p)]);
      var s2 := Woken(s1, p, i);
      assert Next(s, e, s1) && Next(s1, e, s2);
      assert s2.plock == s.plock;
      var ss', es' := ScanRest(s2, p, i + 1);
      LeadsThrough([s, s1, s2], [e, e], ss', es');
      ss, es := [s, s1, s2] + ss'[1..], [e, e] + es';
    }
  }

  /** releasesleep by the holder: the lock is free and everyone who slept on it is runnable. */
  lemma ReleaseWakesAll(s: State, p: nat) returns (ss: seq<State>, es: seq<Step>)
    requires |s.plock| == |s.procs| && p < |s.procs| && s.procs[p] == Proc(Holder, Running, NoChan) && s.spin == None
    requires forall x :: 0 <= x < |s.procs| ==> s.plock[x] == None
    ensures Leads(ss, es) && ss[0] == s
    ensures
      var t := ss[|es|];
      && |t.procs| == |s.procs| && t == s.(procs := t.procs, locked := false, pid := None)
      && t.procs[p] == Proc(Idle, Running, NoChan)
      && forall q :: 0 <= q < |s.procs| && q != p ==> t.procs[q] == Roused(s.procs[q])
  {
    var e := Step.Advance(p);
    var s1 := Goto(s, p, WantRelease);
    var s2 := Goto(s1, p, Clear).(spin := Some(p));
    var s3 := Goto(s2, p, Scan(0)).(locked := false, pid := None);
    assert Next(s, e, s1) && Next(s1, e, s2) && Next(s2, e, s3);
    var ss', es' := ScanRest(s3, p, 0);
    LeadsThrough([s, s1, s2, s3], [e, e, e], ss', es');
    ss, es := [s, s1, s2, s3] + ss'[1..], [e, e, e] + es';
    var t := ss[|es|];
    var t' := Goto(t, p, Idle).(spin := None);
    LeadsOn(ss, es, e, t');
    ss, es := ss + [t'], es + [e];
  }
}
