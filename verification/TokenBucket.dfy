/**
 Rate limits of control groups: a token bucket each for bytes read, written, sent
 and received, refilled on every check at `limit` tokens per hundred ticks.

 Limits, tokens and times are unsigned 64-bit numbers; the tick counter they are
 compared with has 32 bits and wraps around.
 */
module TokenBucket {

  const U64_LIMIT := 0x1_0000_0000_0000_0000
  const TICK_LIMIT := 0x1_0000_0000

  type U64 = n: int | 0 <= n < U64_LIMIT
  type Tick = n: int | 0 <= n < TICK_LIMIT

  /** `last` is the time of the last refill; `total` and `ops` count what has been admitted so far. */
  datatype Bucket = Bucket(limit: U64, tokens: U64, last: U64, total: nat, ops: nat)

  /** What `elapsed` ticks are worth. */
  function Worth(elapsed: nat, limit: nat): nat {
    elapsed * limit / 100
  }

  /** The unsigned difference of two times. */
  function Elapsed(last: U64, now: Tick): U64 {
    if last <= now then now - last else U64_LIMIT + now - last
  }

  function Refill(b: Bucket, now: Tick): (r: Bucket)
    ensures r == b.(tokens := r.tokens, last := now)
  {
    var earned := Elapsed(b.last, now) * b.limit % U64_LIMIT / 100;
    var tokens := (b.tokens + earned) % U64_LIMIT;
    b.(tokens := if tokens > b.limit then b.limit else tokens, last := now)
  }

  predicate Admits(b: Bucket, now: Tick, bytes: nat) {
    Refill(b, now).tokens >= bytes
  }

  function Checked(b: Bucket, now: Tick, bytes: nat): Bucket {
    var f := Refill(b, now);
    if f.tokens >= bytes then f.(tokens := f.tokens - bytes, total := f.total + bytes, ops := f.ops + 1) else f
  }

  /**
   With time going forward a refill adds at most what the time is worth, overflow or not; it
   never exceeds the limit.
   */
  lemma RefillBound(b: Bucket, now: Tick)
    ensures Refill(b, now).tokens <= b.limit
    ensures b.last <= now ==> Refill(b, now).tokens <= b.tokens + Worth(now - b.last, b.limit)
  {
    if b.last <= now {
      RemainderBelow((now - b.last) * b.limit);
    }
  }

  lemma RemainderBelow(n: nat)
    ensures n % U64_LIMIT / 100 <= n / 100
  {}

  /** Where the tick counter has wrapped, the unsigned difference is so large that the bucket is full at once. */
  lemma WrapFills(b: Bucket, now: Tick)
    requires now < b.last < TICK_LIMIT && 0 < b.limit < 0x8000_0000 && b.tokens <= b.limit
    ensures Refill(b, now).tokens == b.limit
  {
    var x := (b.last - now) * b.limit;
    assert 0 < x < TICK_LIMIT * 0x8000_0000 by { Product(b.last - now, b.limit); }
    assert Elapsed(b.last, now) * b.limit == U64_LIMIT * b.limit - x;
    assert (U64_LIMIT * b.limit - x) % U64_LIMIT == U64_LIMIT - x by { Remainder(b.limit, x); }
  }

  lemma Product(d: nat, limit: nat)
    requires 0 < d < TICK_LIMIT && 0 < limit < 0x8000_0000
    ensures 0 < d * limit < TICK_LIMIT * 0x8000_0000
  {
    assert d * limit <= d * 0x8000_0000;
  }

  lemma Remainder(q: nat, x: nat)
    requires q > 0 && 0 < x < U64_LIMIT
    ensures (U64_LIMIT * q - x) % U64_LIMIT == U64_LIMIT - x
  {
    assert U64_LIMIT * q - x == U64_LIMIT * (q - 1) + (U64_LIMIT - x);
  }

  // ---- Runs of one bucket ----

  datatype Request = Request(now: Tick, bytes: nat)

  function After(b: Bucket, rs: seq<Request>): (r: Bucket)
    ensures r.limit == b.limit
    ensures r.last == if rs == [] then b.last else rs[|rs| - 1].now
  {
    if rs == [] then b
    else
      var last := rs[|rs| - 1];
      Checked(After(b, rs[..|rs| - 1]), last.now, last.bytes)
  }

  /**
   What the time between the checks of a run allows: the worth of each step forward, a full
   bucket where the counter wraps.
   */
  function Allowance(limit: nat, rs: seq<Request>): nat {
    if |rs| <= 1 then 0
    else
      var prev, now := rs[|rs| - 2].now, rs[|rs| - 1].now;
      Allowance(limit, rs[..|rs| - 1]) + if prev <= now then Worth(now - prev, limit) else limit
  }

  /**
   From the first check of any run on, the bytes admitted, and the tokens still there,
   stay within the limit plus what the time allows.
   */
  lemma {:induction false} AdmittedBound(b: Bucket, rs: seq<Request>)
    requires rs != []
    ensures After(b, rs).total - b.total + After(b, rs).tokens <= b.limit + Allowance(b.limit, rs)
  {
    hide Worth, Refill;
    var rest := rs[..|rs| - 1];
    RefillBound(After(b, rest), rs[|rs| - 1].now);
    if rest != [] {
      AdmittedBound(b, rest);
    }
  }

  /** Dividing elapsed time into pieces loses tokens, never gains any. */
  lemma PiecesRoundDown(x: nat, y: nat, limit: nat)
    ensures Worth(x, limit) + Worth(y, limit) <= Worth(x + y, limit)
  {
    var a, b := x * limit, y * limit;
    assert (x + y) * limit == a + b;
  }

  ghost predicate InOrder(rs: seq<Request>) {
    forall i, j :: 0 <= i < j < |rs| ==> rs[i].now <= rs[j].now
  }

  /** As long as the counter does not wrap, that is the worth of the whole time, however often it is checked. */
  lemma {:induction false} AllowanceInOrder(limit: nat, rs: seq<Request>)
    requires rs != [] && InOrder(rs)
    ensures Allowance(limit, rs) <= Worth(rs[|rs| - 1].now - rs[0].now, limit)
  {
    hide Worth;
    if |rs| > 1 {
      var rest := rs[..|rs| - 1];
      AllowanceInOrder(limit, rest);
      PiecesRoundDown(rest[|rest| - 1].now - rs[0].now, rs[|rs| - 1].now - rest[|rest| - 1].now, limit);
    }
  }

  // ---- A client that tries again every tick ----

  /** A run of requests for the same number of bytes, one per tick. */
  ghost predicate EveryTick(b: Bucket, bytes: nat, rs: seq<Request>) {
    forall i :: 0 <= i < |rs| ==> rs[i].now == b.last + 1 + i && rs[i].bytes == bytes
  }

  lemma OneTick(b: Bucket, now: Tick)
    requires now == b.last + 1 && b.tokens + b.limit / 100 < U64_LIMIT
    ensures Refill(b, now).tokens ==
            if b.tokens + b.limit / 100 > b.limit then b.limit else b.tokens + b.limit / 100
  {}

  /**
   Below a hundred tokens per hundred ticks, a tick is worth nothing after rounding: retrying
   every tick never succeeds.
   */
  lemma {:induction false} RetryingStarves(b: Bucket, bytes: nat, rs: seq<Request>)
    requires b.limit < 100 && b.tokens < bytes && b.tokens <= b.limit && EveryTick(b, bytes, rs)
    ensures After(b, rs) == if rs == [] then b else b.(last := rs[|rs| - 1].now)
  {
    hide Refill;
    if rs != [] {
      RetryingStarves(b, bytes, rs[..|rs| - 1]);
      OneTick(After(b, rs[..|rs| - 1]), rs[|rs| - 1].now);
    }
  }

  /**
   From a hundred on, every tick is worth a token, and a request within the limit fails fewer
   times than it has bytes.
   */
  lemma {:induction false} RetryingSucceeds(b: Bucket, bytes: nat, rs: seq<Request>)
    requires b.limit >= 100 && 0 < bytes <= b.limit && bytes + b.limit / 100 <= U64_LIMIT && EveryTick(b, bytes, rs)
    requires After(b, rs).total == b.total && b.tokens < bytes
    ensures bytes > After(b, rs).tokens >= |rs|
  {
    hide Refill;
    if rs != [] {
      var rest := rs[..|rs| - 1];
      AdmittedGrows(b, rest);
      RetryingSucceeds(b, bytes, rest);
      OneTick(After(b, rest), rs[|rs| - 1].now);
    }
  }

  lemma {:induction false} AdmittedGrows(b: Bucket, rs: seq<Request>)
    ensures After(b, rs).total >= b.total
  {
    if rs != [] {
      AdmittedGrows(b, rs[..|rs| - 1]);
    }
  }

  /**
   A throttled client that retries every tick is served before the counter wraps, for every
   request within the limit that the time suffices for, exactly if the limit is at least 100.
   */
  lemma RetryingServedIff(b: Bucket, bytes: nat)
    requires b.tokens < bytes <= b.limit && b.last + bytes < TICK_LIMIT
    requires bytes + b.limit / 100 <= U64_LIMIT
    ensures (exists rs :: EveryTick(b, bytes, rs) && After(b, rs).total > b.total) <==> b.limit >= 100
  {
    hide After;
    if b.limit >= 100 {
      var rs := seq(bytes, i requires 0 <= i < bytes => Request(b.last + 1 + i, bytes));
      AdmittedGrows(b, rs);
      if After(b, rs).total == b.total {
        RetryingSucceeds(b, bytes, rs);
      }
      assert EveryTick(b, bytes, rs);
    } else {
      forall rs | EveryTick(b, bytes, rs)
        ensures After(b, rs).total == b.total
      {
        RetryingStarves(b, bytes, rs);
      }
    }
  }

  // ---- The groups ----

  datatype Kind = Read | Write | Send | Recv

  datatype Controller = Controller(enabled: bool, first: Bucket, second: Bucket, throttled: bool)

  /** `procs` are the member processes; the controllers limit reads and writes, and sends and receives. */
  datatype Group = Group(used: bool, procs: seq<int>, io: Controller, net: Controller,
                         ioThrottles: nat, netThrottles: nat)

  function ControllerOf(g: Group, kind: Kind): Controller {
    if kind.Read? || kind.Write? then g.io else g.net
  }

  function BucketOf(g: Group, kind: Kind): Bucket {
    if kind.Read? || kind.Send? then ControllerOf(g, kind).first else ControllerOf(g, kind).second
  }

  function WithController(g: Group, kind: Kind, c: Controller, throttles: nat): Group {
    if kind.Read? || kind.Write? then g.(io := c, ioThrottles := g.ioThrottles + throttles)
    else g.(net := c, netThrottles := g.netThrottles + throttles)
  }

  /** The group after a check; a refusal is noted. */
  function CheckedGroup(g: Group, kind: Kind, now: Tick, bytes: nat): Group
  {
    var c := ControllerOf(g, kind);
    var b := Checked(BucketOf(g, kind), now, bytes);
    var c' := if kind.Read? || kind.Send? then c.(first := b) else c.(second := b);
    if Admits(BucketOf(g, kind), now, bytes) then WithController(g, kind, c', 0)
    else WithController(g, kind, c'.(throttled := true), 1)
  }

  /** Only the bucket of that kind changes. */
  lemma OtherBuckets(g: Group, kind: Kind, other: Kind, now: Tick, bytes: nat)
    ensures BucketOf(CheckedGroup(g, kind, now, bytes), other) ==
      if other == kind then Checked(BucketOf(g, kind), now, bytes) else BucketOf(g, other)
    ensures CheckedGroup(g, kind, now, bytes).procs == g.procs && CheckedGroup(g, kind, now, bytes).used == g.used
  {}

  /** A refusal is noted with the controller and counted, and nothing else is. */
  lemma ThrottleNoted(g: Group, kind: Kind, now: Tick, bytes: nat)
    ensures
      var g', refused := CheckedGroup(g, kind, now, bytes), !Admits(BucketOf(g, kind), now, bytes);
      && (ControllerOf(g', kind).throttled <==> ControllerOf(g, kind).throttled || refused)
      && g'.ioThrottles + g'.netThrottles == g.ioThrottles + g.netThrottles + (if refused then 1 else 0)
      && (kind.Read? || kind.Write? ==> g'.net == g.net && g'.netThrottles == g.netThrottles)
      && (kind.Send? || kind.Recv? ==> g'.io == g.io && g'.ioThrottles == g.ioThrottles)
  {
    hide Refill;
  }

  ghost predicate Member(g: Group, pid: int) {
    g.used && pid in g.procs
  }

  /** Group `i` is the first used one with the process as a member. */
  ghost predicate Decides(groups: seq<Group>, i: int, pid: int) {
    0 <= i < |groups| && Member(groups[i], pid) && forall j :: 0 <= j < i ==> !Member(groups[j], pid)
  }

  lemma OneDecides(groups: seq<Group>, i: int, pid: int)
    requires Decides(groups, i, pid)
    ensures forall j :: Decides(groups, j, pid) ==> j == i
  {}

  predicate Unlimited(g: Group, kind: Kind) {
    !ControllerOf(g, kind).enabled || BucketOf(g, kind).limit == 0
  }

  /**
   The rate a group is held to, 0 for none: reads and writes by the io controller, sends and
   receives by the net one.
   */
  function LimitOf(g: Group, kind: Kind): nat {
    match kind
    case Read => if g.io.enabled then g.io.first.limit else 0
    case Write => if g.io.enabled then g.io.second.limit else 0
    case Send => if g.net.enabled then g.net.first.limit else 0
    case Recv => if g.net.enabled then g.net.second.limit else 0
  }

  lemma UnlimitedMeans(g: Group, kind: Kind)
    ensures Unlimited(g, kind) <==> LimitOf(g, kind) == 0
    ensures LimitOf(g, kind) > 0 ==> BucketOf(g, kind).limit == LimitOf(g, kind)
  {}

  class Cgroups {
    var groups: seq<Group>

    /**
     The first used group with the process as a member decides. No group, no
     controller or no limit: the request passes and nothing changes. Otherwise that
     group's bucket is refilled and decides, and nothing else changes.
     */
    method Check(kind: Kind, pid: int, bytes: nat, now: Tick) returns (ok: bool)
      modifies this
      ensures |groups| == |old(groups)|
      ensures (forall i :: 0 <= i < |groups| ==> !Member(old(groups)[i], pid)) ==> ok && groups == old(groups)
      ensures forall i :: Decides(old(groups), i, pid) ==>
        var g := old(groups)[i];
        if Unlimited(g, kind) then ok && groups == old(groups)
        else
          && ok == Admits(BucketOf(g, kind), now, bytes)
          && groups == old(groups)[i := CheckedGroup(g, kind, now, bytes)]
    {
      hide CheckedGroup, Admits, Unlimited, BucketOf, Refill;
      var i := 0;
      while i < |groups|
        invariant 0 <= i <= |groups| && groups == old(groups)
        invariant forall j :: 0 <= j < i ==> !Member(groups[j], pid)
      {
        var g := groups[i];
        if g.used {
          var j := 0;
          while j < |g.procs|
            invariant 0 <= j <= |g.procs| && pid !in g.procs[..j]
          {
            if g.procs[j] == pid {
              OneDecides(groups, i, pid);
              if Unlimited(g, kind) {
                return true;
              }
              ok := Admits(BucketOf(g, kind), now, bytes);
              groups := groups[i := CheckedGroup(g, kind, now, bytes)];
              return;
            }
            j := j + 1;
          }
        }
        i := i + 1;
      }
      return true;
    }
  }

  // ---- Runs of checks by any processes ----

  datatype Call = Call(kind: Kind, pid: int, bytes: nat, now: Tick)

  /** The requests among the calls that group `i` decides. */
  ghost function RequestsOf(groups: seq<Group>, calls: seq<Call>, i: nat, kind: Kind): seq<Request> {
    if calls == [] then []
    else
      var n := |calls| - 1;
      RequestsOf(groups, calls[..n], i, kind) +
      if calls[n].kind == kind && Decides(groups, i, calls[n].pid) then [Request(calls[n].now, calls[n].bytes)] else []
  }

  /** The bytes of those that were let pass. */
  ghost function AdmittedTo(groups: seq<Group>, calls: seq<Call>, oks: seq<bool>, i: nat, kind: Kind): nat
    requires |oks| == |calls|
  {
    if calls == [] then 0
    else
      var n := |calls| - 1;
      AdmittedTo(groups, calls[..n], oks[..n], i, kind) +
      if calls[n].kind == kind && Decides(groups, i, calls[n].pid) && oks[n] then calls[n].bytes else 0
  }

  /** The bucket has seen the group's requests in their order, and has counted what was let pass. */
  ghost predicate Accounted(groups: seq<Group>, g: Group, calls: seq<Call>, oks: seq<bool>, i: nat, kind: Kind)
    requires i < |groups| && |oks| == |calls|
  {
    var b := BucketOf(groups[i], kind);
    && g.used == groups[i].used && g.procs == groups[i].procs && LimitOf(g, kind) == LimitOf(groups[i], kind)
    && (LimitOf(groups[i], kind) > 0 ==>
          && BucketOf(g, kind) == After(b, RequestsOf(groups, calls, i, kind))
          && BucketOf(g, kind).total == b.total + AdmittedTo(groups, calls, oks, i, kind))
  }

  ghost predicate AllAccounted(groups: seq<Group>, gs: seq<Group>, calls: seq<Call>, oks: seq<bool>) {
    && |gs| == |groups| && |oks| == |calls|
    && forall i, kind :: 0 <= i < |groups| ==> Accounted(groups, gs[i], calls, oks, i, kind)
  }

  /** How a call with these answers goes on from one state of the groups to the next, if group `d` decides. */
  ghost predicate Answered(groups: seq<Group>, gs: seq<Group>, c: Call, ok: bool, gs': seq<Group>, d: int) {
    if 0 <= d < |gs| && Decides(groups, d, c.pid)
    then
      if Unlimited(gs[d], c.kind) then ok && gs' == gs
      else
        && ok == Admits(BucketOf(gs[d], c.kind), c.now, c.bytes)
        && gs' == gs[d := CheckedGroup(gs[d], c.kind, c.now, c.bytes)]
    else ok && gs' == gs
  }

  lemma LimitsStay(g: Group, kind: Kind, other: Kind, now: Tick, bytes: nat)
    ensures LimitOf(CheckedGroup(g, kind, now, bytes), other) == LimitOf(g, other)
  {
    hide Refill;
  }

  lemma CheckedCounts(b: Bucket, now: Tick, bytes: nat)
    ensures Checked(b, now, bytes).total == b.total + if Admits(b, now, bytes) then bytes else 0
    ensures Checked(b, now, bytes).ops == b.ops + if Admits(b, now, bytes) then 1 else 0
  {
    hide Refill;
  }

  /** One more call, decided by group `d` or by none: the account of every group stays right. */
  lemma OneMoreCall(groups: seq<Group>, gs: seq<Group>, gs': seq<Group>, calls: seq<Call>, oks: seq<bool>, ok: bool,
                    d: int, i: nat, kind: Kind)
    requires calls != [] && |oks| == |calls| - 1 && |gs| == |groups| && i < |groups|
    requires Accounted(groups, gs[i], calls[..|calls| - 1], oks, i, kind)
    requires d == Decider(groups, calls[|calls| - 1].pid) && Answered(groups, gs, calls[|calls| - 1], ok, gs', d)
    ensures |gs'| == |groups| && Accounted(groups, gs'[i], calls, oks + [ok], i, kind)
  {
    hide CheckedGroup, Admits, Checked, Refill, Unlimited, BucketOf, LimitOf, Accounted, Decides;
    var c := calls[|calls| - 1];
    if d != i || !Decides(groups, i, c.pid) {
      NotAsked(groups, gs[i], calls, oks, ok, i, kind);
    } else {
      UnlimitedMeans(gs[i], c.kind);
      if Unlimited(gs[i], c.kind) {
        NoAccount(groups, gs[i], calls, oks, ok, i, kind);
      } else {
        Asked(groups, gs[i], calls, oks, i, kind);
      }
    }
  }

  lemma NotAsked(groups: seq<Group>, g: Group, calls: seq<Call>, oks: seq<bool>, ok: bool, i: nat, kind: Kind)
    requires calls != [] && |oks| == |calls| - 1 && i < |groups|
    requires Accounted(groups, g, calls[..|calls| - 1], oks, i, kind)
    requires calls[|calls| - 1].kind != kind || !Decides(groups, i, calls[|calls| - 1].pid)
    ensures Accounted(groups, g, calls, oks + [ok], i, kind)
  {
    hide BucketOf, LimitOf, After, Decides;
    assert (oks + [ok])[..|oks|] == oks;
    assert RequestsOf(groups, calls, i, kind) == RequestsOf(groups, calls[..|calls| - 1], i, kind);
  }

  lemma NoAccount(groups: seq<Group>, g: Group, calls: seq<Call>, oks: seq<bool>, ok: bool, i: nat, kind: Kind)
    requires calls != [] && |oks| == |calls| - 1 && i < |groups|
    requires Accounted(groups, g, calls[..|calls| - 1], oks, i, kind)
    requires LimitOf(g, calls[|calls| - 1].kind) == 0
    ensures Accounted(groups, g, calls, oks + [ok], i, kind)
  {
    hide BucketOf, LimitOf, After, Decides;
    if calls[|calls| - 1].kind != kind {
      NotAsked(groups, g, calls, oks, ok, i, kind);
    }
  }

  lemma Asked(groups: seq<Group>, g: Group, calls: seq<Call>, oks: seq<bool>, i: nat, kind: Kind)
    requires calls != [] && |oks| == |calls| - 1 && i < |groups|
    requires Accounted(groups, g, calls[..|calls| - 1], oks, i, kind) && Decides(groups, i, calls[|calls| - 1].pid)
    ensures
      var c := calls[|calls| - 1];
      var ok := Admits(BucketOf(g, c.kind), c.now, c.bytes);
      Accounted(groups, CheckedGroup(g, c.kind, c.now, c.bytes), calls, oks + [ok], i, kind)
  {
    hide CheckedGroup, Admits, Checked, Refill, BucketOf, LimitOf, Decides;
    var c, n := calls[|calls| - 1], |calls| - 1;
    var ok := Admits(BucketOf(g, c.kind), c.now, c.bytes);
    assert (oks + [ok])[..n] == oks;
    OtherBuckets(g, c.kind, kind, c.now, c.bytes);
    LimitsStay(g, c.kind, kind, c.now, c.bytes);
    if c.kind == kind {
      CheckedCounts(BucketOf(g, kind), c.now, c.bytes);
      AfterOneMore(BucketOf(groups[i], kind), RequestsOf(groups, calls[..n], i, kind), Request(c.now, c.bytes));
    } else {
      NotAsked(groups, g, calls, oks, ok, i, kind);
    }
  }

  lemma AfterOneMore(b: Bucket, rs: seq<Request>, r: Request)
    ensures After(b, rs + [r]) == Checked(After(b, rs), r.now, r.bytes)
  {
    assert (rs + [r])[..|rs|] == rs;
  }

  /** The next call, which is the last of `calls`. */
  method CheckNext(cs: Cgroups, c: Call, ghost groups: seq<Group>, ghost calls: seq<Call>, ghost oks: seq<bool>)
    returns (ok: bool)
    requires calls != [] && c == calls[|calls| - 1] && AllAccounted(groups, cs.groups, calls[..|calls| - 1], oks)
    modifies cs
    ensures AllAccounted(groups, cs.groups, calls, oks + [ok])
    ensures !ok ==> exists i :: Decides(groups, i, c.pid) && LimitOf(groups[i], c.kind) > 0
  {
    hide RequestsOf, AdmittedTo, LimitOf, Unlimited, BucketOf, CheckedGroup, Admits, Accounted, Member;
    ghost var gs, d := cs.groups, Decider(groups, c.pid);
    SameDeciders(groups, gs, calls[..|calls| - 1], oks, c.pid);
    ok := cs.Check(c.kind, c.pid, c.bytes, c.now);
    assert Answered(groups, gs, c, ok, cs.groups, d);
    NextAccounts(groups, gs, cs.groups, calls, oks, ok, d);
    if !ok {
      RefusedByLimit(groups, gs, calls[..|calls| - 1], oks, c, cs.groups, d);
    }
  }

  /**
   The limits hold over every sequence of calls by any processes: what a group's members are let
   pass of a kind is at most its limit and what the time allows; and a group without a limit
   for it is never held up.
   */
  method CheckAll(cs: Cgroups, calls: seq<Call>) returns (oks: seq<bool>)
    modifies cs
    ensures |oks| == |calls|
    ensures forall i, kind :: 0 <= i < |old(cs.groups)| && RequestsOf(old(cs.groups), calls, i, kind) != [] ==>
      var limit := LimitOf(old(cs.groups)[i], kind);
      limit > 0 ==>
        AdmittedTo(old(cs.groups), calls, oks, i, kind) <=
        limit + Allowance(limit, RequestsOf(old(cs.groups), calls, i, kind))
    ensures forall k :: 0 <= k < |calls| && !oks[k] ==>
      exists i :: Decides(old(cs.groups), i, calls[k].pid) && LimitOf(old(cs.groups)[i], calls[k].kind) > 0
  {
    hide Allowance, AdmittedTo, RequestsOf, LimitOf, Unlimited, BucketOf, CheckedGroup, Admits, Accounted,
      AllAccounted, Member;
    ghost var groups := cs.groups;
    oks := [];
    NothingAsked(groups);
    var k := 0;
    assert calls[..0] == [];
    while k < |calls|
      invariant 0 <= k <= |calls| && |oks| == k && AllAccounted(groups, cs.groups, calls[..k], oks)
      invariant forall j :: 0 <= j < k && !oks[j] ==>
        exists i :: Decides(groups, i, calls[j].pid) && LimitOf(groups[i], calls[j].kind) > 0
    {
      assert calls[..k + 1][..k] == calls[..k];
      var ok := CheckNext(cs, calls[k], groups, calls[..k + 1], oks);
      oks := oks + [ok];
      k := k + 1;
    }
    assert calls[..k] == calls;
    forall i, kind | 0 <= i < |groups| && RequestsOf(groups, calls, i, kind) != [] && LimitOf(groups[i], kind) > 0
      ensures AdmittedTo(groups, calls, oks, i, kind) <=
        LimitOf(groups[i], kind) + Allowance(LimitOf(groups[i], kind), RequestsOf(groups, calls, i, kind))
    {
      WithinLimit(groups, cs.groups, calls, oks, i, kind);
    }
  }

  lemma NothingAsked(groups: seq<Group>)
    ensures AllAccounted(groups, groups, [], [])
  {}

  /** The group that decides for a process, -1 if it is in none. */
  ghost function Decider(groups: seq<Group>, pid: int): (d: int)
    ensures Decides(groups, d, pid) || (d == -1 && forall j :: 0 <= j < |groups| ==> !Member(groups[j], pid))
    ensures forall j :: Decides(groups, j, pid) ==> j == d
  {
    if groups == [] then -1
    else
      var n := |groups| - 1;
      var d := Decider(groups[..n], pid);
      if d != -1 then assert Decides(groups[..n], d, pid); d
      else if Member(groups[n], pid) then n
      else -1
  }

  lemma SameDeciders(groups: seq<Group>, gs: seq<Group>, calls: seq<Call>, oks: seq<bool>, pid: int)
    requires AllAccounted(groups, gs, calls, oks)
    ensures forall j :: Decides(gs, j, pid) <==> Decides(groups, j, pid)
    ensures forall j :: 0 <= j < |gs| ==> (Member(gs[j], pid) <==> Member(groups[j], pid))
  {
    forall j | 0 <= j < |gs|
      ensures Member(gs[j], pid) <==> Member(groups[j], pid)
    {
      assert Accounted(groups, gs[j], calls, oks, j, Read);
    }
  }

  lemma NextAccounts(groups: seq<Group>, gs: seq<Group>, gs': seq<Group>, calls: seq<Call>, oks: seq<bool>, ok: bool,
                     d: int)
    requires calls != [] && |oks| == |calls| - 1 && AllAccounted(groups, gs, calls[..|calls| - 1], oks)
    requires d == Decider(groups, calls[|calls| - 1].pid) && Answered(groups, gs, calls[|calls| - 1], ok, gs', d)
    ensures AllAccounted(groups, gs', calls, oks + [ok])
  {
    hide Accounted, CheckedGroup, Admits, Unlimited, BucketOf;
    forall i, kind | 0 <= i < |groups|
      ensures Accounted(groups, gs'[i], calls, oks + [ok], i, kind)
    {
      OneMoreCall(groups, gs, gs', calls, oks, ok, d, i, kind);
    }
  }

  /** A refusal is by a group that decides and has a limit. */
  lemma RefusedByLimit(groups: seq<Group>, gs: seq<Group>, calls: seq<Call>, oks: seq<bool>, c: Call, gs': seq<Group>,
                       d: int)
    requires AllAccounted(groups, gs, calls, oks) && Answered(groups, gs, c, false, gs', d)
    ensures Decides(groups, d, c.pid) && LimitOf(groups[d], c.kind) > 0
  {
    hide Unlimited, LimitOf, BucketOf;
    UnlimitedMeans(gs[d], c.kind);
    assert Accounted(groups, gs[d], calls, oks, d, c.kind);
  }

  lemma WithinLimit(groups: seq<Group>, gs: seq<Group>, calls: seq<Call>, oks: seq<bool>, i: nat, kind: Kind)
    requires AllAccounted(groups, gs, calls, oks) && i < |groups|
    requires RequestsOf(groups, calls, i, kind) != [] && LimitOf(groups[i], kind) > 0
    ensures AdmittedTo(groups, calls, oks, i, kind) <=
      LimitOf(groups[i], kind) + Allowance(LimitOf(groups[i], kind), RequestsOf(groups, calls, i, kind))
  {
    hide LimitOf, BucketOf, Allowance, AdmittedTo, RequestsOf;
    assert Accounted(groups, gs[i], calls, oks, i, kind);
    UnlimitedMeans(groups[i], kind);
    AdmittedBound(BucketOf(groups[i], kind), RequestsOf(groups, calls, i, kind));
  }
}
