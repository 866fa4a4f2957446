/**
 Frames, their counts and copy on write on any number of processors, over all
 interleavings.

 A step is one critical section of kalloc, kfree or kaddrefcnt, or what is done between
 two of them. A holder is one use of a frame: an entry of a page table, or a page the
 kernel keeps. A count is read by cowalloc without its lock, and between the critical
 sections of kalloc and kfree a frame has count zero and is on no list.
 */
module FrameRuns {
  import opened Common
  import opened Tables

  type Page = seq<Byte>

  /** Where a holder is. */
  datatype Pc =
    | Out                           // an unused entry
    | Want                          // kalloc: take a frame off a list
    | Popped(f: nat)                // kalloc: set the count
    | Fresh(f: nat)                 // kalloc has returned: fill the page and map it
    | Own(f: nat)                   // mapped writable
    | Shared(f: nat)                // mapped for copy on write
    | Forking(f: nat)               // uvmcopy: the entry is marked, the count is next
    | Copying(f: nat)               // cowalloc: the count was not one; kalloc
    | CopyPopped(f: nat, g: nat)
    | CopyTo(f: nat, g: nat)        // cowalloc: memmove
    | Copied(f: nat, g: nat)        // the entry maps the copy; kfree the old frame
    | Freeing(f: nat)               // kfree: lower the count
    | Zero(f: nat)                  // kfree: the count is zero; put the frame on a list
    | ZeroCopied(f: nat, g: nat)

  /** `home` and `flight` are not read by the code: the list a frame is on, and the holder that has it off the lists. */
  datatype State = State(cnt: seq<nat>, lists: seq<seq<nat>>, mem: seq<Page>, holders: seq<Pc>,
                         home: seq<Option<nat>>, flight: seq<Option<nat>>)

  datatype Act =
    | Call | Pop(list: nat) | Fail | SetOne | Junk(page: Page) | Ready(page: Page) | Store(page: Page)
    | Fork | Add(child: nat) | Look | Move | Free | Lower | Push(list: nat)

  datatype Step = Step(p: nat, act: Act)

  // ---- Steps ----

  ghost predicate Sized(s: State) {
    |s.mem| == |s.home| == |s.flight| == |s.cnt|
  }

  function Goto(s: State, p: nat, pc: Pc): State
    requires p < |s.holders|
  {
    s.(holders := s.holders[p := pc])
  }

  /** kalloc, for a new page or for a copy. */
  ghost predicate Allocates(s: State, p: nat, act: Act, s': State)
    requires Sized(s) && p < |s.holders|
  {
    var pc := s.holders[p];
    match act
    case Call => pc == Out && s' == Goto(s, p, Want)
    case Pop(l) =>
      && (pc.Want? || pc.Copying?)
      && l < |s.lists| && s.lists[l] != [] && s.lists[l][0] < |s.cnt|
      && var f := s.lists[l][0];
      && s' == Goto(s, p, if pc.Want? then Popped(f) else CopyPopped(pc.f, f))
               .(lists := s.lists[l := s.lists[l][1..]], home := s.home[f := None], flight := s.flight[f := Some(p)])
    case Fail => (pc.Want? && s' == Goto(s, p, Out)) || (pc.Copying? && s' == Goto(s, p, Shared(pc.f)))
    case SetOne =>
      && (pc.Popped? || pc.CopyPopped?)
      && var f := if pc.Popped? then pc.f else pc.g;
      && f < |s.cnt|
      && s' == Goto(s, p, if pc.Popped? then Fresh(f) else CopyTo(pc.f, f))
               .(cnt := s.cnt[f := 1], flight := s.flight[f := None])
    case _ => false
  }

  /** What is done to the contents of frames, and the choice cowalloc makes. */
  ghost predicate Writes(s: State, p: nat, act: Act, s': State)
    requires Sized(s) && p < |s.holders|
  {
    var pc := s.holders[p];
    match act
    case Junk(page) =>
      && (pc.Fresh? || pc.Zero? || pc.ZeroCopied? || pc.CopyTo?)
      && var f := if pc.CopyTo? then pc.g else pc.f;
      && f < |s.mem| && s' == s.(mem := s.mem[f := page])
    case Ready(page) => pc.Fresh? && pc.f < |s.mem| && s' == Goto(s, p, Own(pc.f)).(mem := s.mem[pc.f := page])
    case Store(page) => pc.Own? && pc.f < |s.mem| && s' == s.(mem := s.mem[pc.f := page])
    case Look => pc.Shared? && pc.f < |s.cnt| && s' == Goto(s, p, if s.cnt[pc.f] == 1 then Own(pc.f) else Copying(pc.f))
    case Move =>
      && pc.CopyTo? && pc.f < |s.mem| && pc.g < |s.mem|
      && s' == Goto(s, p, Copied(pc.f, pc.g)).(mem := s.mem[pc.g := s.mem[pc.f]])
    case _ => false
  }

  /** fork's share of a page, and kfree. */
  ghost predicate Counts(s: State, p: nat, act: Act, s': State)
    requires Sized(s) && p < |s.holders|
  {
    var pc := s.holders[p];
    match act
    case Fork => (pc.Own? || pc.Shared?) && s' == Goto(s, p, Forking(pc.f))
    case Add(q) =>
      && pc.Forking? && pc.f < |s.cnt| && q < |s.holders| && s.holders[q] == Out
      && s' == Goto(Goto(s, p, Shared(pc.f)), q, Shared(pc.f)).(cnt := s.cnt[pc.f := s.cnt[pc.f] + 1])
    case Free => (pc.Own? || pc.Shared?) && s' == Goto(s, p, Freeing(pc.f))
    case Lower =>
      && (pc.Freeing? || pc.Copied?) && pc.f < |s.cnt| && s.cnt[pc.f] >= 1
      && if s.cnt[pc.f] == 1
         then s' == Goto(s, p, if pc.Freeing? then Zero(pc.f) else ZeroCopied(pc.f, pc.g))
                    .(cnt := s.cnt[pc.f := 0], flight := s.flight[pc.f := Some(p)])
         else s' == Goto(s, p, if pc.Freeing? then Out else Own(pc.g)).(cnt := s.cnt[pc.f := s.cnt[pc.f] - 1])
    case Push(l) =>
      && (pc.Zero? || pc.ZeroCopied?) && pc.f < |s.cnt| && l < |s.lists|
      && s' == Goto(s, p, if pc.Zero? then Out else Own(pc.g))
               .(lists := s.lists[l := [pc.f] + s.lists[l]], home := s.home[pc.f := Some(l)],
                 flight := s.flight[pc.f := None])
    case _ => false
  }

  ghost predicate Next(s: State, e: Step, s': State) {
    && Sized(s) && e.p < |s.holders|
    && (Allocates(s, e.p, e.act, s') || Writes(s, e.p, e.act, s') || Counts(s, e.p, e.act, s'))
  }

  /** After kinit: every frame is on one list, once, and nothing is in use. */
  ghost predicate Init(s: State) {
    && Sized(s) && ListsOk(s)
    && (forall f :: 0 <= f < |s.cnt| ==> s.cnt[f] == 0 && s.home[f].Some? && s.flight[f] == None)
    && (forall p :: 0 <= p < |s.holders| ==> s.holders[p] == Out)
  }

  ghost predicate Run(states: seq<State>, steps: seq<Step>) {
    && |states| == |steps| + 1
    && Init(states[0])
    && forall i :: 0 <= i < |steps| ==> Next(states[i], steps[i], states[i + 1])
  }

  // ---- The invariant ----

  predicate HasOld(pc: Pc) {
    || pc.Fresh? || pc.Own? || pc.Shared? || pc.Forking? || pc.Freeing?
    || pc.Copying? || pc.CopyPopped? || pc.CopyTo? || pc.Copied?
  }

  predicate HasCopy(pc: Pc) {
    pc.CopyTo? || pc.Copied? || pc.ZeroCopied?
  }

  /** The holder counts on frame `f`. */
  predicate Uses(pc: Pc, f: nat) {
    (HasOld(pc) && pc.f == f) || (HasCopy(pc) && pc.g == f)
  }

  /** The holder has `f` off the lists with a count of zero. */
  predicate Flies(pc: Pc, f: nat) {
    ((pc.Popped? || pc.Zero? || pc.ZeroCopied?) && pc.f == f) || (pc.CopyPopped? && pc.g == f)
  }

  /** The holder may write frame `f`. */
  predicate Writable(pc: Pc, f: nat) {
    ((pc.Fresh? || pc.Own?) && pc.f == f) || (HasCopy(pc) && pc.g == f)
  }

  ghost predicate ListsOk(s: State)
    requires Sized(s)
  {
    && (forall f :: 0 <= f < |s.cnt| && s.home[f].Some? ==> s.home[f].value < |s.lists|)
    && (forall l :: 0 <= l < |s.lists| ==> Distinct(s.lists[l]))
    && forall l, f {:trigger f in s.lists[l]} :: 0 <= l < |s.lists| ==>
         (f in s.lists[l] <==> 0 <= f < |s.cnt| && s.home[f] == Some(l))
  }

  /** A frame with a count is neither on a list nor in flight, one without is one of the two. */
  ghost predicate PlacesOk(s: State)
    requires Sized(s)
  {
    forall f :: 0 <= f < |s.cnt| ==>
      && (s.cnt[f] > 0 ==> s.home[f] == None && s.flight[f] == None)
      && (s.cnt[f] == 0 ==> (s.home[f].Some? <==> s.flight[f] == None))
  }

  ghost predicate CountsOk(s: State)
    requires Sized(s)
  {
    forall f :: 0 <= f < |s.cnt| ==> s.cnt[f] == Tally(s.holders, Uses, f)
  }

  predicate HolderOk(s: State, p: nat)
    requires Sized(s) && p < |s.holders|
  {
    var pc := s.holders[p];
    && (pc != Out && pc != Want ==> pc.f < |s.cnt|)
    && (pc.CopyPopped? || HasCopy(pc) ==> pc.g < |s.cnt| && pc.g != pc.f)
    && (forall f :: 0 <= f < |s.cnt| && Writable(pc, f) ==> s.cnt[f] == 1)
  }

  ghost predicate HoldersOk(s: State)
    requires Sized(s)
  {
    forall p :: 0 <= p < |s.holders| ==> HolderOk(s, p)
  }

  ghost predicate Inv(s: State) {
    Sized(s) && ListsOk(s) && PlacesOk(s) && Owned(s.flight, s.holders, Flies) && CountsOk(s) && HoldersOk(s)
  }

  // ---- Every step keeps it ----

  lemma HolderAt(s: State, p: nat)
    requires Sized(s) && HoldersOk(s) && p < |s.holders|
    ensures HolderOk(s, p)
  {}

  lemma CountAt(s: State, f: nat)
    requires Sized(s) && CountsOk(s) && f < |s.cnt|
    ensures s.cnt[f] == Tally(s.holders, Uses, f)
  {}

  /** A frame that holder `p` counts on has a count, and no one else's use if the count is one. */
  lemma UsedAt(s: State, p: nat, f: nat)
    requires Sized(s) && CountsOk(s) && p < |s.holders| && f < |s.cnt| && Uses(s.holders[p], f)
    ensures s.cnt[f] >= 1
    ensures s.cnt[f] == 1 ==> forall q :: 0 <= q < |s.holders| && q != p ==> !Uses(s.holders[q], f)
  {
    TallySome(s.holders, Uses, f, p);
    if s.cnt[f] == 1 {
      forall q | 0 <= q < |s.holders| && q != p
        ensures !Uses(s.holders[q], f)
      {
        if Uses(s.holders[q], f) {
          TallyTwo(s.holders, Uses, f, if p < q then p else q, if p < q then q else p);
        }
      }
    }
  }

  /** Steps of one holder that change at most one count, by what the holder gains or loses. */
  lemma CountsKept(s: State, p: nat, s': State)
    requires Sized(s) && Sized(s') && CountsOk(s) && |s'.cnt| == |s.cnt| && p < |s.holders| == |s'.holders|
    requires s'.holders == s.holders[p := s'.holders[p]]
    requires forall f :: 0 <= f < |s.cnt| ==>
               s'.cnt[f] + (if Uses(s.holders[p], f) then 1 else 0) == s.cnt[f] + if Uses(s'.holders[p], f) then 1
                 else 0
    ensures CountsOk(s')
  {
    forall f | 0 <= f < |s.cnt|
      ensures s'.cnt[f] == Tally(s'.holders, Uses, f)
    {
      TallyWith(s.holders, Uses, f, p, s'.holders[p]);
    }
  }

  /** The other holders' frames keep their counts where that matters. */
  lemma HoldersKept(s: State, p: nat, s': State)
    requires Sized(s) && Sized(s') && HoldersOk(s) && |s'.cnt| == |s.cnt| && p < |s.holders| == |s'.holders|
    requires s'.holders == s.holders[p := s'.holders[p]] && HolderOk(s', p)
    requires forall q, f :: 0 <= q < |s.holders| && q != p && 0 <= f < |s.cnt| && Writable(s.holders[q], f) ==>
      s'.cnt[f] == s.cnt[f]
    ensures HoldersOk(s')
  {
    forall q | 0 <= q < |s'.holders|
      ensures HolderOk(s', q)
    {
      assert HolderOk(s, q);
    }
  }

  lemma PopKeeps(s: State, p: nat, l: nat, s': State)
    requires Inv(s) && p < |s.holders| && Allocates(s, p, Pop(l), s')
    ensures Inv(s')
  {
    hide Tally, CountsOk, HoldersOk, Owned;
    HolderAt(s, p);
    var pc, f := s.holders[p], s.lists[l][0];
    assert f in s.lists[l];
    if pc.Copying? { UsedAt(s, p, pc.f); }
    OwnersTake(s.flight, s.holders, Flies, p, s'.holders[p], f);
    CountsKept(s, p, s');
    HoldersKept(s, p, s');
    PopLists(s, l, s');
  }

  lemma PopLists(s: State, l: nat, s': State)
    requires Sized(s) && ListsOk(s) && l < |s.lists| && s.lists[l] != [] && s.lists[l][0] < |s.cnt|
    requires Sized(s') && |s'.cnt| == |s.cnt|
    requires s'.lists == s.lists[l := s.lists[l][1..]] && s'.home == s.home[s.lists[l][0] := None]
    ensures ListsOk(s')
  {
    DistinctTail(s.lists[l]);
    assert s.lists[l][0] in s.lists[l];
    forall m, g {:trigger g in s'.lists[m]} | 0 <= m < |s.lists|
      ensures g in s'.lists[m] <==> 0 <= g < |s.cnt| && s'.home[g] == Some(m)
    {
      assert g in s.lists[m] <==> 0 <= g < |s.cnt| && s.home[g] == Some(m);
    }
  }

  lemma DistinctTail(q: seq<nat>)
    requires Distinct(q) && q != []
    ensures Distinct(q[1..]) && forall g :: g in q[1..] <==> g in q && g != q[0]
  {
    assert q == [q[0]] + q[1..];
  }

  lemma PushLists(s: State, l: nat, f: nat, s': State)
    requires Sized(s) && ListsOk(s) && l < |s.lists| && f < |s.cnt| && s.home[f] == None
    requires Sized(s') && |s'.cnt| == |s.cnt|
    requires s'.lists == s.lists[l := [f] + s.lists[l]] && s'.home == s.home[f := Some(l)]
    ensures ListsOk(s')
  {
    assert f !in s.lists[l];
  }

  lemma AllocateKeeps(s: State, p: nat, act: Act, s': State)
    requires Inv(s) && p < |s.holders| && Allocates(s, p, act, s')
    ensures Inv(s')
  {
    hide Tally, CountsOk, HoldersOk, Owned, ListsOk;
    HolderAt(s, p);
    if act.Pop? {
      PopKeeps(s, p, act.list, s');
    } else if act.SetOne? {
      SetOneKeeps(s, p, s');
    } else {
      OwnersKeep(s.flight, s.holders, Flies, p, s'.holders[p]);
      CountsKept(s, p, s');
      HoldersKept(s, p, s');
      ListsSame(s, s');
    }
  }

  lemma ListsSame(s: State, s': State)
    requires Sized(s) && Sized(s') && ListsOk(s) && s'.lists == s.lists && s'.home == s.home && |s'.cnt| == |s.cnt|
    ensures ListsOk(s')
  {}

  /** Nobody counts on a frame without a count. */
  lemma UnusedAt(s: State, f: nat)
    requires Sized(s) && CountsOk(s) && f < |s.cnt| && s.cnt[f] == 0
    ensures forall q :: 0 <= q < |s.holders| ==> !Uses(s.holders[q], f)
  {
    forall q | 0 <= q < |s.holders|
      ensures !Uses(s.holders[q], f)
    {
      if Uses(s.holders[q], f) {
        UsedAt(s, q, f);
      }
    }
  }

  lemma SetOneKeeps(s: State, p: nat, s': State)
    requires Inv(s) && p < |s.holders| && Allocates(s, p, SetOne, s')
    ensures Inv(s')
  {
    hide Tally, CountsOk, HoldersOk, Owned, ListsOk;
    HolderAt(s, p);
    var pc := s.holders[p];
    var f := if pc.Popped? then pc.f else pc.g;
    OwnerAt(s.flight, s.holders, Flies, p, f);
    UnusedAt(s, f);
    OwnersFree(s.flight, s.holders, Flies, p, s'.holders[p], f);
    CountsKept(s, p, s');
    HoldersKept(s, p, s');
    ListsSame(s, s');
  }

  lemma WriteKeeps(s: State, p: nat, act: Act, s': State)
    requires Inv(s) && p < |s.holders| && Writes(s, p, act, s')
    ensures Inv(s')
  {
    hide Tally, CountsOk, HoldersOk, Owned, ListsOk;
    HolderAt(s, p);
    assert s'.holders == s.holders[p := s'.holders[p]];
    OwnersKeep(s.flight, s.holders, Flies, p, s'.holders[p]);
    CountsKept(s, p, s');
    HoldersKept(s, p, s');
    ListsSame(s, s');
  }

  lemma AddKeeps(s: State, p: nat, q: nat, s': State)
    requires Inv(s) && p < |s.holders| && Counts(s, p, Add(q), s')
    ensures Inv(s')
  {
    hide Tally, CountsOk, HoldersOk, Owned, ListsOk;
    HolderAt(s, p);
    var f := s.holders[p].f;
    var mid := Goto(s, p, Shared(f));
    UsedAt(s, p, f);
    OwnersKeep(s.flight, s.holders, Flies, p, Shared(f));
    OwnersKeep(mid.flight, mid.holders, Flies, q, Shared(f));
    CountsKept(s, p, mid);
    CountsKept(mid, q, s');
    HoldersKept(s, p, mid);
    NotWritable(mid, p, f);
    HoldersKept(mid, q, s');
    ListsSame(s, s');
  }

  /** A frame that one holder uses and may not write, no one may write. */
  lemma NotWritable(s: State, p: nat, f: nat)
    requires Sized(s) && CountsOk(s) && HoldersOk(s) && p < |s.holders| && f < |s.cnt|
    requires Uses(s.holders[p], f) && !Writable(s.holders[p], f)
    ensures forall q :: 0 <= q < |s.holders| ==> !Writable(s.holders[q], f)
  {
    UsedAt(s, p, f);
    forall q | 0 <= q < |s.holders|
      ensures !Writable(s.holders[q], f)
    {
      HolderAt(s, q);
    }
  }

  lemma LowerKeeps(s: State, p: nat, s': State)
    requires Inv(s) && p < |s.holders| && Counts(s, p, Lower, s')
    ensures Inv(s')
  {
    hide Tally, CountsOk, HoldersOk, Owned, ListsOk;
    HolderAt(s, p);
    var pc := s.holders[p];
    var f := pc.f;
    UsedAt(s, p, f);
    NotWritable(s, p, f);
    if s.cnt[f] == 1 {
      OwnersTake(s.flight, s.holders, Flies, p, s'.holders[p], f);
    } else {
      OwnersKeep(s.flight, s.holders, Flies, p, s'.holders[p]);
    }
    CountsKept(s, p, s');
    HoldersKept(s, p, s');
    ListsSame(s, s');
  }

  lemma PushKeeps(s: State, p: nat, l: nat, s': State)
    requires Inv(s) && p < |s.holders| && Counts(s, p, Push(l), s')
    ensures Inv(s')
  {
    hide Tally, CountsOk, HoldersOk, Owned, ListsOk;
    HolderAt(s, p);
    var f := s.holders[p].f;
    OwnerAt(s.flight, s.holders, Flies, p, f);
    OwnersFree(s.flight, s.holders, Flies, p, s'.holders[p], f);
    CountsKept(s, p, s');
    HoldersKept(s, p, s');
    PushLists(s, l, f, s');
  }

  lemma CountKeeps(s: State, p: nat, act: Act, s': State)
    requires Inv(s) && p < |s.holders| && Counts(s, p, act, s')
    ensures Inv(s')
  {
    hide Tally, CountsOk, HoldersOk, Owned, ListsOk;
    HolderAt(s, p);
    if act.Add? {
      AddKeeps(s, p, act.child, s');
    } else if act.Lower? {
      LowerKeeps(s, p, s');
    } else if act.Push? {
      PushKeeps(s, p, act.list, s');
    } else {
      OwnersKeep(s.flight, s.holders, Flies, p, s'.holders[p]);
      CountsKept(s, p, s');
      HoldersKept(s, p, s');
      ListsSame(s, s');
    }
  }

  lemma NextKeeps(s: State, e: Step, s': State)
    requires Inv(s) && Next(s, e, s')
    ensures Inv(s')
  {
    hide Inv, Allocates, Writes, Counts;
    if Allocates(s, e.p, e.act, s') {
      AllocateKeeps(s, e.p, e.act, s');
    } else if Writes(s, e.p, e.act, s') {
      WriteKeeps(s, e.p, e.act, s');
    } else {
      CountKeeps(s, e.p, e.act, s');
    }
  }

  lemma InitInv(s: State)
    requires Init(s)
    ensures Inv(s)
  {
    forall f | 0 <= f < |s.cnt|
      ensures Tally(s.holders, Uses, f) == 0
    {
      TallyNone(s.holders, Uses, f);
    }
  }

  /** Counts, lists and flights agree in every state of every run. */
  lemma {:induction false} RunInv(states: seq<State>, steps: seq<Step>, i: nat)
    requires Run(states, steps) && i < |states|
    ensures Inv(states[i])
  {
    hide Inv, Init, Next;
    if i == 0 {
      InitInv(states[0]);
    } else {
      RunInv(states, steps, i - 1);
      NextKeeps(states[i - 1], steps[i - 1], states[i]);
    }
  }

  /** What kinit leaves is a state runs start in. */
  lemma Boot(mem: seq<Page>, cpus: nat, n: nat) returns (s: State)
    requires cpus >= 1
    ensures Init(s) && s.mem == mem && |s.lists| == cpus && |s.holders| == n
  {
    var all: seq<nat> := seq(|mem|, i requires 0 <= i < |mem| => |mem| - 1 - i);
    var none: seq<nat> := [];
    s := State(seq(|mem|, _ => 0), seq(cpus, l => if l == 0 then all else none), mem, seq(n, _ => Out),
               seq(|mem|, _ => Some(0)), seq(|mem|, _ => None));
    forall l, f {:trigger f in s.lists[l]} | 0 <= l < cpus
      ensures f in s.lists[l] <==> 0 <= f < |mem| && s.home[f] == Some(l)
    {
      if l == 0 && 0 <= f < |mem| {
        assert all[|mem| - 1 - f] == f;
      }
    }
  }

  // ---- What that means ----

  ghost predicate OnList(s: State, l: nat, f: nat)
    requires l < |s.lists|
  {
    f in s.lists[l]
  }

  /**
   A count is the number of uses. A frame with count zero is on exactly one list, once,
   or on none and in flight in one call of kalloc or kfree; one with a count is neither.
   */
  lemma FramesConserved(states: seq<State>, steps: seq<Step>, i: nat, f: nat)
    requires Run(states, steps) && i < |states| && f < |states[i].cnt|
    ensures states[i].cnt[f] == Tally(states[i].holders, Uses, f)
    ensures forall l :: 0 <= l < |states[i].lists| ==> Distinct(states[i].lists[l])
    ensures forall l, m :: 0 <= l < m < |states[i].lists| ==> !OnList(states[i], l, f) || !OnList(states[i], m, f)
    ensures forall p, q :: 0 <= p < q < |states[i].holders| ==>
      !Flies(states[i].holders[p], f) || !Flies(states[i].holders[q], f)
    ensures states[i].cnt[f] == 0 <==>
            || (exists l :: 0 <= l < |states[i].lists| && OnList(states[i], l, f))
            || (exists p :: 0 <= p < |states[i].holders| && Flies(states[i].holders[p], f))
    ensures (exists l :: 0 <= l < |states[i].lists| && OnList(states[i], l, f)) ==>
            (forall p :: 0 <= p < |states[i].holders| ==> !Flies(states[i].holders[p], f))
  {
    hide Init, Next, CountsOk, HoldersOk;
    RunInv(states, steps, i);
    var s := states[i];
    CountAt(s, f);
    forall p | 0 <= p < |s.holders| { OwnerAt(s.flight, s.holders, Flies, p, f); }
    if s.home[f].Some? {
      assert OnList(s, s.home[f].value, f);
    }
    if s.flight[f].Some? {
      assert Flies(s.holders[s.flight[f].value], f);
    }
  }

  /** What may be written has one use: cowalloc's unlocked look at the count is safe. */
  lemma WritableIsSole(states: seq<State>, steps: seq<Step>, i: nat, p: nat, q: nat, f: nat)
    requires Run(states, steps) && i < |states| && p < |states[i].holders| && q < |states[i].holders| && p != q
    requires Writable(states[i].holders[p], f)
    ensures f < |states[i].cnt| && states[i].cnt[f] == 1 && !Uses(states[i].holders[q], f)
    ensures !Flies(states[i].holders[q], f)
  {
    hide Init, Next, CountsOk, HoldersOk;
    RunInv(states, steps, i);
    var s := states[i];
    HolderAt(s, p);
    UsedAt(s, p, f);
    OwnerAt(s.flight, s.holders, Flies, q, f);
  }

  // ---- Copy on write is not seen ----

  /** The frame an entry maps. */
  function Entry(pc: Pc): Option<nat> {
    if pc.Own? || pc.Shared? || pc.Forking? || pc.Copying? || pc.CopyPopped? || pc.CopyTo? then Some(pc.f)
    else if pc.Copied? || pc.ZeroCopied? then Some(pc.g)
    else None
  }

  function Seen(s: State, q: nat): Option<Page>
    requires q < |s.holders|
  {
    match Entry(s.holders[q])
    case None => None
    case Some(f) => if f < |s.mem| then Some(s.mem[f]) else None
  }

  /** What a step does where every entry has a page of its own, and fork copies it. */
  function Eager(e: Step, v: seq<Option<Page>>): (r: seq<Option<Page>>)
    ensures |r| == |v|
  {
    if e.p >= |v| then v
    else
      match e.act
      case Ready(page) => v[e.p := Some(page)]
      case Store(page) => v[e.p := Some(page)]
      case Add(q) => if q < |v| then v[q := v[e.p]] else v
      case Free => v[e.p := None]
      case _ => v
  }

  function EagerRun(n: nat, steps: seq<Step>, i: nat): (v: seq<Option<Page>>)
    requires i <= |steps|
    ensures |v| == n
  {
    if i == 0 then seq(n, _ => None) else Eager(steps[i - 1], EagerRun(n, steps, i - 1))
  }

  ghost predicate Matches(s: State, v: seq<Option<Page>>) {
    |v| == |s.holders| && forall q :: 0 <= q < |v| ==> v[q] == Seen(s, q)
  }

  lemma EntryIsUsed(s: State, q: nat)
    requires Sized(s) && HoldersOk(s) && q < |s.holders| && Entry(s.holders[q]).Some?
    ensures Entry(s.holders[q]).value < |s.cnt| && Uses(s.holders[q], Entry(s.holders[q]).value)
  {
    HolderAt(s, q);
  }

  /** A frame written by `p`, who alone counts on it or has it in flight, is not what another entry maps. */
  lemma WriteUnseen(s: State, p: nat, f: nat, q: nat)
    requires Inv(s) && p < |s.holders| && q < |s.holders| && q != p && f < |s.cnt|
    requires Writable(s.holders[p], f) || Flies(s.holders[p], f)
    ensures Entry(s.holders[q]) != Some(f)
  {
    hide Tally, CountsOk, HoldersOk, ListsOk;
    if Entry(s.holders[q]).Some? {
      EntryIsUsed(s, q);
    }
    HolderAt(s, p);
    OwnerAt(s.flight, s.holders, Flies, p, f);
    if Writable(s.holders[p], f) {
      UsedAt(s, p, f);
    } else {
      UnusedAt(s, f);
    }
  }

  lemma WriteMatches(s: State, e: Step, s': State, v: seq<Option<Page>>)
    requires Inv(s) && Matches(s, v) && e.p < |s.holders| && Writes(s, e.p, e.act, s')
    ensures Matches(s', Eager(e, v))
  {
    hide Tally, CountsOk, HoldersOk, Owned, ListsOk, PlacesOk;
    HolderAt(s, e.p);
    var pc := s.holders[e.p];
    var v' := Eager(e, v);
    forall q | 0 <= q < |v'|
      ensures v'[q] == Seen(s', q)
    {
      assert v[q] == Seen(s, q);
      if q != e.p && !e.act.Look? {
        WriteUnseen(s, e.p, if pc.CopyTo? then pc.g else pc.f, q);
      }
    }
  }

  /** Entries map what they mapped, but for the child's new one and the one that is freed. */
  ghost predicate SameEntries(s: State, e: Step, s': State) {
    && s'.mem == s.mem && |s'.holders| == |s.holders| && e.p < |s.holders|
    && (e.act.Add? ==> e.act.child < |s.holders| && Entry(s'.holders[e.act.child]) == Entry(s.holders[e.p]))
    && (e.act.Free? ==> Entry(s'.holders[e.p]) == None)
    && forall q :: 0 <= q < |s.holders| && !(e.act.Add? && q == e.act.child) && !(e.act.Free? && q == e.p) ==>
         Entry(s'.holders[q]) == Entry(s.holders[q])
  }

  lemma AllocateEntries(s: State, e: Step, s': State)
    requires Sized(s) && e.p < |s.holders| && Allocates(s, e.p, e.act, s')
    ensures SameEntries(s, e, s')
  {}

  lemma CountEntries(s: State, e: Step, s': State)
    requires Sized(s) && e.p < |s.holders| && Counts(s, e.p, e.act, s')
    ensures SameEntries(s, e, s')
  {}

  lemma EntriesMatch(s: State, e: Step, s': State, v: seq<Option<Page>>)
    requires Matches(s, v) && SameEntries(s, e, s') && !e.act.Ready? && !e.act.Store?
    ensures Matches(s', Eager(e, v))
  {
    hide Entry;
    var v' := Eager(e, v);
    assert v[e.p] == Seen(s, e.p);
    forall q | 0 <= q < |v'|
      ensures v'[q] == Seen(s', q)
    {
      assert v[q] == Seen(s, q);
    }
  }

  lemma WritesOnly(s: State, e: Step, s': State)
    requires Sized(s) && e.p < |s.holders| && (Allocates(s, e.p, e.act, s') || Counts(s, e.p, e.act, s'))
    ensures !e.act.Ready? && !e.act.Store?
  {}

  /**
   In every state of every run every entry reads as if fork had copied the page: sharing,
   copying on a fault, counting and freeing on other processors are not seen.
   */
  lemma {:induction false} CopiesUnseen(states: seq<State>, steps: seq<Step>, i: nat)
    requires Run(states, steps) && i < |states|
    ensures Matches(states[i], EagerRun(|states[0].holders|, steps, i))
  {
    hide Inv, Next, Matches, Eager;
    if i == 0 {
      FirstMatches(states[0]);
    } else {
      CopiesUnseen(states, steps, i - 1);
      RunInv(states, steps, i - 1);
      NextMatches(states[i - 1], steps[i - 1], states[i], EagerRun(|states[0].holders|, steps, i - 1));
    }
  }

  lemma FirstMatches(s: State)
    requires Init(s)
    ensures Matches(s, seq(|s.holders|, _ => None))
  {}

  lemma NextMatches(s: State, e: Step, s': State, v: seq<Option<Page>>)
    requires Inv(s) && Matches(s, v) && Next(s, e, s')
    ensures Matches(s', Eager(e, v))
  {
    hide Inv, Matches, Eager, Allocates, Writes, Counts;
    if Allocates(s, e.p, e.act, s') {
      WritesOnly(s, e, s');
      AllocateEntries(s, e, s');
      EntriesMatch(s, e, s', v);
    } else if Writes(s, e.p, e.act, s') {
      WriteMatches(s, e, s', v);
    } else {
      WritesOnly(s, e, s');
      CountEntries(s, e, s');
      EntriesMatch(s, e, s', v);
    }
  }

  // ---- What one holder does when no other interferes ----

  /** The steps, all of holder `p`, lead from the first state to the last. */
  ghost predicate Leads(states: seq<State>, p: nat, acts: seq<Act>) {
    && |states| == |acts| + 1
    && forall i :: 0 <= i < |acts| ==> Next(states[i], Step(p, acts[i]), states[i + 1])
  }

  /** From any state with a frame on list `l`, a new page gets that frame, with a count of one. */
  lemma AllocCompletes(s: State, p: nat, l: nat, junk: Page, page: Page) returns (ss: seq<State>, t: State)
    requires Sized(s) && p < |s.holders| && s.holders[p] == Out
    requires l < |s.lists| && s.lists[l] != [] && s.lists[l][0] < |s.cnt|
    ensures Leads(ss, p, [Call, Pop(l), SetOne, Junk(junk), Ready(page)]) && ss[0] == s && ss[5] == t
    ensures var f := s.lists[l][0];
      && t.holders == s.holders[p := Own(f)] && t.cnt == s.cnt[f := 1] && t.mem == s.mem[f := page]
      && t.lists == s.lists[l := s.lists[l][1..]]
  {
    var f := s.lists[l][0];
    var s1 := Goto(s, p, Want);
    var s2 := Goto(s1, p, Popped(f)).(lists := s.lists[l := s.lists[l][1..]], home := s.home[f := None],
                   flight := s.flight[f := Some(p)]);
    var s3 := Goto(s2, p, Fresh(f)).(cnt := s.cnt[f := 1], flight := s2.flight[f := None]);
    var s4 := s3.(mem := s.mem[f := junk]);
    t := Goto(s4, p, Own(f)).(mem := s4.mem[f := page]);
    assert Next(s, Step(p, Call), s1);
    assert Next(s1, Step(p, Pop(l)), s2);
    assert Next(s2, Step(p, SetOne), s3);
    assert Next(s3, Step(p, Junk(junk)), s4);
    assert Next(s4, Step(p, Ready(page)), t);
    ss := [s, s1, s2, s3, s4, t];
  }

  /** kalloc may find nothing: then the entry stays unused, or the page shared as it was. */
  lemma FailCompletes(s: State, p: nat)
    requires Sized(s) && p < |s.holders| && (s.holders[p] == Want || s.holders[p].Copying?)
    ensures Next(s, Step(p, Fail), Goto(s, p, if s.holders[p] == Want then Out else Shared(s.holders[p].f)))
  {}

  /** fork: the child has the same frame, both may only read it, and it counts once more. */
  lemma ForkCompletes(s: State, p: nat, q: nat) returns (ss: seq<State>, t: State)
    requires Sized(s) && p < |s.holders| && q < |s.holders| && s.holders[q] == Out
    requires (s.holders[p].Own? || s.holders[p].Shared?) && s.holders[p].f < |s.cnt|
    ensures Leads(ss, p, [Fork, Add(q)]) && ss[0] == s && ss[2] == t
    ensures var f := s.holders[p].f;
      t == s.(holders := s.holders[p := Shared(f)][q := Shared(f)], cnt := s.cnt[f := s.cnt[f] + 1])
  {
    var f := s.holders[p].f;
    var s1 := Goto(s, p, Forking(f));
    t := Goto(Goto(s1, p, Shared(f)), q, Shared(f)).(cnt := s.cnt[f := s.cnt[f] + 1]);
    assert Next(s, Step(p, Fork), s1);
    assert Next(s1, Step(p, Add(q)), t);
    ss := [s, s1, t];
  }

  /** cowalloc on a frame of its own: the page becomes writable in place. */
  lemma OwnCompletes(s: State, p: nat)
    requires Sized(s) && p < |s.holders| && s.holders[p].Shared? && s.holders[p].f < |s.cnt|
    requires s.cnt[s.holders[p].f] == 1
    ensures Next(s, Step(p, Look), Goto(s, p, Own(s.holders[p].f)))
  {}

  /** cowalloc on a frame that others use: the page gets a copy of its own, and the frame has one use less. */
  lemma CopyCompletes(s: State, p: nat, l: nat) returns (ss: seq<State>, t: State)
    requires Sized(s) && p < |s.holders| && s.holders[p].Shared? && s.holders[p].f < |s.cnt|
    requires s.cnt[s.holders[p].f] > 1
    requires l < |s.lists| && s.lists[l] != [] && s.lists[l][0] < |s.cnt| && s.lists[l][0] != s.holders[p].f
    ensures Leads(ss, p, [Look, Pop(l), SetOne, Move, Lower]) && ss[0] == s && ss[5] == t
    ensures var f, g := s.holders[p].f, s.lists[l][0];
      && t.holders == s.holders[p := Own(g)] && t.cnt == s.cnt[g := 1][f := s.cnt[f] - 1]
      && t.mem == s.mem[g := s.mem[f]] && t.lists == s.lists[l := s.lists[l][1..]]
  {
    var f, g := s.holders[p].f, s.lists[l][0];
    var s1 := Goto(s, p, Copying(f));
    var s2 := Goto(s1, p, CopyPopped(f, g)).(lists := s.lists[l := s.lists[l][1..]], home := s.home[g := None],
                   flight := s.flight[g := Some(p)]);
    var s3 := Goto(s2, p, CopyTo(f, g)).(cnt := s.cnt[g := 1], flight := s2.flight[g := None]);
    var s4 := Goto(s3, p, Copied(f, g)).(mem := s.mem[g := s.mem[f]]);
    t := Goto(s4, p, Own(g)).(cnt := s3.cnt[f := s.cnt[f] - 1]);
    assert Next(s, Step(p, Look), s1);
    assert Next(s1, Step(p, Pop(l)), s2);
    assert Next(s2, Step(p, SetOne), s3);
    assert Next(s3, Step(p, Move), s4);
    assert Next(s4, Step(p, Lower), t);
    ss := [s, s1, s2, s3, s4, t];
  }

  /** Unmapping a page: its frame has one use less, and the last one puts it on a list. */
  lemma FreeCompletes(s: State, p: nat, l: nat, junk: Page) returns (ss: seq<State>, acts: seq<Act>, t: State)
    requires Sized(s) && p < |s.holders| && (s.holders[p].Own? || s.holders[p].Shared?) && s.holders[p].f < |s.cnt|
    requires s.cnt[s.holders[p].f] >= 1 && l < |s.lists|
    ensures Leads(ss, p, acts) && ss[0] == s && ss[|acts|] == t
    ensures var f := s.holders[p].f;
      && t.holders == s.holders[p := Out] && t.cnt == s.cnt[f := s.cnt[f] - 1]
      && t.mem == (if s.cnt[f] == 1 then s.mem[f := junk] else s.mem)
      && t.lists == if s.cnt[f] == 1 then s.lists[l := [f] + s.lists[l]] else s.lists
  {
    var f := s.holders[p].f;
    var s1 := Goto(s, p, Freeing(f));
    assert Next(s, Step(p, Free), s1);
    if s.cnt[f] == 1 {
      var s2 := Goto(s1, p, Zero(f)).(cnt := s.cnt[f := 0], flight := s.flight[f := Some(p)]);
      var s3 := s2.(mem := s.mem[f := junk]);
      t := Goto(s3, p, Out).(lists := s.lists[l := [f] + s.lists[l]], home := s.home[f := Some(l)],
                flight := s2.flight[f := None]);
      assert Next(s1, Step(p, Lower), s2);
      assert Next(s2, Step(p, Junk(junk)), s3);
      assert Next(s3, Step(p, Push(l)), t);
      ss, acts := [s, s1, s2, s3, t], [Free, Lower, Junk(junk), Push(l)];
    } else {
      t := Goto(s1, p, Out).(cnt := s.cnt[f := s.cnt[f] - 1]);
      assert Next(s1, Step(p, Lower), t);
      ss, acts := [s, s1, t], [Free, Lower];
    }
  }
}
