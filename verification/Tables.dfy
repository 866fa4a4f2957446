/**
 Bookkeeping over the program counters of a step machine: who owns what, and how many
 have it. `has(pc, k)` says that a program counter has lock, buffer or frame `k`.
 */
module Tables {
  import opened Common

  /** `owner` names, for each `k`, the one user whose program counter says it has it. */
  ghost predicate Owned<Pc>(owner: seq<Option<nat>>, users: seq<Pc>, has: (Pc, nat) -> bool) {
    && (forall k :: 0 <= k < |owner| && owner[k].Some? ==> owner[k].value < |users|)
    && forall p, k :: 0 <= p < |users| && 0 <= k < |owner| ==> (has(users[p], k) <==> owner[k] == Some(p))
  }

  lemma OwnerAt<Pc>(owner: seq<Option<nat>>, users: seq<Pc>, has: (Pc, nat) -> bool, p: nat, k: nat)
    requires Owned(owner, users, has) && p < |users| && k < |owner|
    ensures has(users[p], k) <==> owner[k] == Some(p)
  {}

  lemma OwnersTake<Pc>(owner: seq<Option<nat>>, users: seq<Pc>, has: (Pc, nat) -> bool, p: nat, pc: Pc, k: nat)
    requires Owned(owner, users, has) && p < |users| && k < |owner| && owner[k] == None
    requires forall j :: 0 <= j < |owner| ==> (has(pc, j) <==> has(users[p], j) || j == k)
    ensures Owned(owner[k := Some(p)], users[p := pc], has)
  {}

  lemma OwnersFree<Pc>(owner: seq<Option<nat>>, users: seq<Pc>, has: (Pc, nat) -> bool, p: nat, pc: Pc, k: nat)
    requires Owned(owner, users, has) && p < |users| && k < |owner| && has(users[p], k)
    requires forall j :: 0 <= j < |owner| ==> (has(pc, j) <==> has(users[p], j) && j != k)
    ensures Owned(owner[k := None], users[p := pc], has)
  {
    var owner', users' := owner[k := None], users[p := pc];
    forall q, j | 0 <= q < |users| && 0 <= j < |owner|
      ensures has(users'[q], j) <==> owner'[j] == Some(q)
    {
      assert has(users[q], j) <==> owner[j] == Some(q);
    }
  }

  lemma OwnersKeep<Pc>(owner: seq<Option<nat>>, users: seq<Pc>, has: (Pc, nat) -> bool, p: nat, pc: Pc)
    requires Owned(owner, users, has) && p < |users|
    requires forall j :: 0 <= j < |owner| ==> (has(pc, j) <==> has(users[p], j))
    ensures Owned(owner, users[p := pc], has)
  {
    var users' := users[p := pc];
    forall q, k | 0 <= q < |users| && 0 <= k < |owner|
      ensures has(users'[q], k) <==> owner[k] == Some(q)
    {
      assert has(users[q], k) <==> owner[k] == Some(q);
    }
  }

  /** How many users have `k`. */
  function Tally<Pc>(users: seq<Pc>, has: (Pc, nat) -> bool, k: nat): nat {
    if users == [] then 0
    else Tally(users[..|users| - 1], has, k) + if has(users[|users| - 1], k) then 1 else 0
  }

  lemma {:induction false} TallyWith<Pc>(users: seq<Pc>, has: (Pc, nat) -> bool, k: nat, p: nat, pc: Pc)
    requires p < |users|
    ensures Tally(users[p := pc], has, k) + (if has(users[p], k) then 1 else 0)
         == Tally(users, has, k) + if has(pc, k) then 1 else 0
  {
    var n := |users| - 1;
    if p == n {
      assert users[p := pc][..n] == users[..n];
    } else {
      assert users[p := pc][..n] == users[..n][p := pc];
      TallyWith(users[..n], has, k, p, pc);
    }
  }

  lemma {:induction false} TallyBound<Pc>(users: seq<Pc>, has: (Pc, nat) -> bool, k: nat)
    ensures Tally(users, has, k) <= |users|
  {
    if users != [] {
      TallyBound(users[..|users| - 1], has, k);
    }
  }

  lemma {:induction false} TallyFew<Pc>(users: seq<Pc>, has: (Pc, nat) -> bool, k: nat, p: nat)
    requires p < |users| && !has(users[p], k)
    ensures Tally(users, has, k) < |users|
  {
    var n := |users| - 1;
    if p == n {
      TallyBound(users[..n], has, k);
    } else {
      TallyFew(users[..n], has, k, p);
    }
  }

  lemma {:induction false} TallySome<Pc>(users: seq<Pc>, has: (Pc, nat) -> bool, k: nat, p: nat)
    requires p < |users| && has(users[p], k)
    ensures Tally(users, has, k) >= 1
  {
    if p != |users| - 1 {
      TallySome(users[..|users| - 1], has, k, p);
    }
  }

  lemma {:induction false} TallyTwo<Pc>(users: seq<Pc>, has: (Pc, nat) -> bool, k: nat, p: nat, q: nat)
    requires p < q < |users| && has(users[p], k) && has(users[q], k)
    ensures Tally(users, has, k) >= 2
  {
    var n := |users| - 1;
    if q == n {
      TallySome(users[..n], has, k, p);
    } else {
      TallyTwo(users[..n], has, k, p, q);
    }
  }

  lemma {:induction false} TallyNone<Pc>(users: seq<Pc>, has: (Pc, nat) -> bool, k: nat)
    requires forall p :: 0 <= p < |users| ==> !has(users[p], k)
    ensures Tally(users, has, k) == 0
  {
    if users != [] {
      TallyNone(users[..|users| - 1], has, k);
    }
  }
}
