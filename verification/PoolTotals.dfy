/** Capacity in the world of accounts and pools: what accounts without superusers cannot create. */
module PoolTotals {
  import opened Text
  import opened Ownership
  import opened OwnershipRuns
  import opened Pools
  import opened PoolRuns

  /** The sum of the maxima of the accounts `us` for one limit. */
  ghost function Total(s: State, l: Limit, us: set<User>): int {
    if us == {} then 0
    else
      var u :| u in us;
      Max(s, u, l) + Total(s, l, us - {u})
  }

  lemma {:induction false} TotalTake(s: State, l: Limit, us: set<User>, u: User)
    requires u in us
    ensures Total(s, l, us) == Max(s, u, l) + Total(s, l, us - {u})
  {
    var v :| v in us && Total(s, l, us) == Max(s, v, l) + Total(s, l, us - {v});
    if v != u {
      TotalTake(s, l, us - {v}, u);
      TotalTake(s, l, us - {u}, v);
      assert us - {v} - {u} == us - {u} - {v};
    }
  }

  lemma {:induction false} TotalSame(s: State, t: State, l: Limit, us: set<User>)
    requires forall v :: v in us ==> Max(t, v, l) == Max(s, v, l)
    ensures Total(t, l, us) == Total(s, l, us)
  {
    if us != {} {
      var u :| u in us;
      TotalSame(s, t, l, us - {u});
      TotalTake(s, l, us, u);
      TotalTake(t, l, us, u);
    }
  }

  /** Only the maximum of `u` changed. */
  lemma TotalOne(s: State, t: State, l: Limit, us: set<User>, u: User)
    requires u in us && forall v :: v in us && v != u ==> Max(t, v, l) == Max(s, v, l)
    ensures Total(t, l, us) == Total(s, l, us) - Max(s, u, l) + Max(t, u, l)
  {
    TotalSame(s, t, l, us - {u});
    TotalTake(s, l, us, u);
    TotalTake(t, l, us, u);
  }

  /** Only the maxima of `u` and `v` changed. */
  lemma TotalTwo(s: State, t: State, l: Limit, us: set<User>, u: User, v: User)
    requires u in us && v in us && u != v
    requires forall x :: x in us && x != u && x != v ==> Max(t, x, l) == Max(s, x, l)
    ensures Total(t, l, us) == Total(s, l, us) - Max(s, u, l) - Max(s, v, l) + Max(t, u, l) + Max(t, v, l)
  {
    TotalOne(s, t, l, us - {u}, v);
    TotalTake(s, l, us, u);
    TotalTake(t, l, us, u);
  }

  /** The capacity of the whole installation. */
  ghost function Capacity(s: State, l: Limit): int {
    Total(s, l, s.w.users)
  }

  // ---------------------------------------------------------------- allocations

  lemma ResizedPair(s: State, payer: User, u: User, l: Limit, value: nat)
    requires payer !in s.w.supers && payer != u && 0 <= Max(s, u, l)
    ensures var t := Resized(s, payer, u, l, value);
            Max(t, u, l) + Max(t, payer, l) == Max(s, u, l) + Max(s, payer, l)
  {
  }

  lemma ResizedOthers(s: State, payer: User, u: User, l: Limit, value: nat, v: User, m: Limit)
    requires m != l || (v != u && v != payer)
    ensures Max(Resized(s, payer, u, l, value), v, m) == Max(s, v, m)
  {
  }

  /** A value paid by a limited account leaves the capacity of every limit as it is, unless the
      account pays itself: then, exactly when its own maximum stays. */
  lemma AllocationConserves(s: State, payer: User, u: User, l: Limit, value: nat, m: Limit)
    requires Sound(s) && payer in s.w.users && u in s.w.users && payer !in s.w.supers
    ensures var t := Resized(s, payer, u, l, value);
            Capacity(t, m) == Capacity(s, m) <==> m != l || payer != u || Max(t, u, l) == Max(s, u, l)
  {
    var t := Resized(s, payer, u, l, value);
    assert Fits(s, u, l);
    forall v | m != l || (v != u && v != payer)
      ensures Max(t, v, m) == Max(s, v, m)
    {
      ResizedOthers(s, payer, u, l, value, v, m);
    }
    if m != l {
      TotalSame(s, t, m, s.w.users);
    } else if payer != u {
      ResizedPair(s, payer, u, l, value);
      TotalTwo(s, t, l, s.w.users, u, payer);
    } else {
      TotalOne(s, t, l, s.w.users, u);
    }
  }

  // ------------------------------------------------------------------ deletions

  /** Whether the pool of `u` goes to the owner of its account. */
  predicate Inherited(s: State, u: User, owner: User) {
    Owners(s.w.rows, AccountOf(u)) == {owner} && owner in s.resellers && owner !in s.w.supers && owner != u
  }

  lemma DeletionMaxima(s: State, t: State, u: User, owner: User, l: Limit)
    requires HasPools(s) && t.pools == PoolsMoved(s, u) && Owners(s.w.rows, AccountOf(u)) == {owner}
    requires 0 <= Max(s, u, l) && owner in s.w.users
    ensures forall v :: v in s.w.users && v != u ==>
              Max(t, v, l) == Max(s, v, l) + if v == owner && Inherited(s, u, owner) then Max(s, u, l) else 0
  {
  }

  /** A deletion leaves the capacity as it is when the reseller that owns the account takes the
      pool over, and loses the pool of the account otherwise. */
  lemma DeletionCapacity(s: State, from: Option<User>, u: User, objs: seq<Object>, owner: User, l: Limit)
    requires Sound(s) && HasPools(s) && u in s.w.users && (from.Some? ==> from.value in s.w.users)
    requires ListsOwned(s.w, u, objs) && UserDeleted(s.w, from, u, objs).Some?
    requires Owners(s.w.rows, AccountOf(u)) == {owner}
    ensures var t := s.(w := UserDeleted(s.w, from, u, objs).value, pools := PoolsMoved(s, u));
            Capacity(t, l) == Capacity(s, l) - if Inherited(s, u, owner) then 0 else Max(s, u, l)
  {
    var t := s.(w := UserDeleted(s.w, from, u, objs).value, pools := PoolsMoved(s, u));
    var x := OneOwner(s.w, AccountOf(u));
    assert x == owner by { assert x in {owner}; }
    assert Fits(s, u, l);
    DeletionMaxima(s, t, u, owner, l);
    TotalTake(s, l, s.w.users, u);
    if Inherited(s, u, owner) {
      TotalOne(s, t, l, s.w.users - {u}, owner);
    } else {
      TotalSame(s, t, l, s.w.users - {u});
    }
  }

  // ----------------------------------------------------------------------- runs

  /** No superuser's hand in it: accounts made and pools paid by limited accounts, nobody paying
      itself, and deletions taken over by the reseller that owns the account. */
  predicate Closed(s: State, e: LimitEvent) {
    match e
    case MakeUser(creator, u, _, _, _) => creator !in s.w.supers
    case SetPool(payer, u, _, _) => payer !in s.w.supers && payer != u
    case Delete(_, u, _) => exists owner :: owner in s.w.users && Inherited(s, u, owner)
    case Make(_, _) => true
    case Access(_) => true
  }

  lemma MakeUserCapacity(s: State, e: LimitEvent, l: Limit)
    requires HasPools(s) && e.MakeUser? && Enabled(s, e) && e.creator !in s.w.supers
    ensures Capacity(Step(s, e), l) == Capacity(s, l)
  {
    var t := Step(s, e);
    assert t.w.users == s.w.users + {e.u};
    assert t.w.users - {e.u} == s.w.users;
    TotalTake(t, l, t.w.users, e.u);
    TotalSame(s, t, l, s.w.users);
  }

  lemma ConservedStep(s: State, e: LimitEvent, l: Limit)
    requires Sound(s) && HasPools(s) && Closed(s, e)
    ensures Capacity(Step(s, e), l) == Capacity(s, l)
  {
    if Enabled(s, e) {
      match e
      case Make(_, _) => TotalSame(s, Step(s, e), l, s.w.users);
      case MakeUser(_, _, _, _, _) => MakeUserCapacity(s, e, l);
      case SetPool(payer, u, k, value) => AllocationConserves(s, payer, u, k, value, l);
      case Delete(from, u, objs) =>
        var owner :| owner in s.w.users && Inherited(s, u, owner);
        DeletionCapacity(s, from, u, objs, owner, l);
      case Access(a) => AccessCapacity(s, a, l);
    }
  }

  lemma AccessCapacity(s: State, a: Event, l: Limit)
    requires a.GrantAccess? || a.Ungrant? || a.Remove?
    ensures Capacity(s.(w := Apply(s.w, a)), l) == Capacity(s, l)
  {
    TotalSame(s, s.(w := Apply(s.w, a)), l, s.w.users);
  }

  predicate ClosedAt(s: State, events: seq<LimitEvent>, i: nat)
    requires i < |events|
  {
    Closed(Steps(s, events[..i]), events[i])
  }

  predicate ClosedRun(s: State, events: seq<LimitEvent>) {
    forall i {:trigger ClosedAt(s, events, i)} :: 0 <= i < |events| ==> ClosedAt(s, events, i)
  }

  lemma ClosedFront(s: State, events: seq<LimitEvent>)
    requires ClosedRun(s, events) && events != []
    ensures ClosedRun(s, events[..|events| - 1])
    ensures Closed(Steps(s, events[..|events| - 1]), events[|events| - 1])
  {
    var front := events[..|events| - 1];
    forall i | 0 <= i < |front|
      ensures ClosedAt(s, front, i)
    {
      assert front[..i] == events[..i];
      assert ClosedAt(s, events, i);
    }
    assert ClosedAt(s, events, |front|);
  }

  /** However limited accounts create, allocate and delete, the capacity of every limit is the one
      the superusers gave out. */
  lemma {:induction false} CapacityIsConserved(s: State, events: seq<LimitEvent>, l: Limit)
    requires Sound(s) && HasPools(s) && ClosedRun(s, events)
    ensures Capacity(Steps(s, events), l) == Capacity(s, l)
  {
    if events != [] {
      var front := events[..|events| - 1];
      ClosedFront(s, events);
      CapacityIsConserved(s, front, l);
      NobodyIsOverdrawn(s, front);
      ConservedStep(Steps(s, front), events[|events| - 1], l);
    }
  }
}
