/**
 One world of accounts, objects and pools: through every run of guarded creations, allocations,
 grants and deletions no account with a finite pool owns more than its pool allows.
 */
module PoolRuns {
  import opened Text
  import opened Ownership
  import opened OwnershipRuns
  import opened Pools

  /** The access table with its accounts, the accounts that are resellers, and the maxima. */
  datatype State = State(w: World, resellers: set<User>, pools: map<(User, Limit), int>)

  datatype LimitEvent =
    | Make(creator: User, o: Object)
    | MakeUser(creator: User, u: User, superuser: bool, reseller: bool, defaults: map<Limit, nat>)
    | SetPool(payer: User, u: User, l: Limit, value: nat)
    | Delete(from: Option<User>, u: User, objs: seq<Object>)
    | Access(e: Event)

  function Max(s: State, u: User, l: Limit): int {
    if (u, l) in s.pools then s.pools[(u, l)] else 0
  }

  /** `check_object_limit`: superusers are not limited. */
  predicate Refused(s: State, creator: User, k: Kind) {
    && creator !in s.w.supers
    && exists l :: KindOf(l) == k && IsExceeded(Max(s, creator, l), Usage(s.w.rows, creator, l), 1)
  }

  /** The pools of a new account: the defaults when a superuser creates it, else nothing. */
  function NewPools(s: State, creator: User, u: User, defaults: map<Limit, nat>): map<(User, Limit), int> {
    s.pools + PoolsOf(u, if creator in s.w.supers then defaults else map[])
  }

  /** One pool for each limit, empty unless `maxima` says otherwise. */
  function PoolsOf(u: User, maxima: map<Limit, nat>): (r: map<(User, Limit), int>)
    ensures forall v, l :: (v, l) in r <==> v == u
    ensures forall l :: r[(u, l)] == Given(maxima, l)
  {
    KeysAreAll(u);
    map key | key in KeysOf(u) :: Given(maxima, key.1)
  }

  function KeysOf(u: User): set<(User, Limit)> {
    {(u, Domains), (u, DomainAliases), (u, Mailboxes), (u, MailboxAliases)}
  }

  lemma KeysAreAll(u: User)
    ensures forall v, l :: (v, l) in KeysOf(u) <==> v == u
  {
    forall l: Limit
      ensures (u, l) in KeysOf(u)
    {
      match l
      case Domains =>
      case DomainAliases =>
      case Mailboxes =>
      case MailboxAliases =>
    }
  }

  function Given(maxima: map<Limit, nat>, l: Limit): int {
    if l in maxima then maxima[l] else 0
  }

  /** A resource saved for `u`, taken from the pool of the payer unless that is a superuser. */
  function Resized(s: State, payer: User, u: User, l: Limit, value: nat): State {
    if payer in s.w.supers then s.(pools := s.pools[(u, l) := value])
    else
      var r := Allocate(Max(s, u, l), Max(s, payer, l), Usage(s.w.rows, payer, l), value);
      if r.Allocated? then s.(pools := s.pools[(payer, l) := r.ownerMax][(u, l) := value]) else s
  }

  /** `move_resource`, then the deletion of the pools of `u`. */
  function PoolsMoved(s: State, u: User): map<(User, Limit), int> {
    var owners := Owners(s.w.rows, AccountOf(u));
    map key | key in s.pools && key.0 != u ::
      if owners == {key.0} && key.0 in s.resellers && key.0 !in s.w.supers
      then Returned(s.pools[key], Max(s, u, key.1)) else s.pools[key]
  }

  /** The maximum the heir has after the deletion: with the pool of `u` only when it is the
      reseller that owns the account. */
  function MaxOfHeir(s: State, heir: User, u: User, l: Limit): int {
    if heir in s.resellers && Owners(s.w.rows, AccountOf(u)) == {heir}
    then Returned(Max(s, heir, l), Max(s, u, l)) else Max(s, heir, l)
  }

  /** The heir can take the objects over: it is not limited, or it has room for them. */
  predicate TakesOver(s: State, from: Option<User>, u: User) {
    && Heir(s.w, from, u).Some?
    && var heir := Heir(s.w, from, u).value;
       || heir in s.w.supers
       || forall l :: Usage(s.w.rows, heir, l) + Usage(s.w.rows, u, l) <= MaxOfHeir(s, heir, u, l)
  }

  /** When an event can happen. A value below what a limited account owns, and a deletion whose
      heir has no room, are left out: they are the ways to overdraw a pool. */
  predicate Enabled(s: State, e: LimitEvent) {
    match e
    case Make(creator, o) =>
      creator in s.w.users && o !in s.w.objects && o.kind != Account && !Refused(s, creator, o.kind)
    case MakeUser(creator, u, superuser, _, _) =>
      creator in s.w.users && u !in s.w.users
    case SetPool(payer, u, l, value) =>
      payer in s.w.users && u in s.w.users && (u in s.w.supers || Usage(s.w.rows, u, l) <= value)
    case Delete(from, u, objs) =>
      && u in s.w.users && (from.Some? ==> from.value in s.w.users) && ListsOwned(s.w, u, objs)
      && UserDeleted(s.w, from, u, objs).Some? && TakesOver(s, from, u)
    case Access(a) => a.GrantAccess? || a.Ungrant? || a.Remove?
  }

  function Step(s: State, e: LimitEvent): State {
    if !Enabled(s, e) then s
    else match e
      case Make(creator, o) => s.(w := Apply(s.w, Create(creator, o)))
      case MakeUser(creator, u, superuser, reseller, defaults) =>
        State(Apply(s.w, CreateUser(creator, u, superuser)),
              if reseller then s.resellers + {u} else s.resellers - {u},
              NewPools(s, creator, u, defaults))
      case SetPool(payer, u, l, value) => Resized(s, payer, u, l, value)
      case Delete(from, u, objs) => s.(w := UserDeleted(s.w, from, u, objs).value, pools := PoolsMoved(s, u))
      case Access(a) => s.(w := Apply(s.w, a))
  }

  function Steps(s: State, events: seq<LimitEvent>): State {
    if events == [] then s else Step(Steps(s, events[..|events| - 1]), events[|events| - 1])
  }

  // ---------------------------------------------------------------- the invariant

  /** The account is not overdrawn for this limit. */
  predicate Fits(s: State, u: User, l: Limit) {
    0 <= Max(s, u, l) && (u !in s.w.supers ==> Usage(s.w.rows, u, l) <= Max(s, u, l))
  }

  ghost predicate Sound(s: State) {
    && Valid(s.w)
    && forall u, l {:trigger Fits(s, u, l)} :: u in s.w.users ==> Fits(s, u, l)
  }

  // --------------------------------------------- what a user owns after an event

  lemma Fewer<T>(a: set<T>, b: set<T>)
    requires a <= b
    ensures |a| <= |b|
  {
    assert b == a + (b - a);
  }

  /** Every object of a counted kind that `v` owns afterwards it owned before. */
  ghost predicate OwnsNoMore(before: Table, after: Table, v: User) {
    forall p: Object {:trigger Owns(after, v, p)} :: p.kind != Account && Owns(after, v, p) ==> Owns(before, v, p)
  }

  lemma UsageNoMore(before: Table, after: Table, v: User, l: Limit)
    requires OwnsNoMore(before, after, v)
    ensures Usage(after, v, l) <= Usage(before, v, l)
  {
    var k := KindOf(l);
    forall p | p in Owned(after, v, k)
      ensures p in Owned(before, v, k)
    {
      OwnedMember(after, v, k, p);
      OwnedMember(before, v, k, p);
    }
    Fewer(Owned(after, v, k), Owned(before, v, k));
  }

  lemma AfterGrant(t: Table, supers: seq<User>, u: User, o: Object, owner: bool, v: User)
    requires v != u || o.kind == Account || !owner
    ensures OwnsNoMore(t, Granted(t, supers, u, o, owner), v)
  {
    forall p: Object | Owns(Granted(t, supers, u, o, owner), v, p) && p.kind != Account
      ensures Owns(t, v, p)
    {
      GrantedRow(t, supers, u, o, owner, v, p);
    }
  }

  lemma AfterUngrant(t: Table, supers: seq<User>, o: Object, u: User, v: User)
    requires Ungranted(t, supers, o, u).Some? && v !in supers
    ensures OwnsNoMore(t, Ungranted(t, supers, o, u).value, v)
  {
    var left := t - {(u, o)};
    if supers != [] {
      AfterGrant(left, supers, supers[0], o, true, v);
    }
  }

  lemma AfterDeletion(w: World, from: Option<User>, u: User, objs: seq<Object>, v: User)
    requires Valid(w) && u in w.users && (from.Some? ==> from.value in w.users)
    requires ListsOwned(w, u, objs) && Heir(w, from, u).Some? && UserDeleted(w, from, u, objs).Some?
    requires v != Heir(w, from, u).value
    ensures OwnsNoMore(w.rows, UserDeleted(w, from, u, objs).value.rows, v)
  {
    var after := UserDeleted(w, from, u, objs).value;
    ValidDeletion(w, from, u, objs);
    forall p: Object | Owns(after.rows, v, p) && p.kind != Account
      ensures Owns(w.rows, v, p)
    {
      assert (v, p) in after.rows;
      DeletionTransfers(w, from, u, objs, p);
      OwnersMember(after.rows, p, v);
      OwnersMember(w.rows, p, v);
    }
  }

  // ------------------------------------------------------------------ the steps

  /** Only the access table changed, and `v` owns no more than before. */
  lemma FitsStill(s: State, w: World, v: User, l: Limit)
    requires Fits(s, v, l) && (v in s.w.supers ==> v in w.supers)
    requires v !in w.supers ==> OwnsNoMore(s.w.rows, w.rows, v)
    ensures Fits(s.(w := w), v, l)
  {
    if v !in w.supers {
      UsageNoMore(s.w.rows, w.rows, v, l);
    }
  }

  lemma SoundMake(s: State, creator: User, o: Object)
    requires Sound(s) && Enabled(s, Make(creator, o))
    ensures Sound(Step(s, Make(creator, o)))
  {
    var after := Step(s, Make(creator, o));
    ValidStep(s.w, Create(creator, o));
    forall v, l | v in after.w.users
      ensures Fits(after, v, l)
    {
      assert Fits(s, v, l);
      if v == creator {
        MakeFits(s, creator, o, l);
      } else {
        AfterGrant(s.w.rows, s.w.supers, creator, o, true, v);
        FitsStill(s, after.w, v, l);
      }
    }
  }

  lemma MakeFits(s: State, creator: User, o: Object, l: Limit)
    requires Sound(s) && Enabled(s, Make(creator, o))
    ensures Fits(Step(s, Make(creator, o)), creator, l)
  {
    assert Fits(s, creator, l);
    CreationGuard(s.w, creator, o, l, Max(s, creator, l));
  }

  lemma SoundAccess(s: State, e: Event)
    requires Sound(s) && (e.GrantAccess? || e.Ungrant? || e.Remove?)
    ensures Sound(s.(w := Apply(s.w, e)))
  {
    var w := Apply(s.w, e);
    ValidStep(s.w, e);
    forall v, l | v in w.users
      ensures Fits(s.(w := w), v, l)
    {
      assert Fits(s, v, l);
      if v !in w.supers && w != s.w {
        AccessOwnsNoMore(s.w, e, v);
      }
      FitsStill(s, w, v, l);
    }
  }

  lemma AccessOwnsNoMore(w: World, e: Event, v: User)
    requires (e.GrantAccess? || e.Ungrant? || e.Remove?) && v !in w.supers
    ensures OwnsNoMore(w.rows, Apply(w, e).rows, v)
  {
    match e
    case GrantAccess(u, o) => AfterGrant(w.rows, w.supers, u, o, false, v);
    case Ungrant(o, u) =>
      if o in w.objects && Ungranted(w.rows, w.supers, o, u).Some? { AfterUngrant(w.rows, w.supers, o, u, v); }
    case Remove(o) =>
  }

  lemma SoundMakeUser(s: State, e: LimitEvent)
    requires Sound(s) && e.MakeUser? && Enabled(s, e)
    ensures Sound(Step(s, e))
  {
    var after := Step(s, e);
    var account := AccountOf(e.u);
    var supers := if e.superuser then s.w.supers + [e.u] else s.w.supers;
    ValidStep(s.w, CreateUser(e.creator, e.u, e.superuser));
    forall v, l | v in after.w.users
      ensures Fits(after, v, l)
    {
      AfterGrant(s.w.rows, supers, e.creator, account, true, v);
      UsageNoMore(s.w.rows, after.w.rows, v, l);
      if v == e.u {
        OwnsNothing(s.w, v, l);
      } else {
        assert Fits(s, v, l);
      }
    }
  }

  /** An account that does not exist owns nothing. */
  lemma OwnsNothing(w: World, v: User, l: Limit)
    requires Valid(w) && v !in w.users
    ensures Usage(w.rows, v, l) == 0
  {
    forall p
      ensures p !in Owned(w.rows, v, KindOf(l))
    {
      OwnedMember(w.rows, v, KindOf(l), p);
    }
    assert Owned(w.rows, v, KindOf(l)) == {};
  }

  lemma SoundResize(s: State, payer: User, u: User, l: Limit, value: nat)
    requires Sound(s) && Enabled(s, SetPool(payer, u, l, value))
    ensures Sound(Resized(s, payer, u, l, value))
  {
    var after := Resized(s, payer, u, l, value);
    assert Fits(s, u, l) && Fits(s, payer, l);
    forall v, m | v in after.w.users
      ensures Fits(after, v, m)
    {
      assert Fits(s, v, m);
    }
  }

  lemma MaxAfterDeletion(s: State, u: User, v: User, l: Limit)
    requires v != u && (v, l) in s.pools
    ensures Max(s.(pools := PoolsMoved(s, u)), v, l) ==
            if Owners(s.w.rows, AccountOf(u)) == {v} && v in s.resellers && v !in s.w.supers
            then Returned(Max(s, v, l), Max(s, u, l)) else Max(s, v, l)
  {
  }

  /** Every account has its pools. */
  predicate HasPools(s: State) {
    forall u, l :: u in s.w.users ==> (u, l) in s.pools
  }

  lemma HeirFits(s: State, from: Option<User>, u: User, objs: seq<Object>, l: Limit)
    requires Sound(s) && HasPools(s) && Enabled(s, Delete(from, u, objs))
    ensures Fits(Step(s, Delete(from, u, objs)), Heir(s.w, from, u).value, l)
  {
    var heir := Heir(s.w, from, u).value;
    HeirIs(s.w, from, u);
    assert Fits(s, heir, l) && Fits(s, u, l);
    MaxAfterDeletion(s, u, heir, l);
    UsageAddsUp(s.w, from, u, objs, l);
    assert heir in UserDeleted(s.w, from, u, objs).value.supers <==> heir in s.w.supers;
  }

  lemma SoundDelete(s: State, from: Option<User>, u: User, objs: seq<Object>)
    requires Sound(s) && HasPools(s) && Enabled(s, Delete(from, u, objs))
    ensures Sound(Step(s, Delete(from, u, objs)))
  {
    var after := Step(s, Delete(from, u, objs));
    ValidDeletion(s.w, from, u, objs);
    forall v, l | v in after.w.users
      ensures Fits(after, v, l)
    {
      if v == Heir(s.w, from, u).value {
        HeirFits(s, from, u, objs, l);
      } else {
        BystanderFits(s, from, u, objs, v, l);
      }
    }
  }

  lemma BystanderFits(s: State, from: Option<User>, u: User, objs: seq<Object>, v: User, l: Limit)
    requires Sound(s) && HasPools(s) && Enabled(s, Delete(from, u, objs))
    requires v in s.w.users && v != u && v != Heir(s.w, from, u).value
    ensures Fits(Step(s, Delete(from, u, objs)), v, l)
  {
    assert Fits(s, v, l) && Fits(s, u, l);
    MaxAfterDeletion(s, u, v, l);
    AfterDeletion(s.w, from, u, objs, v);
    UsageNoMore(s.w.rows, UserDeleted(s.w, from, u, objs).value.rows, v, l);
    assert v in UserDeleted(s.w, from, u, objs).value.supers <==> v in s.w.supers;
  }

  // ------------------------------------------------------------------- the runs

  lemma PoolsKept(s: State, e: LimitEvent)
    requires HasPools(s)
    ensures HasPools(Step(s, e))
  {
  }

  lemma SoundStep(s: State, e: LimitEvent)
    requires Sound(s) && HasPools(s)
    ensures Sound(Step(s, e))
  {
    if Enabled(s, e) {
      match e
      case Make(creator, o) => SoundMake(s, creator, o);
      case MakeUser(_, _, _, _, _) => SoundMakeUser(s, e);
      case SetPool(payer, u, l, value) => SoundResize(s, payer, u, l, value);
      case Delete(from, u, objs) => SoundDelete(s, from, u, objs);
      case Access(a) => SoundAccess(s, a);
    }
  }

  /** With finite pools, in every state of every run no account but a superuser owns more than its
      pool allows: resellers and the accounts under them alike. */
  lemma {:induction false} NobodyIsOverdrawn(s: State, events: seq<LimitEvent>)
    requires Sound(s) && HasPools(s)
    ensures Sound(Steps(s, events)) && HasPools(Steps(s, events))
  {
    if events != [] {
      var front := events[..|events| - 1];
      NobodyIsOverdrawn(s, front);
      SoundStep(Steps(s, front), events[|events| - 1]);
      PoolsKept(Steps(s, front), events[|events| - 1]);
    }
  }

  /** The database as installed: one superuser with empty pools. */
  lemma InstalledIsSound(admin: User)
    ensures var w := World(map[(admin, AccountOf(admin)) := true], {admin}, [admin], {AccountOf(admin)});
            var s := State(w, {}, PoolsOf(admin, map[]));
            Sound(s) && HasPools(s)
  {
    InstalledIsValid(admin);
  }

  // ------------------------------------------------------- who is served, exactly

  /** A creation is refused exactly when the creator is no superuser and has no room for one more
      object of that kind; nobody is refused an account. */
  lemma RefusedExactly(s: State, creator: User, l: Limit)
    requires Fits(s, creator, l)
    ensures Refused(s, creator, KindOf(l)) <==>
              creator !in s.w.supers && Usage(s.w.rows, creator, l) + 1 > Max(s, creator, l)
    ensures !Refused(s, creator, Account)
  {
    assert forall m :: KindOf(m) == KindOf(l) ==> m == l;
    assert IsExceeded(Max(s, creator, l), Usage(s.w.rows, creator, l), 1) <==>
           Usage(s.w.rows, creator, l) + 1 > Max(s, creator, l);
  }

  /** A value saved for `u`: a superuser is always served, a limited payer exactly when the value is
      the one `u` has or fits what the payer can give; nothing else changes but the payer's maximum,
      by the difference. */
  lemma ResizedExactly(s: State, payer: User, u: User, l: Limit, value: nat, v: User, m: Limit)
    requires Fits(s, payer, l) && Fits(s, u, l) && payer != u
    ensures var t, given := Resized(s, payer, u, l, value), value - Max(s, u, l);
            && t.w == s.w && t.resellers == s.resellers
            && (m != l || (v != u && v != payer) ==> Max(t, v, m) == Max(s, v, m))
            && (payer in s.w.supers ==> Max(t, u, l) == value && Max(t, payer, l) == Max(s, payer, l))
            && (payer !in s.w.supers ==>
                  if given == 0 || Usage(s.w.rows, payer, l) + given <= Max(s, payer, l)
                  then Max(t, u, l) == value && Max(t, payer, l) == Max(s, payer, l) - given
                  else t == s)
  {
  }

  // ---------------------------------------------------- the ways to overdraw a pool

  /** A resource saved for a limited account leaves it within its pool exactly when the value
      covers what the account owns, whoever pays: only the payer's pool is checked, and a value
      below the usage is always served. */
  lemma ResizeOverdraws(s: State, payer: User, u: User, l: Limit, value: nat)
    requires Sound(s) && payer in s.w.users && u in s.w.users && u !in s.w.supers
    ensures Fits(Resized(s, payer, u, l, value), u, l) <==> Usage(s.w.rows, u, l) <= value
  {
    assert Fits(s, u, l) && Fits(s, payer, l);
  }

  /** A deletion leaves a limited heir within its pool exactly when both usages fit the maximum it
      has then. */
  lemma DeletionOverdraws(s: State, from: Option<User>, u: User, objs: seq<Object>, l: Limit)
    requires Sound(s) && HasPools(s) && u in s.w.users && (from.Some? ==> from.value in s.w.users)
    requires ListsOwned(s.w, u, objs) && UserDeleted(s.w, from, u, objs).Some?
    requires Heir(s.w, from, u).Some? && Heir(s.w, from, u).value !in s.w.supers
    ensures var heir := Heir(s.w, from, u).value;
            var after := s.(w := UserDeleted(s.w, from, u, objs).value, pools := PoolsMoved(s, u));
            Fits(after, heir, l) <==>
            Usage(s.w.rows, heir, l) + Usage(s.w.rows, u, l) <= MaxOfHeir(s, heir, u, l)
  {
    var heir := Heir(s.w, from, u).value;
    HeirIs(s.w, from, u);
    assert Fits(s, heir, l) && Fits(s, u, l);
    MaxAfterDeletion(s, u, heir, l);
    UsageAddsUp(s.w, from, u, objs, l);
    assert heir !in UserDeleted(s.w, from, u, objs).value.supers;
  }

  /** The reseller that owns the account of a limited user always has room: ownership and pool
      move together. */
  lemma ResellerTakesOver(s: State, from: Option<User>, u: User)
    requires Sound(s) && u in s.w.users && u !in s.w.supers && (from.Some? ==> from.value in s.w.users)
    requires Heir(s.w, from, u).Some? && Heir(s.w, from, u).value in s.resellers
    requires Owners(s.w.rows, AccountOf(u)) == {Heir(s.w, from, u).value}
    ensures TakesOver(s, from, u)
  {
    var heir := Heir(s.w, from, u).value;
    HeirIs(s.w, from, u);
    forall l
      ensures heir !in s.w.supers ==>
                Usage(s.w.rows, heir, l) + Usage(s.w.rows, u, l) <= MaxOfHeir(s, heir, u, l)
    {
      assert Fits(s, heir, l) && Fits(s, u, l);
    }
  }
}
