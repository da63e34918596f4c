/** Runs from the installed database after which one more save or deletion overdraws a pool. */
module PoolExamples {
  import opened Text
  import opened Ownership
  import opened OwnershipRuns
  import opened Pools
  import opened PoolRuns

  /** The superuser 0, its account, and its empty pools. */
  function Installed(): State {
    State(World(map[(0, AccountOf(0)) := true], {0}, [0], {AccountOf(0)}), {}, PoolsOf(0, map[]))
  }

  // ------------------------------------------------------------- a new account

  /** A new account that is no superuser: it owns nothing, its creator owns it alone, and its
      pools are the defaults when the creator is a superuser. */
  ghost predicate NewAccount(s: State, creator: User, u: User, reseller: bool, defaults: map<Limit, nat>, t: State) {
    && Sound(t) && HasPools(t) && t.w.users == s.w.users + {u} && t.w.supers == s.w.supers
    && t.w.objects == s.w.objects + {AccountOf(u)}
    && t.resellers == (if reseller then s.resellers + {u} else s.resellers - {u})
    && (forall p :: !Owns(t.w.rows, u, p))
    && Owners(t.w.rows, AccountOf(u)) == {creator}
    && (forall l :: Max(t, u, l) == if creator in s.w.supers && l in defaults then defaults[l] else 0)
    && (forall v, l :: v != u ==> Max(t, v, l) == Max(s, v, l))
  }

  lemma NewAccountIs(s: State, creator: User, u: User, reseller: bool, defaults: map<Limit, nat>)
    requires Sound(s) && HasPools(s) && creator in s.w.users && u !in s.w.users
    ensures NewAccount(s, creator, u, reseller, defaults, Step(s, MakeUser(creator, u, false, reseller, defaults)))
  {
    var e := MakeUser(creator, u, false, reseller, defaults);
    SoundStep(s, e);
    PoolsKept(s, e);
    NewAccountRows(s, creator, u);
  }

  lemma NewAccountRows(s: State, creator: User, u: User)
    requires Sound(s) && creator in s.w.users && u !in s.w.users
    ensures var rows := Granted(s.w.rows, s.w.supers, creator, AccountOf(u), true);
            (forall p :: !Owns(rows, u, p)) && Owners(rows, AccountOf(u)) == {creator}
  {
    var rows := Granted(s.w.rows, s.w.supers, creator, AccountOf(u), true);
    FirstGrant(s.w, s.w.supers, creator, AccountOf(u));
    forall p
      ensures !Owns(rows, u, p)
    {
      GrantedRow(s.w.rows, s.w.supers, creator, AccountOf(u), true, u, p);
    }
  }

  lemma OwnsNoneUsesNone(t: Table, u: User, l: Limit)
    requires forall p :: !Owns(t, u, p)
    ensures Usage(t, u, l) == 0
  {
    forall p
      ensures p !in Owned(t, u, KindOf(l))
    {
      OwnedMember(t, u, KindOf(l), p);
    }
    assert Owned(t, u, KindOf(l)) == {};
  }

  /** The first object of an account with room for it. */
  ghost predicate FirstObject(s: State, u: User, o: Object, l: Limit, t: State) {
    && Sound(t) && HasPools(t) && t.w.users == s.w.users && t.w.supers == s.w.supers && t.resellers == s.resellers
    && t.w.objects == s.w.objects + {o} && t.pools == s.pools && Usage(t.w.rows, u, l) == 1
    && (forall p :: Owns(t.w.rows, u, p) <==> p == o)
    && (forall p :: p != o ==> Owners(t.w.rows, p) == Owners(s.w.rows, p))
    && (forall v, p :: v != u ==> (Owns(t.w.rows, v, p) <==> Owns(s.w.rows, v, p)))
  }

  lemma FirstObjectIs(s: State, u: User, o: Object, l: Limit)
    requires Sound(s) && HasPools(s) && u in s.w.users && o !in s.w.objects && o.kind != Account && o.kind == KindOf(l)
    requires (forall p :: !Owns(s.w.rows, u, p)) && Max(s, u, l) >= 1
    requires forall m :: KindOf(m) == o.kind ==> m == l
    ensures Enabled(s, Make(u, o)) && FirstObject(s, u, o, l, Step(s, Make(u, o)))
  {
    OwnsNoneUsesNone(s.w.rows, u, l);
    assert Enabled(s, Make(u, o));
    SoundStep(s, Make(u, o));
    PoolsKept(s, Make(u, o));
    CreationGuard(s.w, u, o, l, Max(s, u, l));
    GrantedOwners(s.w.rows, s.w.supers, u, o, true);
    forall v, p
      ensures Owns(Step(s, Make(u, o)).w.rows, v, p) <==> if v == u && p == o then true else Owns(s.w.rows, v, p)
    {
      GrantedRow(s.w.rows, s.w.supers, u, o, true, v, p);
    }
  }

  // -------------------------------------------------------- a pool set too low

  const DOMAIN := Object(Domain, 7)

  /** A reseller with room for two domains creates one. */
  function ResellerWithDomain(): State {
    Step(Step(Installed(), MakeUser(0, 1, false, true, map[Domains := 2])), Make(1, DOMAIN))
  }

  /** Then the superuser sets its maximum to 0: it owns one domain with room for none. */
  lemma PoolBelowUsage()
    ensures var s := ResellerWithDomain();
            && Sound(s) && 1 !in s.w.supers && Usage(s.w.rows, 1, Domains) == 1
            && Max(Resized(s, 0, 1, Domains, 0), 1, Domains) == 0
            && !Fits(Resized(s, 0, 1, Domains, 0), 1, Domains)
  {
    InstalledIsSound(0);
    NewAccountIs(Installed(), 0, 1, true, map[Domains := 2]);
    FirstObjectIs(Step(Installed(), MakeUser(0, 1, false, true, map[Domains := 2])), 1, DOMAIN, Domains);
    ResizeOverdraws(ResellerWithDomain(), 0, 1, Domains, 0);
  }

  // --------------------------------------------------- an inheritance too large

  const MAILBOX := Object(Mailbox, 7)

  /** Account 1, no reseller, creates account 2; the superuser gives account 2 room for a mailbox. */
  function TwoAccounts(): State {
    Step(Step(Installed(), MakeUser(0, 1, false, false, map[])), MakeUser(1, 2, false, false, map[]))
  }

  function WithRoom(): State {
    Step(TwoAccounts(), SetPool(0, 2, Mailboxes, 1))
  }

  function WithMailbox(): State {
    Step(WithRoom(), Make(2, MAILBOX))
  }

  /** Account 1 owns account 2; neither owns a counted object, and account 1 has no room for any. */
  ghost predicate Chain(s: State) {
    && Sound(s) && HasPools(s) && s.w.users == {0, 1, 2} && s.w.supers == [0] && s.resellers == {}
    && s.w.objects == {AccountOf(0), AccountOf(1), AccountOf(2)}
    && (forall p :: !Owns(s.w.rows, 2, p)) && Owners(s.w.rows, AccountOf(2)) == {1}
    && Max(s, 1, Mailboxes) == 0 && Usage(s.w.rows, 1, Mailboxes) == 0
  }

  lemma SecondOwnsNone(s: State, t: State)
    requires forall p :: !Owns(s.w.rows, 1, p)
    requires t.w.rows == Granted(s.w.rows, s.w.supers, 1, AccountOf(2), true)
    ensures Usage(t.w.rows, 1, Mailboxes) == 0
  {
    OwnsNoneUsesNone(s.w.rows, 1, Mailboxes);
    AfterGrant(s.w.rows, s.w.supers, 1, AccountOf(2), true, 1);
    UsageNoMore(s.w.rows, t.w.rows, 1, Mailboxes);
  }

  lemma ChainIs(s0: State, s1: State, s2: State)
    requires s0.w.users == {0} && s0.w.supers == [0] && s0.w.objects == {AccountOf(0)} && s0.resellers == {}
    requires NewAccount(s0, 0, 1, false, map[], s1) && NewAccount(s1, 1, 2, false, map[], s2)
    requires s2.w.rows == Granted(s1.w.rows, s1.w.supers, 1, AccountOf(2), true)
    ensures Chain(s2)
  {
    SecondOwnsNone(s1, s2);
  }

  lemma MakeUserRows(s: State, creator: User, u: User)
    requires creator in s.w.users && u !in s.w.users
    ensures Step(s, MakeUser(creator, u, false, false, map[])).w.rows ==
            Granted(s.w.rows, s.w.supers, creator, AccountOf(u), true)
  {
  }

  lemma TwoAccountsAre()
    ensures Chain(TwoAccounts())
  {
    var s0, s1 := Installed(), Step(Installed(), MakeUser(0, 1, false, false, map[]));
    InstalledIsSound(0);
    NewAccountIs(s0, 0, 1, false, map[]);
    SecondAccountIs(s0, s1);
  }

  lemma SecondAccountIs(s0: State, s1: State)
    requires s0.w.users == {0} && s0.w.supers == [0] && s0.w.objects == {AccountOf(0)} && s0.resellers == {}
    requires NewAccount(s0, 0, 1, false, map[], s1)
    ensures Chain(Step(s1, MakeUser(1, 2, false, false, map[])))
  {
    NewAccountIs(s1, 1, 2, false, map[]);
    MakeUserRows(s1, 1, 2);
    ChainIs(s0, s1, Step(s1, MakeUser(1, 2, false, false, map[])));
  }

  /** The chain, with room for a mailbox in account 2. */
  lemma RoomIs(s: State)
    requires Chain(s)
    ensures var t := Step(s, SetPool(0, 2, Mailboxes, 1));
            Chain(t) && Max(t, 2, Mailboxes) == 1
  {
    var e := SetPool(0, 2, Mailboxes, 1);
    OwnsNoneUsesNone(s.w.rows, 2, Mailboxes);
    SoundStep(s, e);
    PoolsKept(s, e);
    assert Step(s, e) == s.(pools := s.pools[(2, Mailboxes) := 1]);
  }

  /** The chain once account 2 owns a mailbox. */
  ghost predicate Laden(s: State) {
    && Sound(s) && HasPools(s) && s.w.users == {0, 1, 2} && s.w.supers == [0] && s.resellers == {}
    && MAILBOX in s.w.objects
    && (forall p :: Owns(s.w.rows, 2, p) <==> p == MAILBOX) && Owners(s.w.rows, AccountOf(2)) == {1}
    && Max(s, 1, Mailboxes) == 0 && Usage(s.w.rows, 1, Mailboxes) == 0 && Usage(s.w.rows, 2, Mailboxes) == 1
  }

  lemma LadenIs(s: State, t: State)
    requires Chain(s) && FirstObject(s, 2, MAILBOX, Mailboxes, t)
    requires t.w.rows == Granted(s.w.rows, s.w.supers, 2, MAILBOX, true)
    ensures Laden(t)
  {
    AfterGrant(s.w.rows, s.w.supers, 2, MAILBOX, true, 1);
    UsageNoMore(s.w.rows, t.w.rows, 1, Mailboxes);
  }

  lemma MakeRows(s: State, u: User, o: Object)
    requires Enabled(s, Make(u, o))
    ensures Step(s, Make(u, o)).w.rows == Granted(s.w.rows, s.w.supers, u, o, true)
  {
  }

  lemma MailboxMade(s: State)
    requires Chain(s) && Max(s, 2, Mailboxes) == 1
    ensures Laden(Step(s, Make(2, MAILBOX)))
  {
    FirstObjectIs(s, 2, MAILBOX, Mailboxes);
    MakeRows(s, 2, MAILBOX);
    LadenIs(s, Step(s, Make(2, MAILBOX)));
  }

  lemma LadenHeir(s: State)
    requires Laden(s)
    ensures ListsOwned(s.w, 2, [MAILBOX]) && Heir(s.w, Some(0), 2) == Some(1)
  {
    var objs := [MAILBOX];
    assert forall key :: key in s.w.rows && key.0 == 2 && s.w.rows[key] ==> Owns(s.w.rows, 2, key.1);
    assert forall i :: 0 <= i < |objs| ==> objs[i] == MAILBOX;
    assert TheOnly({1}) == 1;
  }

  /** What the superuser's deletion of account 2 makes of the chain. */
  function Deleted(s: State): State
    requires UserDeleted(s.w, Some(0), 2, [MAILBOX]).Some?
  {
    s.(w := UserDeleted(s.w, Some(0), 2, [MAILBOX]).value, pools := PoolsMoved(s, 2))
  }

  lemma LadenDeletion(s: State)
    requires Laden(s) && ListsOwned(s.w, 2, [MAILBOX]) && Heir(s.w, Some(0), 2) == Some(1)
    ensures UserDeleted(s.w, Some(0), 2, [MAILBOX]).Some? && !Fits(Deleted(s), 1, Mailboxes)
  {
    DeletionTransfers(s.w, Some(0), 2, [MAILBOX], MAILBOX);
    DeletionOverdraws(s, Some(0), 2, [MAILBOX], Mailboxes);
  }

  /** Then the superuser deletes account 2: its mailbox goes to account 1, which has room for none
      and, being no reseller, does not get the pool. */
  lemma InheritanceWithoutRoom()
    ensures var s := WithMailbox();
            && Sound(s) && ListsOwned(s.w, 2, [MAILBOX]) && UserDeleted(s.w, Some(0), 2, [MAILBOX]).Some?
            && Heir(s.w, Some(0), 2) == Some(1) && 1 !in s.w.supers && !Fits(Deleted(s), 1, Mailboxes)
  {
    TwoAccountsAre();
    RoomIs(TwoAccounts());
    MailboxMade(WithRoom());
    LadenHeir(WithMailbox());
    LadenDeletion(WithMailbox());
  }
}
