/** Every object has exactly one owner, through every run of grants, ungrants and deletions. */
module OwnershipRuns {
  import opened Text
  import opened Ownership

  /** The database: access rows, accounts, superusers in query order, administered objects. */
  datatype World = World(rows: Table, users: set<User>, supers: seq<User>, objects: set<Object>)

  datatype Event =
    | Create(creator: User, o: Object)
    | CreateUser(creator: User, u: User, superuser: bool)
    | GrantAccess(u: User, o: Object)
    | Ungrant(o: Object, u: User)
    | Remove(o: Object)
    | DeleteUser(from: Option<User>, u: User, objs: seq<Object>)

  predicate HasOneOwner(w: World, o: Object) {
    exists u :: u in w.users && Owners(w.rows, o) == {u}
  }

  ghost predicate Valid(w: World) {
    && (forall o {:trigger HasOneOwner(w, o)} :: o in w.objects ==> HasOneOwner(w, o))
    && (forall key :: key in w.rows ==> key.0 in w.users && key.1 in w.objects)
    && (forall u :: u in w.users <==> AccountOf(u) in w.objects)
    && (forall u :: u in w.supers ==> u in w.users)
  }

  // ------------------------------------------------------------ transitions

  /** `User.can_access` for an account. */
  predicate CanAccessAccount(w: World, from: User, u: User) {
    from in w.supers || (from, AccountOf(u)) in w.rows
  }

  /** `objs` lists what `u` owns and still exists, in the order of the query. */
  predicate ListsOwned(w: World, u: User, objs: seq<Object>) {
    && (forall i :: 0 <= i < |objs| ==> objs[i] in w.objects && Owns(w.rows, u, objs[i]))
    && (forall key :: key in w.rows && key.0 == u && w.rows[key] && key.1 in w.objects ==> key.1 in objs)
    && (forall i, j :: 0 <= i < j < |objs| ==> objs[i] != objs[j])
  }

  /** Who inherits from `u`: the owner of its account, or the requester when it owns itself.
      None stands for an exception. */
  function Heir(w: World, from: Option<User>, u: User): Option<User> {
    var owners := Owners(w.rows, AccountOf(u));
    if from.Some? && (from.value == u || !CanAccessAccount(w, from.value, u)) then None
    else if owners == {u} then from
    else if |owners| == 1 then Some(TheOnly(owners))
    else None
  }

  function WithoutSuper(supers: seq<User>, u: User): (r: seq<User>)
    ensures forall x :: x in r <==> x in supers && x != u
  {
    if supers == [] then []
    else
      var front := WithoutSuper(supers[..|supers| - 1], u);
      if supers[|supers| - 1] == u then front else front + [supers[|supers| - 1]]
  }

  /** `update_permissions`, then the deletion of the account row. */
  function UserDeleted(w: World, from: Option<User>, u: User, objs: seq<Object>): Option<World> {
    var heir := Heir(w, from, u);
    if heir.None? then None else Departed(w, u, Moved(w.rows, w.supers, heir.value, u, objs))
  }

  /** What is left once the objects have moved. */
  function Departed(w: World, u: User, moved: Option<Table>): Option<World> {
    if moved.None? then None
    else Some(World(WithoutUser(Cleared(moved.value, AccountOf(u)), u), w.users - {u},
                    WithoutSuper(w.supers, u), w.objects - {AccountOf(u)}))
  }

  /** An event that raises, or that no caller can issue, leaves the database unchanged. */
  function Apply(w: World, e: Event): World {
    match e
    case Create(creator, o) =>
      if creator in w.users && o !in w.objects && o.kind != Account then
        w.(rows := Granted(w.rows, w.supers, creator, o, true), objects := w.objects + {o})
      else w
    case CreateUser(creator, u, superuser) =>
      if creator in w.users && u !in w.users then
        var supers := if superuser then w.supers + [u] else w.supers;
        World(Granted(w.rows, supers, creator, AccountOf(u), true), w.users + {u}, supers, w.objects + {AccountOf(u)})
      else w
    case GrantAccess(u, o) =>
      if u in w.users && o in w.objects && !Owns(w.rows, u, o) then
        w.(rows := Granted(w.rows, w.supers, u, o, false))
      else w
    case Ungrant(o, u) =>
      var r := Ungranted(w.rows, w.supers, o, u);
      if o in w.objects && r.Some? then w.(rows := r.value) else w
    case Remove(o) =>
      if o.kind != Account then w.(rows := Cleared(w.rows, o), objects := w.objects - {o}) else w
    case DeleteUser(from, u, objs) =>
      var r := UserDeleted(w, from, u, objs);
      if u in w.users && (from.Some? ==> from.value in w.users) && ListsOwned(w, u, objs) && r.Some? then r.value else w
  }

  function Run(w: World, events: seq<Event>): World {
    if events == [] then w else Apply(Run(w, events[..|events| - 1]), events[|events| - 1])
  }

  /** The handler run before an account row is deleted; false stands for an exception. */
  method UpdatePermissions(table: AccessTable, ghost w: World, from: Option<User>, u: User, supers: seq<User>,
                           objs: seq<Object>)
    returns (ok: bool)
    requires table.rows == w.rows && supers == w.supers
    modifies table
    ensures ok == UserDeleted(w, from, u, objs).Some?
    ensures ok ==> WithoutUser(table.rows, u) == UserDeleted(w, from, u, objs).value.rows
  {
    if from.Some? {
      if from.value == u { return false; }
      if !(from.value in supers || (from.value, AccountOf(u)) in table.rows) { return false; }
    }
    var owners := Owners(table.rows, AccountOf(u));
    if |owners| != 1 { return false; }
    var owner := TheOnly(owners);
    if owner == u {
      if from.None? { return false; }
      owner := from.value;
    }
    ok := table.MoveObjects(supers, owner, u, objs);
    if ok {
      table.UngrantAll(AccountOf(u));
    }
  }

  // ---------------------------------------------------------------- deletion

  lemma OneOwner(w: World, o: Object) returns (u: User)
    requires Valid(w) && o in w.objects
    ensures u in w.users && Owners(w.rows, o) == {u}
  {
    assert HasOneOwner(w, o);
    u :| u in w.users && Owners(w.rows, o) == {u};
  }

  lemma OwnedListed(w: World, u: User, objs: seq<Object>, o: Object)
    requires Valid(w) && ListsOwned(w, u, objs) && o in w.objects
    ensures o in objs <==> Owners(w.rows, o) == {u}
  {
    var x := OneOwner(w, o);
    OwnersMember(w.rows, o, u);
    if Owns(w.rows, u, o) {
      assert (u, o) in w.rows;
      assert o in objs;
    }
  }

  lemma HeirIs(w: World, from: Option<User>, u: User)
    requires Valid(w) && u in w.users && (from.Some? ==> from.value in w.users) && Heir(w, from, u).Some?
    ensures var h := Heir(w, from, u).value; h in w.users && h != u
    ensures Owners(w.rows, AccountOf(u)) == {u} ==> from == Heir(w, from, u)
    ensures Owners(w.rows, AccountOf(u)) != {u} ==> Owners(w.rows, AccountOf(u)) == {Heir(w, from, u).value}
  {
    var x := OneOwner(w, AccountOf(u));
  }

  lemma ClearedOwners(t: Table, gone: Object, u: User, o: Object)
    requires o != gone && u !in Owners(t, o)
    ensures Owners(WithoutUser(Cleared(t, gone), u), o) == Owners(t, o)
  {
    var after := WithoutUser(Cleared(t, gone), u);
    OwnersMember(t, o, u);
    forall v ensures Owns(after, v, o) <==> Owns(t, v, o) {
    }
    OwnersSame(t, after, o);
  }

  /** `o` changed hands from `u` to the heir, or kept its owner. */
  predicate HandedOver(before: Table, after: Table, heir: User, u: User, o: Object) {
    && Owners(after, o) == (if Owners(before, o) == {u} then {heir} else Owners(before, o))
    && u !in Owners(after, o)
  }

  /** Deleting a user succeeds once the heir is known, hands each object it owned to the heir and
      leaves every other owner in place. */
  lemma DeletionTransfers(w: World, from: Option<User>, u: User, objs: seq<Object>, o: Object)
    requires Valid(w) && u in w.users && (from.Some? ==> from.value in w.users)
    requires ListsOwned(w, u, objs) && Heir(w, from, u).Some?
    requires o in w.objects && o != AccountOf(u)
    ensures UserDeleted(w, from, u, objs).Some?
    ensures HandedOver(w.rows, UserDeleted(w, from, u, objs).value.rows, Heir(w, from, u).value, u, o)
  {
    HeirIs(w, from, u);
    DeletionHands(w, from, u, objs, o, Heir(w, from, u).value);
  }

  lemma DeletionHands(w: World, from: Option<User>, u: User, objs: seq<Object>, o: Object, heir: User)
    requires Valid(w) && ListsOwned(w, u, objs) && Heir(w, from, u) == Some(heir) && heir != u
    requires o in w.objects && o != AccountOf(u)
    ensures UserDeleted(w, from, u, objs).Some?
    ensures HandedOver(w.rows, UserDeleted(w, from, u, objs).value.rows, heir, u, o)
  {
    var x := AfterMove(w, heir, u, objs, o);
    DepartedHands(w, u, Moved(w.rows, w.supers, heir, u, objs), heir, o, x);
  }

  lemma DepartedHands(w: World, u: User, moved: Option<Table>, heir: User, o: Object, x: User)
    requires moved.Some? && heir != u && o != AccountOf(u) && Owners(w.rows, o) == {x}
    requires Owners(moved.value, o) == {if x == u then heir else x}
    ensures Departed(w, u, moved).Some?
    ensures HandedOver(w.rows, Departed(w, u, moved).value.rows, heir, u, o)
  {
    RestOwner(moved.value, AccountOf(u), u, o, if x == u then heir else x);
  }

  /** No row of the deleted user, and no row on its account, is left. */
  lemma DeletionCleans(w: World, from: Option<User>, u: User, objs: seq<Object>, key: (User, Object))
    requires UserDeleted(w, from, u, objs).Some? && key in UserDeleted(w, from, u, objs).value.rows
    ensures key.0 != u && key.1 != AccountOf(u)
  {
  }

  /** Every row after the deletion of a user: its own rows and the rows on its account are gone, the
      rows on the objects it owned are those the heir takes over, and every other row is kept. */
  lemma DeletionRows(w: World, from: Option<User>, u: User, objs: seq<Object>, v: User, p: Object)
    requires Valid(w) && u in w.users && (from.Some? ==> from.value in w.users)
    requires ListsOwned(w, u, objs) && Heir(w, from, u).Some?
    ensures UserDeleted(w, from, u, objs).Some?
    ensures var heir, after := Heir(w, from, u).value, UserDeleted(w, from, u, objs).value.rows;
            if v == u || p == AccountOf(u) then (v, p) !in after
            else if p in w.objects && Owns(w.rows, u, p) then HandedRow(w.rows, after, w.supers, heir, u, v, p)
            else SameRow(w.rows, after, (v, p))
  {
    HeirIs(w, from, u);
    ListedOwners(w, u, objs);
    MovedRow(w.rows, w.supers, Heir(w, from, u).value, u, objs, v, p);
    ListedThere(w, u, objs, p);
  }

  lemma ListedThere(w: World, u: User, objs: seq<Object>, o: Object)
    requires ListsOwned(w, u, objs)
    ensures o in objs <==> o in w.objects && Owns(w.rows, u, o)
  {
    if o in w.objects && Owns(w.rows, u, o) {
      assert (u, o) in w.rows && (u, o).1 in objs;
    }
  }

  /** The other tables: the account goes, and with it only its place among the superusers. */
  lemma DeletionLeaves(w: World, from: Option<User>, u: User, objs: seq<Object>)
    requires UserDeleted(w, from, u, objs).Some?
    ensures var after := UserDeleted(w, from, u, objs).value;
            && (forall x :: x in after.users <==> x in w.users && x != u)
            && (forall o :: o in after.objects <==> o in w.objects && o != AccountOf(u))
            && (u !in w.supers ==> after.supers == w.supers)
            && (forall a, b :: w.supers == a + [u] + b && u !in a && u !in b ==> after.supers == a + b)
  {
    WithoutSuperIs(w.supers, u);
  }

  lemma {:induction false} NotThere(supers: seq<User>, u: User)
    requires u !in supers
    ensures WithoutSuper(supers, u) == supers
  {
    if supers != [] {
      NotThere(supers[..|supers| - 1], u);
      assert supers == supers[..|supers| - 1] + [supers[|supers| - 1]];
    }
  }

  lemma {:induction false} WithoutSuperAt(a: seq<User>, u: User, b: seq<User>)
    requires u !in a && u !in b
    ensures WithoutSuper(a + [u] + b, u) == a + b
  {
    if b == [] {
      NotThere(a, u);
      assert (a + [u] + b)[..|a + [u] + b| - 1] == a;
      assert a + b == a;
    } else {
      var front := b[..|b| - 1];
      WithoutSuperAt(a, u, front);
      assert (a + [u] + b)[..|a + [u] + b| - 1] == a + [u] + front;
      assert a + b == a + front + [b[|b| - 1]];
    }
  }

  lemma WithoutSuperIs(supers: seq<User>, u: User)
    ensures u !in supers ==> WithoutSuper(supers, u) == supers
    ensures forall a, b :: supers == a + [u] + b && u !in a && u !in b ==> WithoutSuper(supers, u) == a + b
  {
    if u !in supers { NotThere(supers, u); }
    forall a, b | supers == a + [u] + b && u !in a && u !in b
      ensures WithoutSuper(supers, u) == a + b
    {
      WithoutSuperAt(a, u, b);
    }
  }

  /** Who inherits, and when the deletion is refused: by a requester who is the account itself, by one
      who is no superuser and has no row on the account, and, when the account owns itself, without a
      requester. Otherwise the owner of the account inherits, or the requester in the owner's place. */
  lemma HeirExactly(w: World, from: Option<User>, u: User, objs: seq<Object>, owner: User)
    requires Valid(w) && u in w.users && Owners(w.rows, AccountOf(u)) == {owner} && ListsOwned(w, u, objs)
    requires from.Some? ==> from.value in w.users
    ensures UserDeleted(w, from, u, objs).None? <==>
              if from.None? then owner == u
              else from.value == u || (from.value !in w.supers && (from.value, AccountOf(u)) !in w.rows)
    ensures UserDeleted(w, from, u, objs).Some? ==>
              Heir(w, from, u) == if owner == u then from else Some(owner)
  {
    assert owner == u <==> Owners(w.rows, AccountOf(u)) == {u} by {
      assert owner in {owner};
    }
    if Heir(w, from, u).Some? {
      DeletionRows(w, from, u, objs, u, AccountOf(u));
    }
  }

  /** Removing an object takes the rows on it and no other row. */
  lemma RemovedRows(w: World, o: Object, key: (User, Object))
    requires o.kind != Account
    ensures var after := Apply(w, Remove(o));
            && (if key.1 == o then key !in after.rows else SameRow(w.rows, after.rows, key))
            && after.users == w.users && after.supers == w.supers && after.objects == w.objects - {o}
  {
  }

  lemma AfterMove(w: World, heir: User, u: User, objs: seq<Object>, o: Object) returns (x: User)
    requires Valid(w) && heir != u && ListsOwned(w, u, objs) && o in w.objects
    ensures x in w.users && Owners(w.rows, o) == {x} && Moved(w.rows, w.supers, heir, u, objs).Some?
    ensures Owners(Moved(w.rows, w.supers, heir, u, objs).value, o) == {if x == u then heir else x}
  {
    ListedOwners(w, u, objs);
    MovedOwners(w.rows, w.supers, heir, u, objs);
    OwnedListed(w, u, objs, o);
    x := OneOwner(w, o);
  }

  lemma RestOwner(t: Table, gone: Object, u: User, o: Object, x: User)
    requires o != gone && Owners(t, o) == {x} && x != u
    ensures Owners(WithoutUser(Cleared(t, gone), u), o) == {x}
    ensures forall key :: key in WithoutUser(Cleared(t, gone), u) ==> key.0 != u && key.1 != gone
  {
    ClearedOwners(t, gone, u, o);
  }

  lemma ListedOwners(w: World, u: User, objs: seq<Object>)
    requires Valid(w) && ListsOwned(w, u, objs)
    ensures forall i :: 0 <= i < |objs| ==> Owners(w.rows, objs[i]) == {u}
  {
    forall i | 0 <= i < |objs| ensures Owners(w.rows, objs[i]) == {u} {
      OwnedListed(w, u, objs, objs[i]);
    }
  }

  // -------------------------------------------------------------- invariant

  lemma OwnedBy(w: World, o: Object, u: User)
    requires u in w.users && Owners(w.rows, o) == {u}
    ensures HasOneOwner(w, o)
  {
  }

  /** A row after a grant is an old row, the granted one, or one of a superuser on the object. */
  lemma GrantedRows(t: Table, supers: seq<User>, u: User, o: Object, owner: bool)
    ensures forall key :: key in Granted(t, supers, u, o, owner) ==>
      key in t || (key.1 == o && (key.0 == u || key.0 in supers))
  {
    forall key | key in Granted(t, supers, u, o, owner)
      ensures key in t || (key.1 == o && (key.0 == u || key.0 in supers))
    {
      GrantedRow(t, supers, u, o, owner, key.0, key.1);
    }
  }

  lemma NoOwnerOutside(w: World, o: Object)
    requires Valid(w) && o !in w.objects
    ensures Owners(w.rows, o) == {}
  {
    OwnersAre(w.rows, o, {});
  }

  /** The database after a fresh object `o` got its first rows, now `t`. */
  lemma ValidCreated(w: World, after: World, creator: User, o: Object)
    requires Valid(w) && creator in w.users && o !in w.objects
    requires after.objects == w.objects + {o} && w.users <= after.users
    requires Owners(after.rows, o) == {creator}
    requires forall p :: p != o ==> Owners(after.rows, p) == Owners(w.rows, p)
    requires forall key :: key in after.rows ==> key in w.rows || (key.1 == o && key.0 in after.users)
    requires forall u :: u in after.users <==> AccountOf(u) in after.objects
    requires forall u :: u in after.supers ==> u in after.users
    ensures Valid(after)
  {
    CreatedOwners(w, after, creator, o);
  }

  lemma CreatedOwners(w: World, after: World, creator: User, o: Object)
    requires Valid(w) && creator in after.users && w.users <= after.users && after.objects == w.objects + {o}
    requires Owners(after.rows, o) == {creator}
    requires forall p :: p != o ==> Owners(after.rows, p) == Owners(w.rows, p)
    ensures forall p {:trigger HasOneOwner(after, p)} :: p in after.objects ==> HasOneOwner(after, p)
  {
    forall p | p in after.objects ensures HasOneOwner(after, p) {
      if p == o {
        OwnedBy(after, o, creator);
      } else {
        var x := OneOwner(w, p);
        OwnedBy(after, p, x);
      }
    }
  }

  /** `t` is `w.rows` with the first rows of the fresh object `o`. */
  ghost predicate FirstRows(w: World, t: Table, supers: seq<User>, creator: User, o: Object) {
    && Owners(t, o) == {creator}
    && (forall p :: p != o ==> Owners(t, p) == Owners(w.rows, p))
    && (forall key :: key in t ==> key in w.rows || (key.1 == o && (key.0 == creator || key.0 in supers)))
  }

  lemma FirstGrant(w: World, supers: seq<User>, creator: User, o: Object)
    requires Valid(w) && o !in w.objects
    ensures FirstRows(w, Granted(w.rows, supers, creator, o, true), supers, creator, o)
  {
    NoOwnerOutside(w, o);
    GrantedOwners(w.rows, supers, creator, o, true);
    assert {} + {creator} == {creator};
    GrantedRows(w.rows, supers, creator, o, true);
  }

  /** Creating an object, the creator as its owner. */
  lemma ValidCreate(w: World, t: Table, creator: User, o: Object)
    requires Valid(w) && creator in w.users && o !in w.objects && o.kind != Account
    requires FirstRows(w, t, w.supers, creator, o)
    ensures Valid(w.(rows := t, objects := w.objects + {o}))
  {
    ValidCreated(w, w.(rows := t, objects := w.objects + {o}), creator, o);
  }

  lemma ValidCreateUser(w: World, t: Table, creator: User, u: User, supers: seq<User>)
    requires Valid(w) && creator in w.users && u !in w.users
    requires FirstRows(w, t, supers, creator, AccountOf(u))
    requires forall x :: x in supers ==> x in w.users || x == u
    ensures Valid(World(t, w.users + {u}, supers, w.objects + {AccountOf(u)}))
  {
    ValidCreated(w, World(t, w.users + {u}, supers, w.objects + {AccountOf(u)}), creator, AccountOf(u));
  }

  /** A non-owner grant keeps the single owner exactly when the grantee is not the owner. */
  lemma NonOwnerGrant(w: World, u: User, o: Object)
    requires Valid(w) && u in w.users && o in w.objects
    ensures HasOneOwner(w.(rows := Granted(w.rows, w.supers, u, o, false)), o) <==> !Owns(w.rows, u, o)
  {
    var w' := w.(rows := Granted(w.rows, w.supers, u, o, false));
    var x := OneOwner(w, o);
    GrantedOwners(w.rows, w.supers, u, o, false);
    OwnersMember(w.rows, o, u);
    if u == x {
      assert Owners(w'.rows, o) == {};
    } else {
      assert {x} - {u} == {x};
      OwnedBy(w', o, x);
    }
  }

  /** An owner grant keeps the single owner exactly when the grantee owns the object already. */
  lemma OwnerGrant(w: World, u: User, o: Object)
    requires Valid(w) && u in w.users && o in w.objects
    ensures HasOneOwner(w.(rows := Granted(w.rows, w.supers, u, o, true)), o) <==> Owns(w.rows, u, o)
  {
    var w' := w.(rows := Granted(w.rows, w.supers, u, o, true));
    var x := OneOwner(w, o);
    GrantedOwners(w.rows, w.supers, u, o, true);
    OwnersMember(w.rows, o, u);
    assert Owners(w'.rows, o) == {x} + {u};
    if u == x {
      assert {x} + {x} == {x};
      OwnedBy(w', o, x);
    } else {
      forall y ensures {x} + {u} != {y} {
        assert x in {x} + {u} && u in {x} + {u};
      }
    }
  }

  lemma ValidGrantAccess(w: World, u: User, o: Object)
    requires Valid(w) && u in w.users && o in w.objects && !Owns(w.rows, u, o)
    ensures Valid(w.(rows := Granted(w.rows, w.supers, u, o, false)))
  {
    var w' := w.(rows := Granted(w.rows, w.supers, u, o, false));
    NonOwnerGrant(w, u, o);
    GrantedOwners(w.rows, w.supers, u, o, false);
    GrantedRows(w.rows, w.supers, u, o, false);
    forall p | p in w'.objects && p != o ensures HasOneOwner(w', p) {
      var x := OneOwner(w, p);
      OwnedBy(w', p, x);
    }
  }

  lemma ValidUngrant(w: World, o: Object, u: User)
    requires Valid(w) && o in w.objects && Ungranted(w.rows, w.supers, o, u).Some?
    ensures Valid(w.(rows := Ungranted(w.rows, w.supers, o, u).value))
  {
    var w' := w.(rows := Ungranted(w.rows, w.supers, o, u).value);
    var x := OneOwner(w, o);
    RemovedOwners(w.rows, o, u);
    if x == u {
      assert {x} - {u} == {};
    }
    UngrantedOwners(w.rows, w.supers, o, u, x);
    if w.supers != [] {
      GrantedRows(w.rows - {(u, o)}, w.supers, w.supers[0], o, true);
    }
    OwnedBy(w', o, if x == u then w.supers[0] else x);
    forall p | p in w'.objects && p != o ensures HasOneOwner(w', p) {
      var y := OneOwner(w, p);
      OwnedBy(w', p, y);
    }
  }

  lemma ValidRemove(w: World, o: Object)
    requires Valid(w) && o.kind != Account
    ensures Valid(w.(rows := Cleared(w.rows, o), objects := w.objects - {o}))
  {
    var w' := w.(rows := Cleared(w.rows, o), objects := w.objects - {o});
    forall p | p in w'.objects ensures HasOneOwner(w', p) {
      var x := OneOwner(w, p);
      OwnersSame(w.rows, w'.rows, p);
      OwnedBy(w', p, x);
    }
  }

  lemma ValidDeletion(w: World, from: Option<User>, u: User, objs: seq<Object>)
    requires Valid(w) && u in w.users && (from.Some? ==> from.value in w.users)
    requires ListsOwned(w, u, objs) && UserDeleted(w, from, u, objs).Some?
    ensures Valid(UserDeleted(w, from, u, objs).value)
  {
    HeirIs(w, from, u);
    var heir := Heir(w, from, u).value;
    var moved := Moved(w.rows, w.supers, heir, u, objs);
    ListedOwners(w, u, objs);
    forall o | o in w.objects && o != AccountOf(u)
      ensures exists x :: x in w.users && x != u && Owners(moved.value, o) == {x}
    {
      var x := AfterMove(w, heir, u, objs, o);
    }
    forall key | key in moved.value
      ensures key.0 in w.users && key.1 in w.objects
    {
      MovedRow(w.rows, w.supers, heir, u, objs, key.0, key.1);
      ListedThere(w, u, objs, key.1);
    }
    ValidDeparted(w, u, moved);
  }

  lemma ValidDeparted(w: World, u: User, moved: Option<Table>)
    requires Valid(w) && u in w.users && moved.Some?
    requires forall o :: o in w.objects && o != AccountOf(u) ==>
      exists x :: x in w.users && x != u && Owners(moved.value, o) == {x}
    requires forall key :: key in moved.value ==> key.0 in w.users && key.1 in w.objects
    ensures Valid(Departed(w, u, moved).value)
  {
    DepartedOwners(w, u, moved);
  }

  lemma DepartedOwners(w: World, u: User, moved: Option<Table>)
    requires moved.Some?
    requires forall o :: o in w.objects && o != AccountOf(u) ==>
      exists x :: x in w.users && x != u && Owners(moved.value, o) == {x}
    ensures forall o :: o in Departed(w, u, moved).value.objects ==> HasOneOwner(Departed(w, u, moved).value, o)
  {
    var w' := Departed(w, u, moved).value;
    forall o | o in w'.objects ensures HasOneOwner(w', o) {
      var x :| x in w.users && x != u && Owners(moved.value, o) == {x};
      RestOwner(moved.value, AccountOf(u), u, o, x);
      OwnedBy(w', o, x);
    }
  }

  lemma ValidStep(w: World, e: Event)
    requires Valid(w)
    ensures Valid(Apply(w, e))
  {
    if Apply(w, e) != w {
      match e
      case Create(creator, o) =>
        FirstGrant(w, w.supers, creator, o);
        ValidCreate(w, Granted(w.rows, w.supers, creator, o, true), creator, o);
      case CreateUser(creator, u, superuser) =>
        var supers := if superuser then w.supers + [u] else w.supers;
        FirstGrant(w, supers, creator, AccountOf(u));
        ValidCreateUser(w, Granted(w.rows, supers, creator, AccountOf(u), true), creator, u, supers);
      case GrantAccess(u, o) => ValidGrantAccess(w, u, o);
      case Ungrant(o, u) => ValidUngrant(w, o, u);
      case Remove(o) => ValidRemove(w, o);
      case DeleteUser(from, u, objs) => ValidDeletion(w, from, u, objs);
    }
  }

  /** Exactly one owner per object, an existing account, in every state of every run. */
  lemma {:induction false} OneOwnerAlways(w: World, events: seq<Event>)
    requires Valid(w)
    ensures Valid(Run(w, events))
  {
    if events != [] {
      OneOwnerAlways(w, events[..|events| - 1]);
      ValidStep(Run(w, events[..|events| - 1]), events[|events| - 1]);
    }
  }

  /** The database as installed: one superuser, who owns its own account. */
  lemma InstalledIsValid(admin: User)
    ensures Valid(World(map[(admin, AccountOf(admin)) := true], {admin}, [admin], {AccountOf(admin)}))
  {
    var w := World(map[(admin, AccountOf(admin)) := true], {admin}, [admin], {AccountOf(admin)});
    OwnersAre(w.rows, AccountOf(admin), {admin});
    OwnedBy(w, AccountOf(admin), admin);
  }
}
