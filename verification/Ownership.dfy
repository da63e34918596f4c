/**
 The access table: which users may administer which objects, and who owns each object.
 The class methods are the code; each is tied to a closed form on the table.
 */
module Ownership {
  import opened Text

  type User = nat

  datatype Kind = Account | Domain | DomainAlias | Mailbox | Alias

  /** An administered object; the account of user `u` is the object `Object(Account, u)`. */
  datatype Object = Object(kind: Kind, id: nat)

  /** The rows of `ObjectAccess`: present when the user has access, true when it owns the object. */
  type Table = map<(User, Object), bool>

  function AccountOf(u: User): Object {
    Object(Account, u)
  }

  predicate Owns(t: Table, u: User, o: Object) {
    (u, o) in t && t[(u, o)]
  }

  function Owners(t: Table, o: Object): set<User> {
    set key | key in t && key.1 == o && t[key] :: key.0
  }

  lemma SingletonIs(s: set<User>)
    requires |s| == 1
    ensures exists u :: s == {u}
  {
    var u :| u in s;
    assert |s - {u}| == 0;
    assert s == {u};
  }

  /** The element of a singleton. */
  function TheOnly(s: set<User>): (u: User)
    requires |s| == 1
    ensures s == {u}
  {
    SingletonIs(s);
    var u :| s == {u};
    u
  }

  lemma OwnersMember(t: Table, o: Object, u: User)
    ensures u in Owners(t, o) <==> Owns(t, u, o)
  {
    if Owns(t, u, o) {
      assert (u, o) in t && (u, o).1 == o && (u, o).0 == u;
    }
  }

  // --------------------------------------------------- what the code computes

  /** Every superuser but `u` gets access to `o`. */
  function WithSupers(t: Table, supers: seq<User>, u: User, o: Object): Table {
    if supers == [] then t
    else
      var su := supers[|supers| - 1];
      var before := WithSupers(t, supers[..|supers| - 1], u, o);
      if su == u || (su, o) in before then before else before[(su, o) := false]
  }

  /** `grant_access_to_object`: a new owner also brings in the superusers. */
  function Granted(t: Table, supers: seq<User>, u: User, o: Object, owner: bool): Table {
    if (u, o) in t || !owner then t[(u, o) := owner]
    else WithSupers(t[(u, o) := true], supers, u, o)
  }

  /** `ungrant_access_to_object` for one user; None stands for an exception. */
  function Ungranted(t: Table, supers: seq<User>, o: Object, u: User): Option<Table> {
    var left := t - {(u, o)};
    var owners := Owners(left, o);
    if |owners| > 1 then None
    else if |owners| == 1 then Some(left)
    else if supers == [] then None
    else Some(Granted(left, supers, supers[0], o, true))
  }

  /** `ungrant_access_to_object` for everybody. */
  function Cleared(t: Table, o: Object): Table {
    map key | key in t && key.1 != o :: t[key]
  }

  /** The objects in `objs` go from `u` to `heir`, one after the other. */
  function Moved(t: Table, supers: seq<User>, heir: User, u: User, objs: seq<Object>): Option<Table> {
    if objs == [] then Some(t)
    else
      var before := Moved(t, supers, heir, u, objs[..|objs| - 1]);
      var o := objs[|objs| - 1];
      if before.None? then None
      else Ungranted(Granted(before.value, supers, heir, o, true), supers, o, u)
  }

  /** The rows of a deleted user go with it (foreign key with cascade). */
  function WithoutUser(t: Table, u: User): Table {
    map key | key in t && key.0 != u :: t[key]
  }

  // -------------------------------------------------------------- the code

  class AccessTable {
    var rows: Table

    constructor ()
      ensures rows == map[]
    {
      rows := map[];
    }

    /** Django's `get_or_create` of a row without ownership. */
    method GetOrCreate(u: User, o: Object) returns (created: bool)
      modifies this
      ensures created == ((u, o) !in old(rows))
      ensures rows == if created then old(rows)[(u, o) := false] else old(rows)
    {
      created := (u, o) !in rows;
      if created {
        rows := rows[(u, o) := false];
      }
    }

    method GrantSupers(supers: seq<User>, u: User, o: Object)
      modifies this
      ensures rows == WithSupers(old(rows), supers, u, o)
    {
      for i := 0 to |supers|
        invariant rows == WithSupers(old(rows), supers[..i], u, o)
      {
        assert supers[..i + 1][..i] == supers[..i];
        if supers[i] != u {
          var _ := GetOrCreate(supers[i], o);
        }
      }
      assert supers[..|supers|] == supers;
    }

    method Grant(supers: seq<User>, u: User, o: Object, owner: bool)
      modifies this
      ensures rows == Granted(old(rows), supers, u, o, owner)
    {
      var created := GetOrCreate(u, o);
      rows := rows[(u, o) := owner];
      assert rows == old(rows)[(u, o) := owner];
      if created && owner {
        GrantSupers(supers, u, o);
      }
    }

    /** False stands for an exception. */
    method Ungrant(supers: seq<User>, o: Object, u: User) returns (ok: bool)
      modifies this
      ensures ok == Ungranted(old(rows), supers, o, u).Some?
      ensures ok ==> rows == Ungranted(old(rows), supers, o, u).value
    {
      rows := rows - {(u, o)};
      var owners := Owners(rows, o);
      if |owners| == 1 { return true; }
      if |owners| > 1 || supers == [] { return false; }
      Grant(supers, supers[0], o, true);
      ok := true;
    }

    method UngrantAll(o: Object)
      modifies this
      ensures rows == Cleared(old(rows), o)
    {
      rows := map key | key in rows && key.1 != o :: rows[key];
    }

    method MoveObjects(supers: seq<User>, heir: User, u: User, objs: seq<Object>) returns (ok: bool)
      modifies this
      ensures ok == Moved(old(rows), supers, heir, u, objs).Some?
      ensures ok ==> rows == Moved(old(rows), supers, heir, u, objs).value
    {
      for i := 0 to |objs|
        invariant Moved(old(rows), supers, heir, u, objs[..i]) == Some(rows)
      {
        assert objs[..i + 1][..i] == objs[..i];
        Grant(supers, heir, objs[i], true);
        var moved := Ungrant(supers, objs[i], u);
        if !moved {
          MovedFails(old(rows), supers, heir, u, objs, i + 1);
          return false;
        }
      }
      assert objs[..|objs|] == objs;
      ok := true;
    }
  }

  lemma {:induction false} MovedFails(t: Table, supers: seq<User>, heir: User, u: User, objs: seq<Object>, n: nat)
    requires n <= |objs| && Moved(t, supers, heir, u, objs[..n]).None?
    ensures Moved(t, supers, heir, u, objs).None?
    decreases |objs| - n
  {
    if n == |objs| {
      assert objs[..n] == objs;
    } else {
      assert objs[..n + 1][..n] == objs[..n];
      MovedFails(t, supers, heir, u, objs, n + 1);
    }
  }

  // ------------------------------------------------ effect on every single row

  lemma {:induction false} WithSupersRow(t: Table, supers: seq<User>, u: User, o: Object, key: (User, Object))
    ensures key in WithSupers(t, supers, u, o) <==> key in t || (key.1 == o && key.0 in supers && key.0 != u)
    ensures key in t ==> WithSupers(t, supers, u, o)[key] == t[key]
    ensures key in WithSupers(t, supers, u, o) && key !in t ==> !WithSupers(t, supers, u, o)[key]
  {
    if supers != [] {
      var front := supers[..|supers| - 1];
      WithSupersRow(t, front, u, o, key);
      WithSupersRow(t, front, u, o, (supers[|supers| - 1], o));
      assert supers == front + [supers[|supers| - 1]];
    }
  }

  /** Granting changes ownership of one object for one user only. */
  lemma GrantedRow(t: Table, supers: seq<User>, u: User, o: Object, owner: bool, v: User, p: Object)
    ensures Owns(Granted(t, supers, u, o, owner), v, p) <==> if v == u && p == o then owner else Owns(t, v, p)
    ensures (v, p) in Granted(t, supers, u, o, owner) <==>
      (v, p) in t || (p == o && (v == u || (owner && (u, o) !in t && v in supers)))
  {
    if (u, o) !in t && owner {
      WithSupersRow(t[(u, o) := true], supers, u, o, (v, p));
    }
  }

  lemma OwnersAre(t: Table, o: Object, owners: set<User>)
    requires forall v :: Owns(t, v, o) <==> v in owners
    ensures Owners(t, o) == owners
  {
    forall v ensures v in Owners(t, o) <==> v in owners {
      OwnersMember(t, o, v);
    }
  }

  lemma OwnersSame(t: Table, t': Table, o: Object)
    requires forall v :: Owns(t', v, o) <==> Owns(t, v, o)
    ensures Owners(t', o) == Owners(t, o)
  {
    forall v ensures Owns(t', v, o) <==> v in Owners(t, o) {
      OwnersMember(t, o, v);
    }
    OwnersAre(t', o, Owners(t, o));
  }

  lemma GrantedOwners(t: Table, supers: seq<User>, u: User, o: Object, owner: bool)
    ensures Owners(Granted(t, supers, u, o, owner), o) == if owner then Owners(t, o) + {u} else Owners(t, o) - {u}
    ensures forall p :: p != o ==> Owners(Granted(t, supers, u, o, owner), p) == Owners(t, p)
  {
    var t' := Granted(t, supers, u, o, owner);
    forall v ensures Owns(t', v, o) <==> v in if owner then Owners(t, o) + {u} else Owners(t, o) - {u} {
      GrantedRow(t, supers, u, o, owner, v, o);
      OwnersMember(t, o, v);
    }
    OwnersAre(t', o, if owner then Owners(t, o) + {u} else Owners(t, o) - {u});
    forall p | p != o ensures Owners(t', p) == Owners(t, p) {
      forall v ensures Owns(t', v, p) <==> Owns(t, v, p) {
        GrantedRow(t, supers, u, o, owner, v, p);
      }
      OwnersSame(t, t', p);
    }
  }

  lemma RemovedOwners(t: Table, o: Object, u: User)
    ensures Owners(t - {(u, o)}, o) == Owners(t, o) - {u}
    ensures forall p :: p != o ==> Owners(t - {(u, o)}, p) == Owners(t, p)
  {
    var left := t - {(u, o)};
    forall v ensures Owns(left, v, o) <==> v in Owners(t, o) - {u} {
      OwnersMember(t, o, v);
    }
    OwnersAre(left, o, Owners(t, o) - {u});
    forall p | p != o ensures Owners(left, p) == Owners(t, p) {
      OwnersSame(t, left, p);
    }
  }

  /** Ungranting one user's access: ownership falls to the first superuser when the owner leaves. */
  lemma UngrantedOwners(t: Table, supers: seq<User>, o: Object, u: User, w: User)
    requires Owners(t, o) == {w} && (w == u ==> supers != [])
    ensures var r := Ungranted(t, supers, o, u);
            && r.Some?
            && Owners(r.value, o) == {if w == u then supers[0] else w}
            && (forall p :: p != o ==> Owners(r.value, p) == Owners(t, p))
  {
    var left := t - {(u, o)};
    RemovedOwners(t, o, u);
    if w == u {
      assert {w} - {u} == {};
      GrantedOwners(left, supers, supers[0], o, true);
      assert {} + {supers[0]} == {supers[0]};
    } else {
      assert {w} - {u} == {w};
    }
  }

  /** One object goes from its only owner to the heir. */
  lemma MoveOwners(t: Table, supers: seq<User>, heir: User, u: User, o: Object)
    requires Owners(t, o) == {u} && heir != u
    ensures var r := Ungranted(Granted(t, supers, heir, o, true), supers, o, u);
            && r.Some? && r.value == Granted(t, supers, heir, o, true) - {(u, o)}
            && Owners(r.value, o) == {heir}
            && (forall p :: p != o ==> Owners(r.value, p) == Owners(t, p))
  {
    var t1 := Granted(t, supers, heir, o, true);
    GrantedOwners(t, supers, heir, o, true);
    RemovedOwners(t1, o, u);
    assert {u} + {heir} - {u} == {heir};
  }

  /** All objects go to the heir, and nothing else changes hands. */
  lemma {:induction false} MovedOwners(t: Table, supers: seq<User>, heir: User, u: User, objs: seq<Object>)
    requires heir != u
    requires forall i :: 0 <= i < |objs| ==> Owners(t, objs[i]) == {u}
    requires forall i, j :: 0 <= i < j < |objs| ==> objs[i] != objs[j]
    ensures var r := Moved(t, supers, heir, u, objs);
            r.Some? && forall p :: Owners(r.value, p) == if p in objs then {heir} else Owners(t, p)
  {
    if objs != [] {
      var front, o := objs[..|objs| - 1], objs[|objs| - 1];
      MovedOwners(t, supers, heir, u, front);
      assert o !in front;
      assert Owners(t, o) == {u};
      MoveOwners(Moved(t, supers, heir, u, front).value, supers, heir, u, o);
      OneMoved(objs);
    }
  }

  lemma OneMoved(objs: seq<Object>)
    requires objs != []
    ensures forall p :: p in objs <==> p in objs[..|objs| - 1] || p == objs[|objs| - 1]
  {
    assert objs == objs[..|objs| - 1] + [objs[|objs| - 1]];
  }

  /** The row of `key` is in both tables with the same value, or in neither. */
  predicate SameRow(t: Table, t': Table, key: (User, Object)) {
    (key in t' <==> key in t) && (key in t ==> t'[key] == t[key])
  }

  /** The rows of an object after it went from `u` to the heir: `u`'s row is gone, every other row
      is still there, the heir has one, and so has each superuser when the heir's is new; the heir
      owns the object and nobody else does. */
  predicate HandedRow(t: Table, t': Table, supers: seq<User>, heir: User, u: User, v: User, o: Object) {
    && ((v, o) in t' <==> v != u && ((v, o) in t || v == heir || ((heir, o) !in t && v in supers)))
    && ((v, o) in t' ==> t'[(v, o)] == (v == heir))
  }

  lemma GrantedKeeps(t: Table, supers: seq<User>, u: User, o: Object, owner: bool, key: (User, Object))
    ensures key.1 != o ==> SameRow(t, Granted(t, supers, u, o, owner), key)
  {
    GrantedRow(t, supers, u, o, owner, key.0, key.1);
  }

  /** Some user other than `u` owns the object. */
  predicate OwnedByOther(t: Table, u: User, o: Object) {
    exists key :: key in t && key.1 == o && key.0 != u && t[key]
  }

  lemma OwnersLeft(t: Table, u: User, o: Object)
    ensures Owners(t - {(u, o)}, o) == {} <==> !OwnedByOther(t, u, o)
  {
    RemovedOwners(t, o, u);
    if OwnedByOther(t, u, o) {
      var key :| key in t && key.1 == o && key.0 != u && t[key];
      OwnersMember(t, o, key.0);
      assert key.0 in Owners(t, o) - {u};
    } else {
      forall x ensures x !in Owners(t, o) - {u} {
        OwnersMember(t, o, x);
      }
    }
  }

  /** The row of `v` after `u`'s access to `o` went and nobody owned it any more: the first superuser
      owns it, and if its row is new the other superusers get one as well. */
  predicate FallenRow(t: Table, t': Table, supers: seq<User>, u: User, v: User, o: Object)
    requires supers != []
  {
    var heir := supers[0];
    && ((v, o) in t' <==> v == heir || (v != u && (v, o) in t) || ((heir == u || (heir, o) !in t) && v in supers))
    && ((v, o) in t' ==> t'[(v, o)] == (v == heir))
  }

  /** Ungranting removes one row and keeps every other while somebody else owns the object;
      otherwise ownership falls to the first superuser. */
  lemma UngrantedRow(t: Table, supers: seq<User>, o: Object, u: User, v: User, p: Object)
    requires Ungranted(t, supers, o, u).Some?
    ensures var r := Ungranted(t, supers, o, u).value;
            if p == o && !OwnedByOther(t, u, o) then supers != [] && FallenRow(t, r, supers, u, v, o)
            else if (v, p) == (u, o) then (v, p) !in r
            else SameRow(t, r, (v, p))
  {
    var left := t - {(u, o)};
    OwnersLeft(t, u, o);
    if !OwnedByOther(t, u, o) {
      GrantedRow(left, supers, supers[0], o, true, v, p);
      GrantedKeeps(left, supers, supers[0], o, true, (v, p));
    }
  }

  lemma OwnersAtMost(t: Table, o: Object, u: User, v: User)
    requires Owners(t, o) == {u}
    ensures Owns(t, v, o) <==> v == u
  {
    OwnersMember(t, o, v);
  }

  lemma MoveRow(t: Table, supers: seq<User>, heir: User, u: User, o: Object, v: User, p: Object)
    requires Owners(t, o) == {u} && heir != u
    ensures var t' := Granted(t, supers, heir, o, true) - {(u, o)};
            if p == o then HandedRow(t, t', supers, heir, u, v, o) else SameRow(t, t', (v, p))
  {
    OwnersAtMost(t, o, u, v);
    GrantedRow(t, supers, heir, o, true, v, p);
  }

  /** Every row of the table after the objects moved. */
  lemma {:induction false} MovedRow(t: Table, supers: seq<User>, heir: User, u: User, objs: seq<Object>,
                                    v: User, p: Object)
    requires heir != u
    requires forall i :: 0 <= i < |objs| ==> Owners(t, objs[i]) == {u}
    requires forall i, j :: 0 <= i < j < |objs| ==> objs[i] != objs[j]
    ensures var r := Moved(t, supers, heir, u, objs);
            && r.Some?
            && (if p in objs then HandedRow(t, r.value, supers, heir, u, v, p) else SameRow(t, r.value, (v, p)))
  {
    MovedOwners(t, supers, heir, u, objs);
    if objs != [] {
      var front, o := objs[..|objs| - 1], objs[|objs| - 1];
      MovedOwners(t, supers, heir, u, front);
      assert o !in front;
      var before := Moved(t, supers, heir, u, front).value;
      MovedRow(t, supers, heir, u, front, v, p);
      MovedRow(t, supers, heir, u, front, heir, p);
      OneMoved(objs);
      MoveOwners(before, supers, heir, u, o);
      MoveRow(before, supers, heir, u, o, v, p);
    }
  }
}
