/**
 Reconciling the e-mail addresses of a contact with a requested list
 (`update_emails` in modoboa/contacts/serializers.py; `update_phone_numbers` is the same
 procedure over numbers): rows are matched by address, kept, retyped, created and deleted.
 */
module Contacts {
  import opened Text

  datatype Entry = Entry(address: string, kind: string)

  /** A row as the ORM hands it out. */
  datatype Row = Row(pk: nat, entry: Entry)

  /** The rows kept (with their final type), the rows deleted, the entries created. */
  datatype Plan = Plan(kept: seq<Row>, left: seq<Row>, created: seq<Entry>)

  /** Index of the first row with this address; |rows| if there is none. */
  function IndexOf(rows: seq<Row>, address: string): (n: nat)
    ensures n <= |rows|
    ensures n < |rows| ==> rows[n].entry.address == address
    ensures forall i :: 0 <= i < n ==> rows[i].entry.address != address
  {
    if rows == [] || rows[0].entry.address == address then 0 else 1 + IndexOf(rows[1..], address)
  }

  function Removed<T>(s: seq<T>, i: nat): seq<T>
    requires i < |s|
  {
    s[..i] + s[i + 1..]
  }

  function Keep(row: Row, rest: Plan): Plan {
    rest.(kept := [row] + rest.kept)
  }

  function Create(e: Entry, rest: Plan): Plan {
    rest.(created := [e] + rest.created)
  }

  /** What the loop decides. */
  function Reconcile(stored: seq<Row>, requested: seq<Entry>): Plan
    decreases |requested|
  {
    if requested == [] then Plan([], stored, [])
    else
      var e := requested[0];
      var i := IndexOf(stored, e.address);
      if i == |stored| then Create(e, Reconcile(stored, requested[1..]))
      else Keep(Row(stored[i].pk, e), Reconcile(Removed(stored, i), requested[1..]))
  }

  // ---------------------------------------------------------------- bags

  function Bag<A, T>(s: seq<A>, f: A -> T): multiset<T> {
    if s == [] then multiset{} else multiset{f(s[0])} + Bag(s[1..], f)
  }

  function EntryOf(r: Row): Entry { r.entry }
  function AddressOf(r: Row): string { r.entry.address }
  function PkOf(r: Row): nat { r.pk }
  function Address(e: Entry): string { e.address }
  function Itself(e: Entry): Entry { e }

  /** The identity of a row and the address it must not lose. */
  function KeyOf(r: Row): (nat, string) { (r.pk, r.entry.address) }

  lemma {:induction false} BagTake<A, T>(s: seq<A>, i: nat, f: A -> T)
    requires i < |s|
    ensures Bag(s, f) == multiset{f(s[i])} + Bag(Removed(s, i), f)
  {
    if i == 0 {
      assert Removed(s, 0) == s[1..];
    } else {
      BagTake(s[1..], i - 1, f);
      assert Removed(s, i)[0] == s[0] && Removed(s, i)[1..] == Removed(s[1..], i - 1);
      BagSwap(f(s[0]), f(s[i]), Bag(Removed(s[1..], i - 1), f));
    }
  }

  lemma BagSwap<T>(x: T, y: T, m: multiset<T>)
    ensures multiset{x} + (multiset{y} + m) == multiset{y} + (multiset{x} + m)
  {
  }

  lemma {:induction false} BagConcat<A, T>(a: seq<A>, b: seq<A>, f: A -> T)
    ensures Bag(a + b, f) == Bag(a, f) + Bag(b, f)
  {
    if a == [] {
      assert a + b == b;
    } else {
      assert (a + b)[0] == a[0] && (a + b)[1..] == a[1..] + b;
      BagConcat(a[1..], b, f);
    }
  }

  lemma BagPush<A, T>(x: A, s: seq<A>, f: A -> T)
    ensures Bag([x] + s, f) == multiset{f(x)} + Bag(s, f)
  {
    assert ([x] + s)[1..] == s;
  }

  lemma {:induction false} BagHas<A, T>(s: seq<A>, i: nat, f: A -> T)
    requires i < |s|
    ensures f(s[i]) in Bag(s, f)
  {
    BagTake(s, i, f);
  }

  lemma {:induction false} BagLacks(s: seq<Row>, address: string)
    requires IndexOf(s, address) == |s|
    ensures address !in Bag(s, AddressOf)
  {
    if s != [] {
      BagLacks(s[1..], address);
    }
  }

  // ---------------------------------------------------------------- what the plan achieves

  lemma Requested1<T>(x: T, a: multiset<T>, b: multiset<T>, c: multiset<T>)
    requires a + b == c
    ensures (multiset{x} + a) + b == multiset{x} + c && a + (multiset{x} + b) == multiset{x} + c
  {
  }

  /** The final addresses, types included and duplicates counted, are the requested ones. */
  lemma {:induction false} FinalEntries(stored: seq<Row>, requested: seq<Entry>)
    ensures var p := Reconcile(stored, requested);
            Bag(p.kept, EntryOf) + Bag(p.created, Itself) == Bag(requested, Itself)
    decreases |requested|
  {
    if requested != [] {
      var e, i := requested[0], IndexOf(stored, requested[0].address);
      if i == |stored| {
        var rest := Reconcile(stored, requested[1..]);
        FinalEntries(stored, requested[1..]);
        BagPush(e, rest.created, Itself);
        Requested1(e, Bag(rest.kept, EntryOf), Bag(rest.created, Itself), Bag(requested[1..], Itself));
      } else {
        var rest := Reconcile(Removed(stored, i), requested[1..]);
        FinalEntries(Removed(stored, i), requested[1..]);
        BagPush(Row(stored[i].pk, e), rest.kept, EntryOf);
        Requested1(e, Bag(rest.kept, EntryOf), Bag(rest.created, Itself), Bag(requested[1..], Itself));
      }
    }
  }

  /** Every stored row is kept under its own key and address, or deleted; none is both. */
  lemma {:induction false} RowsAreSplit(stored: seq<Row>, requested: seq<Entry>)
    ensures var p := Reconcile(stored, requested);
            Bag(p.kept, KeyOf) + Bag(p.left, KeyOf) == Bag(stored, KeyOf)
    decreases |requested|
  {
    if requested != [] {
      var i := IndexOf(stored, requested[0].address);
      if i == |stored| {
        RowsAreSplit(stored, requested[1..]);
      } else {
        var rest := Reconcile(Removed(stored, i), requested[1..]);
        var row := Row(stored[i].pk, requested[0]);
        RowsAreSplit(Removed(stored, i), requested[1..]);
        BagPush(row, rest.kept, KeyOf);
        BagTake(stored, i, KeyOf);
        Requested1(KeyOf(row), Bag(rest.kept, KeyOf), Bag(rest.left, KeyOf), Bag(Removed(stored, i), KeyOf));
      }
    }
  }

  lemma MeetMore<T>(x: T, a: multiset<T>, b: multiset<T>)
    ensures (multiset{x} + a) * (multiset{x} + b) == multiset{x} + a * b
    ensures x !in a ==> a * (multiset{x} + b) == a * b
  {
  }

  /** For each address, min(stored, requested) rows are kept: the multiset intersection. */
  lemma {:induction false} KeptAddresses(stored: seq<Row>, requested: seq<Entry>)
    ensures Bag(Reconcile(stored, requested).kept, AddressOf) == Bag(stored, AddressOf) * Bag(requested, Address)
    decreases |requested|
  {
    if requested != [] {
      var a := requested[0].address;
      var i := IndexOf(stored, a);
      if i == |stored| {
        KeptAddresses(stored, requested[1..]);
        BagLacks(stored, a);
        MeetMore(a, Bag(stored, AddressOf), Bag(requested[1..], Address));
      } else {
        var rest := Reconcile(Removed(stored, i), requested[1..]);
        KeptAddresses(Removed(stored, i), requested[1..]);
        BagPush(Row(stored[i].pk, requested[0]), rest.kept, AddressOf);
        BagTake(stored, i, AddressOf);
        MeetMore(a, Bag(Removed(stored, i), AddressOf), Bag(requested[1..], Address));
      }
    }
  }

  // ------------------------------------------------------------- fewest changes

  /** A way of answering the request: every stored row is kept under its own key and address or
      deleted, and what is kept and created is what was requested. */
  predicate Answers(p: Plan, stored: seq<Row>, requested: seq<Entry>) {
    && Bag(p.kept, KeyOf) + Bag(p.left, KeyOf) == Bag(stored, KeyOf)
    && Bag(p.kept, EntryOf) + Bag(p.created, Itself) == Bag(requested, Itself)
  }

  lemma {:induction false} BagSize<A, T>(s: seq<A>, f: A -> T)
    ensures |Bag(s, f)| == |s|
  {
    if s != [] {
      BagSize(s[1..], f);
    }
  }

  lemma {:induction false} BagFind<A, T>(s: seq<A>, f: A -> T, x: T) returns (i: nat)
    requires x in Bag(s, f)
    ensures i < |s| && f(s[i]) == x
  {
    if f(s[0]) == x {
      return 0;
    }
    i := BagFind(s[1..], f, x);
    i := i + 1;
  }

  lemma BagCancel<T>(x: T, a: multiset<T>, b: multiset<T>)
    requires multiset{x} + a == multiset{x} + b
    ensures a == b
  {
    assert a == (multiset{x} + a) - multiset{x} && b == (multiset{x} + b) - multiset{x};
  }

  /** Equal bags stay equal under a coarser view of the elements. */
  lemma {:induction false} BagCoarser<A(!new), T, U>(a: seq<A>, b: seq<A>, f: A -> T, g: A -> U)
    requires Bag(a, f) == Bag(b, f)
    requires forall x: A, y: A :: f(x) == f(y) ==> g(x) == g(y)
    ensures Bag(a, g) == Bag(b, g)
    decreases |a|
  {
    if a == [] {
      BagSize(b, f);
    } else {
      var i := BagFind(b, f, f(a[0]));
      BagTake(b, i, f);
      BagTake(b, i, g);
      BagCancel(f(a[0]), Bag(a[1..], f), Bag(Removed(b, i), f));
      BagCoarser(a[1..], Removed(b, i), f, g);
    }
  }

  function Entries(rows: seq<Row>): seq<Entry> {
    if rows == [] then [] else [rows[0].entry] + Entries(rows[1..])
  }

  lemma {:induction false} EntriesBags(rows: seq<Row>)
    ensures Bag(Entries(rows), Itself) == Bag(rows, EntryOf)
    ensures Bag(Entries(rows), Address) == Bag(rows, AddressOf)
  {
    if rows != [] {
      EntriesBags(rows[1..]);
      BagPush(rows[0].entry, Entries(rows[1..]), Itself);
      BagPush(rows[0].entry, Entries(rows[1..]), Address);
    }
  }

  /** What is kept is stored, address by address. */
  lemma KeptWasStored(p: Plan, stored: seq<Row>)
    requires Bag(p.kept, KeyOf) + Bag(p.left, KeyOf) == Bag(stored, KeyOf)
    ensures Bag(p.kept, AddressOf) <= Bag(stored, AddressOf) && |p.kept| + |p.left| == |stored|
  {
    BagConcat(p.kept, p.left, KeyOf);
    BagConcat(p.kept, p.left, AddressOf);
    BagCoarser(p.kept + p.left, stored, KeyOf, AddressOf);
    BagSize(p.kept + p.left, KeyOf);
    BagSize(stored, KeyOf);
  }

  /** What is kept is requested, address by address. */
  lemma KeptWasRequested(p: Plan, requested: seq<Entry>)
    requires Bag(p.kept, EntryOf) + Bag(p.created, Itself) == Bag(requested, Itself)
    ensures Bag(p.kept, AddressOf) <= Bag(requested, Address) && |p.kept| + |p.created| == |requested|
  {
    var all := Entries(p.kept) + p.created;
    EntriesBags(p.kept);
    BagConcat(Entries(p.kept), p.created, Itself);
    BagConcat(Entries(p.kept), p.created, Address);
    BagCoarser(all, requested, Itself, Address);
    BagSize(p.kept, EntryOf);
    BagSize(p.created, Itself);
    BagSize(requested, Itself);
  }

  lemma MeetIsLargest<T>(k: multiset<T>, a: multiset<T>, b: multiset<T>)
    requires k <= a && k <= b
    ensures |k| <= |a * b|
  {
    assert k <= a * b;
    assert a * b == k + (a * b - k);
  }

  lemma KeepsMost(p: Plan, stored: seq<Row>, requested: seq<Entry>)
    requires Answers(p, stored, requested)
    ensures |p.kept| <= |Reconcile(stored, requested).kept|
  {
    KeptWasStored(p, stored);
    KeptWasRequested(p, requested);
    KeptAddresses(stored, requested);
    MeetIsLargest(Bag(p.kept, AddressOf), Bag(stored, AddressOf), Bag(requested, Address));
    BagSize(p.kept, AddressOf);
    BagSize(Reconcile(stored, requested).kept, AddressOf);
  }

  /** The loop's plan answers the request, and no other answer deletes or creates fewer rows. */
  lemma FewestChanges(p: Plan, stored: seq<Row>, requested: seq<Entry>)
    ensures Answers(Reconcile(stored, requested), stored, requested)
    ensures Answers(p, stored, requested) ==>
              && |Reconcile(stored, requested).left| <= |p.left|
              && |Reconcile(stored, requested).created| <= |p.created|
  {
    var q := Reconcile(stored, requested);
    FinalEntries(stored, requested);
    RowsAreSplit(stored, requested);
    KeptWasStored(q, stored);
    KeptWasRequested(q, requested);
    if Answers(p, stored, requested) {
      KeepsMost(p, stored, requested);
      KeptWasStored(p, stored);
      KeptWasRequested(p, requested);
    }
  }

  // ---------------------------------------------------------------- the table

  /** A row of the table, which holds the addresses of every contact. */
  datatype Stored = Stored(contact: nat, entry: Entry)

  ghost predicate Distinct(rows: seq<Row>) {
    forall pk: nat {:trigger Bag(rows, PkOf)[pk]} :: Bag(rows, PkOf)[pk] <= 1
  }

  predicate Holds(table: map<nat, Stored>, contact: nat, r: Row) {
    r.pk in table && table[r.pk] == Stored(contact, r.entry)
  }

  /** `rows` are the rows of `contact`, in some order. */
  ghost predicate Listed(table: map<nat, Stored>, contact: nat, rows: seq<Row>) {
    Distinct(rows) && forall r: Row :: r in rows <==> Holds(table, contact, r)
  }

  /** The rows of other contacts are the same before and after. */
  ghost predicate Elsewhere(before: map<nat, Stored>, after: map<nat, Stored>, contact: nat) {
    forall pk: nat {:trigger pk in before} {:trigger pk in after} ::
      || (pk in before && pk in after && before[pk] == after[pk])
      || (pk !in before && pk !in after)
      || ((pk in before ==> before[pk].contact == contact) && (pk in after ==> after[pk].contact == contact))
  }

  /** Keys handed out by the database one after the other. */
  function Numbered(entries: seq<Entry>, first: nat): seq<Row> {
    if entries == [] then [] else [Row(first, entries[0])] + Numbered(entries[1..], first + 1)
  }

  /** The rows of the contact afterwards: the kept ones, then the created ones. */
  function Final(stored: seq<Row>, requested: seq<Entry>, nextPk: nat): seq<Row> {
    var plan := Reconcile(stored, requested);
    plan.kept + Numbered(plan.created, nextPk)
  }

  lemma {:induction false} NumberedEntries(entries: seq<Entry>, first: nat)
    ensures Bag(Numbered(entries, first), EntryOf) == Bag(entries, Itself)
  {
    if entries != [] {
      NumberedEntries(entries[1..], first + 1);
      BagPush(Row(first, entries[0]), Numbered(entries[1..], first + 1), EntryOf);
    }
  }

  /** The contact ends up with exactly the requested (address, type) pairs, repetitions counted. */
  lemma FinalIsRequested(stored: seq<Row>, requested: seq<Entry>, nextPk: nat)
    ensures Bag(Final(stored, requested, nextPk), EntryOf) == Bag(requested, Itself)
  {
    var plan := Reconcile(stored, requested);
    BagConcat(plan.kept, Numbered(plan.created, nextPk), EntryOf);
    NumberedEntries(plan.created, nextPk);
    FinalEntries(stored, requested);
  }

  lemma KeyTwice(rows: seq<Row>, i: nat, r: Row)
    requires i < |rows| && r in Removed(rows, i) && r.pk == rows[i].pk
    ensures Bag(rows, PkOf)[r.pk] >= 2
  {
    BagTake(rows, i, PkOf);
    var j :| 0 <= j < |Removed(rows, i)| && Removed(rows, i)[j] == r;
    BagHas(Removed(rows, i), j, PkOf);
  }

  lemma RemovedHas(rows: seq<Row>, i: nat, r: Row)
    requires i < |rows| && Distinct(rows)
    ensures r in Removed(rows, i) <==> r in rows && r.pk != rows[i].pk
  {
    if r in Removed(rows, i) && r.pk == rows[i].pk {
      KeyTwice(rows, i, r);
    } else if r in rows && r.pk != rows[i].pk {
      var j :| 0 <= j < |rows| && rows[j] == r;
      assert j < i ==> Removed(rows, i)[j] == r;
      assert j > i ==> Removed(rows, i)[j - 1] == r;
    }
  }

  lemma KeysKept(kept: seq<Row>, local: seq<Row>, i: nat, r: Row)
    requires i < |local| && r.pk == local[i].pk
    ensures Bag(kept + [r] + Removed(local, i), PkOf) == Bag(kept + local, PkOf)
  {
    var rest := Removed(local, i);
    KeysPushed(kept, r, rest);
    BagConcat(kept, local, PkOf);
    BagTake(local, i, PkOf);
  }

  lemma KeysPushed(kept: seq<Row>, r: Row, rest: seq<Row>)
    ensures Bag(kept + [r] + rest, PkOf) == Bag(kept, PkOf) + (multiset{r.pk} + Bag(rest, PkOf))
  {
    BagConcat(kept, [r] + rest, PkOf);
    BagPush(r, rest, PkOf);
    ConcatThree(kept, [r], rest);
  }

  lemma Moved(kept: seq<Row>, local: seq<Row>, i: nat)
    requires i < |local|
    ensures Removed(kept + local, |kept| + i) == kept + Removed(local, i)
  {
  }

  /** Saving row `i` of the local list under its new entry. */
  lemma SavedListing(table: map<nat, Stored>, contact: nat, kept: seq<Row>, local: seq<Row>, i: nat, e: Entry)
    requires i < |local| && Listed(table, contact, kept + local)
    ensures Listed(table[local[i].pk := Stored(contact, e)], contact,
                   kept + [Row(local[i].pk, e)] + Removed(local, i))
  {
    var r := Row(local[i].pk, e);
    var after := table[r.pk := Stored(contact, e)];
    var all, rows := kept + local, kept + [r] + Removed(local, i);
    KeysKept(kept, local, i, r);
    Moved(kept, local, i);
    forall x: Row
      ensures x in rows <==> Holds(after, contact, x)
    {
      RemovedHas(all, |kept| + i, x);
      assert x in rows <==> x == r || x in Removed(all, |kept| + i);
    }
  }

  lemma SavedElsewhere(before: map<nat, Stored>, table: map<nat, Stored>, contact: nat, rows: seq<Row>, r: Row)
    requires Elsewhere(before, table, contact) && Listed(table, contact, rows) && r in rows
    ensures forall e: Entry :: Elsewhere(before, table[r.pk := Stored(contact, e)], contact)
  {
    assert Holds(table, contact, r);
  }

  lemma DeletedListing(table: map<nat, Stored>, contact: nat, kept: seq<Row>, left: seq<Row>, pks: set<nat>)
    requires Listed(table, contact, kept + left)
    requires forall pk :: pk in pks <==> pk in Bag(left, PkOf)
    ensures Listed(table - pks, contact, kept)
  {
    BagConcat(kept, left, PkOf);
    forall pk: nat
      ensures Bag(kept, PkOf)[pk] <= 1
    {
      assert Bag(kept + left, PkOf)[pk] <= 1;
    }
    forall x: Row
      ensures x in kept <==> Holds(table - pks, contact, x)
    {
      assert x in kept + left <==> Holds(table, contact, x);
      if x in kept {
        var j :| 0 <= j < |kept| && kept[j] == x;
        BagHas(kept, j, PkOf);
        assert Bag(kept + left, PkOf)[x.pk] <= 1;
      } else if x in left {
        var j :| 0 <= j < |left| && left[j] == x;
        BagHas(left, j, PkOf);
      }
    }
  }

  lemma {:induction false} BagMember(rows: seq<Row>, pk: nat)
    requires pk in Bag(rows, PkOf)
    ensures exists i :: 0 <= i < |rows| && rows[i].pk == pk
  {
    if rows[0].pk != pk {
      BagMember(rows[1..], pk);
      var i :| 0 <= i < |rows[1..]| && rows[1..][i].pk == pk;
      assert rows[i + 1].pk == pk;
    }
  }

  lemma ListedKey(table: map<nat, Stored>, contact: nat, rows: seq<Row>, pk: nat)
    requires Listed(table, contact, rows) && pk in Bag(rows, PkOf)
    ensures pk in table && table[pk].contact == contact
  {
    BagMember(rows, pk);
    var i :| 0 <= i < |rows| && rows[i].pk == pk;
    assert Holds(table, contact, rows[i]);
  }

  lemma PushedDistinct(rows: seq<Row>, r: Row)
    requires Distinct(rows) && r.pk !in Bag(rows, PkOf)
    ensures Distinct(rows + [r])
  {
    BagConcat(rows, [r], PkOf);
    BagPush(r, [], PkOf);
    assert [r] == [r] + [];
    forall pk: nat
      ensures Bag(rows + [r], PkOf)[pk] <= 1
    {
      assert Bag(rows, PkOf)[pk] <= 1;
    }
  }

  lemma CreatedListing(table: map<nat, Stored>, contact: nat, rows: seq<Row>, r: Row)
    requires Listed(table, contact, rows) && r.pk !in table
    ensures Listed(table[r.pk := Stored(contact, r.entry)], contact, rows + [r])
  {
    var after := table[r.pk := Stored(contact, r.entry)];
    if r.pk in Bag(rows, PkOf) {
      ListedKey(table, contact, rows, r.pk);
    }
    PushedDistinct(rows, r);
    forall x: Row
      ensures x in rows + [r] <==> Holds(after, contact, x)
    {
      assert x in rows <==> Holds(table, contact, x);
    }
  }

  // ---------------------------------------------------------------- the loop

  lemma FollowsStart(listing: seq<Row>, emails: seq<Entry>)
    ensures Follows(Reconcile(listing, emails), [], [], Reconcile(listing, emails[0..])) && [] + listing == listing
  {
    assert emails[0..] == emails;
    StartsEmpty(Reconcile(listing, emails));
  }

  lemma StartsEmpty(plan: Plan)
    ensures Follows(plan, [], [], plan)
  {
    assert [] + plan.kept == plan.kept && [] + plan.created == plan.created;
  }

  /** One more entry is dealt with. */
  lemma FollowsMore(plan: Plan, kept: seq<Row>, created: seq<Entry>, local: seq<Row>, requested: seq<Entry>, i: nat)
    requires requested != [] && i == IndexOf(local, requested[0].address)
    requires Follows(plan, kept, created, Reconcile(local, requested))
    ensures i == |local| ==> Follows(plan, kept, created + [requested[0]], Reconcile(local, requested[1..]))
    ensures i < |local| ==>
              Follows(plan, kept + [Row(local[i].pk, requested[0])], created,
                      Reconcile(Removed(local, i), requested[1..]))
  {
    var e := requested[0];
    if i == |local| {
      ConcatThree(created, [e], Reconcile(local, requested[1..]).created);
    } else {
      ConcatThree(kept, [Row(local[i].pk, e)], Reconcile(Removed(local, i), requested[1..]).kept);
    }
  }

  lemma FollowsEnd(plan: Plan, kept: seq<Row>, created: seq<Entry>, local: seq<Row>, requested: seq<Entry>)
    requires |requested| == 0 && Follows(plan, kept, created, Reconcile(local, requested))
    ensures plan.kept == kept && plan.left == local && plan.created == created
  {
    assert requested == [];
  }

  class EmailTable {
    var rows: map<nat, Stored>
    var nextPk: nat

    ghost predicate Valid()
      reads this
    {
      forall pk :: pk in rows ==> pk < nextPk
    }

    /** `email.save()`. */
    method Save(contact: nat, ghost before: map<nat, Stored>, ghost kept: seq<Row>, local: seq<Row>, i: nat, e: Entry)
      requires i < |local| && Valid() && Listed(rows, contact, kept + local)
      requires Elsewhere(before, rows, contact) && local[i].entry.address == e.address
      modifies this`rows
      ensures Valid() && Listed(rows, contact, kept + [Row(local[i].pk, e)] + Removed(local, i))
      ensures rows == old(rows)[local[i].pk := Stored(contact, e)]
      ensures Elsewhere(before, rows, contact)
    {
      SavedListing(rows, contact, kept, local, i, e);
      assert local[i] in kept + local by { assert (kept + local)[|kept| + i] == local[i]; }
      assert Holds(rows, contact, local[i]);
      SavedElsewhere(before, rows, contact, kept + local, local[i]);
      if local[i].entry.kind != e.kind || local[i].entry.address != e.address {
        rows := rows[local[i].pk := Stored(contact, e)];
      }
    }

    /** Deletes the rows that nothing asked for. */
    method DeleteAll(contact: nat, ghost before: map<nat, Stored>, ghost kept: seq<Row>, left: seq<Row>)
      requires Valid() && Listed(rows, contact, kept + left) && Elsewhere(before, rows, contact)
      modifies this`rows
      ensures Valid() && Listed(rows, contact, kept) && Elsewhere(before, rows, contact)
    {
      var pks := set r | r in left :: r.pk;
      LeftKeys(left, pks);
      DeletedListing(rows, contact, kept, left, pks);
      DeletedElsewhere(before, rows, contact, kept, left, pks);
      rows := rows - pks;
    }

    /** `bulk_create`. */
    method BulkCreate(contact: nat, ghost before: map<nat, Stored>, ghost kept: seq<Row>, created: seq<Entry>)
      requires Valid() && Listed(rows, contact, kept) && Elsewhere(before, rows, contact)
      requires forall pk :: pk in before ==> pk < nextPk
      modifies this
      ensures Valid() && Listed(rows, contact, kept + Numbered(created, old(nextPk)))
      ensures Elsewhere(before, rows, contact)
    {
      ghost var first := nextPk;
      ghost var made: seq<Row> := [];
      var i := 0;
      assert kept + made == kept;
      while i < |created|
        invariant 0 <= i <= |created| && first <= nextPk && Valid()
        invariant Numbered(created, first) == made + Numbered(created[i..], nextPk)
        invariant Listed(rows, contact, kept + made)
        invariant Elsewhere(before, rows, contact)
      {
        CreatedListing(rows, contact, kept + made, Row(nextPk, created[i]));
        NumberedStep(made, created, i, nextPk);
        assert kept + made + [Row(nextPk, created[i])] == kept + (made + [Row(nextPk, created[i])]);
        made := made + [Row(nextPk, created[i])];
        rows := rows[nextPk := Stored(contact, created[i])];
        nextPk := nextPk + 1;
        i := i + 1;
      }
      assert made + [] == made;
    }

    /** One round of the loop: the entry is matched with the first local row at its address, which
        leaves the parallel lists, or it is put aside for creation. */
    method Match(contact: nat, ghost before: map<nat, Stored>, ghost plan: Plan, ghost kept: seq<Row>,
                 localAddresses: seq<string>, localObjects: seq<Row>, toCreate: seq<Entry>, e: Entry,
                 ghost rest: seq<Entry>)
      returns (addresses: seq<string>, objects: seq<Row>, created: seq<Entry>, ghost done: seq<Row>)
      requires Valid() && SameAddresses(localAddresses, localObjects) && rest != [] && rest[0] == e
      requires Follows(plan, kept, toCreate, Reconcile(localObjects, rest))
      requires Listed(rows, contact, kept + localObjects) && Elsewhere(before, rows, contact)
      modifies this`rows
      ensures Valid() && SameAddresses(addresses, objects)
      ensures Follows(plan, done, created, Reconcile(objects, rest[1..]))
      ensures Listed(rows, contact, done + objects) && Elsewhere(before, rows, contact)
    {
      var index := Index(localAddresses, e.address);
      AddressIndex(localAddresses, localObjects, e.address);
      FollowsMore(plan, kept, toCreate, localObjects, rest, index);
      if index == |localAddresses| {
        return localAddresses, localObjects, toCreate + [e], kept;
      }
      Save(contact, before, kept, localObjects, index, e);
      RemovedSame(localAddresses, localObjects, index);
      return Removed(localAddresses, index), Removed(localObjects, index), toCreate,
             kept + [Row(localObjects[index].pk, e)];
    }

    /** `listing` is the order in which the database returns the rows of the contact. */
    method UpdateEmails(contact: nat, listing: seq<Row>, emails: seq<Entry>)
      requires Valid() && Listed(rows, contact, listing)
      modifies this
      ensures Valid()
      ensures Listed(rows, contact, Final(listing, emails, old(nextPk)))
      ensures Bag(Final(listing, emails, old(nextPk)), EntryOf) == Bag(emails, Itself)
      ensures Elsewhere(old(rows), rows, contact)
    {
      FinalIsRequested(listing, emails, nextPk);
      var localAddresses := seq(|listing|, k requires 0 <= k < |listing| => listing[k].entry.address);
      var localObjects := listing;
      var toCreate: seq<Entry> := [];
      ghost var kept: seq<Row> := [];
      ghost var plan := Reconcile(listing, emails);
      FollowsStart(listing, emails);
      var n := 0;
      while n < |emails|
        invariant 0 <= n <= |emails| && Valid() && nextPk == old(nextPk)
        invariant SameAddresses(localAddresses, localObjects)
        invariant Follows(plan, kept, toCreate, Reconcile(localObjects, emails[n..]))
        invariant Listed(rows, contact, kept + localObjects)
        invariant Elsewhere(old(rows), rows, contact)
      {
        ghost var rest := emails[n..];
        assert rest[0] == emails[n] && rest[1..] == emails[n + 1..];
        localAddresses, localObjects, toCreate, kept :=
          Match(contact, old(rows), plan, kept, localAddresses, localObjects, toCreate, emails[n], rest);
        n := n + 1;
      }
      FollowsEnd(plan, kept, toCreate, localObjects, emails[n..]);
      DeleteAll(contact, old(rows), kept, localObjects);
      BulkCreate(contact, old(rows), kept, toCreate);
    }
  }

  /** `list.index`, |addresses| for an address that is not in the list. */
  function Index(addresses: seq<string>, address: string): (n: nat)
    ensures n <= |addresses|
    ensures n < |addresses| ==> addresses[n] == address
    ensures forall i :: 0 <= i < n ==> addresses[i] != address
  {
    if addresses == [] || addresses[0] == address then 0 else 1 + Index(addresses[1..], address)
  }

  /** The two parallel lists describe the same rows. */
  predicate SameAddresses(addresses: seq<string>, rows: seq<Row>) {
    |addresses| == |rows| && forall i :: 0 <= i < |rows| ==> addresses[i] == rows[i].entry.address
  }

  lemma AddressIndex(addresses: seq<string>, rows: seq<Row>, address: string)
    requires SameAddresses(addresses, rows)
    ensures Index(addresses, address) == IndexOf(rows, address)
  {
    var i, j := Index(addresses, address), IndexOf(rows, address);
    assert i < |rows| ==> addresses[i] == rows[i].entry.address;
    assert j < |rows| ==> addresses[j] == rows[j].entry.address;
  }

  lemma RemovedSame(addresses: seq<string>, rows: seq<Row>, i: nat)
    requires SameAddresses(addresses, rows) && i < |rows|
    ensures SameAddresses(Removed(addresses, i), Removed(rows, i))
  {
  }

  /** `plan` is what was done so far followed by `rest`. */
  predicate Follows(plan: Plan, kept: seq<Row>, created: seq<Entry>, rest: Plan) {
    plan.kept == kept + rest.kept && plan.left == rest.left && plan.created == created + rest.created
  }

  lemma LeftKeys(left: seq<Row>, pks: set<nat>)
    requires pks == set r | r in left :: r.pk
    ensures forall pk :: pk in pks <==> pk in Bag(left, PkOf)
  {
    forall pk: nat
      ensures pk in pks <==> pk in Bag(left, PkOf)
    {
      if pk in pks {
        var i :| 0 <= i < |left| && left[i].pk == pk;
        BagHas(left, i, PkOf);
      } else if pk in Bag(left, PkOf) {
        BagMember(left, pk);
      }
    }
  }

  lemma DeletedElsewhere(before: map<nat, Stored>, table: map<nat, Stored>, contact: nat, kept: seq<Row>,
                         left: seq<Row>, pks: set<nat>)
    requires Listed(table, contact, kept + left) && Elsewhere(before, table, contact)
    requires pks == set r | r in left :: r.pk
    ensures Elsewhere(before, table - pks, contact)
  {
    forall pk | pk in pks
      ensures pk in table && table[pk].contact == contact
    {
      var r :| r in left && r.pk == pk;
      assert r in kept + left;
      assert Holds(table, contact, r);
    }
  }

  lemma NumberedStep(made: seq<Row>, created: seq<Entry>, i: nat, pk: nat)
    requires i < |created|
    ensures made + Numbered(created[i..], pk) == (made + [Row(pk, created[i])]) + Numbered(created[i + 1..], pk + 1)
  {
    assert created[i..][1..] == created[i + 1..];
  }
}
