/**
 Deleting a mailbox, for any order of the handler's loop and with aliases as recipients of
 aliases: which rows and aliases are left, and exactly when some alias is left empty.
 */
module AliasDeletion {
  import opened Text
  import opened AliasTables

  // ------------------------------------------------------- the loop, step by step

  /** Every recipient of the alias is the mailbox. */
  predicate OnlyMailbox(t: Tables, m: Id, a: Id) {
    forall r :: r in t.recipients && t.recipients[r].alias == a ==> t.recipients[r].rMailbox == Some(m)
  }

  predicate PointsInto(row: Recipient, aliases: map<Id, AliasRow>) {
    row.rAlias.Some? ==> row.rAlias.value in aliases
  }

  /** The tables once the loop has dealt with the rows `done` of mailbox `m`: of the other rows
      exactly those are gone that point to a deleted alias, and only emptied aliases are gone. */
  ghost predicate Dropped(t: Tables, m: Id, done: seq<Id>, x: Tables) {
    && x.mailboxes == t.mailboxes && x.domainAliases == t.domainAliases
    && (forall a :: a in x.aliases ==> a in t.aliases && x.aliases[a] == t.aliases[a])
    && (forall r :: r in x.recipients <==>
          r in t.recipients && r !in done && PointsInto(t.recipients[r], x.aliases))
    && (forall r :: r in x.recipients ==> x.recipients[r] == t.recipients[r] && x.recipients[r].alias in x.aliases)
    && (forall a {:trigger HasRecipient(x.recipients, a)} ::
          a in x.aliases && OnlyMailbox(t, m, a) && HasRecipient(t.recipients, a) ==> HasRecipient(x.recipients, a))
  }

  /** `r` is a row of the mailbox. */
  predicate IsRow(t: Tables, m: Id, r: Id) {
    r in t.recipients && t.recipients[r].rMailbox == Some(m)
  }

  lemma DropKeeps(t: Tables, m: Id, done: seq<Id>, x: Tables, r: Id)
    requires RowsOk(t) && Dropped(t, m, done, x) && IsRow(t, m, r) && r !in done
    requires HasRecipient(x.recipients - {r}, t.recipients[r].alias)
    ensures Dropped(t, m, done + [r], RowDropped(x, r))
  {
    assert RowOk(t, r);
    var y := RowDropped(x, r);
    assert y == x.(recipients := x.recipients - {r});
    forall a | a in y.aliases && OnlyMailbox(t, m, a) && HasRecipient(t.recipients, a)
      ensures HasRecipient(y.recipients, a)
    {
      assert HasRecipient(x.recipients, a);
      var s :| s in x.recipients && x.recipients[s].alias == a;
      assert s != r ==> s in y.recipients && y.recipients[s].alias == a;
    }
  }

  lemma DropEmpties(t: Tables, m: Id, done: seq<Id>, x: Tables, r: Id)
    requires RowsOk(t) && Dropped(t, m, done, x) && IsRow(t, m, r) && r !in done
    requires !HasRecipient(x.recipients - {r}, t.recipients[r].alias)
    ensures Dropped(t, m, done + [r], RowDropped(x, r))
  {
    assert RowOk(t, r);
    var a := t.recipients[r].alias;
    var left := x.(recipients := x.recipients - {r});
    var y := WithoutAliases(left, {a});
    assert RowDropped(x, r) == y;
    forall s
      ensures s in y.recipients <==>
              s in t.recipients && s !in done + [r] && PointsInto(t.recipients[s], y.aliases)
    {
      if s in x.recipients && s != r {
        assert s in left.recipients;
      }
    }
    forall b | b in y.aliases && OnlyMailbox(t, m, b) && HasRecipient(t.recipients, b)
      ensures HasRecipient(y.recipients, b)
    {
      EmptiedElsewhere(t, m, x, r, b);
    }
  }

  lemma EmptiedElsewhere(t: Tables, m: Id, x: Tables, r: Id, b: Id)
    requires RowsOk(t) && r in x.recipients && b != x.recipients[r].alias
    requires forall s :: s in x.recipients ==> s in t.recipients && x.recipients[s] == t.recipients[s]
    requires OnlyMailbox(t, m, b) && HasRecipient(x.recipients, b)
    ensures HasRecipient(WithoutAliases(x.(recipients := x.recipients - {r}), {x.recipients[r].alias}).recipients, b)
  {
    var y := WithoutAliases(x.(recipients := x.recipients - {r}), {x.recipients[r].alias});
    var s :| s in x.recipients && x.recipients[s].alias == b;
    assert RowOk(t, s);
    assert s in y.recipients && y.recipients[s].alias == b;
  }

  /** The loop in closed form, for the rows in any order. */
  lemma {:induction false} RowsDroppedIs(t: Tables, m: Id, rows: seq<Id>)
    requires RowsOk(t)
    requires forall i :: 0 <= i < |rows| ==> IsRow(t, m, rows[i])
    requires forall i, j :: 0 <= i < j < |rows| ==> rows[i] != rows[j]
    ensures Dropped(t, m, rows, RowsDropped(t, rows))
  {
    if rows == [] {
      NothingDropped(t, m);
    } else {
      var front, r := rows[..|rows| - 1], rows[|rows| - 1];
      RowsDroppedIs(t, m, front);
      assert r !in front && IsRow(t, m, r);
      DropOne(t, m, front, RowsDropped(t, front), r);
      assert front + [r] == rows;
      RowsDroppedLast(t, front, r);
    }
  }

  lemma RowsDroppedLast(t: Tables, front: seq<Id>, r: Id)
    ensures RowsDropped(t, front + [r]) == RowDropped(RowsDropped(t, front), r)
  {
    assert (front + [r])[..|front|] == front;
  }

  lemma DropOne(t: Tables, m: Id, done: seq<Id>, x: Tables, r: Id)
    requires RowsOk(t) && Dropped(t, m, done, x) && IsRow(t, m, r) && r !in done
    ensures Dropped(t, m, done + [r], RowDropped(x, r))
  {
    if HasRecipient(x.recipients - {r}, t.recipients[r].alias) {
      DropKeeps(t, m, done, x, r);
    } else {
      DropEmpties(t, m, done, x, r);
    }
  }

  lemma NothingDropped(t: Tables, m: Id)
    requires RowsOk(t)
    ensures Dropped(t, m, [], t)
  {
    forall r | r in t.recipients
      ensures PointsInto(t.recipients[r], t.aliases) && t.recipients[r].alias in t.aliases
    {
      assert RowOk(t, r);
    }
  }

  // --------------------------------------------------------------- when it is safe

  /** The aliases that go with the mailbox: those at its address, and those it is the only
      recipient of. */
  predicate Doomed(t: Tables, m: Id, a: Id)
    requires m in t.mailboxes
  {
    a in t.aliases && (t.aliases[a].address == t.mailboxes[m] || OnlyMailbox(t, m, a))
  }

  /** A row that the deletion leaves alone. */
  predicate KeepsRow(t: Tables, m: Id, r: Id)
    requires m in t.mailboxes
  {
    && r in t.recipients && t.recipients[r].rMailbox != Some(m) && !Doomed(t, m, t.recipients[r].alias)
    && (t.recipients[r].rAlias.Some? ==> !Doomed(t, m, t.recipients[r].rAlias.value))
  }

  ghost predicate HasSafeRow(t: Tables, m: Id, a: Id)
    requires m in t.mailboxes
  {
    exists r :: KeepsRow(t, m, r) && t.recipients[r].alias == a
  }

  /** Every alias that stays has a recipient other than the mailbox and the aliases that go. */
  ghost predicate Safe(t: Tables, m: Id)
    requires m in t.mailboxes
  {
    forall a {:trigger HasSafeRow(t, m, a)} :: a in t.aliases && !Doomed(t, m, a) ==> HasSafeRow(t, m, a)
  }

  /** An alias that the loop leaves without a reason is one with nothing but rows of the mailbox. */
  lemma SafeStep(t: Tables, m: Id, done: seq<Id>, x: Tables, r: Id, a: Id)
    requires Valid(t) && m in t.mailboxes && Safe(t, m) && Dropped(t, m, done, x)
    requires forall i :: 0 <= i < |done| ==> IsRow(t, m, done[i])
    requires IsRow(t, m, r) && r !in done
    requires forall b :: b in t.aliases && !Doomed(t, m, b) ==> b in x.aliases
    requires a in t.aliases && !Doomed(t, m, a)
    ensures a in RowDropped(x, r).aliases
  {
    if a == t.recipients[r].alias {
      assert HasSafeRow(t, m, a);
      var s :| KeepsRow(t, m, s) && t.recipients[s].alias == a;
      assert RowOk(t, s);
      assert s !in done && s != r;
      assert s in x.recipients;
      assert HasRecipient(x.recipients - {r}, a) by {
        assert s in x.recipients - {r} && (x.recipients - {r})[s].alias == a;
      }
    }
  }

  /** When it is safe, no alias goes that is not doomed. */
  lemma {:induction false} SafeLoop(t: Tables, m: Id, rows: seq<Id>, a: Id)
    requires Valid(t) && m in t.mailboxes && Safe(t, m)
    requires forall i :: 0 <= i < |rows| ==> IsRow(t, m, rows[i])
    requires forall i, j :: 0 <= i < j < |rows| ==> rows[i] != rows[j]
    requires a in t.aliases && !Doomed(t, m, a)
    ensures a in RowsDropped(t, rows).aliases
  {
    if rows != [] {
      var front, r := rows[..|rows| - 1], rows[|rows| - 1];
      RowsDroppedIs(t, m, front);
      forall b | b in t.aliases && !Doomed(t, m, b)
        ensures b in RowsDropped(t, front).aliases
      {
        SafeLoop(t, m, front, b);
      }
      assert IsRow(t, m, r) && r !in front;
      SafeStep(t, m, front, RowsDropped(t, front), r, a);
    }
  }

  // ------------------------------------------------------------------ the result

  /** Once all its rows are dropped, an alias that only the mailbox received is gone. */
  lemma OnlyMailboxGoes(t: Tables, m: Id, rows: seq<Id>, x: Tables, a: Id)
    requires RowsOf(t, m, rows) && Dropped(t, m, rows, x) && OnlyMailbox(t, m, a) && HasRecipient(t.recipients, a)
    ensures a !in x.aliases
  {
    forall s | s in x.recipients
      ensures x.recipients[s].alias != a
    {
      assert s !in rows;
    }
    assert !HasRecipient(x.recipients, a);
  }

  lemma RowsAreRows(t: Tables, m: Id, rows: seq<Id>)
    requires RowsOf(t, m, rows)
    ensures forall i :: 0 <= i < |rows| ==> IsRow(t, m, rows[i])
  {
  }

  lemma DoomedGo(t: Tables, m: Id, rows: seq<Id>, a: Id)
    requires Valid(t) && m in t.mailboxes && RowsOf(t, m, rows) && a in MailboxDeleted(t, m, rows).aliases
    ensures a in t.aliases && !Doomed(t, m, a) && MailboxDeleted(t, m, rows).aliases[a] == t.aliases[a]
  {
    RowsAreRows(t, m, rows);
    RowsDroppedIs(t, m, rows);
    assert HasRecipient(t.recipients, a);
    if OnlyMailbox(t, m, a) {
      OnlyMailboxGoes(t, m, rows, RowsDropped(t, rows), a);
    }
  }

  /** `x` is what is left of `t` without mailbox `m`: the aliases that are not doomed, and the
      rows between what stays. */
  ghost predicate DeletedTo(t: Tables, m: Id, x: Tables)
    requires m in t.mailboxes
  {
    && x.mailboxes == t.mailboxes - {m} && x.domainAliases == t.domainAliases
    && (forall a :: a in x.aliases <==> a in t.aliases && !Doomed(t, m, a))
    && (forall a :: a in x.aliases ==> x.aliases[a] == t.aliases[a])
    && (forall r :: r in x.recipients <==> KeepsRow(t, m, r))
    && (forall r :: r in x.recipients ==> x.recipients[r] == t.recipients[r])
  }

  /** When it is safe, the result does not depend on the order of the loop. */
  lemma DeletionIs(t: Tables, m: Id, rows: seq<Id>)
    requires Valid(t) && m in t.mailboxes && RowsOf(t, m, rows) && Safe(t, m)
    ensures DeletedTo(t, m, MailboxDeleted(t, m, rows))
  {
    var x := MailboxDeleted(t, m, rows);
    RowsAreRows(t, m, rows);
    RowsDroppedIs(t, m, rows);
    forall a
      ensures a in x.aliases <==> a in t.aliases && !Doomed(t, m, a)
    {
      if a in x.aliases {
        DoomedGo(t, m, rows, a);
      } else if a in t.aliases && !Doomed(t, m, a) {
        SafeLoop(t, m, rows, a);
      }
    }
    forall r
      ensures r in x.recipients <==> KeepsRow(t, m, r)
    {
      DeletedRow(t, m, rows, r);
    }
  }

  lemma DeletedRow(t: Tables, m: Id, rows: seq<Id>, r: Id)
    requires Valid(t) && m in t.mailboxes && RowsOf(t, m, rows)
    requires Dropped(t, m, rows, RowsDropped(t, rows))
    requires forall a :: a in MailboxDeleted(t, m, rows).aliases <==> a in t.aliases && !Doomed(t, m, a)
    ensures r in MailboxDeleted(t, m, rows).recipients <==> KeepsRow(t, m, r)
  {
    var d := RowsDropped(t, rows);
    var gone := AliasesAt(d, t.mailboxes[m]);
    var x := MailboxDeleted(t, m, rows);
    assert x.aliases == d.aliases - gone;
    if r in t.recipients {
      assert RowOk(t, r);
      var row := t.recipients[r];
      assert row.alias in x.aliases <==> !Doomed(t, m, row.alias);
      if row.rAlias.Some? {
        assert row.rAlias.value in x.aliases <==> !Doomed(t, m, row.rAlias.value);
      }
    }
  }

  // --------------------------------------------------------- when it is not safe

  /** Some alias is left without recipient. */
  predicate LeavesEmpty(x: Tables) {
    exists a :: a in x.aliases && !HasRecipient(x.recipients, a)
  }

  /** The distinct members of a finite set, in some order. */
  lemma {:induction false} InOrder(s: set<Id>) returns (list: seq<Id>)
    ensures forall r :: r in list <==> r in s
    ensures forall i, j :: 0 <= i < j < |list| ==> list[i] != list[j]
    decreases |s|
  {
    list := [];
    if s != {} {
      var r :| r in s;
      list := InOrder(s - {r});
      assert forall i :: 0 <= i < |list| ==> list[i] in list && list[i] != r;
      list := list + [r];
    }
  }

  /** While its own rows of the mailbox go first, a stranded alias keeps its other row, and no
      alias goes at all. */
  lemma {:induction false} OwnRowsFirst(t: Tables, m: Id, b: Id, other: Id, rows: seq<Id>)
    requires Valid(t) && m in t.mailboxes
    requires other in t.recipients && t.recipients[other].alias == b && t.recipients[other].rMailbox != Some(m)
    requires forall i :: 0 <= i < |rows| ==> IsRow(t, m, rows[i]) && t.recipients[rows[i]].alias == b
    requires forall i, j :: 0 <= i < j < |rows| ==> rows[i] != rows[j]
    ensures RowsDropped(t, rows).aliases == t.aliases
  {
    if rows != [] {
      var front, r := rows[..|rows| - 1], rows[|rows| - 1];
      OwnRowsFirst(t, m, b, other, front);
      RowsDroppedIs(t, m, front);
      var x := RowsDropped(t, front);
      assert RowOk(t, other);
      assert other in x.recipients;
      assert IsRow(t, m, r) && t.recipients[r].alias == b;
      assert HasRecipient(x.recipients - {r}, b) by {
        assert other in x.recipients - {r} && (x.recipients - {r})[other].alias == b;
      }
    }
  }

  /** Rows of other aliases take no alias but their own. */
  lemma {:induction false} OthersNext(t: Tables, m: Id, b: Id, first: seq<Id>, second: seq<Id>)
    requires Valid(t) && m in t.mailboxes && b in RowsDropped(t, first).aliases
    requires forall i :: 0 <= i < |first + second| ==> IsRow(t, m, (first + second)[i])
    requires forall i, j :: 0 <= i < j < |first + second| ==> (first + second)[i] != (first + second)[j]
    requires forall i :: 0 <= i < |second| ==> IsRow(t, m, second[i]) && t.recipients[second[i]].alias != b
    ensures b in RowsDropped(t, first + second).aliases
  {
    if second == [] {
      assert first + second == first;
    } else {
      var front, r := second[..|second| - 1], second[|second| - 1];
      var all := first + front;
      assert first + second == all + [r];
      assert forall i :: 0 <= i < |all| ==> all[i] == (first + second)[i];
      OthersNext(t, m, b, first, front);
      RowsDroppedIs(t, m, all);
      assert (all + [r])[|all|] == r && r !in all;
      OneMoreRow(t, m, b, all, r);
    }
  }

  lemma OneMoreRow(t: Tables, m: Id, b: Id, all: seq<Id>, r: Id)
    requires Dropped(t, m, all, RowsDropped(t, all)) && b in RowsDropped(t, all).aliases
    requires IsRow(t, m, r) && t.recipients[r].alias != b
    ensures b in RowsDropped(t, all + [r]).aliases
  {
    assert (all + [r])[..|all|] == all;
  }

  /** A stay that nothing supports: not doomed, and every row belongs to the mailbox or points to
      a doomed alias. */
  ghost predicate Stranded(t: Tables, m: Id, b: Id)
    requires m in t.mailboxes
  {
    b in t.aliases && !Doomed(t, m, b) && !HasSafeRow(t, m, b)
  }

  /** An order of the loop that leaves the stranded alias in place: its own rows first. */
  lemma StrandingOrder(t: Tables, m: Id, b: Id) returns (rows: seq<Id>)
    requires Valid(t) && m in t.mailboxes && Stranded(t, m, b)
    ensures RowsOf(t, m, rows) && b in RowsDropped(t, rows).aliases
  {
    var other :| other in t.recipients && t.recipients[other].alias == b && t.recipients[other].rMailbox != Some(m);
    var first, second := OwnAndOthers(t, m, b);
    rows := first + second;
    OwnRowsFirst(t, m, b, other, first);
    OthersNext(t, m, b, first, second);
  }

  /** The rows of the mailbox, those in the alias `b` first. */
  lemma OwnAndOthers(t: Tables, m: Id, b: Id) returns (first: seq<Id>, second: seq<Id>)
    ensures forall i :: 0 <= i < |first| ==> IsRow(t, m, first[i]) && t.recipients[first[i]].alias == b
    ensures forall i, j :: 0 <= i < j < |first| ==> first[i] != first[j]
    ensures forall i :: 0 <= i < |second| ==> IsRow(t, m, second[i]) && t.recipients[second[i]].alias != b
    ensures AllRows(t, m, first + second)
  {
    var own := set r | r in t.recipients && IsRow(t, m, r) && t.recipients[r].alias == b;
    var rest := set r | r in t.recipients && IsRow(t, m, r) && t.recipients[r].alias != b;
    first := InOrder(own);
    second := InOrder(rest);
    assert forall i :: 0 <= i < |first| ==> first[i] in first;
    assert forall i :: 0 <= i < |second| ==> second[i] in second;
    JoinedRows(t, m, first, second);
  }

  ghost predicate AllRows(t: Tables, m: Id, rows: seq<Id>) {
    RowsOf(t, m, rows) && forall i :: 0 <= i < |rows| ==> IsRow(t, m, rows[i])
  }

  lemma JoinedRows(t: Tables, m: Id, first: seq<Id>, second: seq<Id>)
    requires forall i :: 0 <= i < |first| ==> IsRow(t, m, first[i])
    requires forall i :: 0 <= i < |second| ==> IsRow(t, m, second[i])
    requires forall i, j :: 0 <= i < j < |first| ==> first[i] != first[j]
    requires forall i, j :: 0 <= i < j < |second| ==> second[i] != second[j]
    requires forall i, j :: 0 <= i < |first| && 0 <= j < |second| ==> first[i] != second[j]
    requires forall r :: IsRow(t, m, r) ==> r in first || r in second
    ensures AllRows(t, m, first + second)
  {
    forall r
      ensures r in first + second <==> r in t.recipients && t.recipients[r].rMailbox == Some(m)
    {
      assert IsRow(t, m, r) <==> r in t.recipients && t.recipients[r].rMailbox == Some(m);
    }
  }

  lemma StrandedIsEmpty(t: Tables, m: Id, b: Id, rows: seq<Id>)
    requires Valid(t) && m in t.mailboxes && Stranded(t, m, b)
    requires RowsOf(t, m, rows) && b in RowsDropped(t, rows).aliases
    ensures var x := MailboxDeleted(t, m, rows); b in x.aliases && !HasRecipient(x.recipients, b)
  {
    RowsAreRows(t, m, rows);
    RowsDroppedIs(t, m, rows);
    var d, x := RowsDropped(t, rows), MailboxDeleted(t, m, rows);
    forall r | r in x.recipients
      ensures x.recipients[r].alias != b
    {
      if x.recipients[r].alias == b {
        StrandedRow(t, m, b, rows, d, r);
      }
    }
  }

  lemma StrandedRow(t: Tables, m: Id, b: Id, rows: seq<Id>, d: Tables, r: Id)
    requires Valid(t) && m in t.mailboxes && Stranded(t, m, b)
    requires RowsOf(t, m, rows) && Dropped(t, m, rows, d) && r in d.recipients && t.recipients[r].alias == b
    ensures t.recipients[r].rAlias.Some? && t.recipients[r].rAlias.value in AliasesAt(d, t.mailboxes[m])
  {
    assert RowOk(t, r);
    assert !KeepsRow(t, m, r);
    assert r !in rows;
    var target := t.recipients[r].rAlias.value;
    assert HasRecipient(t.recipients, target);
    if OnlyMailbox(t, m, target) {
      OnlyMailboxGoes(t, m, rows, d, target);
    }
  }

  lemma SafeLeavesNone(t: Tables, m: Id, rows: seq<Id>)
    requires Valid(t) && m in t.mailboxes && RowsOf(t, m, rows) && Safe(t, m)
    ensures !LeavesEmpty(MailboxDeleted(t, m, rows))
  {
    var x := MailboxDeleted(t, m, rows);
    DeletionIs(t, m, rows);
    forall a | a in x.aliases
      ensures HasRecipient(x.recipients, a)
    {
      assert HasSafeRow(t, m, a);
      var r :| KeepsRow(t, m, r) && t.recipients[r].alias == a;
      assert r in x.recipients && x.recipients[r].alias == a;
    }
  }

  /** An order of the rows that leaves an empty alias. */
  ghost predicate EmptyingOrder(t: Tables, m: Id, rows: seq<Id>)
    requires m in t.mailboxes
  {
    RowsOf(t, m, rows) && LeavesEmpty(MailboxDeleted(t, m, rows))
  }

  /** Some order of the loop leaves an alias without recipient exactly when some alias that is not
      doomed has nothing but rows of the mailbox and rows pointing to doomed aliases. */
  lemma EmptyAliasExactly(t: Tables, m: Id)
    requires Valid(t) && m in t.mailboxes
    ensures (exists rows :: EmptyingOrder(t, m, rows)) <==> exists b :: Stranded(t, m, b)
  {
    if b :| Stranded(t, m, b) {
      var rows := StrandingOrder(t, m, b);
      StrandedIsEmpty(t, m, b, rows);
      assert EmptyingOrder(t, m, rows);
    } else {
      forall a | a in t.aliases && !Doomed(t, m, a)
        ensures HasSafeRow(t, m, a)
      {
        assert !Stranded(t, m, a);
      }
      forall rows: seq<Id>
        ensures !EmptyingOrder(t, m, rows)
      {
        if RowsOf(t, m, rows) {
          SafeLeavesNone(t, m, rows);
        }
      }
    }
  }

  // ------------------------------------------------- deletion of a domain alias

  /** Deleting the aliases `gone` leaves every other alias a row that points elsewhere. */
  ghost predicate SafeWithout(t: Tables, gone: set<Id>) {
    forall a {:trigger HasRowElsewhere(t, gone, a)} :: a in t.aliases && a !in gone ==> HasRowElsewhere(t, gone, a)
  }

  predicate HasRowElsewhere(t: Tables, gone: set<Id>, a: Id) {
    exists r :: r in t.recipients && t.recipients[r].alias == a
      && (t.recipients[r].rAlias.Some? ==> t.recipients[r].rAlias.value !in gone)
  }

  /** The cascade of a deletion of aliases leaves an empty alias exactly when some other alias has
      only rows that point to the deleted ones. */
  lemma CascadeExactly(t: Tables, gone: set<Id>)
    ensures LeavesEmpty(WithoutAliases(t, gone)) <==> !SafeWithout(t, gone)
  {
    var x := WithoutAliases(t, gone);
    forall a | a in t.aliases && a !in gone
      ensures HasRecipient(x.recipients, a) <==> HasRowElsewhere(t, gone, a)
    {
      if HasRecipient(x.recipients, a) {
        var r :| r in x.recipients && x.recipients[r].alias == a;
        assert r in t.recipients;
      }
      if HasRowElsewhere(t, gone, a) {
        var r :| r in t.recipients && t.recipients[r].alias == a
          && (t.recipients[r].rAlias.Some? ==> t.recipients[r].rAlias.value !in gone);
        assert r in x.recipients && x.recipients[r].alias == a;
      }
    }
  }
}
