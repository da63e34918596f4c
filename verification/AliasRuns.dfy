/** The alias tables stay consistent through every run of the handlers. */
module AliasRuns {
  import opened Text
  import opened AliasTables
  import opened AliasDeletion

  /** What a recipient of an alias is: a mailbox, another alias, or an address elsewhere. */
  datatype Target = ToMailbox(m: Id) | ToAlias(a: Id) | ToAddress(address: string)

  datatype Event =
    | CreateMailbox(m: Id, address: string, a: Id, r: Id)
    | RenameMailbox(m: Id, address: string, self: Id)
    | DeleteMailbox(m: Id, rows: seq<Id>)
    | CreateDomainAlias(name: string, target: string, a: Id, r: Id)
    | DeleteDomainAlias(name: string)
    | CreateAlias(a: Id, address: string, r: Id, to: Target)
    | AddRecipient(a: Id, r: Id, to: Target)

  predicate Free(t: Tables, a: Id, r: Id) {
    a !in t.aliases && r !in t.recipients
  }

  /** What `add_recipients` accepts for an alias at `address`: a mailbox is looked up first, and
      an alias is not its own recipient. */
  predicate Accepts(t: Tables, address: string, to: Target) {
    match to
    case ToMailbox(m) => m in t.mailboxes
    case ToAlias(a) => a in t.aliases && t.aliases[a].address != address && !MailboxAt(t, t.aliases[a].address)
    case ToAddress(_) => true
  }

  /** The row for a recipient of the alias `a`. */
  function NewRow(t: Tables, a: Id, to: Target): Recipient
    requires to.ToMailbox? ==> to.m in t.mailboxes
    requires to.ToAlias? ==> to.a in t.aliases
  {
    match to
    case ToMailbox(m) => Recipient(t.mailboxes[m], a, Some(m), None)
    case ToAlias(b) => Recipient(t.aliases[b].address, a, None, Some(b))
    case ToAddress(address) => Recipient(address, a, None, None)
  }

  /** When an event can happen: identifiers are new, addresses are unique, rows exist. */
  ghost predicate Possible(t: Tables, e: Event) {
    match e
    case CreateMailbox(m, address, a, r) =>
      m !in t.mailboxes && FullAddress(address) && !MailboxAt(t, address) && Free(t, a, r)
    case RenameMailbox(m, address, self) =>
      m in t.mailboxes && FullAddress(address) && !MailboxAt(t, address) && SelfRow(t, m, t.mailboxes[m], self)
    case DeleteMailbox(m, rows) => m in t.mailboxes && RowsOf(t, m, rows)
    case CreateDomainAlias(name, target, a, r) => name !in t.domainAliases && Free(t, a, r)
    case DeleteDomainAlias(name) => name in t.domainAliases
    case CreateAlias(a, address, r, to) =>
      Free(t, a, r) && !AddressTaken(t, address, false) && Accepts(t, address, to)
    case AddRecipient(a, r, to) =>
      && a in t.aliases && !t.aliases[a].internal && r !in t.recipients && Accepts(t, t.aliases[a].address, to)
      && IsNewTo(t, a, NewRow(t, a, to))
  }

  /** A deletion that leaves no alias empty, whatever the order of its loop; any other event. */
  ghost predicate SafeEvent(t: Tables, e: Event) {
    match e
    case DeleteMailbox(m, _) => m in t.mailboxes ==> Safe(t, m)
    case DeleteDomainAlias(name) => SafeWithout(t, AliasesAt(t, "@" + name))
    case _ => true
  }

  /** An address is at most once a recipient of an alias. */
  predicate IsNewTo(t: Tables, a: Id, row: Recipient) {
    forall s :: s in t.recipients && t.recipients[s].alias == a ==> t.recipients[s].address != row.address
  }

  ghost function Effect(t: Tables, e: Event): Tables
    requires Possible(t, e)
  {
    match e
    case CreateMailbox(m, address, a, r) => MailboxCreated(t, m, address, a, r)
    case RenameMailbox(m, address, self) => MailboxRenamed(t, m, address, self)
    case DeleteMailbox(m, rows) => MailboxDeleted(t, m, rows)
    case CreateDomainAlias(name, target, a, r) => DomainAliasCreated(t, name, target, a, r)
    case DeleteDomainAlias(name) => DomainAliasDeleted(t, name)
    case CreateAlias(a, address, r, to) => WithAlias(t, a, AliasRow(address, false), r, NewRow(t, a, to))
    case AddRecipient(a, r, to) => RecipientAdded(t, r, NewRow(t, a, to))
  }

  /** One event, safe or not. */
  ghost function ApplyAny(t: Tables, e: Event): Tables {
    if Possible(t, e) then Effect(t, e) else t
  }

  /** One event of the runs in which every deletion is safe. */
  ghost function Apply(t: Tables, e: Event): Tables {
    if SafeEvent(t, e) then ApplyAny(t, e) else t
  }

  function RecipientAdded(t: Tables, r: Id, row: Recipient): Tables {
    t.(recipients := t.recipients[r := row])
  }

  ghost function Run(t: Tables, events: seq<Event>): Tables {
    if events == [] then t else Apply(Run(t, events[..|events| - 1]), events[|events| - 1])
  }

  ghost function RunAny(t: Tables, events: seq<Event>): Tables {
    if events == [] then t else ApplyAny(RunAny(t, events[..|events| - 1]), events[|events| - 1])
  }

  function Empty(): Tables {
    Tables(map[], map[], map[], {})
  }

  /** The step from `t` to `after` keeps the tables consistent, and adds no empty alias. */
  ghost predicate Keeps(t: Tables, after: Tables) {
    Consistent(after) && (NoneEmpty(t) ==> NoneEmpty(after))
  }

  // ------------------------------------------------------------- creations

  lemma DomainAliasIsNew(t: Tables, name: string)
    requires Consistent(t) && name !in t.domainAliases
    ensures !AddressTaken(t, "@" + name, true)
  {
    assert ("@" + name)[1..] == name;
    NoMailboxAt(t, "@" + name);
    forall a | a in t.aliases ensures t.aliases[a] != AliasRow("@" + name, true) {
      assert AliasOk(t, a);
    }
  }

  lemma NoMailboxAt(t: Tables, address: string)
    requires MailboxesOk(t) && !FullAddress(address)
    ensures !MailboxAt(t, address)
  {
    forall m | m in t.mailboxes ensures t.mailboxes[m] != address {
      MailboxFacts(t, m);
    }
  }

  /** What the tables need for a new alias with its first recipient. */
  ghost predicate NewAliasFits(t: Tables, after: Tables, a: Id, row: AliasRow, r: Id, recipient: Recipient) {
    && Free(t, a, r) && !AddressTaken(t, row.address, row.internal) && recipient.alias == a
    && after.aliases == t.aliases[a := row] && after.recipients == t.recipients[r := recipient]
    && (forall m :: m in t.mailboxes ==> m in after.mailboxes && after.mailboxes[m] == t.mailboxes[m])
    && t.domainAliases <= after.domainAliases
  }

  lemma AliasAdded(t: Tables, after: Tables, a: Id, row: AliasRow, r: Id, recipient: Recipient)
    requires Consistent(t) && NewAliasFits(t, after, a, row, r, recipient)
    requires RowOk(after, r) && AliasOk(after, a)
    ensures RowsOk(after) && AliasesOk(after) && RowsUnique(after) && (NoneEmpty(t) ==> NoneEmpty(after))
  {
    forall s | s in after.recipients ensures RowOk(after, s) {
      if s != r { assert RowOk(t, s); }
    }
    forall b | b in after.aliases ensures AliasOk(after, b) && (NoneEmpty(t) ==> HasRecipient(after.recipients, b)) {
      if b != a {
        OldAliasKept(t, after, b, r);
      } else {
        assert after.recipients[r].alias == a;
      }
    }
    forall s | s in t.recipients ensures t.recipients[s].alias != a { assert RowOk(t, s); }
  }

  lemma OldAliasKept(t: Tables, after: Tables, b: Id, r: Id)
    requires Consistent(t) && b in t.aliases && b in after.aliases && after.aliases[b] == t.aliases[b]
    requires forall s :: s in t.recipients ==> s in after.recipients && after.recipients[s] == t.recipients[s]
    requires forall m :: m in t.mailboxes ==> m in after.mailboxes && after.mailboxes[m] == t.mailboxes[m]
    requires t.domainAliases <= after.domainAliases
    ensures AliasOk(after, b) && (HasRecipient(t.recipients, b) ==> HasRecipient(after.recipients, b))
  {
    assert AliasOk(t, b);
    if HasRecipient(t.recipients, b) {
      var s :| s in t.recipients && t.recipients[s].alias == b;
      assert s in after.recipients && after.recipients[s].alias == b;
    }
    if t.aliases[b].internal && MailboxAt(t, t.aliases[b].address) {
      var m :| m in t.mailboxes && t.mailboxes[m] == t.aliases[b].address;
      assert m in after.mailboxes && after.mailboxes[m] == t.aliases[b].address;
    }
  }

  lemma SelfAliasKept(t: Tables, after: Tables, m: Id)
    requires m in t.mailboxes && m in after.mailboxes && after.mailboxes[m] == t.mailboxes[m]
    requires HasSelfAlias(t, m)
    requires forall s :: s in t.recipients ==> s in after.recipients && after.recipients[s] == t.recipients[s]
    requires forall b :: b in t.aliases ==> b in after.aliases && after.aliases[b] == t.aliases[b]
    ensures HasSelfAlias(after, m)
  {
    var s :| SelfRow(t, m, t.mailboxes[m], s);
    assert SelfRow(after, m, after.mailboxes[m], s);
  }

  lemma ValidCreateMailbox(t: Tables, m: Id, address: string, a: Id, r: Id)
    requires Consistent(t) && m !in t.mailboxes && FullAddress(address) && !MailboxAt(t, address) && Free(t, a, r)
    ensures Keeps(t, MailboxCreated(t, m, address, a, r))
  {
    var after := MailboxCreated(t, m, address, a, r);
    SelfAliasIsNew(t, address);
    assert m in after.mailboxes && after.mailboxes[m] == address;
    assert SelfRow(after, m, address, r);
    AliasAdded(t, after, a, AliasRow(address, true), r, Recipient(address, a, Some(m), None));
    forall n | n in after.mailboxes ensures FullAddress(after.mailboxes[n]) && HasSelfAlias(after, n) {
      if n != m {
        assert HasSelfAlias(t, n);
        SelfAliasKept(t, after, n);
      }
    }
  }

  lemma ValidCreateDomainAlias(t: Tables, name: string, target: string, a: Id, r: Id)
    requires Consistent(t) && name !in t.domainAliases && Free(t, a, r)
    ensures Keeps(t, DomainAliasCreated(t, name, target, a, r))
  {
    var after := DomainAliasCreated(t, name, target, a, r);
    DomainAliasIsNew(t, name);
    assert ("@" + name)[1..] == name;
    AliasAdded(t, after, a, AliasRow("@" + name, true), r, Recipient("@" + target, a, None, None));
    forall n | n in after.mailboxes ensures FullAddress(after.mailboxes[n]) && HasSelfAlias(after, n) {
      assert HasSelfAlias(t, n);
      SelfAliasKept(t, after, n);
    }
  }

  lemma NewAliasFacts(t: Tables, a: Id, address: string, r: Id, to: Target)
    requires Consistent(t) && Free(t, a, r) && !AddressTaken(t, address, false) && Accepts(t, address, to)
    ensures var row := AliasRow(address, false); var after := WithAlias(t, a, row, r, NewRow(t, a, to));
            && NewAliasFits(t, after, a, row, r, NewRow(t, a, to)) && RowOk(after, r) && AliasOk(after, a)
            && Unique(after)
  {
  }

  lemma ValidCreateAlias(t: Tables, a: Id, address: string, r: Id, to: Target)
    requires Consistent(t) && Free(t, a, r) && !AddressTaken(t, address, false) && Accepts(t, address, to)
    ensures Keeps(t, WithAlias(t, a, AliasRow(address, false), r, NewRow(t, a, to)))
  {
    var after := WithAlias(t, a, AliasRow(address, false), r, NewRow(t, a, to));
    NewAliasFacts(t, a, address, r, to);
    AliasAdded(t, after, a, AliasRow(address, false), r, NewRow(t, a, to));
    forall n | n in after.mailboxes ensures FullAddress(after.mailboxes[n]) && HasSelfAlias(after, n) {
      assert HasSelfAlias(t, n);
      SelfAliasKept(t, after, n);
    }
  }

  lemma ValidAddRecipient(t: Tables, a: Id, r: Id, to: Target)
    requires Consistent(t) && a in t.aliases && !t.aliases[a].internal && r !in t.recipients
    requires Accepts(t, t.aliases[a].address, to) && IsNewTo(t, a, NewRow(t, a, to))
    ensures Keeps(t, RecipientAdded(t, r, NewRow(t, a, to)))
  {
    var after := RecipientAdded(t, r, NewRow(t, a, to));
    forall b | b in after.aliases ensures AliasOk(after, b) && (NoneEmpty(t) ==> HasRecipient(after.recipients, b)) {
      OldAliasKept(t, after, b, r);
    }
    forall n | n in after.mailboxes ensures FullAddress(after.mailboxes[n]) && HasSelfAlias(after, n) {
      assert HasSelfAlias(t, n);
      SelfAliasKept(t, after, n);
    }
    AddedRows(t, a, r, to);
  }

  /** A new recipient of an alias points to what it stands for and carries its address; nothing else
      changes. */
  lemma AddedFields(t: Tables, a: Id, r: Id, to: Target)
    requires Possible(t, AddRecipient(a, r, to))
    ensures var x := ApplyAny(t, AddRecipient(a, r, to));
            && x.mailboxes == t.mailboxes && x.aliases == t.aliases && x.domainAliases == t.domainAliases
            && x.recipients.Keys == t.recipients.Keys + {r} && x.recipients[r].alias == a
            && (forall s :: s in t.recipients ==> x.recipients[s] == t.recipients[s])
            && (match to
                case ToMailbox(m) =>
                  x.recipients[r].rMailbox == Some(m) && x.recipients[r].rAlias.None?
                  && x.recipients[r].address == t.mailboxes[m]
                case ToAlias(b) =>
                  x.recipients[r].rMailbox.None? && x.recipients[r].rAlias == Some(b)
                  && x.recipients[r].address == t.aliases[b].address
                case ToAddress(address) =>
                  x.recipients[r].rMailbox.None? && x.recipients[r].rAlias.None? && x.recipients[r].address == address)
  {
  }

  /** So does a new alias, which is external and sits at its address. */
  lemma CreatedFields(t: Tables, a: Id, address: string, r: Id, to: Target)
    requires Possible(t, CreateAlias(a, address, r, to))
    ensures var x := ApplyAny(t, CreateAlias(a, address, r, to));
            && x.mailboxes == t.mailboxes && x.domainAliases == t.domainAliases
            && x.aliases.Keys == t.aliases.Keys + {a} && x.aliases[a] == AliasRow(address, false)
            && (forall b :: b in t.aliases ==> x.aliases[b] == t.aliases[b])
            && x.recipients.Keys == t.recipients.Keys + {r} && x.recipients[r].alias == a
            && (forall s :: s in t.recipients ==> x.recipients[s] == t.recipients[s])
  {
  }

  lemma AddedRows(t: Tables, a: Id, r: Id, to: Target)
    requires RowsOk(t) && RowsUnique(t) && a in t.aliases && !t.aliases[a].internal && r !in t.recipients
    requires Accepts(t, t.aliases[a].address, to) && IsNewTo(t, a, NewRow(t, a, to))
    ensures RowsOk(RecipientAdded(t, r, NewRow(t, a, to))) && RowsUnique(RecipientAdded(t, r, NewRow(t, a, to)))
  {
    var row := NewRow(t, a, to);
    var after := RecipientAdded(t, r, row);
    forall s | s in after.recipients ensures RowOk(after, s) {
      if s != r { assert RowOk(t, s); }
    }
    forall s | s in t.recipients && t.recipients[s].alias == a && row.rMailbox.Some?
      ensures t.recipients[s].rMailbox != row.rMailbox
    {
      assert RowOk(t, s);
    }
  }

  // --------------------------------------------------------------- renaming

  lemma RenamedRow(t: Tables, m: Id, address: string, self: Id, r: Id)
    requires Consistent(t) && m in t.mailboxes && SelfRow(t, m, t.mailboxes[m], self) && r in t.recipients
    ensures RowOk(MailboxRenamed(t, m, address, self), r)
  {
    assert RowOk(t, r);
    assert RowOk(t, self);
    if t.recipients[r].rMailbox == Some(m) && Internal(t, t.recipients[r].alias) {
      assert SelfRow(t, m, t.mailboxes[m], r);
      SelfRowUnique(t, m, r, self);
    }
  }

  lemma RenamedSelf(t: Tables, m: Id, address: string, self: Id, n: Id)
    requires Consistent(t) && m in t.mailboxes && SelfRow(t, m, t.mailboxes[m], self) && n in t.mailboxes
    ensures HasSelfAlias(MailboxRenamed(t, m, address, self), n)
  {
    var after := MailboxRenamed(t, m, address, self);
    if n == m {
      assert SelfRow(after, n, after.mailboxes[n], self);
    } else {
      assert HasSelfAlias(t, n);
      var s :| SelfRow(t, n, t.mailboxes[n], s);
      assert SelfRow(after, n, after.mailboxes[n], s);
    }
  }

  lemma RenamedAlias(t: Tables, m: Id, address: string, self: Id, a: Id)
    requires Consistent(t) && m in t.mailboxes && SelfRow(t, m, t.mailboxes[m], self) && a in t.aliases
    ensures AliasOk(MailboxRenamed(t, m, address, self), a)
    ensures HasRecipient(t.recipients, a) ==> HasRecipient(MailboxRenamed(t, m, address, self).recipients, a)
  {
    var after := MailboxRenamed(t, m, address, self);
    if HasRecipient(t.recipients, a) {
      var s :| s in t.recipients && t.recipients[s].alias == a;
      assert s in after.recipients && after.recipients[s].alias == a;
    }
    assert AliasOk(t, a);
    if a == t.recipients[self].alias {
      assert m in after.mailboxes && after.mailboxes[m] == address;
    } else if t.aliases[a].internal && MailboxAt(t, t.aliases[a].address) {
      var n :| n in t.mailboxes && t.mailboxes[n] == t.aliases[a].address;
      assert after.mailboxes[n] == after.aliases[a].address;
    }
  }

  lemma RenamedUnique(t: Tables, m: Id, address: string, self: Id)
    requires Consistent(t) && m in t.mailboxes && SelfRow(t, m, t.mailboxes[m], self)
    requires FullAddress(address) && !MailboxAt(t, address)
    ensures Unique(MailboxRenamed(t, m, address, self)) && RowsUnique(MailboxRenamed(t, m, address, self))
  {
    SelfAliasIsNew(t, address);
  }

  lemma ValidRename(t: Tables, m: Id, address: string, self: Id)
    requires Consistent(t) && m in t.mailboxes && SelfRow(t, m, t.mailboxes[m], self)
    requires FullAddress(address) && !MailboxAt(t, address)
    ensures Keeps(t, MailboxRenamed(t, m, address, self))
  {
    var after := MailboxRenamed(t, m, address, self);
    RenamedUnique(t, m, address, self);
    forall n | n in after.mailboxes ensures FullAddress(after.mailboxes[n]) && HasSelfAlias(after, n) {
      assert n in t.mailboxes;
      MailboxFacts(t, n);
      RenamedSelf(t, m, address, self, n);
    }
    forall r | r in after.recipients ensures RowOk(after, r) {
      RenamedRow(t, m, address, self, r);
    }
    forall a | a in after.aliases ensures AliasOk(after, a) && (NoneEmpty(t) ==> HasRecipient(after.recipients, a)) {
      RenamedAlias(t, m, address, self, a);
    }
  }

  // --------------------------------------------------------------- deletion

  /** What any deletion of mailbox `m` makes of the tables: nothing of `m` is left, no row points
      to what is gone, and a row of another mailbox in an alias elsewhere stays. */
  ghost predicate Shrunk(t: Tables, m: Id, x: Tables)
    requires m in t.mailboxes
  {
    && x.mailboxes == t.mailboxes - {m} && x.domainAliases == t.domainAliases
    && (forall a :: a in x.aliases ==>
          a in t.aliases && x.aliases[a] == t.aliases[a] && t.aliases[a].address != t.mailboxes[m])
    && (forall r :: r in x.recipients ==>
          && r in t.recipients && x.recipients[r] == t.recipients[r] && t.recipients[r].rMailbox != Some(m)
          && t.recipients[r].alias in x.aliases && PointsInto(t.recipients[r], x.aliases))
    && (forall r {:trigger StaysElsewhere(t, m, r)} :: StaysElsewhere(t, m, r) ==> r in x.recipients)
  }

  predicate StaysElsewhere(t: Tables, m: Id, r: Id)
    requires m in t.mailboxes
  {
    && r in t.recipients && t.recipients[r].rMailbox != Some(m) && t.recipients[r].rAlias.None?
    && t.recipients[r].alias in t.aliases && t.aliases[t.recipients[r].alias].address != t.mailboxes[m]
  }

  lemma DeletionShrinks(t: Tables, m: Id, rows: seq<Id>)
    requires RowsOk(t) && m in t.mailboxes && RowsOf(t, m, rows)
    ensures Shrunk(t, m, MailboxDeleted(t, m, rows))
  {
    RowsAreRows(t, m, rows);
    RowsDroppedIs(t, m, rows);
    var d, x := RowsDropped(t, rows), MailboxDeleted(t, m, rows);
    forall r | StaysElsewhere(t, m, r)
      ensures r in x.recipients
    {
      assert r !in rows;
      assert r in d.recipients;
    }
  }

  lemma ShrunkSelf(t: Tables, m: Id, x: Tables, n: Id)
    requires Consistent(t) && m in t.mailboxes && Shrunk(t, m, x) && n in x.mailboxes
    ensures HasSelfAlias(x, n)
  {
    MailboxFacts(t, n);
    var s :| SelfRow(t, n, t.mailboxes[n], s);
    assert RowOk(t, s);
    assert StaysElsewhere(t, m, s);
    assert SelfRow(x, n, x.mailboxes[n], s);
  }

  lemma ShrunkAlias(t: Tables, m: Id, x: Tables, a: Id)
    requires AliasesOk(t) && m in t.mailboxes && Shrunk(t, m, x) && a in x.aliases
    ensures AliasOk(x, a)
  {
    assert AliasOk(t, a);
    if t.aliases[a].internal && MailboxAt(t, t.aliases[a].address) {
      var n :| n in t.mailboxes && t.mailboxes[n] == t.aliases[a].address;
      assert n in x.mailboxes && x.mailboxes[n] == x.aliases[a].address;
    }
  }

  lemma ShrunkIsConsistent(t: Tables, m: Id, x: Tables)
    requires Consistent(t) && m in t.mailboxes && Shrunk(t, m, x)
    ensures Consistent(x)
  {
    forall n | n in x.mailboxes ensures FullAddress(x.mailboxes[n]) && HasSelfAlias(x, n) {
      MailboxFacts(t, n);
      ShrunkSelf(t, m, x, n);
    }
    forall r | r in x.recipients ensures RowOk(x, r) {
      assert RowOk(t, r);
    }
    forall a | a in x.aliases ensures AliasOk(x, a) {
      ShrunkAlias(t, m, x, a);
    }
  }

  /** Any deletion of a mailbox, in any order, keeps the tables consistent; a safe one leaves no
      alias empty. */
  lemma ValidDeleted(t: Tables, m: Id, rows: seq<Id>)
    requires Consistent(t) && m in t.mailboxes && RowsOf(t, m, rows)
    ensures Consistent(MailboxDeleted(t, m, rows))
    ensures Valid(t) && Safe(t, m) ==> Valid(MailboxDeleted(t, m, rows))
  {
    DeletionShrinks(t, m, rows);
    ShrunkIsConsistent(t, m, MailboxDeleted(t, m, rows));
    if Valid(t) && Safe(t, m) {
      SafeLeavesNone(t, m, rows);
    }
  }

  // ------------------------------------------------ deletion of a domain alias

  /** Deleting a domain alias keeps the tables consistent, and leaves no alias empty exactly when
      no other alias has only rows that point to the aliases that go with it. */
  lemma ValidDeleteDomainAlias(t: Tables, name: string)
    requires Consistent(t)
    ensures Consistent(DomainAliasDeleted(t, name))
    ensures Valid(DomainAliasDeleted(t, name)) <==> SafeWithout(t, AliasesAt(t, "@" + name))
  {
    var x, gone := DomainAliasDeleted(t, name), AliasesAt(t, "@" + name);
    DomainAliasConsistent(t, name);
    CascadeExactly(t, gone);
    EmptyIs(x);
    assert x.aliases == WithoutAliases(t, gone).aliases && x.recipients == WithoutAliases(t, gone).recipients;
  }

  lemma EmptyIs(x: Tables)
    ensures LeavesEmpty(x) <==> !NoneEmpty(x)
  {
  }

  lemma DomainAliasUnique(t: Tables, name: string)
    requires Unique(t) && RowsUnique(t)
    ensures Unique(DomainAliasDeleted(t, name)) && RowsUnique(DomainAliasDeleted(t, name))
  {
  }

  lemma DomainAliasConsistent(t: Tables, name: string)
    requires Consistent(t)
    ensures Consistent(DomainAliasDeleted(t, name))
  {
    var x := DomainAliasDeleted(t, name);
    DomainAliasUnique(t, name);
    forall n | n in x.mailboxes ensures FullAddress(x.mailboxes[n]) && HasSelfAlias(x, n) {
      MailboxFacts(t, n);
      DomainAliasSelf(t, name, n);
    }
    forall r | r in x.recipients ensures RowOk(x, r) {
      assert RowOk(t, r);
    }
    forall a | a in x.aliases ensures AliasOk(x, a) {
      DomainAliasKeeps(t, name, a);
    }
  }

  lemma DomainAliasSelf(t: Tables, name: string, n: Id)
    requires Consistent(t) && n in t.mailboxes
    ensures HasSelfAlias(DomainAliasDeleted(t, name), n)
  {
    var x := DomainAliasDeleted(t, name);
    MailboxFacts(t, n);
    var s :| SelfRow(t, n, t.mailboxes[n], s);
    assert RowOk(t, s);
    assert SelfRow(x, n, x.mailboxes[n], s);
  }

  lemma DomainAliasKeeps(t: Tables, name: string, a: Id)
    requires AliasesOk(t) && a in DomainAliasDeleted(t, name).aliases
    ensures AliasOk(DomainAliasDeleted(t, name), a)
  {
    var x := DomainAliasDeleted(t, name);
    assert AliasOk(t, a);
    var address := t.aliases[a].address;
    if t.aliases[a].internal && MailboxAt(t, address) {
      var n :| n in t.mailboxes && t.mailboxes[n] == address;
      assert n in x.mailboxes && x.mailboxes[n] == address;
    } else if t.aliases[a].internal {
      assert address == "@" + address[1..];
    }
  }

  // ------------------------------------------------------------------- runs

  /** Every event keeps the tables consistent; every safe event leaves no alias empty. */
  lemma ValidStep(t: Tables, e: Event)
    requires Consistent(t)
    ensures Consistent(ApplyAny(t, e))
    ensures Valid(t) ==> Valid(Apply(t, e))
  {
    if Possible(t, e) {
      match e
      case CreateMailbox(m, address, a, r) => ValidCreateMailbox(t, m, address, a, r);
      case RenameMailbox(m, address, self) => ValidRename(t, m, address, self);
      case DeleteMailbox(m, rows) => ValidDeleted(t, m, rows);
      case CreateDomainAlias(name, target, a, r) => ValidCreateDomainAlias(t, name, target, a, r);
      case DeleteDomainAlias(name) => ValidDeleteDomainAlias(t, name);
      case CreateAlias(a, address, r, to) => ValidCreateAlias(t, a, address, r, to);
      case AddRecipient(a, r, to) => ValidAddRecipient(t, a, r, to);
    }
  }

  /**
   Through every run from empty tables whose deletions are safe: every mailbox has its internal
   self alias at its current address with a row pointing back, all its rows carry that address, no
   alias is empty and no row refers to a deleted mailbox or alias.
   */
  lemma {:induction false} TablesStayConsistent(events: seq<Event>)
    ensures Valid(Run(Empty(), events))
  {
    if events != [] {
      TablesStayConsistent(events[..|events| - 1]);
      ValidStep(Run(Empty(), events[..|events| - 1]), events[|events| - 1]);
    }
  }

  /** Through every run at all, every promise but "no alias is empty" holds. */
  lemma {:induction false} PromisesOfEveryRun(events: seq<Event>)
    ensures Consistent(RunAny(Empty(), events))
  {
    if events != [] {
      PromisesOfEveryRun(events[..|events| - 1]);
      ValidStep(RunAny(Empty(), events[..|events| - 1]), events[|events| - 1]);
    }
  }

  // ------------------------------------- without aliases as recipients of aliases

  predicate NoAliasRows(t: Tables) {
    forall r :: r in t.recipients ==> t.recipients[r].rAlias.None?
  }

  /** Every deletion of a mailbox is safe then. */
  lemma SafeWithoutAliasRecipients(t: Tables, m: Id)
    requires Valid(t) && m in t.mailboxes && NoAliasRows(t)
    ensures Safe(t, m)
  {
    forall a | a in t.aliases && !Doomed(t, m, a)
      ensures HasSafeRow(t, m, a)
    {
      var r :| r in t.recipients && t.recipients[r].alias == a && t.recipients[r].rMailbox != Some(m);
      assert KeepsRow(t, m, r);
    }
  }

  /** So is every deletion of aliases. */
  lemma CascadeWithoutAliasRecipients(t: Tables, gone: set<Id>)
    requires NoneEmpty(t) && NoAliasRows(t)
    ensures SafeWithout(t, gone)
  {
    forall a | a in t.aliases && a !in gone
      ensures HasRowElsewhere(t, gone, a)
    {
      assert HasRecipient(t.recipients, a);
      var r :| r in t.recipients && t.recipients[r].alias == a;
      assert t.recipients[r].rAlias.None?;
    }
  }

  predicate AddsNoAliasRow(e: Event) {
    && (e.CreateAlias? ==> !e.to.ToAlias?)
    && (e.AddRecipient? ==> !e.to.ToAlias?)
  }

  lemma NoAliasRowsStep(t: Tables, e: Event)
    requires Consistent(t) && NoAliasRows(t) && AddsNoAliasRow(e)
    ensures NoAliasRows(ApplyAny(t, e))
  {
    if Possible(t, e) && e.DeleteMailbox? {
      DeletionShrinks(t, e.m, e.rows);
    }
  }

  lemma EverySafe(t: Tables, e: Event)
    requires Valid(t) && NoAliasRows(t)
    ensures SafeEvent(t, e)
  {
    match e
    case DeleteMailbox(m, _) => if m in t.mailboxes { SafeWithoutAliasRecipients(t, m); }
    case DeleteDomainAlias(name) => CascadeWithoutAliasRecipients(t, AliasesAt(t, "@" + name));
    case _ =>
  }

  /** Through every run that adds no alias as a recipient, deletions unrestricted, every promise
      holds: each deletion of a live mailbox or domain alias is safe when it comes. */
  lemma {:induction false} WithoutAliasRecipients(events: seq<Event>)
    requires forall i :: 0 <= i < |events| ==> AddsNoAliasRow(events[i])
    ensures var t := RunAny(Empty(), events);
            && Valid(t) && NoAliasRows(t) && t == Run(Empty(), events)
            && forall e :: SafeEvent(t, e)
  {
    var t := RunAny(Empty(), events);
    if events != [] {
      var front, e := events[..|events| - 1], events[|events| - 1];
      WithoutAliasRecipients(front);
      EverySafe(RunAny(Empty(), front), e);
      ValidStep(RunAny(Empty(), front), e);
      NoAliasRowsStep(RunAny(Empty(), front), e);
    }
    forall e
      ensures SafeEvent(t, e)
    {
      EverySafe(t, e);
    }
  }

  // ----------------------------------------------------------------- an example

  /** A mailbox "b@c", an alias "x@c" of the mailbox, and an alias "y@c" of "x@c". */
  function ChainOfAliases(): seq<Event> {
    [CreateMailbox(0, "b@c", 0, 0), CreateAlias(1, "x@c", 1, ToMailbox(0)), CreateAlias(2, "y@c", 2, ToAlias(1))]
  }

  function Chained(): Tables {
    Tables(map[0 := "b@c"],
           map[0 := AliasRow("b@c", true), 1 := AliasRow("x@c", false), 2 := AliasRow("y@c", false)],
           map[0 := Recipient("b@c", 0, Some(0), None), 1 := Recipient("b@c", 1, Some(0), None),
               2 := Recipient("x@c", 2, None, Some(1))],
           {})
  }

  lemma ChainIsReached()
    ensures RunAny(Empty(), ChainOfAliases()) == Chained()
  {
    var t0 := Empty();
    var all := ChainOfAliases();
    assert all[..2] == [all[0]] + [all[1]] && all[..2][..1] == [all[0]] && [all[0]][..0] == [];
    assert "b@c"[0] == 'b' && "x@c"[0] == 'x' && "y@c"[0] == 'y';
    var t1 := ApplyAny(t0, all[0]);
    assert RunAny(t0, [all[0]]) == t1;
    var t2 := ApplyAny(t1, all[1]);
    assert RunAny(t0, all[..2]) == t2;
    assert RunAny(t0, all) == ApplyAny(t2, all[2]);
  }

  /**
   A reachable state where the promise breaks: deleting the mailbox empties and deletes the alias
   "x@c", and the cascade leaves "y@c" without recipient.
   */
  lemma AliasRecipientLeavesEmptyAlias(t: Tables)
    requires t == Chained()
    ensures RowsOf(t, 0, [0, 1]) && Stranded(t, 0, 2)
    ensures var x := MailboxDeleted(t, 0, [0, 1]); 2 in x.aliases && !HasRecipient(x.recipients, 2)
  {
    var x0 := RowDropped(t, 0);
    assert [0 as Id, 1][..1] == [0] && [0 as Id][..0] == [];
    assert RowsDropped(t, [0]) == x0;
    assert !HasRecipient(t.recipients - {0}, 0);
    assert 1 in x0.recipients && 2 in x0.aliases;
    assert !HasRecipient(x0.recipients - {1}, 1);
    var x1 := RowDropped(x0, 1);
    assert RowsDropped(t, [0, 1]) == x1;
    ChainIsStranded(t);
  }

  lemma ChainIsStranded(t: Tables)
    requires t == Chained()
    ensures Stranded(t, 0, 2)
  {
    assert OnlyMailbox(t, 0, 1);
    assert t.recipients[2].alias == 2;
    assert forall r :: r in t.recipients && t.recipients[r].alias == 2 ==> r == 2;
  }

  /** A domain alias "d" of "c", and an alias "x@c" of its internal alias. */
  function AliasOfDomainAlias(): seq<Event> {
    [CreateDomainAlias("d", "c", 0, 0), CreateAlias(1, "x@c", 1, ToAlias(0))]
  }

  function Attached(): Tables {
    Tables(map[], map[0 := AliasRow("@d", true), 1 := AliasRow("x@c", false)],
           map[0 := Recipient("@c", 0, None, None), 1 := Recipient("@d", 1, None, Some(0))], {"d"})
  }

  lemma AttachedIsReached()
    ensures RunAny(Empty(), AliasOfDomainAlias()) == Attached()
  {
    var all := AliasOfDomainAlias();
    assert all[..1] == [all[0]] && [all[0]][..0] == [];
    assert "@" + "d" == "@d" && "@" + "c" == "@c";
    assert "x@c"[0] == 'x' && "@d"[0] == '@';
    var t1 := ApplyAny(Empty(), all[0]);
    assert RunAny(Empty(), [all[0]]) == t1;
    assert RunAny(Empty(), all) == ApplyAny(t1, all[1]);
  }

  /** Deleting the domain alias takes its internal alias, and leaves "x@c" without recipient. */
  lemma DomainAliasLeavesEmptyAlias()
    ensures var t := Attached(); var x := DomainAliasDeleted(t, "d");
            && !SafeWithout(t, AliasesAt(t, "@" + "d")) && 1 in x.aliases && !HasRecipient(x.recipients, 1)
  {
    var t := Attached();
    assert "@" + "d" == "@d";
    assert "x@c"[0] != "@d"[0];
    assert 0 in AliasesAt(t, "@d") && 1 !in AliasesAt(t, "@d");
    assert !HasRowElsewhere(t, AliasesAt(t, "@d"), 1);
  }
}
