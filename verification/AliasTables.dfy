/**
 The mailbox, alias and recipient tables, and the signal handlers that keep them together.
 Every mailbox has an internal "self alias" at its own address.
 */
module AliasTables {
  import opened Text

  type Id = nat

  datatype AliasRow = AliasRow(address: string, internal: bool)

  /** A recipient of an alias: a local mailbox, a local alias, or neither. */
  datatype Recipient = Recipient(address: string, alias: Id, rMailbox: Option<Id>, rAlias: Option<Id>)

  /** `mailboxes` holds full addresses, `domainAliases` the names of domain aliases. */
  datatype Tables = Tables(
    mailboxes: map<Id, string>, aliases: map<Id, AliasRow>, recipients: map<Id, Recipient>,
    domainAliases: set<string>)

  // ------------------------------------------------------------ transitions

  predicate AddressTaken(t: Tables, address: string, internal: bool) {
    exists a :: a in t.aliases && t.aliases[a] == AliasRow(address, internal)
  }

  predicate MailboxAt(t: Tables, address: string) {
    exists m :: m in t.mailboxes && t.mailboxes[m] == address
  }

  /** An alias of `kind` with one recipient row. */
  function WithAlias(t: Tables, a: Id, row: AliasRow, r: Id, recipient: Recipient): Tables {
    t.(aliases := t.aliases[a := row], recipients := t.recipients[r := recipient])
  }

  /** Creating a mailbox creates its self alias. */
  function MailboxCreated(t: Tables, m: Id, address: string, a: Id, r: Id): Tables {
    WithAlias(t, a, AliasRow(address, true), r, Recipient(address, a, Some(m), None))
      .(mailboxes := t.mailboxes[m := address])
  }

  /** The row of the self alias that a rename looks up. */
  predicate SelfRow(t: Tables, m: Id, at: string, r: Id) {
    && r in t.recipients && t.recipients[r].rMailbox == Some(m) && t.recipients[r].address == at
    && t.recipients[r].alias in t.aliases && t.aliases[t.recipients[r].alias] == AliasRow(at, true)
  }

  /** Renaming moves the self alias and the rows of the mailbox in non-internal aliases. */
  function MailboxRenamed(t: Tables, m: Id, address: string, self: Id): Tables
    requires m in t.mailboxes && SelfRow(t, m, t.mailboxes[m], self)
  {
    var a := t.recipients[self].alias;
    t.(mailboxes := t.mailboxes[m := address],
       aliases := t.aliases[a := AliasRow(address, true)],
       recipients := map r | r in t.recipients ::
         if r == self || (t.recipients[r].rMailbox == Some(m) && !Internal(t, t.recipients[r].alias))
         then t.recipients[r].(address := address) else t.recipients[r])
  }

  predicate Internal(t: Tables, a: Id) {
    a in t.aliases && t.aliases[a].internal
  }

  /** Deleting aliases takes the rows that belong to them or point to them (cascade). */
  function WithoutAliases(t: Tables, gone: set<Id>): Tables {
    t.(aliases := t.aliases - gone,
       recipients := map r | r in t.recipients && t.recipients[r].alias !in gone &&
                             (t.recipients[r].rAlias.Some? ==> t.recipients[r].rAlias.value !in gone)
                           :: t.recipients[r])
  }

  predicate HasRecipient(recipients: map<Id, Recipient>, a: Id) {
    exists r :: r in recipients && recipients[r].alias == a
  }

  /** Delete one recipient row, and its alias when that leaves it empty. */
  function RowDropped(t: Tables, r: Id): Tables {
    if r !in t.recipients then t
    else
      var a := t.recipients[r].alias;
      var left := t.(recipients := t.recipients - {r});
      if HasRecipient(left.recipients, a) then left else WithoutAliases(left, {a})
  }

  function RowsDropped(t: Tables, rows: seq<Id>): Tables {
    if rows == [] then t else RowDropped(RowsDropped(t, rows[..|rows| - 1]), rows[|rows| - 1])
  }

  function AliasesAt(t: Tables, address: string): set<Id> {
    set a | a in t.aliases && t.aliases[a].address == address
  }

  ghost predicate RowsOf(t: Tables, m: Id, rows: seq<Id>) {
    && (forall r :: r in rows <==> r in t.recipients && t.recipients[r].rMailbox == Some(m))
    && (forall i, j :: 0 <= i < j < |rows| ==> rows[i] != rows[j])
  }

  /** `rows` are the recipient rows of the mailbox, in the order of the query. */
  function MailboxDeleted(t: Tables, m: Id, rows: seq<Id>): Tables
    requires m in t.mailboxes
  {
    var dropped := RowsDropped(t, rows);
    WithoutAliases(dropped, AliasesAt(dropped, t.mailboxes[m])).(mailboxes := t.mailboxes - {m})
  }

  function DomainAliasCreated(t: Tables, name: string, target: string, a: Id, r: Id): Tables {
    WithAlias(t, a, AliasRow("@" + name, true), r, Recipient("@" + target, a, None, None))
      .(domainAliases := t.domainAliases + {name})
  }

  function DomainAliasDeleted(t: Tables, name: string): Tables {
    WithoutAliases(t, AliasesAt(t, "@" + name)).(domainAliases := t.domainAliases - {name})
  }

  // -------------------------------------------------------------- invariant

  predicate Unique(t: Tables) {
    && (forall m, n :: m in t.mailboxes && n in t.mailboxes && t.mailboxes[m] == t.mailboxes[n] ==> m == n)
    && (forall a, b :: a in t.aliases && b in t.aliases && t.aliases[a] == t.aliases[b] ==> a == b)
  }

  /** The mailbox's own alias, with a row that points back to the mailbox. */
  ghost predicate HasSelfAlias(t: Tables, m: Id)
    requires m in t.mailboxes
  {
    exists r :: SelfRow(t, m, t.mailboxes[m], r)
  }

  /** A recipient row agrees with the tables it refers to. */
  predicate RowOk(t: Tables, r: Id)
    requires r in t.recipients
  {
    var row := t.recipients[r];
    && row.alias in t.aliases
    && (row.rAlias.Some? ==> row.rMailbox.None? && row.rAlias.value in t.aliases)
    && (row.rMailbox.Some? ==>
          && row.rMailbox.value in t.mailboxes
          && row.address == t.mailboxes[row.rMailbox.value]
          && (t.aliases[row.alias].internal ==> t.aliases[row.alias].address == row.address))
  }

  /** An internal alias is a self alias or stands for a domain alias. */
  predicate AliasOk(t: Tables, a: Id)
    requires a in t.aliases
  {
    t.aliases[a].internal ==> MailboxAt(t, t.aliases[a].address) || DomainAliasAt(t, t.aliases[a].address)
  }

  predicate DomainAliasAt(t: Tables, address: string) {
    address != "" && address[0] == '@' && address[1..] in t.domainAliases
  }

  /** A full address, with a local part. */
  predicate FullAddress(address: string) {
    address != "" && address[0] != '@'
  }

  ghost predicate MailboxesOk(t: Tables) {
    forall m {:trigger HasSelfAlias(t, m)} :: m in t.mailboxes ==> FullAddress(t.mailboxes[m]) && HasSelfAlias(t, m)
  }

  predicate RowsOk(t: Tables) {
    forall r {:trigger RowOk(t, r)} :: r in t.recipients ==> RowOk(t, r)
  }

  predicate AliasesOk(t: Tables) {
    forall a {:trigger AliasOk(t, a)} :: a in t.aliases ==> AliasOk(t, a)
  }

  /** No alias is empty. */
  predicate NoneEmpty(t: Tables) {
    forall a {:trigger HasRecipient(t.recipients, a)} :: a in t.aliases ==> HasRecipient(t.recipients, a)
  }

  /** A mailbox is at most once a recipient of an alias. */
  predicate RowsUnique(t: Tables) {
    forall r, s | r in t.recipients && s in t.recipients && t.recipients[r].rMailbox.Some? ::
      t.recipients[r].alias == t.recipients[s].alias && t.recipients[r].rMailbox == t.recipients[s].rMailbox ==> r == s
  }

  /** What every state keeps: unique addresses, self aliases at the current addresses, and rows
      that agree with the tables and point nowhere else. */
  ghost predicate Consistent(t: Tables) {
    Unique(t) && MailboxesOk(t) && RowsOk(t) && AliasesOk(t) && RowsUnique(t)
  }

  /** Consistent tables without an empty alias. */
  ghost predicate Valid(t: Tables) {
    Consistent(t) && NoneEmpty(t)
  }

  // ---------------------------------------------------------------- lookups

  /** No internal alias sits at a free mailbox address, so a new self alias never meets one. */
  lemma SelfAliasIsNew(t: Tables, address: string)
    requires Consistent(t) && FullAddress(address) && !MailboxAt(t, address)
    ensures !AddressTaken(t, address, true)
  {
    forall a | a in t.aliases ensures t.aliases[a] != AliasRow(address, true) {
      assert AliasOk(t, a);
    }
  }

  lemma MailboxFacts(t: Tables, m: Id)
    requires MailboxesOk(t) && m in t.mailboxes
    ensures FullAddress(t.mailboxes[m]) && HasSelfAlias(t, m)
  {
    assert HasSelfAlias(t, m);
  }

  /** The row that the handler looks up is the only candidate. */
  lemma SelfRowUnique(t: Tables, m: Id, r: Id, s: Id)
    requires Consistent(t) && m in t.mailboxes && SelfRow(t, m, t.mailboxes[m], r) && SelfRow(t, m, t.mailboxes[m], s)
    ensures r == s
  {
  }

  /** A rename always finds its self alias row, so the handler's lookup does not raise. */
  lemma RenameFindsSelfAlias(t: Tables, m: Id) returns (self: Id)
    requires Consistent(t) && m in t.mailboxes
    ensures SelfRow(t, m, t.mailboxes[m], self)
    ensures forall s :: SelfRow(t, m, t.mailboxes[m], s) ==> s == self
  {
    MailboxFacts(t, m);
    self :| SelfRow(t, m, t.mailboxes[m], self);
  }

  // -------------------------------------------------------------- the code

  class Database {
    var mailboxes: map<Id, string>
    var aliases: map<Id, AliasRow>
    var recipients: map<Id, Recipient>
    var domainAliases: set<string>

    constructor ()
      ensures Snapshot() == Tables(map[], map[], map[], {})
    {
      mailboxes, aliases, recipients, domainAliases := map[], map[], map[], {};
    }

    function Snapshot(): Tables
      reads this
    {
      Tables(mailboxes, aliases, recipients, domainAliases)
    }

    /** Django's deletion of aliases, with its cascade. */
    method DeleteAliases(gone: set<Id>)
      modifies this
      ensures Snapshot() == WithoutAliases(old(Snapshot()), gone)
    {
      aliases := aliases - gone;
      recipients := map r | r in recipients && recipients[r].alias !in gone &&
                            (recipients[r].rAlias.Some? ==> recipients[r].rAlias.value !in gone) :: recipients[r];
    }

    /** `get_or_create` of the internal alias at `address`; `a` is the key of a new one. */
    method GetOrCreateAlias(address: string, a: Id) returns (found: Id)
      modifies this`aliases
      ensures AddressTaken(old(Snapshot()), address, true) ==>
                aliases == old(aliases) && found in aliases && aliases[found] == AliasRow(address, true)
      ensures !AddressTaken(old(Snapshot()), address, true) ==>
                found == a && aliases == old(aliases)[a := AliasRow(address, true)]
    {
      var candidates := set b | b in aliases && aliases[b] == AliasRow(address, true);
      if candidates == {} {
        forall b | b in aliases
          ensures aliases[b] != AliasRow(address, true)
        {
          assert b !in candidates;
        }
        aliases := aliases[a := AliasRow(address, true)];
        return a;
      }
      found :| found in candidates;
    }

    /** The save of a new mailbox, then `manage_alias_for_mailbox`. In consistent tables the
        search for an alias at the new address finds none, and the self alias is created. */
    method CreateMailbox(m: Id, address: string, a: Id, r: Id)
      modifies this
      ensures Consistent(old(Snapshot())) && FullAddress(address) && !MailboxAt(old(Snapshot()), address) ==>
                Snapshot() == MailboxCreated(old(Snapshot()), m, address, a, r)
      ensures mailboxes == old(mailboxes)[m := address] && domainAliases == old(domainAliases)
      ensures Consistent(old(Snapshot())) && FullAddress(address) && !MailboxAt(old(Snapshot()), address) ==>
                aliases == old(aliases)[a := AliasRow(address, true)] && recipients[r].alias == a
      ensures r in recipients && recipients == old(recipients)[r := recipients[r]]
      ensures SelfRow(Snapshot(), m, address, r) && recipients[r].rAlias.None?
    {
      if Consistent(Snapshot()) && FullAddress(address) && !MailboxAt(Snapshot(), address) {
        SelfAliasIsNew(Snapshot(), address);
      }
      mailboxes := mailboxes[m := address];
      var alias := GetOrCreateAlias(address, a);
      recipients := recipients[r := Recipient(address, alias, Some(m), None)];
    }

    /** The save of a mailbox under a new address, then `manage_alias_for_mailbox`. False: the
        lookup of the self alias row found none or several, which raises; it cannot happen in
        consistent tables. */
    method RenameMailbox(m: Id, address: string) returns (ok: bool, self: Id)
      requires m in mailboxes
      modifies this
      ensures Consistent(old(Snapshot())) ==> ok
      ensures address == old(mailboxes[m]) ==> ok && Snapshot() == old(Snapshot())
      ensures ok && address != old(mailboxes[m]) ==>
                && SelfRow(old(Snapshot()), m, old(mailboxes[m]), self)
                && (forall s :: SelfRow(old(Snapshot()), m, old(mailboxes[m]), s) ==> s == self)
                && Snapshot() == MailboxRenamed(old(Snapshot()), m, address, self)
      ensures !ok ==> Snapshot() == old(Snapshot()).(mailboxes := old(mailboxes)[m := address])
    {
      var at := mailboxes[m];
      if address == at {
        assert mailboxes == mailboxes[m := address];
        return true, 0;
      }
      var candidates := set r | r in recipients && SelfRow(Snapshot(), m, at, r);
      if Consistent(Snapshot()) {
        var row := RenameFindsSelfAlias(Snapshot(), m);
        assert candidates == {row};
      }
      if |candidates| != 1 {
        mailboxes := mailboxes[m := address];
        return false, 0;
      }
      self :| self in candidates;
      OnlyCandidate(candidates, self);
      assert forall s :: SelfRow(Snapshot(), m, at, s) ==> s in candidates;
      MoveSelfAlias(m, address, self);
      ok := true;
    }

    /** The updates of a rename, once the row is found. */
    method MoveSelfAlias(m: Id, address: string, self: Id)
      requires m in mailboxes && SelfRow(Snapshot(), m, mailboxes[m], self)
      modifies this
      ensures Snapshot() == MailboxRenamed(old(Snapshot()), m, address, self)
    {
      ghost var before := Snapshot();
      mailboxes := mailboxes[m := address];
      recipients := recipients[self := recipients[self].(address := address)];
      var a := recipients[self].alias;
      aliases := aliases[a := AliasRow(address, true)];
      recipients := map r | r in recipients ::
        if recipients[r].rMailbox == Some(m) && !Internal(Snapshot(), recipients[r].alias)
        then recipients[r].(address := address) else recipients[r];
      assert recipients == MailboxRenamed(before, m, address, self).recipients;
    }

    /** `mailbox_deleted_handler`, the deletion of the row, then `remove_alias_for_mailbox`. */
    method DeleteMailbox(m: Id, rows: seq<Id>)
      requires m in mailboxes
      modifies this
      ensures Snapshot() == MailboxDeleted(old(Snapshot()), m, rows)
    {
      ghost var before := Snapshot();
      var address := mailboxes[m];
      for i := 0 to |rows|
        invariant Snapshot() == RowsDropped(before, rows[..i])
        invariant mailboxes == before.mailboxes
      {
        assert rows[..i + 1][..i] == rows[..i];
        DropRow(rows[i]);
      }
      assert rows[..|rows|] == rows;
      mailboxes := mailboxes - {m};
      var gone := set a | a in aliases && aliases[a].address == address;
      DeleteAliases(gone);
    }

    method DropRow(r: Id)
      modifies this
      ensures Snapshot() == RowDropped(old(Snapshot()), r)
      ensures mailboxes == old(mailboxes)
    {
      if r in recipients {
        var a := recipients[r].alias;
        recipients := recipients - {r};
        if !HasRecipient(recipients, a) {
          DeleteAliases({a});
        }
      }
    }

    method CreateDomainAlias(name: string, target: string, a: Id, r: Id)
      modifies this
      ensures Snapshot() == DomainAliasCreated(old(Snapshot()), name, target, a, r)
      ensures domainAliases == old(domainAliases) + {name} && mailboxes == old(mailboxes)
      ensures aliases == old(aliases)[a := AliasRow("@" + name, true)]
      ensures recipients == old(recipients)[r := Recipient("@" + target, a, None, None)]
    {
      domainAliases := domainAliases + {name};
      aliases := aliases[a := AliasRow("@" + name, true)];
      recipients := recipients[r := Recipient("@" + target, a, None, None)];
    }

    method DeleteDomainAlias(name: string)
      modifies this
      ensures Snapshot() == DomainAliasDeleted(old(Snapshot()), name)
    {
      domainAliases := domainAliases - {name};
      var gone := set a | a in aliases && aliases[a].address == "@" + name;
      DeleteAliases(gone);
    }
  }

  /** A rename field by field: the mailbox, its self alias and every row that carries the old address
      move to the new one; no row changes what it belongs or points to, and nothing else changes. */
  lemma RenamedFields(t: Tables, m: Id, address: string, self: Id, r: Id)
    requires m in t.mailboxes && SelfRow(t, m, t.mailboxes[m], self)
    ensures var x := MailboxRenamed(t, m, address, self); var own := t.recipients[self].alias;
            && x.domainAliases == t.domainAliases
            && x.mailboxes.Keys == t.mailboxes.Keys && x.mailboxes[m] == address
            && (forall n :: n in t.mailboxes && n != m ==> x.mailboxes[n] == t.mailboxes[n])
            && x.aliases.Keys == t.aliases.Keys && x.aliases[own] == AliasRow(address, true)
            && (forall a :: a in t.aliases && a != own ==> x.aliases[a] == t.aliases[a])
            && (r in x.recipients <==> r in t.recipients)
    ensures r in t.recipients ==>
              var row, row' := t.recipients[r], MailboxRenamed(t, m, address, self).recipients[r];
              && row'.alias == row.alias && row'.rMailbox == row.rMailbox && row'.rAlias == row.rAlias
              && (row.rMailbox != Some(m) ==> row'.address == row.address)
              && (row.rMailbox == Some(m) && Consistent(t) ==> row'.address == address)
  {
    if r in t.recipients && t.recipients[r].rMailbox == Some(m) && Consistent(t) {
      assert RowOk(t, r);
      if t.aliases[t.recipients[r].alias].internal {
        SelfRowUnique(t, m, r, self);
      }
    }
  }

  /** Deleting a domain alias takes every alias at its address, the rows of those aliases and the rows
      that point to them, and nothing else. */
  lemma DomainAliasDeletedFields(t: Tables, name: string, a: Id, r: Id)
    requires RowsOk(t)
    ensures var x, at := DomainAliasDeleted(t, name), "@" + name;
            && x.domainAliases == t.domainAliases - {name} && x.mailboxes == t.mailboxes
            && (a in x.aliases <==> a in t.aliases && t.aliases[a].address != at)
            && (a in x.aliases ==> x.aliases[a] == t.aliases[a])
            && (r in x.recipients ==> r in t.recipients && x.recipients[r] == t.recipients[r])
            && (r in t.recipients ==>
                  var row := t.recipients[r];
                  && RowOk(t, r)
                  && (r in x.recipients <==>
                     && t.aliases[row.alias].address != at
                     && (row.rAlias.Some? ==> t.aliases[row.rAlias.value].address != at)))
  {
    if r in t.recipients { assert RowOk(t, r); }
  }

  lemma OnlyCandidate(candidates: set<Id>, self: Id)
    requires |candidates| == 1 && self in candidates
    ensures candidates == {self}
  {
    assert |candidates - {self}| == 0;
    assert candidates == candidates - {self} + {self};
  }
}
