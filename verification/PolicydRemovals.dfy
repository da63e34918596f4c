/** Removing a limit while requests are in flight: when a counter comes back on an unlimited key. */
module PolicydRemovals {
  import opened Text
  import opened Policyd
  import opened PolicydRuns
  import opened PolicydCounters

  /** An unlimited key without counter, on which no decrement is pending. */
  predicate NoDebt(st: State, k: Key) {
    k !in st.counters && k !in st.limits && Owed(st, k) == 0
  }

  predicate SavesKey(e: Event, k: Key) {
    e.Save? && e.key == k
  }

  /** A reset of an unlimited key does nothing; any other event spares it. */
  lemma NoDebtStep(st: State, e: Event, k: Key)
    requires AllGood(st) && NoDebt(st, k) && !SavesKey(e, k)
    ensures NoDebt(Apply(st, e), k)
  {
    if Spares(e, k) {
      QuietStep(st, e, k);
      LimitKept(st, e, k);
    }
  }

  lemma LimitKept(st: State, e: Event, k: Key)
    requires !SavesKey(e, k)
    ensures k in Apply(st, e).limits <==> k in st.limits
  {
  }

  predicate NoSaves(events: seq<Event>, k: Key) {
    forall i :: 0 <= i < |events| ==> !SavesKey(events[i], k)
  }

  /** Whatever else happens, no counter appears until the limit is saved again. */
  lemma {:induction false} NoDebtRun(st: State, events: seq<Event>, k: Key)
    requires AllGood(st) && NoDebt(st, k) && NoSaves(events, k)
    ensures NoDebt(Run(st, events), k)
  {
    if events != [] {
      var front := events[..|events| - 1];
      NoDebtRun(st, front, k);
      GoodRun(st, front);
      NoDebtStep(Run(st, front), events[|events| - 1], k);
    }
  }

  // ------------------------------------------------- removals with nothing pending

  predicate Removes(e: Event, k: Key) {
    e.Save? && e.key == k && e.limit.None?
  }

  predicate SettledAt(st: State, events: seq<Event>, k: Key, i: nat)
    requires i < |events|
  {
    Removes(events[i], k) ==> Owed(Run(st, events[..i]), k) == 0
  }

  /** Every removal of the limit of `k` happens with no decrement of `k` pending. */
  predicate Settled(st: State, events: seq<Event>, k: Key) {
    forall i {:trigger SettledAt(st, events, k, i)} :: 0 <= i < |events| ==> SettledAt(st, events, k, i)
  }

  lemma SettledFront(st: State, events: seq<Event>, k: Key)
    requires Settled(st, events, k) && events != []
    ensures Settled(st, events[..|events| - 1], k)
    ensures Removes(events[|events| - 1], k) ==> Owed(Run(st, events[..|events| - 1]), k) == 0
  {
    var front := events[..|events| - 1];
    forall i | 0 <= i < |front|
      ensures SettledAt(st, front, k, i)
    {
      assert front[..i] == events[..i];
      assert SettledAt(st, events, k, i);
    }
    assert SettledAt(st, events, k, |front|);
  }

  lemma OwedAfterSave(st: State, key: Key, loaded: Option<nat>, limit: Option<nat>, k: Key)
    ensures Owed(SaveStep(st, key, loaded, limit), k) == Owed(st, k)
  {
  }

  lemma SettledStep(st: State, e: Event, k: Key)
    requires AllGood(st) && (k in st.limits || NoDebt(st, k)) && Fresh(st, e)
    requires Removes(e, k) ==> Owed(st, k) == 0
    ensures k in Apply(st, e).limits || NoDebt(Apply(st, e), k)
  {
    if SavesKey(e, k) {
      OwedAfterSave(st, k, e.loaded, e.limit, k);
    } else if k in st.limits {
      LimitKept(st, e, k);
    } else {
      NoDebtStep(st, e, k);
    }
  }

  /** In every fresh run whose removals happen with nothing pending, an unlimited key has no
      counter and nothing is pending on it. */
  lemma {:induction false} UnlimitedHasNoCounter(st: State, events: seq<Event>, k: Key)
    requires AllGood(st) && (k in st.limits || NoDebt(st, k))
    requires FreshRun(st, events) && Settled(st, events, k)
    ensures k in Run(st, events).limits || NoDebt(Run(st, events), k)
  {
    if events != [] {
      var front := events[..|events| - 1];
      FreshFront(st, events);
      SettledFront(st, events, k);
      UnlimitedHasNoCounter(st, front, k);
      GoodRun(st, front);
      SettledStep(Run(st, front), events[|events| - 1], k);
    }
  }

  /** From an empty database: every limited key has exactly its limit less what was spent since,
      and the unlimited keys have no counter. */
  lemma CountersFollowLimits(st: State, events: seq<Event>, k: Key)
    requires st.counters == map[] && st.limits == map[] && st.spent == map[] && st.procs == []
    requires FreshRun(st, events) && Settled(st, events, k)
    ensures var t := Run(st, events);
            && (k in t.counters <==> k in t.limits)
            && (k in t.limits ==> t.counters[k] + Get(t.spent, k, 0) == t.limits[k])
  {
    LimitedAndUnlimited(st, events, k);
    UnlimitedHasNoCounter(st, events, k);
  }

  // ------------------------------------------------------ removals with a debt

  /** `t` is reached from `s` by fresh events that do not save the limit of `k`. */
  ghost predicate Leads(s: State, t: State, k: Key) {
    exists events {:trigger FreshRun(s, events)} :: FreshRun(s, events) && NoSaves(events, k) && Run(s, events) == t
  }

  lemma LeadsSelf(s: State, k: Key)
    ensures Leads(s, s, k)
  {
    var none: seq<Event> := [];
    assert FreshRun(s, none) && NoSaves(none, k) && Run(s, none) == s;
  }

  lemma FreshMore(s: State, events: seq<Event>, e: Event)
    requires FreshRun(s, events) && Fresh(Run(s, events), e)
    ensures FreshRun(s, events + [e]) && Run(s, events + [e]) == Apply(Run(s, events), e)
  {
    var more := events + [e];
    assert more[..|events|] == events;
    forall i | 0 <= i < |more|
      ensures FreshAt(s, more, i)
    {
      if i < |events| {
        assert more[..i] == events[..i];
        assert FreshAt(s, events, i);
      }
    }
  }

  lemma LeadsStep(s: State, t: State, e: Event, k: Key)
    requires Leads(s, t, k) && Fresh(t, e) && !SavesKey(e, k)
    ensures Leads(s, Apply(t, e), k)
  {
    var events :| FreshRun(s, events) && NoSaves(events, k) && Run(s, events) == t;
    FreshMore(s, events, e);
    assert NoSaves(events + [e], k);
  }

  /** The request decrements `k` next: the counter comes back. */
  lemma PayNow(s: State, t: State, id: nat, k: Key) returns (u: State)
    requires Leads(s, t, k) && id < |t.procs| && Target(t.procs[id]) == Some(k)
    ensures Leads(s, u, k) && k in u.counters
  {
    LeadsStep(s, t, Resume(id), k);
    u := Apply(t, Resume(id));
  }

  lemma PayUserAfterDomain(s: State, t: State, id: nat, k: Key) returns (u: State)
    requires Leads(s, t, k) && id < |t.procs|
    requires var c := t.procs[id]; Good(c) && c.phase.DecrDomain? && c.decrUser && c.login == k
    ensures Leads(s, u, k) && k in u.counters
  {
    LeadsStep(s, t, Resume(id), k);
    u := PayNow(s, Apply(t, Resume(id)), id, k);
  }

  /** A limit for `login` that leaves at least one message. */
  function Enough(t: State, login: Key): nat {
    var count := Get(t.counters, login, 0);
    Get(t.limits, login, 0) + 1 + if count < 0 then -count else 0
  }

  /** A fresh save of a generous limit for the login, so that its own check lets it through. */
  lemma Refill(s: State, t: State, login: Key, k: Key) returns (u: State)
    requires Leads(s, t, k) && login != k
    ensures Leads(s, u, k) && u.procs == t.procs && login in u.counters && u.counters[login] >= 1
  {
    var e := Save(login, Lookup(t.limits, login), Some(Enough(t, login)));
    LeadsStep(s, t, e, k);
    u := Apply(t, e);
  }

  lemma PayAfterUserCheck(s: State, t: State, id: nat, k: Key) returns (u: State)
    requires Leads(s, t, k) && id < |t.procs|
    requires var c := t.procs[id];
             && c.phase.GetUser? && c.decrDomain && c.domain == Some(k)
             && c.login in t.counters && t.counters[c.login] >= 1
    ensures Leads(s, u, k) && k in u.counters
  {
    LeadsStep(s, t, Resume(id), k);
    u := PayNow(s, Apply(t, Resume(id)), id, k);
  }

  lemma PayBeforeUserCheck(s: State, t: State, id: nat, k: Key) returns (u: State)
    requires Leads(s, t, k) && id < |t.procs|
    requires var c := t.procs[id];
             && c.phase.AskUser? && c.decrDomain && c.domain == Some(k)
             && c.login in t.counters && t.counters[c.login] >= 1
    ensures Leads(s, u, k) && k in u.counters
  {
    LeadsStep(s, t, Resume(id), k);
    u := PayAfterUserCheck(s, Apply(t, Resume(id)), id, k);
  }

  /** A request that owes a decrement can be brought to make it. */
  lemma Pay(s: State, t: State, id: nat, k: Key) returns (u: State)
    requires Leads(s, t, k) && id < |t.procs| && Good(t.procs[id]) && Owes(t.procs[id], k) > 0
    ensures Leads(s, u, k) && k in u.counters
  {
    var c := t.procs[id];
    DistinctKeys(c.login);
    if Target(c) == Some(k) {
      u := PayNow(s, t, id, k);
    } else if c.phase.DecrDomain? {
      u := PayUserAfterDomain(s, t, id, k);
    } else {
      u := Refill(s, t, c.login, k);
      if c.phase.AskUser? {
        u := PayBeforeUserCheck(s, u, id, k);
      } else {
        u := PayAfterUserCheck(s, u, id, k);
      }
    }
  }

  lemma {:induction false} SomeOwes(procs: seq<Coroutine>, k: Key) returns (id: nat)
    requires Sum(procs, OwesOne(k)) > 0
    ensures id < |procs| && Owes(procs[id], k) > 0
  {
    id := |procs| - 1;
    if Owes(procs[id], k) == 0 {
      id := SomeOwes(procs[..|procs| - 1], k);
    }
  }

  /** A continuation that leaves a counter on `k` without saving its limit again. */
  ghost predicate Leaves(s: State, events: seq<Event>, k: Key) {
    FreshRun(s, events) && NoSaves(events, k) && k in Run(s, events).counters
  }

  lemma DebtLeaves(s: State, k: Key) returns (events: seq<Event>)
    requires AllGood(s) && Owed(s, k) > 0
    ensures Leaves(s, events, k)
  {
    var id := SomeOwes(s.procs, k);
    LeadsSelf(s, k);
    var u := Pay(s, s, id, k);
    events :| FreshRun(s, events) && NoSaves(events, k) && Run(s, events) == u;
  }

  /** After a limit is removed, some continuation leaves a counter on the unlimited key exactly
      when some request owed a decrement of it at the removal. */
  lemma PendingDecides(st: State, k: Key)
    requires AllGood(st) && k in st.limits
    ensures var after := SaveStep(st, k, Lookup(st.limits, k), None);
            (exists events :: Leaves(after, events, k)) <==> Owed(st, k) > 0
  {
    var after := SaveStep(st, k, Lookup(st.limits, k), None);
    OwedAfterSave(st, k, Lookup(st.limits, k), None, k);
    if Owed(st, k) > 0 {
      var events := DebtLeaves(after, k);
    } else {
      forall events: seq<Event>
        ensures !Leaves(after, events, k)
      {
        if NoSaves(events, k) {
          NoDebtRun(after, events, k);
        }
      }
    }
  }

  // ----------------------------------------------------------------- an example

  /** A limit of one is set, a request passes its check, the limit is removed, and the request
      decrements: the counter of the unlimited account is -1. */
  function RemovalWhilePending(login: Key): seq<Event> {
    [Save(login, None, Some(1)), Arrive(login), Resume(0), Resume(0), Resume(0),
     Save(login, Some(1), None), Resume(0)]
  }

  /** The state after the first three steps of the request. */
  function Checked(login: Key): State {
    var c := Started(login).(phase := DecrUser, decrUser := true, seen := [login]);
    State(map[login := 1], [c], map[login := 1], map[])
  }

  lemma RunNext(st: State, a: seq<Event>, b: Event, t: State)
    requires Run(st, a) == t
    ensures Run(st, a + [b]) == Apply(t, b)
  {
    assert (a + [b])[..|a|] == a;
  }

  lemma ArrivedIs(st: State, login: Key)
    requires st == State(map[], [], map[], map[])
    ensures var all := RemovalWhilePending(login);
            Run(st, [] + [all[0]] + [all[1]]) == State(map[login := 1], [Started(login)], map[login := 1], map[])
  {
    var all := RemovalWhilePending(login);
    assert Run(st, []) == st;
    RunNext(st, [], all[0], st);
    var t1 := Apply(st, all[0]);
    assert t1 == State(map[login := 1], [], map[login := 1], map[]);
    RunNext(st, [] + [all[0]], all[1], t1);
  }

  /** Three reads take the request past its check. */
  lemma ReadsOfCheck(login: Key)
    requires '@' in login
    ensures var counters := map[login := 1]; var c := Started(login);
            && Target(c).None? && Target(Read(c, counters)).None? && Target(Read(Read(c, counters), counters)).None?
            && Checked(login).procs == [Read(Read(Read(c, counters), counters), counters)]
  {
    DistinctKeys(login);
    assert [] + [login] == [login];
  }

  lemma ResumeReads(t: State)
    requires |t.procs| == 1 && Target(t.procs[0]).None?
    ensures Apply(t, Resume(0)) == t.(procs := [Read(t.procs[0], t.counters)])
  {
    assert t.procs[0 := Read(t.procs[0], t.counters)] == [Read(t.procs[0], t.counters)];
  }

  lemma CheckedIs(st: State, login: Key)
    requires st == State(map[], [], map[], map[]) && '@' in login
    ensures Run(st, RemovalWhilePending(login)[..5]) == Checked(login)
  {
    var all := RemovalWhilePending(login);
    var done := [] + [all[0]] + [all[1]];
    ArrivedIs(st, login);
    ReadsOfCheck(login);
    var t2 := Run(st, done);
    ResumeReads(t2);
    RunNext(st, done, all[2], t2);
    var t3 := Apply(t2, all[2]);
    ResumeReads(t3);
    RunNext(st, done + [all[2]], all[3], t3);
    var t4 := Apply(t3, all[3]);
    ResumeReads(t4);
    RunNext(st, done + [all[2]] + [all[3]], all[4], t4);
    assert all[..5] == done + [all[2]] + [all[3]] + [all[4]];
  }

  lemma PendingRemovalFails(st: State, login: Key)
    requires st == State(map[], [], map[], map[]) && '@' in login
    ensures var t := Run(st, RemovalWhilePending(login));
            login !in t.limits && login in t.counters && t.counters[login] == -1
  {
    var all := RemovalWhilePending(login);
    CheckedIs(st, login);
    var t := Apply(Checked(login), all[5]);
    RunNext(st, all[..5], all[5], Checked(login));
    RunNext(st, all[..5] + [all[5]], all[6], t);
    assert all == all[..5] + [all[5]] + [all[6]];
  }
}
