/** How limits, resets and decrements keep the live counters in step with the database. */
module PolicydCounters {
  import opened Text
  import opened Policyd
  import opened PolicydRuns

  // ----------------------------------------------------- accounting of counters

  /** Missing entries count as zero: the counter is the limit less what was spent, and it is
      stored exactly when the key is limited or something was spent on it. */
  predicate Balanced(st: State, k: Key) {
    && Get(st.counters, k, 0) + Get(st.spent, k, 0) == Get(st.limits, k, 0)
    && (k in st.counters <==> k in st.limits || Get(st.spent, k, 0) > 0)
  }

  function Lookup(m: map<Key, nat>, k: Key): Option<nat> {
    if k in m then Some(m[k]) else None
  }

  /** A save is made from an instance that carries the stored limit. */
  predicate Fresh(st: State, e: Event) {
    e.Save? ==> e.loaded == Lookup(st.limits, e.key)
  }

  predicate FreshAt(st: State, events: seq<Event>, i: nat)
    requires i < |events|
  {
    Fresh(Run(st, events[..i]), events[i])
  }

  predicate FreshRun(st: State, events: seq<Event>) {
    forall i {:trigger FreshAt(st, events, i)} :: 0 <= i < |events| ==> FreshAt(st, events, i)
  }

  lemma BalancedSave(st: State, key: Key, limit: Option<nat>, k: Key)
    requires Balanced(st, k)
    ensures Balanced(SaveStep(st, key, Lookup(st.limits, key), limit), k)
  {
  }

  lemma BalancedResume(st: State, id: nat, k: Key)
    requires Balanced(st, k) && id < |st.procs|
    ensures Balanced(ResumeStep(st, id), k)
  {
  }

  lemma BalancedStep(st: State, e: Event, k: Key)
    requires Balanced(st, k) && Fresh(st, e)
    ensures Balanced(Apply(st, e), k)
  {
    match e
    case Arrive(login) =>
    case Resume(id) => if id < |st.procs| { BalancedResume(st, id, k); }
    case Cancel(id) =>
    case Save(key, loaded, limit) => BalancedSave(st, key, limit, k);
    case Reset(key) =>
  }

  lemma FreshFront(st: State, events: seq<Event>)
    requires FreshRun(st, events) && events != []
    ensures FreshRun(st, events[..|events| - 1])
    ensures Fresh(Run(st, events[..|events| - 1]), events[|events| - 1])
  {
    var front := events[..|events| - 1];
    forall i | 0 <= i < |front|
      ensures FreshAt(st, front, i)
    {
      assert front[..i] == events[..i];
      assert FreshAt(st, events, i);
    }
    assert FreshAt(st, events, |front|);
  }

  /**
   In every run of requests, cancellations, resets, limit creations, changes and removals made
   from fresh instances, every counter stays balanced, even when a limit is removed while
   decrements are pending.
   */
  lemma {:induction false} CounterAccounting(st: State, events: seq<Event>, k: Key)
    requires Balanced(st, k) && FreshRun(st, events)
    ensures Balanced(Run(st, events), k)
  {
    if events != [] {
      FreshFront(st, events);
      CounterAccounting(st, events[..|events| - 1], k);
      BalancedStep(Run(st, events[..|events| - 1]), events[|events| - 1], k);
    }
  }

  /** From an empty database: limited keys are exact, and an unlimited key has a counter exactly
      when it was decremented since its limit was removed. */
  lemma LimitedAndUnlimited(st: State, events: seq<Event>, k: Key)
    requires st.counters == map[] && st.limits == map[] && st.spent == map[] && FreshRun(st, events)
    ensures var t := Run(st, events);
            && (k in t.limits ==> k in t.counters && t.counters[k] + Get(t.spent, k, 0) == t.limits[k])
            && (k !in t.limits ==> (k in t.counters <==> Get(t.spent, k, 0) > 0))
  {
    CounterAccounting(st, events, k);
  }

  /** Saving from a stale instance keeps the counter right exactly under this condition. A new
      limit needs the stale limit to equal the stored one, NULL counting as zero. A removal needs
      a stale instance that had a limit, or nothing stored, or a limit of zero overdrawn. */
  lemma StaleSave(st: State, key: Key, loaded: Option<nat>, limit: Option<nat>)
    requires Balanced(st, key)
    ensures Balanced(SaveStep(st, key, loaded, limit), key) <==>
            if limit.Some? then
              && (if loaded.Some? then loaded.value else 0) == Get(st.limits, key, 0)
              && (loaded == limit ==> key in st.counters)
            else
              loaded.Some? || key !in st.limits || (st.limits[key] == 0 && Get(st.counters, key, 0) < 0)
  {
  }

  /** An instance that was just created carries no loaded value, so that saving it twice with a
      limit of 5, from an empty database, leaves a counter of 10. */
  lemma SecondSaveOfNewInstance(st: State, key: Key)
    requires st.limits == map[] && st.counters == map[] && st.spent == map[]
    ensures var once := SaveStep(st, key, None, Some(5)); var twice := SaveStep(once, key, None, Some(5));
            && Balanced(once, key) && once.counters[key] == 5
            && !Balanced(twice, key) && twice.limits[key] == 5 && twice.counters[key] == 10
  {
  }

  /** A removal from an instance loaded before the limit of 100 was set leaves the counter of 100
      on a key that is no longer limited. */
  lemma StaleRemovalLeavesCounter(st: State, key: Key)
    requires st.limits == map[key := 100] && st.counters == map[key := 100] && st.spent == map[]
    ensures Balanced(st, key)
    ensures var after := SaveStep(st, key, None, None);
            key !in after.limits && key in after.counters && after.counters[key] == 100 && !Balanced(after, key)
  {
  }

  /** What was spent on a key is what the requests took, while nothing resets or removes it. */
  lemma {:induction false} SpentIsTaken(st: State, events: seq<Event>, k: Key)
    requires AllSpare(events, k)
    ensures Get(Run(st, events).spent, k, 0) + Took(st, k) == Get(st.spent, k, 0) + Took(Run(st, events), k)
  {
    if events != [] {
      var front := events[..|events| - 1];
      SpentIsTaken(st, front, k);
      SpentStep(Run(st, front), events[|events| - 1], k);
    }
  }

  lemma SpentStep(st: State, e: Event, k: Key)
    requires Spares(e, k)
    ensures Get(Apply(st, e).spent, k, 0) + Took(st, k) == Get(st.spent, k, 0) + Took(Apply(st, e), k)
  {
    match e
    case Arrive(login) => SumAppend(st.procs, Started(login), TookOne(k));
    case Resume(id) => if id < |st.procs| { SpentResume(st, id, k); }
    case Cancel(id) =>
      if id < |st.procs| && Live(st.procs[id]) {
        SumUpdate(st.procs, id, st.procs[id].(phase := Cancelled), TookOne(k));
      }
    case Save(_, _, _) => EditElsewhere(st, e, k);
    case Reset(_) => EditElsewhere(st, e, k);
  }

  lemma SpentResume(st: State, id: nat, k: Key)
    requires id < |st.procs|
    ensures Get(ResumeStep(st, id).spent, k, 0) + Took(st, k) == Get(st.spent, k, 0) + Took(ResumeStep(st, id), k)
  {
    var c := st.procs[id];
    if Target(c).Some? {
      TookAfterDecrement(c, k);
      SumUpdate(st.procs, id, Decremented(c), TookOne(k));
    } else {
      ReadTakesNothing(c, st.counters);
      SumUpdate(st.procs, id, Read(c, st.counters), TookOne(k));
    }
  }

  // ------------------------------------------------- the code, uninterrupted

  /** The hash that holds the counters. */
  class Redis {
    var counters: map<Key, int>

    constructor (counters: map<Key, int>)
      ensures this.counters == counters
    {
      this.counters := counters;
    }

    method HExists(k: Key) returns (found: bool)
      ensures found == (k in counters)
    {
      found := k in counters;
    }

    method HGet(k: Key) returns (value: Option<int>)
      ensures value == if k in counters then Some(counters[k]) else None
    {
      value := if k in counters then Some(counters[k]) else None;
    }

    method HIncrBy(k: Key, diff: int) returns (value: int)
      modifies this
      ensures counters == old(counters)[k := Get(old(counters), k, 0) + diff] && value == counters[k]
    {
      value := Get(counters, k, 0) + diff;
      counters := counters[k := value];
    }

    method HSet(k: Key, value: int)
      modifies this
      ensures counters == old(counters)[k := value]
    {
      counters := counters[k := value];
    }

    method HDel(k: Key)
      modifies this
      ensures counters == old(counters) - {k}
    {
      counters := counters - {k};
    }
  }

  predicate Blocked(counters: map<Key, int>, k: Key) {
    k in counters && counters[k] <= 0
  }

  function TakeOne(counters: map<Key, int>, k: Key): map<Key, int> {
    if k in counters then counters[k := counters[k] - 1] else counters
  }

  /** What one request does when nothing else runs; None stands for an exception. */
  function Served(counters: map<Key, int>, login: Key): (Option<Action>, map<Key, int>) {
    var domain := SplitMailbox(login).1;
    if login == "" then (Some(Dunno), counters)
    else if domain.None? then (None, counters)
    else if Blocked(counters, domain.value) || Blocked(counters, login) then (Some(Defer), counters)
    else (Some(Dunno), TakeOne(TakeOne(counters, domain.value), login))
  }

  /** How many decrements of `k` an accepted message of `login` brings. */
  function Charged(login: Key, counters: map<Key, int>, k: Key): int {
    if k in counters && (k == login || SplitMailbox(login).1 == Some(k)) then 1 else 0
  }

  /** What a request comes to: without a login it is accepted, without a domain it fails, and
      otherwise it is accepted exactly when both counters that exist are positive. Accepted, it
      takes one from each of the two that exist and from no other; else it takes nothing. */
  lemma ServedExactly(counters: map<Key, int>, login: Key)
    ensures var (action, after) := Served(counters, login); var domain := SplitMailbox(login).1;
            && (login == "" ==> action == Some(Dunno))
            && (login != "" && '@' !in login ==> action == None)
            && ('@' in login ==>
                  && action.Some? && domain.Some?
                  && (action == Some(Dunno) <==>
                        && (domain.value in counters ==> counters[domain.value] >= 1)
                        && (login in counters ==> counters[login] >= 1)))
            && after.Keys == counters.Keys
            && (forall k :: k in counters ==>
                  after[k] == counters[k] -
                    if action == Some(Dunno) && login != "" then Charged(login, counters, k) else 0)
  {
    DistinctKeys(login);
  }

  /** One check of `apply_policies`: refuse, or say whether to decrement later. */
  method CheckLimit(r: Redis, k: Key) returns (refuse: bool, decrement: bool)
    ensures refuse == Blocked(r.counters, k) && decrement == (k in r.counters && !refuse)
  {
    refuse, decrement := false, false;
    var found := r.HExists(k);
    if found {
      var counter := r.HGet(k);
      if counter.value <= 0 {
        refuse := true;
      } else {
        decrement := true;
      }
    }
  }

  method ApplyPolicies(r: Redis, login: Key) returns (action: Option<Action>)
    modifies r
    ensures (action, r.counters) == Served(old(r.counters), login)
  {
    if login == "" { return Some(Dunno); }
    var (_, domain) := SplitMailbox(login);
    if domain.None? { return None; }
    DistinctKeys(login);
    var refuse, decrDomain := CheckLimit(r, domain.value);
    if refuse { return Some(Defer); }
    var decrUser;
    refuse, decrUser := CheckLimit(r, login);
    if refuse { return Some(Defer); }
    if decrDomain {
      var _ := r.HIncrBy(domain.value, -1);
    }
    if decrUser {
      var _ := r.HIncrBy(login, -1);
    }
    action := Some(Dunno);
  }

  method SetMessageLimit(r: Redis, key: Key, loaded: Option<nat>, limit: Option<nat>)
    modifies r
    ensures r.counters == Saved(old(r.counters), key, loaded, limit)
  {
    if loaded == limit { return; }
    if limit.None? {
      var found := r.HExists(key);
      if found {
        r.HDel(key);
      }
      assert key !in old(r.counters) ==> old(r.counters) - {key} == old(r.counters);
      return;
    }
    var diff: int;
    if loaded.Some? {
      diff := limit.value - loaded.value;
    } else {
      diff := limit.value;
    }
    var _ := r.HIncrBy(key, diff);
  }

  /** The rows to reset, the last row of a key winning. */
  function RowMap(rows: seq<(Key, nat)>): map<Key, int> {
    if rows == [] then map[] else RowMap(rows[..|rows| - 1])[rows[|rows| - 1].0 := rows[|rows| - 1].1]
  }

  /** The row at `i` is the last one of its key. */
  predicate LastOfKey(rows: seq<(Key, nat)>, i: nat)
    requires i < |rows|
  {
    forall j :: i < j < |rows| ==> rows[j].0 != rows[i].0
  }

  predicate Listed(rows: seq<(Key, nat)>, k: Key) {
    exists i :: 0 <= i < |rows| && rows[i].0 == k
  }

  lemma {:induction false} RowMapIs(rows: seq<(Key, nat)>)
    ensures forall i :: 0 <= i < |rows| && LastOfKey(rows, i) ==>
              rows[i].0 in RowMap(rows) && RowMap(rows)[rows[i].0] == rows[i].1
    ensures forall k :: k in RowMap(rows) <==> Listed(rows, k)
  {
    if rows != [] {
      var n := |rows| - 1;
      var front := rows[..n];
      RowMapIs(front);
      forall i | 0 <= i < |rows| && LastOfKey(rows, i)
        ensures rows[i].0 in RowMap(rows) && RowMap(rows)[rows[i].0] == rows[i].1
      {
        if i < n {
          assert front[i] == rows[i] && LastOfKey(front, i);
          assert rows[n].0 != rows[i].0;
        }
      }
      forall k
        ensures k in RowMap(rows) <==> Listed(rows, k)
      {
        ListedFront(rows, k);
      }
    }
  }

  lemma ListedFront(rows: seq<(Key, nat)>, k: Key)
    requires rows != []
    ensures Listed(rows, k) <==> Listed(rows[..|rows| - 1], k) || rows[|rows| - 1].0 == k
  {
    var front := rows[..|rows| - 1];
    if i :| 0 <= i < |front| && front[i].0 == k {
      assert rows[i].0 == k;
    }
    if i :| 0 <= i < |rows| && rows[i].0 == k {
      assert i < |front| ==> front[i].0 == k;
    }
  }

  /** Every listed key gets the limit of its last row, and nothing else changes. */
  method ResetCounters(r: Redis, rows: seq<(Key, nat)>)
    modifies r
    ensures r.counters == old(r.counters) + RowMap(rows)
    ensures forall i :: 0 <= i < |rows| && LastOfKey(rows, i) ==>
              rows[i].0 in r.counters && r.counters[rows[i].0] == rows[i].1
    ensures forall k :: !Listed(rows, k) ==>
              (k in r.counters <==> k in old(r.counters)) && (k in r.counters ==> r.counters[k] == old(r.counters)[k])
  {
    RowMapIs(rows);
    assert rows[..0] == [] && old(r.counters) + map[] == old(r.counters);
    for i := 0 to |rows|
      invariant r.counters == old(r.counters) + RowMap(rows[..i])
    {
      assert rows[..i + 1][..i] == rows[..i];
      r.HSet(rows[i].0, rows[i].1);
    }
    assert rows[..|rows|] == rows;
  }

  /** The reset as events of the transition system, one for each row. */
  function ResetEvents(rows: seq<(Key, nat)>): (r: seq<Event>)
    ensures |r| == |rows|
  {
    seq(|rows|, i requires 0 <= i < |rows| => Reset(rows[i].0))
  }

  /** `rows` carries limits of the database. */
  predicate RowsOfLimits(st: State, rows: seq<(Key, nat)>) {
    forall i :: 0 <= i < |rows| ==> rows[i].0 in st.limits && st.limits[rows[i].0] == rows[i].1
  }

  /** The method and the events do the same to the hash. */
  lemma {:induction false} ResetIsRun(st: State, rows: seq<(Key, nat)>)
    requires RowsOfLimits(st, rows)
    ensures Run(st, ResetEvents(rows)).counters == st.counters + RowMap(rows)
    ensures Run(st, ResetEvents(rows)).limits == st.limits
  {
    var events := ResetEvents(rows);
    if rows != [] {
      var n := |rows| - 1;
      ResetIsRun(st, rows[..n]);
      assert events[..n] == ResetEvents(rows[..n]);
      assert events[n] == Reset(rows[n].0);
    } else {
      assert events == [] && st.counters + map[] == st.counters;
    }
  }

  /** After a reset of all limits every limited key has its whole limit, and no other counter
      changed. */
  lemma NightlyReset(st: State, rows: seq<(Key, nat)>, k: Key)
    requires RowsOfLimits(st, rows) && (forall l :: l in st.limits ==> Listed(rows, l))
    ensures var t := Run(st, ResetEvents(rows));
            && (k in st.limits ==> k in t.counters && t.counters[k] == st.limits[k])
            && (k !in st.limits ==> SameCounter(st, t, k))
  {
    ResetIsRun(st, rows);
    RowMapIs(rows);
    if k in st.limits {
      var i := LastRow(rows, k);
      assert LastOfKey(rows, i);
    }
  }

  lemma {:induction false} LastRow(rows: seq<(Key, nat)>, k: Key) returns (i: nat)
    requires Listed(rows, k)
    ensures i < |rows| && rows[i].0 == k && LastOfKey(rows, i)
  {
    i := |rows| - 1;
    if rows[i].0 != k {
      ListedFront(rows, k);
      i := LastRow(rows[..|rows| - 1], k);
    }
  }

  /** A coroutine and the hash after `n` of its steps, nothing else running. */
  function Solo(c: Coroutine, counters: map<Key, int>, n: nat): (Coroutine, map<Key, int>)
    decreases n
  {
    if n == 0 then (c, counters)
    else if Target(c).Some? then
      Solo(Decremented(c), counters[Target(c).value := Get(counters, Target(c).value, 0) - 1], n - 1)
    else Solo(Read(c, counters), counters, n - 1)
  }

  predicate Ends(c: Coroutine, counters: map<Key, int>, n: nat, result: (Option<Action>, map<Key, int>)) {
    var (last, after) := Solo(c, counters, n);
    && after == result.1
    && last.phase == match result.0 { case None => Raised case Some(a) => Returned(a) }
  }

  lemma {:induction false} SoloEnded(c: Coroutine, counters: map<Key, int>, n: nat)
    requires !Live(c)
    ensures Solo(c, counters, n) == (c, counters)
  {
    if n > 0 { SoloEnded(c, counters, n - 1); }
  }

  lemma SoloClosing(c: Coroutine, counters: map<Key, int>, n: nat)
    requires c.phase.Closing? && n >= 1
    ensures Ends(c, counters, n, (Some(Dunno), counters))
  {
    SoloEnded(c.(phase := Returned(Dunno)), counters, n - 1);
  }

  lemma SoloDecrUser(c: Coroutine, counters: map<Key, int>, n: nat)
    requires c.phase.DecrUser? && n >= 2 && c.login in counters
    ensures Ends(c, counters, n, (Some(Dunno), TakeOne(counters, c.login)))
  {
    SoloClosing(Decremented(c), TakeOne(counters, c.login), n - 1);
  }

  /** The decrements, once the checks are over. */
  lemma SoloAfterChecks(c: Coroutine, counters: map<Key, int>, n: nat)
    requires c.phase == AfterChecks(c) && n >= 3 && c.domain.Some? && c.domain.value != c.login
    requires (c.decrDomain <==> c.domain.value in counters) && (c.decrUser <==> c.login in counters)
    ensures Ends(c, counters, n, (Some(Dunno), TakeOne(TakeOne(counters, c.domain.value), c.login)))
  {
    if c.decrDomain {
      if c.decrUser {
        SoloDecrUser(Decremented(c), TakeOne(counters, c.domain.value), n - 1);
      } else {
        SoloClosing(Decremented(c), TakeOne(counters, c.domain.value), n - 1);
      }
    } else if c.decrUser {
      SoloDecrUser(c, counters, n);
    } else {
      SoloClosing(c, counters, n);
    }
  }

  lemma SoloAskUser(c: Coroutine, counters: map<Key, int>, n: nat)
    requires c.phase.AskUser? && c.domain.Some? && c.domain.value != c.login && !c.decrUser && n >= 5
    requires c.decrDomain <==> c.domain.value in counters
    ensures Ends(c, counters, n, if Blocked(counters, c.login) then (Some(Defer), counters)
                                 else (Some(Dunno), TakeOne(TakeOne(counters, c.domain.value), c.login)))
  {
    var c1 := Read(c, counters);
    if c.login !in counters {
      SoloAfterChecks(c1, counters, n - 1);
    } else {
      var c2 := Read(c1, counters);
      if counters[c.login] <= 0 {
        SoloEnded(c2, counters, n - 2);
      } else {
        SoloAfterChecks(c2, counters, n - 2);
      }
    }
  }

  lemma SoloAskDomain(c: Coroutine, counters: map<Key, int>)
    requires c.phase.AskDomain? && c.domain.Some? && c.domain.value != c.login && !c.decrUser && !c.decrDomain
    ensures Ends(c, counters, 7, if Blocked(counters, c.domain.value) || Blocked(counters, c.login)
                                 then (Some(Defer), counters)
                                 else (Some(Dunno), TakeOne(TakeOne(counters, c.domain.value), c.login)))
  {
    var c1 := Read(c, counters);
    if c.domain.value !in counters {
      SoloAskUser(c1, counters, 6);
    } else {
      var c2 := Read(c1, counters);
      if counters[c.domain.value] <= 0 {
        SoloEnded(c2, counters, 5);
      } else {
        SoloAskUser(c2, counters, 5);
      }
    }
  }

  /** The interleaved coroutine, run alone, does what the code does. */
  lemma SoloIsServed(login: Key, counters: map<Key, int>)
    ensures Ends(Started(login), counters, 7, Served(counters, login))
  {
    var c := Started(login);
    DistinctKeys(login);
    if login == "" {
      SoloEnded(c, counters, 7);
    } else if c.domain.None? {
      SoloEnded(c.(phase := Raised), counters, 6);
    } else {
      SoloAskDomain(c, counters);
    }
  }
}
