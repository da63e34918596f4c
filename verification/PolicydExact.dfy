/** The overshoot bound is attained: `m` requests can spend `m - 1` more than the limit. */
module PolicydExact {
  import opened Text
  import opened Policyd
  import opened PolicydRuns

  /** `t` is reached from `s` by requests, at most `m` of them at a time. */
  ghost predicate Reach(s: State, t: State, m: nat) {
    exists events :: AllTraffic(events) && AtMost(s, events, m) && Run(s, events) == t
  }

  lemma ReachSelf(s: State, m: nat)
    requires Running(s) <= m
    ensures Reach(s, s, m)
  {
    var none: seq<Event> := [];
    assert none[..0] == none;
    assert Run(s, none) == s;
    assert AtMost(s, none, m);
  }

  lemma RunMore(s: State, events: seq<Event>, e: Event)
    ensures Run(s, events + [e]) == Apply(Run(s, events), e)
  {
    assert (events + [e])[..|events|] == events;
  }

  lemma AtMostMore(s: State, events: seq<Event>, e: Event, m: nat)
    requires AtMost(s, events, m) && Running(Run(s, events + [e])) <= m
    ensures AtMost(s, events + [e], m)
  {
    var more := events + [e];
    forall i | 0 <= i <= |more| ensures Fits(s, more, i, m) {
      if i <= |events| {
        assert more[..i] == events[..i];
        assert Fits(s, events, i, m);
      } else {
        assert more[..i] == more;
      }
    }
  }

  lemma ReachStep(s: State, t: State, e: Event, m: nat)
    requires Reach(s, t, m) && Traffic(e) && Running(Apply(t, e)) <= m
    ensures Reach(s, Apply(t, e), m)
  {
    var events :| AllTraffic(events) && AtMost(s, events, m) && Run(s, events) == t;
    RunMore(s, events, e);
    AtMostMore(s, events, e, m);
    assert AllTraffic(events + [e]);
  }

  lemma ReachResume(s: State, t: State, id: nat, m: nat)
    requires Reach(s, t, m) && id < |t.procs| && Running(t) <= m && Live(t.procs[id])
    ensures Reach(s, Apply(t, Resume(id)), m) && Running(Apply(t, Resume(id))) <= m
  {
    var c := t.procs[id];
    var next := if Target(c).Some? then Decremented(c) else Read(c, t.counters);
    SumUpdate(t.procs, id, next, LiveOne());
    ReachStep(s, t, Resume(id), m);
  }

  /** A request of a limited account that has passed its check. */
  function Waiting(login: Key): Coroutine {
    Started(login).(phase := DecrUser, decrUser := true, seen := [login])
  }

  /** The same request after it was accepted. */
  function Finished(login: Key): Coroutine {
    Waiting(login).(phase := Returned(Dunno), taken := [login])
  }

  /** `done` accepted requests, then `waiting` requests about to decrement. */
  predicate Shape(s: State, login: Key, done: nat, waiting: nat, count: int) {
    && s.counters == map[login := count]
    && s.procs == Copies(Finished(login), done) + Copies(Waiting(login), waiting)
  }

  function Copies(c: Coroutine, n: nat): (r: seq<Coroutine>)
    ensures |r| == n && forall i :: 0 <= i < n ==> r[i] == c
  {
    seq(n, i => c)
  }

  lemma {:induction false} RunningShape(done: nat, waiting: nat, f: Coroutine, w: Coroutine)
    requires !Live(f) && Live(w)
    ensures Sum(Copies(f, done) + Copies(w, waiting), LiveOne()) == waiting
    decreases done + waiting
  {
    if waiting > 0 {
      RunningShape(done, waiting - 1, f, w);
      SumAppend(Copies(f, done) + Copies(w, waiting - 1), w, LiveOne());
      assert Copies(f, done) + Copies(w, waiting) == Copies(f, done) + Copies(w, waiting - 1) + [w];
    } else if done > 0 {
      RunningShape(done - 1, 0, f, w);
      SumAppend(Copies(f, done - 1), f, LiveOne());
      assert Copies(f, done - 1) + Copies(w, 0) == Copies(f, done - 1);
      assert Copies(f, done) + Copies(w, 0) == Copies(f, done - 1) + [f];
    }
  }

  /** The three reads that take an account's request past its check. */
  lemma PassCheck(login: Key, count: int) returns (c1: Coroutine, c2: Coroutine)
    requires '@' in login && count >= 1
    ensures var counters := map[login := count];
            && Reads(Started(login), counters, c1) && Reads(c1, counters, c2)
            && Reads(c2, counters, Waiting(login))
  {
    DistinctKeys(login);
    assert [] + [login] == [login];
    var counters := map[login := count];
    c1 := Read(Started(login), counters);
    c2 := Read(c1, counters);
  }

  predicate Reads(c: Coroutine, counters: map<Key, int>, next: Coroutine) {
    Live(c) && Target(c).None? && Read(c, counters) == next
  }

  /** The last request takes one reading step. */
  lemma ReadLast(s: State, t: State, procs: seq<Coroutine>, c: Coroutine, next: Coroutine, m: nat) returns (u: State)
    requires Reach(s, t, m) && Running(t) <= m
    requires t.procs == procs + [c] && Reads(c, t.counters, next)
    ensures u == t.(procs := procs + [next]) && Reach(s, u, m) && Running(u) <= m
  {
    ReachResume(s, t, |procs|, m);
    u := Apply(t, Resume(|procs|));
    assert t.procs[|procs| := next] == procs + [next];
  }

  lemma Arrives(s: State, t: State, login: Key, m: nat) returns (u: State)
    requires Reach(s, t, m) && Running(t) < m && login != ""
    ensures u == t.(procs := t.procs + [Started(login)]) && Reach(s, u, m) && Running(u) <= m
  {
    SumAppend(t.procs, Started(login), LiveOne());
    ReachStep(s, t, Arrive(login), m);
    u := Apply(t, Arrive(login));
  }

  lemma Admit(s: State, t: State, login: Key, done: nat, waiting: nat, count: int, m: nat) returns (u: State)
    requires Reach(s, t, m) && Shape(t, login, done, waiting, count) && '@' in login && count >= 1 && waiting < m
    ensures Reach(s, u, m) && Shape(u, login, done, waiting + 1, count)
  {
    RunningShape(done, waiting, Finished(login), Waiting(login));
    var c1, c2 := PassCheck(login, count);
    u := Arrives(s, t, login, m);
    u := ReadLast(s, u, t.procs, Started(login), c1, m);
    u := ReadLast(s, u, t.procs, c1, c2, m);
    u := ReadLast(s, u, t.procs, c2, Waiting(login), m);
    CopiesMore(Waiting(login), waiting, Copies(Finished(login), done));
  }

  lemma CopiesMore(w: Coroutine, n: nat, front: seq<Coroutine>)
    ensures front + Copies(w, n) + [w] == front + Copies(w, n + 1)
  {
  }

  function Spent(login: Key): Coroutine {
    Waiting(login).(phase := Closing, taken := [login])
  }

  lemma SpendDecrement(t: State, login: Key, id: nat, count: int)
    requires id < |t.procs| && t.procs[id] == Waiting(login) && t.counters == map[login := count]
    ensures Apply(t, Resume(id)).counters == map[login := count - 1]
    ensures Apply(t, Resume(id)).procs == t.procs[id := Spent(login)]
  {
    assert Decremented(Waiting(login)) == Spent(login) by {
      assert [] + [login] == [login];
    }
  }

  lemma SpendClose(t: State, login: Key, id: nat)
    requires id < |t.procs| && t.procs[id] == Spent(login)
    ensures Apply(t, Resume(id)).counters == t.counters
    ensures Apply(t, Resume(id)).procs == t.procs[id := Finished(login)]
  {
  }

  /** A waiting request decrements and returns. */
  lemma Spend(s: State, t: State, login: Key, id: nat, count: int, m: nat) returns (u: State)
    requires Reach(s, t, m) && Running(t) <= m && t.counters == map[login := count]
    requires id < |t.procs| && t.procs[id] == Waiting(login)
    ensures Reach(s, u, m) && u.counters == map[login := count - 1]
    ensures u.procs == t.procs[id := Finished(login)]
  {
    ReachResume(s, t, id, m);
    SpendDecrement(t, login, id, count);
    var t1 := Apply(t, Resume(id));
    ReachResume(s, t1, id, m);
    SpendClose(t1, login, id);
    u := Apply(t1, Resume(id));
  }

  lemma Accept(s: State, t: State, login: Key, done: nat, waiting: nat, count: int, m: nat) returns (u: State)
    requires Reach(s, t, m) && Shape(t, login, done, waiting, count) && 1 <= waiting <= m
    ensures Reach(s, u, m) && Shape(u, login, done + 1, waiting - 1, count - 1)
  {
    RunningShape(done, waiting, Finished(login), Waiting(login));
    u := Spend(s, t, login, done, count, m);
    MoveOver(Finished(login), Waiting(login), done, waiting);
  }

  lemma MoveOver(f: Coroutine, w: Coroutine, done: nat, waiting: nat)
    requires waiting >= 1
    ensures (Copies(f, done) + Copies(w, waiting))[done := f] == Copies(f, done + 1) + Copies(w, waiting - 1)
  {
  }

  lemma {:induction false} AdmitAll(s: State, t: State, login: Key, done: nat, waiting: nat, count: int, m: nat)
    returns (u: State)
    requires Reach(s, t, m) && Shape(t, login, done, waiting, count) && '@' in login && count >= 1 && waiting <= m
    ensures Reach(s, u, m) && Shape(u, login, done, m, count)
    decreases m - waiting
  {
    u := t;
    if waiting < m {
      u := Admit(s, t, login, done, waiting, count, m);
      u := AdmitAll(s, u, login, done, waiting + 1, count, m);
    }
  }

  lemma {:induction false} AcceptAll(s: State, t: State, login: Key, total: nat, waiting: nat, last: int, m: nat)
    returns (u: State)
    requires waiting <= total && waiting <= m
    requires Reach(s, t, m) && Shape(t, login, total - waiting, waiting, last + waiting)
    ensures Reach(s, u, m) && Shape(u, login, total, 0, last)
    decreases waiting
  {
    u := t;
    if waiting > 0 {
      u := Accept(s, t, login, total - waiting, waiting, last + waiting, m);
      u := AcceptAll(s, u, login, total, waiting - 1, last, m);
    }
  }

  /** Serve requests one by one until one message is left. */
  lemma {:induction false} SpendDown(s: State, t: State, login: Key, done: nat, count: int, m: nat) returns (u: State)
    requires Reach(s, t, m) && Shape(t, login, done, 0, count) && '@' in login && count >= 1 && m >= 1
    ensures Reach(s, u, m) && Shape(u, login, done + count - 1, 0, 1)
    decreases count
  {
    u := t;
    if count > 1 {
      u := Admit(s, t, login, done, 0, count, m);
      u := Accept(s, u, login, done, 1, count, m);
      u := SpendDown(s, u, login, done + 1, count - 1, m);
    }
  }

  lemma {:induction false} AcceptedAll(procs: seq<Coroutine>, login: Key)
    requires '@' in login
    requires forall i :: 0 <= i < |procs| ==> procs[i] == Finished(login)
    ensures Sum(procs, AcceptedOne(login)) == |procs|
  {
    if procs != [] {
      AcceptedAll(procs[..|procs| - 1], login);
    }
  }

  /** `events` is a run of at most `m` requests at a time that leaves `login` at `last` after
      accepting `total` messages. */
  ghost predicate Attains(s: State, events: seq<Event>, login: Key, last: int, total: nat, m: nat) {
    && AllTraffic(events) && AtMost(s, events, m)
    && login in Run(s, events).counters && Run(s, events).counters[login] == last
    && Accepted(Run(s, events), login) == total
  }

  lemma EndOfRun(s: State, t: State, login: Key, total: nat, last: int, m: nat) returns (events: seq<Event>)
    requires Reach(s, t, m) && Shape(t, login, total, 0, last) && '@' in login
    ensures Attains(s, events, login, last, total, m)
  {
    AcceptedAll(t.procs, login);
    assert login in t.counters && t.counters[login] == last && Accepted(t, login) == total;
    events :| AllTraffic(events) && AtMost(s, events, m) && Run(s, events) == t;
  }

  lemma StartOfRun(s: State, login: Key, limit: nat, m: nat)
    requires s.procs == [] && s.counters == map[login := limit]
    ensures Reach(s, s, m) && Shape(s, login, 0, 0, limit)
  {
    assert s.procs == Copies(Finished(login), 0) + Copies(Waiting(login), 0);
    ReachSelf(s, m);
  }

  /** With one message left, `m` requests get past their checks. */
  lemma DownToOne(s: State, login: Key, limit: nat, m: nat) returns (t: State)
    requires Reach(s, s, m) && Shape(s, login, 0, 0, limit) && '@' in login && limit >= 1 && m >= 1
    ensures Reach(s, t, m) && Shape(t, login, limit - 1, m, 1)
  {
    t := SpendDown(s, s, login, 0, limit, m);
    t := AdmitAll(s, t, login, limit - 1, 0, 1, m);
  }

  /** All of them are accepted. */
  lemma FullRun(s: State, login: Key, limit: nat, m: nat) returns (t: State)
    requires s.procs == [] && s.counters == map[login := limit] && '@' in login && limit >= 1 && m >= 1
    ensures Reach(s, t, m) && Shape(t, login, limit + m - 1, 0, 1 - m)
  {
    StartOfRun(s, login, limit, m);
    t := DownToOne(s, login, limit, m);
    t := AcceptAll(s, t, login, limit + m - 1, m, 1 - m, m);
  }

  /** Whatever the limit and the number of concurrent requests, some run attains both bounds. */
  lemma OvershootAttained(s: State, login: Key, limit: nat, m: nat) returns (events: seq<Event>)
    requires s.procs == [] && s.counters == map[login := limit] && '@' in login && limit >= 1 && m >= 1
    ensures Attains(s, events, login, 1 - m, limit + m - 1, m)
  {
    var t := FullRun(s, login, limit, m);
    events := EndOfRun(s, t, login, limit + m - 1, 1 - m, m);
  }

  /** More messages are accepted than the limit allows. */
  ghost predicate Exceeds(s: State, events: seq<Event>, login: Key, limit: nat, m: nat) {
    AllSpare(events, login) && AtMost(s, events, m) && Accepted(Run(s, events), login) > limit
  }

  lemma AtMostWeakens(s: State, events: seq<Event>, m: nat, n: nat)
    requires AtMost(s, events, m) && m <= n
    ensures AtMost(s, events, n)
  {
    forall i | 0 <= i <= |events|
      ensures Fits(s, events, i, n)
    {
      assert Fits(s, events, i, m);
    }
  }

  lemma NeverExceeds(s: State, events: seq<Event>, login: Key, limit: nat, m: nat)
    requires s.procs == [] && s.counters == map[login := limit] && (limit == 0 || m < 2)
    ensures !Exceeds(s, events, login, limit, m)
  {
    if AllSpare(events, login) && AtMost(s, events, m) {
      if limit == 0 {
        NothingLeft(s, events, login);
      } else {
        AtMostWeakens(s, events, m, 1);
        OvershootBound(s, events, login, 1);
      }
    }
  }

  lemma SomeExceeds(s: State, login: Key, limit: nat, m: nat) returns (events: seq<Event>)
    requires s.procs == [] && s.counters == map[login := limit] && '@' in login && limit >= 1 && m >= 2
    ensures Exceeds(s, events, login, limit, m)
  {
    events := OvershootAttained(s, login, limit, m);
  }

  /** The limit can be exceeded exactly when it is not zero and two requests may run at a time. */
  lemma OvershootPossible(s: State, login: Key, limit: nat, m: nat)
    requires s.procs == [] && s.counters == map[login := limit] && '@' in login
    ensures (exists events :: Exceeds(s, events, login, limit, m)) <==> limit >= 1 && m >= 2
  {
    if limit >= 1 && m >= 2 {
      var events := SomeExceeds(s, login, limit, m);
    } else {
      forall events: seq<Event>
        ensures !Exceeds(s, events, login, limit, m)
      {
        NeverExceeds(s, events, login, limit, m);
      }
    }
  }
}
