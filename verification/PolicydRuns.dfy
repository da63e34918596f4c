/** Safety of the policy daemon over all runs. */
module PolicydRuns {
  import opened Text
  import opened Policyd

  // --------------------------------------------------- what one request does

  function DomainPart(c: Coroutine): seq<Key> {
    if c.decrDomain && c.domain.Some? then [c.domain.value] else []
  }

  function UserPart(c: Coroutine): seq<Key> {
    if c.decrUser then [c.login] else []
  }

  /** How the history of a request fits where it is suspended or how it ended. */
  predicate Good(c: Coroutine) {
    && c.domain == SplitMailbox(c.login).1
    && (c.decrDomain ==> c.domain.Some?)
    && match c.phase
       case AskDomain => !c.decrDomain && !c.decrUser && c.seen == [] && c.taken == []
       case GetDomain => !c.decrDomain && !c.decrUser && c.domain.Some? && c.seen == [c.domain.value] && c.taken == []
       case AskUser => !c.decrUser && c.seen == DomainPart(c) && c.taken == []
       case GetUser => !c.decrUser && c.seen == DomainPart(c) + [c.login] && c.taken == []
       case DecrDomain => c.decrDomain && c.seen == DomainPart(c) + UserPart(c) && c.taken == []
       case DecrUser => c.decrUser && c.seen == DomainPart(c) + UserPart(c) && c.taken == DomainPart(c)
       case Closing => c.seen == DomainPart(c) + UserPart(c) && c.taken == c.seen
       case Returned(Dunno) => c.seen == DomainPart(c) + UserPart(c) && c.taken == c.seen
       case Returned(Defer) => c.seen != [] && c.taken == []
       case Raised => c.taken == []
       case Cancelled => c.taken <= c.seen && c.taken <= DomainPart(c) + UserPart(c)
  }

  predicate AllGood(st: State) {
    forall i :: 0 <= i < |st.procs| ==> Good(st.procs[i])
  }

  lemma GoodRead(c: Coroutine, counters: map<Key, int>)
    requires Good(c) && Target(c).None?
    ensures Good(Read(c, counters))
  {
    match c.phase
    case AskDomain => GoodReadDomain(c, counters);
    case GetDomain => GoodReadDomain(c, counters);
    case AskUser => GoodReadUser(c, counters);
    case GetUser => GoodReadUser(c, counters);
    case _ =>
  }

  lemma GoodReadDomain(c: Coroutine, counters: map<Key, int>)
    requires Good(c) && (c.phase.AskDomain? || c.phase.GetDomain?)
    ensures Good(Read(c, counters))
  {
    if c.domain.Some? {
      assert [] + [c.domain.value] == [c.domain.value];
    }
  }

  lemma GoodReadUser(c: Coroutine, counters: map<Key, int>)
    requires Good(c) && (c.phase.AskUser? || c.phase.GetUser?)
    ensures Good(Read(c, counters))
  {
    assert DomainPart(c) + [] == DomainPart(c);
  }

  lemma GoodDecremented(c: Coroutine)
    requires Good(c) && Target(c).Some?
    ensures Good(Decremented(c))
  {
    assert [] + [Target(c).value] == [Target(c).value];
  }

  lemma GoodCancelled(c: Coroutine)
    requires Good(c) && Live(c)
    ensures Good(c.(phase := Cancelled))
  {
    assert DomainPart(c) <= DomainPart(c) + UserPart(c);
  }

  lemma GoodStep(st: State, e: Event)
    requires AllGood(st)
    ensures AllGood(Apply(st, e))
  {
    match e
    case Arrive(login) =>
    case Resume(id) =>
      if id < |st.procs| {
        var c := st.procs[id];
        if Target(c).Some? { GoodDecremented(c); } else { GoodRead(c, st.counters); }
      }
    case Cancel(id) =>
      if id < |st.procs| && Live(st.procs[id]) { GoodCancelled(st.procs[id]); }
    case Save(key, loaded, limit) =>
    case Reset(key) =>
  }

  lemma {:induction false} GoodRun(st: State, events: seq<Event>)
    requires AllGood(st)
    ensures AllGood(Run(st, events))
  {
    if events != [] {
      GoodRun(st, events[..|events| - 1]);
      GoodStep(Run(st, events[..|events| - 1]), events[|events| - 1]);
    }
  }

  /** The domain part of a login never equals the login, so the two counters are distinct. */
  lemma DistinctKeys(login: Key)
    ensures SplitMailbox(login).1.Some? <==> '@' in login
    ensures SplitMailbox(login).1.Some? ==> SplitMailbox(login).1.value != login
  {
  }

  lemma TakenOnce(c: Coroutine)
    requires Good(c)
    ensures forall k :: multiset(c.taken)[k] <= 1
  {
    DistinctKeys(c.login);
    var all := DomainPart(c) + UserPart(c);
    assert c.taken <= all;
    assert |c.taken| <= 2 && (|c.taken| == 2 ==> c.taken[0] != c.taken[1]);
    forall k ensures multiset(c.taken)[k] <= 1 {
      CountOnce(c.taken, k);
    }
  }

  lemma CountOnce(ks: seq<Key>, k: Key)
    requires |ks| <= 2 && (|ks| == 2 ==> ks[0] != ks[1])
    ensures multiset(ks)[k] <= 1
  {
    if |ks| == 1 {
      assert ks == [ks[0]];
    } else if |ks| == 2 {
      assert ks == [ks[0], ks[1]];
    }
  }

  /**
   In every run, whatever is edited, reset or cancelled meanwhile: a refused request has
   decremented nothing, an accepted one has decremented each key it found present exactly once,
   and a cancelled one a prefix of them.
   */
  lemma RequestAccounting(st: State, events: seq<Event>, id: nat)
    requires st.procs == [] && id < |Run(st, events).procs|
    ensures var c := Run(st, events).procs[id];
            && (c.phase == Returned(Defer) ==> c.taken == [])
            && (c.phase == Raised ==> c.taken == [])
            && (c.phase == Returned(Dunno) ==> c.taken == c.seen)
            && (c.phase == Cancelled ==> c.taken <= c.seen)
            && (forall k :: multiset(c.taken)[k] <= 1)
  {
    GoodRun(st, events);
    TakenOnce(Run(st, events).procs[id]);
  }

  // ------------------------------------------------------- overshoot bound

  lemma OwesAtMostOne(c: Coroutine, k: Key)
    requires Good(c)
    ensures Owes(c, k) <= LiveOne()(c)
  {
    DistinctKeys(c.login);
  }

  /** Only a check that finds a positive counter makes a request owe a decrement. */
  lemma OwesAfterRead(c: Coroutine, counters: map<Key, int>, k: Key)
    requires Good(c) && Target(c).None?
    ensures Owes(Read(c, counters), k) <= Owes(c, k) || (k in counters && counters[k] >= 1)
  {
  }

  lemma OwesAfterDecrement(c: Coroutine, k: Key)
    requires Good(c) && Target(c).Some?
    ensures Owes(c, k) == Owes(Decremented(c), k) + if Target(c) == Some(k) then 1 else 0
  {
    DistinctKeys(c.login);
  }

  /** The counter less the decrements still owed never falls below `1 - m` while at most `m`
      requests run. */
  predicate Margin(st: State, k: Key, m: nat) {
    k in st.counters && st.counters[k] - Owed(st, k) >= 1 - m
  }

  lemma OwedAtMostRunning(st: State, k: Key)
    requires AllGood(st)
    ensures Owed(st, k) <= Running(st)
  {
    forall i | 0 <= i < |st.procs| ensures OwesOne(k)(st.procs[i]) <= LiveOne()(st.procs[i]) {
      OwesAtMostOne(st.procs[i], k);
    }
    SumAtMost(st.procs, OwesOne(k), LiveOne());
  }

  lemma MarginResume(st: State, id: nat, k: Key, m: nat)
    requires AllGood(st) && Margin(st, k, m) && id < |st.procs|
    requires Running(ResumeStep(st, id)) <= m
    ensures Margin(ResumeStep(st, id), k, m)
  {
    var c := st.procs[id];
    if Target(c).Some? {
      OwesAfterDecrement(c, k);
      SumUpdate(st.procs, id, Decremented(c), OwesOne(k));
    } else {
      OwesAfterRead(c, st.counters, k);
      SumUpdate(st.procs, id, Read(c, st.counters), OwesOne(k));
      GoodStep(st, Resume(id));
      OwedAtMostRunning(ResumeStep(st, id), k);
    }
  }

  /** Editing or resetting another key changes neither the requests nor what is kept for `k`. */
  lemma EditElsewhere(st: State, e: Event, k: Key)
    requires (e.Save? || e.Reset?) && Spares(e, k)
    ensures Apply(st, e).procs == st.procs
    ensures k in Apply(st, e).counters <==> k in st.counters
    ensures k in st.counters ==> Apply(st, e).counters[k] == st.counters[k]
    ensures Get(Apply(st, e).spent, k, 0) == Get(st.spent, k, 0)
    ensures k in Apply(st, e).limits <==> k in st.limits
  {
  }

  lemma MarginStep(st: State, e: Event, k: Key, m: nat)
    requires AllGood(st) && Margin(st, k, m) && Spares(e, k)
    requires Running(Apply(st, e)) <= m
    ensures Margin(Apply(st, e), k, m)
  {
    match e
    case Arrive(login) => SumAppend(st.procs, Started(login), OwesOne(k));
    case Resume(id) => if id < |st.procs| { MarginResume(st, id, k, m); }
    case Cancel(id) => OwedAfterCancel(st, id, k);
    case Save(_, _, _) => EditElsewhere(st, e, k);
    case Reset(_) => EditElsewhere(st, e, k);
  }

  lemma OwedAfterCancel(st: State, id: nat, k: Key)
    ensures Owed(Apply(st, Cancel(id)), k) <= Owed(st, k)
    ensures Apply(st, Cancel(id)).counters == st.counters
  {
    if id < |st.procs| && Live(st.procs[id]) {
      SumUpdate(st.procs, id, st.procs[id].(phase := Cancelled), OwesOne(k));
    }
  }

  lemma AtMostFront(st: State, events: seq<Event>, m: nat)
    requires AtMost(st, events, m) && events != []
    ensures AtMost(st, events[..|events| - 1], m) && Running(Run(st, events)) <= m
  {
    var front := events[..|events| - 1];
    forall i | 0 <= i <= |front|
      ensures Fits(st, front, i, m)
    {
      assert front[..i] == events[..i];
      assert Fits(st, events, i, m);
    }
    assert events[..|events|] == events;
    assert Fits(st, events, |events|, m);
  }

  /** From any state with the margin, every state of every run of requests has it. */
  lemma {:induction false} MarginRun(st: State, events: seq<Event>, k: Key, m: nat)
    requires AllGood(st) && Margin(st, k, m) && AllSpare(events, k) && AtMost(st, events, m)
    ensures Margin(Run(st, events), k, m)
  {
    if events != [] {
      var front := events[..|events| - 1];
      AtMostFront(st, events, m);
      MarginRun(st, front, k, m);
      GoodRun(st, front);
      MarginStep(Run(st, front), events[|events| - 1], k, m);
    }
  }

  // ------------------------------------------------------- nothing left to take

  /** No decrement of `k` is promised, and no check of `k` can promise one. */
  predicate Quiet(st: State, k: Key) {
    Owed(st, k) == 0 && (k in st.counters ==> st.counters[k] <= 0)
  }

  /** The counter of `k` is as before, absent or with the same value. */
  predicate SameCounter(st: State, after: State, k: Key) {
    && (k in after.counters <==> k in st.counters)
    && (k in st.counters ==> after.counters[k] == st.counters[k])
  }

  lemma QuietResume(st: State, id: nat, k: Key)
    requires AllGood(st) && Quiet(st, k) && id < |st.procs|
    ensures Quiet(ResumeStep(st, id), k) && SameCounter(st, ResumeStep(st, id), k)
  {
    var c := st.procs[id];
    SumHas(st.procs, id, OwesOne(k));
    if Target(c).Some? {
      OwesAfterDecrement(c, k);
      SumUpdate(st.procs, id, Decremented(c), OwesOne(k));
    } else {
      OwesAfterRead(c, st.counters, k);
      SumUpdate(st.procs, id, Read(c, st.counters), OwesOne(k));
    }
  }

  lemma QuietStep(st: State, e: Event, k: Key)
    requires AllGood(st) && Quiet(st, k) && Spares(e, k)
    ensures Quiet(Apply(st, e), k) && SameCounter(st, Apply(st, e), k)
  {
    match e
    case Arrive(login) => SumAppend(st.procs, Started(login), OwesOne(k));
    case Resume(id) => if id < |st.procs| { QuietResume(st, id, k); }
    case Cancel(id) => OwedAfterCancel(st, id, k);
    case Save(_, _, _) => EditElsewhere(st, e, k);
    case Reset(_) => EditElsewhere(st, e, k);
  }

  /** A quiet key stays quiet, and its counter stays what it is, in every run that spares it. */
  lemma {:induction false} QuietRun(st: State, events: seq<Event>, k: Key)
    requires AllGood(st) && Quiet(st, k) && AllSpare(events, k)
    ensures Quiet(Run(st, events), k) && SameCounter(st, Run(st, events), k)
  {
    if events != [] {
      var front := events[..|events| - 1];
      QuietRun(st, front, k);
      GoodRun(st, front);
      QuietStep(Run(st, front), events[|events| - 1], k);
    }
  }

  // ----------------------------------------------- conservation of decrements

  lemma TookAfterDecrement(c: Coroutine, k: Key)
    requires Target(c).Some?
    ensures TookOne(k)(Decremented(c)) == TookOne(k)(c) + if Target(c) == Some(k) then 1 else 0
  {
  }

  lemma ReadTakesNothing(c: Coroutine, counters: map<Key, int>)
    ensures Read(c, counters).taken == c.taken
  {
  }

  lemma TookResume(st: State, id: nat, k: Key)
    requires k in st.counters && id < |st.procs|
    ensures k in ResumeStep(st, id).counters
    ensures ResumeStep(st, id).counters[k] + Took(ResumeStep(st, id), k) == st.counters[k] + Took(st, k)
  {
    var c := st.procs[id];
    if Target(c).Some? {
      TookAfterDecrement(c, k);
      SumUpdate(st.procs, id, Decremented(c), TookOne(k));
    } else {
      ReadTakesNothing(c, st.counters);
      SumUpdate(st.procs, id, Read(c, st.counters), TookOne(k));
    }
  }

  lemma TookStep(st: State, e: Event, k: Key)
    requires k in st.counters && Spares(e, k)
    ensures k in Apply(st, e).counters
    ensures Apply(st, e).counters[k] + Took(Apply(st, e), k) == st.counters[k] + Took(st, k)
  {
    match e
    case Arrive(login) => SumAppend(st.procs, Started(login), TookOne(k));
    case Resume(id) =>
      if id < |st.procs| { TookResume(st, id, k); }
    case Cancel(id) =>
      if id < |st.procs| && Live(st.procs[id]) {
        SumUpdate(st.procs, id, st.procs[id].(phase := Cancelled), TookOne(k));
      }
    case Save(_, _, _) => EditElsewhere(st, e, k);
    case Reset(_) => EditElsewhere(st, e, k);
  }

  /** A counter moves only by the decrements of the requests. */
  lemma {:induction false} TookRun(st: State, events: seq<Event>, k: Key)
    requires k in st.counters && AllSpare(events, k)
    ensures k in Run(st, events).counters
    ensures Run(st, events).counters[k] + Took(Run(st, events), k) == st.counters[k] + Took(st, k)
  {
    if events != [] {
      TookRun(st, events[..|events| - 1], k);
      TookStep(Run(st, events[..|events| - 1]), events[|events| - 1], k);
    }
  }

  // ------------------------------------------------------ accepted messages

  predicate Uses(c: Coroutine, k: Key) {
    c.login != "" && (c.login == k || c.domain == Some(k))
  }

  /** An accepted message of a sender that `k` limits. */
  function AcceptedOne(k: Key): Coroutine -> nat {
    (c: Coroutine) => if c.phase == Returned(Dunno) && Uses(c, k) then 1 else 0
  }

  function Accepted(st: State, k: Key): nat {
    Sum(st.procs, AcceptedOne(k))
  }

  predicate Passed(c: Coroutine) {
    c.phase.DecrDomain? || c.phase.DecrUser? || c.phase.Closing? || c.phase == Returned(Dunno)
  }

  predicate SawDomain(c: Coroutine, k: Key) {
    (c.login != "" && c.domain == Some(k) && !c.phase.AskDomain? && !c.phase.Raised? && !c.phase.Cancelled?) ==>
      k in c.seen
  }

  predicate SawLogin(c: Coroutine, k: Key) {
    c.login != "" && c.login == k && Passed(c) ==> k in c.seen
  }

  /** While `k` stays present, a request that got past a check of `k` has seen it. */
  predicate SawIt(c: Coroutine, k: Key) {
    SawDomain(c, k) && SawLogin(c, k)
  }

  lemma SawDomainRead(c: Coroutine, counters: map<Key, int>, k: Key)
    requires Good(c) && SawDomain(c, k) && k in counters && Target(c).None?
    ensures SawDomain(Read(c, counters), k)
  {
  }

  lemma SawLoginRead(c: Coroutine, counters: map<Key, int>, k: Key)
    requires Good(c) && SawLogin(c, k) && k in counters && Target(c).None?
    ensures SawLogin(Read(c, counters), k)
  {
  }

  lemma SawItRead(c: Coroutine, counters: map<Key, int>, k: Key)
    requires Good(c) && SawIt(c, k) && k in counters && Target(c).None?
    ensures SawIt(Read(c, counters), k)
  {
    SawDomainRead(c, counters, k);
    SawLoginRead(c, counters, k);
  }

  lemma SawItStep(st: State, e: Event, k: Key)
    requires AllGood(st) && k in st.counters && Spares(e, k)
    requires forall i :: 0 <= i < |st.procs| ==> SawIt(st.procs[i], k)
    ensures forall i :: 0 <= i < |Apply(st, e).procs| ==> SawIt(Apply(st, e).procs[i], k)
  {
    if e.Resume? && e.id < |st.procs| && Target(st.procs[e.id]).None? {
      SawItRead(st.procs[e.id], st.counters, k);
    }
  }

  lemma {:induction false} SawItRun(st: State, events: seq<Event>, k: Key)
    requires st.procs == [] && k in st.counters && AllSpare(events, k)
    ensures forall i :: 0 <= i < |Run(st, events).procs| ==> SawIt(Run(st, events).procs[i], k)
  {
    if events != [] {
      var front := events[..|events| - 1];
      SawItRun(st, front, k);
      GoodRun(st, front);
      TookRun(st, front, k);
      SawItStep(Run(st, front), events[|events| - 1], k);
    }
  }

  lemma AcceptedAtMostTook(st: State, k: Key)
    requires AllGood(st)
    requires forall i :: 0 <= i < |st.procs| ==> SawIt(st.procs[i], k)
    ensures Accepted(st, k) <= Took(st, k)
  {
    SumAtMost(st.procs, AcceptedOne(k), TookOne(k));
  }

  /** A counter at zero or below lets no message through, whatever runs concurrently. */
  lemma NothingLeft(st: State, events: seq<Event>, k: Key)
    requires st.procs == [] && k in st.counters && st.counters[k] <= 0 && AllSpare(events, k)
    ensures SameCounter(st, Run(st, events), k) && Accepted(Run(st, events), k) == 0
  {
    QuietRun(st, events, k);
    TookRun(st, events, k);
    GoodRun(st, events);
    SawItRun(st, events, k);
    AcceptedAtMostTook(Run(st, events), k);
  }

  /**
   The limit under concurrency, other limits being edited and reset meanwhile: a counter that
   starts at `c0 >= 0` with no request in flight never falls below `1 - m` while at most `m`
   requests run at a time, and at most `c0 + m - 1` messages are accepted, none when `c0` is 0.
   */
  lemma OvershootBound(st: State, events: seq<Event>, k: Key, m: nat)
    requires st.procs == [] && k in st.counters && st.counters[k] >= 0 && m >= 1
    requires AllSpare(events, k) && AtMost(st, events, m)
    ensures k in Run(st, events).counters && Run(st, events).counters[k] >= 1 - m
    ensures Accepted(Run(st, events), k) <= Took(Run(st, events), k) == st.counters[k] - Run(st, events).counters[k]
    ensures Accepted(Run(st, events), k) <= if st.counters[k] == 0 then 0 else st.counters[k] + m - 1
  {
    MarginRun(st, events, k, m);
    TookRun(st, events, k);
    GoodRun(st, events);
    SawItRun(st, events, k);
    AcceptedAtMostTook(Run(st, events), k);
    if st.counters[k] == 0 {
      NothingLeft(st, events, k);
    }
  }

  /** One request at a time enforces the limit exactly. */
  lemma SerialLimit(st: State, events: seq<Event>, k: Key)
    requires st.procs == [] && k in st.counters && st.counters[k] >= 0
    requires AllSpare(events, k) && AtMost(st, events, 1)
    ensures Accepted(Run(st, events), k) <= st.counters[k]
  {
    OvershootBound(st, events, k, 1);
  }
}
