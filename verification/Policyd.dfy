/**
 The policy daemon: requests are coroutines that share one Redis hash of counters.
 Every `await` on Redis is one atomic step; between two steps any other coroutine, an
 administrator's save or the nightly reset may run, and a timeout may cancel the coroutine.
 */
module Policyd {
  import opened Text

  type Key = string

  datatype Action = Dunno | Defer

  /** Where a coroutine is suspended, or how it ended. */
  datatype Phase =
    | AskDomain | GetDomain | AskUser | GetUser | DecrDomain | DecrUser | Closing
    | Returned(action: Action) | Raised | Cancelled

  /** One call of `apply_policies`. `seen` and `taken` are history: the keys it found present,
      and the keys it decremented. */
  datatype Coroutine = Coroutine(
    login: Key, domain: Option<Key>, phase: Phase, decrDomain: bool, decrUser: bool,
    seen: seq<Key>, taken: seq<Key>)

  /** `counters` is the Redis hash and `limits` the database column `message_limit` (absent for
      NULL). `spent` is history: the decrements of a key since it was last reset or removed. */
  datatype State = State(
    counters: map<Key, int>, procs: seq<Coroutine>, limits: map<Key, nat>, spent: map<Key, nat>)

  datatype Event =
    | Arrive(login: Key)
    | Resume(id: nat)
    | Cancel(id: nat)
    | Save(key: Key, loaded: Option<nat>, limit: Option<nat>)
    | Reset(key: Key)

  function Get<V>(m: map<Key, V>, k: Key, default: V): V {
    if k in m then m[k] else default
  }

  // ------------------------------------------------------------ addresses

  /** Python's `address.rsplit("@", 1)`, or the whole address and None. */
  function SplitMailbox(address: string): (r: (string, Option<string>))
    ensures '@' !in address ==> r == (address, None)
    ensures '@' in address ==>
      && r.1.Some? && '@' !in r.1.value
      && address == r.0 + "@" + r.1.value
  {
    if address == "" then ("", None)
    else
      var last := address[|address| - 1];
      var front := address[..|address| - 1];
      if last == '@' then (front, Some(""))
      else
        var (localPart, domain) := SplitMailbox(front);
        if domain.None? then (address, None) else (localPart, Some(domain.value + [last]))
  }

  // ---------------------------------------------------------- transitions

  predicate Live(c: Coroutine) {
    !c.phase.Returned? && !c.phase.Raised? && !c.phase.Cancelled?
  }

  function Started(login: Key): Coroutine {
    Coroutine(login, SplitMailbox(login).1, if login == "" then Returned(Dunno) else AskDomain,
              false, false, [], [])
  }

  function AfterChecks(c: Coroutine): Phase {
    if c.decrDomain then DecrDomain else if c.decrUser then DecrUser else Closing
  }

  /** One step of a coroutine that does not write to Redis. */
  function Read(c: Coroutine, counters: map<Key, int>): Coroutine {
    match c.phase
    case AskDomain =>
      if c.domain.None? then c.(phase := Raised)
      else if c.domain.value in counters then c.(phase := GetDomain, seen := c.seen + [c.domain.value])
      else c.(phase := AskUser)
    case GetDomain =>
      if c.domain.None? || c.domain.value !in counters then c.(phase := Raised)
      else if counters[c.domain.value] <= 0 then c.(phase := Returned(Defer))
      else c.(phase := AskUser, decrDomain := true)
    case AskUser =>
      if c.login in counters then c.(phase := GetUser, seen := c.seen + [c.login])
      else c.(phase := AfterChecks(c))
    case GetUser =>
      if c.login !in counters then c.(phase := Raised)
      else if counters[c.login] <= 0 then c.(phase := Returned(Defer))
      else var passed := c.(decrUser := true); passed.(phase := AfterChecks(passed))
    case Closing => c.(phase := Returned(Dunno))
    case _ => c
  }

  /** The key that the next step decrements, if it decrements one. */
  function Target(c: Coroutine): Option<Key> {
    if c.phase.DecrDomain? then c.domain else if c.phase.DecrUser? then Some(c.login) else None
  }

  function Decremented(c: Coroutine): Coroutine
    requires Target(c).Some?
  {
    c.(phase := if c.phase.DecrDomain? && c.decrUser then DecrUser else Closing,
       taken := c.taken + [Target(c).value])
  }

  function Decrement(st: State, k: Key): State {
    st.(counters := st.counters[k := Get(st.counters, k, 0) - 1],
        spent := st.spent[k := Get(st.spent, k, 0) + 1])
  }

  function ResumeStep(st: State, id: nat): State
    requires id < |st.procs|
  {
    var c := st.procs[id];
    if Target(c).Some? then
      Decrement(st, Target(c).value).(procs := st.procs[id := Decremented(c)])
    else
      st.(procs := st.procs[id := Read(c, st.counters)])
  }

  /** `set_message_limit`: how a saved limit changes the live counter. */
  function Saved(counters: map<Key, int>, key: Key, loaded: Option<nat>, limit: Option<nat>): map<Key, int> {
    if loaded == limit then counters
    else if limit.None? then counters - {key}
    else
      var diff := if loaded.Some? then limit.value - loaded.value else limit.value;
      counters[key := Get(counters, key, 0) + diff]
  }

  function SaveStep(st: State, key: Key, loaded: Option<nat>, limit: Option<nat>): State {
    st.(counters := Saved(st.counters, key, loaded, limit),
        limits := if limit.Some? then st.limits[key := limit.value] else st.limits - {key},
        spent := if limit.None? && loaded != limit then st.spent - {key} else st.spent)
  }

  function ResetStep(st: State, key: Key): State {
    if key in st.limits then
      st.(counters := st.counters[key := st.limits[key]], spent := st.spent - {key})
    else st
  }

  function Apply(st: State, e: Event): State {
    match e
    case Arrive(login) => st.(procs := st.procs + [Started(login)])
    case Resume(id) => if id < |st.procs| then ResumeStep(st, id) else st
    case Cancel(id) =>
      if id < |st.procs| && Live(st.procs[id]) then
        st.(procs := st.procs[id := st.procs[id].(phase := Cancelled)])
      else st
    case Save(key, loaded, limit) => SaveStep(st, key, loaded, limit)
    case Reset(key) => ResetStep(st, key)
  }

  function Run(st: State, events: seq<Event>): State {
    if events == [] then st else Apply(Run(st, events[..|events| - 1]), events[|events| - 1])
  }

  /** Requests and timeouts only: no limit is edited and no counter is reset. */
  predicate Traffic(e: Event) {
    e.Arrive? || e.Resume? || e.Cancel?
  }

  predicate AllTraffic(events: seq<Event>) {
    forall i :: 0 <= i < |events| ==> Traffic(events[i])
  }

  /** Anything but an edit or a reset of `k` itself. */
  predicate Spares(e: Event, k: Key) {
    !((e.Save? || e.Reset?) && e.key == k)
  }

  predicate AllSpare(events: seq<Event>, k: Key) {
    forall i :: 0 <= i < |events| ==> Spares(events[i], k)
  }

  // -------------------------------------------------------------- counting

  function Sum(procs: seq<Coroutine>, f: Coroutine -> nat): nat {
    if procs == [] then 0 else Sum(procs[..|procs| - 1], f) + f(procs[|procs| - 1])
  }

  lemma SumAppend(procs: seq<Coroutine>, c: Coroutine, f: Coroutine -> nat)
    ensures Sum(procs + [c], f) == Sum(procs, f) + f(c)
  {
    assert (procs + [c])[..|procs|] == procs;
  }

  lemma {:induction false} SumUpdate(procs: seq<Coroutine>, id: nat, c: Coroutine, f: Coroutine -> nat)
    requires id < |procs|
    ensures Sum(procs[id := c], f) + f(procs[id]) == Sum(procs, f) + f(c)
  {
    var front := procs[..|procs| - 1];
    var updated := procs[id := c];
    if id == |procs| - 1 {
      assert updated[..|procs| - 1] == front;
    } else {
      SumUpdate(front, id, c, f);
      assert updated[..|procs| - 1] == front[id := c];
    }
  }

  lemma {:induction false} SumHas(procs: seq<Coroutine>, id: nat, f: Coroutine -> nat)
    requires id < |procs|
    ensures f(procs[id]) <= Sum(procs, f)
  {
    if id < |procs| - 1 {
      SumHas(procs[..|procs| - 1], id, f);
    }
  }

  lemma {:induction false} SumAtMost(procs: seq<Coroutine>, f: Coroutine -> nat, g: Coroutine -> nat)
    requires forall i :: 0 <= i < |procs| ==> f(procs[i]) <= g(procs[i])
    ensures Sum(procs, f) <= Sum(procs, g)
  {
    if procs != [] {
      SumAtMost(procs[..|procs| - 1], f, g);
    }
  }

  function LiveOne(): Coroutine -> nat {
    (c: Coroutine) => if Live(c) then 1 else 0
  }

  predicate OwesDomain(c: Coroutine, k: Key) {
    c.decrDomain && c.domain == Some(k) && (c.phase.AskUser? || c.phase.GetUser? || c.phase.DecrDomain?)
  }

  /** The decrements of `k` that the coroutine will still make if nothing stops it. */
  function Owes(c: Coroutine, k: Key): nat {
    (if OwesDomain(c, k) then 1 else 0)
    + (if c.decrUser && c.login == k && (c.phase.DecrDomain? || c.phase.DecrUser?) then 1 else 0)
  }

  function OwesOne(k: Key): Coroutine -> nat {
    (c: Coroutine) => Owes(c, k)
  }

  function TookOne(k: Key): Coroutine -> nat {
    (c: Coroutine) => multiset(c.taken)[k]
  }

  /** The number of coroutines that are running. */
  function Running(st: State): nat {
    Sum(st.procs, LiveOne())
  }

  /** The decrements of `k` that were promised by a check and not made yet. */
  function Owed(st: State, k: Key): nat {
    Sum(st.procs, OwesOne(k))
  }

  /** The decrements of `k` made so far. */
  function Took(st: State, k: Key): nat {
    Sum(st.procs, TookOne(k))
  }

  /** At most `m` requests run after the first `i` events. */
  predicate Fits(st: State, events: seq<Event>, i: nat, m: nat)
    requires i <= |events|
  {
    Running(Run(st, events[..i])) <= m
  }

  /** At most `m` requests run at any time of the run. */
  predicate AtMost(st: State, events: seq<Event>, m: nat) {
    forall i {:trigger Fits(st, events, i, m)} :: 0 <= i <= |events| ==> Fits(st, events, i, m)
  }
}
