/**
 Resource pools: how many objects of each kind a user may own, and how capacity moves between
 the pool of a reseller and the pools of the accounts it owns. A maximum of -1 is unlimited.
 */
module Pools {
  import opened Text
  import opened Ownership
  import opened OwnershipRuns

  /** The limits that are plain counts of owned objects. */
  datatype Limit = Domains | DomainAliases | Mailboxes | MailboxAliases

  function KindOf(l: Limit): Kind {
    match l
    case Domains => Domain
    case DomainAliases => DomainAlias
    case Mailboxes => Mailbox
    case MailboxAliases => Alias
  }

  function Owned(t: Table, u: User, k: Kind): set<Object> {
    set key | key in t && key.0 == u && t[key] && key.1.kind == k :: key.1
  }

  /** `UserObjectLimit.current_value`. */
  function Usage(t: Table, u: User, l: Limit): nat {
    |Owned(t, u, KindOf(l))|
  }

  /** `ObjectLimitMixin.is_exceeded` for a count. */
  predicate IsExceeded(max: int, usage: nat, count: int) {
    max != -1 && usage + count > max
  }

  predicate Within(max: int, usage: nat) {
    !IsExceeded(max, usage, 0)
  }

  lemma OwnedMember(t: Table, u: User, k: Kind, o: Object)
    ensures o in Owned(t, u, k) <==> o.kind == k && Owns(t, u, o)
  {
    if o.kind == k && Owns(t, u, o) {
      assert (u, o) in t && (u, o).0 == u && (u, o).1 == o;
    }
  }

  // -------------------------------------------------------------- allocation

  datatype Allocation = BadLimitValue | UnsufficientResource | Allocated(ownerMax: int)

  /** A row of the limits table. */
  class Pool {
    var maxValue: int

    constructor (maxValue: int)
      ensures this.maxValue == maxValue
    {
      this.maxValue := maxValue;
    }
  }

  /** What `allocate_resources_from_user` makes of the owner's maximum. */
  function Allocate(childMax: int, ownerMax: int, ownerUsage: nat, value: int): Allocation {
    if value == -1 && ownerMax != -1 then BadLimitValue
    else
      var taken := if childMax > -1 then value - childMax else value;
      if childMax > -1 && taken == 0 then Allocated(ownerMax)
      else if taken > ownerMax - ownerUsage then UnsufficientResource
      else Allocated(ownerMax - taken)
  }

  /** The caller stores `value` in the child's row only when nothing was raised. */
  method AllocateResourcesFromUser(child: Pool, owner: Pool, ownerUsage: nat, value: int) returns (r: Allocation)
    requires child != owner
    modifies owner, child
    ensures r == Allocate(old(child.maxValue), old(owner.maxValue), ownerUsage, value)
    ensures r.Allocated? ==> owner.maxValue == r.ownerMax && child.maxValue == value
    ensures !r.Allocated? ==> owner.maxValue == old(owner.maxValue) && child.maxValue == old(child.maxValue)
  {
    var remaining := value;
    if remaining == -1 && owner.maxValue != -1 { return BadLimitValue; }
    if child.maxValue > -1 {
      remaining := remaining - child.maxValue;
      if remaining == 0 { return Allocated(owner.maxValue); }
    }
    var remain := owner.maxValue - ownerUsage;
    if remaining > remain { return UnsufficientResource; }
    owner.maxValue := owner.maxValue - remaining;
    child.maxValue := value;
    r := Allocated(owner.maxValue);
  }

  /** `move_pool_resource` for one limit: an unlimited child gives nothing back. */
  function Returned(ownerMax: int, childMax: int): int {
    if childMax < 0 then ownerMax else ownerMax + childMax
  }

  method MovePoolResource(owner: map<Limit, Pool>, child: map<Limit, Pool>, names: seq<Limit>)
    requires forall l :: l in names ==> l in owner && l in child
    requires forall i, j :: 0 <= i < j < |names| ==> names[i] != names[j]
    requires forall l, m :: l in owner && m in owner && l != m ==> owner[l] != owner[m]
    requires forall l, m :: l in owner && m in child ==> owner[l] != child[m]
    modifies owner.Values
    ensures forall l :: l in names ==> owner[l].maxValue == Returned(old(owner[l].maxValue), old(child[l].maxValue))
    ensures forall l :: l in names && old(child[l].maxValue) >= 0 ==>
              owner[l].maxValue == old(owner[l].maxValue) + old(child[l].maxValue)
    ensures forall l :: l in names && old(child[l].maxValue) < 0 ==> owner[l].maxValue == old(owner[l].maxValue)
    ensures forall l :: l in owner && l !in names ==> owner[l].maxValue == old(owner[l].maxValue)
  {
    for i := 0 to |names|
      invariant forall l :: l in child ==> child[l].maxValue == old(child[l].maxValue)
      invariant forall l :: l in names[..i] ==>
                  owner[l].maxValue == Returned(old(owner[l].maxValue), old(child[l].maxValue))
      invariant forall l :: l in owner && l !in names[..i] ==> owner[l].maxValue == old(owner[l].maxValue)
    {
      var name := names[i];
      assert names[..i + 1] == names[..i] + [name];
      assert name !in names[..i];
      if child[name].maxValue >= 0 {
        var ownerLimit := owner[name];
        ownerLimit.maxValue := ownerLimit.maxValue + child[name].maxValue;
      }
    }
    assert names[..|names|] == names;
  }

  // -------------------------------------------------------------- conservation

  /** An allocation keeps the sum of the two pools exactly when the child's pool was finite. */
  lemma AllocateConserves(childMax: int, ownerMax: int, usage: nat, value: int)
    requires childMax >= -1 && Allocate(childMax, ownerMax, usage, value).Allocated?
    ensures Allocate(childMax, ownerMax, usage, value).ownerMax + value == ownerMax + childMax <==> childMax > -1
  {
  }

  /** An allocation that changes the child's pool leaves the owner able to cover what it owns. */
  lemma AllocateCovers(childMax: int, ownerMax: int, usage: nat, value: int)
    requires Allocate(childMax, ownerMax, usage, value).Allocated? && value != childMax
    ensures usage <= Allocate(childMax, ownerMax, usage, value).ownerMax
    ensures Within(Allocate(childMax, ownerMax, usage, value).ownerMax, usage)
  {
  }

  /** When a limited owner is served: an unlimited value is never given; any other one exactly when
      the child has it already or the owner can give it, the child's finite pool counted as returned,
      and still cover what it owns. */
  lemma LimitedOwner(childMax: int, ownerMax: int, usage: nat, value: int)
    requires ownerMax >= 0 && childMax >= -1 && value >= -1
    ensures var r, returned := Allocate(childMax, ownerMax, usage, value), if childMax > -1 then childMax else 0;
            && (r.BadLimitValue? <==> value == -1)
            && (value >= 0 ==> (r.Allocated? <==> value == childMax || usage + value <= ownerMax + returned))
            && (r.Allocated? ==> r.ownerMax == ownerMax + returned - value)
  {
  }

  /** An owner with 10 free gives all 10 but not 11; what a child has already it can always keep. */
  lemma LimitedOwnerExamples()
    ensures Allocate(0, 10, 0, 10) == Allocated(0)
    ensures Allocate(0, 10, 0, 11) == UnsufficientResource
    ensures Allocate(4, 10, 8, 6) == Allocated(8)
    ensures Allocate(4, 10, 12, 4) == Allocated(10)
    ensures Allocate(0, 10, 0, -1) == BadLimitValue
  {
  }

  /** When an unlimited owner is served: the value is the child's finite one, or the child, its
      pool shrinking, gives back more than the owner owns, or both pools are unlimited and the
      owner owns nothing. */
  predicate ServedUnlimited(childMax: int, usage: nat, value: int) {
    if childMax > -1 then value == childMax || value + usage < childMax
    else value == -1 && usage == 0
  }

  /** An unlimited owner is refused everything else, and it stays unlimited exactly when a finite
      child keeps its value; the pool it has otherwise is finite. */
  lemma UnlimitedOwner(childMax: int, usage: nat, value: int)
    requires childMax >= -1 && value >= -1
    ensures var r := Allocate(childMax, -1, usage, value);
            && (r.Allocated? <==> ServedUnlimited(childMax, usage, value))
            && (!r.Allocated? ==> r == UnsufficientResource)
            && (r.Allocated? ==> (r.ownerMax == -1 <==> childMax > -1 && value == childMax))
            && (r.Allocated? && r.ownerMax != -1 ==>
                  r.ownerMax == if childMax > -1 then childMax - value - 1 else 0)
  {
  }

  /** Giving a child an unlimited pool caps its unlimited owner, and so does saving an unlimited
      child again; raising a child from 3 to 4 is refused, lowering it to 1 caps the owner at 1. */
  lemma UnlimitedOwnerExamples()
    ensures Allocate(3, -1, 0, -1) == Allocated(3)
    ensures Allocate(-1, -1, 0, -1) == Allocated(0)
    ensures Allocate(3, -1, 0, 4) == UnsufficientResource
    ensures Allocate(3, -1, 0, 1) == Allocated(1)
  {
  }

  /** A reseller's pool for one limit, and the pools of the accounts it owns. */
  datatype Pools = Pools(ownerMax: int, children: seq<int>)

  datatype PoolEvent =
    | NewChild
    | Resize(child: nat, value: int, usage: nat)
    | DropChild(child: nat)

  function ApplyPool(p: Pools, e: PoolEvent): Pools {
    match e
    case NewChild => p.(children := p.children + [0])
    case Resize(child, value, usage) =>
      if child < |p.children| then
        var r := Allocate(p.children[child], p.ownerMax, usage, value);
        if r.Allocated? then Pools(r.ownerMax, p.children[child := value]) else p
      else p
    case DropChild(child) =>
      if child < |p.children| then
        Pools(Returned(p.ownerMax, p.children[child]), p.children[..child] + p.children[child + 1..])
      else p
  }

  function RunPools(p: Pools, events: seq<PoolEvent>): Pools {
    if events == [] then p else ApplyPool(RunPools(p, events[..|events| - 1]), events[|events| - 1])
  }

  predicate Finite(p: Pools) {
    p.ownerMax >= 0 && forall i :: 0 <= i < |p.children| ==> p.children[i] >= 0
  }

  function Sum(s: seq<int>): int {
    if s == [] then 0 else Sum(s[..|s| - 1]) + s[|s| - 1]
  }

  function Total(p: Pools): int {
    p.ownerMax + Sum(p.children)
  }

  lemma {:induction false} SumConcat(a: seq<int>, b: seq<int>)
    ensures Sum(a + b) == Sum(a) + Sum(b)
  {
    if b == [] {
      assert a + b == a;
    } else {
      SumConcat(a, b[..|b| - 1]);
      assert (a + b)[..|a + b| - 1] == a + b[..|b| - 1];
    }
  }

  lemma SumAround(s: seq<int>, i: nat, x: int)
    requires i < |s|
    ensures Sum(s[i := x]) == Sum(s) - s[i] + x
    ensures Sum(s[..i] + s[i + 1..]) == Sum(s) - s[i]
  {
    assert s == s[..i] + [s[i]] + s[i + 1..];
    assert s[i := x] == s[..i] + [x] + s[i + 1..];
    SumConcat(s[..i] + [s[i]], s[i + 1..]);
    SumConcat(s[..i] + [x], s[i + 1..]);
    SumConcat(s[..i], [s[i]]);
    SumConcat(s[..i], [x]);
    SumConcat(s[..i], s[i + 1..]);
  }

  lemma PoolStep(p: Pools, e: PoolEvent)
    requires Finite(p) && (e.Resize? ==> e.value >= -1)
    ensures Finite(ApplyPool(p, e)) && Total(ApplyPool(p, e)) == Total(p)
  {
    match e
    case NewChild => SumConcat(p.children, [0]);
    case Resize(child, value, usage) =>
      if child < |p.children| { SumAround(p.children, child, value); }
    case DropChild(child) =>
      if child < |p.children| { SumAround(p.children, child, 0); }
  }

  /** With finite pools, no run of creations, resizes and deletions creates or loses capacity. */
  lemma {:induction false} PoolConservation(p: Pools, events: seq<PoolEvent>)
    requires Finite(p) && forall i :: 0 <= i < |events| && events[i].Resize? ==> events[i].value >= -1
    ensures Finite(RunPools(p, events)) && Total(RunPools(p, events)) == Total(p)
  {
    if events != [] {
      PoolConservation(p, events[..|events| - 1]);
      PoolStep(RunPools(p, events[..|events| - 1]), events[|events| - 1]);
    }
  }

  // ------------------------------------------------------- deletion of a user

  lemma OwnedAfterDeletion(w: World, from: Option<User>, u: User, objs: seq<Object>, k: Kind, o: Object)
    requires Valid(w) && u in w.users && (from.Some? ==> from.value in w.users)
    requires ListsOwned(w, u, objs) && Heir(w, from, u).Some? && k != Account
    requires UserDeleted(w, from, u, objs).Some?
    ensures var heir := Heir(w, from, u).value;
            o in Owned(UserDeleted(w, from, u, objs).value.rows, heir, k)
            <==> o in Owned(w.rows, heir, k) || o in Owned(w.rows, u, k)
  {
    var heir := Heir(w, from, u).value;
    var after := UserDeleted(w, from, u, objs).value;
    OwnedMember(after.rows, heir, k, o);
    OwnedMember(w.rows, heir, k, o);
    OwnedMember(w.rows, u, k, o);
    OwnersMember(after.rows, o, heir);
    OwnersMember(w.rows, o, heir);
    OwnersMember(w.rows, o, u);
    if o.kind == k && o in w.objects {
      var x := OneOwner(w, o);
      DeletionTransfers(w, from, u, objs, o);
    } else if o.kind == k {
      ValidDeletion(w, from, u, objs);
    }
  }

  /** The heir's usage grows by exactly the usage of the deleted user. */
  lemma UsageAddsUp(w: World, from: Option<User>, u: User, objs: seq<Object>, l: Limit)
    requires Valid(w) && u in w.users && (from.Some? ==> from.value in w.users)
    requires ListsOwned(w, u, objs) && Heir(w, from, u).Some?
    requires UserDeleted(w, from, u, objs).Some?
    ensures var heir := Heir(w, from, u).value;
            Usage(UserDeleted(w, from, u, objs).value.rows, heir, l) == Usage(w.rows, heir, l) + Usage(w.rows, u, l)
  {
    var heir := Heir(w, from, u).value;
    var k := KindOf(l);
    var a, b := Owned(w.rows, heir, k), Owned(w.rows, u, k);
    HeirIs(w, from, u);
    forall o ensures o in Owned(UserDeleted(w, from, u, objs).value.rows, heir, k) <==> o in a + b {
      OwnedAfterDeletion(w, from, u, objs, k, o);
    }
    assert Owned(UserDeleted(w, from, u, objs).value.rows, heir, k) == a + b;
    OwnedDisjoint(w, heir, u, k);
  }

  lemma OwnedDisjoint(w: World, v: User, u: User, k: Kind)
    requires Valid(w) && v != u
    ensures Owned(w.rows, v, k) !! Owned(w.rows, u, k)
  {
    forall o | o in Owned(w.rows, v, k) && o in Owned(w.rows, u, k) ensures false {
      OwnedMember(w.rows, v, k, o);
      OwnedMember(w.rows, u, k, o);
      OwnersMember(w.rows, o, v);
      OwnersMember(w.rows, o, u);
      assert (v, o) in w.rows;
      var x := OneOwner(w, o);
    }
  }

  /** Account `u`, owned by `reseller`, is deleted: the facts the two handlers start from. */
  ghost predicate Deletes(w: World, from: Option<User>, u: User, objs: seq<Object>, reseller: User) {
    && Valid(w) && u in w.users && (from.Some? ==> from.value in w.users) && ListsOwned(w, u, objs)
    && reseller != u && Owners(w.rows, AccountOf(u)) == {reseller}
    && UserDeleted(w, from, u, objs).Some?
  }

  /**
   What the reseller owns afterwards fits its new pool exactly when both usages together fit it,
   or when the new maximum happens to be the one that reads as unlimited.
   */
  lemma PoolAfterDeletion(w: World, from: Option<User>, u: User, objs: seq<Object>, reseller: User,
                          l: Limit, ownerMax: int, childMax: int)
    requires Deletes(w, from, u, objs, reseller)
    ensures var max := Returned(ownerMax, childMax);
            Within(max, Usage(UserDeleted(w, from, u, objs).value.rows, reseller, l)) <==>
            (max == -1 || Usage(w.rows, reseller, l) + Usage(w.rows, u, l) <= max)
  {
    HeirIs(w, from, u);
    UsageAddsUp(w, from, u, objs, l);
  }

  /** With both users within finite pools, the reseller stays within its pool. */
  lemma ResellerStaysWithin(w: World, from: Option<User>, u: User, objs: seq<Object>, reseller: User,
                            l: Limit, ownerMax: nat, childMax: nat)
    requires Deletes(w, from, u, objs, reseller)
    requires Within(ownerMax, Usage(w.rows, reseller, l)) && Within(childMax, Usage(w.rows, u, l))
    ensures Within(Returned(ownerMax, childMax), Usage(UserDeleted(w, from, u, objs).value.rows, reseller, l))
  {
    PoolAfterDeletion(w, from, u, objs, reseller, l, ownerMax, childMax);
  }

  /** An unlimited reseller keeps its unlimited pool exactly when the deleted account brings nothing:
      with 5 in the account's pool, the reseller ends up with a limit of 4. */
  lemma UnlimitedResellerIsCapped(childMax: int)
    ensures Returned(-1, childMax) == -1 <==> childMax <= 0
    ensures Returned(-1, 5) == 4
  {
  }

  // ------------------------------------------------------- the creation guard

  lemma OwnedAfterCreation(w: World, creator: User, o: Object, k: Kind, p: Object)
    requires Valid(w) && creator in w.users && o !in w.objects && o.kind != Account
    ensures p in Owned(Apply(w, Create(creator, o)).rows, creator, k) <==>
            p in Owned(w.rows, creator, k) || (p == o && p.kind == k)
  {
    var after := Apply(w, Create(creator, o)).rows;
    OwnedMember(after, creator, k, p);
    OwnedMember(w.rows, creator, k, p);
    GrantedRow(w.rows, w.supers, creator, o, true, creator, p);
  }

  lemma CreationCounts(w: World, creator: User, o: Object, l: Limit)
    requires Valid(w) && creator in w.users && o !in w.objects && o.kind != Account
    ensures Usage(Apply(w, Create(creator, o)).rows, creator, l) ==
            Usage(w.rows, creator, l) + (if o.kind == KindOf(l) then 1 else 0)
  {
    var k := KindOf(l);
    var before, after := Owned(w.rows, creator, k), Owned(Apply(w, Create(creator, o)).rows, creator, k);
    forall p ensures p in after <==> p in before || (p == o && p.kind == k) {
      OwnedAfterCreation(w, creator, o, k, p);
    }
    OwnedMember(w.rows, creator, k, o);
    assert (creator, o) !in w.rows;
    assert after == if o.kind == k then before + {o} else before;
  }

  /** The guard that runs before a creation refuses exactly the creations that would leave the
      creator over its pool: each creation counts for one, in its own kind only. */
  lemma CreationGuard(w: World, creator: User, o: Object, l: Limit, max: int)
    requires Valid(w) && creator in w.users && o !in w.objects && o.kind != Account
    ensures var after := Usage(Apply(w, Create(creator, o)).rows, creator, l);
            && after == Usage(w.rows, creator, l) + (if o.kind == KindOf(l) then 1 else 0)
            && (o.kind == KindOf(l) ==> (IsExceeded(max, Usage(w.rows, creator, l), 1) <==> max != -1 && after > max))
            && (Within(max, after) <==> max == -1 || after <= max)
    ensures KindOf(Domains) == Domain && KindOf(DomainAliases) == DomainAlias
    ensures KindOf(Mailboxes) == Mailbox && KindOf(MailboxAliases) == Alias
  {
    CreationCounts(w, creator, o, l);
  }
}
