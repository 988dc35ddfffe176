/** Endpoint planning of internal/clientprobe/probe.go: which resolved addresses are kept, pinned and merged. */
module Probe {
  import opened Text
  import opened Model
  import opened Sorting
  import opened Addresses
  import opened TcpStrategies

  const MAX_RETAINED_PER_FAMILY: nat := 8
  const MAX_PINNED_PER_FAMILY: nat := 1

  /** netip.Addr.Unmap: an IPv4 address carried in IPv6 form becomes the IPv4 address. */
  function Unmap(a: Address): Address
  {
    if a.V6? && a.bits / 0x1_0000_0000 == 0xFFFF then V4(a.bits % 0x1_0000_0000) else a
  }

  predicate OfFamily(a: Address, v4: bool) { if v4 then a.V4? else a.V6? }

  /** Some address of the list is this one, in either form. */
  predicate Names(addrs: seq<Address>, a: Address) { exists x :: x in addrs && Unmap(x) == a }

  /** The distinct unmapped addresses of a family, in order of arrival. */
  function Distinct(addrs: seq<Address>, v4: bool): (r: seq<Address>)
    ensures NoRepeats(r)
    ensures forall a :: a in r <==> OfFamily(a, v4) && Names(addrs, a)
  {
    if addrs == [] then []
    else
      var last := addrs[|addrs| - 1];
      var r := Distinct(addrs[..|addrs| - 1], v4);
      assert forall x :: x in addrs <==> x in addrs[..|addrs| - 1] || x == last;
      if OfFamily(Unmap(last), v4) && Unmap(last) !in r then r + [Unmap(last)] else r
  }

  function Sorted4(addrs: seq<Address>, v4: bool): seq<Address> { StableSort(AddressLess, Distinct(addrs, v4)) }

  /** The least addresses of the family, at most eight. */
  function Retained(addrs: seq<Address>, v4: bool): seq<Address> { Cut(Sorted4(addrs, v4), MAX_RETAINED_PER_FAMILY) }

  lemma AddressesTotal(s: seq<Address>)
    ensures Total(AddressLess, s)
  {
    forall x
      ensures !AddressLess(x, x)
    {
      AddressOrder(x, x, x);
    }
    forall x, y, z | AddressLess(x, y) && AddressLess(y, z)
      ensures AddressLess(x, z)
    {
      AddressOrder(x, y, z);
    }
    forall x, y | x != y
      ensures AddressLess(x, y) || AddressLess(y, x)
    {
      AddressOrder(x, y, x);
    }
  }

  /** retainAddresses; it says whether it cut anything off. */
  method RetainAddresses(addrs: seq<Address>) returns (v4: seq<Address>, v6: seq<Address>, truncated: bool)
    ensures v4 == Retained(addrs, true) && v6 == Retained(addrs, false)
    ensures truncated <==> |Distinct(addrs, true)| > MAX_RETAINED_PER_FAMILY || |Distinct(addrs, false)| > MAX_RETAINED_PER_FAMILY
  {
    var seen: set<Address> := {};
    v4, v6 := [], [];
    for i := 0 to |addrs|
      invariant v4 == Distinct(addrs[..i], true) && v6 == Distinct(addrs[..i], false)
      invariant forall a :: a in seen <==> a in v4 || a in v6
    {
      assert addrs[..i + 1][..i] == addrs[..i];
      var a := Unmap(addrs[i]);
      if addrs[i] == NoAddress || a in seen {
        continue;
      }
      seen := seen + {a};
      if a.V4? {
        v4 := v4 + [a];
      } else if a.V6? {
        v6 := v6 + [a];
      }
    }
    assert addrs[..|addrs|] == addrs;
    AddressesTotal(v4);
    AddressesTotal(v6);
    v4 := SortSlice(AddressLess, v4);
    v6 := SortSlice(AddressLess, v6);
    truncated := |v4| > MAX_RETAINED_PER_FAMILY || |v6| > MAX_RETAINED_PER_FAMILY;
    v4, v6 := Cut(v4, MAX_RETAINED_PER_FAMILY), Cut(v6, MAX_RETAINED_PER_FAMILY);
  }

  lemma SameSetSameMultiset<T(!new)>(a: seq<T>, b: seq<T>)
    requires NoRepeats(a) && NoRepeats(b) && forall x :: x in a <==> x in b
    ensures multiset(a) == multiset(b)
  {
    NoRepeatsOnce(a);
    NoRepeatsOnce(b);
    forall x
      ensures multiset(a)[x] == multiset(b)[x]
    {
      assert x in multiset(a) <==> x in a;
      assert x in multiset(b) <==> x in b;
    }
  }

  /** Only which addresses came back matters, not their order, how often, or in which form. */
  lemma RetainedIgnoresOrder(a: seq<Address>, b: seq<Address>, v4: bool)
    requires forall x :: Names(a, x) <==> Names(b, x)
    ensures Retained(a, v4) == Retained(b, v4)
  {
    SameSetSameMultiset(Distinct(a, v4), Distinct(b, v4));
    AddressesTotal(Distinct(a, v4));
    SortOfPermutation(AddressLess, Distinct(a, v4), Distinct(b, v4));
  }

  lemma SortedAscends(addrs: seq<Address>, v4: bool)
    ensures forall i, j :: 0 <= i < j < |Sorted4(addrs, v4)| ==> AddressLess(Sorted4(addrs, v4)[i], Sorted4(addrs, v4)[j])
  {
    var all := Sorted4(addrs, v4);
    AddressesTotal(Distinct(addrs, v4));
    StableSortIsSortedTotal(AddressLess, Distinct(addrs, v4));
    StableSortPermutes(AddressLess, Distinct(addrs, v4));
    NoRepeatsPermuted(Distinct(addrs, v4), all);
    forall i, j | 0 <= i < j < |all|
      ensures AddressLess(all[i], all[j])
    {
      AddressOrder(all[i], all[j], all[i]);
    }
  }

  /** What is kept is below everything that is dropped. */
  lemma RetainedAreLeast(addrs: seq<Address>, v4: bool, kept: Address, other: Address)
    requires kept in Retained(addrs, v4) && other in Distinct(addrs, v4) && other !in Retained(addrs, v4)
    ensures AddressLess(kept, other)
  {
    var all, n := Sorted4(addrs, v4), |Retained(addrs, v4)|;
    StableSortPermutes(AddressLess, Distinct(addrs, v4));
    SameElements(all, Distinct(addrs, v4));
    var i :| 0 <= i < n && Retained(addrs, v4)[i] == kept;
    var j :| 0 <= j < |all| && all[j] == other;
    assert all[..n] == Retained(addrs, v4);
    assert forall m :: 0 <= m < n ==> all[m] == Retained(addrs, v4)[m];
    SortedAscends(addrs, v4);
  }

  // ---------------------------------------------------------------- plans

  function PlanOf(addresses: seq<Address>, port: nat): (plans: seq<EndpointPlan>)
    ensures |plans| == |addresses|
  {
    seq(|addresses|, i requires 0 <= i < |addresses| =>
      EndpointPlan(EndpointKey(addresses[i], port), true, i < MAX_PINNED_PER_FAMILY, true))
  }

  /** planEndpoints: IPv4 before IPv6, and in each family the least address pinned. */
  method PlanEndpoints(addrs: seq<Address>, port: nat) returns (plans: seq<EndpointPlan>)
    ensures plans == PlanOf(Retained(addrs, true), port) + PlanOf(Retained(addrs, false), port)
    ensures |plans| <= 2 * MAX_RETAINED_PER_FAMILY
  {
    var v4, v6, _ := RetainAddresses(addrs);
    plans := [];
    for i := 0 to |v4|
      invariant plans == PlanOf(v4, port)[..i]
    {
      plans := plans + [EndpointPlan(EndpointKey(v4[i], port), true, i < MAX_PINNED_PER_FAMILY, true)];
    }
    ghost var first := plans;
    for i := 0 to |v6|
      invariant plans == first + PlanOf(v6, port)[..i]
    {
      plans := plans + [EndpointPlan(EndpointKey(v6[i], port), true, i < MAX_PINNED_PER_FAMILY, true)];
    }
  }

  function Keys(plans: seq<EndpointPlan>): (ks: seq<EndpointKey>)
    ensures |ks| == |plans|
  {
    seq(|plans|, i requires 0 <= i < |plans| => plans[i].key)
  }

  predicate PlanLess(a: EndpointPlan, b: EndpointPlan) { EndpointLess(a.key, b.key) }

  /** The exact endpoints of the attempts, in order of arrival. */
  ghost predicate IsExact(normal: Option<Fact>, tcp: seq<Fact>, k: EndpointKey)
  {
    || (normal.Some? && normal.value.exact && normal.value.endpoint == k)
    || exists f :: f in tcp && f.exact && f.endpoint == k
  }

  ghost predicate Extends(before: seq<EndpointPlan>, plans: seq<EndpointPlan>, seen: set<EndpointKey>)
  {
    && before <= plans
    && (forall k :: k in seen <==> k in Keys(plans))
    && (forall i :: |before| <= i < |plans| ==> plans[i] == EndpointPlan(plans[i].key, false, false, false))
    && (NoRepeats(Keys(before)) ==> NoRepeats(Keys(plans)))
  }

  method AddExact(before: seq<EndpointPlan>, plans: seq<EndpointPlan>, seen: set<EndpointKey>, f: Fact)
    returns (plans': seq<EndpointPlan>, seen': set<EndpointKey>)
    requires Extends(before, plans, seen)
    ensures Extends(before, plans', seen') && plans <= plans'
    ensures seen' == seen + if f.exact then {f.endpoint} else {}
  {
    plans', seen' := plans, seen;
    if f.exact && f.endpoint !in seen {
      plans' := plans + [EndpointPlan(f.endpoint, false, false, false)];
      seen' := seen + {f.endpoint};
      assert Keys(plans') == Keys(plans) + [f.endpoint];
    }
  }

  /**
   * mergeEndpointPlans: every planned endpoint and every exactly attempted one, each once when the plans were
   * distinct, in endpoint order; what was planned stays as planned.
   */
  method MergeEndpointPlans(endpoints: seq<EndpointPlan>, normal: Option<Fact>, tcp: seq<Fact>)
    returns (plans: seq<EndpointPlan>)
    ensures forall k :: k in Keys(plans) <==> k in Keys(endpoints) || IsExact(normal, tcp, k)
    ensures forall p :: p in endpoints ==> p in plans
    ensures forall p :: p in plans ==> p in endpoints || p == EndpointPlan(p.key, false, false, false)
    ensures NoRepeats(Keys(endpoints)) ==>
              forall i, j :: 0 <= i < j < |plans| ==> PlanLess(plans[i], plans[j])
  {
    plans := endpoints;
    var seen := KeySet(endpoints);
    if normal.Some? {
      plans, seen := AddExact(endpoints, plans, seen, normal.value);
    }
    for i := 0 to |tcp|
      invariant Extends(endpoints, plans, seen)
      invariant forall k :: k in seen <==> k in Keys(endpoints) || IsExact(normal, tcp[..i], k)
    {
      assert tcp[..i + 1] == tcp[..i] + [tcp[i]];
      plans, seen := AddExact(endpoints, plans, seen, tcp[i]);
    }
    assert tcp[..|tcp|] == tcp;
    ghost var unsorted := plans;
    plans := SortPlans(plans);
    forall p | p in plans
      ensures p in endpoints || p == EndpointPlan(p.key, false, false, false)
    {
      var i :| 0 <= i < |unsorted| && unsorted[i] == p;
      assert i < |endpoints| ==> endpoints[i] == p;
    }
  }

  method KeySet(plans: seq<EndpointPlan>) returns (seen: set<EndpointKey>)
    ensures forall k :: k in seen <==> k in Keys(plans)
  {
    seen := {};
    for i := 0 to |plans|
      invariant forall k :: k in seen <==> k in Keys(plans)[..i]
    {
      assert Keys(plans)[..i + 1] == Keys(plans)[..i] + [plans[i].key];
      seen := seen + {plans[i].key};
    }
    assert Keys(plans)[..|plans|] == Keys(plans);
  }

  method SortPlans(plans: seq<EndpointPlan>) returns (r: seq<EndpointPlan>)
    ensures forall p :: p in r <==> p in plans
    ensures forall k :: k in Keys(r) <==> k in Keys(plans)
    ensures NoRepeats(Keys(plans)) ==> forall i, j :: 0 <= i < j < |r| ==> PlanLess(r[i], r[j])
  {
    r := SortSlice(PlanLess, plans);
    KeysFollow(plans, r);
    if NoRepeats(Keys(plans)) {
      PlansTotal(plans);
      TotalIsWeak(PlanLess, plans);
      DistinctPlansAscend(plans, r);
    }
  }

  lemma KeysFollow(a: seq<EndpointPlan>, b: seq<EndpointPlan>)
    requires forall p :: p in a <==> p in b
    ensures forall k :: k in Keys(a) <==> k in Keys(b)
  {
    KeysOneWay(a, b);
    KeysOneWay(b, a);
  }

  lemma KeysOneWay(a: seq<EndpointPlan>, b: seq<EndpointPlan>)
    requires forall p :: p in a ==> p in b
    ensures forall k :: k in Keys(a) ==> k in Keys(b)
  {
    forall k | k in Keys(a)
      ensures k in Keys(b)
    {
      var i :| 0 <= i < |a| && Keys(a)[i] == k;
      assert a[i] in b;
      var j :| 0 <= j < |b| && b[j] == a[i];
      assert Keys(b)[j] == k;
    }
  }

  lemma PlansTotal(plans: seq<EndpointPlan>)
    requires NoRepeats(Keys(plans))
    ensures Total(PlanLess, plans)
  {
    forall x
      ensures !PlanLess(x, x)
    {
      EndpointOrder(x.key, x.key, x.key);
    }
    forall x, y, z | PlanLess(x, y) && PlanLess(y, z)
      ensures PlanLess(x, z)
    {
      EndpointOrder(x.key, y.key, z.key);
    }
    forall x, y | x in plans && y in plans && x != y
      ensures PlanLess(x, y) || PlanLess(y, x)
    {
      EndpointOrder(x.key, y.key, x.key);
      var i :| 0 <= i < |plans| && plans[i] == x;
      var j :| 0 <= j < |plans| && plans[j] == y;
      assert Keys(plans)[i] == x.key && Keys(plans)[j] == y.key;
    }
  }

  lemma DistinctPlansAscend(plans: seq<EndpointPlan>, r: seq<EndpointPlan>)
    requires NoRepeats(Keys(plans)) && multiset(r) == multiset(plans) && Total(PlanLess, plans) && Sorted(PlanLess, r)
    ensures forall i, j :: 0 <= i < j < |r| ==> PlanLess(r[i], r[j])
  {
    SameElements(r, plans);
    assert NoRepeats(plans) by {
      forall i, j | 0 <= i < j < |plans|
        ensures plans[i] != plans[j]
      {
        assert Keys(plans)[i] != Keys(plans)[j];
      }
    }
    NoRepeatsPermuted(plans, r);
    forall i, j | 0 <= i < j < |r|
      ensures PlanLess(r[i], r[j])
    {
      assert r[i] in plans && r[j] in plans && r[i] != r[j];
    }
  }
}
