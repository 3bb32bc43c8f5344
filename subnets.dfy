// The subnet list of the sender applications (the Subnet class and the
// SubnetListChanged / UpdateAdapter logic of ohSongcast/Songcast.cpp,
// ohSongcaster/Songcaster.cpp and ohSoundcard/Soundcard.cpp). A subnet is
// listed once per address; it follows the network adapter that currently
// serves it, and it stays listed when that adapter goes away.
module Subnets {
  import opened OhmWire

  /** An OhNet NetworkAdapter: the handle stands for the object's
      identity. */
  datatype Adapter = Adapter(handle: nat, address: nat, subnet: nat, name: string)

  /** A Subnet: the adapter it is attached to, if any, and the subnet
      address it was made for. */
  datatype Subnet = Subnet(adapter: Option<Adapter>, subnet: nat)

  /** How IsAttachedTo compares adapters: Songcast and Songcaster compare
      adapter addresses, Soundcard compares the adapter objects. */
  datatype Matching = ByAddress | ByIdentity

  /** The subnet callbacks, naming a subnet by its place in the list. */
  datatype SubnetEvent = SubnetAdded(index: nat) | SubnetChanged(index: nat) | SubnetRemoved(index: nat)

  const NotPresent: string := "Network adapter not present"

  /** Subnet::Address: the attached adapter's subnet, otherwise the stored
      one. */
  function Address(s: Subnet): nat
  {
    if s.adapter.Some? then s.adapter.value.subnet else s.subnet
  }

  /** Subnet::AdapterAddress: 0 when detached. */
  function AdapterAddress(s: Subnet): (a: nat)
    ensures s.adapter.None? ==> a == 0
    ensures s.adapter.Some? ==> a == s.adapter.value.address
  {
    if s.adapter.Some? then s.adapter.value.address else 0
  }

  /** Subnet::AdapterName: a fixed text when detached. */
  function AdapterName(s: Subnet): (n: string)
    ensures s.adapter.None? ==> n == NotPresent
    ensures s.adapter.Some? ==> n == s.adapter.value.name
  {
    if s.adapter.Some? then s.adapter.value.name else NotPresent
  }

  /** Subnet::IsAttachedTo: false when detached. */
  predicate IsAttachedTo(s: Subnet, a: Adapter, m: Matching)
  {
    s.adapter.Some? && (if m == ByAddress then s.adapter.value.address == a.address else s.adapter.value == a)
  }

  /** A subnet made for an adapter, or (with no adapter) the placeholder for
      the current subnet. */
  function ForAdapter(a: Adapter): (s: Subnet)
    ensures Address(s) == a.subnet && s.adapter == Some(a)
  {
    Subnet(Some(a), a.subnet)
  }

  /** Subnet::Attach. */
  function Attach(s: Subnet, a: Adapter): (s': Subnet)
    ensures s'.adapter == Some(a) && s'.subnet == s.subnet
  {
    s.(adapter := Some(a))
  }

  /** Subnet::Detach (Songcast only). */
  function Detach(s: Subnet): (s': Subnet)
    ensures s'.adapter.None? && s'.subnet == s.subnet
  {
    s.(adapter := None)
  }

  /** The stored subnet agrees with the attached adapter's. */
  predicate Consistent(s: Subnet)
  {
    s.adapter.Some? ==> s.adapter.value.subnet == s.subnet
  }

  predicate AllConsistent(list: seq<Subnet>)
  {
    forall k :: 0 <= k < |list| ==> Consistent(list[k])
  }

  /** No two listed subnets share an address. */
  predicate DistinctAddresses(list: seq<Subnet>)
  {
    forall i, j :: 0 <= i < j < |list| ==> Address(list[i]) != Address(list[j])
  }

  predicate Listed(list: seq<Subnet>, subnet: nat)
  {
    exists k :: 0 <= k < |list| && Address(list[k]) == subnet
  }

  /** A listed subnet with the address is attached to an adapter. */
  predicate Served(list: seq<Subnet>, subnet: nat)
  {
    exists k :: 0 <= k < |list| && Address(list[k]) == subnet && list[k].adapter.Some?
  }

  /** The first listed subnet with the address, or the list's length. */
  function FindSubnet(list: seq<Subnet>, subnet: nat): (k: nat)
    ensures k <= |list|
    ensures k < |list| ==> Address(list[k]) == subnet
    ensures k == |list| <==> !Listed(list, subnet)
    decreases |list|
  {
    if |list| == 0 then 0
    else if Address(list[0]) == subnet then 0
    else
      var k := 1 + FindSubnet(list[1..], subnet);
      assert forall j :: 1 <= j < |list| ==> list[j] == list[1..][j - 1];
      k
  }

  /** The search loop of SubnetListChanged and UpdateAdapter. */
  method Find(list: seq<Subnet>, subnet: nat) returns (k: nat)
    ensures k == FindSubnet(list, subnet)
  {
    k := 0;
    while k < |list| && Address(list[k]) != subnet
      invariant k <= |list| && forall j :: 0 <= j < k ==> Address(list[j]) != subnet
    {
      k := k + 1;
    }
    FindFirst(list, subnet, k);
  }

  /** With the first-match characterisation, the position is FindSubnet's. */
  lemma {:induction false} FindFirst(list: seq<Subnet>, subnet: nat, k: nat)
    requires k <= |list| && (k < |list| ==> Address(list[k]) == subnet)
    requires forall j :: 0 <= j < k ==> Address(list[j]) != subnet
    ensures k == FindSubnet(list, subnet)
    decreases |list|
  {
    if |list| > 0 && k > 0 {
      FindFirst(list[1..], subnet, k - 1);
    }
  }

  // ---------------------------------------------------------------------
  // The adapter loop

  /** One adapter of the new list: the subnet with its subnet address is
      re-attached and reported changed when attached elsewhere; with none,
      a subnet is made for the adapter, appended and reported added. */
  function MergeOne(list: seq<Subnet>, a: Adapter, m: Matching): (r: (seq<Subnet>, seq<SubnetEvent>))
  {
    var k := FindSubnet(list, a.subnet);
    if k < |list| then
      if IsAttachedTo(list[k], a, m) then (list, [])
      else (list[k := Attach(list[k], a)], [SubnetChanged(k)])
    else (list + [ForAdapter(a)], [SubnetAdded(|list|)])
  }

  /** The adapter loop of SubnetListChanged, over the new adapter list in
      order. */
  function Merge(list: seq<Subnet>, adapters: seq<Adapter>, m: Matching): (r: (seq<Subnet>, seq<SubnetEvent>))
    decreases |adapters|
  {
    if |adapters| == 0 then (list, [])
    else
      var r := Merge(list, adapters[..|adapters| - 1], m);
      var r' := MergeOne(r.0, adapters[|adapters| - 1], m);
      (r'.0, r.1 + r'.1)
  }

  /** One step keeps the addresses already listed, at their places, never
      detaches a subnet, and lists the adapter's subnet attached. */
  lemma MergeOneKeeps(list: seq<Subnet>, a: Adapter, m: Matching)
    ensures var l := MergeOne(list, a, m).0;
      |l| >= |list| && (forall k :: 0 <= k < |list| ==> Address(l[k]) == Address(list[k]))
      && (forall k :: 0 <= k < |list| && list[k].adapter.Some? ==> l[k].adapter.Some?)
      && Served(l, a.subnet)
  {
    var l := MergeOne(list, a, m).0;
    var k := FindSubnet(list, a.subnet);
    if k == |list| {
      assert Address(l[|list|]) == a.subnet && l[|list|].adapter.Some?;
    } else {
      assert Address(l[k]) == a.subnet && l[k].adapter.Some?;
    }
  }

  /** After the adapter loop every listed address is still listed, at its
      place, no subnet has lost its adapter, and every new adapter's subnet
      is listed and attached. */
  lemma {:induction false} MergeCovers(list: seq<Subnet>, adapters: seq<Adapter>, m: Matching)
    ensures var l := Merge(list, adapters, m).0;
      |l| >= |list| && (forall k :: 0 <= k < |list| ==> Address(l[k]) == Address(list[k]))
      && (forall k :: 0 <= k < |list| && list[k].adapter.Some? ==> l[k].adapter.Some?)
      && forall i :: 0 <= i < |adapters| ==> Served(l, adapters[i].subnet)
    decreases |adapters|
  {
    if |adapters| > 0 {
      var init := adapters[..|adapters| - 1];
      MergeCovers(list, init, m);
      var mid := Merge(list, init, m).0;
      var a := adapters[|adapters| - 1];
      MergeOneKeeps(mid, a, m);
      var l := Merge(list, adapters, m).0;
      forall i | 0 <= i < |adapters|
        ensures Served(l, adapters[i].subnet)
      {
        if i < |init| {
          assert init[i] == adapters[i];
          var k :| 0 <= k < |mid| && Address(mid[k]) == adapters[i].subnet && mid[k].adapter.Some?;
          assert Address(l[k]) == Address(mid[k]) && l[k].adapter.Some?;
        }
      }
    }
  }

  /** One step lists no address twice, and keeps subnets consistent with
      their adapters. */
  lemma MergeOneDistinct(list: seq<Subnet>, a: Adapter, m: Matching)
    requires DistinctAddresses(list) && AllConsistent(list)
    ensures DistinctAddresses(MergeOne(list, a, m).0) && AllConsistent(MergeOne(list, a, m).0)
  {
    var l := MergeOne(list, a, m).0;
    var k := FindSubnet(list, a.subnet);
    if k < |list| {
      assert Address(l[k]) == Address(list[k]);
      assert forall j :: 0 <= j < |list| ==> Address(l[j]) == Address(list[j]);
    } else {
      assert forall j :: 0 <= j < |list| ==> l[j] == list[j];
    }
  }

  /** The adapter loop never lists an address twice. */
  lemma {:induction false} MergeDistinct(list: seq<Subnet>, adapters: seq<Adapter>, m: Matching)
    requires DistinctAddresses(list) && AllConsistent(list)
    ensures DistinctAddresses(Merge(list, adapters, m).0) && AllConsistent(Merge(list, adapters, m).0)
    decreases |adapters|
  {
    if |adapters| > 0 {
      MergeDistinct(list, adapters[..|adapters| - 1], m);
      MergeOneDistinct(Merge(list, adapters[..|adapters| - 1], m).0, adapters[|adapters| - 1], m);
    }
  }

  /** The adapter loop of SubnetListChanged: for each adapter, the search of
      the current list, then the attach or the append. */
  method MergeAdapters(list: seq<Subnet>, adapters: seq<Adapter>, m: Matching)
    returns (list': seq<Subnet>, events: seq<SubnetEvent>)
    ensures (list', events) == Merge(list, adapters, m)
  {
    list', events := list, [];
    var i := 0;
    while i < |adapters|
      invariant i <= |adapters| && (list', events) == Merge(list, adapters[..i], m)
    {
      var a := adapters[i];
      assert adapters[..i + 1][..i] == adapters[..i] && adapters[..i + 1][i] == a;
      ghost var step := MergeOne(list', a, m);
      ghost var before := events;
      var k := Find(list', a.subnet);
      if k < |list'| {
        if !IsAttachedTo(list'[k], a, m) {
          list' := list'[k := Attach(list'[k], a)];
          events := events + [SubnetChanged(k)];
        }
      } else {
        list' := list' + [ForAdapter(a)];
        events := events + [SubnetAdded(|list'| - 1)];
      }
      assert list' == step.0 && events == before + step.1;
      i := i + 1;
    }
    assert adapters[..i] == adapters;
  }

  // ---------------------------------------------------------------------
  // Songcast's detach loop

  predicate Offered(adapters: seq<Adapter>, subnet: nat)
  {
    exists i :: 0 <= i < |adapters| && adapters[i].subnet == subnet
  }

  /** Songcast's second loop: every listed subnet whose address no adapter
      of the new list has is detached and reported changed; subnets are
      never removed. */
  function DetachAbsent(list: seq<Subnet>, adapters: seq<Adapter>): (r: (seq<Subnet>, seq<SubnetEvent>))
    ensures |r.0| == |list|
    decreases |list|
  {
    if |list| == 0 then ([], [])
    else
      var r := DetachAbsent(list[..|list| - 1], adapters);
      var s := list[|list| - 1];
      if Offered(adapters, Address(s)) then (r.0 + [s], r.1)
      else (r.0 + [Detach(s)], r.1 + [SubnetChanged(|list| - 1)])
  }

  /** Detaching keeps every address (subnets are consistent with their
      adapters), and afterwards a subnet is attached only if an adapter of
      the new list has its address. */
  lemma {:induction false} DetachAbsentKeeps(list: seq<Subnet>, adapters: seq<Adapter>)
    requires AllConsistent(list)
    ensures var l := DetachAbsent(list, adapters).0;
      AllConsistent(l)
      && (forall k :: 0 <= k < |list| ==> Address(l[k]) == Address(list[k]))
      && (forall k :: 0 <= k < |list| ==> (l[k].adapter.Some? <==> list[k].adapter.Some? && Offered(adapters, Address(list[k]))))
    decreases |list|
  {
    if |list| > 0 {
      var init := list[..|list| - 1];
      assert forall k :: 0 <= k < |init| ==> init[k] == list[k];
      DetachAbsentKeeps(init, adapters);
    }
  }

  /** The detach loop: each listed subnet is looked up in the new adapter
      list. */
  method DetachAbsentLoop(list: seq<Subnet>, adapters: seq<Adapter>)
    returns (list': seq<Subnet>, events: seq<SubnetEvent>)
    ensures (list', events) == DetachAbsent(list, adapters)
  {
    list', events := [], [];
    var k := 0;
    while k < |list|
      invariant k <= |list| && (list', events) == DetachAbsent(list[..k], adapters)
    {
      assert list[..k + 1][..k] == list[..k];
      var s := list[k];
      var i := 0;
      while i < |adapters| && adapters[i].subnet != Address(s)
        invariant i <= |adapters| && forall j :: 0 <= j < i ==> adapters[j].subnet != Address(s)
      {
        i := i + 1;
      }
      if i < |adapters| {
        list' := list' + [s];
      } else {
        list' := list' + [Detach(s)];
        events := events + [SubnetChanged(k)];
      }
      k := k + 1;
    }
    assert list[..k] == list;
  }

  /** The detach loop leaves every subnet the adapters serve listed. */
  lemma DetachKeepsListed(merged: seq<Subnet>, adapters: seq<Adapter>)
    requires AllConsistent(merged)
    requires forall i :: 0 <= i < |adapters| ==> Served(merged, adapters[i].subnet)
    ensures forall i :: 0 <= i < |adapters| ==> Listed(DetachAbsent(merged, adapters).0, adapters[i].subnet)
  {
    DetachAbsentKeeps(merged, adapters);
    var l := DetachAbsent(merged, adapters).0;
    forall i | 0 <= i < |adapters|
      ensures Listed(l, adapters[i].subnet)
    {
      var k :| 0 <= k < |merged| && Address(merged[k]) == adapters[i].subnet && merged[k].adapter.Some?;
      assert Address(l[k]) == adapters[i].subnet;
    }
  }

  /** After the detach loop a subnet is attached exactly when an adapter
      has its address. */
  lemma DetachAttachedIff(merged: seq<Subnet>, adapters: seq<Adapter>)
    requires AllConsistent(merged) && DistinctAddresses(merged)
    requires forall i :: 0 <= i < |adapters| ==> Served(merged, adapters[i].subnet)
    ensures var l := DetachAbsent(merged, adapters).0;
      forall k :: 0 <= k < |l| ==> (l[k].adapter.Some? <==> Offered(adapters, Address(l[k])))
  {
    DetachAbsentKeeps(merged, adapters);
    var l := DetachAbsent(merged, adapters).0;
    forall k | 0 <= k < |l| && Offered(adapters, Address(l[k]))
      ensures l[k].adapter.Some?
    {
      var i :| 0 <= i < |adapters| && adapters[i].subnet == Address(l[k]);
      var q :| 0 <= q < |merged| && Address(merged[q]) == adapters[i].subnet && merged[q].adapter.Some?;
      assert Address(merged[q]) == Address(merged[k]);
    }
  }

  /** Songcast's SubnetListChanged, both loops: afterwards no address is
      listed twice, every adapter's subnet is listed, and a listed subnet
      is attached exactly when an adapter of the new list has its
      address. */
  lemma SongcastRefresh(list: seq<Subnet>, adapters: seq<Adapter>)
    requires DistinctAddresses(list) && AllConsistent(list)
    ensures var l := DetachAbsent(Merge(list, adapters, ByAddress).0, adapters).0;
      DistinctAddresses(l) && AllConsistent(l)
      && (forall i :: 0 <= i < |adapters| ==> Listed(l, adapters[i].subnet))
      && forall k :: 0 <= k < |l| ==> (l[k].adapter.Some? <==> Offered(adapters, Address(l[k])))
  {
    var merged := Merge(list, adapters, ByAddress).0;
    MergeCovers(list, adapters, ByAddress);
    MergeDistinct(list, adapters, ByAddress);
    DetachAbsentKeeps(merged, adapters);
    DetachKeepsListed(merged, adapters);
    DetachAttachedIff(merged, adapters);
  }
}
