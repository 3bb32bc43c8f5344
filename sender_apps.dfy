// The sender applications (ohSongcast/Songcast.cpp,
// ohSongcaster/Songcaster.cpp, ohSoundcard/Soundcard.cpp): their
// configuration with guarded setters, their subnet list kept in step with
// the network adapters, and the adapter their sender uses. The three
// classes share this logic and differ in a few places, named by App.
module SenderApps {
  import opened OhmWire
  import opened Subnets

  datatype App = Songcast | Songcaster | Soundcard

  /** Soundcard compares adapter objects; the others compare addresses. */
  function MatchingOf(app: App): Matching
  {
    if app == Soundcard then ByIdentity else ByAddress
  }

  /** The calls made on the OhmSender, and the receiver manager's metadata
      refresh that follows a change of multicast mode. */
  datatype SenderCall =
    | SetInterface(adapter: nat)
    | SetChannel(channel: nat)
    | SetTtl(ttl: nat)
    | SetLatency(latency: nat)
    | SetMulticast(multicast: bool)
    | SetEnabled(enabled: bool)
    | SetPreset(preset: nat)
    | MetadataRefreshed

  // ---------------------------------------------------------------------
  // Names

  const SongcasterInfix: string := "-Songcaster-"

  /** Songcaster and Soundcard name their sender after the computer and
      the manufacturer. */
  function SongcasterName(computer: string, manufacturer: string): (n: string)
    ensures |n| > |computer| && n[..|computer|] == computer
  {
    computer + " (" + manufacturer + " Songcaster)"
  }

  /** Songcaster and Soundcard use one string as device UDN and friendly
      name: the manufacturer, "-Songcaster-" and the computer. */
  function SongcasterUdn(manufacturer: string, computer: string): string
  {
    manufacturer + SongcasterInfix + computer
  }

  /** The computer name, read back from a UDN of the given manufacturer. */
  function UdnComputer(udn: string, manufacturer: string): string
    requires |udn| >= |manufacturer| + |SongcasterInfix|
  {
    udn[|manufacturer| + |SongcasterInfix|..]
  }

  /** The UDN names its manufacturer and its computer. */
  lemma UdnRoundTrip(manufacturer: string, computer: string)
    ensures |SongcasterUdn(manufacturer, computer)| >= |manufacturer| + |SongcasterInfix|
    ensures SongcasterUdn(manufacturer, computer)[..|manufacturer|] == manufacturer
    ensures UdnComputer(SongcasterUdn(manufacturer, computer), manufacturer) == computer
  {
    var udn := SongcasterUdn(manufacturer, computer);
    assert udn == manufacturer + (SongcasterInfix + computer);
  }

  // ---------------------------------------------------------------------
  // SubnetListChanged

  /** The subnet list and the callbacks after the adapter loop and, for
      Songcast, the detach loop. */
  function Rescan(app: App, list: seq<Subnet>, adapters: seq<Adapter>): (r: (seq<Subnet>, seq<SubnetEvent>))
  {
    var merged := Merge(list, adapters, MatchingOf(app));
    if app == Songcast then
      var detached := DetachAbsent(merged.0, adapters);
      (detached.0, merged.1 + detached.1)
    else merged
  }

  /** Then, when the current subnet is not listed and is not 0, a
      placeholder subnet for it is appended and reported added. */
  function Refresh(app: App, list: seq<Subnet>, adapters: seq<Adapter>, current: nat): (r: (seq<Subnet>, seq<SubnetEvent>))
  {
    var r := Rescan(app, list, adapters);
    if !Listed(r.0, current) && current != 0 then (r.0 + [Subnet(None, current)], r.1 + [SubnetAdded(|r.0|)])
    else r
  }

  /** The rescan keeps every address listed at its place, lists every
      adapter's subnet, lists no address twice and keeps subnets consistent
      with their adapters. */
  lemma RescanKeeps(app: App, list: seq<Subnet>, adapters: seq<Adapter>)
    requires DistinctAddresses(list) && AllConsistent(list)
    ensures var l := Rescan(app, list, adapters).0;
      DistinctAddresses(l) && AllConsistent(l) && |l| >= |list|
      && (forall k :: 0 <= k < |list| ==> Address(l[k]) == Address(list[k]))
      && forall i :: 0 <= i < |adapters| ==> Listed(l, adapters[i].subnet)
  {
    var merged := Merge(list, adapters, MatchingOf(app)).0;
    MergeCovers(list, adapters, MatchingOf(app));
    MergeDistinct(list, adapters, MatchingOf(app));
    if app == Songcast {
      SongcastRefresh(list, adapters);
      DetachAbsentKeeps(merged, adapters);
    } else {
      forall i | 0 <= i < |adapters|
        ensures Listed(merged, adapters[i].subnet)
      {
        var k :| 0 <= k < |merged| && Address(merged[k]) == adapters[i].subnet && merged[k].adapter.Some?;
      }
    }
  }

  /** After SubnetListChanged every subnet listed before is still listed,
      every adapter's subnet is listed, a nonzero current subnet is listed,
      and no address is listed twice. */
  lemma RefreshLists(app: App, list: seq<Subnet>, adapters: seq<Adapter>, current: nat)
    requires DistinctAddresses(list) && AllConsistent(list)
    ensures var l := Refresh(app, list, adapters, current).0;
      DistinctAddresses(l) && AllConsistent(l) && |l| >= |list|
      && (forall k :: 0 <= k < |list| ==> Address(l[k]) == Address(list[k]))
      && (forall i :: 0 <= i < |adapters| ==> Listed(l, adapters[i].subnet))
      && (current != 0 ==> Listed(l, current))
  {
    RescanKeeps(app, list, adapters);
    var r := Rescan(app, list, adapters).0;
    var l := Refresh(app, list, adapters, current).0;
    if !Listed(r, current) && current != 0 {
      assert forall k :: 0 <= k < |r| ==> l[k] == r[k];
      assert Address(l[|r|]) == current;
      forall i | 0 <= i < |adapters|
        ensures Listed(l, adapters[i].subnet)
      {
        var k :| 0 <= k < |r| && Address(r[k]) == adapters[i].subnet;
        assert l[k] == r[k];
      }
    }
  }

  /** The subnet-list loops of SubnetListChanged. */
  method RescanLoops(app: App, list: seq<Subnet>, adapters: seq<Adapter>)
    returns (list': seq<Subnet>, events: seq<SubnetEvent>)
    ensures (list', events) == Rescan(app, list, adapters)
  {
    list', events := MergeAdapters(list, adapters, MatchingOf(app));
    if app == Songcast {
      var detached, changed := DetachAbsentLoop(list', adapters);
      list', events := detached, events + changed;
    }
  }

  /** The adapter UpdateAdapter adopts: that of the first subnet listed
      with the current address. */
  function AdapterFor(list: seq<Subnet>, current: nat, adapter: nat): (a: nat)
    ensures !Listed(list, current) ==> a == adapter
    ensures Listed(list, current) ==> a == AdapterAddress(list[FindSubnet(list, current)])
  {
    var k := FindSubnet(list, current);
    if k < |list| then AdapterAddress(list[k]) else adapter
  }

  /** SubnetListChanged as run by the constructor, before the sender
      exists. */
  method Start(app: App, list: seq<Subnet>, events: seq<SubnetEvent>, adapters: seq<Adapter>, current: nat, adapter: nat)
    returns (list': seq<Subnet>, events': seq<SubnetEvent>, adapter': nat)
    ensures (list', events') == (Refresh(app, list, adapters, current).0, events + Refresh(app, list, adapters, current).1)
    ensures adapter' == AdapterFor(Rescan(app, list, adapters).0, current, adapter)
  {
    var rescanned;
    rescanned, events' := RescanLoops(app, list, adapters);
    events' := events + events';
    var k := Find(rescanned, current);
    adapter' := if k < |rescanned| then AdapterAddress(rescanned[k]) else adapter;
    list' := rescanned;
    if k == |rescanned| && current != 0 {
      list', events' := list' + [Subnet(None, current)], events' + [SubnetAdded(|rescanned|)];
    }
    assert events' == events + Refresh(app, list, adapters, current).1;
  }

  /** The Soundcard constructor's fallback for subnet 0: the first listed
      subnet and its adapter; with an empty list, the settings stay. */
  function Fallback(list: seq<Subnet>, subnet: nat, adapter: nat): (r: (nat, nat))
    ensures |list| > 0 ==> Listed(list, r.0) && r.1 == AdapterAddress(list[0])
    ensures |list| == 0 ==> r == (subnet, adapter)
  {
    if |list| > 0 then (Address(list[0]), AdapterAddress(list[0])) else (subnet, adapter)
  }

  /** The fallback as written indexes the list without checking it. */
  function FallbackAsWritten(list: seq<Subnet>): (r: (nat, nat))
    requires |list| > 0
    ensures Listed(list, r.0)
  {
    (Address(list[0]), AdapterAddress(list[0]))
  }

  /** With no network adapter, the list the Soundcard constructor indexes
      is empty: FallbackAsWritten cannot be applied to it. */
  lemma EmptyFallbackAsWritten()
    ensures |Refresh(Soundcard, [], [], 0).0| == 0
  {
    assert Merge([], [], ByIdentity).0 == [];
  }

  // ---------------------------------------------------------------------
  // The application

  /** A Songcast, Songcaster or Soundcard object: its configuration, its
      subnet list with the callbacks reported for it, the adapter its
      sender uses, and the calls made on the sender. */
  class Host {
    const app: App
    var subnet: nat
    var channel: nat
    var ttl: nat
    var latency: nat
    var multicast: bool
    var enabled: bool
    var preset: nat
    var closing: bool
    var adapter: nat
    var subnets: seq<Subnet>
    var subnetEvents: seq<SubnetEvent>
    /** Whether the sender exists yet: it is made after the constructor's
        first SubnetListChanged. */
    var senderMade: bool
    var senderCalls: seq<SenderCall>
    /** How many times the configuration-changed callback fired. */
    var configChanged: nat

    /** The constructor, given the settings and the adapter list OhNet
        reports: the subnet list is built by SubnetListChanged before the
        sender exists. A Soundcard started with subnet 0 first adopts the
        first listed subnet and its adapter (Fallback). */
    constructor (app: App, subnet: nat, channel: nat, ttl: nat, latency: nat, multicast: bool, enabled: bool,
                 preset: nat, adapters: seq<Adapter>)
      ensures Valid() && this.app == app && !closing && senderMade
      ensures this.subnet == (if app == Soundcard && subnet == 0 then Fallback(Refresh(app, [], adapters, 0).0, 0, 0).0 else subnet)
      ensures this.subnet != 0 ==> Listed(subnets, this.subnet)
      ensures forall i :: 0 <= i < |adapters| ==> Listed(subnets, adapters[i].subnet)
      ensures this.channel == channel && this.ttl == ttl && this.latency == latency
      ensures this.multicast == multicast && this.enabled == enabled && this.preset == preset
      ensures senderCalls == [] && configChanged == 0
    {
      var current, adapter := subnet, 0;
      var list, events := [], [];
      if app == Soundcard && subnet == 0 {
        RefreshLists(app, [], adapters, 0);
        list, events, adapter := Start(app, [], [], adapters, 0, 0);
        current, adapter := Fallback(list, current, adapter).0, Fallback(list, current, adapter).1;
      }
      RefreshLists(app, list, adapters, current);
      list, events, adapter := Start(app, list, events, adapters, current, adapter);
      this.app, this.subnet, this.channel, this.ttl, this.latency := app, current, channel, ttl, latency;
      this.multicast, this.enabled, this.preset, closing := multicast, enabled, preset, false;
      this.adapter, subnets, subnetEvents := adapter, list, events;
      senderMade, senderCalls, configChanged := true, [], 0;
    }

    ghost predicate Valid()
      reads this`subnets
    {
      DistinctAddresses(subnets) && AllConsistent(subnets)
    }

    /** Whether a setter given an unchanged value, or called while closing,
        returns at once. Soundcard's setters check only the value. */
    predicate Skips(same: bool)
      reads this`closing
    {
      same || (closing && app != Soundcard)
    }

    /** UpdateAdapter: when the current subnet is listed, its adapter is
        adopted, and passed to the sender only if it changed and the sender
        exists. Returns whether the current subnet is listed. */
    method UpdateAdapter() returns (found: bool)
      modifies this`adapter, this`senderCalls
      ensures found == Listed(subnets, subnet)
      ensures adapter == AdapterFor(subnets, subnet, old(adapter))
      ensures senderCalls == old(senderCalls) + (if adapter != old(adapter) && senderMade then [SetInterface(adapter)] else [])
    {
      var k := Find(subnets, subnet);
      found := k < |subnets|;
      if found {
        var a := AdapterAddress(subnets[k]);
        if adapter != a {
          adapter := a;
          if senderMade {
            senderCalls := senderCalls + [SetInterface(a)];
          }
        }
      }
    }

    /** SubnetListChanged, given the adapter list OhNet reports: nothing
        while closing; otherwise the list is rescanned, the adapter
        updated, and a placeholder added for a nonzero current subnet that
        is not listed. */
    method SubnetListChanged(adapters: seq<Adapter>)
      requires Valid()
      modifies this`subnets, this`subnetEvents, this`adapter, this`senderCalls
      ensures Valid()
      ensures closing ==> (subnets == old(subnets) && subnetEvents == old(subnetEvents)
        && adapter == old(adapter) && senderCalls == old(senderCalls))
      ensures !closing ==> var r := Refresh(app, old(subnets), adapters, subnet);
        subnets == r.0 && subnetEvents == old(subnetEvents) + r.1
        && adapter == AdapterFor(Rescan(app, old(subnets), adapters).0, subnet, old(adapter))
        && senderCalls == old(senderCalls) + (if adapter != old(adapter) && senderMade then [SetInterface(adapter)] else [])
    {
      if closing {
        return;
      }
      RefreshLists(app, subnets, adapters, subnet);
      var list, events := RescanLoops(app, subnets, adapters);
      subnets, subnetEvents := list, subnetEvents + events;
      var found := UpdateAdapter();
      if !found && subnet != 0 {
        subnets, subnetEvents := subnets + [Subnet(None, subnet)], subnetEvents + [SubnetAdded(|subnets|)];
      }
    }

    /** SetSubnet: the new current subnet must be listed (the source
        asserts that UpdateAdapter finds it). */
    method SetSubnet(value: nat)
      requires !Skips(subnet == value) ==> Listed(subnets, value)
      modifies this`subnet, this`adapter, this`senderCalls, this`configChanged
      ensures old(Skips(subnet == value)) ==> (subnet == old(subnet) && adapter == old(adapter)
        && senderCalls == old(senderCalls) && configChanged == old(configChanged))
      ensures !old(Skips(subnet == value)) ==> (subnet == value
        && adapter == AdapterFor(subnets, value, old(adapter))
        && senderCalls == old(senderCalls) + (if adapter != old(adapter) && senderMade then [SetInterface(adapter)] else [])
        && configChanged == old(configChanged) + 1)
    {
      if Skips(subnet == value) {
        return;
      }
      subnet := value;
      var found := UpdateAdapter();
      configChanged := configChanged + 1;
    }

    method SetChannel(value: nat)
      modifies this`channel, this`senderCalls, this`configChanged
      ensures old(Skips(channel == value)) ==> channel == old(channel) && senderCalls == old(senderCalls) && configChanged == old(configChanged)
      ensures !old(Skips(channel == value)) ==> (channel == value
        && senderCalls == old(senderCalls) + [SenderCall.SetChannel(value)] && configChanged == old(configChanged) + 1)
    {
      if Skips(channel == value) {
        return;
      }
      channel, senderCalls, configChanged := value, senderCalls + [SenderCall.SetChannel(value)], configChanged + 1;
    }

    method SetTtl(value: nat)
      modifies this`ttl, this`senderCalls, this`configChanged
      ensures old(Skips(ttl == value)) ==> ttl == old(ttl) && senderCalls == old(senderCalls) && configChanged == old(configChanged)
      ensures !old(Skips(ttl == value)) ==> (ttl == value
        && senderCalls == old(senderCalls) + [SenderCall.SetTtl(value)] && configChanged == old(configChanged) + 1)
    {
      if Skips(ttl == value) {
        return;
      }
      ttl, senderCalls, configChanged := value, senderCalls + [SenderCall.SetTtl(value)], configChanged + 1;
    }

    /** Soundcard has no latency setting. */
    method SetLatency(value: nat)
      requires app != Soundcard
      modifies this`latency, this`senderCalls, this`configChanged
      ensures old(Skips(latency == value)) ==> latency == old(latency) && senderCalls == old(senderCalls) && configChanged == old(configChanged)
      ensures !old(Skips(latency == value)) ==> (latency == value
        && senderCalls == old(senderCalls) + [SenderCall.SetLatency(value)] && configChanged == old(configChanged) + 1)
    {
      if Skips(latency == value) {
        return;
      }
      latency, senderCalls, configChanged := value, senderCalls + [SenderCall.SetLatency(value)], configChanged + 1;
    }

    /** A change of multicast mode also refreshes the metadata the receiver
        manager hands to receivers. */
    method SetMulticast(value: bool)
      modifies this`multicast, this`senderCalls, this`configChanged
      ensures old(Skips(multicast == value)) ==> multicast == old(multicast) && senderCalls == old(senderCalls) && configChanged == old(configChanged)
      ensures !old(Skips(multicast == value)) ==> (multicast == value
        && senderCalls == old(senderCalls) + [SenderCall.SetMulticast(value), MetadataRefreshed] && configChanged == old(configChanged) + 1)
    {
      if Skips(multicast == value) {
        return;
      }
      multicast, senderCalls, configChanged := value, senderCalls + [SenderCall.SetMulticast(value), MetadataRefreshed], configChanged + 1;
    }

    method SetEnabled(value: bool)
      modifies this`enabled, this`senderCalls, this`configChanged
      ensures old(Skips(enabled == value)) ==> enabled == old(enabled) && senderCalls == old(senderCalls) && configChanged == old(configChanged)
      ensures !old(Skips(enabled == value)) ==> (enabled == value
        && senderCalls == old(senderCalls) + [SenderCall.SetEnabled(value)] && configChanged == old(configChanged) + 1)
    {
      if Skips(enabled == value) {
        return;
      }
      enabled, senderCalls, configChanged := value, senderCalls + [SenderCall.SetEnabled(value)], configChanged + 1;
    }

    method SetPreset(value: nat)
      modifies this`preset, this`senderCalls, this`configChanged
      ensures old(Skips(preset == value)) ==> preset == old(preset) && senderCalls == old(senderCalls) && configChanged == old(configChanged)
      ensures !old(Skips(preset == value)) ==> (preset == value
        && senderCalls == old(senderCalls) + [SenderCall.SetPreset(value)] && configChanged == old(configChanged) + 1)
    {
      if Skips(preset == value) {
        return;
      }
      preset, senderCalls, configChanged := value, senderCalls + [SenderCall.SetPreset(value)], configChanged + 1;
    }

    /** The destructor: closing is set, and every subnet is reported
        removed, in list order. */
    method Close()
      modifies this`closing, this`subnetEvents
      ensures closing
      ensures subnetEvents == old(subnetEvents) + RemovedAll(|subnets|)
    {
      closing := true;
      var k := 0;
      while k < |subnets|
        invariant closing && k <= |subnets| && subnetEvents == old(subnetEvents) + RemovedAll(k)
      {
        subnetEvents := subnetEvents + [SubnetRemoved(k)];
        k := k + 1;
      }
    }
  }

  /** A removal callback for each of the first n subnets, in order. */
  function RemovedAll(n: nat): (es: seq<SubnetEvent>)
    ensures |es| == n && forall k :: 0 <= k < n ==> es[k] == SubnetRemoved(k)
  {
    if n == 0 then [] else RemovedAll(n - 1) + [SubnetRemoved(n - 1)]
  }
}
