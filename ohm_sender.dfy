// OhmSender (OhmSender.cpp): the sender object behind a Songcast source. It
// holds the configuration (channel, interface, ttl, latency, multicast,
// enabled), opens and closes the Ohm socket as that configuration changes,
// derives the multicast endpoint from the channel and the sender URI from
// the mode, keeps the list of slave receivers of a unicast stream, and
// sends the track and metatext messages.
//
// The driver behind it is an interface in the source; the model records the
// calls made on it. Sockets are the endpoints they are bound to and the
// datagrams handed to them. The receive threads, timers and the zone
// (ohz) protocol run elsewhere; of the unicast thread only the slave-list
// bookkeeping of a Join or a Listen is modelled (HandleJoin, HandleListen,
// RegisterSlave). UpdateMetadata's DIDL-Lite document embeds the image
// server's metadata, so it is an input here.
module OhmSender {
  import opened Octets
  import opened OhmWire
  import OhmSenderDriver

  // ---------------------------------------------------------------------
  // Multicast endpoint

  /** The low 16 bits of the channel under the 239.253.0.0/16 prefix. */
  const ChannelPrefix: U32 := 0xeffd_0000

  /** UpdateChannel: (channel & 0xffff) | 0xeffd0000 on the Ohm port. */
  function ChannelEndpoint(channel: U32): (e: Endpoint)
    ensures e.port == OhmPort
  {
    Endpoint(ChannelPrefix + channel % 0x1_0000, OhmPort)
  }

  /** The address is 239.253.(channel >> 8 & 0xff).(channel & 0xff). */
  lemma ChannelAddressOctets(channel: U32)
    ensures EncodeBe32(ChannelEndpoint(channel).address)
      == [239, 253, ((channel / 0x100) % 0x100) as Byte, (channel % 0x100) as Byte]
  {
    var a := ChannelEndpoint(channel).address;
    var lo := channel % 0x1_0000;
    assert a / 0x1_0000 == 0xeffd && a % 0x1_0000 == lo;
    assert lo / 0x100 == (channel / 0x100) % 0x100 && lo % 0x100 == channel % 0x100;
  }

  /** Two channels share a multicast endpoint exactly when their low 16
      bits agree. */
  lemma ChannelEndpointInjective(a: U32, b: U32)
    ensures ChannelEndpoint(a) == ChannelEndpoint(b) <==> a % 0x1_0000 == b % 0x1_0000
  {
  }

  // ---------------------------------------------------------------------
  // Sender URI

  datatype Scheme = Ohm | Ohu

  /** The URI a receiver is given: ohm:// with the multicast endpoint, or
      ohu:// with the endpoint of the sender's own socket. */
  datatype SenderUri = SenderUri(scheme: Scheme, endpoint: Endpoint)

  /** A disabled sender advertises ohu://0.0.0.0:0. */
  const DisabledUri: SenderUri := SenderUri(Ohu, Endpoint(0, 0))

  /** The URI of an enabled sender. */
  function EnabledUri(multicast: bool, multicastEndpoint: Endpoint, local: Endpoint): (u: SenderUri)
    ensures u.scheme == Ohm <==> multicast
    ensures u.endpoint == if multicast then multicastEndpoint else local
  {
    if multicast then SenderUri(Ohm, multicastEndpoint) else SenderUri(Ohu, local)
  }

  function Digit(d: nat): (c: char)
    requires d < 10
    ensures '0' <= c <= '9'
  {
    "0123456789"[d]
  }

  /** Decimal text of a number, without leading zeros. */
  function Decimal(n: nat): (s: string)
    ensures |s| > 0 && forall i :: 0 <= i < |s| ==> '0' <= s[i] <= '9'
    decreases n
  {
    if n < 10 then [Digit(n)] else Decimal(n / 10) + [Digit(n % 10)]
  }

  /** Endpoint text: the dotted-decimal address, a colon, the port. */
  function EndpointText(e: Endpoint): string
  {
    Decimal(e.address / 0x100_0000) + "." + Decimal((e.address / 0x1_0000) % 0x100) + "."
    + Decimal((e.address / 0x100) % 0x100) + "." + Decimal(e.address % 0x100) + ":" + Decimal(e.port)
  }

  function UriText(u: SenderUri): string
  {
    (if u.scheme == Ohm then "ohm://" else "ohu://") + EndpointText(u.endpoint)
  }

  /** The disabled URI reads "ohu://0.0.0.0:0", and a multicast URI always
      starts with a different scheme from a unicast one. */
  lemma UriTexts(e: Endpoint, f: Endpoint)
    ensures UriText(DisabledUri) == "ohu://0.0.0.0:0"
    ensures UriText(SenderUri(Ohm, e)) != UriText(SenderUri(Ohu, f))
  {
    DisabledUriText();
    SchemeLetter(SenderUri(Ohm, e));
    SchemeLetter(SenderUri(Ohu, f));
  }

  lemma DisabledUriText()
    ensures UriText(DisabledUri) == "ohu://0.0.0.0:0"
  {
    var z := Decimal(0);
    assert z == "0";
    assert EndpointText(Endpoint(0, 0)) == z + "." + z + "." + z + "." + z + ":" + z;
  }

  /** The third character of a URI names its scheme. */
  lemma SchemeLetter(u: SenderUri)
    ensures |UriText(u)| > 2 && UriText(u)[2] == (if u.scheme == Ohm then 'm' else 'u')
  {
    var t := if u.scheme == Ohm then "ohm://" else "ohu://";
    assert UriText(u) == t + EndpointText(u.endpoint);
  }

  // ---------------------------------------------------------------------
  // Slaves

  /** A slave receiver of a unicast stream and the time its registration
      expires, in milliseconds. */
  datatype Slave = Slave(endpoint: Endpoint, expiry: int)

  predicate Expired(s: Slave, now: int)
  {
    s.expiry <= now
  }

  /** The place of the first slave with the endpoint, or the list's length
      when none has it. */
  function SlaveIndex(s: seq<Slave>, e: Endpoint): (i: nat)
    ensures i <= |s| && (i < |s| ==> s[i].endpoint == e)
    ensures forall j :: 0 <= j < i ==> s[j].endpoint != e
    decreases |s|
  {
    if |s| == 0 || s[0].endpoint == e then 0
    else
      var i := 1 + SlaveIndex(s[1..], e);
      assert forall j :: 1 <= j < i ==> s[j] == s[1..][j - 1];
      i
  }

  /** The slaves of a list whose registration has not expired, in order. */
  function Unexpired(s: seq<Slave>, now: int): (r: seq<Slave>)
    ensures |r| <= |s|
    decreases |s|
  {
    if |s| == 0 then []
    else Unexpired(s[..|s| - 1], now) + (if Expired(s[|s| - 1], now) then [] else [s[|s| - 1]])
  }

  /** A slave survives expiry exactly when it was listed and has not
      expired; nothing is removed when nothing has expired. */
  lemma {:induction false} UnexpiredExact(s: seq<Slave>, now: int, x: Slave)
    ensures x in Unexpired(s, now) <==> x in s && !Expired(x, now)
    ensures (forall k :: 0 <= k < |s| ==> !Expired(s[k], now)) ==> Unexpired(s, now) == s
    decreases |s|
  {
    if |s| > 0 {
      var init := s[..|s| - 1];
      UnexpiredExact(init, now, x);
      assert s == init + [s[|s| - 1]];
    }
  }

  /** The list the Slave message carries is shorter after an expiry check
      exactly when some slave had expired. */
  lemma {:induction false} UnexpiredShorter(s: seq<Slave>, now: int)
    ensures |Unexpired(s, now)| < |s| <==> exists k :: 0 <= k < |s| && Expired(s[k], now)
    decreases |s|
  {
    if |s| > 0 {
      var init := s[..|s| - 1];
      UnexpiredShorter(init, now);
      if exists k :: 0 <= k < |init| && Expired(init[k], now) {
        var k :| 0 <= k < |init| && Expired(init[k], now);
        assert s[k] == init[k];
      }
      if exists k :: 0 <= k < |s| && Expired(s[k], now) {
        var k :| 0 <= k < |s| && Expired(s[k], now);
        if k < |init| {
          assert init[k] == s[k];
        }
      }
    }
  }

  /** The step of CheckSlaveExpiry's loop: one more slave examined. */
  lemma UnexpiredStep(s: seq<Slave>, j: nat, now: int)
    requires j < |s|
    ensures Unexpired(s[..j + 1], now) == Unexpired(s[..j], now) + (if Expired(s[j], now) then [] else [s[j]])
  {
    assert s[..j + 1][..j] == s[..j];
  }

  /** One step of the expiry scan: cur holds the survivors of s[..j]
      followed by s[j..]; s[j] is dropped (its successors moving down one
      place) if it has expired and kept otherwise. */
  lemma ExpiryStep(s: seq<Slave>, j: nat, now: int, cur: seq<Slave>, i: nat)
    requires j < |s| && i < |cur| && cur[..i] == Unexpired(s[..j], now) && cur[i..] == s[j..]
    ensures cur[i] == s[j]
    ensures Expired(s[j], now) ==> var next := cur[..i] + cur[i + 1..];
      next[..i] == Unexpired(s[..j + 1], now) && next[i..] == s[j + 1..]
    ensures !Expired(s[j], now) ==> cur[..i + 1] == Unexpired(s[..j + 1], now) && cur[i + 1..] == s[j + 1..]
  {
    UnexpiredStep(s, j, now);
    assert cur[i] == cur[i..][0];
    assert cur[..i + 1] == cur[..i] + [cur[i]];
    assert cur[i + 1..] == cur[i..][1..];
    var next := cur[..i] + cur[i + 1..];
    assert next[..i] == cur[..i];
    assert next[i..] == cur[i + 1..];
  }

  // ---------------------------------------------------------------------
  // Sender metadata

  /** The bytes of a text whose characters are all below 256. */
  function Ascii(s: string): (b: seq<Byte>)
    ensures |b| == |s|
  {
    seq(|s|, i requires 0 <= i < |s| => (s[i] as int % 0x100) as Byte)
  }

  /** The fixed text UpdateMetadata wraps around the sender's name, zone
      URI and album art. */
  datatype DidlTemplate = DidlTemplate(
    head: seq<Byte>, titleClose: seq<Byte>, resMulticast: seq<Byte>, resUnicast: seq<Byte>,
    zonePrefix: seq<Byte>, resClose: seq<Byte>, tail: seq<Byte>)

  /** The DIDL-Lite item opening up to the title; the res element's
      protocol info ends in m for multicast and u for unicast; the zone URI
      starts with the Ohz multicast endpoint. */
  const Template: DidlTemplate := DidlTemplate(
    Ascii("<DIDL-Lite xmlns:dc=\"http://purl.org/dc/elements/1.1/\" xmlns:upnp=\"urn:schemas-upnp-org:metadata-1-0/upnp/\" xmlns=\"urn:schemas-upnp-org:metadata-1-0/DIDL-Lite/\"><item id=\"0\" restricted=\"True\"><dc:title>"),
    Ascii("</dc:title>"),
    Ascii("<res protocolInfo=\"ohz:*:*:m\">"),
    Ascii("<res protocolInfo=\"ohz:*:*:u\">"),
    Ascii("ohz://239.255.255.250:51972/"),
    Ascii("</res>"),
    Ascii("<upnp:class>object.item.audioItem</upnp:class></item></DIDL-Lite>"))

  /** The zone URI under which the device announces the sender: the Ohz
      multicast endpoint followed by the device's UDN. */
  function ZoneUri(t: DidlTemplate, udn: seq<Byte>): (u: seq<Byte>)
    ensures |u| == |t.zonePrefix| + |udn| && u[|t.zonePrefix|..] == udn
  {
    t.zonePrefix + udn
  }

  /** UpdateMetadata's DIDL-Lite item: the sender's name as title, a res
      element carrying the mode and the zone URI, the album art element the
      image server contributes, and the audio item class. */
  function Didl(t: DidlTemplate, name: seq<Byte>, multicast: bool, udn: seq<Byte>, albumArt: seq<Byte>): seq<Byte>
  {
    (t.head + name + t.titleClose) + (if multicast then t.resMulticast else t.resUnicast)
    + (ZoneUri(t, udn) + t.resClose + albumArt + t.tail)
  }

  /** The two res openings have the same length and differ in the mode
      letter. */
  lemma TemplateModes()
    ensures |Template.resMulticast| == |Template.resUnicast|
    ensures Template.resMulticast != Template.resUnicast
  {
    assert Template.resMulticast[27] != Template.resUnicast[27];
  }

  /** The item's title is the sender's name. */
  lemma DidlTitle(t: DidlTemplate, name: seq<Byte>, multicast: bool, udn: seq<Byte>, albumArt: seq<Byte>)
    ensures var d := Didl(t, name, multicast, udn, albumArt);
      |d| >= |t.head| + |name| && d[|t.head|..|t.head| + |name|] == name
  {
    var p := t.head + name + t.titleClose;
    var d := Didl(t, name, multicast, udn, albumArt);
    assert d[..|p|] == p;
    assert p[|t.head|..|t.head| + |name|] == name;
  }

  /** With res openings that differ, the two modes give different
      metadata. */
  lemma DidlModes(t: DidlTemplate, name: seq<Byte>, udn: seq<Byte>, albumArt: seq<Byte>)
    requires |t.resMulticast| == |t.resUnicast| && t.resMulticast != t.resUnicast
    ensures Didl(t, name, true, udn, albumArt) != Didl(t, name, false, udn, albumArt)
  {
    var p := t.head + name + t.titleClose;
    var n := |t.resMulticast|;
    assert Didl(t, name, true, udn, albumArt)[|p|..|p| + n] == t.resMulticast;
    assert Didl(t, name, false, udn, albumArt)[|p|..|p| + n] == t.resUnicast;
  }

  // ---------------------------------------------------------------------
  // Messages the sender's own socket sends

  /** SendTrack, SendMetatext, SendSlaveList and SendListen's messages. */
  datatype Message =
    | TrackMessage(sequence: U32, uri: seq<Byte>, metadata: seq<Byte>)
    | MetatextMessage(sequence: U32, text: seq<Byte>)
    | SlaveMessage(slaves: seq<Endpoint>)
    | ListenMessage

  /** A message together with the endpoint it is sent to. */
  datatype Outgoing = Outgoing(to: Endpoint, message: Message)

  /** The lengths the body carries fit its 32-bit fields. */
  ghost predicate Encodable(m: Message)
  {
    match m
    case TrackMessage(_, uri, metadata) => Fits32(uri) && Fits32(metadata)
    case MetatextMessage(_, text) => Fits32(text)
    case SlaveMessage(slaves) => |slaves| < 0x1_0000_0000
    case ListenMessage => true
  }

  function TypeOf(m: Message): Byte
  {
    match m
    case TrackMessage(_, _, _) => MsgTrack
    case MetatextMessage(_, _) => MsgMetatext
    case SlaveMessage(_) => MsgSlave
    case ListenMessage => MsgListen
  }

  function Body(m: Message): seq<Byte>
    requires Encodable(m)
  {
    match m
    case TrackMessage(sequence, uri, metadata) => EncodeTrack(sequence, uri, metadata)
    case MetatextMessage(sequence, text) => EncodeMetatext(sequence, text)
    case SlaveMessage(slaves) => EncodeSlaves(slaves)
    case ListenMessage => []
  }

  /** The datagram: the common header, whose total counts the header and
      the body, then the body. */
  function Image(m: Message): (s: seq<Byte>)
    requires Encodable(m)
    ensures |s| >= HeaderBytes && s[5] == TypeOf(m)
  {
    var body := Body(m);
    EncodeHeader(Header(OhmSenderDriver.MajorVersion, TypeOf(m), Trunc16(HeaderBytes + |body|))) + body
  }

  /** How a receiver reads one of these datagrams: the header, then the
      body its type names. */
  function Decode(s: seq<Byte>): (r: Option<Message>)
  {
    match DecodeHeader(s)
    case None => None
    case Some(h) =>
      var body := s[HeaderBytes..];
      if h.msgType == MsgTrack then
        match DecodeTrack(body)
        case None => None
        case Some(t) => Some(TrackMessage(t.sequence, t.uri, t.metadata))
      else if h.msgType == MsgMetatext then
        match DecodeMetatext(body)
        case None => None
        case Some(t) => Some(MetatextMessage(t.sequence, t.text))
      else if h.msgType == MsgSlave then
        match DecodeSlaves(body)
        case None => None
        case Some(slaves) => Some(SlaveMessage(slaves))
      else if h.msgType == MsgListen then Some(ListenMessage)
      else None
  }

  /** A receiver reads back exactly the message that was sent. */
  lemma {:induction false} ImageRoundTrip(m: Message)
    requires Encodable(m)
    ensures Decode(Image(m)) == Some(m)
  {
    var body := Body(m);
    var s := Image(m);
    HeaderRoundTrip(Header(OhmSenderDriver.MajorVersion, TypeOf(m), Trunc16(HeaderBytes + |body|)), body);
    assert s[HeaderBytes..] == body + [];
    match m
    case TrackMessage(sequence, uri, metadata) => TrackRoundTrip(sequence, uri, metadata, []);
    case MetatextMessage(sequence, text) => MetatextRoundTrip(sequence, text, []);
    case SlaveMessage(slaves) => SlavesRoundTrip(slaves, []);
    case ListenMessage =>
  }

  function Endpoints(s: seq<Slave>): (r: seq<Endpoint>)
    ensures |r| == |s| && forall i :: 0 <= i < |s| ==> r[i] == s[i].endpoint
  {
    seq(|s|, i requires 0 <= i < |s| => s[i].endpoint)
  }

  // ---------------------------------------------------------------------
  // The sender

  /** A call made on the sender's driver. */
  datatype DriverCall = SetTtl(ttl: U32) | SetLatency(ms: U32) | SetEnabled(enabled: bool)
    | SetTrackPosition(samplesTotal: U64, sampleStart: U64)

  /** The Ohm socket: whether it is open (iStarted), the endpoint it is
      bound to (iSocketOhm.This()), and where track, metatext and audio go
      (iTargetEndpoint, iTargetInterface). */
  datatype OhmSocket = OhmSocket(started: bool, local: Endpoint, target: Endpoint, targetInterface: U32)

  /** The Ohm socket after a Stop and a Start on iface: closed when there is
      no interface, else reopened towards the group in multicast mode or
      bound locally in unicast mode. */
  function Reopened(s: OhmSocket, toMulticast: bool, group: Endpoint, iface: U32, bound: Endpoint): (r: OhmSocket)
    ensures r.started == (iface != 0)
    ensures iface != 0 ==> r.targetInterface == iface
  {
    if iface == 0 then s.(started := false)
    else if toMulticast then s.(started := true, target := group, targetInterface := iface)
    else s.(started := true, local := bound, targetInterface := iface)
  }

  /** The track the receivers are told about: its sequence number, uri and
      metadata, the metatext with its own sequence number, and whether a
      client has taken the track over from the sender's own metadata. */
  datatype TrackState = TrackState(
    sequence: U32, uri: seq<Byte>, metadata: seq<Byte>,
    metatextSequence: U32, metatext: seq<Byte>, clientControlling: bool)

  function TrackOf(t: TrackState): Message
  {
    TrackMessage(t.sequence, t.uri, t.metadata)
  }

  function MetatextOf(t: TrackState): Message
  {
    MetatextMessage(t.metatextSequence, t.metatext)
  }

  class Sender {
    var name: seq<Byte>
    var channel: U32
    var ohmInterface: U32
    var ohzInterface: U32
    var ttl: U32
    var latency: U32
    var multicast: bool
    var enabled: bool
    var preset: U32
    var socket: OhmSocket
    /** iZoneStarted: the Ohz socket is open. */
    var zoneStarted: bool
    /** iActive: receivers are listening; set by the receive threads. */
    var active: bool
    var multicastEndpoint: Endpoint
    /** iUri; None until it is first written. */
    var uri: Option<SenderUri>
    /** The device's UDN. */
    const udn: seq<Byte>
    /** The text of the sender's metadata. */
    const template: DidlTemplate
    /** iSenderUri: the zone URI the metadata carries. */
    var zoneUri: seq<Byte>
    var senderMetadata: seq<Byte>
    var track: TrackState
    /** The calls made on the driver, oldest first. */
    var driverCalls: seq<DriverCall>
    /** The messages the sender's own socket has sent, oldest first. */
    var sent: seq<Outgoing>
    /** iSlaveList and iSlaveExpiry, as one array of pairs. */
    const slaves: array<Slave>
    var slaveCount: nat

    /** What the socket, the URI and the slave arrays keep to. */
    ghost predicate Wired()
      reads this`slaveCount, this`multicastEndpoint, this`channel, this`socket, this`enabled, this`ohmInterface,
        this`zoneStarted, this`ohzInterface, this`uri, this`multicast
    {
      Settled()
      && socket.started == (enabled && ohmInterface != 0)
      && (enabled ==> uri == Some(EnabledUri(multicast, multicastEndpoint, socket.local)))
      && (socket.started && multicast ==> socket.target == multicastEndpoint)
    }

    /** What the Ohm socket's restarts leave alone. */
    ghost predicate Settled()
      reads this`slaveCount, this`multicastEndpoint, this`channel, this`zoneStarted, this`ohzInterface
    {
      slaveCount <= slaves.Length < 0x1_0000_0000
      && multicastEndpoint == ChannelEndpoint(channel)
      && zoneStarted == (ohzInterface != 0)
    }

    /** The track fits its 32-bit length fields and every message sent can
        be encoded. */
    ghost predicate Logged()
      reads this`track, this`sent
    {
      Fits32(track.uri) && Fits32(track.metadata) && Fits32(track.metatext)
      && forall k :: 0 <= k < |sent| ==> Encodable(sent[k].message)
    }

    ghost predicate Valid()
      reads this
    {
      Wired() && Logged()
    }

    /** No registered slave has the endpoint. */
    ghost predicate Unlisted(e: Endpoint)
      reads this, slaves
      requires slaveCount <= slaves.Length
    {
      forall j :: 0 <= j < slaveCount ==> slaves[j].endpoint != e
    }

    /** The registered slaves, oldest first. */
    ghost function Slaves(): seq<Slave>
      reads this, slaves
      requires slaveCount <= slaves.Length
    {
      slaves[..slaveCount]
    }

    /** kMaxSlaveCount is the size of the slave arrays. bound is the
        endpoint the unicast socket binds to if the constructor opens it;
        albumArt is what the image server adds to the metadata. */
    constructor (deviceUdn: seq<Byte>, senderName: seq<Byte>, initialChannel: U32, iface: U32, initialTtl: U32,
                 initialLatency: U32, isMulticast: bool, isEnabled: bool, initialPreset: U32, maxSlaves: nat,
                 bound: Endpoint, albumArt: seq<Byte>)
      requires maxSlaves < 0x1_0000_0000 && Fits32(Didl(Template, senderName, isMulticast, deviceUdn, albumArt))
      ensures Valid() && fresh(slaves) && slaves.Length == maxSlaves && slaveCount == 0
      ensures udn == deviceUdn && template == Template && name == senderName && channel == initialChannel
      ensures ttl == initialTtl && latency == initialLatency
      ensures multicast == isMulticast && enabled == isEnabled && preset == initialPreset
      ensures ohmInterface == iface && ohzInterface == iface && !active
      ensures socket.started == (isEnabled && iface != 0)
      ensures uri == if isEnabled then Some(EnabledUri(isMulticast, ChannelEndpoint(initialChannel), socket.local)) else None
      ensures driverCalls == [SetTtl(initialTtl), SetLatency(initialLatency)] + (if isEnabled then [SetEnabled(true)] else [])
      ensures senderMetadata == Didl(Template, senderName, isMulticast, deviceUdn, albumArt) && zoneUri == ZoneUri(Template, deviceUdn)
      ensures track == TrackState(1, [], senderMetadata, 0, [], false) && sent == []
    {
      udn := deviceUdn;
      template := Template;
      name := senderName;
      channel := initialChannel;
      ohmInterface, ohzInterface := iface, iface;
      ttl, latency := initialTtl, initialLatency;
      multicast := isMulticast;
      preset := initialPreset;
      // StartZone on the interface.
      zoneStarted, active := iface != 0, false;
      var mcast := ChannelEndpoint(initialChannel);
      multicastEndpoint := mcast;
      // SetEnabled from the initial false: the driver is told, and Start
      // opens the socket on a nonzero interface and writes the URI.
      enabled := isEnabled;
      var open := OhmSocket(false, Endpoint(0, 0), Endpoint(0, 0), 0);
      if isEnabled && iface != 0 {
        open := if isMulticast then open.(started := true, target := mcast, targetInterface := iface)
                else open.(started := true, local := bound, targetInterface := iface);
      }
      socket := open;
      uri := if isEnabled then Some(EnabledUri(isMulticast, mcast, open.local)) else None;
      driverCalls := [SetTtl(initialTtl), SetLatency(initialLatency)] + (if isEnabled then [SetEnabled(true)] else []);
      // UpdateMetadata: no client track and nobody listening, so the
      // metadata becomes track 1 and nothing is sent.
      zoneUri := ZoneUri(Template, deviceUdn);
      senderMetadata := Didl(Template, senderName, isMulticast, deviceUdn, albumArt);
      track := TrackState(1, [], senderMetadata, 0, [], false);
      sent := [];
      slaves := new Slave[maxSlaves];
      slaveCount := 0;
    }

    /** UpdateChannel: the multicast endpoint follows the channel. */
    method UpdateChannel()
      modifies this`multicastEndpoint
      ensures multicastEndpoint == ChannelEndpoint(channel)
    {
      multicastEndpoint := ChannelEndpoint(channel);
    }

    /** UpdateUri: the enabled URI for the mode, or the disabled one. */
    method UpdateUri()
      modifies this`uri
      ensures uri == Some(if enabled then EnabledUri(multicast, multicastEndpoint, socket.local) else DisabledUri)
    {
      if enabled {
        if multicast {
          uri := Some(SenderUri(Ohm, multicastEndpoint));
        } else {
          uri := Some(SenderUri(Ohu, socket.local));
        }
      } else {
        uri := Some(DisabledUri);
      }
    }

    /** Start: with a nonzero interface the socket opens (multicast on the
        channel's endpoint, which becomes the target, or unicast on the
        endpoint it binds to); either way the interface is recorded and the
        URI rewritten. Nothing happens if the socket is already open. */
    method Start(iface: U32, bound: Endpoint)
      modifies this`socket, this`ohmInterface, this`uri
      ensures old(socket.started) ==> (socket == old(socket) && ohmInterface == old(ohmInterface) && uri == old(uri))
      ensures !old(socket.started) ==> (
        socket == (if iface == 0 then old(socket)
                   else if multicast then old(socket).(started := true, target := multicastEndpoint, targetInterface := iface)
                   else old(socket).(started := true, local := bound, targetInterface := iface))
        && ohmInterface == iface
        && uri == Some(if enabled then EnabledUri(multicast, multicastEndpoint, socket.local) else DisabledUri))
      ensures !old(socket.started) && enabled && Settled() ==> Wired()
    {
      if !socket.started {
        if iface != 0 {
          if multicast {
            socket := socket.(started := true, target := multicastEndpoint, targetInterface := iface);
          } else {
            socket := socket.(started := true, local := bound, targetInterface := iface);
          }
        }
        ohmInterface := iface;
        UpdateUri();
      }
    }

    /** Stop: an open socket is closed and the URI rewritten. */
    method Stop()
      modifies this`socket, this`uri
      ensures socket == old(socket).(started := false)
      ensures old(socket.started) ==> uri == Some(if enabled then EnabledUri(multicast, multicastEndpoint, socket.local) else DisabledUri)
      ensures !old(socket.started) ==> uri == old(uri)
    {
      if socket.started {
        socket := socket.(started := false);
        UpdateUri();
      }
    }

    method StartZone(iface: U32)
      modifies this`zoneStarted, this`ohzInterface
      ensures old(zoneStarted) ==> zoneStarted && ohzInterface == old(ohzInterface)
      ensures !old(zoneStarted) ==> zoneStarted == (iface != 0) && ohzInterface == iface
    {
      if !zoneStarted {
        if iface != 0 {
          zoneStarted := true;
        }
        ohzInterface := iface;
      }
    }

    method StopZone()
      modifies this`zoneStarted
      ensures !zoneStarted
    {
      if zoneStarted {
        zoneStarted := false;
      }
    }

    /** SetEnabled: a change is passed to the driver; enabling starts on
        the current interface, disabling stops. A sender that was enabled
        but never started (no interface) keeps its enabled URI. */
    method SetEnabledTo(value: bool, bound: Endpoint)
      requires Valid()
      modifies this`enabled, this`driverCalls, this`socket, this`ohmInterface, this`uri
      ensures Valid() && enabled == value && ohmInterface == old(ohmInterface)
      ensures driverCalls == old(driverCalls) + (if value != old(enabled) then [SetEnabled(value)] else [])
      ensures value == old(enabled) ==> uri == old(uri) && socket == old(socket)
      ensures !value && old(enabled) ==> uri == if old(socket.started) then Some(DisabledUri) else old(uri)
    {
      if enabled != value {
        enabled := value;
        driverCalls := driverCalls + [SetEnabled(value)];
        if enabled {
          Start(ohmInterface, bound);
        } else {
          Stop();
        }
      }
    }

    /** SetChannel: in multicast mode a change moves the endpoint, with a
        restart while enabled and a new URI otherwise; in unicast mode only
        the endpoint moves. */
    method SetChannel(value: U32, bound: Endpoint)
      requires Valid()
      modifies this`channel, this`multicastEndpoint, this`socket, this`ohmInterface, this`uri
      ensures Valid() && channel == value && ohmInterface == old(ohmInterface)
      ensures value == old(channel) || !multicast ==> uri == old(uri) && socket == old(socket)
      ensures value != old(channel) && multicast && !enabled ==> uri == Some(DisabledUri)
    {
      if channel != value {
        if multicast {
          if enabled {
            Stop();
            channel := value;
            UpdateChannel();
            Start(ohmInterface, bound);
          } else {
            channel := value;
            UpdateChannel();
            UpdateUri();
          }
        } else {
          channel := value;
          UpdateChannel();
        }
      }
    }

    /** SetTtl: a change goes to the driver, with a restart while enabled. */
    method SetTtlTo(value: U32, bound: Endpoint)
      requires Valid()
      modifies this`ttl, this`driverCalls, this`socket, this`ohmInterface, this`uri
      ensures Valid() && ttl == value && ohmInterface == old(ohmInterface)
      ensures driverCalls == old(driverCalls) + (if value != old(ttl) then [SetTtl(value)] else [])
      ensures value == old(ttl) || !enabled ==> uri == old(uri) && socket == old(socket)
    {
      if ttl != value {
        if enabled {
          Stop();
          ttl := value;
          driverCalls := driverCalls + [SetTtl(value)];
          Start(ohmInterface, bound);
        } else {
          ttl := value;
          driverCalls := driverCalls + [SetTtl(value)];
        }
      }
    }

    /** SetLatency: a change goes to the driver, with a restart while
        enabled. */
    method SetLatencyTo(value: U32, bound: Endpoint)
      requires Valid()
      modifies this`latency, this`driverCalls, this`socket, this`ohmInterface, this`uri
      ensures Valid() && latency == value && ohmInterface == old(ohmInterface)
      ensures driverCalls == old(driverCalls) + (if value != old(latency) then [SetLatency(value)] else [])
      ensures value == old(latency) || !enabled ==> uri == old(uri) && socket == old(socket)
    {
      if latency != value {
        if enabled {
          Stop();
          latency := value;
          driverCalls := driverCalls + [SetLatency(value)];
          Start(ohmInterface, bound);
        } else {
          latency := value;
          driverCalls := driverCalls + [SetLatency(value)];
        }
      }
    }

    /** SetMulticast: a change recomposes the metadata, with a restart
        (and so a URI of the new mode) while enabled. */
    method SetMulticastTo(value: bool, bound: Endpoint, albumArt: seq<Byte>)
      requires Valid() && Fits32(Didl(template, name, value, udn, albumArt))
      modifies this`multicast, this`socket, this`ohmInterface, this`uri, this`zoneUri, this`senderMetadata,
        this`track, this`sent
      ensures Valid() && multicast == value && ohmInterface == old(ohmInterface)
      ensures value == old(multicast) ==> (uri == old(uri) && socket == old(socket) && senderMetadata == old(senderMetadata)
        && track == old(track) && sent == old(sent))
      ensures value != old(multicast) ==> senderMetadata == Didl(template, name, value, udn, albumArt)
      ensures value != old(multicast) && enabled ==> (uri.Some? && (uri.value.scheme == Ohm <==> value)
        && socket == Reopened(old(socket), value, multicastEndpoint, ohmInterface, bound))
      ensures value != old(multicast) && !enabled ==> socket == old(socket)
      ensures value != old(multicast) && old(track.clientControlling) ==> track == old(track) && sent == old(sent)
      ensures value != old(multicast) && !old(track.clientControlling) ==> (
        track == old(track).(sequence := Inc32(old(track.sequence)), metadata := senderMetadata, metatextSequence := 0)
        && sent == old(sent) + (if active then [Outgoing(old(socket.target), TrackOf(track))] else []))
    {
      if multicast != value {
        if enabled {
          Restart(value, bound, albumArt);
        } else {
          multicast := value;
          UpdateMetadata(albumArt);
        }
      }
    }

    /** SetMulticast while enabled: the socket is closed, the mode and the
        metadata change, and the socket reopens in the new mode. */
    method Restart(value: bool, bound: Endpoint, albumArt: seq<Byte>)
      requires Valid() && enabled && Fits32(Didl(template, name, value, udn, albumArt))
      modifies this`multicast, this`socket, this`ohmInterface, this`uri, this`zoneUri, this`senderMetadata,
        this`track, this`sent
      ensures Valid() && multicast == value && ohmInterface == old(ohmInterface)
      ensures senderMetadata == Didl(template, name, value, udn, albumArt)
      ensures uri.Some? && (uri.value.scheme == Ohm <==> value)
      ensures socket == Reopened(old(socket), value, multicastEndpoint, ohmInterface, bound)
      ensures old(track.clientControlling) ==> track == old(track) && sent == old(sent)
      ensures !old(track.clientControlling) ==> (
        track == old(track).(sequence := Inc32(old(track.sequence)), metadata := senderMetadata, metatextSequence := 0)
        && sent == old(sent) + (if active then [Outgoing(old(socket.target), TrackOf(track))] else []))
    {
      Stop();
      multicast := value;
      assert Settled() && !socket.started;
      UpdateMetadata(albumArt);
      assert Settled() && !socket.started && Logged();
      Start(ohmInterface, bound);
    }

    /** SetName: a change recomposes the metadata. */
    method SetName(value: seq<Byte>, albumArt: seq<Byte>)
      requires Valid() && Fits32(Didl(template, value, multicast, udn, albumArt))
      modifies this`name, this`zoneUri, this`senderMetadata, this`track, this`sent
      ensures Valid() && name == value
      ensures value == old(name) ==> senderMetadata == old(senderMetadata) && sent == old(sent) && track == old(track)
      ensures value != old(name) ==> senderMetadata == Didl(template, value, multicast, udn, albumArt)
      ensures value != old(name) && old(track.clientControlling) ==> track == old(track) && sent == old(sent)
      ensures value != old(name) && !old(track.clientControlling) ==> (
        track == old(track).(sequence := Inc32(old(track.sequence)), metadata := senderMetadata, metatextSequence := 0)
        && sent == old(sent) + (if active then [Outgoing(socket.target, TrackOf(track))] else []))
    {
      if name != value {
        name := value;
        UpdateMetadata(albumArt);
      }
    }

    /** SetInterface: the zone socket restarts on a new interface; the Ohm
        socket restarts on it while enabled; the metadata is recomposed in
        every case. */
    method SetInterface(value: U32, bound: Endpoint, albumArt: seq<Byte>)
      requires Valid() && Fits32(Didl(template, name, multicast, udn, albumArt))
      modifies this`zoneStarted, this`ohzInterface, this`socket, this`ohmInterface, this`uri, this`zoneUri,
        this`senderMetadata, this`track, this`sent
      ensures Valid() && ohmInterface == value && ohzInterface == value
      ensures zoneStarted == (value != 0) && socket.started == (enabled && value != 0)
      ensures senderMetadata == Didl(template, name, multicast, udn, albumArt)
      ensures value == old(ohmInterface) ==> uri == old(uri) && socket == old(socket)
      ensures value != old(ohmInterface) && enabled ==> socket == Reopened(old(socket), multicast, multicastEndpoint, value, bound)
      ensures value != old(ohmInterface) && !enabled ==> socket == old(socket)
      ensures old(track.clientControlling) ==> track == old(track) && sent == old(sent)
      ensures !old(track.clientControlling) ==> (
        track == old(track).(sequence := Inc32(old(track.sequence)), metadata := senderMetadata, metatextSequence := 0)
        && sent == old(sent) + (if active then [Outgoing(socket.target, TrackOf(track))] else []))
    {
      MoveZone(value);
      MoveOhm(value, bound);
      UpdateMetadata(albumArt);
    }

    /** SetInterface's first step: the zone socket is restarted first. */
    method MoveZone(value: U32)
      requires Wired()
      modifies this`zoneStarted, this`ohzInterface
      ensures Wired() && ohzInterface == value && zoneStarted == (value != 0)
    {
      if ohzInterface != value {
        StopZone();
        StartZone(value);
      }
    }

    /** SetInterface's second step: the Ohm socket restarts on the new
        interface while enabled. */
    method MoveOhm(value: U32, bound: Endpoint)
      requires Wired()
      modifies this`socket, this`ohmInterface, this`uri
      ensures Wired() && ohmInterface == value && socket.started == (enabled && value != 0)
      ensures value == old(ohmInterface) ==> uri == old(uri) && socket == old(socket)
      ensures value != old(ohmInterface) && enabled ==> socket == Reopened(old(socket), multicast, multicastEndpoint, value, bound)
      ensures value != old(ohmInterface) && !enabled ==> socket == old(socket)
    {
      if ohmInterface != value {
        if enabled {
          Stop();
          Start(value, bound);
        }
        ohmInterface := value;
      }
    }

    method SetPreset(value: U32)
      modifies this`preset
      ensures preset == value
    {
      preset := value;
    }

    /** UpdateMetadata: the sender's metadata is recomposed; unless a client
        has set the track, it becomes the track, under a new track sequence
        number with the metatext sequence back at 0, and goes out while
        receivers are listening. */
    method UpdateMetadata(albumArt: seq<Byte>)
      requires Logged() && Fits32(Didl(template, name, multicast, udn, albumArt))
      modifies this`zoneUri, this`senderMetadata, this`track, this`sent
      ensures Logged()
      ensures zoneUri == ZoneUri(template, udn) && senderMetadata == Didl(template, name, multicast, udn, albumArt)
      ensures old(track.clientControlling) ==> track == old(track) && sent == old(sent)
      ensures !old(track.clientControlling) ==> (
        track == old(track).(sequence := Inc32(old(track.sequence)), metadata := senderMetadata, metatextSequence := 0)
        && sent == old(sent) + (if active then [Outgoing(socket.target, TrackOf(track))] else []))
    {
      zoneUri := ZoneUri(template, udn);
      senderMetadata := Didl(template, name, multicast, udn, albumArt);
      if !track.clientControlling {
        track := track.(sequence := Inc32(track.sequence), metadata := senderMetadata, metatextSequence := 0);
        if active {
          SendTrack();
        }
      }
    }

    method SendTrack()
      requires Logged()
      modifies this`sent
      ensures Logged() && sent == old(sent) + [Outgoing(socket.target, TrackOf(track))]
    {
      sent := sent + [Outgoing(socket.target, TrackOf(track))];
    }

    method SendMetatext()
      requires Logged()
      modifies this`sent
      ensures Logged() && sent == old(sent) + [Outgoing(socket.target, MetatextOf(track))]
    {
      sent := sent + [Outgoing(socket.target, MetatextOf(track))];
    }

    method SendSlaveList()
      requires Logged() && slaveCount <= slaves.Length < 0x1_0000_0000
      modifies this`sent
      ensures Logged() && sent == old(sent) + [Outgoing(socket.target, SlaveMessage(Endpoints(Slaves())))]
    {
      sent := sent + [Outgoing(socket.target, SlaveMessage(Endpoints(slaves[..slaveCount])))];
    }

    /** SendListen: the Listen goes to the slave, not to the target. */
    method SendListen(to: Endpoint)
      requires Logged()
      modifies this`sent
      ensures Logged() && sent == old(sent) + [Outgoing(to, ListenMessage)]
    {
      sent := sent + [Outgoing(to, ListenMessage)];
    }

    /** SetTrack: the client takes over the track, its position goes to the
        driver, the track sequence advances, the metatext restarts empty at
        sequence 0, and the track goes out while receivers are listening. */
    method SetTrack(newUri: seq<Byte>, metadata: seq<Byte>, samplesTotal: U64, sampleStart: U64)
      requires Logged() && Fits32(newUri) && Fits32(metadata)
      modifies this`driverCalls, this`track, this`sent
      ensures Logged()
      ensures driverCalls == old(driverCalls) + [SetTrackPosition(samplesTotal, sampleStart)]
      ensures track == TrackState(Inc32(old(track.sequence)), newUri, metadata, 0, [], true)
      ensures sent == old(sent) + (if active then [Outgoing(socket.target, TrackMessage(track.sequence, newUri, metadata))] else [])
    {
      driverCalls := driverCalls + [SetTrackPosition(samplesTotal, sampleStart)];
      track := TrackState(Inc32(track.sequence), newUri, metadata, 0, [], true);
      if active {
        SendTrack();
      }
    }

    /** SetMetatext: the metatext sequence advances and the text goes out
        while receivers are listening. */
    method SetMetatext(text: seq<Byte>)
      requires Logged() && Fits32(text)
      modifies this`track, this`sent
      ensures Logged()
      ensures track == old(track).(metatextSequence := Inc32(old(track.metatextSequence)), metatext := text)
      ensures sent == old(sent) + (if active then [Outgoing(socket.target, MetatextMessage(track.metatextSequence, text))] else [])
    {
      track := track.(metatextSequence := Inc32(track.metatextSequence), metatext := text);
      if active {
        SendMetatext();
      }
    }

    /** FindSlave: the index of the first slave with the endpoint, or the
        slave count when there is none. */
    method FindSlave(e: Endpoint) returns (index: nat)
      requires slaveCount <= slaves.Length
      ensures index <= slaveCount
      ensures index < slaveCount ==> slaves[index].endpoint == e
      ensures forall j :: 0 <= j < index ==> slaves[j].endpoint != e
    {
      index := 0;
      while index < slaveCount
        invariant index <= slaveCount
        invariant forall j :: 0 <= j < index ==> slaves[j].endpoint != e
      {
        if slaves[index].endpoint == e {
          return;
        }
        index := index + 1;
      }
    }

    /** RemoveSlave: the later slaves shift down one place, keeping their
        order, and the count drops by one. */
    method RemoveSlave(index: nat)
      requires slaveCount <= slaves.Length && index < slaveCount
      modifies this`slaveCount, slaves
      ensures slaveCount == old(slaveCount) - 1
      ensures Slaves() == old(Slaves())[..index] + old(Slaves())[index + 1..]
    {
      ghost var s0 := Slaves();
      slaveCount := slaveCount - 1;
      var i := index;
      while i < slaveCount
        invariant index <= i <= slaveCount && slaveCount + 1 == |s0| <= slaves.Length
        invariant forall k :: 0 <= k < index ==> slaves[k] == s0[k]
        invariant forall k :: index <= k < i ==> slaves[k] == s0[k + 1]
        invariant forall k :: i < k <= slaveCount ==> slaves[k] == s0[k]
      {
        slaves[i] := slaves[i + 1];
        i := i + 1;
      }
      assert Slaves() == s0[..index] + s0[index + 1..] by {
        forall k | 0 <= k < slaveCount
          ensures Slaves()[k] == (s0[..index] + s0[index + 1..])[k]
        {
          if k >= index {
            assert (s0[..index] + s0[index + 1..])[k] == s0[k + 1];
          }
        }
      }
    }

    /** CheckSlaveExpiry: every expired slave is removed, the others keep
        their order, and the answer says whether any was removed. */
    method CheckSlaveExpiry(now: int) returns (changed: bool)
      requires slaveCount <= slaves.Length
      modifies this`slaveCount, slaves
      ensures slaveCount <= slaves.Length
      ensures Slaves() == Unexpired(old(Slaves()), now)
      ensures changed <==> slaveCount < old(slaveCount)
    {
      ghost var s0 := Slaves();
      changed := false;
      var i := 0;
      ghost var j := 0;
      while i < slaveCount
        invariant i <= slaveCount <= slaves.Length && j <= |s0|
        invariant Slaves()[..i] == Unexpired(s0[..j], now) && Slaves()[i..] == s0[j..]
        invariant changed <==> slaveCount < |s0|
        decreases slaveCount - i
      {
        ExpiryStep(s0, j, now, Slaves(), i);
        if Expired(slaves[i], now) {
          RemoveSlave(i);
          changed := true;
        } else {
          i := i + 1;
        }
        j := j + 1;
      }
      assert s0[..j] == s0;
    }

    /** The slave bookkeeping of a Join or Listen from an endpoint other
        than the target: a listed slave's registration is renewed in place;
        an unlisted one is appended while there is room. */
    method RegisterSlave(from: Endpoint, expiry: int) returns (index: nat, added: bool)
      requires slaveCount <= slaves.Length
      modifies this`slaveCount, slaves
      ensures slaveCount <= slaves.Length && index <= old(slaveCount)
      ensures forall j :: 0 <= j < index ==> old(slaves[j]).endpoint != from
      ensures index < old(slaveCount) ==> (old(slaves[index]).endpoint == from && !added
        && Slaves() == old(Slaves())[index := Slave(from, expiry)])
      ensures index == old(slaveCount) ==> (added == (old(slaveCount) < slaves.Length)
        && Slaves() == old(Slaves()) + (if added then [Slave(from, expiry)] else []))
    {
      index := FindSlave(from);
      added := false;
      if index >= slaveCount {
        if index < slaves.Length {
          slaves[index] := Slave(from, expiry);
          slaveCount := slaveCount + 1;
          added := true;
        }
      } else {
        slaves[index] := slaves[index].(expiry := expiry);
      }
    }

    /** A Join received by the unicast sender: one from a slave registers
        it (a new slave is sent a Listen); then the slave list, track and
        metatext go to the target. */
    method HandleJoin(from: Endpoint, now: int, timeout: int)
      requires Valid()
      modifies this`slaveCount, slaves, this`sent
      ensures Valid()
      ensures from == socket.target ==> Slaves() == old(Slaves())
      ensures from != socket.target && old(Unlisted(from)) ==>
        Slaves() == old(Slaves()) + (if old(slaveCount) < slaves.Length then [Slave(from, now + timeout)] else [])
      ensures from != socket.target && !old(Unlisted(from)) ==>
        Slaves() == old(Slaves())[SlaveIndex(old(Slaves()), from) := Slave(from, now + timeout)]
      ensures sent == old(sent)
        + (if from != socket.target && old(Unlisted(from)) && old(slaveCount) < slaves.Length
           then [Outgoing(from, ListenMessage)] else [])
        + [Outgoing(socket.target, SlaveMessage(Endpoints(Slaves()))),
           Outgoing(socket.target, TrackOf(track)), Outgoing(socket.target, MetatextOf(track))]
    {
      if from != socket.target {
        var index, added := RegisterSlave(from, now + timeout);
        if added {
          SendListen(from);
        }
      }
      SendSlaveList();
      SendTrack();
      SendMetatext();
    }

    /** A Listen received by the unicast sender: one from the target
        removes expired slaves and sends the list if that changed it; one
        from a listed slave renews it; one from an unlisted slave registers
        it and sends it a Listen, then the list, track and metatext. */
    method HandleListen(from: Endpoint, now: int, timeout: int)
      requires Valid()
      modifies this`slaveCount, slaves, this`sent
      ensures Valid()
      ensures from == socket.target ==> (Slaves() == Unexpired(old(Slaves()), now)
        && sent == old(sent) + (if |Slaves()| < |old(Slaves())| then [Outgoing(socket.target, SlaveMessage(Endpoints(Slaves())))] else []))
      ensures from != socket.target && !old(Unlisted(from)) ==> (sent == old(sent)
        && Slaves() == old(Slaves())[SlaveIndex(old(Slaves()), from) := Slave(from, now + timeout)])
      ensures from != socket.target && old(Unlisted(from)) ==> (
        Slaves() == old(Slaves()) + (if old(slaveCount) < slaves.Length then [Slave(from, now + timeout)] else [])
        && sent == old(sent) + (if old(slaveCount) < slaves.Length then
          [Outgoing(from, ListenMessage), Outgoing(socket.target, SlaveMessage(Endpoints(Slaves()))),
           Outgoing(socket.target, TrackOf(track)), Outgoing(socket.target, MetatextOf(track))] else []))
    {
      if from == socket.target {
        var changed := CheckSlaveExpiry(now);
        if changed {
          SendSlaveList();
        }
      } else {
        var index, added := RegisterSlave(from, now + timeout);
        if added {
          SendListen(from);
          SendSlaveList();
          SendTrack();
          SendMetatext();
        }
      }
    }
  }
}
