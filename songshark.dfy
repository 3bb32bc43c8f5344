// Songshark: a capture tool that watches the Songcast audio stream sent to
// one IPv4 endpoint and keeps running statistics: how many datagrams
// arrived, the smallest and largest gap between consecutive ones (a gap
// that follows a halted datagram is not a gap in the stream and is
// skipped), and which frame numbers arrived out of sequence.
module Songshark {
  import opened Octets
  import opened OhmWire
  import Dissectors

  /** TimeSpan(1, 0, 0) in 100-nanosecond ticks: the initial minimum gap. */
  const Hour: int := 36_000_000_000

  /** Where the two fields sit in a whole captured Ethernet frame. */
  const HaltOffset: nat := 51
  const FrameOffset: nat := 54
  const FieldsEnd: nat := 58

  /** Ethernet, IPv4 (no options) and UDP headers in front of the payload. */
  const LinkHeaders: nat := 14 + 20 + 8

  const EtherTypeIpV4: U16 := 0x0800
  const ProtocolUdp: Byte := 17

  /** A captured frame as the capture library presents it: its timestamp
      (in ticks), the header fields it has parsed, and the raw bytes. */
  datatype Capture = Capture(
    timestamp: int, etherType: U16, destination: U32, protocol: Byte,
    destinationPort: U16, buffer: seq<Byte>)

  /** What the statistics keep of a matched datagram. */
  datatype Datagram = Datagram(timestamp: int, frame: U32, halt: bool)

  /** SongcastDatagram.Halt: bit 0 of byte 51 of the frame. */
  function Halt(buffer: seq<Byte>): bool
    requires |buffer| > HaltOffset
  {
    buffer[HaltOffset] as int % 2 == 1
  }

  /** SongcastDatagram.Frame: the big-endian u32 at bytes 54..57. */
  function Frame(buffer: seq<Byte>): U32
    requires |buffer| >= FieldsEnd
  {
    DecodeBe32(buffer, FrameOffset)
  }

  /** Behind the 42 bytes of Ethernet, IPv4 and UDP headers, the two fixed
      offsets are the ones the Ohm dissector shows the flags and the frame
      number at: the halt bit of the flags byte and the frame number of the
      audio message. */
  lemma {:induction false} FieldsBehindHeaders(headers: seq<Byte>, payload: seq<Byte>)
    requires |headers| == LinkHeaders && |payload| >= 16
    ensures |headers + payload| >= FieldsEnd
    ensures Halt(headers + payload) == HasFlag(payload[9], FlagHalt)
    ensures Frame(headers + payload) == DecodeBe32(payload, 12)
    ensures |payload| >= Dissectors.MinPacketBytes && payload[5] == MsgAudio && Dissectors.OhmLayout(payload).ok ==>
              Dissectors.OhmLayout(payload).items[5] == Dissectors.Item(Dissectors.Flags, HaltOffset - LinkHeaders, 1)
              && Dissectors.OhmLayout(payload).items[7] == Dissectors.Item(Dissectors.Frame, FrameOffset - LinkHeaders, 4)
  {
    var b := headers + payload;
    assert b[HaltOffset] == payload[9];
    assert b[FrameOffset..FieldsEnd] == payload[12..16];
    DecodeBe32Local(b, payload, FrameOffset, 12);
  }

  // ---------------------------------------------------------------------
  // The statistics over the datagrams matched since the run started

  /** Whether the gap before datagram i counts: not for the first, and not
      when the datagram before it, from the second on, had halt set (the
      first datagram's halt is never recorded). */
  predicate Counted(ds: seq<Datagram>, i: int)
  {
    1 <= i < |ds| && !(i >= 2 && ds[i - 1].halt)
  }

  function Gap(ds: seq<Datagram>, i: int): int
    requires 1 <= i < |ds|
  {
    ds[i].timestamp - ds[i - 1].timestamp
  }

  /** Whether datagram i does not follow its predecessor's frame number. */
  predicate Skipped(ds: seq<Datagram>, i: int)
  {
    1 <= i < |ds| && ds[i].frame != Inc32(ds[i - 1].frame)
  }

  /** The smallest counted gap, or one hour when none counts. */
  function MinGap(ds: seq<Datagram>): (m: int)
    ensures m <= Hour
    decreases |ds|
  {
    if |ds| < 2 then Hour
    else
      var m, n := MinGap(ds[..|ds| - 1]), |ds| - 1;
      if Counted(ds, n) && Gap(ds, n) < m then Gap(ds, n) else m
  }

  /** The largest counted gap, or 0 when none counts. */
  function MaxGap(ds: seq<Datagram>): (m: int)
    ensures m >= 0
    decreases |ds|
  {
    if |ds| < 2 then 0
    else
      var m, n := MaxGap(ds[..|ds| - 1]), |ds| - 1;
      if Counted(ds, n) && Gap(ds, n) > m then Gap(ds, n) else m
  }

  /** The minimum is at most every counted gap, and is one of them unless
      it is still the initial hour. */
  lemma {:induction false} MinGapIsMinimum(ds: seq<Datagram>)
    ensures forall i :: Counted(ds, i) ==> MinGap(ds) <= Gap(ds, i)
    ensures MinGap(ds) == Hour || exists i :: Counted(ds, i) && MinGap(ds) == Gap(ds, i)
    decreases |ds|
  {
    if |ds| >= 2 {
      var init, n := ds[..|ds| - 1], |ds| - 1;
      MinGapIsMinimum(init);
      CountedPrefix(ds, init);
      if MinGap(ds) != Hour && MinGap(ds) == MinGap(init) {
        var i :| Counted(init, i) && MinGap(init) == Gap(init, i);
        assert Counted(ds, i) && MinGap(ds) == Gap(ds, i);
      }
    }
  }

  /** The maximum is at least every counted gap, and is one of them unless
      it is still 0. */
  lemma {:induction false} MaxGapIsMaximum(ds: seq<Datagram>)
    ensures forall i :: Counted(ds, i) ==> MaxGap(ds) >= Gap(ds, i)
    ensures MaxGap(ds) == 0 || exists i :: Counted(ds, i) && MaxGap(ds) == Gap(ds, i)
    decreases |ds|
  {
    if |ds| >= 2 {
      var init, n := ds[..|ds| - 1], |ds| - 1;
      MaxGapIsMaximum(init);
      CountedPrefix(ds, init);
      if MaxGap(ds) != 0 && MaxGap(ds) == MaxGap(init) {
        var i :| Counted(init, i) && MaxGap(init) == Gap(init, i);
        assert Counted(ds, i) && MaxGap(ds) == Gap(ds, i);
      }
    }
  }

  /** The frame numbers reported lost, in arrival order. */
  function Lost(ds: seq<Datagram>): (r: seq<U32>)
    ensures |r| < |ds| || |ds| == 0
    decreases |ds|
  {
    if |ds| < 2 then []
    else Lost(ds[..|ds| - 1]) + if Skipped(ds, |ds| - 1) then [ds[|ds| - 1].frame] else []
  }

  /** Every datagram that does not follow its predecessor's frame number is
      reported. */
  lemma {:induction false} LostComplete(ds: seq<Datagram>)
    ensures forall i :: Skipped(ds, i) ==> ds[i].frame in Lost(ds)
    decreases |ds|
  {
    if |ds| >= 2 {
      var init, n := ds[..|ds| - 1], |ds| - 1;
      LostComplete(init);
      assert Lost(ds) == Lost(init) + if Skipped(ds, n) then [ds[n].frame] else [];
      forall i | Skipped(ds, i)
        ensures ds[i].frame in Lost(ds)
      {
        if i < n {
          assert init[i] == ds[i] && init[i - 1] == ds[i - 1];
          assert Skipped(init, i);
        }
      }
    }
  }

  /** Nothing else is reported: every reported frame number is that of a
      datagram that did not follow its predecessor. */
  lemma {:induction false} LostSound(ds: seq<Datagram>)
    ensures forall f :: f in Lost(ds) ==> exists i :: Skipped(ds, i) && ds[i].frame == f
    decreases |ds|
  {
    if |ds| >= 2 {
      var init, n := ds[..|ds| - 1], |ds| - 1;
      LostSound(init);
      assert Lost(ds) == Lost(init) + if Skipped(ds, n) then [ds[n].frame] else [];
      forall f | f in Lost(ds)
        ensures exists i :: Skipped(ds, i) && ds[i].frame == f
      {
        if f in Lost(init) {
          var i :| Skipped(init, i) && init[i].frame == f;
          assert init[i] == ds[i] && init[i - 1] == ds[i - 1];
          assert Skipped(ds, i);
        } else {
          assert Skipped(ds, n) && ds[n].frame == f;
        }
      }
    }
  }

  /** Counting, gaps and skips before the last datagram read the same in the
      prefix without it. */
  lemma CountedPrefix(ds: seq<Datagram>, init: seq<Datagram>)
    requires |ds| >= 1 && init == ds[..|ds| - 1]
    ensures forall i :: 0 <= i < |init| ==> (Counted(ds, i) <==> Counted(init, i))
    ensures forall i :: 1 <= i < |init| ==> Gap(ds, i) == Gap(init, i)
    ensures forall i :: 0 <= i < |init| ==> (Skipped(ds, i) <==> Skipped(init, i))
  {
  }

  function Last(ds: seq<Datagram>): Datagram
    requires |ds| > 0
  {
    ds[|ds| - 1]
  }

  // ---------------------------------------------------------------------
  // The capture state

  /** The state the packet handler and the start and stop buttons share. */
  class Analyser {
    var address: U32
    var port: U16
    var count: nat
    var minGap: int
    var maxGap: int
    var lastTimestamp: int
    var lastFrame: U32
    var halt: bool
    var stop: bool
    /** The frame numbers written out as lost. */
    var lost: seq<U32>
    /** The datagrams matched since the run started. */
    ghost var seen: seq<Datagram>

    /** The statistics are those of the datagrams matched so far. */
    ghost predicate Valid()
      reads this
    {
      count == |seen| && minGap == MinGap(seen) && maxGap == MaxGap(seen)
      && lost == Lost(seen)
      && (|seen| > 0 ==> lastTimestamp == Last(seen).timestamp && lastFrame == Last(seen).frame)
      && halt == (|seen| >= 2 && Last(seen).halt)
    }

    /** The window before any run: nothing captured. */
    constructor ()
      ensures count == 0 && !stop && lost == [] && seen == []
    {
      count := 0;
      stop := false;
      lost := [];
      seen := [];
    }

    /** The start button with the run loop's preparation: the endpoint to
        watch, the statistics reset, the halt flag cleared and the stop
        request withdrawn. */
    method Start(endpoint: Endpoint)
      modifies this
      ensures Valid() && seen == [] && !stop
      ensures address == endpoint.address && port == endpoint.port
      ensures count == 0 && minGap == Hour && maxGap == 0
    {
      address, port := endpoint.address, endpoint.port;
      ResetStats();
      stop := false;
      halt := false;
      lost := [];
      seen := [];
    }

    /** ResetStats: no datagrams, a one-hour minimum and a zero maximum. */
    method ResetStats()
      modifies this`count, this`minGap, this`maxGap
      ensures count == 0 && minGap == Hour && maxGap == 0
    {
      count := 0;
      minGap := Hour;
      maxGap := 0;
    }

    /** The stop button: the next packet ends the capture. */
    method Stop()
      modifies this`stop
      ensures stop
    {
      stop := true;
    }

    /** Whether a captured frame is an IPv4 UDP datagram to the endpoint. */
    predicate Matches(c: Capture)
      reads this`address, this`port
    {
      c.etherType == EtherTypeIpV4 && c.destination == address
      && c.protocol == ProtocolUdp && c.destinationPort == port
    }

    /** PacketHandler: a stop request ends the capture; a frame that does
        not match leaves everything as it is; a matched one updates the
        statistics. A matched frame shorter than 58 bytes ends the capture
        when its frame number is read, after the updates made before that
        read. Returns whether the capture goes on. */
    method PacketHandler(c: Capture) returns (continues: bool)
      requires Valid()
      modifies this
      ensures old(stop) ==> !continues && unchanged(this)
      ensures !old(stop) && !Matches(c) ==> continues && unchanged(this)
      ensures !old(stop) && Matches(c) && |c.buffer| >= FieldsEnd ==>
                continues && Valid()
                && seen == old(seen) + [Datagram(c.timestamp, Frame(c.buffer), Halt(c.buffer))]
      ensures !old(stop) && Matches(c) && |c.buffer| < FieldsEnd ==>
                !continues
                && (old(count) == 0 ==> count == 1 && lastTimestamp == c.timestamp)
                && (old(count) != 0 ==>
                      count == old(count)
                      && minGap == (if !old(halt) && c.timestamp - old(lastTimestamp) < old(minGap)
                                    then c.timestamp - old(lastTimestamp) else old(minGap))
                      && maxGap == (if !old(halt) && c.timestamp - old(lastTimestamp) > old(maxGap)
                                    then c.timestamp - old(lastTimestamp) else old(maxGap)))
    {
      if stop {
        return false;
      }
      if !Matches(c) {
        return true;
      }
      if |c.buffer| < FieldsEnd {
        Truncated(c);
        return false;
      }
      Append(c);
      return true;
    }

    /** The statistics a matched datagram of at least 58 bytes updates: the
        gap since the previous one unless that one had halt set, the lost
        frame numbers, the halt flag, the count, and the last timestamp and
        frame number. */
    method Append(c: Capture)
      requires Valid() && |c.buffer| >= FieldsEnd
      modifies this`count, this`minGap, this`maxGap, this`lastTimestamp, this`lastFrame, this`halt, this`lost, this`seen
      ensures Valid() && seen == old(seen) + [Datagram(c.timestamp, Frame(c.buffer), Halt(c.buffer))]
    {
      ghost var d := Datagram(c.timestamp, Frame(c.buffer), Halt(c.buffer));
      ghost var e, n := seen + [d], |seen|;
      Extended(seen, d);
      assert count != 0 ==> e[n - 1] == Last(seen);
      assert Counted(e, n) <==> count != 0 && !halt;
      assert count != 0 ==> Gap(e, n) == c.timestamp - lastTimestamp;
      assert count != 0 ==> (Skipped(e, n) <==> d.frame != Inc32(lastFrame));
      assert Last(e) == d;
      if count != 0 {
        if !halt {
          var span := c.timestamp - lastTimestamp;
          if span < minGap {
            minGap := span;
          }
          if span > maxGap {
            maxGap := span;
          }
        }
        var frame := Frame(c.buffer);
        if frame != Inc32(lastFrame) {
          lost := lost + [frame];
        }
        halt := Halt(c.buffer);
      }
      count := count + 1;
      lastTimestamp := c.timestamp;
      lastFrame := Frame(c.buffer);
      seen := e;
    }

    /** A matched datagram too short to hold a frame number: the updates
        made before the frame number is read, after which the read throws. */
    method Truncated(c: Capture)
      requires |c.buffer| < FieldsEnd
      modifies this`count, this`minGap, this`maxGap, this`lastTimestamp
      ensures old(count) == 0 ==> count == 1 && lastTimestamp == c.timestamp
      ensures old(count) != 0 ==>
                count == old(count) && lastTimestamp == old(lastTimestamp)
                && minGap == (if !halt && c.timestamp - old(lastTimestamp) < old(minGap)
                              then c.timestamp - old(lastTimestamp) else old(minGap))
                && maxGap == (if !halt && c.timestamp - old(lastTimestamp) > old(maxGap)
                              then c.timestamp - old(lastTimestamp) else old(maxGap))
    {
      if count != 0 {
        if !halt {
          var span := c.timestamp - lastTimestamp;
          if span < minGap {
            minGap := span;
          }
          if span > maxGap {
            maxGap := span;
          }
        }
        return;
      }
      count := count + 1;
      lastTimestamp := c.timestamp;
    }
  }

  /** One more datagram: how each statistic moves. */
  lemma Extended(ds: seq<Datagram>, d: Datagram)
    ensures var e := ds + [d];
      e[..|ds|] == ds
      && MinGap(e) == (if Counted(e, |ds|) && Gap(e, |ds|) < MinGap(ds) then Gap(e, |ds|) else MinGap(ds))
      && MaxGap(e) == (if Counted(e, |ds|) && Gap(e, |ds|) > MaxGap(ds) then Gap(e, |ds|) else MaxGap(ds))
      && Lost(e) == Lost(ds) + (if Skipped(e, |ds|) then [d.frame] else [])
  {
    var e := ds + [d];
    assert e[..|ds|] == ds;
  }

  // ---------------------------------------------------------------------
  // The endpoint text box

  /** The index of the first ':' in s, or |s| when there is none. */
  function FirstColon(s: string): (i: nat)
    ensures i <= |s| && ':' !in s[..i]
    ensures i < |s| ==> s[i] == ':'
  {
    if |s| == 0 then 0
    else if s[0] == ':' then 0
    else
      var i := 1 + FirstColon(s[1..]);
      assert s[..i] == [s[0]] + s[1..][..i - 1];
      i
  }

  predicate IsDigit(c: char) { '0' <= c <= '9' }

  /** The value of a string of decimal digits. */
  function Value(s: string): nat
    requires forall k :: 0 <= k < |s| ==> IsDigit(s[k])
  {
    if |s| == 0 then 0
    else
      var c := s[|s| - 1];
      assert IsDigit(c);
      Value(s[..|s| - 1]) * 10 + (c as int - '0' as int)
  }

  /** uint.TryParse on plain digits: a non-empty run of digits whose value
      fits in 32 bits. */
  function ParseUint(s: string): (r: Option<nat>)
    ensures r.Some? <==> |s| > 0 && (forall k :: 0 <= k < |s| ==> IsDigit(s[k])) && Value(s) < 0x1_0000_0000
    ensures r.Some? ==> r.value == Value(s)
  {
    if |s| > 0 && (forall k :: 0 <= k < |s| ==> IsDigit(s[k])) && Value(s) < 0x1_0000_0000 then Some(Value(s))
    else None
  }

  /** The decimal digits of n, most significant first. */
  function Decimal(n: nat): (s: string)
    ensures |s| > 0 && forall k :: 0 <= k < |s| ==> IsDigit(s[k])
    ensures Value(s) == n
  {
    var d := ['0' + (n % 10) as char];
    if n < 10 then d
    else
      var s := Decimal(n / 10) + d;
      assert s[..|s| - 1] == Decimal(n / 10);
      s
  }

  /** What the text-changed handler does with the endpoint: clear it, set
      it, or (as written) throw from the endpoint constructor. */
  datatype EndpointUpdate = Cleared | Set(endpoint: Endpoint) | Thrown

  /** EventTextEndpointTextChanged as written: split at the first ':', parse
      the address with the platform's parser and the port as a uint, and
      build the endpoint from them, whose constructor throws for a port
      above 65535. */
  function EndpointAsWritten(text: string, parseAddress: string -> Option<U32>): (r: EndpointUpdate)
    ensures r.Thrown? <==>
              var i := FirstColon(text);
              i < |text| && parseAddress(text[..i]).Some?
              && ParseUint(text[i + 1..]).Some? && ParseUint(text[i + 1..]).value > 0xFFFF
  {
    var i := FirstColon(text);
    if i == |text| then Cleared
    else
      var address, port := parseAddress(text[..i]), ParseUint(text[i + 1..]);
      if address.None? || port.None? then Cleared
      else if port.value > 0xFFFF then Thrown
      else Set(Endpoint(address.value, port.value))
  }

  /** A port that uint.TryParse accepts but no endpoint can hold, such as
      "10.2.9.32:70000", makes the handler throw. */
  lemma {:induction false} PortOverflowAsWritten(addressText: string, port: nat, parseAddress: string -> Option<U32>)
    requires ':' !in addressText && parseAddress(addressText).Some?
    requires 0xFFFF < port < 0x1_0000_0000
    ensures EndpointAsWritten(addressText + ":" + Decimal(port), parseAddress) == Thrown
  {
    SplitAtColon(addressText, Decimal(port));
  }

  /** The endpoint the text names, or none: the text must hold a ':', the
      part before the first ':' must be an address, and the part after it a
      port of at most 65535. */
  function ParseEndpoint(text: string, parseAddress: string -> Option<U32>): (r: Option<Endpoint>)
    ensures r.Some? <==>
              var i := FirstColon(text);
              i < |text| && parseAddress(text[..i]).Some?
              && ParseUint(text[i + 1..]).Some? && ParseUint(text[i + 1..]).value <= 0xFFFF
    ensures r.Some? ==> r.value.address == parseAddress(text[..FirstColon(text)]).value
    ensures r.Some? ==> r.value.port == ParseUint(text[FirstColon(text) + 1..]).value
    ensures EndpointAsWritten(text, parseAddress) != Thrown ==>
              (r.Some? <==> EndpointAsWritten(text, parseAddress).Set?)
  {
    var i := FirstColon(text);
    if i == |text| then None
    else
      var address, port := parseAddress(text[..i]), ParseUint(text[i + 1..]);
      if address.None? || port.None? || port.value > 0xFFFF then None
      else Some(Endpoint(address.value, port.value))
  }

  /** An address text without ':' followed by ':' and a port in decimal
      names that endpoint. */
  lemma {:induction false} EndpointRoundTrip(addressText: string, port: U16, parseAddress: string -> Option<U32>)
    requires ':' !in addressText && parseAddress(addressText).Some?
    ensures ParseEndpoint(addressText + ":" + Decimal(port), parseAddress)
            == Some(Endpoint(parseAddress(addressText).value, port))
  {
    SplitAtColon(addressText, Decimal(port));
  }

  /** Splitting at the first ':' gives back an address text without ':'
      and the port text. */
  lemma SplitAtColon(addressText: string, portText: string)
    requires ':' !in addressText
    ensures var text := addressText + ":" + portText;
      FirstColon(text) == |addressText| < |text|
      && text[..|addressText|] == addressText && text[|addressText| + 1..] == portText
  {
    var text := addressText + ":" + portText;
    var i := |addressText|;
    assert text[..i] == addressText && text[i] == ':';
    FirstColonOf(text, i);
    assert text[i + 1..] == portText;
  }

  lemma {:induction false} FirstColonOf(s: string, i: nat)
    requires i < |s| && s[i] == ':' && ':' !in s[..i]
    ensures FirstColon(s) == i
    decreases i
  {
    if i > 0 {
      assert s[0] in s[..i];
      assert s[1..][..i - 1] == s[1..i];
      assert ':' !in s[1..][..i - 1] by {
        assert forall c :: c in s[1..i] ==> c in s[..i];
      }
      FirstColonOf(s[1..], i - 1);
    }
  }
}
