// The Wireshark dissectors for Songcast's two UDP protocols: Ohm (audio,
// track, metatext, slave list, resend) and Ohz (zone and preset queries).
// Each dissector first decides whether a UDP payload is its own (the
// heuristic test); it then lays out the fields it shows, one after the other,
// with a cursor that advances by each field's size. A field that would run
// past the end of the payload stops the layout: Wireshark then marks the
// packet malformed.
module Dissectors {
  import opened Octets
  import opened OhmWire

  const OhmSignature: U32 := 0x4f686d20
  const OhzSignature: U32 := 0x4f687a20
  const MinPacketBytes: nat := 8
  const SongcastPort: nat := 51972

  /** The Ohz message types. */
  const OhzZoneQuery: Byte := 0
  const OhzZoneUri: Byte := 1
  const OhzPresetQuery: Byte := 2
  const OhzPresetInfo: Byte := 3

  /** The fields the dissectors show, in both protocols. */
  datatype Field =
    | Signature | Version | MsgType | Length
    | HeaderLength | Flags | SampleCount | Frame | NetworkTimestamp
    | MediaLatency | MediaTimestamp | StartSample | TotalSamples
    | SampleRate | BitRate | VolumeOffset | BitDepth | Channels | Reserved
    | CodecNameLength | CodecName | Pcm
    | TrackSequence | UriLength | MetadataLength | Uri | Metadata
    | TextSequence | TextLength | Text
    | SlaveCount | Slave
    | ResendCount
    | ZoneIdLength | ZoneUriLength | ZoneId | ZoneUri
    | PresetNumber | PresetMetadataLength | PresetMetadata

  /** One shown field: what it is and the bytes it covers. */
  datatype Item = Item(field: Field, offset: nat, length: nat)

  function End(i: Item): nat { i.offset + i.length }

  /** The running offset of the dissector, the fields shown so far, and
      whether every field so far fitted in the payload. */
  datatype Cursor = Cursor(items: seq<Item>, offset: nat, ok: bool)

  /** What a dissector returns: 0 (not this protocol), the whole length with
      the fields shown, or the fields shown before one ran past the end. */
  datatype Outcome = Rejected | Dissected(consumed: nat, items: seq<Item>) | Malformed(shown: seq<Item>)

  /** The fields of a cursor lie one after the other from offset 0 up to the
      cursor, which is inside a payload of `size` bytes. */
  ghost predicate Laid(c: Cursor, size: nat)
  {
    c.offset <= size
    && (|c.items| == 0 ==> c.offset == 0)
    && (|c.items| > 0 ==> c.items[0].offset == 0 && End(c.items[|c.items| - 1]) == c.offset)
    && (forall i :: 0 < i < |c.items| ==> c.items[i].offset == End(c.items[i - 1]))
  }

  lemma {:induction false} LaidWithin(c: Cursor, size: nat, i: nat)
    requires Laid(c, size) && i < |c.items|
    ensures End(c.items[i]) <= c.offset <= size
    decreases |c.items| - i
  {
    if i < |c.items| - 1 {
      LaidWithin(c, size, i + 1);
    }
  }

  /** The cursor before any field. */
  function Start(): (c: Cursor)
    ensures forall size: nat :: Laid(c, size)
  {
    Cursor([], 0, true)
  }

  /** Shows one field of n bytes at the cursor and advances past it; a field
      that runs past the end of the payload stops the layout, and a stopped
      layout shows nothing more. */
  function Add(c: Cursor, f: Field, n: nat, size: nat): (r: Cursor)
    ensures Laid(c, size) ==> Laid(r, size)
    ensures r.ok <==> c.ok && c.offset + n <= size
    ensures r.ok ==> r == Cursor(c.items + [Item(f, c.offset, n)], c.offset + n, true)
    ensures !r.ok ==> r.items == c.items
    ensures c.items <= r.items
  {
    if !c.ok then c
    else if c.offset + n > size then c.(ok := false)
    else Cursor(c.items + [Item(f, c.offset, n)], c.offset + n, true)
  }

  /** A big-endian u32 length read at the cursor; when it does not fit, the
      field holding it stops the layout and the value is never used. */
  function Read32(p: seq<Byte>, at: nat): U32
  {
    if at + 4 <= |p| then DecodeBe32(p, at) else 0
  }

  function Read8(p: seq<Byte>, at: nat): Byte
  {
    if at < |p| then p[at] else 0
  }

  function Finish(c: Cursor, size: nat): Outcome
  {
    if c.ok then Dissected(size, c.items) else Malformed(c.items)
  }

  /** Whether a destination address text starts with "239.253", the
      Songcast multicast range. */
  predicate SongcastMulticast(dst: string)
  {
    |dst| >= 7 && dst[..7] == "239.253"
  }

  // ---------------------------------------------------------------------
  // Ohm

  /** Signature, version, type and length: the common 8-byte header. */
  function CommonHeader(size: nat): (c: Cursor)
    requires size >= MinPacketBytes
    ensures Laid(c, size) && c.ok && c.offset == 8
    ensures c.items == [Item(Signature, 0, 4), Item(Version, 4, 1), Item(MsgType, 5, 1), Item(Length, 6, 2)]
  {
    Add(Add(Add(Add(Start(), Signature, 4, size), Version, 1, size), MsgType, 1, size), Length, 2, size)
  }

  /** The audio fields after the common header: the 50-byte audio header,
      the codec name its length byte gives, then the PCM to the end. The
      layout is complete exactly when the payload holds the 58 bytes of
      headers and the codec name; the flags byte is then at offset 9, the
      frame number at 12, the codec name at 58 and the PCM from its end to
      the end of the payload. */
  function AudioBody(c0: Cursor, p: seq<Byte>): (c: Cursor)
    requires |p| >= MinPacketBytes && c0 == CommonHeader(|p|)
    ensures Laid(c, |p|) && c0.items <= c.items
    ensures c.ok <==> |p| >= 58 && |p| >= 58 + p[57] as int
    ensures c.ok ==> |c.items| == 22
                     && c.items[5] == Item(Flags, 9, 1) && c.items[7] == Item(Frame, 12, 4)
                     && c.items[19] == Item(CodecNameLength, 57, 1)
                     && c.items[20] == Item(CodecName, 58, p[57] as int)
                     && c.items[21] == Item(Pcm, 58 + p[57] as int, |p| - 58 - p[57] as int)
  {
    var n := |p|;
    var c4 := AudioFixed(c0, n);
    var codec := Read8(p, c4.offset) as nat;
    var c5 := Add(Add(c4, CodecNameLength, 1, n), CodecName, codec, n);
    Add(c5, Pcm, n - c5.offset, n)
  }

  /** The fixed audio fields from header length to the reserved byte. */
  function AudioFixed(c0: Cursor, n: nat): (c: Cursor)
    requires n >= MinPacketBytes && c0 == CommonHeader(n)
    ensures Laid(c, n) && c0.items <= c.items
    ensures c.ok <==> n >= 57
    ensures c.ok ==> |c.items| == 19 && c.offset == 57
                     && c.items[5] == Item(Flags, 9, 1) && c.items[7] == Item(Frame, 12, 4)
  {
    AudioStamps(AudioLead(c0, n), n)
  }

  /** Header length, flags, sample count and frame. */
  function AudioLead(c0: Cursor, n: nat): (c: Cursor)
    requires n >= MinPacketBytes && c0 == CommonHeader(n)
    ensures Laid(c, n) && c0.items <= c.items
    ensures c.ok <==> n >= 16
    ensures c.ok ==> |c.items| == 8 && c.offset == 16
                     && c.items[5] == Item(Flags, 9, 1) && c.items[7] == Item(Frame, 12, 4)
  {
    Add(Add(Add(Add(c0, HeaderLength, 1, n), Flags, 1, n), SampleCount, 2, n), Frame, 4, n)
  }

  /** From the network timestamp to the reserved byte. */
  function AudioStamps(c0: Cursor, n: nat): (c: Cursor)
    requires Laid(c0, n) && (c0.ok ==> |c0.items| == 8 && c0.offset == 16)
    ensures Laid(c, n) && c0.items <= c.items
    ensures c.ok <==> c0.ok && n >= 57
    ensures c.ok ==> |c.items| == 19 && c.offset == 57
  {
    var c2 := Add(Add(Add(Add(c0, NetworkTimestamp, 4, n), MediaLatency, 4, n), MediaTimestamp, 4, n), StartSample, 8, n);
    AudioRates(c2, n)
  }

  /** From the total samples to the reserved byte. */
  function AudioRates(c0: Cursor, n: nat): (c: Cursor)
    requires Laid(c0, n) && (c0.ok ==> |c0.items| == 12 && c0.offset == 36)
    ensures Laid(c, n) && c0.items <= c.items
    ensures c.ok <==> c0.ok && n >= 57
    ensures c.ok ==> |c.items| == 19 && c.offset == 57
  {
    var c3 := Add(Add(Add(Add(c0, TotalSamples, 8, n), SampleRate, 4, n), BitRate, 4, n), VolumeOffset, 2, n);
    Add(Add(Add(c3, BitDepth, 1, n), Channels, 1, n), Reserved, 1, n)
  }

  /** Sequence, uri length, metadata length, the uri, the metadata: the uri
      starts at 20 and the metadata follows it. */
  function TrackBody(c0: Cursor, p: seq<Byte>): (c: Cursor)
    requires |p| >= MinPacketBytes && c0 == CommonHeader(|p|)
    ensures Laid(c, |p|) && c0.items <= c.items
    ensures c.ok <==> |p| >= 20 && |p| >= 20 + DecodeBe32(p, 12) + DecodeBe32(p, 16)
    ensures c.ok ==> |c.items| == 9
                     && c.items[4] == Item(TrackSequence, 8, 4)
                     && c.items[7] == Item(Uri, 20, DecodeBe32(p, 12))
                     && c.items[8] == Item(Metadata, 20 + DecodeBe32(p, 12), DecodeBe32(p, 16))
  {
    var n := |p|;
    var c1 := Add(c0, TrackSequence, 4, n);
    var uri := Read32(p, c1.offset);
    var c2 := Add(c1, UriLength, 4, n);
    var meta := Read32(p, c2.offset);
    var c3 := Add(c2, MetadataLength, 4, n);
    Add(Add(c3, Uri, uri, n), Metadata, meta, n)
  }

  /** Sequence, text length, the text from offset 16. */
  function MetatextBody(c0: Cursor, p: seq<Byte>): (c: Cursor)
    requires |p| >= MinPacketBytes && c0 == CommonHeader(|p|)
    ensures Laid(c, |p|) && c0.items <= c.items
    ensures c.ok <==> |p| >= 16 && |p| >= 16 + DecodeBe32(p, 12)
    ensures c.ok ==> |c.items| == 7 && c.items[6] == Item(Text, 16, DecodeBe32(p, 12))
  {
    var n := |p|;
    var c1 := Add(c0, TextSequence, 4, n);
    var text := Read32(p, c1.offset);
    Add(Add(c1, TextLength, 4, n), Text, text, n)
  }

  /** k six-byte slave entries, one after the other. */
  function Entries(c: Cursor, k: nat, size: nat): (r: Cursor)
    ensures Laid(c, size) ==> Laid(r, size)
    ensures c.items <= r.items
    decreases k
  {
    if k == 0 then c else Entries(Add(c, Slave, 6, size), k - 1, size)
  }

  /** The fields of an Ohm payload the dissector shows: the common header,
      then the body its type selects; Join, Listen, Leave and unknown types
      show the common header alone. */
  function OhmLayout(p: seq<Byte>): (c: Cursor)
    requires |p| >= MinPacketBytes
    ensures Laid(c, |p|) && CommonHeader(|p|).items <= c.items
    ensures p[5] !in {MsgAudio, MsgTrack, MsgMetatext, MsgSlave, MsgResend} ==> c == CommonHeader(|p|)
  {
    var c0 := CommonHeader(|p|);
    var t := p[5];
    if t == MsgAudio then AudioBody(c0, p)
    else if t == MsgTrack then TrackBody(c0, p)
    else if t == MsgMetatext then MetatextBody(c0, p)
    else if t == MsgSlave then SlaveBody(c0, p)
    else if t == MsgResend then ResendBody(c0, p)
    else c0
  }

  /** The resend frame count at 8. */
  function ResendBody(c0: Cursor, p: seq<Byte>): (c: Cursor)
    requires |p| >= MinPacketBytes && c0 == CommonHeader(|p|)
    ensures Laid(c, |p|) && c0.items <= c.items
    ensures c.ok <==> |p| >= 12
    ensures c.ok ==> c.items == c0.items + [Item(ResendCount, 8, 4)]
  {
    Add(c0, ResendCount, 4, |p|)
  }

  /** The slave count at 8, then that many entries; the layout is complete
      exactly when all of them are in the payload, and entry j covers the
      six bytes at 12 + 6j. */
  function SlaveBody(c0: Cursor, p: seq<Byte>): (c: Cursor)
    requires |p| >= MinPacketBytes && c0 == CommonHeader(|p|)
    ensures Laid(c, |p|) && c0.items <= c.items
    ensures c.ok <==> |p| >= 12 && |p| >= 12 + 6 * DecodeBe32(p, 8)
    ensures c.ok ==> |c.items| == 5 + DecodeBe32(p, 8) && c.items[4] == Item(SlaveCount, 8, 4)
                     && forall j :: 0 <= j < DecodeBe32(p, 8) ==> c.items[5 + j] == Item(Slave, 12 + 6 * j, 6)
  {
    var c1 := Add(c0, SlaveCount, 4, |p|);
    var count := Read32(p, 8);
    if c1.ok then
      EntriesLayout(c1, count, |p|);
      Entries(c1, count, |p|)
    else
      EntriesStopped(c1, count, |p|);
      c1
  }

  /** dissect_ohm: the heuristic test, then (when a tree is being built)
      the fields, the slave entries in a loop. */
  method DissectOhm(p: seq<Byte>, dst: string, dstPort: nat, tree: bool) returns (o: Outcome)
    ensures o.Rejected? <==> (SongcastMulticast(dst) && dstPort != SongcastPort)
                              || |p| < MinPacketBytes || DecodeBe32(p, 0) != OhmSignature
    ensures o.Dissected? ==> o.consumed == |p|
    ensures !o.Rejected? && !tree ==> o == Dissected(|p|, [])
    ensures !o.Rejected? && tree ==> o == Finish(OhmLayout(p), |p|)
  {
    if SongcastMulticast(dst) && dstPort != SongcastPort {
      return Rejected;
    }
    if |p| < MinPacketBytes {
      return Rejected;
    }
    if DecodeBe32(p, 0) != OhmSignature {
      return Rejected;
    }
    if !tree {
      return Dissected(|p|, []);
    }
    var c := CommonHeader(|p|);
    var t := p[5];
    if t == MsgSlave {
      var count := Read32(p, 8);
      c := Add(c, SlaveCount, 4, |p|);
      c := SlaveEntries(c, count, |p|);
      assert c == SlaveBody(CommonHeader(|p|), p);
    } else {
      c := OhmLayout(p);
    }
    o := Finish(c, |p|);
  }

  /** The slave loop: one six-byte entry per listed slave, until an entry
      runs past the end of the payload. */
  method SlaveEntries(c0: Cursor, count: nat, size: nat) returns (c: Cursor)
    ensures c == Entries(c0, count, size)
  {
    c := c0;
    var i := 0;
    while i < count && c.ok
      invariant i <= count
      invariant Entries(c, count - i, size) == Entries(c0, count, size)
    {
      c := Add(c, Slave, 6, size);
      i := i + 1;
    }
    if i < count {
      EntriesStopped(c, count - i, size);
    }
  }

  lemma {:induction false} EntriesStopped(c: Cursor, k: nat, size: nat)
    requires !c.ok
    ensures Entries(c, k, size) == c
    decreases k
  {
    if k > 0 {
      EntriesStopped(Add(c, Slave, 6, size), k - 1, size);
    }
  }

  /** k entries fit exactly when 6k bytes remain; then the j-th covers the
      six bytes at offset + 6j. */
  lemma {:induction false} EntriesLayout(c: Cursor, k: nat, size: nat)
    requires c.ok && c.offset <= size
    ensures Entries(c, k, size).ok <==> c.offset + 6 * k <= size
    ensures Entries(c, k, size).ok ==>
              |Entries(c, k, size).items| == |c.items| + k
              && Entries(c, k, size).items[..|c.items|] == c.items
              && forall j :: 0 <= j < k ==> Entries(c, k, size).items[|c.items| + j] == Item(Slave, c.offset + 6 * j, 6)
    decreases k
  {
    if k > 0 {
      var c1 := Add(c, Slave, 6, size);
      assert Entries(c, k, size) == Entries(c1, k - 1, size);
      if c1.ok {
        EntriesLayout(c1, k - 1, size);
        assert c1.offset + 6 * (k - 1) == c.offset + 6 * k;
        var r := Entries(c, k, size);
        if r.ok {
          forall j | 0 <= j < k
            ensures r.items[|c.items| + j] == Item(Slave, c.offset + 6 * j, 6)
          {
            if j > 0 {
              assert r.items[|c.items| + j] == r.items[|c1.items| + (j - 1)];
              assert c1.offset + 6 * (j - 1) == c.offset + 6 * j;
            } else {
              assert r.items[|c.items|] == r.items[..|c1.items|][|c.items|] == c1.items[|c.items|];
            }
          }
          assert r.items[..|c.items|] == r.items[..|c1.items|][..|c.items|];
        }
      } else {
        EntriesStopped(c1, k - 1, size);
        assert 6 * k >= 6;
      }
    }
  }

  /** The dissector's signature test is the sender's magic "Ohm ". */
  lemma {:induction false} SignatureIsMagic(p: seq<Byte>)
    requires |p| >= 4
    ensures DecodeBe32(p, 0) == OhmSignature <==> p[..4] == Magic
  {
    assert EncodeBe32(OhmSignature) == Magic;
    EncodeDecodeBe32(p[..4]);
    DecodeBe32Local(p, p[..4], 0, 0);
    if p[..4] == Magic {
      DecodeBe32At(p, 0, OhmSignature);
    }
  }

  // The dissector and the sender agree: a message as the sender encodes it
  // passes the heuristic test and is laid out completely, each field over
  // the bytes the sender wrote for it.

  /** The common header of a payload that starts with an encoded header. */
  lemma {:induction false} HeaderAgrees(h: Header, body: seq<Byte>, p: seq<Byte>)
    requires p == EncodeHeader(h) + body
    ensures |p| >= MinPacketBytes && DecodeBe32(p, 0) == OhmSignature
    ensures p[5] == h.msgType && p[MinPacketBytes..] == body
  {
    assert p[..4] == Magic;
    SignatureIsMagic(p);
  }

  lemma {:induction false} AudioAgrees(h: Header, a: AudioHeader, pcm: seq<Byte>, p: seq<Byte>)
    requires CodecFits(a) && h.msgType == MsgAudio
    requires p == EncodeHeader(h) + (EncodeAudioHeader(a) + pcm)
    ensures |p| >= MinPacketBytes && DecodeBe32(p, 0) == OhmSignature
    ensures OhmLayout(p).ok && |p| == 58 + |a.codecName| + |pcm|
    ensures p[9] == a.flags && DecodeBe32(p, 12) == a.frame && p[57] as int == |a.codecName|
    ensures p[58..58 + |a.codecName|] == a.codecName && p[58 + |a.codecName|..] == pcm
  {
    var s := EncodeAudioHeader(a) + pcm;
    HeaderAgrees(h, s, p);
    AudioHeaderRoundTrip(a, pcm);
    assert p[12..16] == s[4..8];
    DecodeBe32Local(p, s, 12, 4);
    assert p[58..58 + |a.codecName|] == s[50..50 + |a.codecName|];
    assert s[50..] == a.codecName + pcm;
  }

  lemma {:induction false} TrackAgrees(h: Header, sequence: U32, uri: seq<Byte>, metadata: seq<Byte>, rest: seq<Byte>, p: seq<Byte>)
    requires Fits32(uri) && Fits32(metadata) && h.msgType == MsgTrack
    requires p == EncodeHeader(h) + (EncodeTrack(sequence, uri, metadata) + rest)
    ensures |p| >= MinPacketBytes && DecodeBe32(p, 0) == OhmSignature
    ensures OhmLayout(p).ok && DecodeBe32(p, 12) == |uri| && DecodeBe32(p, 16) == |metadata|
    ensures p[20..20 + |uri|] == uri && p[20 + |uri|..20 + |uri| + |metadata|] == metadata
  {
    var s := EncodeTrack(sequence, uri, metadata) + rest;
    HeaderAgrees(h, s, p);
    TrackRoundTrip(sequence, uri, metadata, rest);
    assert p[12..16] == s[4..8] && p[16..20] == s[8..12];
    DecodeBe32Local(p, s, 12, 4);
    DecodeBe32Local(p, s, 16, 8);
    assert p[20..20 + |uri|] == s[12..12 + |uri|];
    assert p[20 + |uri|..20 + |uri| + |metadata|] == s[12 + |uri|..12 + |uri| + |metadata|];
  }

  lemma {:induction false} MetatextAgrees(h: Header, sequence: U32, text: seq<Byte>, rest: seq<Byte>, p: seq<Byte>)
    requires Fits32(text) && h.msgType == MsgMetatext
    requires p == EncodeHeader(h) + (EncodeMetatext(sequence, text) + rest)
    ensures |p| >= MinPacketBytes && DecodeBe32(p, 0) == OhmSignature
    ensures OhmLayout(p).ok && DecodeBe32(p, 12) == |text| && p[16..16 + |text|] == text
  {
    var s := EncodeMetatext(sequence, text) + rest;
    HeaderAgrees(h, s, p);
    MetatextRoundTrip(sequence, text, rest);
    assert p[12..16] == s[4..8];
    DecodeBe32Local(p, s, 12, 4);
    assert p[16..16 + |text|] == s[8..8 + |text|];
  }

  lemma {:induction false} SlavesAgree(h: Header, slaves: seq<Endpoint>, rest: seq<Byte>, p: seq<Byte>)
    requires |slaves| < 0x1_0000_0000 && h.msgType == MsgSlave
    requires p == EncodeHeader(h) + (EncodeSlaves(slaves) + rest)
    ensures |p| >= MinPacketBytes && DecodeBe32(p, 0) == OhmSignature
    ensures OhmLayout(p).ok && |OhmLayout(p).items| == 5 + |slaves|
  {
    var s := EncodeSlaves(slaves) + rest;
    HeaderAgrees(h, s, p);
    SlavesRoundTrip(slaves, rest);
    assert p[8..12] == s[0..4];
    DecodeBe32Local(p, s, 8, 0);
  }

  // ---------------------------------------------------------------------
  // Ohz

  /** The fields of an Ohz payload the dissector shows: the common header,
      then the body its type selects; an unknown type shows the common
      header alone. */
  function OhzLayout(p: seq<Byte>): (c: Cursor)
    requires |p| >= MinPacketBytes
    ensures Laid(c, |p|) && CommonHeader(|p|).items <= c.items
    ensures p[5] !in {OhzZoneQuery, OhzZoneUri, OhzPresetQuery, OhzPresetInfo} ==> c == CommonHeader(|p|)
  {
    var c0 := CommonHeader(|p|);
    var t := p[5];
    if t == OhzZoneQuery then ZoneQueryBody(c0, p)
    else if t == OhzZoneUri then ZoneUriBody(c0, p)
    else if t == OhzPresetQuery then PresetQueryBody(c0, p)
    else if t == OhzPresetInfo then PresetInfoBody(c0, p)
    else c0
  }

  /** Zone query: the id length at 8, the id from 12. */
  function ZoneQueryBody(c0: Cursor, p: seq<Byte>): (c: Cursor)
    requires |p| >= MinPacketBytes && c0 == CommonHeader(|p|)
    ensures Laid(c, |p|) && c0.items <= c.items
    ensures c.ok <==> |p| >= 12 && |p| >= 12 + DecodeBe32(p, 8)
    ensures c.ok ==> c.items == c0.items + [Item(ZoneIdLength, 8, 4), Item(ZoneId, 12, DecodeBe32(p, 8))]
  {
    var n := |p|;
    Add(Add(c0, ZoneIdLength, 4, n), ZoneId, Read32(p, 8), n)
  }

  /** Zone URI: both lengths first (id at 8, uri at 12), then the id from 16
      and the uri after it. */
  function ZoneUriBody(c0: Cursor, p: seq<Byte>): (c: Cursor)
    requires |p| >= MinPacketBytes && c0 == CommonHeader(|p|)
    ensures Laid(c, |p|) && c0.items <= c.items
    ensures c.ok <==> |p| >= 16 && |p| >= 16 + DecodeBe32(p, 8) + DecodeBe32(p, 12)
    ensures c.ok ==>
              var id := DecodeBe32(p, 8);
              c.items == c0.items + [Item(ZoneIdLength, 8, 4), Item(ZoneUriLength, 12, 4),
                                     Item(ZoneId, 16, id), Item(ZoneUri, 16 + id, DecodeBe32(p, 12))]
  {
    var n := |p|;
    var id, uri := Read32(p, 8), Read32(p, 12);
    Add(Add(Add(Add(c0, ZoneIdLength, 4, n), ZoneUriLength, 4, n), ZoneId, id, n), ZoneUri, uri, n)
  }

  /** Preset query: the preset number at 8. */
  function PresetQueryBody(c0: Cursor, p: seq<Byte>): (c: Cursor)
    requires |p| >= MinPacketBytes && c0 == CommonHeader(|p|)
    ensures Laid(c, |p|) && c0.items <= c.items
    ensures c.ok <==> |p| >= 12
    ensures c.ok ==> c.items == c0.items + [Item(PresetNumber, 8, 4)]
  {
    Add(c0, PresetNumber, 4, |p|)
  }

  /** Preset info: the preset number at 8, the metadata length at 12, the
      metadata from 16. */
  function PresetInfoBody(c0: Cursor, p: seq<Byte>): (c: Cursor)
    requires |p| >= MinPacketBytes && c0 == CommonHeader(|p|)
    ensures Laid(c, |p|) && c0.items <= c.items
    ensures c.ok <==> |p| >= 16 && |p| >= 16 + DecodeBe32(p, 12)
    ensures c.ok ==> c.items == c0.items + [Item(PresetNumber, 8, 4), Item(PresetMetadataLength, 12, 4),
                                            Item(PresetMetadata, 16, DecodeBe32(p, 12))]
  {
    var n := |p|;
    Add(Add(Add(c0, PresetNumber, 4, n), PresetMetadataLength, 4, n), PresetMetadata, Read32(p, 12), n)
  }

  /** dissect_ohz: the port, length and signature test, then the fields. */
  method DissectOhz(p: seq<Byte>, dstPort: nat, tree: bool) returns (o: Outcome)
    ensures o.Rejected? <==> dstPort != SongcastPort || |p| < MinPacketBytes || DecodeBe32(p, 0) != OhzSignature
    ensures o.Dissected? ==> o.consumed == |p|
    ensures !o.Rejected? && !tree ==> o == Dissected(|p|, [])
    ensures !o.Rejected? && tree ==> o == Finish(OhzLayout(p), |p|)
  {
    if dstPort != SongcastPort {
      return Rejected;
    }
    if |p| < MinPacketBytes {
      return Rejected;
    }
    if DecodeBe32(p, 0) != OhzSignature {
      return Rejected;
    }
    if !tree {
      return Dissected(|p|, []);
    }
    o := Finish(OhzLayout(p), |p|);
  }
}
