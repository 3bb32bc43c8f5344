// The user-space receiver's Ohm messages: reference-counted audio, track and
// metatext messages read from a datagram, handed out by a factory from one
// pool per message type whose sizes the caller chooses. The factory's mutex
// makes AddRef and RemoveRef atomic; each is one step here.
module OhmMsgUser {
  import opened Octets
  import opened Fifo
  import opened OhmWire

  datatype Kind = AudioKind | TrackKind | MetatextKind

  const MaxUriBytes: nat := 1024
  const MaxMetadataBytes: nat := 4096
  const MaxMetatextBytes: nat := 1024

  /** The bytes of the literal "HELLO". */
  const Hello: seq<Byte> := [0x48, 0x45, 0x4c, 0x4c, 0x4f]

  /** OhmMsgAudio::BitDepth as written: it returns the header's halt flag. */
  function BitDepthAsWritten(h: AudioHeader): (r: nat)
    ensures r <= 1
  {
    if HasFlag(h.flags, FlagHalt) then 1 else 0
  }

  /** The bit depth the header carries, which the accessor evidently means
      to return. */
  function BitDepth(h: AudioHeader): Byte
  {
    h.bitDepth
  }

  /** A 24-bit, non-halting stream reports a bit depth of 0. */
  lemma BitDepthAsWrittenLosesDepth(a: AudioHeader)
    requires a.bitDepth == 24 && a.flags == 0
    ensures BitDepthAsWritten(a) == 0 != a.bitDepth as int
  {
  }

  /** The corrected accessor returns the depth the sender put on the wire. */
  lemma {:induction false} BitDepthReadsSentDepth(a: AudioHeader, pcm: seq<Byte>)
    requires CodecFits(a)
    ensures DecodeAudioHeader(EncodeAudioHeader(a) + pcm).Some?
    ensures BitDepth(DecodeAudioHeader(EncodeAudioHeader(a) + pcm).value) == a.bitDepth
  {
    AudioHeaderRoundTrip(a, pcm);
  }

  /** Every Externalise as written emits "HELLO", which no receiver can read
      back as a track or a metatext body. */
  lemma HelloIsNoMessage()
    ensures DecodeTrack(Hello) == None && DecodeMetatext(Hello) == None
    ensures DecodeAudioHeader(Hello) == None
  {
  }

  class OhmMsg {
    const kind: Kind
    var refCount: nat
    var header: AudioHeader
    var sequence: U32
    var uri: seq<Byte>
    var metadata: seq<Byte>
    var metatext: seq<Byte>

    /** The payload of the message's kind fits the buffers that hold it. */
    ghost predicate Valid()
      reads this
    {
      (kind == TrackKind ==> |uri| <= MaxUriBytes && |metadata| <= MaxMetadataBytes)
      && (kind == MetatextKind ==> |metatext| <= MaxMetatextBytes)
    }

    constructor (k: Kind)
      ensures kind == k && refCount == 0 && Valid()
    {
      kind := k;
      refCount := 0;
      uri := [];
      metadata := [];
      metatext := [];
    }

    /** OhmMsgAudio::Create: the audio header is read from the datagram. */
    method CreateAudio(reader: seq<Byte>)
      requires kind == AudioKind && DecodeAudioHeader(reader).Some?
      modifies this
      ensures Valid() && refCount == 1 && header == DecodeAudioHeader(reader).value
    {
      header := DecodeAudioHeader(reader).value;
      refCount := 1;
    }

    /** OhmMsgTrack::Create: the track header, then the uri and the metadata
        by the lengths it gives; both must fit their buffers. */
    method CreateTrack(reader: seq<Byte>)
      requires kind == TrackKind && DecodeTrack(reader).Some?
      requires |DecodeTrack(reader).value.uri| <= MaxUriBytes
      requires |DecodeTrack(reader).value.metadata| <= MaxMetadataBytes
      modifies this
      ensures Valid() && refCount == 1
      ensures OhmWire.Track(sequence, uri, metadata) == DecodeTrack(reader).value
    {
      var t := DecodeTrack(reader).value;
      uri := t.uri;
      metadata := t.metadata;
      sequence := t.sequence;
      refCount := 1;
    }

    /** OhmMsgMetatext::Create. */
    method CreateMetatext(reader: seq<Byte>)
      requires kind == MetatextKind && DecodeMetatext(reader).Some?
      requires |DecodeMetatext(reader).value.text| <= MaxMetatextBytes
      modifies this
      ensures Valid() && refCount == 1
      ensures OhmWire.Metatext(sequence, metatext) == DecodeMetatext(reader).value
    {
      var t := DecodeMetatext(reader).value;
      metatext := t.text;
      sequence := t.sequence;
      refCount := 1;
    }

    function Halt(): bool
      reads this
    {
      HasFlag(header.flags, FlagHalt)
    }

    function Frame(): U32
      reads this
    {
      header.frame
    }

    /** The BitDepth accessor as written. */
    function BitDepthAccessorAsWritten(): (r: nat)
      reads this
      ensures r == (if Halt() then 1 else 0)
    {
      BitDepthAsWritten(header)
    }

    /** The corrected accessor: the depth the header carries. */
    function BitDepthAccessor(): (r: Byte)
      reads this
      ensures r == header.bitDepth
    {
      BitDepth(header)
    }

    /** Externalise as written, for every kind. */
    function ExternaliseAsWritten(): (r: seq<Byte>)
      ensures DecodeTrack(r) == None && DecodeMetatext(r) == None
    {
      HelloIsNoMessage();
      Hello
    }

    /** The evidently intended track Externalise: the body the driver's
        OhmMsgTrack writes, which reads back as this track. */
    function ExternaliseTrack(): (r: seq<Byte>)
      reads this
      requires Valid() && kind == TrackKind
      ensures |r| == TrackHeaderBytes + |uri| + |metadata|
      ensures DecodeTrack(r) == Some(OhmWire.Track(sequence, uri, metadata))
    {
      TrackRoundTrip(sequence, uri, metadata, []);
      assert EncodeTrack(sequence, uri, metadata) + [] == EncodeTrack(sequence, uri, metadata);
      EncodeTrack(sequence, uri, metadata)
    }

    /** The evidently intended metatext Externalise. */
    function ExternaliseMetatext(): (r: seq<Byte>)
      reads this
      requires Valid() && kind == MetatextKind
      ensures |r| == MetatextHeaderBytes + |metatext|
      ensures DecodeMetatext(r) == Some(OhmWire.Metatext(sequence, metatext))
    {
      MetatextRoundTrip(sequence, metatext, []);
      assert EncodeMetatext(sequence, metatext) + [] == EncodeMetatext(sequence, metatext);
      EncodeMetatext(sequence, metatext)
    }

    /** AddRef under the factory lock. */
    method AddRef()
      modifies this`refCount
      ensures refCount == old(refCount) + 1
    {
      refCount := refCount + 1;
    }

    /** RemoveRef under the factory lock: the last reference returns the
        message to the pool of its kind. The factory is the argument. */
    method RemoveRef(factory: OhmMsgFactory)
      requires factory.Valid() && refCount > 0 && this in factory.Out(kind)
      modifies this`refCount, factory.Pools()
      ensures factory.Valid() && refCount == old(refCount) - 1
      ensures forall k :: k != kind ==>
        factory.Pool(k).fifo.contents == old(factory.Pool(k).fifo.contents) && factory.Out(k) == old(factory.Out(k))
      ensures refCount > 0 ==>
        factory.Pool(kind).fifo.contents == old(factory.Pool(kind).fifo.contents) && factory.Out(kind) == old(factory.Out(kind))
      ensures refCount == 0 ==>
        factory.Pool(kind).fifo.contents == old(factory.Pool(kind).fifo.contents) + [this]
        && factory.Out(kind) == old(factory.Out(kind)) - {this}
    {
      assert this !in factory.Pools();
      refCount := refCount - 1;
      if refCount == 0 {
        factory.Destroy(this);
      }
    }
  }

  /** The factory constructor's loop: a new fifo of n slots receives n new
      messages of kind k. */
  method NewPoolFifo(k: Kind, n: nat) returns (f: FifoLite<OhmMsg?>)
    requires n > 0
    ensures fresh(f) && fresh(f.buf) && f.Valid() && f.slots == n && |f.contents| == n
    ensures forall j :: 0 <= j < n ==> f.contents[j] != null && f.contents[j].kind == k
    ensures forall j, l :: 0 <= j < l < n ==> f.contents[j] != f.contents[l]
  {
    f := new FifoLite<OhmMsg?>(n);
    var i := 0;
    while i < n
      invariant 0 <= i <= n
      invariant fresh(f) && fresh(f.buf)
      invariant f.Valid() && |f.contents| == i && f.slots == n
      invariant forall j :: 0 <= j < i ==> f.contents[j] != null && f.contents[j].kind == k
      invariant forall j, l :: 0 <= j < l < i ==> f.contents[j] != f.contents[l]
    {
      var m := new OhmMsg(k);
      f.Write(m);
      i := i + 1;
    }
  }

  /** One of the factory's fifos with the messages of its kind currently
      handed out. */
  class MsgPool {
    const kind: Kind
    const size: nat
    const fifo: FifoLite<OhmMsg?>
    ghost var out: set<OhmMsg?>

    ghost function Repr(): set<object>
    {
      {this, fifo, fifo.buf}
    }

    ghost predicate Valid()
      reads this, fifo, fifo.buf
    {
      fifo.Valid() && fifo.slots == size
      && (forall i :: 0 <= i < |fifo.contents| ==>
            fifo.contents[i] != null && fifo.contents[i].kind == kind && fifo.contents[i] !in out)
      && (forall i, j :: 0 <= i < j < |fifo.contents| ==> fifo.contents[i] != fifo.contents[j])
      && (forall m :: m in out ==> m != null && m.kind == kind)
      && |fifo.contents| + |out| == size
    }

    /** A pool of exactly n new messages of kind k, none handed out. */
    constructor (k: Kind, n: nat)
      requires n > 0
      ensures Valid() && fresh(fifo) && fresh(fifo.buf) && kind == k && size == n && out == {}
      ensures |fifo.contents| == n
    {
      kind := k;
      size := n;
      var f := NewPoolFifo(k, n);
      fifo := f;
      out := {};
    }

    method Take() returns (m: OhmMsg)
      requires Valid() && |fifo.contents| > 0
      modifies this, fifo
      ensures Valid() && m == old(fifo.contents[0]) && m.kind == kind
      ensures fifo.contents == old(fifo.contents)[1..] && out == old(out) + {m}
    {
      var e := fifo.Read();
      m := e;
      out := out + {m};
    }

    method Give(m: OhmMsg)
      requires Valid() && m in out
      modifies this, fifo, fifo.buf
      ensures Valid()
      ensures fifo.contents == old(fifo.contents) + [m] && out == old(out) - {m}
    {
      assert |out| > 0;
      fifo.Write(m);
      out := out - {m};
    }
  }

  class OhmMsgFactory {
    const audioPool: MsgPool
    const trackPool: MsgPool
    const metatextPool: MsgPool

    function Pool(k: Kind): MsgPool
    {
      match k
      case AudioKind => audioPool
      case TrackKind => trackPool
      case MetatextKind => metatextPool
    }

    ghost function Out(k: Kind): set<OhmMsg?>
      reads Pool(k)
    {
      Pool(k).out
    }

    ghost function Pools(): set<object>
    {
      {audioPool, audioPool.fifo, audioPool.fifo.buf, trackPool, trackPool.fifo, trackPool.fifo.buf,
       metatextPool, metatextPool.fifo, metatextPool.fifo.buf}
    }

    ghost predicate Valid()
      reads Pools()
    {
      audioPool.kind == AudioKind && trackPool.kind == TrackKind && metatextPool.kind == MetatextKind
      && audioPool.Repr() !! trackPool.Repr() && trackPool.Repr() !! metatextPool.Repr()
      && audioPool.Repr() !! metatextPool.Repr()
      && audioPool.Valid() && trackPool.Valid() && metatextPool.Valid()
    }

    /** Each pool is filled with exactly the requested number of messages. */
    constructor (audioCount: nat, trackCount: nat, metatextCount: nat)
      requires audioCount > 0 && trackCount > 0 && metatextCount > 0
      ensures Valid() && fresh(audioPool) && fresh(trackPool) && fresh(metatextPool)
      ensures |audioPool.fifo.contents| == audioCount && |trackPool.fifo.contents| == trackCount
      ensures |metatextPool.fifo.contents| == metatextCount
      ensures audioPool.out == {} && trackPool.out == {} && metatextPool.out == {}
    {
      audioPool := new MsgPool(AudioKind, audioCount);
      trackPool := new MsgPool(TrackKind, trackCount);
      metatextPool := new MsgPool(MetatextKind, metatextCount);
    }

    /** The message type a header selects, if it is one the factory makes. */
    static function KindOf(msgType: Byte): (r: Option<Kind>)
      ensures r == Some(AudioKind) <==> msgType == MsgAudio
      ensures r == Some(TrackKind) <==> msgType == MsgTrack
      ensures r == Some(MetatextKind) <==> msgType == MsgMetatext
    {
      if msgType == MsgAudio then Some(AudioKind)
      else if msgType == MsgTrack then Some(TrackKind)
      else if msgType == MsgMetatext then Some(MetatextKind)
      else None
    }

    /** Whether the bytes after the common header hold a body the message
        of kind k can be created from. */
    static predicate Readable(k: Kind, reader: seq<Byte>)
    {
      match k
      case AudioKind => DecodeAudioHeader(reader).Some?
      case TrackKind =>
        DecodeTrack(reader).Some? && |DecodeTrack(reader).value.uri| <= MaxUriBytes
        && |DecodeTrack(reader).value.metadata| <= MaxMetadataBytes
      case MetatextKind =>
        DecodeMetatext(reader).Some? && |DecodeMetatext(reader).value.text| <= MaxMetatextBytes
    }

    /** Create: dispatch on the header's message type; any type other than
        audio, track or metatext is an assertion failure in the source. */
    method Create(h: Header, reader: seq<Byte>) returns (m: OhmMsg)
      requires Valid() && KindOf(h.msgType).Some?
      requires |Pool(KindOf(h.msgType).value).fifo.contents| > 0
      requires Readable(KindOf(h.msgType).value, reader)
      modifies Pools(), Pool(KindOf(h.msgType).value).fifo.contents[0]
      ensures Valid() && m.kind == KindOf(h.msgType).value && m.refCount == 1 && m.Valid()
      ensures m == old(Pool(KindOf(h.msgType).value).fifo.contents[0])
      ensures Out(m.kind) == old(Out(m.kind)) + {m}
      ensures m.kind == AudioKind ==> m.header == DecodeAudioHeader(reader).value
      ensures m.kind == TrackKind ==> OhmWire.Track(m.sequence, m.uri, m.metadata) == DecodeTrack(reader).value
      ensures m.kind == MetatextKind ==> OhmWire.Metatext(m.sequence, m.metatext) == DecodeMetatext(reader).value
    {
      var k := KindOf(h.msgType).value;
      match k
      case AudioKind => m := CreateAudio(reader);
      case TrackKind => m := CreateTrack(reader);
      case MetatextKind => m := CreateMetatext(reader);
    }

    method CreateAudio(reader: seq<Byte>) returns (m: OhmMsg)
      requires Valid() && |audioPool.fifo.contents| > 0 && Readable(AudioKind, reader)
      modifies audioPool, audioPool.fifo, audioPool.fifo.contents[0]
      ensures Valid() && m == old(audioPool.fifo.contents[0]) && m.kind == AudioKind && m.Valid()
      ensures audioPool.fifo.contents == old(audioPool.fifo.contents)[1..]
      ensures Out(AudioKind) == old(Out(AudioKind)) + {m}
      ensures m.refCount == 1 && m.header == DecodeAudioHeader(reader).value
    {
      m := audioPool.Take();
      m.CreateAudio(reader);
    }

    method CreateTrack(reader: seq<Byte>) returns (m: OhmMsg)
      requires Valid() && |trackPool.fifo.contents| > 0 && Readable(TrackKind, reader)
      modifies trackPool, trackPool.fifo, trackPool.fifo.contents[0]
      ensures Valid() && m == old(trackPool.fifo.contents[0]) && m.kind == TrackKind && m.Valid()
      ensures trackPool.fifo.contents == old(trackPool.fifo.contents)[1..]
      ensures Out(TrackKind) == old(Out(TrackKind)) + {m}
      ensures m.refCount == 1 && OhmWire.Track(m.sequence, m.uri, m.metadata) == DecodeTrack(reader).value
    {
      m := trackPool.Take();
      m.CreateTrack(reader);
    }

    method CreateMetatext(reader: seq<Byte>) returns (m: OhmMsg)
      requires Valid() && |metatextPool.fifo.contents| > 0 && Readable(MetatextKind, reader)
      modifies metatextPool, metatextPool.fifo, metatextPool.fifo.contents[0]
      ensures Valid() && m == old(metatextPool.fifo.contents[0]) && m.kind == MetatextKind && m.Valid()
      ensures metatextPool.fifo.contents == old(metatextPool.fifo.contents)[1..]
      ensures Out(MetatextKind) == old(Out(MetatextKind)) + {m}
      ensures m.refCount == 1 && OhmWire.Metatext(m.sequence, m.metatext) == DecodeMetatext(reader).value
    {
      m := metatextPool.Take();
      m.CreateMetatext(reader);
    }

    method Destroy(m: OhmMsg)
      requires Valid() && m in Out(m.kind)
      modifies Pools()
      ensures Valid()
      ensures Pool(m.kind).fifo.contents == old(Pool(m.kind).fifo.contents) + [m]
      ensures Out(m.kind) == old(Out(m.kind)) - {m}
      ensures forall k :: k != m.kind ==>
        Pool(k).fifo.contents == old(Pool(k).fifo.contents) && Out(k) == old(Out(k))
    {
      Pool(m.kind).Give(m);
    }
  }
}
