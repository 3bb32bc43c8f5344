// The Windows driver's Ohm messages: reference-counted OhmMsgAudio,
// OhmMsgTrack and OhmMsgMetatext objects that a factory hands out from one
// fixed-size FifoLite pool per message type and takes back when their last
// reference is dropped. The three message classes are one class here with a
// kind tag; each kind only uses its own payload fields.
module OhmMsgDriver {
  import opened Octets
  import opened Fifo
  import opened OhmWire

  datatype Kind = AudioKind | TrackKind | MetatextKind

  /** The message type number each kind carries. */
  function KindType(k: Kind): (t: Byte)
    ensures t in {MsgAudio, MsgTrack, MsgMetatext}
  {
    match k
    case AudioKind => MsgAudio
    case TrackKind => MsgTrack
    case MetatextKind => MsgMetatext
  }

  lemma KindTypeInjective(j: Kind, k: Kind)
    ensures KindType(j) == KindType(k) <==> j == k
  {
  }

  const MaxUriBytes: nat := 1024
  const MaxMetadataBytes: nat := 4096
  const MaxMetatextBytes: nat := 1024

  /** Pool size for each kind. */
  function PoolSize(k: Kind): (n: nat)
    ensures n > 0
  {
    match k
    case AudioKind => MaxAudioMessages
    case TrackKind => MaxTrackMessages
    case MetatextKind => MaxMetatextMessages
  }

  /** What an Externalise hands to the writer: the arguments of the common
      header it writes first (message type and the byte count it is given),
      then the body. */
  datatype Externalised = Externalised(msgType: Byte, msgBytes: nat, body: seq<Byte>)

  class OhmMsg {
    const kind: Kind
    var refCount: nat
    var resendCount: nat
    var txTimestamp: U32
    var rxTimestamp: U32
    var txTimestamped: bool
    var rxTimestamped: bool
    /** Audio: the OHMHEADER at the start of the MDL chain, the audio bytes
        that follow it in the chain, and the byte count Create was given. */
    var header: HeaderStruct
    var audio: seq<Byte>
    var bytes: nat
    /** Track and metatext payloads. */
    var sequence: U32
    var uri: seq<Byte>
    var metadata: seq<Byte>
    var metatext: seq<Byte>

    /** The payload of the message's kind fits the Bws buffers that hold it. */
    ghost predicate Valid()
      reads this
    {
      (kind == TrackKind ==> |uri| <= MaxUriBytes && |metadata| <= MaxMetadataBytes)
      && (kind == MetatextKind ==> |metatext| <= MaxMetatextBytes)
    }

    /** A new message has no references, no resends and no timestamps. */
    constructor (k: Kind)
      ensures kind == k && Valid()
      ensures refCount == 0 && resendCount == 0
      ensures txTimestamp == 0 && rxTimestamp == 0 && !txTimestamped && !rxTimestamped
    {
      kind := k;
      refCount := 0;
      resendCount := 0;
      txTimestamp := 0;
      rxTimestamp := 0;
      txTimestamped := false;
      rxTimestamped := false;
      uri := [];
      metadata := [];
      metatext := [];
    }

    /** OhmMsg::Create: the state every Create* starts from. */
    method CreateBase()
      modifies this
      ensures refCount == 1 && resendCount == 0
      ensures txTimestamp == 0 && rxTimestamp == 0 && !txTimestamped && !rxTimestamped
      ensures header == old(header) && audio == old(audio) && bytes == old(bytes)
      ensures sequence == old(sequence) && uri == old(uri) && metadata == old(metadata)
      ensures metatext == old(metatext)
    {
      refCount := 1;
      resendCount := 0;
      txTimestamp := 0;
      rxTimestamp := 0;
      txTimestamped := false;
      rxTimestamped := false;
    }

    /** OhmMsgAudio::Create: the message takes the chain and its byte count. */
    method CreateAudio(h: HeaderStruct, chain: seq<Byte>, n: nat)
      modifies this
      ensures refCount == 1 && resendCount == 0 && !txTimestamped && !rxTimestamped
      ensures txTimestamp == 0 && rxTimestamp == 0
      ensures header == h && audio == chain && bytes == n
    {
      CreateBase();
      header, audio, bytes := h, chain, n;
    }

    /** OhmMsgTrack::Create: Replace into the uri and metadata buffers
        asserts that both fit. */
    method CreateTrack(s: U32, u: seq<Byte>, md: seq<Byte>)
      requires kind == TrackKind && |u| <= MaxUriBytes && |md| <= MaxMetadataBytes
      modifies this
      ensures refCount == 1 && resendCount == 0 && !txTimestamped && !rxTimestamped
      ensures txTimestamp == 0 && rxTimestamp == 0
      ensures Valid() && sequence == s && uri == u && metadata == md
    {
      CreateBase();
      sequence, uri, metadata := s, u, md;
    }

    /** OhmMsgMetatext::Create. */
    method CreateMetatext(s: U32, t: seq<Byte>)
      requires kind == MetatextKind && |t| <= MaxMetatextBytes
      modifies this
      ensures refCount == 1 && resendCount == 0 && !txTimestamped && !rxTimestamped
      ensures txTimestamp == 0 && rxTimestamp == 0
      ensures Valid() && sequence == s && metatext == t
    {
      CreateBase();
      sequence, metatext := s, t;
    }

    method AddRef()
      modifies this`refCount
      ensures refCount == old(refCount) + 1
    {
      refCount := refCount + 1;
    }

    method IncrementResendCount()
      modifies this`resendCount
      ensures resendCount == old(resendCount) + 1
    {
      resendCount := resendCount + 1;
    }

    method SetTxTimestamp(v: U32)
      modifies this`txTimestamp, this`txTimestamped
      ensures txTimestamp == v && txTimestamped
    {
      txTimestamp := v;
      txTimestamped := true;
    }

    method SetRxTimestamp(v: U32)
      modifies this`rxTimestamp, this`rxTimestamped
      ensures rxTimestamp == v && rxTimestamped
    {
      rxTimestamp := v;
      rxTimestamped := true;
    }

    /** OhmMsgAudio::Frame: the header's frame field as stored. */
    function Frame(): U32
      reads this
    {
      header.audioFrame
    }

    /** OhmMsgAudio::Resent. */
    predicate IsResent()
      reads this
    {
      Resent(header)
    }

    /** OhmMsgAudio::SetResent: only the resent bit of the header changes. */
    method SetResent(v: bool)
      modifies this`header
      ensures header == WithResent(old(header), v) && IsResent() == v
    {
      if v {
        header := header.(audioFlags := header.audioFlags | 0x08);
      } else {
        header := header.(audioFlags := header.audioFlags & 0xF7);
      }
    }

    /** OhmMsgTrack::Externalise: the body reads back as this track. */
    function ExternaliseTrack(): (r: Externalised)
      reads this
      requires Valid() && kind == TrackKind
      ensures r.msgType == MsgTrack && r.msgBytes == |r.body|
      ensures r.msgBytes == TrackHeaderBytes + |uri| + |metadata|
      ensures DecodeTrack(r.body) == Some(OhmWire.Track(sequence, uri, metadata))
    {
      var body := EncodeTrack(sequence, uri, metadata);
      TrackRoundTrip(sequence, uri, metadata, []);
      assert body + [] == body;
      Externalised(MsgTrack, TrackHeaderBytes + |uri| + |metadata|, body)
    }

    /** OhmMsgMetatext::Externalise: the body reads back as this metatext. */
    function ExternaliseMetatext(): (r: Externalised)
      reads this
      requires Valid() && kind == MetatextKind
      ensures r.msgType == MsgMetatext && r.msgBytes == |r.body|
      ensures r.msgBytes == MetatextHeaderBytes + |metatext|
      ensures DecodeMetatext(r.body) == Some(OhmWire.Metatext(sequence, metatext))
    {
      var body := EncodeMetatext(sequence, metatext);
      MetatextRoundTrip(sequence, metatext, []);
      assert body + [] == body;
      Externalised(MsgMetatext, MetatextHeaderBytes + |metatext|, body)
    }

    /** OhmMsg::RemoveRef: the last reference frees the payload (the MDL
        chain of an audio message) and returns the message to the pool of
        its own kind. The message's factory is the argument. */
    method RemoveRef(factory: OhmMsgFactory)
      requires factory.Valid() && refCount > 0 && this in factory.Out(kind)
      modifies this`refCount, this`audio, factory.Pools()
      ensures factory.Valid() && refCount == old(refCount) - 1
      ensures forall k :: k != kind ==>
        factory.Pool(k).fifo.contents == old(factory.Pool(k).fifo.contents) && factory.Out(k) == old(factory.Out(k))
      ensures refCount > 0 ==>
        factory.Pool(kind).fifo.contents == old(factory.Pool(kind).fifo.contents) && factory.Out(kind) == old(factory.Out(kind))
      ensures refCount == 0 ==>
        factory.Pool(kind).fifo.contents == old(factory.Pool(kind).fifo.contents) + [this]
        && factory.Out(kind) == old(factory.Out(kind)) - {this}
      ensures refCount == 0 && kind == AudioKind ==> audio == []
    {
      assert this !in factory.Pools();
      refCount := refCount - 1;
      if refCount == 0 {
        Release(factory);
      }
    }

    /** The last reference gone: the payload is freed and the message goes
        back to its pool. */
    method Release(factory: OhmMsgFactory)
      requires factory.Valid() && this in factory.Out(kind)
      modifies this`audio, factory.Pools()
      ensures factory.Valid()
      ensures forall k :: k != kind ==>
        factory.Pool(k).fifo.contents == old(factory.Pool(k).fifo.contents) && factory.Out(k) == old(factory.Out(k))
      ensures factory.Pool(kind).fifo.contents == old(factory.Pool(kind).fifo.contents) + [this]
      ensures factory.Out(kind) == old(factory.Out(kind)) - {this}
      ensures audio == if kind == AudioKind then [] else old(audio)
    {
      if kind == AudioKind {
        audio := [];
      }
      factory.Destroy(this);
    }
  }

  /** The factory constructor's loop: a new fifo of n slots receives n new
      messages of kind k. */
  method NewPoolFifo(k: Kind, n: nat) returns (f: FifoLite<OhmMsg?>)
    requires n > 0
    ensures fresh(f) && fresh(f.buf) && f.Valid() && f.slots == n && |f.contents| == n
    ensures forall j :: 0 <= j < n ==> f.contents[j] != null && f.contents[j].kind == k
    ensures forall j, l :: 0 <= j < l < n ==> f.contents[j] != f.contents[l]
  {
    f := new FifoLite<OhmMsg?>(n);
    var i := 0;
    while i < n
      invariant 0 <= i <= n
      invariant fresh(f) && fresh(f.buf)
      invariant f.Valid() && |f.contents| == i && f.slots == n
      invariant forall j :: 0 <= j < i ==> f.contents[j] != null && f.contents[j].kind == k
      invariant forall j, l :: 0 <= j < l < i ==> f.contents[j] != f.contents[l]
    {
      var m := new OhmMsg(k);
      f.Write(m);
      i := i + 1;
    }
  }

  /** One FifoLite pool of the factory (iFifoAudio, iFifoTrack or
      iFifoMetatext) together with the messages of its kind that are
      currently handed out. */
  class MsgPool {
    const kind: Kind
    const size: nat
    const fifo: FifoLite<OhmMsg?>
    ghost var out: set<OhmMsg?>

    ghost function Repr(): set<object>
    {
      {this, fifo, fifo.buf}
    }

    /** Each pooled message is of the pool's kind, pooled once and not
        handed out; every handed-out message is of that kind too; pooled
        plus handed-out messages make up the pool's size. */
    ghost predicate Valid()
      reads this, fifo, fifo.buf
    {
      size == PoolSize(kind) && fifo.Valid() && fifo.slots == size
      && (forall i :: 0 <= i < |fifo.contents| ==>
            fifo.contents[i] != null && fifo.contents[i].kind == kind && fifo.contents[i] !in out)
      && (forall i, j :: 0 <= i < j < |fifo.contents| ==> fifo.contents[i] != fifo.contents[j])
      && (forall m :: m in out ==> m != null && m.kind == kind)
      && |fifo.contents| + |out| == size
    }

    /** A pool of PoolSize(k) new messages of kind k, none handed out. */
    constructor (k: Kind)
      ensures Valid() && fresh(fifo) && fresh(fifo.buf) && kind == k && out == {}
      ensures |fifo.contents| == PoolSize(k)
    {
      kind := k;
      var n := PoolSize(k);
      size := n;
      var f := NewPoolFifo(k, n);
      fifo := f;
      out := {};
    }

    /** FifoLite::Read on a non-empty pool (the source asserts SlotsUsed > 0). */
    method Take() returns (m: OhmMsg)
      requires Valid() && |fifo.contents| > 0
      modifies this, fifo
      ensures Valid() && m == old(fifo.contents[0]) && m.kind == kind
      ensures fifo.contents == old(fifo.contents)[1..] && out == old(out) + {m}
    {
      var e := fifo.Read();
      m := e;
      out := out + {m};
    }

    /** FifoLite::Write of a returned message. The pool has room because
        the message was one of the handed-out ones. */
    method Give(m: OhmMsg)
      requires Valid() && m in out
      modifies this, fifo, fifo.buf
      ensures Valid()
      ensures fifo.contents == old(fifo.contents) + [m] && out == old(out) - {m}
    {
      assert |out| > 0;
      fifo.Write(m);
      out := out - {m};
    }
  }

  class OhmMsgFactory {
    const audioPool: MsgPool
    const trackPool: MsgPool
    const metatextPool: MsgPool

    function Pool(k: Kind): MsgPool
    {
      match k
      case AudioKind => audioPool
      case TrackKind => trackPool
      case MetatextKind => metatextPool
    }

    ghost function Out(k: Kind): set<OhmMsg?>
      reads Pool(k)
    {
      Pool(k).out
    }

    ghost function Pools(): set<object>
    {
      {audioPool, audioPool.fifo, audioPool.fifo.buf, trackPool, trackPool.fifo, trackPool.fifo.buf,
       metatextPool, metatextPool.fifo, metatextPool.fifo.buf}
    }

    ghost predicate Valid()
      reads Pools()
    {
      audioPool.kind == AudioKind && trackPool.kind == TrackKind && metatextPool.kind == MetatextKind
      && audioPool.Repr() !! trackPool.Repr() && trackPool.Repr() !! metatextPool.Repr()
      && audioPool.Repr() !! metatextPool.Repr()
      && audioPool.Valid() && trackPool.Valid() && metatextPool.Valid()
    }

    /** The pools start full: 300 audio, 10 track and 10 metatext messages. */
    constructor ()
      ensures Valid() && fresh(audioPool) && fresh(trackPool) && fresh(metatextPool)
      ensures |audioPool.fifo.contents| == PoolSize(AudioKind) && audioPool.out == {}
      ensures |trackPool.fifo.contents| == PoolSize(TrackKind) && trackPool.out == {}
      ensures |metatextPool.fifo.contents| == PoolSize(MetatextKind) && metatextPool.out == {}
    {
      audioPool := new MsgPool(AudioKind);
      trackPool := new MsgPool(TrackKind);
      metatextPool := new MsgPool(MetatextKind);
    }

    /** CreateAudio: a pooled audio message holding the given chain. */
    method CreateAudio(h: HeaderStruct, audio: seq<Byte>, bytes: nat) returns (m: OhmMsg)
      requires Valid() && |audioPool.fifo.contents| > 0
      modifies audioPool, audioPool.fifo, audioPool.fifo.contents[0]
      ensures Valid() && m == old(audioPool.fifo.contents[0]) && m.kind == AudioKind
      ensures audioPool.fifo.contents == old(audioPool.fifo.contents)[1..]
      ensures Out(AudioKind) == old(Out(AudioKind)) + {m}
      ensures m.refCount == 1 && m.resendCount == 0 && !m.txTimestamped && !m.rxTimestamped
      ensures m.header == h && m.audio == audio && m.bytes == bytes
    {
      m := audioPool.Take();
      m.CreateAudio(h, audio, bytes);
    }

    /** CreateTrack: the uri and metadata must fit their buffers. */
    method CreateTrack(sequence: U32, uri: seq<Byte>, metadata: seq<Byte>) returns (m: OhmMsg)
      requires Valid() && |trackPool.fifo.contents| > 0
      requires |uri| <= MaxUriBytes && |metadata| <= MaxMetadataBytes
      modifies trackPool, trackPool.fifo, trackPool.fifo.contents[0]
      ensures Valid() && m == old(trackPool.fifo.contents[0]) && m.kind == TrackKind
      ensures trackPool.fifo.contents == old(trackPool.fifo.contents)[1..]
      ensures Out(TrackKind) == old(Out(TrackKind)) + {m}
      ensures m.refCount == 1 && m.resendCount == 0 && !m.txTimestamped && !m.rxTimestamped
      ensures m.Valid() && m.sequence == sequence && m.uri == uri && m.metadata == metadata
    {
      m := trackPool.Take();
      m.CreateTrack(sequence, uri, metadata);
    }

    /** CreateMetatext: the text must fit its buffer. */
    method CreateMetatext(sequence: U32, text: seq<Byte>) returns (m: OhmMsg)
      requires Valid() && |metatextPool.fifo.contents| > 0 && |text| <= MaxMetatextBytes
      modifies metatextPool, metatextPool.fifo, metatextPool.fifo.contents[0]
      ensures Valid() && m == old(metatextPool.fifo.contents[0]) && m.kind == MetatextKind && m.Valid()
      ensures metatextPool.fifo.contents == old(metatextPool.fifo.contents)[1..]
      ensures Out(MetatextKind) == old(Out(MetatextKind)) + {m}
      ensures m.refCount == 1 && m.resendCount == 0 && !m.txTimestamped && !m.rxTimestamped
      ensures m.sequence == sequence && m.metatext == text
    {
      m := metatextPool.Take();
      m.CreateMetatext(sequence, text);
    }

    /** Destroy / Process: a released message goes back to its kind's pool. */
    method Destroy(m: OhmMsg)
      requires Valid() && m in Out(m.kind)
      modifies Pools()
      ensures Valid()
      ensures Pool(m.kind).fifo.contents == old(Pool(m.kind).fifo.contents) + [m]
      ensures Out(m.kind) == old(Out(m.kind)) - {m}
      ensures forall k :: k != m.kind ==>
        Pool(k).fifo.contents == old(Pool(k).fifo.contents) && Out(k) == old(Out(k))
    {
      Pool(m.kind).Give(m);
    }
  }
}
