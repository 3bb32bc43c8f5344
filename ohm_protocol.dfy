// The receiving side of an Ohm stream (OhmProtocolUnicast.cpp and
// OhmProtocolMulticast.cpp): a receiver joins a sender's stream, waits until
// it has both the track and the metatext, and then listens, passing audio,
// track and metatext on to the receiver proper and asking for missed frames
// again. A unicast receiver also relays what it gets to the slave receivers
// the sender names.
//
// The socket read loop is driven by the list of datagrams the socket
// delivers; the read being interrupted (ReaderError) is the end of that
// list. The receiver proper (IOhmReceiver) is a log of the calls made on
// it, and the missed-frame list its Add returns is part of each audio
// datagram. Timers are a log of FireIn and Cancel calls; the random part of
// the listen timeouts is not modelled.
module OhmProtocol {
  import opened Octets
  import opened OhmWire

  /** kMaxSlaveCount: the unicast receiver's slave slots. */
  const MaxSlaveCount: nat := 4

  /** A datagram as the read loop sees it. Malformed is a header that
      OhmHeader::Internalise refuses (OhmError), which the loop skips. An
      Audio datagram carries the missed-frame list the receiver's Add
      returns for it; a Slave datagram carries its decoded entries. */
  datatype Incoming =
    | Malformed
    | Join
    | Listen
    | Leave
    | Resend
    | Audio(audio: seq<Byte>, missed: seq<Byte>)
    | Track(sequence: U32, uri: seq<Byte>, metadata: seq<Byte>)
    | Metatext(text: seq<Byte>)
    | Slave(slaves: seq<Endpoint>)

  /** What the receiver's socket sends: the bare Join, Listen and Leave
      headers, a Resend request whose count is the number of 4-byte frame
      numbers it carries, and the audio, track and metatext relayed to
      slaves. */
  datatype Outgoing =
    | JoinOut
    | ListenOut
    | LeaveOut
    | ResendOut(count: nat, frames: seq<Byte>)
    | AudioOut(audio: seq<Byte>)
    | TrackOut(sequence: U32, uri: seq<Byte>, metadata: seq<Byte>)
    | MetatextOut(text: seq<Byte>)

  datatype Datagram = Datagram(to: Endpoint, message: Outgoing)

  /** A call on the receiver proper. */
  datatype ReceiverCall =
    | Add(audio: seq<Byte>)
    | SetTrack(sequence: U32, uri: seq<Byte>, metadata: seq<Byte>)
    | SetMetatext(text: seq<Byte>)

  datatype Timer = JoinTimer | ListenTimer | LeaveTimer

  /** The delays the timers are armed with: the join timeout, the listen
      timer's primary (about a quarter of the listen timeout) and
      secondary (about a half) delays, and the leave timeout. */
  datatype Delay = JoinTimeout | ListenPrimary | ListenSecondary | LeaveTimeout

  datatype TimerCall = FireIn(delay: Delay) | Cancel(timer: Timer)

  // ---------------------------------------------------------------------
  // What a run of datagrams amounts to

  /** A Track has arrived somewhere in the run. */
  predicate HasTrack(s: seq<Incoming>)
    decreases |s|
  {
    |s| > 0 && (s[|s| - 1].Track? || HasTrack(s[..|s| - 1]))
  }

  /** A Metatext has arrived somewhere in the run. */
  predicate HasMetatext(s: seq<Incoming>)
    decreases |s|
  {
    |s| > 0 && (s[|s| - 1].Metatext? || HasMetatext(s[..|s| - 1]))
  }

  /** The join is complete once both a Track and a Metatext have arrived,
      in either order. */
  predicate Joined(s: seq<Incoming>)
  {
    HasTrack(s) && HasMetatext(s)
  }

  /** The calls a datagram causes on the receiver proper, in either phase. */
  function CallsOf(m: Incoming): seq<ReceiverCall>
  {
    match m
    case Audio(audio, _) => [Add(audio)]
    case Track(sequence, uri, metadata) => [SetTrack(sequence, uri, metadata)]
    case Metatext(text) => [SetMetatext(text)]
    case _ => []
  }

  function ReceiverCalls(s: seq<Incoming>): seq<ReceiverCall>
    decreases |s|
  {
    if |s| == 0 then [] else ReceiverCalls(s[..|s| - 1]) + CallsOf(s[|s| - 1])
  }

  /** The re-arms of the listen timer a run of the listen phase causes:
      one per Listen heard from another receiver. */
  function Rearms(s: seq<Incoming>): (r: seq<TimerCall>)
    decreases |s|
  {
    if |s| == 0 then [] else Rearms(s[..|s| - 1]) + (if s[|s| - 1].Listen? then [FireIn(ListenSecondary)] else [])
  }

  /** HandleSlave as it should be: at most kMaxSlaveCount entries are
      kept, in order. */
  function Clamp(entries: seq<Endpoint>): (r: seq<Endpoint>)
    ensures |r| <= MaxSlaveCount && r <= entries
    ensures |entries| <= MaxSlaveCount ==> r == entries
  {
    if |entries| <= MaxSlaveCount then entries else entries[..MaxSlaveCount]
  }

  /** The slave list a run of the join phase leaves: the last Slave
      datagram's, or none. */
  function LastSlaves(s: seq<Incoming>): seq<Endpoint>
    decreases |s|
  {
    if |s| == 0 then []
    else if s[|s| - 1].Slave? then Clamp(s[|s| - 1].slaves)
    else LastSlaves(s[..|s| - 1])
  }

  /** A message relayed to every slave, in slave order. */
  function Forwarded(slaves: seq<Endpoint>, m: Outgoing): (r: seq<Datagram>)
    ensures |r| == |slaves| && forall k :: 0 <= k < |r| ==> r[k] == Datagram(slaves[k], m)
    decreases |slaves|
  {
    if |slaves| == 0 then [] else Forwarded(slaves[..|slaves| - 1], m) + [Datagram(slaves[|slaves| - 1], m)]
  }

  /** The Resend request an audio datagram causes: only when frames were
      missed, with a count of one per 4-byte frame number. */
  function ResendFor(to: Endpoint, missed: seq<Byte>): (r: seq<Datagram>)
    ensures |r| == (if |missed| > 0 then 1 else 0)
    ensures |r| == 1 ==> r[0].to == to && r[0].message == ResendOut(|missed| / 4, missed)
  {
    if |missed| > 0 then [Datagram(to, ResendOut(|missed| / 4, missed))] else []
  }

  /** One more datagram extends each of the summaries by that datagram's
      share. */
  lemma PrefixStep(s: seq<Incoming>, i: nat)
    requires i < |s|
    ensures HasTrack(s[..i + 1]) <==> HasTrack(s[..i]) || s[i].Track?
    ensures HasMetatext(s[..i + 1]) <==> HasMetatext(s[..i]) || s[i].Metatext?
    ensures ReceiverCalls(s[..i + 1]) == ReceiverCalls(s[..i]) + CallsOf(s[i])
    ensures LastSlaves(s[..i + 1]) == if s[i].Slave? then Clamp(s[i].slaves) else LastSlaves(s[..i])
    ensures Rearms(s[..i + 1]) == Rearms(s[..i]) + (if s[i].Listen? then [FireIn(ListenSecondary)] else [])
  {
    assert s[..i + 1][..i] == s[..i];
  }

  /** HasTrack says that some datagram of the run is a Track. */
  lemma {:induction false} HasTrackSome(s: seq<Incoming>)
    ensures HasTrack(s) <==> exists k :: 0 <= k < |s| && s[k].Track?
    decreases |s|
  {
    if |s| > 0 {
      var init := s[..|s| - 1];
      HasTrackSome(init);
      if k :| 0 <= k < |s| && s[k].Track? {
        if k < |init| {
          assert init[k] == s[k];
        }
      }
      if HasTrack(init) {
        var k :| 0 <= k < |init| && init[k].Track?;
        assert s[k] == init[k];
      }
    }
  }

  /** HasMetatext says that some datagram of the run is a Metatext. */
  lemma {:induction false} HasMetatextSome(s: seq<Incoming>)
    ensures HasMetatext(s) <==> exists k :: 0 <= k < |s| && s[k].Metatext?
    decreases |s|
  {
    if |s| > 0 {
      var init := s[..|s| - 1];
      HasMetatextSome(init);
      if k :| 0 <= k < |s| && s[k].Metatext? {
        if k < |init| {
          assert init[k] == s[k];
        }
      }
      if HasMetatext(init) {
        var k :| 0 <= k < |init| && init[k].Metatext?;
        assert s[k] == init[k];
      }
    }
  }

  /** Once complete, the join stays complete for any longer run. */
  lemma JoinedExtends(s: seq<Incoming>, k: nat)
    requires k <= |s| && Joined(s[..k])
    ensures Joined(s)
  {
    HasTrackSome(s[..k]);
    HasMetatextSome(s[..k]);
    var t :| 0 <= t < k && s[..k][t].Track?;
    var u :| 0 <= u < k && s[..k][u].Metatext?;
    assert s[t] == s[..k][t] && s[u] == s[..k][u];
    HasTrackSome(s);
    HasMetatextSome(s);
  }

  /** The calls of a run split at any point. */
  lemma {:induction false} ReceiverCallsSplit(s: seq<Incoming>, k: nat)
    requires k <= |s|
    ensures ReceiverCalls(s[..k]) + ReceiverCalls(s[k..]) == ReceiverCalls(s)
    decreases |s|
  {
    if k < |s| {
      var init := s[..|s| - 1];
      ReceiverCallsSplit(init, k);
      assert init[..k] == s[..k];
      assert s[k..][..|s[k..]| - 1] == init[k..];
      assert s[k..][|s[k..]| - 1] == s[|s| - 1];
    } else {
      assert s[..k] == s;
    }
  }

  /** The calls of the join phase followed by those of the listen phase
      are the calls of the whole run. */
  lemma PhasesCalls(c0: seq<ReceiverCall>, s: seq<Incoming>, k: nat)
    requires k <= |s|
    ensures (c0 + ReceiverCalls(s[..k])) + ReceiverCalls(s[k..]) == c0 + ReceiverCalls(s)
  {
    ReceiverCallsSplit(s, k);
  }

  // ---------------------------------------------------------------------
  // OhmProtocolUnicast

  class Unicast {
    var iface: U32
    var ttl: U32
    /** The sender's endpoint. */
    var endpoint: Endpoint
    var leaving: bool
    /** The socket is open (between OpenUnicast and Close). */
    var open: bool
    /** ReadInterrupt has been called on the read buffer. */
    var interrupted: bool
    const slaveList: array<Endpoint>
    var slaveCount: nat
    var sent: seq<Datagram>
    var calls: seq<ReceiverCall>
    var timers: seq<TimerCall>

    ghost predicate Valid()
      reads this`slaveCount
    {
      slaveCount <= slaveList.Length == MaxSlaveCount
    }

    /** The slaves audio, track and metatext are relayed to. */
    ghost function Slaves(): seq<Endpoint>
      reads this`slaveCount, slaveList
      requires Valid()
    {
      slaveList[..slaveCount]
    }

    constructor (initialIface: U32, initialTtl: U32)
      ensures Valid() && fresh(slaveList) && Slaves() == []
      ensures iface == initialIface && ttl == initialTtl
      ensures !leaving && !open && !interrupted && sent == [] && calls == [] && timers == []
    {
      iface, ttl := initialIface, initialTtl;
      endpoint := Endpoint(0, 0);
      leaving, open, interrupted := false, false, false;
      slaveList := new Endpoint[MaxSlaveCount](_ => Endpoint(0, 0));
      slaveCount := 0;
      sent, calls, timers := [], [], [];
    }

    method SetInterface(value: U32)
      modifies this`iface
      ensures iface == value
    {
      iface := value;
    }

    method SetTtl(value: U32)
      modifies this`ttl
      ensures ttl == value
    {
      ttl := value;
    }

    method SendJoin()
      modifies this`sent, this`timers
      ensures sent == old(sent) + [Datagram(endpoint, JoinOut)]
      ensures timers == old(timers) + [FireIn(JoinTimeout)]
    {
      sent := sent + [Datagram(endpoint, JoinOut)];
      timers := timers + [FireIn(JoinTimeout)];
    }

    method SendListen()
      modifies this`sent, this`timers
      ensures sent == old(sent) + [Datagram(endpoint, ListenOut)]
      ensures timers == old(timers) + [FireIn(ListenPrimary)]
    {
      sent := sent + [Datagram(endpoint, ListenOut)];
      timers := timers + [FireIn(ListenPrimary)];
    }

    method SendLeave()
      modifies this`sent
      ensures sent == old(sent) + [Datagram(endpoint, LeaveOut)]
    {
      sent := sent + [Datagram(endpoint, LeaveOut)];
    }

    /** The relay loop: one copy of the message to each slave in turn. */
    method Forward(m: Outgoing)
      requires Valid()
      modifies this`sent
      ensures sent == old(sent) + Forwarded(Slaves(), m)
    {
      var i := 0;
      while i < slaveCount
        invariant i <= slaveCount
        invariant sent == old(sent) + Forwarded(slaveList[..i], m)
      {
        assert slaveList[..i + 1][..i] == slaveList[..i];
        sent := sent + [Datagram(slaveList[i], m)];
        i := i + 1;
      }
      assert slaveList[..i] == Slaves();
    }

    /** HandleAudio: the audio is relayed to the slaves, if there are any,
        and added to the receiver; a Resend for what the receiver missed
        goes to the sender. */
    method HandleAudio(audio: seq<Byte>, missed: seq<Byte>)
      requires Valid()
      modifies this`sent, this`calls
      ensures sent == old(sent) + Forwarded(Slaves(), AudioOut(audio)) + ResendFor(endpoint, missed)
      ensures calls == old(calls) + [Add(audio)]
    {
      if slaveCount > 0 {
        Forward(AudioOut(audio));
      }
      calls := calls + [Add(audio)];
      if |missed| > 0 {
        sent := sent + [Datagram(endpoint, ResendOut(|missed| / 4, missed))];
      }
    }

    /** HandleTrack: the receiver takes the track, which is relayed to the
        slaves. */
    method HandleTrack(sequence: U32, uri: seq<Byte>, metadata: seq<Byte>)
      requires Valid()
      modifies this`sent, this`calls
      ensures calls == old(calls) + [SetTrack(sequence, uri, metadata)]
      ensures sent == old(sent) + Forwarded(Slaves(), TrackOut(sequence, uri, metadata))
    {
      calls := calls + [SetTrack(sequence, uri, metadata)];
      if slaveCount > 0 {
        Forward(TrackOut(sequence, uri, metadata));
      }
    }

    /** HandleMetatext: the receiver takes the metatext, which is relayed
        to the slaves. */
    method HandleMetatext(text: seq<Byte>)
      requires Valid()
      modifies this`sent, this`calls
      ensures calls == old(calls) + [SetMetatext(text)]
      ensures sent == old(sent) + Forwarded(Slaves(), MetatextOut(text))
    {
      calls := calls + [SetMetatext(text)];
      if slaveCount > 0 {
        Forward(MetatextOut(text));
      }
    }

    /** HandleSlave: the slave list becomes the Slave datagram's entries,
        kept to the kMaxSlaveCount slots there are. */
    method HandleSlave(entries: seq<Endpoint>)
      requires Valid()
      modifies this`slaveCount, slaveList
      ensures Valid() && Slaves() == Clamp(entries)
    {
      var count := if |entries| <= MaxSlaveCount then |entries| else MaxSlaveCount;
      slaveCount := count;
      var i := 0;
      while i < count
        invariant i <= count == slaveCount && Valid()
        invariant slaveList[..i] == entries[..i]
      {
        slaveList[i] := entries[i];
        i := i + 1;
      }
      assert slaveList[..i] == Slaves();
    }

    /** One datagram of Play's loops. While joining, Join, Listen, Leave
        and Resend are ignored and a Slave list is taken; while listening,
        a Listen from another receiver re-arms the listen timer and Join,
        Leave, Slave and Resend are ignored. Audio, Track and Metatext are
        handled in both phases. */
    method Receive(m: Incoming, listening: bool)
      requires Valid()
      modifies this`sent, this`calls, this`timers, this`slaveCount, slaveList
      ensures Valid()
      ensures calls == old(calls) + CallsOf(m)
      ensures timers == old(timers) + (if listening && m.Listen? then [FireIn(ListenSecondary)] else [])
      ensures Slaves() == if !listening && m.Slave? then Clamp(m.slaves) else old(Slaves())
      ensures sent == old(sent) + match m
        case Audio(audio, missed) => Forwarded(old(Slaves()), AudioOut(audio)) + ResendFor(endpoint, missed)
        case Track(sequence, uri, metadata) => Forwarded(old(Slaves()), TrackOut(sequence, uri, metadata))
        case Metatext(text) => Forwarded(old(Slaves()), MetatextOut(text))
        case _ => []
    {
      match m {
        case Audio(audio, missed) => HandleAudio(audio, missed);
        case Track(sequence, uri, metadata) => HandleTrack(sequence, uri, metadata);
        case Metatext(text) => HandleMetatext(text);
        case Slave(entries) =>
          if !listening {
            HandleSlave(entries);
          }
        case Listen =>
          if listening {
            timers := timers + [FireIn(ListenSecondary)];
          }
        case _ =>
      }
    }

    /** Play's first phase: datagrams are taken until both a Track and a
        Metatext have arrived, or until the read is interrupted. */
    method JoinPhase(incoming: seq<Incoming>) returns (joined: bool, joinEnd: nat)
      requires Valid() && slaveCount == 0
      modifies this`sent, this`calls, this`timers, this`slaveCount, slaveList
      ensures Valid() && joinEnd <= |incoming|
      ensures joined == Joined(incoming[..joinEnd])
      ensures joined ==> 0 < joinEnd && !Joined(incoming[..joinEnd - 1])
      ensures !joined ==> joinEnd == |incoming|
      ensures calls == old(calls) + ReceiverCalls(incoming[..joinEnd])
      ensures Slaves() == LastSlaves(incoming[..joinEnd])
      ensures old(sent) <= sent && old(timers) <= timers
    {
      var receivedTrack, receivedMetatext := false, false;
      joined, joinEnd := false, 0;
      while !joined && joinEnd < |incoming|
        invariant Valid() && joinEnd <= |incoming|
        invariant receivedTrack == HasTrack(incoming[..joinEnd])
        invariant receivedMetatext == HasMetatext(incoming[..joinEnd])
        invariant joined == (receivedTrack && receivedMetatext)
        invariant 0 < joinEnd ==> !Joined(incoming[..joinEnd - 1])
        invariant calls == old(calls) + ReceiverCalls(incoming[..joinEnd])
        invariant Slaves() == LastSlaves(incoming[..joinEnd])
        invariant old(sent) <= sent && old(timers) <= timers
      {
        var m := incoming[joinEnd];
        PrefixStep(incoming, joinEnd);
        Receive(m, false);
        if m.Track? {
          receivedTrack := true;
          joined := receivedMetatext;
        } else if m.Metatext? {
          receivedMetatext := true;
          joined := receivedTrack;
        }
        joinEnd := joinEnd + 1;
      }
    }

    /** Play's second phase: every remaining datagram is taken. */
    method ListenPhase(incoming: seq<Incoming>, from: nat)
      requires Valid() && from <= |incoming|
      modifies this`sent, this`calls, this`timers, this`slaveCount, slaveList
      ensures Valid() && Slaves() == old(Slaves())
      ensures calls == old(calls) + ReceiverCalls(incoming[from..])
      ensures timers == old(timers) + Rearms(incoming[from..])
      ensures old(sent) <= sent
    {
      var rest := incoming[from..];
      var i := 0;
      while i < |rest|
        invariant Valid() && i <= |rest| && Slaves() == old(Slaves())
        invariant calls == old(calls) + ReceiverCalls(rest[..i])
        invariant timers == old(timers) + Rearms(rest[..i])
        invariant old(sent) <= sent
      {
        PrefixStep(rest, i);
        Receive(rest[i], true);
        i := i + 1;
      }
      assert rest[..i] == rest;
    }

    /** The two phases of Play's read loop, run until the read is
        interrupted. */
    method Phases(incoming: seq<Incoming>) returns (joined: bool, joinEnd: nat)
      requires Valid() && slaveCount == 0
      modifies this`sent, this`calls, this`timers, this`slaveCount, slaveList
      ensures Valid()
      ensures joined <==> Joined(incoming)
      ensures joinEnd <= |incoming| && (!joined ==> joinEnd == |incoming|)
      ensures joined ==> 0 < joinEnd && Joined(incoming[..joinEnd]) && !Joined(incoming[..joinEnd - 1])
      ensures calls == old(calls) + ReceiverCalls(incoming)
      ensures Slaves() == LastSlaves(incoming[..joinEnd])
      ensures old(sent) <= sent && old(timers) <= timers
    {
      ghost var c0 := calls;
      joined, joinEnd := JoinPhase(incoming);
      if joined {
        JoinedExtends(incoming, joinEnd);
        timers := timers + [Cancel(JoinTimer), FireIn(ListenPrimary)];
        ListenPhase(incoming, joinEnd);
        PhasesCalls(c0, incoming, joinEnd);
      } else {
        assert incoming[..joinEnd] == incoming;
      }
    }

    /** Play: leaving and the slave list are cleared, the socket opens, a
        Join goes to the sender, and the two phases run until the read is
        interrupted; then every timer is cancelled and the socket closed. */
    method Play(e: Endpoint, incoming: seq<Incoming>) returns (joined: bool, joinEnd: nat)
      requires Valid()
      modifies this`leaving, this`slaveCount, this`endpoint, this`open, this`sent, this`calls, this`timers, slaveList
      ensures Valid() && !leaving && !open && endpoint == e
      ensures joined <==> Joined(incoming)
      ensures joinEnd <= |incoming| && (!joined ==> joinEnd == |incoming|)
      ensures joined ==> 0 < joinEnd && Joined(incoming[..joinEnd]) && !Joined(incoming[..joinEnd - 1])
      ensures calls == old(calls) + ReceiverCalls(incoming)
      ensures Slaves() == LastSlaves(incoming[..joinEnd])
      ensures |sent| > |old(sent)| && sent[|old(sent)|] == Datagram(e, JoinOut)
      ensures |timers| > |old(timers)| + 3 && timers[|old(timers)|] == FireIn(JoinTimeout)
      ensures timers[|timers| - 3..] == [Cancel(JoinTimer), Cancel(ListenTimer), Cancel(LeaveTimer)]
    {
      leaving, slaveCount, endpoint, open := false, 0, e, true;
      sent := sent + [Datagram(e, JoinOut)];
      timers := timers + [FireIn(JoinTimeout)];
      ghost var sent1, timers1 := sent, timers;
      joined, joinEnd := Phases(incoming);
      assert sent1 <= sent && timers1 <= timers;
      leaving, open := false, false;
      timers := timers + [Cancel(JoinTimer), Cancel(ListenTimer), Cancel(LeaveTimer)];
    }

    /** Stop: leaving is set and the leave timer armed; nothing is sent
        yet. */
    method Stop()
      modifies this`leaving, this`timers
      ensures leaving && timers == old(timers) + [FireIn(LeaveTimeout)]
    {
      leaving := true;
      timers := timers + [FireIn(LeaveTimeout)];
    }

    /** The leave timer: a Leave goes out and the read is interrupted only
        if leaving is still set. */
    method TimerLeaveExpired()
      modifies this`sent, this`interrupted
      ensures sent == old(sent) + (if leaving then [Datagram(endpoint, LeaveOut)] else [])
      ensures interrupted == (old(interrupted) || leaving)
    {
      if leaving {
        SendLeave();
        interrupted := true;
      }
    }

    method EmergencyStop()
      modifies this`sent, this`interrupted
      ensures sent == old(sent) + [Datagram(endpoint, LeaveOut)] && interrupted
    {
      SendLeave();
      interrupted := true;
    }
  }

  // ---------------------------------------------------------------------
  // HandleSlave as written

  /** The slots OhmProtocolUnicast::HandleSlave writes for a Slave datagram
      with count entries: one per entry, whatever the count. */
  function SlotsWrittenAsWritten(count: nat): (slots: seq<nat>)
    ensures |slots| == count && forall k :: 0 <= k < count ==> slots[k] == k
  {
    seq(count, k requires 0 <= k < count => k)
  }

  /** A Slave datagram with five entries makes HandleSlave write a fifth
      slot, past the end of the kMaxSlaveCount-slot list. */
  lemma SlaveOverflowAsWritten()
    ensures exists k :: 0 <= k < |SlotsWrittenAsWritten(5)| && SlotsWrittenAsWritten(5)[k] >= MaxSlaveCount
  {
    assert SlotsWrittenAsWritten(5)[4] == 4;
  }

  /** Kept to the slots there are, every entry taken is one the sender
      listed, in the sender's order. */
  lemma ClampKeepsOrder(entries: seq<Endpoint>)
    ensures |Clamp(entries)| == if |entries| <= MaxSlaveCount then |entries| else MaxSlaveCount
    ensures forall k :: 0 <= k < |Clamp(entries)| ==> Clamp(entries)[k] == entries[k]
  {
  }

  // ---------------------------------------------------------------------
  // OhmProtocolMulticast

  class Multicast {
    var iface: U32
    var ttl: U32
    /** The channel's multicast endpoint. */
    var endpoint: Endpoint
    var open: bool
    var interrupted: bool
    var sent: seq<Datagram>
    var calls: seq<ReceiverCall>
    var timers: seq<TimerCall>

    constructor (initialIface: U32, initialTtl: U32)
      ensures iface == initialIface && ttl == initialTtl
      ensures !open && !interrupted && sent == [] && calls == [] && timers == []
    {
      iface, ttl := initialIface, initialTtl;
      endpoint := Endpoint(0, 0);
      open, interrupted := false, false;
      sent, calls, timers := [], [], [];
    }

    method SetInterface(value: U32)
      modifies this`iface
      ensures iface == value
    {
      iface := value;
    }

    method SetTtl(value: U32)
      modifies this`ttl
      ensures ttl == value
    {
      ttl := value;
    }

    method SendJoin()
      modifies this`sent, this`timers
      ensures sent == old(sent) + [Datagram(endpoint, JoinOut)]
      ensures timers == old(timers) + [FireIn(JoinTimeout)]
    {
      sent := sent + [Datagram(endpoint, JoinOut)];
      timers := timers + [FireIn(JoinTimeout)];
    }

    method SendListen()
      modifies this`sent, this`timers
      ensures sent == old(sent) + [Datagram(endpoint, ListenOut)]
      ensures timers == old(timers) + [FireIn(ListenPrimary)]
    {
      sent := sent + [Datagram(endpoint, ListenOut)];
      timers := timers + [FireIn(ListenPrimary)];
    }

    /** HandleAudio: the audio is added to the receiver and a Resend for
        what it missed goes to the channel. */
    method HandleAudio(audio: seq<Byte>, missed: seq<Byte>)
      modifies this`sent, this`calls
      ensures calls == old(calls) + [Add(audio)]
      ensures sent == old(sent) + ResendFor(endpoint, missed)
    {
      calls := calls + [Add(audio)];
      if |missed| > 0 {
        sent := sent + [Datagram(endpoint, ResendOut(|missed| / 4, missed))];
      }
    }

    /** One datagram of Play's loops. While joining, Join, Listen, Leave,
        Slave and Resend are ignored; while listening, a Listen from
        another receiver re-arms the listen timer with the secondary delay.
        Audio, Track and Metatext go to the receiver in both phases. */
    method Receive(m: Incoming, listening: bool)
      modifies this`sent, this`calls, this`timers
      ensures calls == old(calls) + CallsOf(m)
      ensures timers == old(timers) + (if listening && m.Listen? then [FireIn(ListenSecondary)] else [])
      ensures sent == old(sent) + (if m.Audio? then ResendFor(endpoint, m.missed) else [])
    {
      match m {
        case Audio(audio, missed) => HandleAudio(audio, missed);
        case Track(sequence, uri, metadata) => calls := calls + [SetTrack(sequence, uri, metadata)];
        case Metatext(text) => calls := calls + [SetMetatext(text)];
        case Listen =>
          if listening {
            timers := timers + [FireIn(ListenSecondary)];
          }
        case _ =>
      }
    }

    /** Play's first phase, as for unicast. */
    method JoinPhase(incoming: seq<Incoming>) returns (joined: bool, joinEnd: nat)
      modifies this`sent, this`calls, this`timers
      ensures joinEnd <= |incoming|
      ensures joined == Joined(incoming[..joinEnd])
      ensures joined ==> 0 < joinEnd && !Joined(incoming[..joinEnd - 1])
      ensures !joined ==> joinEnd == |incoming|
      ensures calls == old(calls) + ReceiverCalls(incoming[..joinEnd])
      ensures old(sent) <= sent && timers == old(timers)
    {
      var receivedTrack, receivedMetatext := false, false;
      joined, joinEnd := false, 0;
      while !joined && joinEnd < |incoming|
        invariant joinEnd <= |incoming|
        invariant receivedTrack == HasTrack(incoming[..joinEnd])
        invariant receivedMetatext == HasMetatext(incoming[..joinEnd])
        invariant joined == (receivedTrack && receivedMetatext)
        invariant 0 < joinEnd ==> !Joined(incoming[..joinEnd - 1])
        invariant calls == old(calls) + ReceiverCalls(incoming[..joinEnd])
        invariant old(sent) <= sent && timers == old(timers)
      {
        var m := incoming[joinEnd];
        PrefixStep(incoming, joinEnd);
        Receive(m, false);
        if m.Track? {
          receivedTrack := true;
          joined := receivedMetatext;
        } else if m.Metatext? {
          receivedMetatext := true;
          joined := receivedTrack;
        }
        joinEnd := joinEnd + 1;
      }
    }

    /** Play's second phase: every remaining datagram is taken. */
    method ListenPhase(incoming: seq<Incoming>, from: nat)
      requires from <= |incoming|
      modifies this`sent, this`calls, this`timers
      ensures calls == old(calls) + ReceiverCalls(incoming[from..])
      ensures timers == old(timers) + Rearms(incoming[from..])
      ensures old(sent) <= sent
    {
      var rest := incoming[from..];
      var i := 0;
      while i < |rest|
        invariant i <= |rest|
        invariant calls == old(calls) + ReceiverCalls(rest[..i])
        invariant timers == old(timers) + Rearms(rest[..i])
        invariant old(sent) <= sent
      {
        PrefixStep(rest, i);
        Receive(rest[i], true);
        i := i + 1;
      }
      assert rest[..i] == rest;
    }

    /** The two phases of Play's read loop, run until the read is
        interrupted. */
    method Phases(incoming: seq<Incoming>) returns (joined: bool, joinEnd: nat)
      modifies this`sent, this`calls, this`timers
      ensures joined <==> Joined(incoming)
      ensures joinEnd <= |incoming| && (!joined ==> joinEnd == |incoming|)
      ensures joined ==> 0 < joinEnd && Joined(incoming[..joinEnd]) && !Joined(incoming[..joinEnd - 1])
      ensures calls == old(calls) + ReceiverCalls(incoming)
      ensures old(sent) <= sent
      ensures timers == old(timers)
        + if joined then [Cancel(JoinTimer), FireIn(ListenPrimary)] + Rearms(incoming[joinEnd..]) else []
    {
      ghost var c0 := calls;
      joined, joinEnd := JoinPhase(incoming);
      if joined {
        JoinedExtends(incoming, joinEnd);
        ghost var t0 := timers;
        timers := timers + [Cancel(JoinTimer), FireIn(ListenPrimary)];
        ListenPhase(incoming, joinEnd);
        PhasesCalls(c0, incoming, joinEnd);
        assert timers == t0 + ([Cancel(JoinTimer), FireIn(ListenPrimary)] + Rearms(incoming[joinEnd..]));
      } else {
        assert incoming[..joinEnd] == incoming;
      }
    }

    /** Play: the socket joins the channel, a Join goes out, and the two
        phases run until the read is interrupted; then the timers are
        cancelled and the socket closed. */
    method Play(e: Endpoint, incoming: seq<Incoming>) returns (joined: bool, joinEnd: nat)
      modifies this`endpoint, this`open, this`sent, this`calls, this`timers
      ensures !open && endpoint == e
      ensures joined <==> Joined(incoming)
      ensures joinEnd <= |incoming| && (!joined ==> joinEnd == |incoming|)
      ensures joined ==> 0 < joinEnd && Joined(incoming[..joinEnd]) && !Joined(incoming[..joinEnd - 1])
      ensures calls == old(calls) + ReceiverCalls(incoming)
      ensures |sent| > |old(sent)| && sent[|old(sent)|] == Datagram(e, JoinOut)
      ensures timers == old(timers) + [FireIn(JoinTimeout)]
        + (if joined then [Cancel(JoinTimer), FireIn(ListenPrimary)] + Rearms(incoming[joinEnd..]) else [])
        + [Cancel(JoinTimer), Cancel(ListenTimer)]
    {
      endpoint, open := e, true;
      sent := sent + [Datagram(e, JoinOut)];
      timers := timers + [FireIn(JoinTimeout)];
      ghost var sent1 := sent;
      joined, joinEnd := Phases(incoming);
      assert sent1 <= sent;
      timers := timers + [Cancel(JoinTimer), Cancel(ListenTimer)];
      open := false;
    }

    /** Stop interrupts the read at once; there is no leave handshake. */
    method Stop()
      modifies this`interrupted
      ensures interrupted
    {
      interrupted := true;
    }
  }
}
