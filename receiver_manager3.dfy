// ReceiverManager3 (ohSongcast/ReceiverManager3.cpp): the connection status
// of each receiver of the house with respect to this sender, and the
// receiver objects that report it. A ReceiverManager2Receiver is seen
// through a Peer value: whether it is selected, the URI of the sender it
// plays from and its transport state.
module ReceiverManager3 {

  datatype Status = Disconnected | Connecting | Connected

  /** What the manager reads of a ReceiverManager2Receiver. */
  datatype Peer = Peer(selected: bool, senderUri: string, transportState: string)

  /** The calls the manager makes on a ReceiverManager2Receiver. */
  datatype PeerCall = SetSender(uri: string, metadata: string) | PlayCall | StopCall | StandbyCall

  /** The handler's callbacks for one receiver; a change carries the status
      the handler reads back. */
  datatype Report = ReceiverAdded(status: Status) | ReceiverChanged(status: Status) | ReceiverRemoved

  const Stopped: string := "Stopped"
  const Buffering: string := "Buffering"

  /** ReceiverManager3::Status: not ours unless selected and playing our
      URI; then stopped means disconnected and buffering means
      connecting. */
  function StatusOf(uri: string, p: Peer): (s: Status)
    ensures s == Disconnected <==> !p.selected || p.senderUri != uri || p.transportState == Stopped
    ensures s == Connecting <==> p.selected && p.senderUri == uri && p.transportState == Buffering
  {
    if !p.selected then Disconnected
    else if p.senderUri != uri then Disconnected
    else if p.transportState == Stopped then Disconnected
    else if p.transportState == Buffering then Connecting
    else Connected
  }

  /** The sender URI a receiver takes from a call, if the call sets one. */
  function SenderAfter(senderUri: string, calls: seq<PeerCall>): (u: string)
    ensures u == senderUri || exists k :: 0 <= k < |calls| && calls[k].SetSender? && calls[k].uri == u
    decreases |calls|
  {
    if |calls| == 0 then senderUri
    else if calls[|calls| - 1].SetSender? then calls[|calls| - 1].uri
    else SenderAfter(senderUri, calls[..|calls| - 1])
  }

  /** The manager: our URI and metadata, and a log of the calls it makes on
      the receivers. */
  class Manager {
    const uri: string
    var metadata: string
    var calls: seq<PeerCall>

    constructor (uri: string, metadata: string)
      ensures this.uri == uri && this.metadata == metadata && calls == []
    {
      this.uri, this.metadata, calls := uri, metadata, [];
    }

    method SetMetadata(metadata: string)
      modifies this`metadata
      ensures this.metadata == metadata
    {
      this.metadata := metadata;
    }

    /** Play: the receiver is first told our URI and metadata, then to
        play. */
    method Play()
      modifies this`calls
      ensures calls == old(calls) + [SetSender(uri, metadata), PlayCall]
    {
      calls := calls + [SetSender(uri, metadata), PlayCall];
    }

    method Stop()
      modifies this`calls
      ensures calls == old(calls) + [StopCall]
    {
      calls := calls + [StopCall];
    }

    method Standby()
      modifies this`calls
      ensures calls == old(calls) + [StandbyCall]
    {
      calls := calls + [StandbyCall];
    }
  }

  /** After Play, a receiver that took the calls plays from our URI, so it
      counts as connected once it is selected and playing. */
  lemma PlayConnects(uri: string, metadata: string, p: Peer, prior: seq<PeerCall>)
    requires p.selected && p.transportState != Stopped && p.transportState != Buffering
    ensures var calls := prior + [SetSender(uri, metadata), PlayCall];
      StatusOf(uri, p.(senderUri := SenderAfter(p.senderUri, calls))) == Connected
  {
    var calls := prior + [SetSender(uri, metadata), PlayCall];
    assert calls[..|calls| - 1] == prior + [SetSender(uri, metadata)];
  }

  /** A ReceiverManager3Receiver: its cached status, its reference count and
      the handler's reports about it. */
  class Receiver {
    var status: Status
    var refCount: nat
    var reports: seq<Report>

    /** A new receiver evaluates its status and is reported added, once. */
    constructor (uri: string, p: Peer)
      ensures status == StatusOf(uri, p) && refCount == 1
      ensures reports == [ReceiverAdded(status)]
    {
      var s := StatusOf(uri, p);
      status, refCount, reports := s, 1, [ReceiverAdded(s)];
    }

    /** Changed: the status is evaluated again and reported only when it
        differs from the cached one. */
    method Changed(uri: string, p: Peer)
      modifies this`status, this`reports
      ensures status == StatusOf(uri, p)
      ensures reports == old(reports) + (if old(status) != status then [ReceiverChanged(status)] else [])
    {
      var s := StatusOf(uri, p);
      if status != s {
        status := s;
        reports := reports + [ReceiverChanged(s)];
      }
    }

    method AddRef()
      modifies this`refCount
      ensures refCount == old(refCount) + 1
    {
      refCount := refCount + 1;
    }

    /** Drops a reference; the receiver is deleted when none is left. */
    method RemoveRef() returns (deleted: bool)
      requires refCount > 0
      modifies this`refCount
      ensures refCount == old(refCount) - 1 && deleted == (refCount == 0)
    {
      refCount := refCount - 1;
      deleted := refCount == 0;
    }

    /** Removed: reported removed, then one reference dropped. */
    method Removed() returns (deleted: bool)
      requires refCount > 0
      modifies this`reports, this`refCount
      ensures reports == old(reports) + [ReceiverRemoved]
      ensures refCount == old(refCount) - 1 && deleted == (refCount == 0)
    {
      reports := reports + [ReceiverRemoved];
      deleted := RemoveRef();
    }
  }

  /** The statuses a receiver reports, in order, when its peer goes through
      the given states: Added with the first, then Changed only on each
      change. */
  function Reported(uri: string, first: Peer, later: seq<Peer>): (rs: seq<Report>)
    ensures |rs| >= 1 && rs[0] == ReceiverAdded(StatusOf(uri, first))
    ensures forall k :: 1 <= k < |rs| ==> rs[k].ReceiverChanged?
    decreases |later|
  {
    if |later| == 0 then [ReceiverAdded(StatusOf(uri, first))]
    else
      var init := Reported(uri, first, later[..|later| - 1]);
      var before := if |later| == 1 then first else later[|later| - 2];
      var now := StatusOf(uri, later[|later| - 1]);
      if StatusOf(uri, before) != now then init + [ReceiverChanged(now)] else init
  }

  /** Two reports in a row never carry the same status: a change is
      reported only when there is one. */
  lemma {:induction false} ReportedChanges(uri: string, first: Peer, later: seq<Peer>)
    ensures var rs := Reported(uri, first, later);
      forall k :: 1 <= k < |rs| ==> rs[k].status != rs[k - 1].status
    ensures Reported(uri, first, later)[|Reported(uri, first, later)| - 1].status
      == StatusOf(uri, if |later| == 0 then first else later[|later| - 1])
    decreases |later|
  {
    if |later| > 0 {
      ReportedChanges(uri, first, later[..|later| - 1]);
      var init := later[..|later| - 1];
      assert (if |init| == 0 then first else init[|init| - 1]) == (if |later| == 1 then first else later[|later| - 2]);
    }
  }

  /** ReceiverManager3::ReceiverAdded makes the receiver object for a new
      peer; ReceiverManager3::ReceiverChanged forwards each later change of
      the peer to it. The reports are those Reported lists. */
  method Follow(uri: string, first: Peer, later: seq<Peer>) returns (reports: seq<Report>)
    ensures reports == Reported(uri, first, later)
  {
    var r := new Receiver(uri, first);
    var i := 0;
    while i < |later|
      invariant i <= |later|
      invariant r.reports == Reported(uri, first, later[..i])
      invariant r.status == StatusOf(uri, if i == 0 then first else later[i - 1])
      modifies r
    {
      assert later[..i + 1][..i] == later[..i];
      r.Changed(uri, later[i]);
      i := i + 1;
    }
    assert later[..i] == later;
    reports := r.reports;
  }
}
