// The kernel network helpers of the two Windows drivers: CWinsock's
// sockaddr encoding (the same text in ohSongcast and ohSongcaster) and, for
// ohSongcaster, the chain of completion routines that sets up the Ohm socket
// and raises its initialised flag. The WSK calls themselves are inputs: each
// completion routine is told whether its request succeeded.
module Network {
  import opened Arch

  const AfInet: bv16 := 2

  /** SOCKADDR_IN: family, port (USHORT), the four address bytes s_b1..s_b4
      and the eight sin_zero bytes. */
  datatype SockAddrIn = SockAddrIn(family: bv16, port: bv16, addr: seq<bv8>, zero: seq<bv8>)

  /** CWinsock::Initialise(aSocket, aAddress, aPort): the fields written one
      by one into the caller's sockaddr, returned here as a value. */
  function Initialise(address: bv32, port: bv32): (a: SockAddrIn)
    ensures a.family == AfInet
    ensures a.port == BigEndian2((port & 0xffff) as bv16)
    ensures |a.addr| == 4
    ensures a.addr[0] as bv32 == Byte32(address, 3) && a.addr[1] as bv32 == Byte32(address, 2)
    ensures a.addr[2] as bv32 == Byte32(address, 1) && a.addr[3] as bv32 == Byte32(address, 0)
    ensures a.zero == [0, 0, 0, 0, 0, 0, 0, 0]
  {
    SockAddrIn(AfInet, (((port >> 8) & 0x00ff) + ((port << 8) & 0xff00)) as bv16,
               [((address >> 24) & 0xff) as bv8, ((address >> 16) & 0xff) as bv8,
                ((address >> 8) & 0xff) as bv8, (address & 0xff) as bv8],
               [0, 0, 0, 0, 0, 0, 0, 0])
  }

  /** CWinsock::Initialise(aSocket): the wildcard address and port. */
  function InitialiseAny(): SockAddrIn
  {
    Initialise(0, 0)
  }

  /** The sixteen bytes of a SOCKADDR_IN as a little-endian host lays them
      out: family and port least significant byte first, then the address
      bytes and sin_zero. */
  function Image(a: SockAddrIn): (s: seq<bv8>)
    ensures |s| == 4 + |a.addr| + |a.zero|
  {
    [(a.family & 0xff) as bv8, (a.family >> 8) as bv8, (a.port & 0xff) as bv8, (a.port >> 8) as bv8]
    + a.addr + a.zero
  }

  /** Swapping the port on a little-endian host puts it on the wire most
      significant byte first, the network order the socket layer expects;
      the address is written in network order too. */
  lemma InitialiseNetworkOrder(address: bv32, port: bv32)
    ensures var s := Image(Initialise(address, port));
      |s| == 16 && s[0] == 2 && s[1] == 0
      && s[2] == ((port >> 8) & 0xff) as bv8 && s[3] == (port & 0xff) as bv8
      && s[4] == (address >> 24) as bv8 && s[5] == ((address >> 16) & 0xff) as bv8
      && s[6] == ((address >> 8) & 0xff) as bv8 && s[7] == (address & 0xff) as bv8
      && s[8..] == [0, 0, 0, 0, 0, 0, 0, 0]
  {
    var a := Initialise(address, port);
    assert a.port & 0xff == ((port >> 8) & 0xff) as bv16;
    assert a.port >> 8 == (port & 0xff) as bv16;
  }

  /** The wildcard sockaddr is AF_INET followed by fourteen zero bytes. */
  lemma InitialiseAnyImage()
    ensures Image(InitialiseAny()) == [2, 0, 0, 0, 0, 0, 0, 0, 0, 0, 0, 0, 0, 0, 0, 0]
  {
    InitialiseNetworkOrder(0, 0);
  }

  /** Only the low 16 bits of aPort reach sin_port. */
  lemma InitialisePortTruncates(address: bv32, port: bv32)
    ensures Initialise(address, port) == Initialise(address, port & 0xffff)
  {
  }

  // ---------------------------------------------------------------------
  // CSocketOhm set-up (ohSongcaster)

  /** Where the socket's set-up chain stands: the socket is being created,
      bound, given its multicast TTL, finished (with or without success), or
      abandoned after a failed create or bind, whose IRP is freed without
      running the callback. */
  datatype Stage = Idle | Creating | Binding | SettingTtl | Completed(ok: bool) | Abandoned

  datatype NtStatus = Success | Pending | InsufficientResources | Failure

  class SocketOhm {
    var initialised: bool
    var stage: Stage
    /** How many times the caller's NETWORK_CALLBACK has run. */
    var callbacks: nat
    /** The address handed to WskBind, once CreateComplete has bound. */
    var bindAddress: seq<bv8>
    /** The IP_MULTICAST_TTL value requested by BindComplete. */
    var ttl: nat

    /** The flag is raised only by a fully successful chain, and the
        callback runs exactly once, when the chain reaches its last
        completion routine. */
    ghost predicate Valid()
      reads this
    {
      (initialised <==> stage == Completed(true))
      && callbacks == (if stage.Completed? then 1 else 0)
      && (stage in {Idle, Creating, Abandoned} || bindAddress == Image(InitialiseAny()))
      && (stage.SettingTtl? || stage.Completed? ==> ttl == 4)
    }

    /** CSocketOhm(): not initialised. */
    constructor ()
      ensures Valid() && stage == Idle && !initialised && callbacks == 0
    {
      initialised := false;
      stage := Idle;
      callbacks := 0;
      bindAddress := [];
      ttl := 0;
    }

    /** Initialise: without an IRP the call fails at once; otherwise socket
        creation is started and its status (an input) returned. */
    method Initialise(irpAvailable: bool, wskStatus: NtStatus) returns (status: NtStatus)
      requires Valid() && stage == Idle
      modifies this`stage
      ensures Valid()
      ensures status == (if irpAvailable then wskStatus else InsufficientResources)
      ensures stage == (if irpAvailable then Creating else Idle)
    {
      if !irpAvailable {
        return InsufficientResources;
      }
      stage := Creating;
      status := wskStatus;
    }

    /** CreateComplete: on success the socket is bound to the wildcard
        address; on failure the IRP is freed and nothing else happens. */
    method CreateComplete(ok: bool)
      requires Valid() && stage == Creating
      modifies this`stage, this`bindAddress
      ensures Valid()
      ensures stage == (if ok then Binding else Abandoned)
      ensures ok ==> bindAddress == Image(InitialiseAny())
    {
      if ok {
        bindAddress := Image(InitialiseAny());
        stage := Binding;
      } else {
        stage := Abandoned;
      }
    }

    /** BindComplete: on success the multicast TTL 4 is requested; on
        failure the IRP is freed. */
    method BindComplete(ok: bool)
      requires Valid() && stage == Binding
      modifies this`stage, this`ttl
      ensures Valid()
      ensures stage == (if ok then SettingTtl else Abandoned)
    {
      if ok {
        ttl := 4;
        stage := SettingTtl;
      } else {
        stage := Abandoned;
      }
    }

    /** InitialiseComplete: the flag is raised on success, and the
        callback runs either way. */
    method InitialiseComplete(ok: bool)
      requires Valid() && stage == SettingTtl
      modifies this`initialised, this`callbacks, this`stage
      ensures Valid()
      ensures initialised == ok && callbacks == 1 && stage == Completed(ok)
    {
      if ok {
        initialised := true;
      }
      callbacks := callbacks + 1;
      stage := Completed(ok);
    }

    /** Initialised(): the flag, read under the spin lock. */
    method Initialised() returns (r: bool)
      requires Valid()
      ensures r <==> stage == Completed(true)
    {
      r := initialised;
    }
  }
}
