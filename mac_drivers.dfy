// The Mac user-space drivers (ohSongcast/Mac/SoundcardDriver.cpp,
// ohSongcaster/Mac/SoundcardDriver.cpp, ohSoundcard/Mac/SoundcardDriver.cpp):
// the names derived when the sender is created, and the settings the sender
// caches and hands to the kernel driver. The kernel driver is seen through
// the calls made on it; CoreAudio device switching is not modelled.
module MacDrivers {
  import opened Octets

  // ---------------------------------------------------------------------
  // Names

  /** The parts OhNet's Parser hands out for Next('.') until Finished: the
      text up to each separator; a trailing separator ends the text without
      an empty part. */
  function Parts(d: string, sep: char): (ps: seq<string>)
    ensures |d| == 0 <==> |ps| == 0
    decreases |d|
  {
    if |d| == 0 then []
    else
      var i := IndexOf(d, sep);
      [d[..i]] + (if i == |d| then [] else Parts(d[i + 1..], sep))
  }

  /** The position of the first sep in d, or |d| when there is none. */
  function IndexOf(d: string, sep: char): (i: nat)
    ensures i <= |d| && sep !in d[..i]
    ensures i < |d| ==> d[i] == sep
    decreases |d|
  {
    if |d| == 0 then 0
    else if d[0] == sep then 0
    else
      var k := 1 + IndexOf(d[1..], sep);
      assert d[..k] == [d[0]] + d[1..][..k - 1];
      k
  }

  /** The class name for the given domain parts: each part in turn is put
      in front of the name built so far, joined by '_'. */
  function ClassNameOf(parts: seq<string>, base: string): (n: string)
    ensures |n| >= |base| && n[|n| - |base|..] == base
    decreases |parts|
  {
    if |parts| == 0 then base
    else
      var rest := ClassNameOf(parts[..|parts| - 1], base);
      var n := parts[|parts| - 1] + "_" + rest;
      assert n[|n| - |base|..] == rest[|rest| - |base|..];
      n
  }

  function Reversed(parts: seq<string>): (r: seq<string>)
    ensures |r| == |parts| && forall k :: 0 <= k < |r| ==> r[k] == parts[|parts| - 1 - k]
  {
    if |parts| == 0 then [] else [parts[|parts| - 1]] + Reversed(parts[..|parts| - 1])
  }

  /** Where the parser resumes after the part that starts at pos. */
  function NextPos(domain: string, pos: nat): nat
    requires pos < |domain|
  {
    var i := IndexOf(domain[pos..], '.');
    if i == |domain| - pos then |domain| else pos + i + 1
  }

  /** One step of the parser: the part at pos, then the parts after it. */
  lemma PartsAt(domain: string, pos: nat)
    requires pos < |domain|
    ensures pos < NextPos(domain, pos) <= |domain|
    ensures Parts(domain[pos..], '.') == [domain[pos..][..IndexOf(domain[pos..], '.')]] + Parts(domain[NextPos(domain, pos)..], '.')
  {
    var rest := domain[pos..];
    var i := IndexOf(rest, '.');
    if i < |rest| {
      assert rest[i + 1..] == domain[pos + i + 1..];
    } else {
      assert domain[|domain|..] == [];
    }
  }

  lemma ClassNameSnoc(done: seq<string>, part: string, base: string)
    ensures ClassNameOf(done + [part], base) == part + "_" + ClassNameOf(done, base)
  {
    assert (done + [part])[..|done|] == done;
  }

  /** The loop's step: the parts seen so far, then the next one, then the
      parts still to come make up all the parts. */
  lemma PartsStep(domain: string, pos: nat, done: seq<string>)
    requires pos < |domain| && done + Parts(domain[pos..], '.') == Parts(domain, '.')
    ensures pos < NextPos(domain, pos) <= |domain|
    ensures (done + [domain[pos..][..IndexOf(domain[pos..], '.')]]) + Parts(domain[NextPos(domain, pos)..], '.') == Parts(domain, '.')
  {
    PartsAt(domain, pos);
  }

  /** The class name built by SongcastCreate and SongcasterCreate: the
      parser loop over the domain, starting from the base name. */
  method ClassName(domain: string, base: string) returns (name: string)
    ensures name == ClassNameOf(Parts(domain, '.'), base)
  {
    name := base;
    var pos := 0;
    ghost var done: seq<string> := [];
    assert domain[0..] == domain;
    while pos < |domain|
      invariant pos <= |domain|
      invariant done + Parts(domain[pos..], '.') == Parts(domain, '.')
      invariant name == ClassNameOf(done, base)
      decreases |domain| - pos
    {
      var part := domain[pos..][..IndexOf(domain[pos..], '.')];
      PartsStep(domain, pos, done);
      ClassNameSnoc(done, part, base);
      name := part + "_" + name;
      done := done + [part];
      pos := NextPos(domain, pos);
    }
    assert domain[pos..] == [];
    assert done + [] == done;
  }

  /** Splitting the class name at '_' gives back the domain parts, last
      first, then the base name, as long as neither holds a '_'. */
  lemma {:induction false} ClassNameSplits(parts: seq<string>, base: string)
    requires |base| > 0 && '_' !in base
    requires forall k :: 0 <= k < |parts| ==> '_' !in parts[k]
    ensures Parts(ClassNameOf(parts, base), '_') == Reversed(parts) + [base]
    decreases |parts|
  {
    if |parts| == 0 {
      IndexAbsent(base, '_');
      assert base[..|base|] == base;
    } else {
      var init := parts[..|parts| - 1];
      assert forall k :: 0 <= k < |init| ==> init[k] == parts[k];
      var p, rest := parts[|parts| - 1], ClassNameOf(init, base);
      ClassNameSplits(init, base);
      PartsJoin(p, rest, '_');
      assert "_" == ['_'];
      calc {
        Parts(ClassNameOf(parts, base), '_');
        Parts(p + ['_'] + rest, '_');
        [p] + Parts(rest, '_');
        [p] + (Reversed(init) + [base]);
        ([p] + Reversed(init)) + [base];
        { assert Reversed(parts) == [p] + Reversed(init); }
        Reversed(parts) + [base];
      }
    }
  }

  /** A part free of the separator, the separator and a nonempty rest
      split into that part and the rest's parts. */
  lemma PartsJoin(p: string, rest: string, sep: char)
    requires sep !in p && |rest| > 0
    ensures Parts(p + [sep] + rest, sep) == [p] + Parts(rest, sep)
  {
    var n := p + [sep] + rest;
    IndexAfter(p, rest, sep);
    assert n[..|p|] == p && n[|p| + 1..] == rest;
  }

  /** The domain "av.openhome.org" names the Songcast driver class
      "org_openhome_av_songcast". */
  lemma OpenHomeClassName()
    ensures ClassNameOf(["av", "openhome", "org"], "songcast") == "org_openhome_av_songcast"
  {
    OpenHomeAvName();
    ClassNameSnoc(["av", "openhome"], "org", "songcast");
    assert ["av", "openhome"] + ["org"] == ["av", "openhome", "org"];
  }

  lemma OpenHomeAvName()
    ensures ClassNameOf(["av", "openhome"], "songcast") == "openhome_av_songcast"
  {
    AvName();
    ClassNameSnoc(["av"], "openhome", "songcast");
    assert ["av"] + ["openhome"] == ["av", "openhome"];
  }

  lemma AvName()
    ensures ClassNameOf(["av"], "songcast") == "av_songcast"
  {
    ClassNameSnoc([], "av", "songcast");
    assert [] + ["av"] == ["av"];
  }

  lemma {:induction false} IndexAbsent(d: string, sep: char)
    requires sep !in d
    ensures IndexOf(d, sep) == |d|
    decreases |d|
  {
    if |d| > 0 {
      assert sep !in d[1..];
      IndexAbsent(d[1..], sep);
    }
  }

  lemma {:induction false} IndexAfter(p: string, rest: string, sep: char)
    requires sep !in p
    ensures IndexOf(p + [sep] + rest, sep) == |p|
    decreases |p|
  {
    if |p| > 0 {
      assert (p + [sep] + rest)[1..] == p[1..] + [sep] + rest;
      assert sep !in p[1..];
      IndexAfter(p[1..], rest, sep);
    }
  }

  const Local: string := ".local"

  /** ASCII lower case, as Ascii::CaseInsensitiveEquals compares. */
  function Lower(c: char): char
  {
    if 'A' <= c <= 'Z' then (c as int + 32) as char else c
  }

  predicate CaseInsensitiveEquals(a: string, b: string)
  {
    |a| == |b| && forall k :: 0 <= k < |a| ==> Lower(a[k]) == Lower(b[k])
  }

  /** The computer name with a trailing ".local", in any case, removed; a
      name no longer than ".local" is kept whole. */
  function StripLocal(name: string): (c: string)
    ensures c == name || (|name| > |Local| && c == name[..|name| - |Local|])
    ensures c != name <==> |name| > |Local| && CaseInsensitiveEquals(name[|name| - |Local|..], Local)
  {
    if |name| > |Local| && CaseInsensitiveEquals(name[|name| - |Local|..], Local) then name[..|name| - |Local|]
    else name
  }

  /** A host name that ends in ".local" loses exactly that suffix. */
  lemma StripLocalSuffix(computer: string, suffix: string)
    requires |computer| > 0 && CaseInsensitiveEquals(suffix, Local)
    ensures StripLocal(computer + suffix) == computer
  {
    var name := computer + suffix;
    assert name[|name| - |Local|..] == suffix;
    assert name[..|name| - |Local|] == computer;
  }

  // ---------------------------------------------------------------------
  // The driver of Songcast and Songcaster

  datatype Endpoint = Endpoint(address: U32, port: U16)

  /** The calls made through the IOKit connection to the kernel driver:
      the connection is opened and closed, and settings are handed over. */
  datatype DriverCall =
    | Open
    | Close
    | EndpointSet(endpoint: Endpoint, adapter: U32)
    | TtlSet(ttl: nat)
    | LatencySet(ms: nat)
    | ActiveSet(active: bool)
    | ResendSent(count: nat, frames: seq<Byte>)

  /** What the kernel driver has been told since its connection was last
      opened, one optional value per setting. */
  datatype Told = Told(endpoint: Option<(Endpoint, U32)>, ttl: Option<nat>, latency: Option<nat>, active: Option<bool>)

  datatype Option<T> = None | Some(value: T)

  const Untold := Told(None, None, None, None)

  function Apply(t: Told, c: DriverCall): Told
  {
    match c
    case Open => Untold
    case Close => Untold
    case EndpointSet(e, a) => t.(endpoint := Some((e, a)))
    case TtlSet(v) => t.(ttl := Some(v))
    case LatencySet(v) => t.(latency := Some(v))
    case ActiveSet(v) => t.(active := Some(v))
    case ResendSent(_, _) => t
  }

  /** The settings the kernel driver holds after the given calls. */
  function TellAll(calls: seq<DriverCall>): Told
  {
    if |calls| == 0 then Untold else Apply(TellAll(calls[..|calls| - 1]), calls[|calls| - 1])
  }

  lemma TellSnoc(calls: seq<DriverCall>, c: DriverCall)
    ensures TellAll(calls + [c]) == Apply(TellAll(calls), c)
  {
    assert (calls + [c])[..|calls|] == calls;
  }

  /** Opening the connection forgets whatever was told before. */
  lemma {:induction false} TellOpen(prior: seq<DriverCall>, r: seq<DriverCall>)
    ensures TellAll(prior + [Open] + r) == TellAll([Open] + r)
    decreases |r|
  {
    if |r| == 0 {
      TellSnoc(prior, Open);
      TellSnoc([], Open);
      assert [] + [Open] == [Open];
    } else {
      var init, last := r[..|r| - 1], r[|r| - 1];
      TellOpen(prior, init);
      assert prior + [Open] + r == (prior + [Open] + init) + [last];
      assert [Open] + r == ([Open] + init) + [last];
      TellSnoc(prior + [Open] + init, last);
      TellSnoc([Open] + init, last);
    }
  }

  lemma TellOpened()
    ensures TellAll([Open]) == Untold
  {
    TellSnoc([], Open);
    assert [] + [Open] == [Open];
  }

  /** Songcast's driver has an adapter, a latency and resends; Songcaster's
      has neither. */
  datatype Variant = SongcastMac | SongcasterMac

  /** The maximum size of the resend buffer (AudioDeviceInterface.h). */
  const ResendMaxBytes: nat := 1024

  /** OhmSenderDriverMac of Songcast and Songcaster: the cached settings,
      whether the IOKit service has been found, whether the internal
      Driver object exists, and the calls made on the kernel driver. */
  class SenderDriver {
    const variant: Variant
    var enabled: bool
    var endpoint: Endpoint
    var adapter: U32
    var active: bool
    var ttl: nat
    var latency: nat
    var service: bool
    var driverOpen: bool
    var calls: seq<DriverCall>

    /** The cached settings as the kernel driver should hold them. */
    function Cached(): Told
      reads this`endpoint, this`adapter, this`ttl, this`latency, this`active
    {
      var a: U32 := if variant == SongcastMac then adapter else 0;
      Told(Some((endpoint, a)), Some(ttl), if variant == SongcastMac then Some(latency) else None, Some(active))
    }

    /** While the internal Driver exists, the kernel driver holds every
        cached setting; it exists only once the service is found. */
    predicate Valid()
      reads this
    {
      (driverOpen ==> service && TellAll(calls) == Cached())
      && (variant == SongcasterMac ==> adapter == 0)
    }

    /** The constructor: disabled, inactive, ttl 4, latency 100 ms, no
        Driver; serviceFound says whether the service and the audio device
        were found at once. */
    constructor (variant: Variant, serviceFound: bool)
      ensures this.variant == variant && Valid()
      ensures !enabled && !active && ttl == 4 && latency == 100 && endpoint == Endpoint(0, 0) && adapter == 0
      ensures service == serviceFound && !driverOpen && calls == []
    {
      this.variant := variant;
      enabled, endpoint, adapter, active, ttl, latency := false, Endpoint(0, 0), 0, false, 4, 100;
      service, driverOpen, calls := serviceFound, false, [];
    }

    /** The calls that replay the cached settings to a new Driver. */
    function Replay(): (r: seq<DriverCall>)
      reads this`endpoint, this`adapter, this`ttl, this`latency, this`active
      ensures TellAll([Open] + r) == Cached()
    {
      var a: U32 := if variant == SongcastMac then adapter else 0;
      var e, t, l, v := EndpointSet(endpoint, a), TtlSet(ttl), LatencySet(latency), ActiveSet(active);
      TellOpened();
      TellSnoc([Open], e);
      TellSnoc([Open, e], t);
      assert [Open, e] + [t] == [Open, e, t] && [Open] + [e] == [Open, e];
      if variant == SongcastMac then
        TellSnoc([Open, e, t], l);
        TellSnoc([Open, e, t, l], v);
        assert [Open, e, t] + [l] == [Open, e, t, l] && [Open, e, t, l] + [v] == [Open] + [e, t, l, v];
        [e, t, l, v]
      else
        TellSnoc([Open, e, t], v);
        assert [Open, e, t] + [v] == [Open] + [e, t, v];
        [e, t, v]
    }

    /** SetEnabled: the value is recorded; without the service nothing
        else happens. Enabling replaces any Driver by a new one told every
        cached setting; disabling deactivates and drops the Driver. */
    method SetEnabled(value: bool)
      requires Valid()
      modifies this`enabled, this`driverOpen, this`calls
      ensures Valid() && enabled == value
      ensures !service ==> driverOpen == old(driverOpen) && calls == old(calls)
      ensures service ==> (driverOpen == value
        && calls == old(calls) + (if old(driverOpen) then [ActiveSet(false), Close] else [])
                               + (if value then [Open] + Replay() else []))
    {
      enabled := value;
      if !service {
        return;
      }
      var dropped := if driverOpen then [ActiveSet(false), Close] else [];
      var started := if value then [Open] + Replay() else [];
      if value {
        TellOpen(calls + dropped, Replay());
        assert calls + dropped + started == calls + dropped + [Open] + Replay();
      }
      calls := calls + dropped + started;
      driverOpen := value;
    }

    /** DriverFound: nothing once the service is known; otherwise, when
        the audio device is found now, the recorded enabled state is
        applied. */
    method DriverFound(deviceFound: bool)
      requires Valid()
      modifies this`service, this`enabled, this`driverOpen, this`calls
      ensures Valid() && enabled == old(enabled)
      ensures old(service) || !deviceFound ==> service == old(service) && driverOpen == old(driverOpen) && calls == old(calls)
      ensures !old(service) && deviceFound ==> service && driverOpen == enabled
    {
      if service || !deviceFound {
        return;
      }
      service := true;
      SetEnabled(enabled);
    }

    /** SetEndpoint: cached, and forwarded when the Driver exists. */
    method SetEndpoint(e: Endpoint, a: U32)
      requires Valid() && (variant == SongcasterMac ==> a == 0)
      modifies this`endpoint, this`adapter, this`calls
      ensures Valid() && endpoint == e && adapter == a
      ensures calls == old(calls) + (if driverOpen then [EndpointSet(e, a)] else [])
    {
      endpoint, adapter := e, a;
      if driverOpen {
        calls := calls + [EndpointSet(e, a)];
        TellSnoc(old(calls), EndpointSet(e, a));
      }
    }

    method SetActive(value: bool)
      requires Valid()
      modifies this`active, this`calls
      ensures Valid() && active == value
      ensures calls == old(calls) + (if driverOpen then [ActiveSet(value)] else [])
    {
      active := value;
      if driverOpen {
        calls := calls + [ActiveSet(value)];
        TellSnoc(old(calls), ActiveSet(value));
      }
    }

    method SetTtl(value: nat)
      requires Valid()
      modifies this`ttl, this`calls
      ensures Valid() && ttl == value
      ensures calls == old(calls) + (if driverOpen then [TtlSet(value)] else [])
    {
      ttl := value;
      if driverOpen {
        calls := calls + [TtlSet(value)];
        TellSnoc(old(calls), TtlSet(value));
      }
    }

    /** Songcast only. */
    method SetLatency(value: nat)
      requires Valid() && variant == SongcastMac
      modifies this`latency, this`calls
      ensures Valid() && latency == value
      ensures calls == old(calls) + (if driverOpen then [LatencySet(value)] else [])
    {
      latency := value;
      if driverOpen {
        calls := calls + [LatencySet(value)];
        TellSnoc(old(calls), LatencySet(value));
      }
    }

    /** Resend (Songcast only): forwarded when the Driver exists, as the
        first ResendMaxBytes bytes of the frame list and a count of whole
        4-byte frame numbers. */
    method Resend(frames: seq<Byte>)
      requires Valid() && variant == SongcastMac
      modifies this`calls
      ensures Valid()
      ensures calls == old(calls) + (if driverOpen then [ResendSent(ResendCount(frames), ResendBytes(frames))] else [])
    {
      if driverOpen {
        calls := calls + [ResendSent(ResendCount(frames), ResendBytes(frames))];
        TellSnoc(old(calls), ResendSent(ResendCount(frames), ResendBytes(frames)));
      }
    }
  }

  /** Driver::Resend copies at most ResendMaxBytes bytes of the frames. */
  function ResendBytes(frames: seq<Byte>): (b: seq<Byte>)
    ensures |b| <= ResendMaxBytes && |b| <= |frames| && b == frames[..|b|]
    ensures |frames| <= ResendMaxBytes ==> b == frames
  {
    if |frames| > ResendMaxBytes then frames[..ResendMaxBytes] else frames
  }

  /** The count passed with it: the whole 4-byte frame numbers copied. */
  function ResendCount(frames: seq<Byte>): (n: nat)
    ensures 4 * n <= |ResendBytes(frames)| < 4 * n + 4
    ensures n <= ResendMaxBytes / 4
  {
    |ResendBytes(frames)| / 4
  }

  // ---------------------------------------------------------------------
  // The driver of Soundcard

  /** The calls an enabling SetEnabled makes on the kernel driver as
      written: the replaying setters test the handle-open flag before it
      is set, so only the connection is started. */
  function EnableCallsAsWritten(endpoint: Endpoint, active: bool): seq<DriverCall>
  {
    [Open]
  }

  /** As written, a Soundcard driver enabled after its endpoint was set
      holds no endpoint and no active state. */
  lemma EnableForgetsAsWritten(prior: seq<DriverCall>, endpoint: Endpoint, active: bool)
    ensures TellAll(prior + EnableCallsAsWritten(endpoint, active)).endpoint == None
    ensures TellAll(prior + EnableCallsAsWritten(endpoint, active)).active == None
  {
    TellSnoc(prior, Open);
  }

  const NoAdapter: U32 := 0

  /** The settings a Soundcard kernel driver should hold. */
  function SoundcardTold(endpoint: Endpoint, active: bool): Told
  {
    Told(Some((endpoint, NoAdapter)), None, None, Some(active))
  }

  /** The calls an enabling SetEnabled makes with the replay it intends:
      the cached endpoint and active state (SetTtl never forwards). */
  function EnableCalls(endpoint: Endpoint, active: bool): (r: seq<DriverCall>)
    ensures |r| > 0 && r[0] == Open
    ensures TellAll(r) == SoundcardTold(endpoint, active)
  {
    var e, v := EndpointSet(endpoint, NoAdapter), ActiveSet(active);
    TellOpened();
    TellSnoc([Open], e);
    TellSnoc([Open, e], v);
    assert [Open] + [e] == [Open, e] && [Open, e] + [v] == [Open, e, v];
    [Open, e, v]
  }

  /** OhmSenderDriverMac of Soundcard: whether the connection to the
      kernel driver is open, the cached settings, and the calls made. */
  class SoundcardDriver {
    var handleOpen: bool
    var endpoint: Endpoint
    var active: bool
    var ttl: nat
    var calls: seq<DriverCall>

    /** While the connection is open, the kernel driver holds the cached
        endpoint and active state; it is never told a ttl. */
    predicate Valid()
      reads this
    {
      handleOpen ==> TellAll(calls) == SoundcardTold(endpoint, active)
    }

    /** The constructor once the audio device and the service are found:
        closed, inactive, ttl 4. */
    constructor ()
      ensures Valid() && !handleOpen && !active && ttl == 4 && endpoint == Endpoint(0, 0) && calls == []
    {
      handleOpen, endpoint, active, ttl, calls := false, Endpoint(0, 0), false, 4, [];
    }

    /** SetEnabled: nothing when the connection is already in the asked
        state; otherwise it is started with the cached settings replayed,
        or closed. */
    method SetEnabled(value: bool)
      requires Valid()
      modifies this`handleOpen, this`calls
      ensures Valid() && handleOpen == value
      ensures old(handleOpen) == value ==> calls == old(calls)
      ensures old(handleOpen) != value ==> calls == old(calls) + (if value then EnableCalls(endpoint, active) else [Close])
    {
      if handleOpen == value {
        return;
      }
      if value {
        var r := EnableCalls(endpoint, active);
        TellOpen(calls, r[1..]);
        TellOpen([], r[1..]);
        assert calls + r == calls + [Open] + r[1..] && r == [] + [Open] + r[1..];
        calls := calls + r;
      } else {
        calls := calls + [Close];
      }
      handleOpen := value;
    }

    method SetEndpoint(e: Endpoint)
      requires Valid()
      modifies this`endpoint, this`calls
      ensures Valid() && endpoint == e
      ensures calls == old(calls) + (if handleOpen then [EndpointSet(e, NoAdapter)] else [])
    {
      endpoint := e;
      if handleOpen {
        calls := calls + [EndpointSet(e, NoAdapter)];
        TellSnoc(old(calls), EndpointSet(e, NoAdapter));
      }
    }

    method SetActive(value: bool)
      requires Valid()
      modifies this`active, this`calls
      ensures Valid() && active == value
      ensures calls == old(calls) + (if handleOpen then [ActiveSet(value)] else [])
    {
      active := value;
      if handleOpen {
        calls := calls + [ActiveSet(value)];
        TellSnoc(old(calls), ActiveSet(value));
      }
    }

    /** SetTtl caches the value and never forwards it. */
    method SetTtl(value: nat)
      requires Valid()
      modifies this`ttl
      ensures Valid() && ttl == value
    {
      ttl := value;
    }
  }
}
