/**
 * The connection state machine of pymcws/media_server.py: how a `MediaServer` finds a
 * working address for its access key (local IPs first, then the remote IP, with a key
 * lookup at the JRiver web service in between) and how it sends requests there.
 *
 * The network is an oracle: the status each probe of an `Alive` endpoint gets, the parsed
 * reply of the key lookup, and the reply each request gets. Every operation is specified
 * by a function on a `ServerState` value that also returns the network traffic it caused,
 * and the `MediaServer` class implements it step by step on its fields.
 */
module MediaServers {
  import opened Wrappers
  import opened Exceptions
  import opened Strings
  import opened Values
  import opened Dicts
  import opened Http
  import opened FieldCodecs
  import Library

  // ---------------------------------------------------------------- constants

  const UrlKeyLookup: string := "http://webplay.jriver.com/libraryserver/lookup"

  /** `URL_API.format(ip=ip, port=port)`. */
  function ApiUrl(ip: string, port: string): string
  {
    "http://" + ip + ":" + port + "/MCWS/v1/"
  }

  // ---------------------------------------------------------------- state

  /** `con_strategy`. */
  datatype Strategy = Unknown | Local | Remote | Unreachable

  /** An instance attribute: never assigned (reading it raises AttributeError), or its value. */
  datatype Attr<T> = Unset | Set(value: T)

  /** The connection attributes of a server; `None` is Python's None. */
  datatype ServerState = ServerState(
    keyId: string,
    conStrategy: Strategy,
    localIpList: Attr<seq<string>>,
    localIp: Attr<string>,
    port: Attr<Option<string>>,
    remoteIp: Attr<Option<string>>)

  /**
   * The state right after `MediaServer(key_id, user, password)`, with the local IP list
   * for "localhost" being the one address "127.0.0.1" (see InitialStateAsWritten).
   */
  function InitialState(keyId: string): ServerState
  {
    if keyId == "localhost" then
      ServerState(keyId, Local, Set(["127.0.0.1"]), Set("127.0.0.1"), Set(Some("52199")), Unset)
    else
      ServerState(keyId, Unknown, Unset, Unset, Unset, Unset)
  }

  /**
   * The state as the constructor writes it: `local_ip_list` is assigned the string
   * "127.0.0.1", so `test_local`, which iterates over it, sees its characters.
   */
  function InitialStateAsWritten(keyId: string): ServerState
  {
    if keyId == "localhost" then InitialState(keyId).(localIpList := Set(Characters("127.0.0.1")))
    else InitialState(keyId)
  }

  /**
   * What the strategy promises: never "unreachable"; under "local" the local IP and a port
   * are known, under "remote" the remote IP and a port.
   */
  predicate Valid(s: ServerState)
  {
    && s.conStrategy != Unreachable
    && (s.conStrategy == Local ==> s.localIp.Set? && s.port.Set? && s.port.value.Some?)
    && (s.conStrategy == Remote ==> s.remoteIp.Set? && s.remoteIp.value.Some? && s.port.Set? && s.port.value.Some?)
  }

  // ---------------------------------------------------------------- network

  /** The lookup service's reply: the key's data, or `Status="Error"` with its `msg` text. */
  datatype LookupAnswer =
    | Resolved(keyId: string, ip: Option<string>, port: Option<string>, localIpList: Option<string>,
               macAddressList: Option<string>)
    | Rejected(message: Option<string>)

  /**
   * The network as seen by the server: the status a GET of an endpoint with the given basic
   * credentials gets (None when requests raised); the parsed lookup reply for a key, or what
   * requesting it raised, `raise_for_status` included; the reply to a request, or None when
   * requests raised.
   */
  datatype Network = Network(
    probe: (string, Option<(string, string)>) -> Option<int>,
    lookup: string -> Outcome<LookupAnswer>,
    serve: (string, Option<Params>) -> Option<Response>)

  /** Network traffic, in order: a probe of an endpoint, a key lookup, a request. */
  datatype Event = Probed(endpoint: string) | LookedUp(keyId: string) | Sent(endpoint: string, params: Option<Params>)

  /** An operation's result, the state it leaves and the traffic it caused. */
  datatype Step<T> = Step(result: Outcome<T>, state: ServerState, events: seq<Event>)

  /** The requests among some traffic. */
  function Sends(events: seq<Event>): (r: seq<Event>)
    ensures forall i :: 0 <= i < |r| ==> r[i].Sent?
  {
    if events == [] then []
    else (if events[0].Sent? then [events[0]] else []) + Sends(events[1..])
  }

  /** Traffic without requests. */
  predicate Quiet(events: seq<Event>)
  {
    forall e :: e in events ==> !e.Sent?
  }

  lemma {:induction false} SendsAppend(a: seq<Event>, b: seq<Event>)
    ensures Sends(a + b) == Sends(a) + Sends(b)
  {
    if a != [] {
      assert (a + b)[1..] == a[1..] + b;
      SendsAppend(a[1..], b);
    } else {
      assert a + b == b;
    }
  }

  lemma {:induction false} QuietSendsNothing(events: seq<Event>)
    requires Quiet(events)
    ensures Sends(events) == []
  {
    if events != [] {
      assert events[0] in events;
      assert forall e :: e in events[1..] ==> e in events;
      QuietSendsNothing(events[1..]);
    }
  }

  // ---------------------------------------------------------------- addresses

  /** `address_local()`: None when the port is None; AttributeError for a missing attribute. */
  function AddressLocalOf(s: ServerState): Outcome<Option<string>>
  {
    if s.localIp.Unset? || s.port.Unset? then Err(AttributeError)
    else if s.port.value.None? then Ok(None)
    else Ok(Some(ApiUrl(s.localIp.value, s.port.value.value)))
  }

  /** `address_remote()`: None when the remote IP or the port is None. */
  function AddressRemoteOf(s: ServerState): Outcome<Option<string>>
  {
    if s.remoteIp.Unset? then Err(AttributeError)
    else if s.remoteIp.value.None? then Ok(None)
    else if s.port.Unset? then Err(AttributeError)
    else if s.port.value.None? then Ok(None)
    else Ok(Some(ApiUrl(s.remoteIp.value.value, s.port.value.value)))
  }

  /** `address()`: by strategy; None unless the strategy is "local" or "remote". */
  function AddressOf(s: ServerState): Outcome<Option<string>>
  {
    match s.conStrategy
    case Local => AddressLocalOf(s)
    case Remote => AddressRemoteOf(s)
    case _ => Ok(None)
  }

  /** `address + suffix`, which raises TypeError when the address is None. */
  function Endpoint(address: Outcome<Option<string>>, suffix: string): (r: Outcome<string>)
    ensures r.Ok? <==> address.Ok? && address.value.Some?
    ensures r.Ok? ==> r.value == address.value.value + suffix
    ensures address.Err? ==> r == Err(address.error)
    ensures address == Ok(None) ==> r == Err(TypeError)
  {
    var a :- address;
    if a.None? then Err(TypeError) else Ok(a.value + suffix)
  }

  /**
   * Under a valid state the address is the local URL under "local", the remote URL under
   * "remote", and None otherwise; no attribute is missing.
   */
  lemma AddressByStrategy(s: ServerState)
    requires Valid(s)
    ensures s.conStrategy == Local ==> AddressOf(s) == Ok(Some(ApiUrl(s.localIp.value, s.port.value.value)))
    ensures s.conStrategy == Remote ==> AddressOf(s) == Ok(Some(ApiUrl(s.remoteIp.value.value, s.port.value.value)))
    ensures s.conStrategy == Unknown ==> AddressOf(s) == Ok(None)
  {
  }

  // ---------------------------------------------------------------- test_local / test_remote

  /** `GET endpoint` answered with status 200. */
  predicate Alive(net: Network, auth: Option<(string, string)>, ip: string, port: string)
  {
    net.probe(ApiUrl(ip, port) + "Alive", auth) == Some(200)
  }

  /**
   * The loop of `test_local` over the candidates `ips`: each one tried is stored as
   * `local_ip` and its `Alive` endpoint probed; the first status 200 ends it with true, a
   * failed probe moves on, and a missing address raises.
   */
  function ProbeCandidates(s: ServerState, net: Network, auth: Option<(string, string)>, ips: seq<string>): Step<bool>
    decreases |ips|
  {
    if ips == [] then Step(Ok(false), s, [])
    else
      var s1 := s.(localIp := Set(ips[0]));
      var endpoint := Endpoint(AddressLocalOf(s1), "Alive");
      if endpoint.Err? then Step(Err(endpoint.error), s1, [])
      else if net.probe(endpoint.value, auth) == Some(200) then Step(Ok(true), s1, [Probed(endpoint.value)])
      else
        var rest := ProbeCandidates(s1, net, auth, ips[1..]);
        Step(rest.result, rest.state, [Probed(endpoint.value)] + rest.events)
  }

  /** `test_local()`: the candidates are `local_ip_list`, which must have been assigned. */
  function TestLocalOf(s: ServerState, net: Network, auth: Option<(string, string)>): Step<bool>
  {
    if s.localIpList.Unset? then Step(Err(AttributeError), s, [])
    else ProbeCandidates(s, net, auth, s.localIpList.value)
  }

  /** `test_remote()`: one probe of the remote address; only a missing address raises. */
  function TestRemoteOf(s: ServerState, net: Network, auth: Option<(string, string)>): Step<bool>
  {
    var endpoint := Endpoint(AddressRemoteOf(s), "Alive");
    if endpoint.Err? then Step(Err(endpoint.error), s, [])
    else Step(Ok(net.probe(endpoint.value, auth) == Some(200)), s, [Probed(endpoint.value)])
  }

  /** One pass of the loop of `test_local` when the port is known. */
  lemma ProbeStep(s: ServerState, net: Network, auth: Option<(string, string)>, ips: seq<string>, p: string)
    requires s.port == Set(Some(p)) && ips != []
    ensures var s1 := s.(localIp := Set(ips[0]));
      var e := ApiUrl(ips[0], p) + "Alive";
      var rest := ProbeCandidates(s1, net, auth, ips[1..]);
      ProbeCandidates(s, net, auth, ips)
        == if Alive(net, auth, ips[0], p) then Step(Ok(true), s1, [Probed(e)])
           else Step(rest.result, rest.state, [Probed(e)] + rest.events)
  {
    var s1 := s.(localIp := Set(ips[0]));
    assert Endpoint(AddressLocalOf(s1), "Alive") == Ok(ApiUrl(ips[0], p) + "Alive");
  }

  /** With a port known, `test_local` is true exactly when some candidate is alive. */
  lemma {:induction false} ProbeResult(s: ServerState, net: Network, auth: Option<(string, string)>,
                                       ips: seq<string>, p: string)
    requires s.port == Set(Some(p))
    ensures ProbeCandidates(s, net, auth, ips).result == Ok(exists j :: 0 <= j < |ips| && Alive(net, auth, ips[j], p))
    decreases |ips|
  {
    if ips != [] {
      var s1 := s.(localIp := Set(ips[0]));
      ProbeStep(s, net, auth, ips, p);
      if !Alive(net, auth, ips[0], p) {
        ProbeResult(s1, net, auth, ips[1..], p);
        if exists j :: 0 <= j < |ips| && Alive(net, auth, ips[j], p) {
          var j :| 0 <= j < |ips| && Alive(net, auth, ips[j], p);
          assert j > 0 && ips[1..][j - 1] == ips[j];
        }
        if exists j :: 0 <= j < |ips[1..]| && Alive(net, auth, ips[1..][j], p) {
          var j :| 0 <= j < |ips[1..]| && Alive(net, auth, ips[1..][j], p);
          assert ips[j + 1] == ips[1..][j];
        }
      }
    }
  }

  /**
   * With a port known, `test_local` probes the candidates' `Alive` endpoints in list order,
   * at least the first, and leaves `local_ip` at the last one probed.
   */
  lemma {:induction false} ProbeOrder(s: ServerState, net: Network, auth: Option<(string, string)>,
                                      ips: seq<string>, p: string)
    requires s.port == Set(Some(p))
    ensures var t := ProbeCandidates(s, net, auth, ips);
      && |t.events| <= |ips|
      && (forall i :: 0 <= i < |t.events| ==> t.events[i] == Probed(ApiUrl(ips[i], p) + "Alive"))
      && (ips != [] ==> t.events != [] && t.state.localIp == Set(ips[|t.events| - 1]))
      && (ips == [] ==> t.state == s)
    decreases |ips|
  {
    if ips != [] {
      var s1 := s.(localIp := Set(ips[0]));
      ProbeStep(s, net, auth, ips, p);
      if !Alive(net, auth, ips[0], p) {
        ProbeOrder(s1, net, auth, ips[1..], p);
        var rest := ProbeCandidates(s1, net, auth, ips[1..]);
        var t := ProbeCandidates(s, net, auth, ips);
        forall i | 1 <= i < |t.events| ensures t.events[i] == Probed(ApiUrl(ips[i], p) + "Alive") {
          assert t.events[i] == rest.events[i - 1] && ips[1..][i - 1] == ips[i];
        }
        if rest.events != [] {
          assert ips[1..][|rest.events| - 1] == ips[|t.events| - 1];
        }
      }
    }
  }

  /**
   * With a port known, `test_local` stops at the first alive candidate: every candidate
   * probed before the last was not alive, the last one is alive when the result is true,
   * and on false every candidate was probed.
   */
  lemma {:induction false} ProbeStopsAtFirst(s: ServerState, net: Network, auth: Option<(string, string)>,
                                             ips: seq<string>, p: string)
    requires s.port == Set(Some(p))
    ensures var t := ProbeCandidates(s, net, auth, ips);
      && |t.events| <= |ips|
      && (forall i :: 0 <= i < |t.events| - 1 ==> !Alive(net, auth, ips[i], p))
      && (t.result == Ok(true) ==> t.events != [] && |t.events| <= |ips| && Alive(net, auth, ips[|t.events| - 1], p))
      && (t.result == Ok(false) ==> |t.events| == |ips|)
    decreases |ips|
  {
    ProbeOrder(s, net, auth, ips, p);
    if ips != [] {
      var s1 := s.(localIp := Set(ips[0]));
      ProbeStep(s, net, auth, ips, p);
      if !Alive(net, auth, ips[0], p) {
        ProbeStopsAtFirst(s1, net, auth, ips[1..], p);
        var rest := ProbeCandidates(s1, net, auth, ips[1..]);
        var t := ProbeCandidates(s, net, auth, ips);
        forall i | 1 <= i < |t.events| - 1 ensures !Alive(net, auth, ips[i], p) {
          assert ips[1..][i - 1] == ips[i];
        }
        if rest.result == Ok(true) {
          assert ips[1..][|rest.events| - 1] == ips[|t.events| - 1];
        }
      }
    }
  }

  /** Without a port, `test_local` raises at the first candidate, before any probe. */
  lemma ProbeUnaddressable(s: ServerState, net: Network, auth: Option<(string, string)>, ips: seq<string>)
    requires ips != [] && (s.port.Unset? || s.port.value.None?)
    ensures var t := ProbeCandidates(s, net, auth, ips);
      && t.result == Err(if s.port.Unset? then AttributeError else TypeError)
      && t.events == []
  {
  }

  /** `test_local` only ever probes, and changes nothing but `local_ip`. */
  lemma {:induction false} ProbeTraffic(s: ServerState, net: Network, auth: Option<(string, string)>, ips: seq<string>)
    ensures var t := ProbeCandidates(s, net, auth, ips);
      && (forall e :: e in t.events ==> e.Probed?)
      && t.state.(localIp := s.localIp) == s
      && (t.state.localIp.Set? || t.state == s)
      && (t.result == Ok(true) ==> t.state.localIp.Set? && t.state.port.Set? && t.state.port.value.Some?)
    decreases |ips|
  {
    if ips != [] {
      ProbeTraffic(s.(localIp := Set(ips[0])), net, auth, ips[1..]);
    }
  }

  /**
   * When the IP list is the characters of an address of more than one character,
   * `test_local` probes them one by one as IP addresses, starting with the first, and never
   * the address itself.
   */
  lemma CharacterProbes(s: ServerState, net: Network, auth: Option<(string, string)>, ip: string, port: string)
    requires s.localIpList == Set(Characters(ip)) && s.port == Set(Some(port)) && |ip| > 1
    ensures var t := TestLocalOf(s, net, auth);
      && t.events != []
      && t.events[0] == Probed(ApiUrl(ip[..1], port) + "Alive")
      && Probed(ApiUrl(ip, port) + "Alive") !in t.events
  {
    var ips := Characters(ip);
    ProbeOrder(s, net, auth, ips, port);
    var t := TestLocalOf(s, net, auth);
    assert ips[0] == ip[..1];
    assert |ApiUrl(ip, port)| == |ip| + |port| + 17;
    forall i | 0 <= i < |t.events| ensures t.events[i] != Probed(ApiUrl(ip, port) + "Alive") {
      assert |ips[i]| == 1;
      assert |ApiUrl(ips[i], port)| == |port| + 18;
      assert |ApiUrl(ips[i], port) + "Alive"| != |ApiUrl(ip, port) + "Alive"|;
    }
  }

  /**
   * As written, a server for the key "localhost" probes the IP address "1" first and never
   * probes its own address "127.0.0.1".
   */
  lemma LocalhostProbesCharacters(net: Network, auth: Option<(string, string)>)
    ensures var t := TestLocalOf(InitialStateAsWritten("localhost"), net, auth);
      && t.events != []
      && t.events[0] == Probed(ApiUrl("1", "52199") + "Alive")
      && Probed(ApiUrl("127.0.0.1", "52199") + "Alive") !in t.events
  {
    CharacterProbes(InitialStateAsWritten("localhost"), net, auth, "127.0.0.1", "52199");
    assert "127.0.0.1"[..1] == "1";
  }

  /**
   * With the list corrected, a server for "localhost" probes exactly its own address,
   * once, and is alive exactly when that probe answers 200.
   */
  lemma LocalhostProbesLoopback(net: Network, auth: Option<(string, string)>)
    ensures var t := TestLocalOf(InitialState("localhost"), net, auth);
      && t.events == [Probed(ApiUrl("127.0.0.1", "52199") + "Alive")]
      && t.result == Ok(net.probe(ApiUrl("127.0.0.1", "52199") + "Alive", auth) == Some(200))
      && t.state == InitialState("localhost")
  {
    assert ["127.0.0.1"][1..] == [];
  }

  // ---------------------------------------------------------------- update_from_jriver

  /**
   * `update_from_jriver()`: look the key up; a rejected key raises UnresolvableKeyError with
   * the old key. Otherwise the key and port are taken over, then the local IP list (split at
   * commas) and the remote IP, stopping with AttributeError at a missing list.
   */
  function UpdateOf(s: ServerState, net: Network): Step<()>
  {
    var events := [LookedUp(s.keyId)];
    match net.lookup(s.keyId)
    case Err(e) => Step(Err(e), s, events)
    case Ok(Rejected(message)) => Step(Err(UnresolvableKey(s.keyId, message)), s, events)
    case Ok(Resolved(keyId, ip, port, localIpList, macAddressList)) =>
      var s1 := s.(keyId := keyId, port := Set(port));
      if localIpList.None? then Step(Err(AttributeError), s1, events)
      else
        var s2 := s1.(localIpList := Set(Split(localIpList.value, ',')), remoteIp := Set(ip));
        if macAddressList.None? then Step(Err(AttributeError), s2, events)
        else Step(Ok(()), s2, events)
  }

  /**
   * One lookup of the current key; a rejection leaves the state as it was; a complete reply
   * stores the key, the port, the split IP list and the remote IP. The strategy is never
   * touched.
   */
  lemma UpdateEffect(s: ServerState, net: Network)
    ensures UpdateOf(s, net).events == [LookedUp(s.keyId)]
    ensures UpdateOf(s, net).state.conStrategy == s.conStrategy
    ensures UpdateOf(s, net).state.localIp == s.localIp
    ensures net.lookup(s.keyId).Err? ==> UpdateOf(s, net) == Step(Err(net.lookup(s.keyId).error), s, [LookedUp(s.keyId)])
    ensures net.lookup(s.keyId).Ok? && net.lookup(s.keyId).value.Rejected? ==>
      UpdateOf(s, net) == Step(Err(UnresolvableKey(s.keyId, net.lookup(s.keyId).value.message)), s, [LookedUp(s.keyId)])
    ensures net.lookup(s.keyId).Ok? && net.lookup(s.keyId).value.Resolved? ==>
      var a := net.lookup(s.keyId).value;
      var u := UpdateOf(s, net);
      && u.state.keyId == a.keyId && u.state.port == Set(a.port)
      && (u.result.Ok? <==> a.localIpList.Some? && a.macAddressList.Some?)
      && (a.localIpList.Some? ==> u.state.localIpList == Set(Split(a.localIpList.value, ',')) && u.state.remoteIp == Set(a.ip))
  {
  }

  // ---------------------------------------------------------------- refresh

  /** The strategy after step 1 of `refresh` when the local probe did not succeed. */
  function StepOneStrategy(s: ServerState): Strategy
  {
    if s.conStrategy == Local then Unknown else s.conStrategy
  }

  /** Steps 2 to 5 of `refresh`: a lookup unless the strategy is known, then local, then remote. */
  function RefreshFromLookup(s: ServerState, net: Network, auth: Option<(string, string)>): Step<bool>
  {
    var u := if s.conStrategy == Unknown || s.conStrategy == Unreachable then UpdateOf(s, net) else Step(Ok(()), s, []);
    if u.result.Err? then Step(Err(u.result.error), u.state, u.events)
    else
      var l := TestLocalOf(u.state, net, auth);
      if l.result.Err? then Step(Err(l.result.error), l.state, u.events + l.events)
      else if l.result.value then Step(Ok(true), l.state.(conStrategy := Local), u.events + l.events)
      else
        var r := TestRemoteOf(l.state, net, auth);
        var events := u.events + l.events + r.events;
        if r.result.Err? then Step(Err(r.result.error), r.state, events)
        else if r.result.value then Step(Ok(true), r.state.(conStrategy := Remote), events)
        else Step(Ok(false), r.state, events)
  }

  /** `refresh()`: step 1 keeps a working local strategy; a failing one becomes "unknown". */
  function RefreshOf(s: ServerState, net: Network, auth: Option<(string, string)>): Step<bool>
  {
    if s.conStrategy == Local then
      var t := TestLocalOf(s, net, auth);
      if t.result.Err? then Step(Err(t.result.error), t.state, t.events)
      else if t.result.value then Step(Ok(true), t.state.(conStrategy := Local), t.events)
      else
        var rest := RefreshFromLookup(t.state.(conStrategy := Unknown), net, auth);
        Step(rest.result, rest.state, t.events + rest.events)
    else RefreshFromLookup(s, net, auth)
  }

  lemma TestLocalTraffic(s: ServerState, net: Network, auth: Option<(string, string)>)
    ensures var t := TestLocalOf(s, net, auth);
      && (forall e :: e in t.events ==> e.Probed?)
      && t.state.(localIp := s.localIp) == s
      && (t.state.localIp.Set? || t.state == s)
      && (t.result == Ok(true) ==> t.state.localIp.Set? && t.state.port.Set? && t.state.port.value.Some?)
  {
    if s.localIpList.Set? {
      ProbeTraffic(s, net, auth, s.localIpList.value);
    }
  }

  /**
   * Steps 2 to 5: true exactly when the strategy has just been set to "local" or "remote";
   * otherwise the strategy stays as it was.
   */
  lemma RefreshFromLookupStrategy(s: ServerState, net: Network, auth: Option<(string, string)>)
    ensures var t := RefreshFromLookup(s, net, auth);
      && (t.result == Ok(true) ==> t.state.conStrategy == Local || t.state.conStrategy == Remote)
      && (t.result != Ok(true) ==> t.state.conStrategy == s.conStrategy)
  {
    var u := if s.conStrategy == Unknown || s.conStrategy == Unreachable then UpdateOf(s, net) else Step(Ok(()), s, []);
    UpdateEffect(s, net);
    if u.result.Ok? {
      var l := TestLocalOf(u.state, net, auth);
      TestLocalTraffic(u.state, net, auth);
      assert l.state.conStrategy == s.conStrategy;
    }
  }

  /** Steps 2 to 5 keep a valid state valid. */
  lemma RefreshFromLookupValid(s: ServerState, net: Network, auth: Option<(string, string)>)
    requires Valid(s)
    ensures Valid(RefreshFromLookup(s, net, auth).state)
  {
    var u := if s.conStrategy == Unknown || s.conStrategy == Unreachable then UpdateOf(s, net) else Step(Ok(()), s, []);
    UpdateEffect(s, net);
    assert Valid(u.state);
    if u.result.Ok? {
      var l := TestLocalOf(u.state, net, auth);
      TestLocalTraffic(u.state, net, auth);
      assert Valid(l.state);
      if l.result == Ok(false) {
        assert TestRemoteOf(l.state, net, auth).state == l.state;
      }
    }
  }

  /**
   * The traffic of steps 2 to 5 is probes and at most the lookup of the current key, which
   * comes first and happens exactly when the strategy is unknown or unreachable.
   */
  lemma RefreshFromLookupTraffic(s: ServerState, net: Network, auth: Option<(string, string)>)
    ensures var t := RefreshFromLookup(s, net, auth);
      && (forall e :: e in t.events ==> e.Probed? || e == LookedUp(s.keyId))
      && ((s.conStrategy == Unknown || s.conStrategy == Unreachable) ==> t.events != [] && t.events[0] == LookedUp(s.keyId))
      && (!(s.conStrategy == Unknown || s.conStrategy == Unreachable) ==> forall e :: e in t.events ==> e.Probed?)
  {
    var t := RefreshFromLookup(s, net, auth);
    var lookup := s.conStrategy == Unknown || s.conStrategy == Unreachable;
    var u := if lookup then UpdateOf(s, net) else Step(Ok(()), s, []);
    UpdateEffect(s, net);
    var probes: seq<Event> := [];
    if u.result.Ok? {
      var l := TestLocalOf(u.state, net, auth);
      TestLocalTraffic(u.state, net, auth);
      if l.result.Ok? && !l.result.value {
        var r := TestRemoteOf(l.state, net, auth);
        assert forall e :: e in r.events ==> e.Probed?;
        probes := l.events + r.events;
        EventsAssoc(u.events, l.events, r.events);
      } else {
        probes := l.events;
      }
    }
    assert t.events == u.events + probes;
    assert forall e :: e in probes ==> e.Probed?;
    if lookup {
      assert t.events == [LookedUp(s.keyId)] + probes;
    } else {
      assert t.events == probes;
    }
  }

  /**
   * `refresh()` returns true exactly when it has just set the strategy to "local" or
   * "remote"; on false the strategy is the one step 1 left, and "unreachable" is never
   * stored. It sends no request, and keeps the state valid.
   */
  lemma RefreshOutcome(s: ServerState, net: Network, auth: Option<(string, string)>)
    ensures var t := RefreshOf(s, net, auth);
      && (t.result == Ok(true) ==> t.state.conStrategy == Local || t.state.conStrategy == Remote)
      && (t.result == Ok(false) ==> t.state.conStrategy == StepOneStrategy(s))
      && (t.state.conStrategy == Unreachable ==> s.conStrategy == Unreachable)
      && Quiet(t.events)
      && (Valid(s) ==> Valid(t.state))
  {
    TestLocalTraffic(s, net, auth);
    var t := TestLocalOf(s, net, auth);
    if s.conStrategy == Local {
      var s1 := t.state.(conStrategy := Unknown);
      assert Valid(s1);
      RefreshFromLookupStrategy(s1, net, auth);
      RefreshFromLookupValid(s1, net, auth);
      RefreshFromLookupTraffic(s1, net, auth);
    } else {
      RefreshFromLookupStrategy(s, net, auth);
      if Valid(s) {
        RefreshFromLookupValid(s, net, auth);
      }
      RefreshFromLookupTraffic(s, net, auth);
    }
  }

  /**
   * The key lookup runs only when the strategy after step 1 is "unknown" or "unreachable",
   * and then before anything else when it already was; a "local" strategy whose probe
   * succeeds returns true with no lookup.
   */
  lemma RefreshLookup(s: ServerState, net: Network, auth: Option<(string, string)>)
    ensures var t := RefreshOf(s, net, auth);
      && (forall e :: e in t.events ==> e.Probed? || e == LookedUp(s.keyId))
      && ((exists e :: e in t.events && e.LookedUp?) ==> StepOneStrategy(s) == Unknown || StepOneStrategy(s) == Unreachable)
      && ((s.conStrategy == Unknown || s.conStrategy == Unreachable) ==> t.events != [] && t.events[0] == LookedUp(s.keyId))
    ensures s.conStrategy == Local && TestLocalOf(s, net, auth).result == Ok(true) ==>
      var t := RefreshOf(s, net, auth);
      t.result == Ok(true) && t.state.conStrategy == Local && forall e :: e in t.events ==> e.Probed?
  {
    TestLocalTraffic(s, net, auth);
    var t := TestLocalOf(s, net, auth);
    if s.conStrategy == Local {
      RefreshFromLookupTraffic(t.state.(conStrategy := Unknown), net, auth);
    } else {
      RefreshFromLookupTraffic(s, net, auth);
    }
  }

  // ---------------------------------------------------------------- attempt_request / send_request

  /**
   * `attempt_request(extension, params)`: without an address, refresh first (its result is
   * ignored); a missing address then raises TypeError. A reply with status 404 raises
   * HTTPError; every other status is returned.
   */
  function AttemptOf(s: ServerState, net: Network, auth: Option<(string, string)>, extension: string,
                     params: Option<Params>): Step<Response>
  {
    var address := AddressOf(s);
    if address.Err? then Step(Err(address.error), s, [])
    else
      var f := if address.value.None? then RefreshOf(s, net, auth) else Step(Ok(true), s, []);
      if f.result.Err? then Step(Err(f.result.error), f.state, f.events)
      else Deliver(f.state, f.events, net, extension, params)
  }

  /** The request itself, sent to the address of `s + extension` after the traffic `before`. */
  function Deliver(s: ServerState, before: seq<Event>, net: Network, extension: string, params: Option<Params>): Step<Response>
  {
    var endpoint := Endpoint(AddressOf(s), extension);
    if endpoint.Err? then Step(Err(endpoint.error), s, before)
    else Step(AttemptReply(net.serve(endpoint.value, params)), s, before + [Sent(endpoint.value, params)])
  }

  /** The reply an attempt turns a server answer into. */
  function AttemptReply(reply: Option<Response>): Outcome<Response>
  {
    if reply.None? then Err(ConnectionFailed)
    else if reply.value.status == 404 then Err(HttpError(404))
    else Ok(reply.value)
  }

  lemma DeliverTraffic(s: ServerState, before: seq<Event>, net: Network, extension: string, params: Option<Params>)
    requires Quiet(before)
    ensures var t := Deliver(s, before, net, extension, params);
      && |Sends(t.events)| <= 1
      && (t.result.Ok? ==> Sends(t.events) != [])
      && (Sends(t.events) != [] ==> t.events[|t.events| - 1] == Sends(t.events)[0])
      && (Sends(t.events) != [] ==> Sends(t.events)[0].params == params)
      && (Sends(t.events) != [] ==> t.result == AttemptReply(net.serve(Sends(t.events)[0].endpoint, params)))
  {
    QuietSendsNothing(before);
    var endpoint := Endpoint(AddressOf(s), extension);
    if endpoint.Ok? {
      var sent := Sent(endpoint.value, params);
      SendsAppend(before, [sent]);
      assert Sends([sent]) == [sent];
    }
  }

  /**
   * An attempt sends at most one request, as its last event, with the given parameters; its
   * outcome is then that request's reply, raising only on status 404; a reply is only
   * returned when a request was sent.
   */
  lemma AttemptTraffic(s: ServerState, net: Network, auth: Option<(string, string)>, extension: string,
                       params: Option<Params>)
    ensures var t := AttemptOf(s, net, auth, extension, params);
      && |Sends(t.events)| <= 1
      && (t.result.Ok? ==> Sends(t.events) != [])
      && (Sends(t.events) != [] ==> t.events[|t.events| - 1] == Sends(t.events)[0])
      && (Sends(t.events) != [] ==> Sends(t.events)[0].params == params)
      && (Sends(t.events) != [] ==> t.result == AttemptReply(net.serve(Sends(t.events)[0].endpoint, params)))
  {
    var address := AddressOf(s);
    if address.Ok? {
      var f := if address.value.None? then RefreshOf(s, net, auth) else Step(Ok(true), s, []);
      RefreshOutcome(s, net, auth);
      if f.result.Ok? {
        DeliverTraffic(f.state, f.events, net, extension, params);
      } else {
        QuietSendsNothing(f.events);
      }
    }
  }

  /** An attempt keeps the state valid; under a valid known strategy it refreshes nothing. */
  lemma AttemptKeepsValid(s: ServerState, net: Network, auth: Option<(string, string)>, extension: string,
                          params: Option<Params>)
    requires Valid(s)
    ensures Valid(AttemptOf(s, net, auth, extension, params).state)
    ensures s.conStrategy != Unknown ==> AttemptOf(s, net, auth, extension, params).state == s
    ensures s.conStrategy != Unknown ==>
      AttemptOf(s, net, auth, extension, params).events == [Sent(AddressOf(s).value.value + extension, params)]
  {
    RefreshOutcome(s, net, auth);
    AddressByStrategy(s);
  }

  /** Python's dict with every None-valued entry removed, the rest in order. */
  function NoneStripped(p: Params): (r: Params)
    ensures |r| <= |p|
  {
    if p == [] then []
    else (if p[0].1 == Null then [] else [p[0]]) + NoneStripped(p[1..])
  }

  /** The parameters `send_request` passes on. */
  function StrippedPayload(payload: Option<Params>): Option<Params>
  {
    if payload.None? then None else Some(NoneStripped(payload.value))
  }

  /**
   * `send_request(extension, payload)`: refresh when the strategy is unknown (its result is
   * ignored), strip None values, attempt, and after an HTTPError refresh and attempt once more.
   */
  function SendOf(s: ServerState, net: Network, auth: Option<(string, string)>, extension: string,
                  payload: Option<Params>): Step<Response>
  {
    var f := if s.conStrategy == Unknown then RefreshOf(s, net, auth) else Step(Ok(true), s, []);
    if f.result.Err? then Step(Err(f.result.error), f.state, f.events)
    else
      var params := StrippedPayload(payload);
      var a := AttemptOf(f.state, net, auth, extension, params);
      if a.result.Err? && a.result.error.HttpError? then After(f.events + a.events, RetryOf(a.state, net, auth, extension, params))
      else After(f.events, a)
  }

  /** The retry of `send_request` after an HTTP error: a refresh, then a second attempt. */
  function RetryOf(s: ServerState, net: Network, auth: Option<(string, string)>, extension: string,
                   params: Option<Params>): Step<Response>
  {
    var g := RefreshOf(s, net, auth);
    if g.result.Err? then Step(Err(g.result.error), g.state, g.events)
    else After(g.events, AttemptOf(g.state, net, auth, extension, params))
  }

  /** A step's traffic preceded by `before`. */
  function After<T>(before: seq<Event>, t: Step<T>): Step<T>
  {
    Step(t.result, t.state, before + t.events)
  }

  /** Traffic without requests before some traffic adds no request. */
  lemma QuietPrefix(quiet: seq<Event>, events: seq<Event>)
    requires Quiet(quiet)
    ensures Sends(quiet + events) == Sends(events)
  {
    SendsAppend(quiet, events);
    QuietSendsNothing(quiet);
  }

  /** At most one request, carrying `params`; a result that is a reply comes from it. */
  predicate OneRequest(t: Step<Response>, net: Network, params: Option<Params>)
  {
    OneOf(Sends(t.events), t.result, net, params)
  }

  predicate OneOf(sends: seq<Event>, result: Outcome<Response>, net: Network, params: Option<Params>)
  {
    && |sends| <= 1
    && (forall i :: 0 <= i < |sends| ==> sends[i].Sent?)
    && (result.Ok? ==> sends != [])
    && (sends != [] ==> sends[0].params == params && result == AttemptReply(net.serve(sends[0].endpoint, params)))
  }

  /**
   * At most two requests, all carrying `params`; two only when the first was answered
   * with status 404, and then the result is the second one's reply; a first request not
   * answered with 404 is the only one, and its reply is the result; a result that is a
   * reply comes from the last request.
   */
  predicate AtMostTwoRequests(t: Step<Response>, net: Network, params: Option<Params>)
  {
    TwoOf(Sends(t.events), t.result, net, params)
  }

  predicate TwoOf(sends: seq<Event>, result: Outcome<Response>, net: Network, params: Option<Params>)
  {
    && |sends| <= 2
    && (forall i :: 0 <= i < |sends| ==> sends[i].Sent? && sends[i].params == params)
    && (|sends| == 2 ==> AttemptReply(net.serve(sends[0].endpoint, params)) == Err(HttpError(404)))
    && (|sends| == 2 ==> result == AttemptReply(net.serve(sends[1].endpoint, params)))
    && (|sends| >= 1 && AttemptReply(net.serve(sends[0].endpoint, params)) != Err(HttpError(404)) ==>
          |sends| == 1 && result == AttemptReply(net.serve(sends[0].endpoint, params)))
    && (result.Ok? ==> sends != [] && result == AttemptReply(net.serve(sends[|sends| - 1].endpoint, params)))
  }

  lemma TwoOfConcat(first: seq<Event>, a: Outcome<Response>, second: seq<Event>, result: Outcome<Response>,
                    net: Network, params: Option<Params>)
    requires OneOf(first, a, net, params) && OneOf(second, result, net, params)
    requires a.Err? && a.error.HttpError?
    ensures TwoOf(first + second, result, net, params)
  {
    var sends := first + second;
    forall i | 0 <= i < |sends| ensures sends[i].Sent? && sends[i].params == params {
      if i < |first| {
        assert sends[i] == first[i];
      } else {
        assert sends[i] == second[i - |first|];
      }
    }
    if |sends| == 2 {
      assert sends[0] == first[0];
    }
    if result.Ok? || |sends| == 2 {
      assert sends[|first|] == second[0];
    }
  }

  lemma FirstAttemptTraffic(quiet: seq<Event>, a: Step<Response>, net: Network, params: Option<Params>)
    requires Quiet(quiet) && OneRequest(a, net, params)
    ensures AtMostTwoRequests(After(quiet, a), net, params)
  {
    QuietPrefix(quiet, a.events);
  }

  lemma SecondAttemptTraffic(quiet: seq<Event>, a: Step<Response>, r: Step<Response>, net: Network,
                             params: Option<Params>)
    requires Quiet(quiet) && OneRequest(a, net, params) && OneRequest(r, net, params)
    requires a.result.Err? && a.result.error.HttpError?
    ensures AtMostTwoRequests(After(quiet + a.events, r), net, params)
  {
    QuietPrefix(quiet, a.events);
    SendsAppend(quiet + a.events, r.events);
    TwoOfConcat(Sends(a.events), a.result, Sends(r.events), r.result, net, params);
  }

  /** The retry of `send_request` sends one request at most, and replies only from it. */
  lemma RetryTraffic(s: ServerState, net: Network, auth: Option<(string, string)>, extension: string,
                     params: Option<Params>)
    ensures OneRequest(RetryOf(s, net, auth, extension, params), net, params)
  {
    var g := RefreshOf(s, net, auth);
    RefreshOutcome(s, net, auth);
    QuietSendsNothing(g.events);
    if g.result.Ok? {
      AttemptTraffic(g.state, net, auth, extension, params);
      QuietPrefix(g.events, AttemptOf(g.state, net, auth, extension, params).events);
    }
  }

  /**
   * `send_request` sends at most two requests, each with the payload stripped of None
   * values; a second one only after the first was answered with status 404. A reply is
   * returned only from a request sent, as the last one.
   */
  lemma SendTraffic(s: ServerState, net: Network, auth: Option<(string, string)>, extension: string,
                    payload: Option<Params>)
    ensures AtMostTwoRequests(SendOf(s, net, auth, extension, payload), net, StrippedPayload(payload))
  {
    var params := StrippedPayload(payload);
    var f := if s.conStrategy == Unknown then RefreshOf(s, net, auth) else Step(Ok(true), s, []);
    assert Quiet(f.events) by {
      RefreshOutcome(s, net, auth);
    }
    if f.result.Err? {
      QuietSendsNothing(f.events);
    } else {
      var a := AttemptOf(f.state, net, auth, extension, params);
      assert OneRequest(a, net, params) by {
        AttemptTraffic(f.state, net, auth, extension, params);
      }
      if a.result.Err? && a.result.error.HttpError? {
        RetryTraffic(a.state, net, auth, extension, params);
        SecondAttemptTraffic(f.events, a, RetryOf(a.state, net, auth, extension, params), net, params);
      } else {
        FirstAttemptTraffic(f.events, a, net, params);
      }
    }
  }

  /**
   * After a first attempt answered with an HTTP error, `send_request` always retries: its
   * traffic so far is followed by a refresh; a failing refresh is the result, and otherwise,
   * with an address to send to, exactly one more request goes out and its reply is the result.
   * Any other first outcome is the result, with nothing sent after it.
   */
  lemma SendRetries(s: ServerState, net: Network, auth: Option<(string, string)>, extension: string,
                    payload: Option<Params>)
    ensures var params := StrippedPayload(payload);
      var f := if s.conStrategy == Unknown then RefreshOf(s, net, auth) else Step(Ok(true), s, []);
      var a := AttemptOf(f.state, net, auth, extension, params);
      var t := SendOf(s, net, auth, extension, payload);
      f.result.Ok? && !(a.result.Err? && a.result.error.HttpError?) ==>
        t.result == a.result && t.events == f.events + a.events
    ensures var params := StrippedPayload(payload);
      var f := if s.conStrategy == Unknown then RefreshOf(s, net, auth) else Step(Ok(true), s, []);
      var a := AttemptOf(f.state, net, auth, extension, params);
      var g := RefreshOf(a.state, net, auth);
      var t := SendOf(s, net, auth, extension, payload);
      f.result.Ok? && a.result.Err? && a.result.error.HttpError? && g.result.Err? ==>
        t.result == Err(g.result.error) && t.events == f.events + a.events + g.events
    ensures var params := StrippedPayload(payload);
      var f := if s.conStrategy == Unknown then RefreshOf(s, net, auth) else Step(Ok(true), s, []);
      var a := AttemptOf(f.state, net, auth, extension, params);
      var g := RefreshOf(a.state, net, auth);
      var endpoint := Endpoint(AddressOf(g.state), extension);
      var t := SendOf(s, net, auth, extension, payload);
      f.result.Ok? && a.result.Err? && a.result.error.HttpError? && g.result.Ok? && endpoint.Ok? ==>
        t.result == AttemptReply(net.serve(endpoint.value, params))
        && t.events == f.events + a.events + g.events + [Sent(endpoint.value, params)]
  {
    var params := StrippedPayload(payload);
    var f := if s.conStrategy == Unknown then RefreshOf(s, net, auth) else Step(Ok(true), s, []);
    if f.result.Ok? {
      var a := AttemptOf(f.state, net, auth, extension, params);
      if a.result.Err? && a.result.error.HttpError? {
        var g := RefreshOf(a.state, net, auth);
        if g.result.Ok? && Endpoint(AddressOf(g.state), extension).Ok? {
          assert AddressOf(g.state).Ok? && AddressOf(g.state).value.Some?;
          EventsAssoc(f.events + a.events, g.events, [Sent(Endpoint(AddressOf(g.state), extension).value, params)]);
        }
      }
    }
  }

  /** `send_request` keeps a valid state valid. */
  lemma SendKeepsValid(s: ServerState, net: Network, auth: Option<(string, string)>, extension: string,
                       payload: Option<Params>)
    requires Valid(s)
    ensures Valid(SendOf(s, net, auth, extension, payload).state)
  {
    var params := StrippedPayload(payload);
    var f := if s.conStrategy == Unknown then RefreshOf(s, net, auth) else Step(Ok(true), s, []);
    RefreshOutcome(s, net, auth);
    if f.result.Ok? {
      var a := AttemptOf(f.state, net, auth, extension, params);
      AttemptKeepsValid(f.state, net, auth, extension, params);
      RefreshOutcome(a.state, net, auth);
      var g := RefreshOf(a.state, net, auth);
      if g.result.Ok? {
        AttemptKeepsValid(g.state, net, auth, extension, params);
      }
    }
  }

  /**
   * Stripping keeps exactly the entries whose value is not None, in their order: a key
   * reads back as before unless its value was None, and then it is absent.
   */
  lemma {:induction false} NoneStrippedExact(p: Params, k: string)
    requires DistinctKeys(p)
    ensures Get(NoneStripped(p), k) == if Get(p, k) == Some(Null) then None else Get(p, k)
    ensures forall x :: x in NoneStripped(p) <==> x in p && x.1 != Null
  {
    if p != [] {
      var rest := NoneStripped(p[1..]);
      assert DistinctKeys(p[1..]) by {
        forall i, j | 0 <= i < j < |p[1..]| ensures p[1..][i].0 != p[1..][j].0 {
          assert p[1..][i] == p[i + 1] && p[1..][j] == p[j + 1];
        }
      }
      NoneStrippedExact(p[1..], k);
      assert forall x :: x in p <==> x == p[0] || x in p[1..] by {
        assert p == [p[0]] + p[1..];
      }
      if p[0].1 == Null {
        assert NoneStripped(p) == rest;
        if p[0].0 == k {
          assert k !in Keys(p[1..]) by {
            forall i | 0 <= i < |p[1..]| ensures Keys(p[1..])[i] != k {
              assert p[1..][i] == p[i + 1];
            }
          }
        }
      } else {
        assert NoneStripped(p) == [p[0]] + rest;
        assert ([p[0]] + rest)[1..] == rest;
      }
    }
  }

  lemma {:induction false} NoneStrippedSnoc(p: Params, x: (string, Value))
    ensures NoneStripped(p + [x]) == NoneStripped(p) + (if x.1 == Null then [] else [x])
  {
    if p != [] {
      assert (p + [x])[1..] == p[1..] + [x];
      NoneStrippedSnoc(p[1..], x);
    } else {
      assert [] + [x] == [x];
    }
  }

  lemma {:induction false} NoneStrippedKeys(p: Params, k: string)
    requires k !in Keys(p)
    ensures k !in Keys(NoneStripped(p))
  {
    if p != [] {
      assert Keys(p) == [p[0].0] + Keys(p[1..]);
      NoneStrippedKeys(p[1..], k);
      var head := if p[0].1 == Null then [] else [p[0]];
      assert Keys(head + NoneStripped(p[1..])) == Keys(head) + Keys(NoneStripped(p[1..]));
    }
  }

  /** One turn of the loop below: popping a None-valued entry is stripping it. */
  lemma StripOne(payload: Params, i: nat, kept: Params, r: Params)
    requires DistinctKeys(payload) && i < |payload|
    requires kept == NoneStripped(payload[..i]) && r == kept + payload[i..]
    ensures (if payload[i].1 == Null then Remove(r, payload[i].0) else r) == NoneStripped(payload[..i + 1]) + payload[i + 1..]
  {
    var entry, rest := payload[i], payload[i + 1..];
    assert payload[..i + 1] == payload[..i] + [entry];
    NoneStrippedSnoc(payload[..i], entry);
    assert payload[i..] == [entry] + rest;
    if entry.1 == Null {
      StripNull(payload, i, kept);
    } else {
      assert kept + ([entry] + rest) == (kept + [entry]) + rest;
    }
  }

  /** Popping the None-valued entry `i` removes it alone from what is left. */
  lemma StripNull(payload: Params, i: nat, kept: Params)
    requires DistinctKeys(payload) && i < |payload|
    requires kept == NoneStripped(payload[..i])
    ensures Remove(kept + ([payload[i]] + payload[i + 1..]), payload[i].0) == kept + payload[i + 1..]
  {
    KeyAlone(payload, i);
    NoneStrippedKeys(payload[..i], payload[i].0);
    RemoveOnly(kept, payload[i], payload[i + 1..]);
  }

  /**
   * The loop of `send_request` that pops every None-valued entry of the payload, iterating
   * over a copy of its items.
   */
  method StripNone(payload: Params) returns (r: Params)
    requires DistinctKeys(payload)
    ensures r == NoneStripped(payload)
  {
    r := payload;
    ghost var kept: Params := [];
    for i := 0 to |payload|
      invariant kept == NoneStripped(payload[..i])
      invariant r == kept + payload[i..]
    {
      StripOne(payload, i, kept, r);
      kept := NoneStripped(payload[..i + 1]);
      if payload[i].1 == Null {
        r := Remove(r, payload[i].0);
      }
    }
    assert payload[..|payload|] == payload;
  }

  /** Candidate `i` of `test_local` after the traffic `probed`: it raises, answers, or passes on to the rest. */
  lemma ProbeCandidatesAfter(probed: seq<Event>, s: ServerState, net: Network, auth: Option<(string, string)>,
                             ips: seq<string>, i: nat)
    requires i < |ips|
    ensures var s1 := s.(localIp := Set(ips[i]));
      var endpoint := Endpoint(AddressLocalOf(s1), "Alive");
      var t := After(probed, ProbeCandidates(s, net, auth, ips[i..]));
      && (endpoint.Err? ==> t == Step(Err(endpoint.error), s1, probed))
      && (endpoint.Ok? && net.probe(endpoint.value, auth) == Some(200) ==>
            t == Step(Ok(true), s1, probed + [Probed(endpoint.value)]))
      && (endpoint.Ok? && net.probe(endpoint.value, auth) != Some(200) ==>
            t == After(probed + [Probed(endpoint.value)], ProbeCandidates(s1, net, auth, ips[i + 1..])))
  {
    assert ips[i..][0] == ips[i] && ips[i..][1..] == ips[i + 1..];
    var s1 := s.(localIp := Set(ips[i]));
    var endpoint := Endpoint(AddressLocalOf(s1), "Alive");
    if endpoint.Ok? && net.probe(endpoint.value, auth) != Some(200) {
      EventsAssoc(probed, [Probed(endpoint.value)], ProbeCandidates(s1, net, auth, ips[i + 1..]).events);
    } else {
      assert probed + [] == probed;
    }
  }

  /** Regrouping a concatenation of traffic; a separate step keeps the callers' proofs small. */
  lemma EventsAssoc(a: seq<Event>, b: seq<Event>, c: seq<Event>)
    ensures a + b + c == a + (b + c)
  {
  }

  // ---------------------------------------------------------------- the server object

  /** `MediaServer`: the connection attributes as fields, and the traffic so far as a ghost log. */
  class MediaServer {
    const user: Option<string>
    const password: Option<string>
    var keyId: string
    var conStrategy: Strategy
    var localIpList: Attr<seq<string>>
    var localIp: Attr<string>
    var port: Attr<Option<string>>
    var remoteIp: Attr<Option<string>>
    var fieldsCache: Option<FieldTable>
    ghost var log: seq<Event>

    function State(): ServerState
      reads this
    {
      ServerState(keyId, conStrategy, localIpList, localIp, port, remoteIp)
    }

    /** `credentials()`: basic credentials only when both user and password are given. */
    function Credentials(): (c: Option<(string, string)>)
      ensures c.Some? <==> user.Some? && password.Some?
      ensures c.Some? ==> c.value == (user.value, password.value)
    {
      if user.None? || password.None? then None else Some((user.value, password.value))
    }

    /**
     * `MediaServer(key_id, user, password)`: no lookup is made. For "localhost" the local IP
     * list is the string "127.0.0.1", held as its characters, as the source assigns it.
     */
    constructor (keyId: string, user: Option<string>, password: Option<string>)
      ensures State() == InitialStateAsWritten(keyId)
      ensures this.user == user && this.password == password
      ensures fieldsCache.None? && log == []
    {
      this.keyId := keyId;
      this.user := user;
      this.password := password;
      conStrategy := Unknown;
      localIpList := Unset;
      localIp := Unset;
      port := Unset;
      remoteIp := Unset;
      fieldsCache := None;
      log := [];
      new;
      if keyId == "localhost" {
        localIpList := Set(Characters("127.0.0.1"));
        localIp := Set("127.0.0.1");
        port := Set(Some("52199"));
        conStrategy := Local;
      }
    }

    /** `test_local()`. */
    method TestLocal(net: Network) returns (r: Outcome<bool>)
      modifies this`localIp, this`log
      ensures var t := TestLocalOf(old(State()), net, Credentials());
        r == t.result && State() == t.state && log == old(log) + t.events
    {
      if localIpList.Unset? {
        return Err(AttributeError);
      }
      var ips := localIpList.value;
      var auth := Credentials();
      ghost var s0 := State();
      ghost var goal := TestLocalOf(s0, net, auth);
      ghost var probed: seq<Event> := [];
      assert ips[0..] == ips;
      for i := 0 to |ips|
        invariant State() == s0.(localIp := localIp)
        invariant log == old(log) + probed
        invariant After(probed, ProbeCandidates(State(), net, auth, ips[i..])) == goal
      {
        ProbeCandidatesAfter(probed, State(), net, auth, ips, i);
        localIp := Set(ips[i]);
        var endpoint := Endpoint(AddressLocalOf(State()), "Alive");
        if endpoint.Err? {
          return Err(endpoint.error);
        }
        var status := net.probe(endpoint.value, auth);
        EventsAssoc(old(log), probed, [Probed(endpoint.value)]);
        log := log + [Probed(endpoint.value)];
        probed := probed + [Probed(endpoint.value)];
        if status == Some(200) {
          return Ok(true);
        }
      }
      return Ok(false);
    }

    /** `test_remote()`. */
    method TestRemote(net: Network) returns (r: Outcome<bool>)
      modifies this`log
      ensures var t := TestRemoteOf(old(State()), net, Credentials());
        r == t.result && State() == t.state && log == old(log) + t.events
    {
      var endpoint := Endpoint(AddressRemoteOf(State()), "Alive");
      if endpoint.Err? {
        return Err(endpoint.error);
      }
      var status := net.probe(endpoint.value, Credentials());
      log := log + [Probed(endpoint.value)];
      return Ok(status == Some(200));
    }

    /** `update_from_jriver()`. */
    method UpdateFromJRiver(net: Network) returns (r: Outcome<()>)
      modifies this`keyId, this`port, this`localIpList, this`remoteIp, this`log
      ensures var t := UpdateOf(old(State()), net);
        r == t.result && State() == t.state && log == old(log) + t.events
    {
      log := log + [LookedUp(keyId)];
      var answer := net.lookup(keyId);
      if answer.Err? {
        return Err(answer.error);
      }
      if answer.value.Rejected? {
        return Err(UnresolvableKey(keyId, answer.value.message));
      }
      var reply := answer.value;
      keyId := reply.keyId;
      port := Set(reply.port);
      if reply.localIpList.None? {
        return Err(AttributeError);
      }
      localIpList := Set(Split(reply.localIpList.value, ','));
      remoteIp := Set(reply.ip);
      if reply.macAddressList.None? {
        return Err(AttributeError);
      }
      return Ok(());
    }

    /** Steps 2 to 5 of `refresh()`. */
    method RefreshFromStepTwo(net: Network) returns (r: Outcome<bool>)
      modifies this`keyId, this`conStrategy, this`localIpList, this`localIp, this`port, this`remoteIp, this`log
      ensures var t := RefreshFromLookup(old(State()), net, Credentials());
        r == t.result && State() == t.state && log == old(log) + t.events
    {
      ghost var s0, log0, auth := State(), log, Credentials();
      ghost var u := if s0.conStrategy == Unknown || s0.conStrategy == Unreachable then UpdateOf(s0, net) else Step(Ok(()), s0, []);
      if conStrategy == Unknown || conStrategy == Unreachable {
        var updated := UpdateFromJRiver(net);
        if updated.Err? {
          return Err(updated.error);
        }
      }
      assert u.result.Ok? && State() == u.state && log == log0 + u.events;
      ghost var l := TestLocalOf(u.state, net, auth);
      var local := TestLocal(net);
      EventsAssoc(log0, u.events, l.events);
      if local.Err? {
        return Err(local.error);
      }
      if local.value {
        conStrategy := Local;
        return Ok(true);
      }
      ghost var t := TestRemoteOf(l.state, net, auth);
      var remote := TestRemote(net);
      EventsAssoc(log0, u.events + l.events, t.events);
      if remote.Err? {
        return Err(remote.error);
      }
      if remote.value {
        conStrategy := Remote;
        return Ok(true);
      }
      return Ok(false);
    }

    /** `refresh()`. */
    method Refresh(net: Network) returns (r: Outcome<bool>)
      modifies this`keyId, this`conStrategy, this`localIpList, this`localIp, this`port, this`remoteIp, this`log
      ensures var t := RefreshOf(old(State()), net, Credentials());
        r == t.result && State() == t.state && log == old(log) + t.events
    {
      if conStrategy == Local {
        ghost var probe := TestLocalOf(State(), net, Credentials());
        var alive := TestLocal(net);
        if alive.Err? {
          return Err(alive.error);
        }
        if alive.value {
          conStrategy := Local;
          return Ok(true);
        }
        conStrategy := Unknown;
        r := RefreshFromStepTwo(net);
        EventsAssoc(old(log), probe.events, RefreshFromLookup(probe.state.(conStrategy := Unknown), net, Credentials()).events);
        return;
      }
      r := RefreshFromStepTwo(net);
    }

    /** `attempt_request(extension, payload)`. */
    method AttemptRequest(net: Network, extension: string, params: Option<Params>) returns (r: Outcome<Response>)
      modifies this`keyId, this`conStrategy, this`localIpList, this`localIp, this`port, this`remoteIp, this`log
      ensures var t := AttemptOf(old(State()), net, Credentials(), extension, params);
        r == t.result && State() == t.state && log == old(log) + t.events
    {
      var address := AddressOf(State());
      if address.Err? {
        return Err(address.error);
      }
      if address.value.None? {
        var refreshed := Refresh(net);
        if refreshed.Err? {
          return Err(refreshed.error);
        }
      }
      var endpoint := Endpoint(AddressOf(State()), extension);
      if endpoint.Err? {
        return Err(endpoint.error);
      }
      var reply := net.serve(endpoint.value, params);
      log := log + [Sent(endpoint.value, params)];
      if reply.None? {
        return Err(ConnectionFailed);
      }
      if reply.value.status == 404 {
        return Err(HttpError(404));
      }
      return Ok(reply.value);
    }

    /** `send_request(extension, payload)`; the payload is a dict, so its keys are distinct. */
    method SendRequest(net: Network, extension: string, payload: Option<Params>) returns (r: Outcome<Response>)
      requires payload.Some? ==> DistinctKeys(payload.value)
      modifies this`keyId, this`conStrategy, this`localIpList, this`localIp, this`port, this`remoteIp, this`log
      ensures var t := SendOf(old(State()), net, Credentials(), extension, payload);
        r == t.result && State() == t.state && log == old(log) + t.events
    {
      ghost var s0, log0, auth := State(), log, Credentials();
      ghost var f := if s0.conStrategy == Unknown then RefreshOf(s0, net, auth) else Step(Ok(true), s0, []);
      if conStrategy == Unknown {
        var refreshed := Refresh(net);
        if refreshed.Err? {
          return Err(refreshed.error);
        }
      }
      assert f.result.Ok? && State() == f.state && log == log0 + f.events;
      var params: Option<Params> := None;
      if payload.Some? {
        var stripped := StripNone(payload.value);
        params := Some(stripped);
      }
      assert params == StrippedPayload(payload);
      ghost var a := AttemptOf(f.state, net, auth, extension, params);
      r := AttemptRequest(net, extension, params);
      EventsAssoc(log0, f.events, a.events);
      if r.Err? && r.error.HttpError? {
        ghost var g := RefreshOf(a.state, net, auth);
        var refreshed := Refresh(net);
        EventsAssoc(log0, f.events + a.events, g.events);
        if refreshed.Err? {
          return Err(refreshed.error);
        }
        ghost var b := AttemptOf(g.state, net, auth, extension, params);
        r := AttemptRequest(net, extension, params);
        EventsAssoc(log0 + (f.events + a.events), g.events, b.events);
        EventsAssoc(log0, f.events + a.events, g.events + b.events);
      }
    }

    /**
     * The `fields` property: fetched with `Library/Fields` on first use and cached. A
     * property getter takes no `update` argument, so once cached the table is returned as
     * it is forever, with no traffic.
     */
    method Fields(net: Network) returns (r: Outcome<FieldTable>)
      modifies this
      ensures old(fieldsCache).Some? ==> r == Ok(old(fieldsCache).value) && State() == old(State())
      ensures old(fieldsCache).Some? ==> fieldsCache == old(fieldsCache) && log == old(log)
      ensures old(fieldsCache).None? ==>
        var t := SendOf(old(State()), net, Credentials(), Library.FieldsRequest.extension, Library.FieldsRequest.payload);
        && State() == t.state && log == old(log) + t.events
        && r == (if t.result.Err? then Err(t.result.error) else FieldsReply(t.result.value))
        && fieldsCache == (if r.Ok? then Some(r.value) else None)
    {
      if fieldsCache.Some? {
        return Ok(fieldsCache.value);
      }
      var response := SendRequest(net, Library.FieldsRequest.extension, Library.FieldsRequest.payload);
      if response.Err? {
        return Err(response.error);
      }
      r := BuildFieldTable(response.value);
      if r.Ok? {
        fieldsCache := Some(r.value);
      }
    }
  }

  /**
   * A new server is valid. For "localhost" its address is the local MCWS URL at port 52199
   * at once; for any other key it has no address until a refresh. Both hold for the state
   * the constructor builds and for the one with the corrected local IP list.
   */
  lemma InitialAddress(keyId: string)
    ensures Valid(InitialStateAsWritten(keyId)) && Valid(InitialState(keyId))
    ensures AddressOf(InitialStateAsWritten("localhost")) == Ok(Some("http://127.0.0.1:52199/MCWS/v1/"))
    ensures AddressOf(InitialState("localhost")) == Ok(Some("http://127.0.0.1:52199/MCWS/v1/"))
    ensures keyId != "localhost" ==> AddressOf(InitialStateAsWritten(keyId)) == Ok(None)
  {
    assert ApiUrl("127.0.0.1", "52199") == "http://127.0.0.1:52199/MCWS/v1/";
  }
}
