/**
 * The service resolver of ignite.py, `load_service` (ignite.py:59-92): it
 * checks one service entry of the configuration, converts its port numbers,
 * fills in the defaults of its optional keys and returns the service record
 * that goes into the manifest, or raises.
 */
module Services {

  import opened Wrappers
  import opened Values

  /** The exceptions `load_service` raises. */
  datatype Error =
    | KeyError(key: string)           // a required key is absent
    | NameNotAString(value: Value)    // `re.match` on a name that is not a string (TypeError)
    | InvalidName(name: string)       // ignite.py:61
    | BadPortNumber(cause: IntError)   // `int()` of a port field failed

  /** One entry of a service's `ports` list; `None` is an absent key. */
  datatype RawPort = RawPort(host: Option<Value>, container: Option<Value>, protocol: Option<Value>)

  /** One entry of a service's `bind_mounts` list; `None` is an absent key. */
  datatype RawMount = RawMount(host: Option<Value>, container: Option<Value>, readOnly: Option<Value>)

  /** One entry of the configuration's `services` list: the keys `load_service`
      reads (any others are ignored); `None` is an absent key. */
  datatype RawService = RawService(
    name: Option<Value>,
    image: Option<Value>,
    environment: Option<Value>,
    ports: Option<seq<RawPort>>,
    bindMounts: Option<seq<RawMount>>,
    command: Option<Value>,
    isEnabled: Option<Value>)

  datatype Port = Port(host: int, container: int, protocol: Value)

  datatype BindMount = BindMount(host: Value, container: Value, readOnly: Value)

  /** The record `load_service` returns; `command` is `None` when the key is left out. */
  datatype Service = Service(
    name: string,
    image: Value,
    environment: Value,
    ports: seq<Port>,
    bindMounts: seq<BindMount>,
    isEnabled: bool,
    command: Option<Value>)

  /** `config[key]`. */
  function Require(field: Option<Value>, key: string): (r: Result<Value, Error>)
    ensures field.Some? ==> r == Success(field.value)
    ensures field.None? ==> r == Failure(KeyError(key))
  {
    match field
    case Some(v) => Success(v)
    case None => Failure(KeyError(key))
  }

  /** `int(v)` for a port field. */
  function PortNumber(v: Value): (r: Result<int, Error>)
    ensures ToInt(v).Success? ==> r == Success(ToInt(v).value)
    ensures ToInt(v).Failure? ==> r == Failure(BadPortNumber(ToInt(v).error))
  {
    match ToInt(v)
    case Success(n) => Success(n)
    case Failure(e) => Failure(BadPortNumber(e))
  }

  // ---------------------------------------------------------------------------
  // The name check

  /** The characters of `[a-z0-9-]`. */
  predicate IsNameChar(c: char) {
    ('a' <= c <= 'z') || ('0' <= c <= '9') || c == '-'
  }

  /** The length of the match of `re.match("[a-z0-9-]+", s)`: the greedy run
      of name characters at the start of `s`, 0 when there is no match. */
  function MatchLength(s: string): (n: nat)
    ensures n <= |s|
    ensures forall k :: 0 <= k < n ==> IsNameChar(s[k])
    ensures n == |s| || !IsNameChar(s[n])
  {
    if s != [] && IsNameChar(s[0]) then 1 + MatchLength(s[1..]) else 0
  }

  /** The test of ignite.py:60. The match is anchored at the start only, so it
      decides on the first character alone. */
  predicate MatchesName(s: string)
    ensures MatchesName(s) <==> s != "" && IsNameChar(s[0])
  {
    MatchLength(s) > 0
  }

  /** The name key is present, a string, and passes the check. */
  predicate NameAccepted(config: RawService) {
    config.name.Some? && config.name.value.Str? && MatchesName(config.name.value.s)
  }

  // ---------------------------------------------------------------------------
  // Ports and bind mounts

  /** The port record built at ignite.py:65-69. */
  function ResolvePort(p: RawPort): (r: Result<Port, Error>)
    ensures r.Success? <==> p.host.Some? && ToInt(p.host.value).Success?
                            && p.container.Some? && ToInt(p.container.value).Success?
    ensures p.host.None? ==> r == Failure(KeyError("host"))
    ensures p.host.Some? && ToInt(p.host.value).Failure? ==> r == Failure(BadPortNumber(ToInt(p.host.value).error))
    ensures p.host.Some? && ToInt(p.host.value).Success? && p.container.None? ==> r == Failure(KeyError("container"))
    ensures p.host.Some? && ToInt(p.host.value).Success? && p.container.Some? && ToInt(p.container.value).Failure?
            ==> r == Failure(BadPortNumber(ToInt(p.container.value).error))
    ensures r.Success? ==> && r.value.host == ToInt(p.host.value).value
                           && r.value.container == ToInt(p.container.value).value
                           && r.value.protocol == (if p.protocol.Some? then p.protocol.value else Str("tcp"))
  {
    var host :- Require(p.host, "host");
    var hostNumber :- PortNumber(host);
    var container :- Require(p.container, "container");
    var containerNumber :- PortNumber(container);
    Success(Port(hostNumber, containerNumber, p.protocol.GetOr(Str("tcp"))))
  }

  /** The bind-mount record built at ignite.py:73-77. */
  function ResolveMount(m: RawMount): (r: Result<BindMount, Error>)
    ensures r.Success? <==> m.host.Some? && m.container.Some?
    ensures m.host.None? ==> r == Failure(KeyError("host"))
    ensures m.host.Some? && m.container.None? ==> r == Failure(KeyError("container"))
    ensures r.Success? ==> && r.value.host == m.host.value
                           && r.value.container == m.container.value
                           && r.value.readOnly == (if m.readOnly.Some? then m.readOnly.value else Bool(false))
  {
    var host :- Require(m.host, "host");
    var container :- Require(m.container, "container");
    Success(BindMount(host, container, m.readOnly.GetOr(Bool(false))))
  }

  // ---------------------------------------------------------------------------
  // The whole entry

  /** What `load_service(config)` returns or raises. */
  function ResolveService(config: RawService): (r: Result<Service, Error>)
    // the checks, in the order the source makes them
    ensures config.name.None? ==> r == Failure(KeyError("name"))
    ensures config.name.Some? && !config.name.value.Str? ==> r == Failure(NameNotAString(config.name.value))
    ensures config.name.Some? && config.name.value.Str? && !MatchesName(config.name.value.s)
            ==> r == Failure(InvalidName(config.name.value.s))
    ensures NameAccepted(config) && !AllSucceed(ResolvePort, config.ports.GetOr([]))
            ==> r.Failure? && FailsFirstWith(ResolvePort, config.ports.GetOr([]), r.error)
    ensures NameAccepted(config) && AllSucceed(ResolvePort, config.ports.GetOr([]))
            && !AllSucceed(ResolveMount, config.bindMounts.GetOr([]))
            ==> r.Failure? && FailsFirstWith(ResolveMount, config.bindMounts.GetOr([]), r.error)
    ensures NameAccepted(config) && AllSucceed(ResolvePort, config.ports.GetOr([]))
            && AllSucceed(ResolveMount, config.bindMounts.GetOr([])) && config.image.None?
            ==> r == Failure(KeyError("image"))
    ensures r.Success? <==> && NameAccepted(config)
                            && AllSucceed(ResolvePort, config.ports.GetOr([]))
                            && AllSucceed(ResolveMount, config.bindMounts.GetOr([]))
                            && config.image.Some?
    // the record
    ensures r.Success? ==> && r.value.name == config.name.value.s
                           && r.value.image == config.image.value
                           && r.value.environment == config.environment.GetOr(Dict(map[]))
                           && r.value.isEnabled == Truthy(config.isEnabled.GetOr(Bool(true)))
    ensures r.Success? ==> var raw := config.ports.GetOr([]);
                           && |r.value.ports| == |raw|
                           && forall i :: 0 <= i < |raw| ==> ResolvePort(raw[i]) == Success(r.value.ports[i])
    ensures r.Success? ==> var raw := config.bindMounts.GetOr([]);
                           && |r.value.bindMounts| == |raw|
                           && forall i :: 0 <= i < |raw| ==> ResolveMount(raw[i]) == Success(r.value.bindMounts[i])
    ensures r.Success? ==> (r.value.command.Some? <==> config.command.Some? && Truthy(config.command.value))
    ensures r.Success? && r.value.command.Some? ==> r.value.command.value == config.command.value
  {
    var nameValue :- Require(config.name, "name");
    var name :- if nameValue.Str? then Success(nameValue.s) else Failure(NameNotAString(nameValue));
    if !MatchesName(name) then Failure(InvalidName(name))
    else
      var ports :- MapAll(ResolvePort, config.ports.GetOr([]));
      var mounts :- MapAll(ResolveMount, config.bindMounts.GetOr([]));
      var image :- Require(config.image, "image");
      var command := config.command.GetOr(Null);
      Success(Service(
        name,
        image,
        config.environment.GetOr(Dict(map[])),
        ports,
        mounts,
        Truthy(config.isEnabled.GetOr(Bool(true))),
        if Truthy(command) then Some(command) else None))
  }

  /** What `load_service` returns once the name, the ports and the mounts have passed. */
  lemma ResolveServiceAfterLists(config: RawService, ports: seq<Port>, mounts: seq<BindMount>)
    requires NameAccepted(config)
    requires MapAll(ResolvePort, config.ports.GetOr([])) == Success(ports)
    requires MapAll(ResolveMount, config.bindMounts.GetOr([])) == Success(mounts)
    ensures config.image.None? ==> ResolveService(config) == Failure(KeyError("image"))
    ensures config.image.Some? ==>
              var command := config.command.GetOr(Null);
              ResolveService(config) == Success(Service(
                config.name.value.s,
                config.image.value,
                config.environment.GetOr(Dict(map[])),
                ports,
                mounts,
                Truthy(config.isEnabled.GetOr(Bool(true))),
                if Truthy(command) then Some(command) else None))
  {
  }

  /** `load_service` as the source runs it: two appending loops, then the
      record, into which `command` is inserted only when it is truthy. */
  method LoadService(config: RawService) returns (r: Result<Service, Error>)
    ensures r == ResolveService(config)
  {
    if config.name.None? {
      return Failure(KeyError("name"));
    }
    var nameValue := config.name.value;
    if !nameValue.Str? {
      return Failure(NameNotAString(nameValue));
    }
    var name := nameValue.s;
    if !MatchesName(name) {
      return Failure(InvalidName(name));
    }

    var rawPorts := config.ports.GetOr([]);
    var ports: seq<Port> := [];
    var i := 0;
    while i < |rawPorts|
      invariant 0 <= i <= |rawPorts|
      invariant |ports| == i
      invariant forall j :: 0 <= j < i ==> ResolvePort(rawPorts[j]) == Success(ports[j])
    {
      var port := ResolvePort(rawPorts[i]);
      if port.Failure? {
        MapAllFailsAt(ResolvePort, rawPorts, i);
        return Failure(port.error);
      }
      ports := ports + [port.value];
      i := i + 1;
    }
    MapAllSucceedsWith(ResolvePort, rawPorts, ports);

    var rawMounts := config.bindMounts.GetOr([]);
    var mounts: seq<BindMount> := [];
    i := 0;
    while i < |rawMounts|
      invariant 0 <= i <= |rawMounts|
      invariant |mounts| == i
      invariant forall j :: 0 <= j < i ==> ResolveMount(rawMounts[j]) == Success(mounts[j])
    {
      var mount := ResolveMount(rawMounts[i]);
      if mount.Failure? {
        MapAllFailsAt(ResolveMount, rawMounts, i);
        return Failure(mount.error);
      }
      mounts := mounts + [mount.value];
      i := i + 1;
    }
    MapAllSucceedsWith(ResolveMount, rawMounts, mounts);

    ResolveServiceAfterLists(config, ports, mounts);
    if config.image.None? {
      return Failure(KeyError("image"));
    }
    var service := Service(
      name,
      config.image.value,
      config.environment.GetOr(Dict(map[])),
      ports,
      mounts,
      Truthy(config.isEnabled.GetOr(Bool(true))),
      None);
    var command := config.command.GetOr(Null);
    if Truthy(command) {
      service := service.(command := Some(command));
    }
    return Success(service);
  }

  // ---------------------------------------------------------------------------
  // Examples

  /** An entry with just a name and an image. */
  function Minimal(name: string, image: string): RawService {
    RawService(Some(Str(name)), Some(Str(image)), None, None, None, None, None)
  }

  /** The name check looks at the first character only: a name with a bad
      character after a good one is accepted. */
  lemma PrefixMatchAcceptsTrailingJunk()
    ensures ResolveService(Minimal("abc!", "nginx")).Success?
    ensures ResolveService(Minimal("-", "nginx")).Success?
  {
  }

  /** An empty name, or one starting with a character outside `[a-z0-9-]`, is refused. */
  lemma BadFirstCharacterRefused(image: string)
    ensures ResolveService(Minimal("", image)) == Failure(InvalidName(""))
    ensures ResolveService(Minimal("Nginx", image)) == Failure(InvalidName("Nginx"))
    ensures ResolveService(Minimal("_x", image)) == Failure(InvalidName("_x"))
  {
  }

  /** The resolved form of a configuration entry with one port and defaults elsewhere. */
  lemma NginxExample()
    ensures var raw := RawService(Some(Str("nginx")), Some(Str("nginx")), None,
                                  Some([RawPort(Some(Int(8080)), Some(Int(80)), None)]), None, None, None);
            ResolveService(raw) == Success(Service("nginx", Str("nginx"), Dict(map[]),
                                                   [Port(8080, 80, Str("tcp"))], [], true, None))
  {
    var port := RawPort(Some(Int(8080)), Some(Int(80)), None);
    assert ResolvePort(port) == Success(Port(8080, 80, Str("tcp")));
    var result := MapAll(ResolvePort, [port]);
    assert result.Success? && |result.value| == 1 && result.value[0] == Port(8080, 80, Str("tcp"));
    assert result.value == [Port(8080, 80, Str("tcp"))];
  }
}
