/** The MCP broker's choice of a transport: rotating fallback when a server is activated, and which transport
    a call then goes through. */
module BrokerTransports {
  import opened Text

  datatype TransportKind = Npx | Uvx | Local | Docker | Http | Unknown(name: string)

  datatype Transport = Transport(kind: TransportKind, package: string, args: seq<string>, url: string)

  datatype ServerConfig = ServerConfig(name: string, command: string, args: seq<string>, isHttp: bool, url: string)

  /** `ToServerConfig`; `container` is the container runtime found on the machine. */
  function ToServerConfig(t: Transport, name: string, container: string): ServerConfig {
    match t.kind
    case Npx => ServerConfig(name, "npx", ["-y", t.package] + t.args, false, "")
    case Uvx => ServerConfig(name, "uvx", [t.package] + t.args, false, "")
    case Local => ServerConfig(name, t.package, t.args, false, "")
    case Docker =>
      var args := ["run", "-i", "--rm"] + t.args + (if t.package == "" then [] else [t.package]);
      ServerConfig(name, container, args, false, "")
    case Http => ServerConfig(name, "", [], true, t.url)
    case Unknown(_) => ServerConfig(name, "", [], false, "")
  }

  function CommandLine(config: ServerConfig): seq<string> {
    [config.command] + config.args
  }

  /** The command line behind each kind of transport, with the transport's own arguments in their order; an HTTP
      transport has none, but its URL. */
  lemma CommandLines(t: Transport, name: string, container: string)
    ensures var config := ToServerConfig(t, name, container);
            && config.name == name
            && (config.isHttp <==> t.kind == Http) && config.url == (if t.kind == Http then t.url else "")
            && CommandLine(config) ==
               match t.kind
               case Npx => ["npx", "-y", t.package] + t.args
               case Uvx => ["uvx", t.package] + t.args
               case Local => [t.package] + t.args
               case Docker =>
                 [container, "run", "-i", "--rm"] + t.args + if t.package != "" then [t.package] else []
               case Http | Unknown(_) => [""]
  {
    if t.kind == Docker && t.package != "" {
      Regroup([container], ["run", "-i", "--rm"] + t.args, [t.package]);
      Regroup([container], ["run", "-i", "--rm"], t.args);
    }
  }

  /** How starting a server, or connecting to it, turns out. */
  datatype Outcome = Works | LaunchFails | HandshakeFails

  /** The value of a registry entry; `runtime` is the configuration of the process that its pipes lead to. */
  datatype Entry = Entry(config: ServerConfig, runtime: Option<ServerConfig>)

  // ---------------------------------------------------------------- the search for a transport

  predicate Succeeds(config: ServerConfig, outcome: Outcome) {
    outcome.Works? && (config.isHttp ==> config.url != "")
  }

  /** A failed attempt leaves the configuration as it was; a process that was launched has been stopped. */
  function AfterFailure(e: Entry, config: ServerConfig, outcome: Outcome): Entry {
    if !config.isHttp && outcome.HandshakeFails? then e.(runtime := None) else e
  }

  function AfterSuccess(config: ServerConfig): Entry {
    Entry(config, if config.isHttp then None else Some(config))
  }

  function Start(index: int, n: nat): nat
    requires n > 0
  {
    if index < 0 || index >= n then 0 else index
  }

  /** The i-th index in rotation order. */
  function Rotated(start: nat, i: nat, n: nat): (index: nat)
    requires start < n && i < n
    ensures index < n
  {
    if start + i < n then start + i else start + i - n
  }

  lemma Times(q: int, n: int)
    requires n > 0
    ensures q <= 0 ==> q * n <= 0
    ensures q >= 2 ==> q * n >= 2 * n
  {
    if q >= 2 {
      assert q * n == 2 * n + (q - 2) * n;
    }
  }

  lemma ModuloOnce(x: int, n: int)
    requires 0 < n <= x < 2 * n
    ensures x % n == x - n
  {
    var q := x / n;
    assert x == q * n + x % n;
    Times(q, n);
  }

  lemma ModuloNone(x: nat, n: nat)
    requires x < n
    ensures x % n == x
  {
  }

  lemma RotatedIsModulo(start: nat, i: nat, n: nat)
    requires start < n && i < n
    ensures Rotated(start, i, n) == (start + i) % n
  {
    if start + i >= n {
      ModuloOnce(start + i, n);
    } else {
      ModuloNone(start + i, n);
    }
  }

  /** What an activation is asked to do, and how each transport would turn out. */
  datatype Request = Request(name: string, transports: seq<Transport>, start: nat, outcomes: seq<Outcome>,
                             container: string)

  predicate IsRequest(r: Request) {
    r.start < |r.transports| == |r.outcomes|
  }

  function Config(r: Request, i: nat): ServerConfig
    requires IsRequest(r) && i < |r.transports|
  {
    ToServerConfig(r.transports[Rotated(r.start, i, |r.transports|)], r.name, r.container)
  }

  function OutcomeOf(r: Request, i: nat): Outcome
    requires IsRequest(r) && i < |r.transports|
  {
    r.outcomes[Rotated(r.start, i, |r.transports|)]
  }

  predicate WorksAt(r: Request, i: nat)
    requires IsRequest(r) && i < |r.transports|
  {
    Succeeds(Config(r, i), OutcomeOf(r, i))
  }

  /** The first position in rotation order, from `i` on, whose transport works; or their number. */
  function FirstWorking(r: Request, i: nat): (k: nat)
    requires IsRequest(r) && i <= |r.transports|
    ensures i <= k <= |r.transports|
    ensures forall j :: i <= j < k ==> !WorksAt(r, j)
    ensures k < |r.transports| ==> WorksAt(r, k)
    decreases |r.transports| - i
  {
    if i == |r.transports| || WorksAt(r, i) then i else FirstWorking(r, i + 1)
  }

  function AfterSearch(e: Entry, r: Request, i: nat): Entry
    requires IsRequest(r) && i <= |r.transports|
    decreases |r.transports| - i
  {
    if i == |r.transports| then e
    else if WorksAt(r, i) then AfterSuccess(Config(r, i))
    else AfterSearch(AfterFailure(e, Config(r, i), OutcomeOf(r, i)), r, i + 1)
  }

  /** The indices tried, in order, when the search has come to position `i`. */
  function TriedUpTo(r: Request, i: nat): (tried: seq<nat>)
    requires IsRequest(r) && i <= |r.transports|
    ensures |tried| == i && forall j :: 0 <= j < i ==> tried[j] == Rotated(r.start, j, |r.transports|)
  {
    if i == 0 then [] else TriedUpTo(r, i - 1) + [Rotated(r.start, i - 1, |r.transports|)]
  }

  /** The attempts begin at the requested index if there is such a transport, and at the first one otherwise, and
      go round from there. */
  lemma TriedInRotation(name: string, transports: seq<Transport>, index: int, outcomes: seq<Outcome>,
                        container: string, i: nat)
    requires |outcomes| == |transports| && transports != [] && i <= |transports|
    ensures var r := Request(name, transports, Start(index, |transports|), outcomes, container);
            var first := if 0 <= index < |transports| then index else 0;
            && IsRequest(r) && |TriedUpTo(r, i)| == i
            && forall j :: 0 <= j < i ==> TriedUpTo(r, i)[j] == (first + j) % |transports|
  {
    var r := Request(name, transports, Start(index, |transports|), outcomes, container);
    forall j | 0 <= j < i
      ensures TriedUpTo(r, i)[j] == (r.start + j) % |transports|
    {
      RotatedIsModulo(r.start, j, |transports|);
    }
  }

  /** A transport works if and only if its attempt turns out well and, for HTTP, there is a URL. */
  lemma WorksExactly(r: Request, i: nat)
    requires IsRequest(r) && i < |r.transports|
    ensures var k := (r.start + i) % |r.transports|;
            && 0 <= k < |r.transports|
            && (WorksAt(r, i) <==>
                  r.outcomes[k] == Works && (r.transports[k].kind == Http ==> r.transports[k].url != ""))
  {
    RotatedIsModulo(r.start, i, |r.transports|);
  }

  /** No index is tried twice, and if all positions are tried every index has been. */
  lemma EachIndexOnce(r: Request, i: nat)
    requires IsRequest(r) && i <= |r.transports|
    ensures var tried := TriedUpTo(r, i); forall j, k :: 0 <= j < k < |tried| ==> tried[j] != tried[k]
    ensures i == |r.transports| ==> forall index: nat :: index < |r.transports| ==> index in TriedUpTo(r, i)
  {
    var n, tried := |r.transports|, TriedUpTo(r, i);
    if i == n {
      forall index: nat | index < n
        ensures index in tried
      {
        var j := if index >= r.start then index - r.start else index + n - r.start;
        assert tried[j] == index;
      }
    }
  }

  predicate HandshakeFailsFrom(r: Request, i: nat)
    requires IsRequest(r) && i <= |r.transports|
  {
    exists j :: i <= j < |r.transports| && !Config(r, j).isHttp && OutcomeOf(r, j).HandshakeFails?
  }

  /** Where the search ends: at the first transport in rotation order that works, with its configuration;
      or, if none does, with the configuration of the start. */
  lemma {:induction false} SearchEndsAtFirst(e: Entry, r: Request, i: nat)
    requires IsRequest(r) && i <= |r.transports|
    ensures var k := FirstWorking(r, i);
            if k < |r.transports| then AfterSearch(e, r, i) == AfterSuccess(Config(r, k))
            else
              && AfterSearch(e, r, i).config == e.config
              && AfterSearch(e, r, i).runtime
                 == if HandshakeFailsFrom(r, i) then None else e.runtime
    decreases |r.transports| - i
  {
    if i < |r.transports| && !WorksAt(r, i) {
      SearchEndsAtFirst(AfterFailure(e, Config(r, i), OutcomeOf(r, i)), r, i + 1);
    }
  }

  // ---------------------------------------------------------------- one server name

  /** Where a call goes. */
  datatype Route = ViaHttp(client: ServerConfig) | ViaStdio(process: ServerConfig) | NotRunning | NotRegistered

  /** What the broker holds under one name: the registry entry and the HTTP client. */
  datatype Server = Server(entry: Option<Entry>, client: Option<ServerConfig>)

  function Routed(s: Server): Route {
    if s.client.Some? then ViaHttp(s.client.value)
    else if s.entry.None? then NotRegistered
    else if s.entry.value.runtime.None? then NotRunning
    else ViaStdio(s.entry.value.runtime.value)
  }

  /** The configuration that an activation ends with, if any transport works. */
  function Chosen(r: Request): Option<ServerConfig>
    requires IsRequest(r)
  {
    var k := FirstWorking(r, 0);
    if k < |r.transports| then Some(Config(r, k)) else None
  }

  function Activated(s: Server, r: Request): Server
    requires IsRequest(r) && s.entry.Some?
  {
    var chosen := Chosen(r);
    Server(Some(AfterSearch(s.entry.value, r, 0)), if chosen.Some? && chosen.value.isHttp then chosen else s.client)
  }

  // ---------------------------------------------------------------- the broker

  class ServerEntry {
    var config: ServerConfig
    var runtime: Option<ServerConfig>

    constructor (config: ServerConfig)
      ensures View() == Entry(config, None)
    {
      this.config, runtime := config, None;
    }

    function View(): Entry
      reads this
    {
      Entry(config, runtime)
    }
  }

  class Broker {
    var registry: map<string, ServerEntry>
    var httpClients: map<string, ServerConfig>

    constructor ()
      ensures registry == map[] && httpClients == map[] && Valid()
    {
      registry, httpClients := map[], map[];
    }

    ghost predicate Valid()
      reads this
    {
      forall a, b :: a in registry && b in registry && a != b ==> registry[a] != registry[b]
    }

    function At(name: string): Server
      reads this, registry.Values
    {
      Server(if name in registry then Some(registry[name].View()) else None, Get(httpClients, name))
    }

    ghost function EntryOf(name: string): set<ServerEntry>
      reads this
    {
      if name in registry then {registry[name]} else {}
    }

    twostate predicate OthersUnchanged(name: string)
      reads this, registry.Values
    {
      forall other :: other != name ==>
        && (other in registry <==> other in old(registry))
        && (other in registry ==> registry[other] == old(registry[other]))
        && At(other) == old(At(other))
    }

    twostate lemma OthersByFrame(name: string)
      requires registry == old(registry) && name in registry && (httpClients - {name}) == old(httpClients - {name})
      requires forall other :: other in registry && other != name ==>
                 registry[other].View() == old(registry[other].View())
      ensures OthersUnchanged(name)
    {
      forall other | other != name
        ensures Get(httpClients, other) == old(Get(httpClients, other))
      {
        assert other in httpClients <==> other in httpClients - {name};
        assert old(other in httpClients <==> other in httpClients - {name});
      }
    }

    /** Registering, by either method: a new entry takes the place of the old one. An HTTP client stays. */
    method Register(config: ServerConfig)
      requires Valid()
      modifies this`registry
      ensures Valid() && config.name in registry && fresh(registry[config.name])
      ensures At(config.name) == Server(Some(Entry(config, None)), old(At(config.name)).client)
      ensures OthersUnchanged(config.name)
    {
      var entry := new ServerEntry(config);
      registry := registry[config.name := entry];
    }

    /** `RegisterServer`. */
    method RegisterServer(config: ServerConfig) returns (ok: bool)
      requires Valid()
      modifies this`registry
      ensures Valid() && (ok <==> config.name != "" && config.command != "")
      ensures At(config.name) == if ok then Server(Some(Entry(config, None)), old(At(config.name)).client)
                                 else old(At(config.name))
      ensures OthersUnchanged(config.name)
    {
      if config.name == "" || config.command == "" {
        return false;
      }
      Register(config);
      return true;
    }

    /** `RegisterMCPServer`: with the configuration of the first transport. */
    method RegisterMCPServer(name: string, transports: seq<Transport>, container: string) returns (ok: bool)
      requires Valid()
      modifies this`registry
      ensures Valid() && (ok <==> name != "" && transports != [])
      ensures At(name) ==
              if ok then Server(Some(Entry(ToServerConfig(transports[0], name, container), None)), old(At(name)).client)
                          else old(At(name))
      ensures OthersUnchanged(name)
    {
      if name == "" || |transports| == 0 {
        return false;
      }
      Register(ToServerConfig(transports[0], name, container));
      return true;
    }

    /** `StartServer`: launches the entry's own configuration. A failed handshake stops the process again. */
    method StartServer(name: string, outcome: Outcome) returns (ok: bool)
      modifies EntryOf(name)
      ensures ok <==> name in registry && outcome.Works?
      ensures name in registry ==>
                var e := old(registry[name].View());
                registry[name].View() == if outcome.Works? then e.(runtime := Some(e.config))
                                         else if outcome.LaunchFails? then e else e.(runtime := None)
    {
      if name !in registry {
        return false;
      }
      var entry := registry[name];
      if outcome.LaunchFails? {
        return false;
      }
      entry.runtime := Some(entry.config);
      if outcome.HandshakeFails? {
        entry.runtime := None;
        return false;
      }
      return true;
    }

    /** One attempt. */
    method Try(name: string, config: ServerConfig, outcome: Outcome) returns (ok: bool)
      requires Valid() && name in registry
      modifies EntryOf(name), this`httpClients
      ensures ok == Succeeds(config, outcome)
      ensures registry[name].View() == if ok then AfterSuccess(config)
                                       else AfterFailure(old(registry[name].View()), config, outcome)
      ensures httpClients == if ok && config.isHttp then old(httpClients)[name := config] else old(httpClients)
    {
      var entry := registry[name];
      if config.isHttp {
        if config.url == "" || !outcome.Works? {
          return false;
        }
        entry.config := config;
        entry.runtime := None;
        httpClients := httpClients[name := config];
        return true;
      }
      var oldConfig := entry.config;
      entry.config := config;
      ok := StartServer(name, outcome);
      if !ok {
        entry.config := oldConfig;
      }
    }

    /** The fallback loop. */
    method TryAll(r: Request) returns (activated: Option<nat>, ghost tried: seq<nat>)
      requires Valid() && IsRequest(r) && r.name in registry
      modifies EntryOf(r.name), this`httpClients
      ensures registry[r.name].View() == AfterSearch(old(registry[r.name].View()), r, 0)
      ensures httpClients ==
              if Chosen(r).Some? && Chosen(r).value.isHttp then old(httpClients)[r.name := Chosen(r).value]
              else old(httpClients)
      ensures var k := FirstWorking(r, 0);
              if k < |r.transports| then
                activated == Some(Rotated(r.start, k, |r.transports|)) && tried == TriedUpTo(r, k + 1)
              else activated == None && tried == TriedUpTo(r, k)
    {
      tried := [];
      var n := |r.transports|;
      for i := 0 to n
        invariant tried == TriedUpTo(r, i) && httpClients == old(httpClients)
        invariant FirstWorking(r, 0) == FirstWorking(r, i)
        invariant AfterSearch(old(registry[r.name].View()), r, 0) == AfterSearch(registry[r.name].View(), r, i)
      {
        RotatedIsModulo(r.start, i, n);
        var idx := (r.start + i) % n;
        tried := tried + [idx];
        var ok := Try(r.name, ToServerConfig(r.transports[idx], r.name, r.container), r.outcomes[idx]);
        if ok {
          return Some(idx), tried;
        }
      }
      return None, tried;
    }

    /** `ActivateMCPServerWithTransport`: the kind of the transport that was activated, or nothing. `tried`
        lists the indices in the order in which they were tried. */
    method ActivateMCPServerWithTransport(name: string, transports: seq<Transport>, transportIndex: int,
                                          outcomes: seq<Outcome>, container: string)
      returns (activated: Option<TransportKind>, ghost tried: seq<nat>)
      requires Valid() && |outcomes| == |transports|
      modifies EntryOf(name), this`httpClients
      ensures OthersUnchanged(name)
      ensures name !in registry || transports == [] ==> activated == None && tried == [] && At(name) == old(At(name))
      ensures name in registry && transports != [] ==>
                var r := Request(name, transports, Start(transportIndex, |transports|), outcomes, container);
                var k := FirstWorking(r, 0);
                && At(name) == Activated(old(At(name)), r)
                && tried == TriedUpTo(r, if k < |transports| then k + 1 else k)
                && activated ==
                   if k < |transports| then Some(transports[Rotated(r.start, k, |transports|)].kind) else None
    {
      if name !in registry || |transports| == 0 {
        return None, [];
      }
      var startIdx := if transportIndex < 0 || transportIndex >= |transports| then 0 else transportIndex;
      var found;
      found, tried := TryAll(Request(name, transports, startIdx, outcomes, container));
      OthersByFrame(name);
      activated := if found.None? then None else Some(transports[found.value].kind);
    }

    /** `DeregisterServer`: the one place where an HTTP client is removed. */
    method DeregisterServer(name: string) returns (ok: bool)
      requires Valid()
      modifies this, EntryOf(name)
      ensures Valid() && ok == (name in old(registry))
      ensures At(name) == Server(None, None) && OthersUnchanged(name)
    {
      httpClients := httpClients - {name};
      if name in registry {
        registry[name].runtime := None;
      }
      ok := name in registry;
      registry := registry - {name};
    }

    /** The branch that `Call` takes. */
    method RouteOf(name: string) returns (route: Route)
      ensures route == Routed(At(name))
    {
      if name in httpClients {
        return ViaHttp(httpClients[name]);
      }
      if name !in registry {
        return NotRegistered;
      }
      var entry := registry[name];
      return if entry.runtime.None? then NotRunning else ViaStdio(entry.runtime.value);
    }
  }

  // ---------------------------------------------------------------- every run

  /** What can happen to one name; `Exit` is the death of its process, noticed by the launcher. */
  datatype Op = Register(config: ServerConfig) | Activate(request: Request) | Deregister | Exit

  predicate Activates(s: Server, op: Op) {
    op.Activate? && IsRequest(op.request) && s.entry.Some?
  }

  function Apply(s: Server, op: Op): Server {
    match op
    case Register(config) => s.(entry := Some(Entry(config, None)))
    case Activate(r) => if Activates(s, op) then Activated(s, r) else s
    case Deregister => Server(None, None)
    case Exit => if s.entry.Some? then s.(entry := Some(s.entry.value.(runtime := None))) else s
  }

  function Run(s: Server, ops: seq<Op>): Server {
    if ops == [] then s else Apply(Run(s, ops[..|ops| - 1]), ops[|ops| - 1])
  }

  /** Since the last deregistration: the transport activated last, the HTTP transport activated last, and
      whether the process of the former is untouched by a new registration, an exit or a failed handshake. */
  datatype Log = Log(last: Option<ServerConfig>, http: Option<ServerConfig>, untouched: bool)

  function Noted(log: Log, s: Server, op: Op): Log {
    match op
    case Register(_) => log.(untouched := false)
    case Activate(r) =>
      if !Activates(s, op) then log
      else if Chosen(r).Some? then Log(Chosen(r), if Chosen(r).value.isHttp then Chosen(r) else log.http, true)
      else log.(untouched := log.untouched && !HandshakeFailsFrom(r, 0))
    case Deregister => Log(None, None, false)
    case Exit => log.(untouched := false)
  }

  const UNKNOWN := Server(None, None)

  function LogOf(ops: seq<Op>): Log {
    if ops == [] then Log(None, None, false)
    else
      var before := ops[..|ops| - 1];
      Noted(LogOf(before), Run(UNKNOWN, before), ops[|ops| - 1])
  }

  /** How the state follows from the log. */
  predicate Explains(log: Log, s: Server) {
    && s.client == log.http && (log.http.Some? ==> log.last.Some?)
    && (s.entry.None? ==> log.last.None? && log.http.None?)
    && (log.last.Some? && log.last.value.isHttp ==> log.http == log.last)
    && (s.entry.Some? ==>
          s.entry.value.runtime ==
          if log.last.Some? && !log.last.value.isHttp && log.untouched then log.last else None)
  }

  lemma StepIsExplained(log: Log, s: Server, op: Op)
    requires Explains(log, s)
    ensures Explains(Noted(log, s, op), Apply(s, op))
  {
    if Activates(s, op) {
      SearchEndsAtFirst(s.entry.value, op.request, 0);
    }
  }

  lemma {:induction false} RunIsExplained(ops: seq<Op>)
    ensures Explains(LogOf(ops), Run(UNKNOWN, ops))
  {
    if ops != [] {
      var before := ops[..|ops| - 1];
      RunIsExplained(before);
      StepIsExplained(LogOf(before), Run(UNKNOWN, before), ops[|ops| - 1]);
    }
  }

  /** A name has an HTTP client only while it is registered. */
  lemma HttpClientsAreRegistered(ops: seq<Op>)
    ensures Run(UNKNOWN, ops).client.Some? ==> Run(UNKNOWN, ops).entry.Some?
  {
    RunIsExplained(ops);
  }

  /** The route of a call that uses the transport activated last. */
  function RouteVia(config: ServerConfig): Route {
    if config.isHttp then ViaHttp(config) else ViaStdio(config)
  }

  /** What a call does after any run: the HTTP transport activated last takes it, if there has been one
      since the last deregistration; without one it goes to the process of the transport activated last, or
      nowhere if that process is gone. */
  lemma RouteAfterRun(ops: seq<Op>)
    requires LogOf(ops).last.Some?
    ensures var log := LogOf(ops);
            Routed(Run(UNKNOWN, ops))
            == if log.http.Some? then ViaHttp(log.http.value)
               else if log.untouched then ViaStdio(log.last.value)
               else NotRunning
  {
    RunIsExplained(ops);
  }

  /** A call uses the transport that was activated last if and only if that is an HTTP transport, or its
      process is untouched and no HTTP transport was activated since the last deregistration. */
  lemma CallsFollowTheLastActivation(ops: seq<Op>)
    requires LogOf(ops).last.Some?
    ensures var log := LogOf(ops);
            Routed(Run(UNKNOWN, ops)) == RouteVia(log.last.value)
            <==> log.last.value.isHttp || (log.untouched && log.http.None?)
  {
    RunIsExplained(ops);
  }

  /** Without any activation since the name was last deregistered a call reaches nothing. */
  lemma NoActivationNoRoute(ops: seq<Op>)
    requires LogOf(ops).last.None?
    ensures Routed(Run(UNKNOWN, ops)) == if Run(UNKNOWN, ops).entry.Some? then NotRunning else NotRegistered
  {
    RunIsExplained(ops);
  }

  function StdioConfig(name: string, binary: string, container: string): ServerConfig {
    ToServerConfig(Transport(Local, binary, [], ""), name, container)
  }

  /** Activating one stdio server, which then turns out as given. */
  function ActivateStdio(name: string, binary: string, container: string, outcome: Outcome): Op {
    Activate(Request(name, [Transport(Local, binary, [], "")], 0, [outcome], container))
  }

  /** An activation with one transport, as far as the state and the log are concerned. */
  lemma OneTransport(config: ServerConfig, r: Request, s: Server, log: Log)
    requires s.entry.Some? && IsRequest(r) && |r.transports| == 1 && Config(r, 0) == config
    ensures WorksAt(r, 0) ==>
              && Apply(s, Activate(r))
                 == Server(Some(AfterSuccess(config)), if config.isHttp then Some(config) else s.client)
              && Noted(log, s, Activate(r)) == Log(Some(config), if config.isHttp then Some(config) else log.http, true)
    ensures !config.isHttp && OutcomeOf(r, 0).HandshakeFails? ==>
              && Apply(s, Activate(r)) == s.(entry := Some(s.entry.value.(runtime := None)))
              && Noted(log, s, Activate(r)) == log.(untouched := false)
  {
    if !config.isHttp && OutcomeOf(r, 0).HandshakeFails? {
      assert HandshakeFailsFrom(r, 0) && FirstWorking(r, 0) == 1;
      assert AfterSearch(AfterFailure(s.entry.value, config, HandshakeFails), r, 1) == s.entry.value.(runtime := None);
    }
  }

  lemma ThreeSteps(a: Op, b: Op, c: Op)
    ensures var s1 := Apply(UNKNOWN, a);
            var s2 := Apply(s1, b);
            && Run(UNKNOWN, [a, b, c]) == Apply(s2, c)
            && LogOf([a, b, c]) == Noted(Noted(Noted(Log(None, None, false), UNKNOWN, a), s1, b), s2, c)
  {
    assert [a, b, c][..2] == [a, b] && [a, b][..1] == [a] && [a][..0] == [];
    assert Run(UNKNOWN, [a]) == Apply(UNKNOWN, a);
    assert Run(UNKNOWN, [a, b]) == Apply(Apply(UNKNOWN, a), b);
    assert LogOf([a]) == Noted(Log(None, None, false), UNKNOWN, a);
  }

  /** The first of three runs that show the condition to be necessary: after a change from HTTP to stdio
      calls still go to the old HTTP server. */
  lemma HttpThenStdio(name: string, url: string, binary: string, container: string)
    requires url != ""
    ensures var web := Transport(Http, "", [], url);
            var http, stdio := ToServerConfig(web, name, container), StdioConfig(name, binary, container);
            var ops := [
              Register(http),
              Activate(Request(name, [web], 0, [Works], container)),
              ActivateStdio(name, binary, container, Works)
            ];
            && LogOf(ops) == Log(Some(stdio), Some(http), true)
            && Run(UNKNOWN, ops).entry == Some(Entry(stdio, Some(stdio)))
            && Routed(Run(UNKNOWN, ops)) == ViaHttp(http) != RouteVia(stdio)
  {
    var web := Transport(Http, "", [], url);
    var http, stdio := ToServerConfig(web, name, container), StdioConfig(name, binary, container);
    var activate := Request(name, [web], 0, [Works], container);
    var last := ActivateStdio(name, binary, container, Works);
    ThreeSteps(Register(http), Activate(activate), last);
    OneTransport(http, activate, Server(Some(Entry(http, None)), None), Log(None, None, false));
    OneTransport(stdio, last.request, Server(Some(Entry(http, None)), Some(http)), Log(Some(http), Some(http), true));
  }

  /** The second: registering the name again drops the process, and no call starts one. */
  lemma RegisteredAgain(name: string, binary: string, container: string)
    ensures var stdio := StdioConfig(name, binary, container);
            var ops := [Register(stdio), ActivateStdio(name, binary, container, Works), Register(stdio)];
            && LogOf(ops) == Log(Some(stdio), None, false)
            && Routed(Run(UNKNOWN, ops)) == NotRunning
  {
    var stdio := StdioConfig(name, binary, container);
    var activate := ActivateStdio(name, binary, container, Works);
    ThreeSteps(Register(stdio), activate, Register(stdio));
    OneTransport(stdio, activate.request, Server(Some(Entry(stdio, None)), None), Log(None, None, false));
  }

  /** The third: an activation that fails in the handshake has cost the process that was running. */
  lemma ActivatedInVain(name: string, binary: string, container: string)
    ensures var stdio := StdioConfig(name, binary, container);
            var ops := [
              Register(stdio),
              ActivateStdio(name, binary, container, Works),
              ActivateStdio(name, binary, container, HandshakeFails)
            ];
            && LogOf(ops) == Log(Some(stdio), None, false)
            && Routed(Run(UNKNOWN, ops)) == NotRunning
  {
    var stdio := StdioConfig(name, binary, container);
    var activate := ActivateStdio(name, binary, container, Works);
    var inVain := ActivateStdio(name, binary, container, HandshakeFails);
    ThreeSteps(Register(stdio), activate, inVain);
    OneTransport(stdio, activate.request, Server(Some(Entry(stdio, None)), None), Log(None, None, false));
    OneTransport(stdio, inVain.request, Server(Some(Entry(stdio, Some(stdio))), None), Log(Some(stdio), None, true));
  }
}
