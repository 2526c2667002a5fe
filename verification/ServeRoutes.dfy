/** The routes in a Serve status: the classifying loops, a declarative reading
  of the same status, and the repair decision. */
module ServeRoutes {
  import opened Wrappers
  import opened Digits
  import opened RustText
  import opened ServeShapes
  import opened ServeStatus

  // ---------------------------------------------------------------------
  // Reading single entries
  // ---------------------------------------------------------------------

  function Field(j: Json, name: string): Option<Json> {
    if j.Object? && name in j.fields then Some(j.fields[name]) else None
  }

  predicate IsTrue(j: Option<Json>) {
    j == Some(Bool(true))
  }

  function WebPort(host: string): Option<nat> {
    var split := RsplitOnce(Trim(host), ':');
    if split == None then None
    else
      var port := ParseU16(split.value.1);
      if port == None || port.value == 0 then None else port
  }

  predicate IsExpectedListener(config: Json) {
    && config.Object?
    && (forall k | k in config.fields :: k == "HTTP" || k == "HTTPS")
    && (Field(config, "HTTP").Some? ==> Field(config, "HTTP").value.Bool?)
    && (Field(config, "HTTPS").Some? ==> Field(config, "HTTPS").value.Bool?)
    && IsTrue(Field(config, "HTTP")) != IsTrue(Field(config, "HTTPS"))
  }

  /** A listener is plain HTTP or HTTPS and nothing else. */
  lemma ListenerForms(config: Json)
    ensures IsExpectedListener(config) <==> Listens(config)
  {
    if IsExpectedListener(config) {
      var f := config.fields;
      assert f.Keys <= {"HTTP", "HTTPS"};
      if "HTTP" !in f {
        assert f == map["HTTPS" := Bool(true)];
      } else if "HTTPS" !in f {
        assert f == map["HTTP" := Bool(true)];
      } else {
        assert f == map["HTTP" := f["HTTP"], "HTTPS" := f["HTTPS"]];
      }
    }
  }

  /** The handlers of a host: a non-empty object, or nothing. */
  function Handlers(config: Json): Option<map<string, Json>> {
    var h := Field(config, "Handlers");
    if h.Some? && h.value.Object? && h.value.fields != map[] then Some(h.value.fields) else None
  }

  function HandlerTarget(handler: Json): Target {
    if handler.Object? && handler.fields.Keys == {"Proxy"} && handler.fields["Proxy"].Text? then
      var b := ParseLoopbackProxyBackend(handler.fields["Proxy"].text);
      if b.Some? then Loopback(b.value) else Protected
    else Protected
  }

  /** The number a TCP key stands for, if it is written the usual way. */
  function CanonicalPort(key: string): Option<nat> {
    var port := ParseU16(key);
    if port.Some? && port.value > 0 && Decimal(port.value) == key then port else None
  }

  lemma CanonicalPorts(key: string, port: nat)
    ensures CanonicalPort(key) == Some(port) <==> 0 < port <= MAX_U16 && key == Decimal(port)
  {
    if port <= MAX_U16 {
      DecimalParses(port);
    }
  }

  // ---------------------------------------------------------------------
  // What a status amounts to
  // ---------------------------------------------------------------------

  function WebOf(status: Json): map<string, Json> {
    var web := Field(status, "Web");
    if web.Some? && web.value.Object? then web.value.fields else map[]
  }

  function TcpOf(status: Json): map<string, Json> {
    var tcp := Field(status, "TCP");
    if tcp.Some? && tcp.value.Object? then tcp.value.fields else map[]
  }

  /** A host with usable handlers listens on this port. */
  predicate IsWebPort(web: map<string, Json>, port: nat) {
    exists host | host in web :: Handlers(web[host]).Some? && WebPort(host) == Some(port)
  }

  /** Some handler of some host is classified this way. */
  predicate HasHandler(web: map<string, Json>, t: Target) {
    exists host | host in web ::
      Handlers(web[host]).Some? && HandlersTarget(Handlers(web[host]).value, t)
  }

  predicate HandlersTarget(handlers: map<string, Json>, t: Target) {
    exists k | k in handlers :: HandlerTarget(handlers[k]) == t
  }

  predicate BadHost(web: map<string, Json>) {
    exists host | host in web :: WebPort(host) == None || Handlers(web[host]) == None
  }

  predicate ListensFor(tcp: map<string, Json>, port: nat) {
    exists key | key in tcp :: CanonicalPort(key) == Some(port) && IsExpectedListener(tcp[key])
  }

  predicate GoodListener(web: map<string, Json>, key: string, config: Json) {
    CanonicalPort(key).Some? && IsWebPort(web, CanonicalPort(key).value) && IsExpectedListener(config)
  }

  predicate BadListener(web: map<string, Json>, tcp: map<string, Json>) {
    exists key | key in tcp :: !GoodListener(web, key, tcp[key])
  }

  predicate UnservedPort(web: map<string, Json>, tcp: map<string, Json>) {
    exists host | host in web ::
      Handlers(web[host]).Some? && WebPort(host).Some? && !ListensFor(tcp, WebPort(host).value)
  }

  predicate BadSetting(status: Json, name: string) {
    var value := Field(status, name);
    value.Some? && !(value.value.Object? && value.value.fields == map[])
  }

  predicate BadSettings(status: Json) {
    BadSetting(status, "Services") || BadSetting(status, "AllowFunnel") || BadSetting(status, "Foreground")
  }

  predicate WebIsMalformed(status: Json) {
    !status.Object? || (Field(status, "Web").Some? && !Field(status, "Web").value.Object?)
  }

  predicate TcpIsMalformed(status: Json) {
    Field(status, "TCP").Some? && !Field(status, "TCP").value.Object?
  }

  /** The targets a status contains, whatever order they are found in. */
  predicate IsTarget(status: Json, t: Target) {
    if WebIsMalformed(status) then t == Protected
    else
      || HasHandler(WebOf(status), t)
      || (t == Protected &&
            (BadHost(WebOf(status)) || TcpIsMalformed(status) || BadListener(WebOf(status), TcpOf(status))
             || UnservedPort(WebOf(status), TcpOf(status)) || BadSettings(status)))
  }

  // ---------------------------------------------------------------------
  // The loops
  // ---------------------------------------------------------------------

  method HandlerTargets(handlers: map<string, Json>) returns (targets: seq<Target>)
    ensures forall t :: t in targets <==> HandlersTarget(handlers, t)
  {
    targets := [];
    var rest := handlers.Keys;
    while rest != {}
      invariant rest <= handlers.Keys
      invariant forall t :: t in targets <==> exists k | k in handlers && k !in rest :: HandlerTarget(handlers[k]) == t
      decreases rest
    {
      var k :| k in rest;
      rest := rest - {k};
      targets := targets + [HandlerTarget(handlers[k])];
    }
  }

  /** The web hosts already visited. */
  function Visited(web: map<string, Json>, rest: set<string>): map<string, Json> {
    map host | host in web && host !in rest :: web[host]
  }

  predicate WebSoFar(web: map<string, Json>, t: Target) {
    HasHandler(web, t) || (t == Protected && BadHost(web))
  }

  lemma VisitHost(web: map<string, Json>, rest: set<string>, host: string, t: Target)
    requires host in web && host in rest
    ensures WebSoFar(Visited(web, rest - {host}), t) <==>
            || WebSoFar(Visited(web, rest), t)
            || (Handlers(web[host]).Some? && HandlersTarget(Handlers(web[host]).value, t))
            || (t == Protected && (WebPort(host) == None || Handlers(web[host]) == None))
  {
    hide HandlersTarget, Handlers, WebPort;
    var before, after := Visited(web, rest), Visited(web, rest - {host});
    assert after == before[host := web[host]];
    assert host in after && after[host] == web[host];
    assert forall h | h in before :: h in after && after[h] == before[h];
    assert forall h | h in after :: h == host || (h in before && after[h] == before[h]);
  }

  lemma VisitPort(web: map<string, Json>, rest: set<string>, host: string, port: nat)
    requires host in web && host in rest
    ensures IsWebPort(Visited(web, rest - {host}), port) <==>
            IsWebPort(Visited(web, rest), port) || (Handlers(web[host]).Some? && WebPort(host) == Some(port))
  {
    hide Handlers, WebPort;
    var before, after := Visited(web, rest), Visited(web, rest - {host});
    assert after == before[host := web[host]];
    assert host in after && after[host] == web[host];
    assert forall h | h in before :: h in after && after[h] == before[h];
    assert forall h | h in after :: h == host || (h in before && after[h] == before[h]);
  }

  method WebTargets(web: map<string, Json>) returns (targets: seq<Target>, ports: set<nat>)
    ensures forall t :: t in targets <==> WebSoFar(web, t)
    ensures forall port :: port in ports <==> IsWebPort(web, port)
  {
    targets, ports := [], {};
    var rest := web.Keys;
    assert Visited(web, rest) == map[];
    while rest != {}
      invariant rest <= web.Keys
      invariant forall t :: t in targets <==> WebSoFar(Visited(web, rest), t)
      invariant forall port :: port in ports <==> IsWebPort(Visited(web, rest), port)
      decreases rest
    {
      var host :| host in rest;
      forall t ensures WebSoFar(Visited(web, rest - {host}), t) <==>
            || WebSoFar(Visited(web, rest), t)
            || (Handlers(web[host]).Some? && HandlersTarget(Handlers(web[host]).value, t))
            || (t == Protected && (WebPort(host) == None || Handlers(web[host]) == None))
      {
        VisitHost(web, rest, host, t);
      }
      forall port: nat ensures IsWebPort(Visited(web, rest - {host}), port) <==>
            IsWebPort(Visited(web, rest), port) || (Handlers(web[host]).Some? && WebPort(host) == Some(port))
      {
        VisitPort(web, rest, host, port);
      }
      var more, port := HostTargets(host, web[host]);
      targets := targets + more;
      if port.Some? {
        ports := ports + {port.value};
      }
      rest := rest - {host};
    }
    assert Visited(web, rest) == web;
  }

  method HostTargets(host: string, config: Json) returns (targets: seq<Target>, listens: Option<nat>)
    ensures forall t :: t in targets <==>
            || (Handlers(config).Some? && HandlersTarget(Handlers(config).value, t))
            || (t == Protected && (WebPort(host) == None || Handlers(config) == None))
    ensures listens == if Handlers(config).Some? then WebPort(host) else None
  {
    hide HandlersTarget, WebPort;
    var port := WebPort(host);
    targets := if port == None then [Protected] else [];
    listens := None;
    var handlers := Handlers(config);
    if handlers == None {
      targets := targets + [Protected];
      return;
    }
    listens := port;
    var more := HandlerTargets(handlers.value);
    targets := targets + more;
  }

  method TcpTargets(tcp: map<string, Json>, ghost web: map<string, Json>, ports: set<nat>)
    returns (protectedListener: bool, matched: set<nat>)
    requires forall port :: port in ports <==> IsWebPort(web, port)
    ensures protectedListener <==> BadListener(web, tcp)
    ensures forall port :: port in matched <==> port in ports && ListensFor(tcp, port)
  {
    hide CanonicalPort, IsExpectedListener, IsWebPort;
    protectedListener, matched := false, {};
    var rest := tcp.Keys;
    while rest != {}
      invariant rest <= tcp.Keys
      invariant protectedListener <==> exists key | key in tcp && key !in rest :: !GoodListener(web, key, tcp[key])
      invariant forall port :: port in matched <==>
        port in ports && exists key | key in tcp && key !in rest ::
          CanonicalPort(key) == Some(port) && IsExpectedListener(tcp[key])
      decreases rest
    {
      var key :| key in rest;
      rest := rest - {key};
      var port := CanonicalPort(key);
      if port.Some? && port.value in ports && IsExpectedListener(tcp[key]) {
        matched := matched + {port.value};
      } else {
        protectedListener := true;
      }
    }
  }

  method ServeProxyTargets(status: Json) returns (targets: seq<Target>)
    ensures forall t :: t in targets <==> IsTarget(status, t)
  {
    if WebIsMalformed(status) {
      return [Protected];
    }
    var ports;
    targets, ports := WebTargets(WebOf(status));
    var bad, matched := TcpTargets(TcpOf(status), WebOf(status), ports);
    var unserved := Unserved(WebOf(status), TcpOf(status), ports, matched);
    hide HasHandler, BadHost, BadListener, UnservedPort, BadSettings, TcpIsMalformed;
    if bad || unserved || TcpIsMalformed(status) || BadSettings(status) {
      targets := targets + [Protected];
    }
  }

  method Unserved(ghost web: map<string, Json>, ghost tcp: map<string, Json>, ports: set<nat>, matched: set<nat>)
    returns (unserved: bool)
    requires forall port :: port in ports <==> IsWebPort(web, port)
    requires forall port :: port in matched <==> port in ports && ListensFor(tcp, port)
    ensures unserved <==> UnservedPort(web, tcp)
  {
    hide ListensFor, WebPort, Handlers;
    unserved := false;
    var rest := ports;
    while rest != {}
      invariant rest <= ports
      invariant unserved <==> exists port | port in ports && port !in rest :: port !in matched
      decreases rest
    {
      var port :| port in rest;
      rest := rest - {port};
      if port !in matched {
        unserved := true;
      }
    }
  }

  // ---------------------------------------------------------------------
  // Recognised routes, declaratively
  // ---------------------------------------------------------------------

  /** The host has a port and handlers, which are only loopback proxies. */
  predicate HostRoutes(host: string, config: Json) {
    && WebPort(host).Some?
    && Handlers(config).Some?
    && (forall k | k in Handlers(config).value :: HandlerTarget(Handlers(config).value[k]).Loopback?)
  }

  predicate HostIsRouted(host: string, config: Json, tcp: map<string, Json>) {
    HostRoutes(host, config) && ListensFor(tcp, WebPort(host).value)
  }

  /** Every host routes to loopback backends, TCP listeners and web ports match
      one for one, and nothing else is configured. */
  predicate RecognisedRoutes(status: Json) {
    var web, tcp := WebOf(status), TcpOf(status);
    && !WebIsMalformed(status) && !TcpIsMalformed(status)
    && web != map[]
    && EveryHostIsRouted(web, tcp) && EveryListenerIsGood(web, tcp)
    && !BadSettings(status)
  }

  predicate EveryHostIsRouted(web: map<string, Json>, tcp: map<string, Json>) {
    forall host | host in web :: HostIsRouted(host, web[host], tcp)
  }

  predicate EveryListenerIsGood(web: map<string, Json>, tcp: map<string, Json>) {
    forall key | key in tcp :: GoodListener(web, key, tcp[key])
  }

  /** In addition every handler is a proxy to the one backend. */
  predicate OwnedBy(status: Json, b: Backend) {
    && RecognisedRoutes(status)
    && (forall host, k | host in WebOf(status) && k in Handlers(WebOf(status)[host]).value ::
          HandlerTarget(Handlers(WebOf(status)[host]).value[k]) == Loopback(b))
  }

  /** Being recognised is having targets, none of them protected. */
  lemma RecognisedMeansUnprotected(status: Json)
    ensures RecognisedRoutes(status) <==> (exists t :: IsTarget(status, t)) && !IsTarget(status, Protected)
  {
    var web, tcp := WebOf(status), TcpOf(status);
    if RecognisedRoutes(status) {
      RoutesHaveHandler(web);
      RoutesHaveNoFault(web, tcp);
      var b :| HasHandler(web, Loopback(b));
      assert IsTarget(status, Loopback(b));
    } else if !IsTarget(status, Protected) && !WebIsMalformed(status) && web != map[] {
      UnprotectedRoutes(web, tcp);
    }
    hide HasHandler, HostRoutes, BadHost, UnservedPort, BadListener, BadSettings, TcpIsMalformed, WebIsMalformed,
      WebOf, TcpOf, GoodListener, WebPort, ListensFor;
    assert web == map[] ==> forall t :: !HasHandler(web, t) by {
      EmptyWebHasNoHandler();
    }
  }

  lemma EmptyWebHasNoHandler()
    ensures forall t :: !HasHandler(map[], t)
  {
  }

  lemma RoutesHaveHandler(web: map<string, Json>)
    requires web != map[] && forall host | host in web :: HostRoutes(host, web[host])
    ensures exists b :: HasHandler(web, Loopback(b))
    ensures !HasHandler(web, Protected)
  {
    var host :| host in web;
    hide WebPort, HandlerTarget;
    assert HostRoutes(host, web[host]);
    var handlers := Handlers(web[host]).value;
    assert handlers != map[];
    var k :| k in handlers;
    assert HandlersTarget(handlers, Loopback(HandlerTarget(handlers[k]).backend));
  }

  lemma RoutesHaveNoFault(web: map<string, Json>, tcp: map<string, Json>)
    requires EveryHostIsRouted(web, tcp)
    requires EveryListenerIsGood(web, tcp)
    ensures !BadHost(web) && !UnservedPort(web, tcp) && !BadListener(web, tcp)
  {
    hide GoodListener, ListensFor, WebPort, Handlers, HandlerTarget;
  }

  lemma UnprotectedRoutes(web: map<string, Json>, tcp: map<string, Json>)
    requires !HasHandler(web, Protected) && !BadHost(web) && !UnservedPort(web, tcp) && !BadListener(web, tcp)
    ensures EveryHostIsRouted(web, tcp)
    ensures EveryListenerIsGood(web, tcp)
  {
    hide GoodListener, ListensFor, WebPort, Handlers, HandlerTarget;
    forall host | host in web
      ensures HostIsRouted(host, web[host], tcp)
    {
      assert !HandlersTarget(Handlers(web[host]).value, Protected);
    }
  }

  /** Ownership says that the backend is the one and only target. */
  lemma OwnedMeansOneTarget(status: Json, b: Backend)
    ensures OwnedBy(status, b) <==>
            (exists t :: IsTarget(status, t)) && (forall t | IsTarget(status, t) :: t == Loopback(b))
  {
    RecognisedMeansUnprotected(status);
    if RecognisedRoutes(status) {
      TargetsOfRecognised(status, b);
    }
    hide RecognisedRoutes, IsTarget, HandlerTarget, Handlers, WebOf;
  }

  lemma TargetsOfRecognised(status: Json, b: Backend)
    requires RecognisedRoutes(status) && !IsTarget(status, Protected)
    ensures OwnedBy(status, b) <==> forall t | IsTarget(status, t) :: t == Loopback(b)
  {
    var web := WebOf(status);
    assert forall t | IsTarget(status, t) :: HasHandler(web, t);
    assert forall t | HasHandler(web, t) :: IsTarget(status, t);
    assert forall host | host in web :: Handlers(web[host]).Some?;
    assert OwnedBy(status, b) <==>
      forall host, k | host in web && k in Handlers(web[host]).value ::
        HandlerTarget(Handlers(web[host]).value[k]) == Loopback(b);
    hide RecognisedRoutes, IsTarget, HandlerTarget, Handlers, WebOf, OwnedBy;
    if forall t | IsTarget(status, t) :: t == Loopback(b) {
      forall host, k | host in web && k in Handlers(web[host]).value
        ensures HandlerTarget(Handlers(web[host]).value[k]) == Loopback(b)
      {
        var t := HandlerTarget(Handlers(web[host]).value[k]);
        assert HandlersTarget(Handlers(web[host]).value, t);
        assert HasHandler(web, t);
      }
    }
  }

  // ---------------------------------------------------------------------
  // The same, on the fields
  // ---------------------------------------------------------------------

  lemma HostPortExactly(host: string, port: nat)
    ensures WebPort(host) == Some(port) <==> NamesPort(host, port)
  {
    TrimsExactly(host, Trim(host));
    hide Trim, ParseU16, Pads, WritesU16;
    if WebPort(host) == Some(port) {
      var split := RsplitOnce(Trim(host), ':').value;
      ParsesExactly(split.1, port);
      assert Trim(host) == split.0 + ":" + split.1;
    }
    if NamesPort(host, port) {
      var name, digits :| Pads(host, name + ":" + digits) && WritesU16(digits, port);
      TrimsExactly(host, name + ":" + digits);
      ParsesExactly(digits, port);
      PortHasNone(digits);
      RsplitIsLast(name, ':', digits);
    }
  }

  lemma ProxyIsText(handler: Json, b: Backend)
    requires Proxies(handler, b)
    ensures handler.Object? && handler.fields.Keys == {"Proxy"} && handler.fields["Proxy"].Text?
    ensures IsAddress(handler.fields["Proxy"].text, b)
  {
    hide IsAddress;
  }

  lemma HandlerExactly(handler: Json, b: Backend)
    ensures HandlerTarget(handler) == Loopback(b) <==> Proxies(handler, b)
  {
    hide ParseLoopbackProxyBackend, IsAddress;
    if Proxies(handler, b) {
      ProxyIsText(handler, b);
      RecognisedExactly(handler.fields["Proxy"].text, b);
    }
    if HandlerTarget(handler) == Loopback(b) {
      var text := handler.fields["Proxy"].text;
      RecognisedExactly(text, b);
      assert handler.fields == map["Proxy" := Text(text)];
    }
  }

  lemma HandlersExactly(config: Json, handlers: map<string, Json>)
    ensures Handlers(config) == Some(handlers) <==> HasHandlers(config, handlers)
  {
  }

  lemma HostServesExactly(host: string, config: Json, tcp: map<string, Json>)
    ensures HostIsRouted(host, config, tcp) <==> Serves(host, config, tcp)
  {
    hide WebPort, HostIsRouted, Serves;
    if HostIsRouted(host, config, tcp) {
      RoutedHostServes(host, config, tcp);
    }
    if Serves(host, config, tcp) {
      ServingHostIsRouted(host, config, tcp);
    }
  }

  lemma RoutedHostServes(host: string, config: Json, tcp: map<string, Json>)
    requires HostIsRouted(host, config, tcp)
    ensures Serves(host, config, tcp)
  {
    var port, handlers := WebPort(host).value, Handlers(config).value;
    hide WebPort, NamesPort, Proxies, HandlerTarget, Handlers, HasHandlers, Listens, ListensFor;
    HostPortExactly(host, port);
    HandlersExactly(config, handlers);
    ListensExactly(tcp, port);
    forall k | k in handlers
      ensures exists b :: Proxies(handlers[k], b)
    {
      HandlerExactly(handlers[k], HandlerTarget(handlers[k]).backend);
    }
  }

  lemma ServingHostIsRouted(host: string, config: Json, tcp: map<string, Json>)
    requires Serves(host, config, tcp)
    ensures HostIsRouted(host, config, tcp)
  {
    hide WebPort, NamesPort, Proxies, HandlerTarget, Handlers, HasHandlers, Listens, ListensFor;
    var port :| NamesPort(host, port) && Decimal(port) in tcp && Listens(tcp[Decimal(port)]);
    HostPortExactly(host, port);
    WebPortIsU16(host);
    ListensExactly(tcp, port);
    var handlers :| HasHandlers(config, handlers) && forall k | k in handlers :: exists b :: Proxies(handlers[k], b);
    HandlersExactly(config, handlers);
    forall k | k in handlers
      ensures HandlerTarget(handlers[k]).Loopback?
    {
      var b :| Proxies(handlers[k], b);
      HandlerExactly(handlers[k], b);
    }
  }

  lemma ListensExactly(tcp: map<string, Json>, port: nat)
    ensures ListensFor(tcp, port) <==>
            0 < port <= MAX_U16 && Decimal(port) in tcp && Listens(tcp[Decimal(port)])
  {
    hide CanonicalPort, IsExpectedListener, Listens;
    forall key | key in tcp
      ensures CanonicalPort(key) == Some(port) <==> 0 < port <= MAX_U16 && key == Decimal(port)
      ensures IsExpectedListener(tcp[key]) <==> Listens(tcp[key])
    {
      CanonicalPorts(key, port);
      ListenerForms(tcp[key]);
    }
    CanonicalPorts(Decimal(port), port);
  }

  lemma ListenerBelongsExactly(key: string, config: Json, web: map<string, Json>)
    requires forall host | host in web :: Handlers(web[host]).Some?
    ensures GoodListener(web, key, config) <==> Belongs(key, config, web)
  {
    ListenerForms(config);
    hide CanonicalPort, IsExpectedListener, Listens, Handlers, WebPort, NamesPort;
    if GoodListener(web, key, config) {
      var port := CanonicalPort(key).value;
      CanonicalPorts(key, port);
      var host :| host in web && Handlers(web[host]).Some? && WebPort(host) == Some(port);
      HostPortExactly(host, port);
    }
    if Belongs(key, config, web) {
      var host, port :| host in web && NamesPort(host, port) && key == Decimal(port);
      HostPortExactly(host, port);
      WebPortIsU16(host);
      CanonicalPorts(key, port);
      assert IsWebPort(web, port);
    }
  }

  lemma WebPortIsU16(host: string)
    ensures WebPort(host).Some? ==> 0 < WebPort(host).value <= MAX_U16
  {
  }

  lemma HostsExactly(web: map<string, Json>, tcp: map<string, Json>)
    ensures EveryHostIsRouted(web, tcp) <==> EveryHostServes(web, tcp)
  {
    hide HostIsRouted, Serves;
    forall host | host in web
      ensures HostIsRouted(host, web[host], tcp) <==> Serves(host, web[host], tcp)
    {
      HostServesExactly(host, web[host], tcp);
    }
  }

  lemma KeysExactly(web: map<string, Json>, tcp: map<string, Json>)
    requires EveryHostIsRouted(web, tcp)
    ensures EveryListenerIsGood(web, tcp) <==> EveryListenerBelongs(web, tcp)
  {
    hide Handlers, WebPort, HandlerTarget, GoodListener, Belongs;
    forall key | key in tcp
      ensures GoodListener(web, key, tcp[key]) <==> Belongs(key, tcp[key], web)
    {
      ListenerBelongsExactly(key, tcp[key], web);
    }
  }

  lemma SettingsExactly(status: Json)
    requires status.Object?
    ensures !BadSettings(status) <==>
            && IsEmptySetting(status.fields, "Services") && IsEmptySetting(status.fields, "AllowFunnel")
            && IsEmptySetting(status.fields, "Foreground")
  {
    forall name
      ensures !BadSetting(status, name) <==> IsEmptySetting(status.fields, name)
    {
      SettingExactly(status, name);
    }
    hide BadSetting, IsEmptySetting;
  }

  lemma SettingExactly(status: Json, name: string)
    requires status.Object?
    ensures !BadSetting(status, name) <==> IsEmptySetting(status.fields, name)
  {
  }

  lemma ShapedExactly(status: Json)
    requires status.Object? && "Web" in status.fields && status.fields["Web"].Object? && !TcpIsMalformed(status)
    ensures RecognisedRoutes(status) <==> OnlyLoopbackProxies(status)
  {
    var web, tcp := WebOf(status), TcpOf(status);
    SettingsExactly(status);
    HostsExactly(web, tcp);
    if EveryHostIsRouted(web, tcp) {
      KeysExactly(web, tcp);
    }
    assert web == status.fields["Web"].fields;
    assert tcp == if "TCP" in status.fields then status.fields["TCP"].fields else map[];
    assert !WebIsMalformed(status);
    hide BadSettings, IsEmptySetting, EveryHostIsRouted, EveryHostServes, EveryListenerIsGood, EveryListenerBelongs,
      WebOf, TcpOf;
  }

  /** A status has only recognised routes exactly if its fields have that form. */
  lemma RecognisedExactlyByFields(status: Json)
    ensures RecognisedRoutes(status) <==> OnlyLoopbackProxies(status)
  {
    hide BadSettings, IsEmptySetting, EveryHostIsRouted, EveryHostServes, EveryListenerIsGood, EveryListenerBelongs;
    if status.Object? && "Web" in status.fields && status.fields["Web"].Object? && !TcpIsMalformed(status) {
      ShapedExactly(status);
    }
  }

  /** The loopback targets of a status are the backends that it has proxies to. */
  lemma TargetsAreRoutes(status: Json, b: Backend)
    ensures IsTarget(status, Loopback(b)) <==> RoutesTo(status, b)
  {
    hide HandlerTarget, Proxies, Handlers, HasHandlers, BadHost, BadListener, UnservedPort, BadSettings;
    var web := WebOf(status);
    if IsTarget(status, Loopback(b)) {
      var host :| host in web && Handlers(web[host]).Some? && HandlersTarget(Handlers(web[host]).value, Loopback(b));
      var handlers := Handlers(web[host]).value;
      var k :| k in handlers && HandlerTarget(handlers[k]) == Loopback(b);
      HandlersExactly(web[host], handlers);
      HandlerExactly(handlers[k], b);
    }
    if RoutesTo(status, b) {
      var host, handlers, k :|
        host in web && HasHandlers(web[host], handlers) && k in handlers && Proxies(handlers[k], b);
      HandlersExactly(web[host], handlers);
      HandlerExactly(handlers[k], b);
      assert HandlersTarget(handlers, Loopback(b));
    }
  }

  lemma AllTargetsAreRoutes(status: Json)
    ensures forall b :: IsTarget(status, Loopback(b)) <==> RoutesTo(status, b)
  {
    hide IsTarget, RoutesTo;
    forall b
      ensures IsTarget(status, Loopback(b)) <==> RoutesTo(status, b)
    {
      TargetsAreRoutes(status, b);
    }
  }

  lemma OwnedExactlyByFields(status: Json, b: Backend)
    ensures OwnedBy(status, b) <==> RoutesOnlyTo(status, b)
  {
    hide OwnedBy, IsTarget, RoutesTo, OnlyLoopbackProxies, RecognisedRoutes;
    RecognisedExactlyByFields(status);
    RecognisedMeansUnprotected(status);
    OwnedMeansOneTarget(status, b);
    AllTargetsAreRoutes(status);
    if RoutesOnlyTo(status, b) {
      forall t | IsTarget(status, t)
        ensures t == Loopback(b)
      {
        assert t == Loopback(t.backend);
      }
    }
    if OwnedBy(status, b) {
      assert !IsTarget(status, Protected);
    }
  }

  method ServeRouteOwnedByBackend(status: Json, b: Backend) returns (owned: bool)
    ensures owned <==> RoutesOnlyTo(status, b)
  {
    OwnedMeansOneTarget(status, b);
    OwnedExactlyByFields(status, b);
    hide OwnedBy, IsTarget, RoutesOnlyTo;
    var targets := ServeProxyTargets(status);
    owned := targets != [] && forall t | t in targets :: t == Loopback(b);
    assert targets != [] ==> targets[0] in targets;
  }

  // ---------------------------------------------------------------------
  // The repair decision
  // ---------------------------------------------------------------------

  predicate IsHttpListener(tcp: map<string, Json>, key: string, port: nat) {
    key in tcp && IsTrue(Field(tcp[key], "HTTP")) && ParseU16(key) == Some(port)
  }

  predicate IsHttpHost(web: map<string, Json>, host: string, port: nat) {
    && host in web && RsplitOnce(host, ':').Some?
    && ParseU16(RsplitOnce(host, ':').value.1) == Some(port) && port != 443
  }

  lemma HttpListenerExactly(status: Json, key: string, port: nat)
    ensures IsHttpListener(TcpOf(status), key, port) <==> ShowsHttp(status, key, port)
  {
    ParsesExactly(key, port);
    hide ParseU16, WritesU16;
  }

  lemma HttpHostExactly(status: Json, host: string, port: nat)
    requires HasWeb(status)
    ensures IsHttpHost(WebOf(status), host, port) <==> ShowsHost(status, host, port)
  {
    hide ParseU16, WritesU16;
    if IsHttpHost(WebOf(status), host, port) {
      var split := RsplitOnce(host, ':').value;
      ParsesExactly(split.1, port);
      assert host == split.0 + ":" + split.1;
    }
    if ShowsHost(status, host, port) {
      var name, digits :| host == name + ":" + digits && WritesU16(digits, port);
      ParsesExactly(digits, port);
      PortHasNone(digits);
      RsplitIsLast(name, ':', digits);
    }
  }

  method FindHttpListener(tcp: map<string, Json>) returns (found: Option<nat>)
    ensures found.Some? ==> exists key :: IsHttpListener(tcp, key, found.value)
    ensures found == None ==> forall key, port :: !IsHttpListener(tcp, key, port)
  {
    var rest := tcp.Keys;
    while rest != {}
      invariant rest <= tcp.Keys
      invariant forall key, port | key !in rest :: !IsHttpListener(tcp, key, port)
      decreases rest
    {
      var key :| key in rest;
      rest := rest - {key};
      var port := ParseU16(key);
      if IsTrue(Field(tcp[key], "HTTP")) && port.Some? {
        assert IsHttpListener(tcp, key, port.value);
        return port;
      }
    }
    found := None;
  }

  method FindHttpHost(web: map<string, Json>) returns (found: Option<nat>)
    ensures found.Some? ==> exists host :: IsHttpHost(web, host, found.value)
    ensures found == None ==> forall host, port :: !IsHttpHost(web, host, port)
  {
    hide ParseU16;
    var rest := web.Keys;
    while rest != {}
      invariant rest <= web.Keys
      invariant forall host, port | host !in rest :: !IsHttpHost(web, host, port)
      decreases rest
    {
      var host :| host in rest;
      rest := rest - {host};
      var split := RsplitOnce(host, ':');
      if split.Some? {
        var port := ParseU16(split.value.1);
        if port.Some? && port.value != 443 {
          assert IsHttpHost(web, host, port.value);
          return port;
        }
      }
    }
    found := None;
  }

  method ServeModeFromStatus(status: Json) returns (mode: Option<Mode>)
    ensures mode == None <==> !HasWeb(status)
    ensures mode.Some? ==> ShowsMode(status, mode.value)
  {
    assert WebOf(status) == map[] <==> !HasWeb(status);
    hide IsHttpListener, IsHttpHost, ShowsHttp, ShowsHost, WebOf, TcpOf;
    if WebOf(status) == map[] {
      return None;
    }
    forall key, port ensures IsHttpListener(TcpOf(status), key, port) <==> ShowsHttp(status, key, port) {
      HttpListenerExactly(status, key, port);
    }
    var port := FindHttpListener(TcpOf(status));
    if port == None {
      forall host, port ensures IsHttpHost(WebOf(status), host, port) <==> ShowsHost(status, host, port) {
        HttpHostExactly(status, host, port);
      }
      port := FindHttpHost(WebOf(status));
    }
    mode := Some(if port.Some? then Http(port.value) else Https);
  }

  predicate MayTakeOverTargets(targets: seq<Target>, requested: Backend, packaged: bool, responds: Backend -> bool) {
    && requested.host != Localhost
    && (forall t | t in targets :: t != Protected && t.backend.host != Localhost)
    && ((packaged && requested.port == PRODUCTION_PORT)
        || (forall t | t in targets :: t != Protected && (t.backend == requested || !responds(t.backend))))
  }

  lemma TakeOverExactly(status: Json, targets: seq<Target>, requested: Backend, packaged: bool,
                        responds: Backend -> bool)
    requires forall t :: t in targets <==> IsTarget(status, t)
    requires OnlyLoopbackProxies(status) && !RoutesOnlyTo(status, requested) && Protected !in targets
    ensures MayTakeOverTargets(targets, requested, packaged, responds) <==>
            MayTakeOver(status, requested, packaged, responds)
  {
    hide IsTarget, OnlyLoopbackProxies, RoutesOnlyTo, RoutesTo;
    AllTargetsAreRoutes(status);
    assert forall b :: Loopback(b) in targets <==> RoutesTo(status, b);
    assert forall t | t in targets :: t == Loopback(t.backend);
  }

  method DecideAmong(targets: seq<Target>, requested: Backend, packaged: bool, responds: Backend -> bool)
    returns (repair: bool)
    requires Protected !in targets
    ensures repair <==> MayTakeOverTargets(targets, requested, packaged, responds)
  {
    if requested.host == Localhost || exists t | t in targets :: t.Loopback? && t.backend.host == Localhost {
      return false;
    }
    if packaged && requested.port == PRODUCTION_PORT {
      return true;
    }
    repair := !exists t | t in targets :: t.Loopback? && t.backend != requested && responds(t.backend);
  }

  method DecideServeRepair(status: Json, requested: Backend, packaged: bool, responds: Backend -> bool)
    returns (decision: Decision)
    ensures decision == Noop <==> RoutesOnlyTo(status, requested)
    ensures decision.Repair? <==> MayTakeOver(status, requested, packaged, responds)
    ensures decision.Repair? ==> ShowsMode(status, decision.mode)
  {
    RecognisedMeansUnprotected(status);
    OwnedMeansOneTarget(status, requested);
    RecognisedExactlyByFields(status);
    OwnedExactlyByFields(status, requested);
    assert OnlyLoopbackProxies(status) ==> HasWeb(status);
    assert RoutesOnlyTo(status, requested) ==> OnlyLoopbackProxies(status);
    hide OwnedBy, IsTarget, RecognisedRoutes, OnlyLoopbackProxies, RoutesOnlyTo, ShowsMode, MayTakeOverTargets;
    var mode := ServeModeFromStatus(status);
    if mode == None {
      return Preserve;
    }
    var targets := ServeProxyTargets(status);
    assert targets != [] ==> targets[0] in targets;
    if targets == [] || Protected in targets {
      return Preserve;
    }
    if forall t | t in targets :: t == Loopback(requested) {
      return Noop;
    }
    TakeOverExactly(status, targets, requested, packaged, responds);
    var repair := DecideAmong(targets, requested, packaged, responds);
    decision := if repair then Repair(mode.value) else Preserve;
  }
}
