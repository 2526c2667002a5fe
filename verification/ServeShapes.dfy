/** What the fields of a Serve status have to be for its routes to count as the
  app's own: the form of the JSON, without the classifier that looks for it. */
module ServeShapes {
  import opened Digits
  import opened RustText
  import opened ServeStatus

  /** The handler is a proxy to the backend and nothing else. */
  ghost predicate Proxies(handler: Json, b: Backend) {
    exists text :: handler == Object(map["Proxy" := Text(text)]) && IsAddress(text, b)
  }

  /** The host ends, up to white space, in a colon and a port above zero. */
  ghost predicate NamesPort(host: string, port: nat) {
    && port > 0
    && exists name, digits :: Pads(host, name + ":" + digits) && WritesU16(digits, port)
  }

  /** Plain HTTP or HTTPS, and not both. */
  predicate Listens(config: Json) {
    config in {Object(map["HTTP" := Bool(true)]), Object(map["HTTPS" := Bool(true)]),
               Object(map["HTTP" := Bool(true), "HTTPS" := Bool(false)]),
               Object(map["HTTP" := Bool(false), "HTTPS" := Bool(true)])}
  }

  predicate HasHandlers(config: Json, handlers: map<string, Json>) {
    && config.Object? && "Handlers" in config.fields
    && config.fields["Handlers"] == Object(handlers) && handlers != map[]
  }

  /** The host has a listening port, and handlers that are all proxies. */
  ghost predicate Serves(host: string, config: Json, tcp: map<string, Json>) {
    && (exists port :: NamesPort(host, port) && Decimal(port) in tcp && Listens(tcp[Decimal(port)]))
    && (exists handlers ::
          HasHandlers(config, handlers) && forall k | k in handlers :: exists b :: Proxies(handlers[k], b))
  }

  /** The listener is on the port of some host. */
  ghost predicate Belongs(key: string, config: Json, web: map<string, Json>) {
    Listens(config) && exists host, port | host in web :: NamesPort(host, port) && key == Decimal(port)
  }

  predicate IsEmptySetting(fields: map<string, Json>, name: string) {
    name in fields ==> fields[name] == Object(map[])
  }

  /** Only loopback proxies, each on a plain listener, and no other setting. */
  ghost predicate OnlyLoopbackProxies(status: Json) {
    && status.Object?
    && var f := status.fields;
       && "Web" in f && f["Web"].Object? && f["Web"].fields != map[]
       && ("TCP" in f ==> f["TCP"].Object?)
       && IsEmptySetting(f, "Services") && IsEmptySetting(f, "AllowFunnel") && IsEmptySetting(f, "Foreground")
       && var web, tcp := f["Web"].fields, if "TCP" in f then f["TCP"].fields else map[];
          EveryHostServes(web, tcp) && EveryListenerBelongs(web, tcp)
  }

  ghost predicate EveryHostServes(web: map<string, Json>, tcp: map<string, Json>) {
    forall host | host in web :: Serves(host, web[host], tcp)
  }

  ghost predicate EveryListenerBelongs(web: map<string, Json>, tcp: map<string, Json>) {
    forall key | key in tcp :: Belongs(key, tcp[key], web)
  }

  /** Some handler is a proxy to the backend. */
  ghost predicate RoutesTo(status: Json, b: Backend) {
    && status.Object? && "Web" in status.fields && status.fields["Web"].Object?
    && var web := status.fields["Web"].fields;
       exists host, handlers, k | host in web ::
         HasHandlers(web[host], handlers) && k in handlers && Proxies(handlers[k], b)
  }

  ghost predicate RoutesOnlyTo(status: Json, b: Backend) {
    OnlyLoopbackProxies(status) && forall other | RoutesTo(status, other) :: other == b
  }

  /** Routes may be taken over when they are only loopback proxies, to other
      backends too, neither they nor the request name localhost, and either a
      packaged build asks for port 3020 or no other backend answers. */
  ghost predicate MayTakeOver(status: Json, requested: Backend, packaged: bool, responds: Backend -> bool) {
    && OnlyLoopbackProxies(status) && !RoutesOnlyTo(status, requested)
    && requested.host != Localhost
    && (forall b | RoutesTo(status, b) :: b.host != Localhost)
    && ((packaged && requested.port == 3020) || (forall b | RoutesTo(status, b) && b != requested :: !responds(b)))
  }

  predicate HasWeb(status: Json) {
    status.Object? && "Web" in status.fields && status.fields["Web"].Object? && status.fields["Web"].fields != map[]
  }

  /** A TCP key that writes the port has plain HTTP switched on. */
  ghost predicate ShowsHttp(status: Json, key: string, port: nat) {
    && status.Object? && "TCP" in status.fields && status.fields["TCP"].Object?
    && var tcp := status.fields["TCP"].fields;
       && key in tcp && tcp[key].Object? && "HTTP" in tcp[key].fields && tcp[key].fields["HTTP"] == Bool(true)
       && WritesU16(key, port)
  }

  /** A host ends in a colon and the port, which is not 443. */
  ghost predicate ShowsHost(status: Json, host: string, port: nat) {
    && HasWeb(status) && host in status.fields["Web"].fields && port != 443
    && exists name, digits :: host == name + ":" + digits && WritesU16(digits, port)
  }

  /** The mode a status shows: the port of an HTTP listener, otherwise that of
      a host other than 443, otherwise HTTPS. Which of several is found first
      depends on the order of the keys. */
  ghost predicate ShowsMode(status: Json, mode: Mode) {
    if exists key, port :: ShowsHttp(status, key, port) then
      mode.Http? && exists key :: ShowsHttp(status, key, mode.port)
    else if exists host, port :: ShowsHost(status, host, port) then
      mode.Http? && exists host :: ShowsHost(status, host, mode.port)
    else mode == Https
  }
}
