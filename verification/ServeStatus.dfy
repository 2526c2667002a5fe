/** Deciding from the Serve status whether the routes belong to a backend and
  whether they may be repaired. */
module ServeStatus {
  import opened Wrappers
  import opened Digits
  import opened RustText

  datatype Json =
    | Null
    | Bool(value: bool)
    | Number(digits: string)
    | Text(text: string)
    | Array(items: seq<Json>)
    | Object(fields: map<string, Json>)

  datatype Host = Ipv4 | Ipv6 | Localhost

  datatype Backend = Backend(host: Host, port: nat)

  datatype Target = Loopback(backend: Backend) | Protected

  datatype Mode = Https | Http(port: nat)

  datatype Decision = Noop | Preserve | Repair(mode: Mode)

  const PRODUCTION_PORT: nat := 3020

  // ---------------------------------------------------------------------
  // Proxy strings
  // ---------------------------------------------------------------------

  const SCHEME := "http://"
  const IPV6_PREFIX := "[::1]:"

  predicate HasForbidden(authority: string) {
    '@' in authority || '?' in authority || '#' in authority
  }

  function HostOf(text: string): Option<Host> {
    if text == "127.0.0.1" then Some(Ipv4)
    else if LowerAscii(text) == "localhost" then Some(Localhost)
    else None
  }

  function ParseAuthority(authority: string): Option<Backend> {
    if HasPrefix(authority, IPV6_PREFIX) then
      var port := ParseU16(authority[|IPV6_PREFIX|..]);
      if port == None then None else Some(Backend(Ipv6, port.value))
    else
      var split := RsplitOnce(authority, ':');
      if split == None then None
      else
        var host := HostOf(split.value.0);
        var port := ParseU16(split.value.1);
        if host == None || port == None then None else Some(Backend(host.value, port.value))
  }

  function ParseLoopbackProxyBackend(proxy: string): Option<Backend> {
    var target := Trim(proxy);
    if !HasPrefix(target, SCHEME) then None
    else
      var authority := Before(target[|SCHEME|..], '/');
      if HasForbidden(authority) then None else ParseAuthority(authority)
  }

  /** The spellings of each loopback host. */
  predicate Spells(text: string, host: Host) {
    match host
    case Ipv4 => text == "127.0.0.1"
    case Ipv6 => text == "[::1]"
    case Localhost => InAnyCase(text, "localhost", "LOCALHOST")
  }

  /** Letter by letter one of two spellings. */
  predicate InAnyCase(text: string, lower: string, upper: string) {
    |text| == |lower| == |upper| && forall k | 0 <= k < |text| :: text[k] == lower[k] || text[k] == upper[k]
  }

  lemma LowerIsAnyCase(text: string)
    ensures LowerAscii(text) == "localhost" <==> InAnyCase(text, "localhost", "LOCALHOST")
  {
    var lower, upper := "localhost", "LOCALHOST";
    if LowerAscii(text) == lower {
      forall k | 0 <= k < |text|
        ensures text[k] == lower[k] || text[k] == upper[k]
      {
        assert LowerAscii(text)[k] == lower[k];
      }
    }
  }

  /** The text is an HTTP address of the backend, with any path. */
  ghost predicate Addresses(text: string, host: string, port: string, tail: string, b: Backend) {
    && text == SCHEME + (host + ":" + port + tail)
    && Spells(host, b.host) && WritesU16(port, b.port)
    && (tail == "" || tail[0] == '/')
  }

  /** The text is such an address between white space. */
  ghost predicate IsAddress(proxy: string, b: Backend) {
    exists core, host, port, tail :: Pads(proxy, core) && Addresses(core, host, port, tail, b)
  }

  /** A proxy is recognised exactly when it is such an address, up to
      surrounding white space: nothing else is ever taken for a backend. */
  lemma RecognisedExactly(proxy: string, b: Backend)
    ensures ParseLoopbackProxyBackend(proxy) == Some(b) <==>
            IsAddress(proxy, b)
  {
    hide Addresses, Pads, ParseLoopbackProxyBackend, Trim;
    TrimsExactly(proxy, Trim(proxy));
    if ParseLoopbackProxyBackend(proxy) == Some(b) {
      RecognisedIsAddress(proxy, b);
    }
    if core, host, port, tail :| Pads(proxy, core) && Addresses(core, host, port, tail, b) {
      TrimsExactly(proxy, core);
      AddressIsRecognised(proxy, host, port, tail, b);
    }
  }

  lemma RecognisedIsAddress(proxy: string, b: Backend)
    requires ParseLoopbackProxyBackend(proxy) == Some(b)
    ensures exists host, port, tail :: Addresses(Trim(proxy), host, port, tail, b)
  {
    var target := Trim(proxy);
    var rest := target[|SCHEME|..];
    var authority := Before(rest, '/');
    var tail := rest[|authority|..];
    var host, port := AuthoritySplits(authority, b);
    PrefixAndRest(target, SCHEME);
    TakeAndDrop(rest, |authority|);
    ParsesExactly(port, b.port);
    hide Trim, ParseU16, WritesU16, Spells, Before, HasPrefix, ParseAuthority;
    assert Addresses(target, host, port, tail, b);
  }

  lemma TakeAndDrop(s: string, n: nat)
    requires n <= |s|
    ensures s == s[..n] + s[n..]
  {
  }

  lemma PrefixAndRest(s: string, prefix: string)
    requires HasPrefix(s, prefix)
    ensures s == prefix + s[|prefix|..]
  {
  }

  lemma StripsPrefix(prefix: string, rest: string)
    ensures HasPrefix(prefix + rest, prefix) && (prefix + rest)[|prefix|..] == rest
  {
  }

  lemma AuthoritySplits(authority: string, b: Backend) returns (host: string, port: string)
    requires ParseAuthority(authority) == Some(b)
    ensures authority == host + ":" + port && Spells(host, b.host) && ParseU16(port) == Some(b.port)
  {
    hide ParseU16, LowerAscii;
    if HasPrefix(authority, IPV6_PREFIX) {
      host, port := "[::1]", authority[|IPV6_PREFIX|..];
    } else {
      var split := RsplitOnce(authority, ':').value;
      host, port := split.0, split.1;
      LowerIsAnyCase(host);
    }
  }

  lemma AddressIsRecognised(proxy: string, host: string, port: string, tail: string, b: Backend)
    requires Addresses(Trim(proxy), host, port, tail, b)
    ensures ParseLoopbackProxyBackend(proxy) == Some(b)
  {
    var authority := host + ":" + port;
    ParsesExactly(port, b.port);
    hide WritesU16;
    assert Plain(authority) && Before(authority + tail, '/') == authority by {
      HostHasNone(host, b.host);
      PortHasNone(port);
      hide Spells, ParseU16;
      BeforeIsFirst(authority, '/', tail);
    }
    AuthorityParses(host, port, b);
    StripsPrefix(SCHEME, authority + tail);
    hide HasPrefix, Spells, ParseU16, ParseAuthority, Before, Trim;
  }

  lemma AuthorityParses(host: string, port: string, b: Backend)
    requires Spells(host, b.host) && ParseU16(port) == Some(b.port)
    ensures ParseAuthority(host + ":" + port) == Some(b)
  {
    var authority := host + ":" + port;
    if b.host == Ipv6 {
      assert authority == IPV6_PREFIX + port;
      StripsPrefix(IPV6_PREFIX, port);
    } else {
      PortHasNone(port);
      HostHasNone(host, b.host);
      HostOfSpelling(host, b.host);
      NotPrefixed(host, ":" + port);
      assert authority == host + (":" + port);
      RsplitIsLast(host, ':', port);
      hide ParseU16, Spells, HostOf, HasPrefix;
    }
  }

  lemma HostOfSpelling(text: string, host: Host)
    requires Spells(text, host) && host != Ipv6
    ensures HostOf(text) == Some(host)
  {
    LowerIsAnyCase(text);
    assert LowerAscii("127.0.0.1")[0] == '1';
  }

  lemma NotPrefixed(head: string, tail: string)
    requires head != "" && head[0] != '['
    ensures !HasPrefix(head + tail, IPV6_PREFIX)
  {
    assert (head + tail)[0] == head[0];
    assert (head + tail)[0] != IPV6_PREFIX[0];
  }

  predicate Plain(s: string) {
    '/' !in s && !HasForbidden(s)
  }

  lemma HostHasNone(text: string, host: Host)
    requires Spells(text, host)
    ensures text != "" && Plain(text) && (host != Ipv6 ==> text[0] != '[')
  {
    LowerIsAnyCase(text);
    if host == Localhost {
      LowerKeeps(text, '/');
      LowerKeeps(text, '@');
      LowerKeeps(text, '?');
      LowerKeeps(text, '#');
      LowerKeeps(text, '[');
    }
  }

  lemma LowerKeeps(text: string, c: char)
    requires c !in LowerAscii(text) && !('A' <= c <= 'Z')
    ensures c !in text
  {
    assert forall k | 0 <= k < |text| :: text[k] == c ==> LowerAscii(text)[k] == c;
  }

  lemma PortHasNone(port: string)
    requires ParseU16(port).Some?
    ensures Plain(port) && ':' !in port
  {
    assert forall k | 0 <= k < |port| :: k > 0 ==> port[k] == port[1..][k - 1];
    assert forall k | 0 <= k < |port| :: IsDigit(port[k]) || port[k] == '+';
  }
}
