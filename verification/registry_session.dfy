/** The proxy registry and one session's proxies as the program keeps them, one call at a time
    (internal/app/server/server.go:134-158, internal/app/server/control.go:116-199, 274-324);
    Registry interleaves the same effects. */
module RegistrySession {
  import opened RtpPool
  import opened Registry

  /** The relay a requested proxy type runs on. */
  function RelayKind(requested: string): (kind: string)
    ensures kind == "udp" <==> requested in {"udp", "sip", "iax"}
    ensures kind == "tcp" <==> requested in {"tcp", "sip-tcp", "sip-tls"}
    ensures kind in {"udp", "tcp"} || kind == requested
  {
    if requested == "sip" || requested == "iax" then "udp"
    else if requested == "sip-tcp" || requested == "sip-tls" then "tcp"
    else requested
  }

  /** Registered proxies stand under their keys. */
  ghost predicate Keyed(m: map<string, Proxy>) {
    forall k :: k in m ==> KeyOf(m[k]) == k
  }

  /** No registered proxy of the kind has the port. */
  ghost predicate Vacant(m: map<string, Proxy>, kind: string, port: int) {
    forall k :: k in m ==> !(m[k].kind == kind && m[k].port == port)
  }

  /** Some configured range holds the port, or none is configured. */
  predicate Permitted(allow: seq<PortRange>, port: int) {
    allow == [] || exists i :: 0 <= i < |allow| && allow[i].start <= port <= allow[i].end
  }

  /** RegisterProxy's checks on keys are checks on kinds and ports. */
  lemma AcceptsMeans(allow: seq<PortRange>, m: map<string, Proxy>, kind: string, port: int)
    requires Keyed(m)
    ensures Accepts(allow, m.Keys, kind, port) <==> Vacant(m, kind, port) && Permitted(allow, port)
  {
    var key := ProxyKey(kind, port);
    if key in m {
      ProxyKeyInjective(m[key].kind, m[key].port, kind, port);
      assert !Vacant(m, kind, port);
    }
    hide ProxyKey;
    if k :| k in m && m[k].kind == kind && m[k].port == port { assert KeyOf(m[k]) == key; }
    PermittedIs(allow, port);
    hide IsPortAllowed, Permitted;
  }

  lemma PermittedIs(allow: seq<PortRange>, port: int)
    ensures IsPortAllowed(allow, port) <==> Permitted(allow, port)
  {
    if i :| 0 <= i < |allow| && allow[i].start <= port <= allow[i].end {
      assert allow[i] in allow && Within(allow[i], port);
    }
  }

  class Server {
    const allow: seq<PortRange>
    var proxies: map<string, Proxy>

    ghost predicate Valid()
      reads this
    {
      Keyed(proxies)
    }

    constructor (allow: seq<PortRange>)
      ensures Valid() && this.allow == allow && proxies == map[]
    {
      this.allow, proxies := allow, map[];
    }

    /** IsPortAllowed. */
    method PortAllowed(port: int) returns (ok: bool)
      ensures ok == Permitted(allow, port)
    {
      if |allow| == 0 {
        return true;
      }
      var i := 0;
      while i < |allow|
        invariant 0 <= i <= |allow| && forall j :: 0 <= j < i ==> !(allow[j].start <= port <= allow[j].end)
      {
        if port >= allow[i].start && port <= allow[i].end {
          return true;
        }
        i := i + 1;
      }
      ok := false;
    }

    method RegisterProxy(p: Proxy) returns (ok: bool)
      requires Valid()
      modifies this
      ensures Valid() && ok == (Vacant(old(proxies), p.kind, p.port) && Permitted(allow, p.port))
      ensures ok ==> KeyOf(p) !in old(proxies)
      ensures proxies == if ok then old(proxies)[KeyOf(p) := p] else old(proxies)
    {
      AcceptsMeans(allow, proxies, p.kind, p.port);
      PermittedIs(allow, p.port);
      hide ProxyKey, Permitted, IsPortAllowed, Vacant;
      KeyIs(p);
      var key := ProxyKey(p.kind, p.port);
      if key in proxies {
        return false;
      }
      var allowed := PortAllowed(p.port);
      if !allowed {
        return false;
      }
      proxies := proxies[key := p];
      ok := true;
    }

    method UnregisterProxy(kind: string, port: int)
      requires Valid()
      modifies this
      ensures Valid() && proxies == old(proxies) - {ProxyKey(kind, port)}
    {
      proxies := proxies - {ProxyKey(kind, port)};
    }
  }

  /** The keys of the proxies in m. */
  ghost function KeysOf(m: map<string, Proxy>): set<string> {
    set n | n in m :: KeyOf(m[n])
  }

  /** What a session holds is what is registered, under different keys. */
  ghost predicate Holds(proxies: map<string, Proxy>, id: nat, registry: map<string, Proxy>) {
    && (forall n :: n in proxies ==>
          proxies[n].session == id && KeyOf(proxies[n]) in registry && registry[KeyOf(proxies[n])] == proxies[n])
    && (forall m, n :: m in proxies && n in proxies && m != n ==> KeyOf(proxies[m]) != KeyOf(proxies[n]))
  }

  lemma HoldsMore(proxies: map<string, Proxy>, id: nat, registry: map<string, Proxy>, name: string, p: Proxy)
    requires Holds(proxies, id, registry) && name !in proxies && p.session == id && KeyOf(p) !in registry
    ensures Holds(proxies[name := p], id, registry[KeyOf(p) := p])
  {
    hide KeyOf;
  }

  class ClientSession {
    const id: nat
    const server: Server
    var proxies: map<string, Proxy>

    ghost predicate Valid()
      reads this, server
    {
      server.Valid() && Holds(proxies, id, server.proxies)
    }

    constructor (id: nat, server: Server)
      requires server.Valid()
      ensures Valid() && this.id == id && this.server == server && proxies == map[]
    {
      this.id, this.server, proxies := id, server, map[];
    }

    /** handleNewProxy; started says whether the listener opens. A failure leaves everything as it was. */
    method HandleNewProxy(name: string, requested: string, port: int, started: bool) returns (ok: bool)
      requires Valid()
      modifies this, server
      ensures Valid()
      ensures ok == (name != "" && name !in old(proxies) && started
        && Vacant(old(server.proxies), RelayKind(requested), port) && Permitted(server.allow, port))
      ensures var p := Proxy(id, name, RelayKind(requested), port);
        && proxies == (if ok then old(proxies)[name := p] else old(proxies))
        && server.proxies == (if ok then old(server.proxies)[KeyOf(p) := p] else old(server.proxies))
    {
      hide ProxyKey, Permitted, Vacant, RelayKind, KeyOf, Holds, Keyed;
      if name == "" {
        return false;
      }
      if name in proxies {
        return false;
      }
      var p := Proxy(id, name, RelayKind(requested), port);
      KeyIs(p);
      var registered := server.RegisterProxy(p);
      if !registered {
        return false;
      }
      if !started {
        server.UnregisterProxy(p.kind, p.port);
        assert server.proxies == old(server.proxies);
        return false;
      }
      HoldsMore(proxies, id, old(server.proxies), name, p);
      proxies := proxies[name := p];
      ok := true;
    }

    /** closeProxy, and handleProxyClosed but for the answer: the proxy leaves the session and the
        registry, every other proxy stays registered. */
    method CloseProxy(name: string) returns (ok: bool)
      requires Valid()
      modifies this, server
      ensures Valid() && ok == (name in old(proxies)) && proxies == old(proxies) - {name}
      ensures server.proxies == if ok then old(server.proxies) - {KeyOf(old(proxies)[name])} else old(server.proxies)
    {
      hide ProxyKey;
      if name !in proxies {
        assert proxies - {name} == proxies;
        return false;
      }
      var p := proxies[name];
      proxies := proxies - {name};
      server.UnregisterProxy(p.kind, p.port);
      ok := true;
    }

    /** Close, for the proxies: all leave the registry, and nothing else does. */
    method Close()
      requires Valid()
      modifies this, server
      ensures Valid() && proxies == map[]
      ensures server.proxies == old(server.proxies) - KeysOf(old(proxies))
    {
      hide ProxyKey, KeyOf;
      var names := proxies.Keys;
      while names != {}
        invariant server.Valid() && names <= proxies.Keys && proxies == old(proxies)
        invariant server.proxies == old(server.proxies) - (set n | n in proxies && n !in names :: KeyOf(proxies[n]))
        decreases names
      {
        var n :| n in names;
        names := names - {n};
        var p := proxies[n];
        assert ProxyKey(p.kind, p.port) == KeyOf(p) by { KeyIs(p); }
        server.UnregisterProxy(p.kind, p.port);
      }
      proxies := map[];
    }
  }

  lemma KeyIs(p: Proxy)
    ensures ProxyKey(p.kind, p.port) == KeyOf(p)
  {
  }
}
