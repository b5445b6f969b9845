/**
 The route index of proxy/manager.go and the redirect decision of proxy/redirector.go.
 Routes are pointers in the source; here a route is named by its position in the list
 that was installed.
 */
module Routing {
  import opened Text
  import opened Domains
  import opened ConfigParser

  /** One of the domains is the given lower-case name, whatever its own case. */
  predicate Serves(r: Route, key: string) {
    exists j :: 0 <= j < |r.domains| && ToLower(r.domains[j]) == key
  }

  /** The last of the first `n` routes that serves a name: a linear scan from the end. */
  function LastServing(routes: seq<Route>, n: nat, key: string): (r: Option<nat>)
    requires n <= |routes|
    ensures r.Some? ==> r.value < n && Serves(routes[r.value], key)
    ensures forall i :: 0 <= i < n && Serves(routes[i], key) ==> r.Some? && i <= r.value
  {
    if n == 0 then None
    else if Serves(routes[n - 1], key) then Some(n - 1)
    else LastServing(routes, n - 1, key)
  }

  function Find(index: map<string, nat>, key: string): Option<nat> {
    if key in index then Some(index[key]) else None
  }

  /** The index answers every lookup as the scan over the first `n` routes would. */
  ghost predicate Indexes(index: map<string, nat>, routes: seq<Route>, n: nat)
    requires n <= |routes|
  {
    forall key :: Find(index, key) == LastServing(routes, n, key)
  }

  predicate AllNames(r: Route) {
    forall j :: 0 <= j < |r.domains| ==> DomainName(r.domains[j])
  }

  /** The routes Update accepts. */
  predicate Installable(routes: seq<Route>) {
    forall i :: 0 <= i < |routes| ==> AllNames(routes[i])
  }

  class RouteMap {
    var domains: map<string, nat>
    var routes: seq<Route>

    ghost predicate Valid()
      reads this
    {
      Indexes(domains, routes, |routes|)
    }

    constructor ()
      ensures Valid() && routes == []
    {
      domains, routes := map[], [];
    }

    /** Update: installs all routes, or none if any domain is not a domain name. */
    method Update(newRoutes: seq<Route>) returns (ok: bool)
      requires Valid()
      modifies this
      ensures Valid()
      ensures ok <==> Installable(newRoutes)
      ensures routes == if ok then newRoutes else old(routes)
      ensures !ok ==> domains == old(domains)
    {
      hide AllNames, LastServing;
      var newDomains: map<string, nat> := map[];
      NothingIndexed(newRoutes);
      for i := 0 to |newRoutes|
        invariant Indexes(newDomains, newRoutes, i)
        invariant forall k :: 0 <= k < i ==> AllNames(newRoutes[k])
        invariant domains == old(domains) && routes == old(routes)
      {
        var valid, more := IndexRoute(newDomains, newRoutes, i);
        if !valid {
          return false;
        }
        newDomains := more;
      }
      domains := newDomains;
      routes := newRoutes;
      return true;
    }

    /** Get. */
    method Get(domain: string) returns (r: Option<nat>)
      requires Valid()
      ensures r == LastServing(routes, |routes|, ToLower(domain))
    {
      var key := ToLower(domain);
      r := Find(domains, key);
    }
  }

  lemma {:induction false} NothingIndexed(routes: seq<Route>)
    ensures Indexes(map[], routes, 0)
  {
  }

  /** The inner loop of Update, over the domains of one route. */
  method IndexRoute(index: map<string, nat>, routes: seq<Route>, i: nat) returns (valid: bool, r: map<string, nat>)
    requires i < |routes| && Indexes(index, routes, i)
    ensures valid <==> AllNames(routes[i])
    ensures valid ==> Indexes(r, routes, i + 1)
  {
    hide LastServing, DomainName, ToLower;
    r := index;
    var ds := routes[i].domains;
    for j := 0 to |ds|
      invariant forall k :: 0 <= k < j ==> DomainName(ds[k])
      invariant PartlyIndexed(r, routes, i, j)
    {
      var ok := IsDomainName(ds[j]);
      if !ok {
        return false, r;
      }
      DomainIndexed(r, routes, i, j);
      r := r[ToLower(ds[j]) := i];
    }
    RouteIndexed(r, routes, i);
    return true, r;
  }

  predicate ServesEarly(r: Route, n: nat, key: string)
    requires n <= |r.domains|
  {
    exists k :: 0 <= k < n && ToLower(r.domains[k]) == key
  }

  /** All of the first `i` routes and the first `j` domains of the next are in the index. */
  ghost predicate PartlyIndexed(index: map<string, nat>, routes: seq<Route>, i: nat, j: nat)
    requires i < |routes| && j <= |routes[i].domains|
  {
    forall key :: Find(index, key) == (if ServesEarly(routes[i], j, key) then Some(i) else LastServing(routes, i, key))
  }

  lemma {:induction false} DomainIndexed(index: map<string, nat>, routes: seq<Route>, i: nat, j: nat)
    requires i < |routes| && j < |routes[i].domains| && PartlyIndexed(index, routes, i, j)
    ensures PartlyIndexed(index[ToLower(routes[i].domains[j]) := i], routes, i, j + 1)
  {
    hide LastServing, ToLower;
    var r := routes[i];
    var index' := index[ToLower(r.domains[j]) := i];
    forall key
      ensures Find(index', key) == (if ServesEarly(r, j + 1, key) then Some(i) else LastServing(routes, i, key))
    {
      assert Find(index, key) == (if ServesEarly(r, j, key) then Some(i) else LastServing(routes, i, key));
      if ServesEarly(r, j, key) {
        var k :| 0 <= k < j && ToLower(r.domains[k]) == key;
        assert ServesEarly(r, j + 1, key);
      }
    }
  }

  lemma {:induction false} RouteIndexed(index: map<string, nat>, routes: seq<Route>, i: nat)
    requires i < |routes| && PartlyIndexed(index, routes, i, |routes[i].domains|)
    ensures Indexes(index, routes, i + 1)
  {
    forall key ensures Find(index, key) == LastServing(routes, i + 1, key) {
      assert Serves(routes[i], key) <==> ServesEarly(routes[i], |routes[i].domains|, key);
    }
  }

  // ---- redirects ----

  /** routeFor: the index, else the fallback. */
  function RouteFor(routes: seq<Route>, fallback: Option<nat>, host: string): Option<nat> {
    var direct := LastServing(routes, |routes|, ToLower(host));
    if direct.Some? then direct else fallback
  }

  /** Route `i` serves the name, in whatever case, and no route after it does. */
  ghost predicate LastToServe(routes: seq<Route>, i: nat, name: string) {
    && i < |routes| && Serves(routes[i], ToLower(name))
    && forall k :: i < k < |routes| ==> !Serves(routes[k], ToLower(name))
  }

  ghost predicate Unserved(routes: seq<Route>, name: string) {
    forall k :: 0 <= k < |routes| ==> !Serves(routes[k], ToLower(name))
  }

  /** A later route takes a name from an earlier one; the fallback takes the names of none. */
  lemma {:induction false} RouteForIs(routes: seq<Route>, fallback: Option<nat>, name: string)
    ensures forall i: nat :: LastToServe(routes, i, name) ==> RouteFor(routes, fallback, name) == Some(i)
    ensures Unserved(routes, name) ==> RouteFor(routes, fallback, name) == fallback
    ensures Unserved(routes, name) || exists i: nat :: LastToServe(routes, i, name)
  {
    hide ToLower, Serves;
    var last := LastServing(routes, |routes|, ToLower(name));
    if last.Some? {
      assert LastToServe(routes, last.value, name);
    }
    forall i: nat | LastToServe(routes, i, name) ensures last == Some(i) {
      assert last.Some? && i <= last.value;
    }
  }

  /** The redirect decision of DomainRedirector, where `servable` says which routes have a usable certificate. */
  function RedirectTarget(routes: seq<Route>, fallback: Option<nat>, servable: nat -> bool, host: string): Option<string>
    requires fallback.Some? ==> fallback.value < |routes|
    requires forall i :: 0 <= i < |routes| ==> |routes[i].domains| >= 1
  {
    var i := RouteFor(routes, fallback, host);
    if i.Some? && servable(i.value) && routes[i.value].redirectToPrimary && routes[i.value].domains[0] != host
    then Some(routes[i.value].domains[0])
    else None
  }

  /**
   redirect-to-primary: a request for any domain of a route, unless a later route claims
   that domain too, is sent to the route's first domain exactly when the route says so, its
   certificate is usable and the request is not for that domain already.
   */
  lemma {:induction false} SecondaryGoesToPrimary(routes: seq<Route>, fallback: Option<nat>, servable: nat -> bool, i: nat, host: string)
    requires fallback.Some? ==> fallback.value < |routes|
    requires forall k :: 0 <= k < |routes| ==> |routes[k].domains| >= 1
    requires LastToServe(routes, i, host)
    ensures RedirectTarget(routes, fallback, servable, host) ==
      if routes[i].redirectToPrimary && servable(i) && host != routes[i].domains[0] then Some(routes[i].domains[0]) else None
  {
    hide ToLower, Serves;
    RouteForIs(routes, fallback, host);
  }

  /**
   A request for a host that no route serves is sent to the fallback's first domain exactly
   when there is a fallback, it says so and its certificate is usable.
   */
  lemma {:induction false} UnservedGoesToFallback(routes: seq<Route>, fallback: Option<nat>, servable: nat -> bool, host: string)
    requires fallback.Some? ==> fallback.value < |routes|
    requires forall k :: 0 <= k < |routes| ==> |routes[k].domains| >= 1
    requires Unserved(routes, host)
    ensures RedirectTarget(routes, fallback, servable, host) ==
      if fallback.Some? && routes[fallback.value].redirectToPrimary && servable(fallback.value)
      then Some(routes[fallback.value].domains[0]) else None
  {
    hide ToLower;
    RouteForIs(routes, fallback, host);
    if fallback.Some? {
      assert Serves(routes[fallback.value], ToLower(routes[fallback.value].domains[0]));
    }
  }

  function LastIndexOf(s: string, c: char): (i: int)
    ensures -1 <= i < |s|
    ensures i == -1 <==> c !in s
  {
    if s == "" then -1
    else
      assert s == s[..|s| - 1] + [s[|s| - 1]];
      if s[|s| - 1] == c then |s| - 1 else LastIndexOf(s[..|s| - 1], c)
  }

  /** net.SplitHostPort: the host part, or None on error. */
  function SplitHostPort(s: string): Option<string> {
    var i := LastIndexOf(s, ':');
    if i < 0 then None
    else if s[0] == '[' then
      var end := IndexOf(s, ']');
      if end == |s| || end + 1 != i then None
      else if '[' in s[1..] || ']' in s[end + 1..] then None
      else Some(s[1..end])
    else if ':' in s[..i] || '[' in s || ']' in s then None
    else Some(s[..i])
  }

  /** hostForRequest. */
  function HostForRequest(host: string): string {
    var h := SplitHostPort(host);
    if h.Some? then h.value else host
  }

  lemma {:induction false} LastIndexIs(a: string, c: char, b: string)
    requires Free(b, c)
    ensures LastIndexOf(a + [c] + b, c) == |a|
  {
    var s := a + [c] + b;
    if b != "" {
      assert s[..|s| - 1] == a + [c] + b[..|b| - 1];
      LastIndexIs(a, c, b[..|b| - 1]);
    }
  }

  lemma {:induction false} PortOfName(host: string, port: string)
    requires Free(host, '[') && Free(host, ']') && Free(host, ':') && Free(port, ':') && Free(port, '[') && Free(port, ']')
    ensures SplitHostPort(host + [':'] + port) == Some(host)
  {
    hide LastIndexOf, IndexOf;
    var s := host + [':'] + port;
    LastIndexIs(host, ':', port);
    assert s[..|host|] == host;
    assert '[' !in s && ']' !in s;
    assert s[0] == if host == "" then ':' else host[0];
  }

  lemma {:induction false} PortOfBracketed(host: string, port: string)
    requires Free(host, '[') && Free(host, ']') && Free(port, ':') && Free(port, '[') && Free(port, ']')
    ensures SplitHostPort(['['] + host + [']', ':'] + port) == Some(host)
  {
    hide LastIndexOf, IndexOf;
    var s := ['['] + host + [']', ':'] + port;
    assert s == (['['] + host + [']']) + [':'] + port;
    LastIndexIs(['['] + host + [']'], ':', port);
    assert s == (['['] + host) + [']'] + ([':'] + port);
    IndexOfFirst(['['] + host, ']', [':'] + port);
    assert s[1..|host| + 1] == host;
    assert s[1..] == host + [']', ':'] + port && '[' !in s[1..];
    assert s[|host| + 2..] == [':'] + port && ']' !in s[|host| + 2..];
  }

  /** The port of a requested host is dropped, of names and of addresses in brackets. */
  lemma {:induction false} PortIsDropped(host: string, port: string)
    requires Free(host, '[') && Free(host, ']') && Free(port, ':') && Free(port, '[') && Free(port, ']')
    ensures Free(host, ':') ==> HostForRequest(host + ":" + port) == host
    ensures HostForRequest("[" + host + "]:" + port) == host
  {
    hide SplitHostPort;
    if Free(host, ':') {
      PortOfName(host, port);
    }
    PortOfBracketed(host, port);
    assert "[" + host + "]:" + port == ['['] + host + [']', ':'] + port;
  }

  lemma {:induction false} IndexOfSomewhere(s: string, c: char, k: nat)
    requires k < |s| && s[k] == c
    ensures k <= LastIndexOf(s, c) && s[LastIndexOf(s, c)] == c
  {
    if s[|s| - 1] != c {
      assert s[..|s| - 1][k] == c;
      IndexOfSomewhere(s[..|s| - 1], c, k);
    }
  }

  /** A host without a port is kept: a name, or an address with several colons and no brackets. */
  lemma {:induction false} HostWithoutPortIsKept(host: string)
    requires Free(host, '[') && Free(host, ']')
    requires Free(host, ':') || exists i, k :: 0 <= i < k < |host| && host[i] == host[k] == ':'
    ensures HostForRequest(host) == host
  {
    hide LastIndexOf;
    if !Free(host, ':') {
      var i, k :| 0 <= i < k < |host| && host[i] == host[k] == ':';
      IndexOfSomewhere(host, ':', k);
      assert host[..LastIndexOf(host, ':')][i] == ':';
    }
  }

  /** Requests by a client that follows redirects: each is for the host of the previous Location header. */
  ghost predicate RedirectChain(routes: seq<Route>, fallback: Option<nat>, servable: seq<nat -> bool>, hosts: seq<string>)
    requires fallback.Some? ==> fallback.value < |routes|
    requires forall i :: 0 <= i < |routes| ==> |routes[i].domains| >= 1
  {
    && |servable| + 1 == |hosts|
    && forall k :: 0 <= k < |servable| ==>
      RedirectTarget(routes, fallback, servable[k], HostForRequest(hosts[k])) == Some(hosts[k + 1])
  }

  /** What SetRoutes installs, from a parsed configuration. */
  ghost predicate Installed(routes: seq<Route>, fallback: Option<nat>) {
    && (fallback.Some? ==> fallback.value < |routes|)
    && (forall i :: 0 <= i < |routes| ==> |routes[i].domains| >= 1)
    && Installable(routes)
  }

  /** The position of the route that redirects a request. */
  ghost function Redirecting(routes: seq<Route>, fallback: Option<nat>, host: string): int {
    var i := RouteFor(routes, fallback, HostForRequest(host));
    if i.Some? then i.value else -1
  }

  /** A redirect goes to a host that a route further down the list serves, unless it is the last redirect. */
  lemma {:induction false} PositionIncreases(routes: seq<Route>, fallback: Option<nat>, now: nat -> bool, later: nat -> bool, host: string, next: string)
    requires Installed(routes, fallback)
    requires RedirectTarget(routes, fallback, now, HostForRequest(host)) == Some(next)
    requires RedirectTarget(routes, fallback, later, HostForRequest(next)).Some?
    ensures 0 <= Redirecting(routes, fallback, host) < Redirecting(routes, fallback, next) < |routes|
  {
    hide DomainName, ToLower, HostForRequest;
    var i := RouteFor(routes, fallback, HostForRequest(host)).value;
    var r := routes[i];
    assert AllNames(r) && DomainName(r.domains[0]);
    NameIsHost(next);
    assert Serves(r, ToLower(next));
  }

  lemma {:induction false} NameIsHost(name: string)
    requires DomainName(name)
    ensures HostForRequest(name) == name
  {
    NameChars(name, ':');
  }

  lemma {:induction false} ChainPositions(routes: seq<Route>, fallback: Option<nat>, servable: seq<nat -> bool>, hosts: seq<string>, k: nat)
    requires Installed(routes, fallback) && RedirectChain(routes, fallback, servable, hosts) && k < |servable|
    ensures k <= Redirecting(routes, fallback, hosts[k]) < |routes|
  {
    hide DomainName, HostForRequest, LastServing, ToLower;
    var link := RedirectTarget(routes, fallback, servable[k], HostForRequest(hosts[k]));
    assert link == Some(hosts[k + 1]);
    if k > 0 {
      ChainPositions(routes, fallback, servable, hosts, k - 1);
      assert RedirectTarget(routes, fallback, servable[k - 1], HostForRequest(hosts[k - 1])) == Some(hosts[k]);
      PositionIncreases(routes, fallback, servable[k - 1], servable[k], hosts[k - 1], hosts[k]);
    }
  }

  /**
   Redirects terminate: for any installed routes, overlapping or not, and certificates
   coming and going, a client is redirected at most as often as there are routes.
   */
  lemma {:induction false} RedirectsTerminate(routes: seq<Route>, fallback: Option<nat>, servable: seq<nat -> bool>, hosts: seq<string>)
    requires Installed(routes, fallback) && RedirectChain(routes, fallback, servable, hosts)
    ensures |hosts| - 1 <= |routes|
  {
    if |servable| > 0 {
      ChainPositions(routes, fallback, servable, hosts, |servable| - 1);
    }
  }

  /** A configuration that was parsed and whose domains the index accepted is what the bound is about. */
  lemma {:induction false} ParsedRoutesTerminate(url: UrlParser, lines: seq<string>, servable: seq<nat -> bool>, hosts: seq<string>)
    requires Meaning(url, lines).Ok?
    requires Installable(Meaning(url, lines).value.routes)
    ensures var c := Meaning(url, lines).value;
      Installed(c.routes, c.fallback) &&
      (RedirectChain(c.routes, c.fallback, servable, hosts) ==> |hosts| - 1 <= |c.routes|)
  {
    hide Meaning, AllNames, RedirectTarget;
    AcceptedIsGood(url, lines);
    var c := Meaning(url, lines).value;
    assert forall i :: 0 <= i < |c.routes| ==> Complete(c.routes[i]);
    if RedirectChain(c.routes, c.fallback, servable, hosts) {
      RedirectsTerminate(c.routes, c.fallback, servable, hosts);
    }
  }

  // ---- clients that lower-case host names ----

  /** Requests by a client that follows redirects and puts host names in lower case, as browsers do. */
  ghost predicate LowerChain(routes: seq<Route>, fallback: Option<nat>, servable: seq<nat -> bool>, hosts: seq<string>)
    requires fallback.Some? ==> fallback.value < |routes|
    requires forall i :: 0 <= i < |routes| ==> |routes[i].domains| >= 1
  {
    && |servable| + 1 == |hosts|
    && forall k :: 0 <= k < |servable| ==>
      RedirectTarget(routes, fallback, servable[k], HostForRequest(hosts[k])).Some? &&
      hosts[k + 1] == ToLower(RedirectTarget(routes, fallback, servable[k], HostForRequest(hosts[k])).value)
  }

  /**
   A route that redirects to its primary domain, is the one that serves that domain, and
   spells it with a capital letter, which the comparison with the requested host notices.
   */
  predicate Loops(routes: seq<Route>, i: nat) {
    && i < |routes| && |routes[i].domains| >= 1 && routes[i].redirectToPrimary
    && ToLower(routes[i].domains[0]) != routes[i].domains[0]
    && LastServing(routes, |routes|, ToLower(routes[i].domains[0])) == Some(i)
  }

  lemma {:induction false} LowerNameIsHost(name: string)
    requires DomainName(name)
    ensures HostForRequest(ToLower(name)) == ToLower(name)
  {
    NameChars(name, ':');
    forall k | 0 <= k < |name| ensures ToLower(name)[k] != ':' {
      assert name[k] != ':';
    }
  }

  lemma {:induction false} LowerTwice(s: string)
    ensures ToLower(ToLower(s)) == ToLower(s)
  {
  }

  lemma {:induction false} LowerPositionIncreases(routes: seq<Route>, fallback: Option<nat>, now: nat -> bool, later: nat -> bool, host: string, next: string)
    requires Installed(routes, fallback) && forall i :: !Loops(routes, i)
    requires RedirectTarget(routes, fallback, now, HostForRequest(host)) == Some(next)
    requires RedirectTarget(routes, fallback, later, HostForRequest(ToLower(next))).Some?
    ensures 0 <= Redirecting(routes, fallback, host) < Redirecting(routes, fallback, ToLower(next)) < |routes|
  {
    hide DomainName, ToLower, HostForRequest;
    var i := RouteFor(routes, fallback, HostForRequest(host)).value;
    var r := routes[i];
    assert AllNames(r) && DomainName(r.domains[0]);
    LowerNameIsHost(next);
    LowerTwice(next);
    assert Serves(r, ToLower(next));
    assert !Loops(routes, i);
  }

  lemma {:induction false} LowerChainPositions(routes: seq<Route>, fallback: Option<nat>, servable: seq<nat -> bool>, hosts: seq<string>, k: nat)
    requires Installed(routes, fallback) && forall i :: !Loops(routes, i)
    requires LowerChain(routes, fallback, servable, hosts) && k < |servable|
    ensures k <= Redirecting(routes, fallback, hosts[k]) < |routes|
  {
    hide DomainName, HostForRequest, LastServing, ToLower, Loops;
    var link := RedirectTarget(routes, fallback, servable[k], HostForRequest(hosts[k]));
    assert link.Some?;
    if k > 0 {
      LowerChainPositions(routes, fallback, servable, hosts, k - 1);
      var before := RedirectTarget(routes, fallback, servable[k - 1], HostForRequest(hosts[k - 1]));
      assert before.Some? && hosts[k] == ToLower(before.value);
      LowerPositionIncreases(routes, fallback, servable[k - 1], servable[k], hosts[k - 1], before.value);
    }
  }

  /** A looping route redirects such a client as often as one likes. */
  lemma {:induction false} LoopsForEver(routes: seq<Route>, fallback: Option<nat>, i: nat, n: nat)
    returns (servable: seq<nat -> bool>, hosts: seq<string>)
    requires Installed(routes, fallback) && Loops(routes, i)
    ensures LowerChain(routes, fallback, servable, hosts) && |hosts| == n + 1
  {
    hide DomainName, ToLower, HostForRequest;
    var primary := routes[i].domains[0];
    var host := ToLower(primary);
    assert AllNames(routes[i]) && DomainName(primary);
    LowerNameIsHost(primary);
    LowerTwice(primary);
    servable := seq(n, _ => (_ => true));
    hosts := seq(n + 1, _ => host);
    forall k | 0 <= k < n ensures RedirectTarget(routes, fallback, servable[k], HostForRequest(hosts[k])) == Some(primary) {
      assert hosts[k] == host && servable[k](i);
    }
  }

  /** For clients that lower-case host names, the bound holds exactly when no route loops. */
  lemma {:induction false} LowerCasingTerminatesIff(routes: seq<Route>, fallback: Option<nat>)
    requires Installed(routes, fallback)
    ensures (forall servable, hosts :: LowerChain(routes, fallback, servable, hosts) ==> |hosts| - 1 <= |routes|)
      <==> forall i :: !Loops(routes, i)
  {
    hide LowerChain, Loops;
    if i :| Loops(routes, i) {
      var servable, hosts := LoopsForEver(routes, fallback, i, |routes| + 1);
      assert LowerChain(routes, fallback, servable, hosts) && |hosts| - 1 > |routes|;
    } else {
      forall servable, hosts | LowerChain(routes, fallback, servable, hosts) ensures |hosts| - 1 <= |routes| {
        LowerChainBounded(routes, fallback, servable, hosts);
      }
    }
  }

  lemma {:induction false} LowerChainBounded(routes: seq<Route>, fallback: Option<nat>, servable: seq<nat -> bool>, hosts: seq<string>)
    requires Installed(routes, fallback) && forall i :: !Loops(routes, i)
    requires LowerChain(routes, fallback, servable, hosts)
    ensures |hosts| - 1 <= |routes|
  {
    if |servable| > 0 {
      LowerChainPositions(routes, fallback, servable, hosts, |servable| - 1);
    }
  }

  /** One capital letter is enough for such a route. */
  lemma {:induction false} CapitalLoops(r: Route)
    requires r.domains == ["A.b", "c.d"] && r.redirectToPrimary
    ensures Loops([r], 0)
  {
    assert ToLower("A.b")[0] == 'a';
    assert Serves(r, ToLower(r.domains[0]));
  }

  /** The part of the proxy manager that maps requests to routes. */
  class Manager {
    const index: RouteMap
    var fallback: Option<nat>

    ghost predicate Valid()
      reads this, index
    {
      index.Valid()
    }

    constructor ()
      ensures Valid() && fresh(index) && index.routes == [] && fallback == None
    {
      index := new RouteMap();
      fallback := None;
    }

    /** SetRoutes: on an invalid domain everything stays as it was, the fallback included. */
    method SetRoutes(newRoutes: seq<Route>, newFallback: Option<nat>) returns (ok: bool)
      requires Valid()
      modifies this, index
      ensures Valid()
      ensures ok <==> Installable(newRoutes)
      ensures index.routes == if ok then newRoutes else old(index.routes)
      ensures fallback == if ok then newFallback else old(fallback)
    {
      ok := index.Update(newRoutes);
      if ok {
        fallback := newFallback;
      }
    }

    /**
     RouteForDomain, where `servable` says which routes have a usable certificate: the last
     route that serves the name, in whatever case; for a name that none serves, the fallback.
     */
    method RouteForDomain(servable: nat -> bool, domain: string) returns (r: Option<nat>)
      requires Valid()
      ensures forall i: nat :: LastToServe(index.routes, i, domain) ==> r == if servable(i) then Some(i) else None
      ensures Unserved(index.routes, domain) ==> r == if fallback.Some? && servable(fallback.value) then fallback else None
      ensures var i := RouteFor(index.routes, fallback, domain);
        r == if i.Some? && servable(i.value) then i else None
    {
      RouteForIs(index.routes, fallback, domain);
      var direct := index.Get(domain);
      r := if direct.Some? then direct else fallback;
      if r.Some? && !servable(r.value) {
        r := None;
      }
    }
  }
}
