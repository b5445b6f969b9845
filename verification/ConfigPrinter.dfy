/**
 A printer for the documented configuration format (docs/routes.md), and the proof that
 parsing what it prints gives back exactly what was printed. The printer is a
 specification; the program has none.
 */
module ConfigPrinter {
  import opened Text
  import L = ConfigLexer
  import opened ConfigParser

  // ---- what can be written down ----

  /** Space-separated words: not empty altogether, and not ending in white space. */
  predicate Words(xs: seq<string>) {
    |xs| >= 1 && AllFree(xs, ' ') && L.Clean(Join(xs, ' '))
  }

  predicate EmptyOrClean(s: string) {
    s == "" || L.Clean(s)
  }

  predicate PrintableHeader(h: Header) {
    && Free(h.name, ' ')
    && if h.op.Delete? then L.Clean(h.name) && h.value == "" else L.Clean(h.value)
  }

  predicate PrintableMapping(m: ErrorMapping) {
    GoodMapping(m) && m.path == "" && m.rawQuery == "" && L.NoSpace(m.upstream)
  }

  predicate Printable(r: Route) {
    && Words(r.domains)
    && |r.upstreams| >= 1 && (forall i :: 0 <= i < |r.upstreams| ==> EmptyOrClean(r.upstreams[i]))
    && (r.subject == [] || Words(r.subject))
    && (forall i :: 0 <= i < |r.headers| ==> PrintableHeader(r.headers[i]))
    && (forall i :: 0 <= i < |r.errors| ==> PrintableMapping(r.errors[i]))
    && EmptyOrClean(r.provider)
    && (r.redirectToPrimary ==> |r.domains| >= 2)
  }

  predicate PrintableConfig(c: Config) {
    && (forall i :: 0 <= i < |c.routes| ==> Printable(c.routes[i]))
    && (c.fallback.Some? ==> c.fallback.value < |c.routes|)
  }

  // ---- printing ----

  function HeaderArgs(h: Header): string {
    match h.op
    case Delete => "delete " + h.name
    case Add => "add " + h.name + " " + h.value
    case Replace => "replace " + h.name + " " + h.value
    case Default => "default " + h.name + " " + h.value
  }

  function MappingArgs(m: ErrorMapping): string
    requires PrintableMapping(m)
  {
    L.ThreeDigits(m.status) + " " + m.upstream
  }

  function UpstreamLines(us: seq<string>): seq<string> {
    seq(|us|, i requires 0 <= i < |us| => "upstream " + us[i])
  }

  function HeaderLines(hs: seq<Header>): seq<string> {
    seq(|hs|, i requires 0 <= i < |hs| => "header " + HeaderArgs(hs[i]))
  }

  function MappingLines(ms: seq<ErrorMapping>): seq<string>
    requires forall i :: 0 <= i < |ms| ==> PrintableMapping(ms[i])
  {
    seq(|ms|, i requires 0 <= i < |ms| => "on_error " + MappingArgs(ms[i]))
  }

  function Only(b: bool, line: string): seq<string> {
    if b then [line] else []
  }

  function PrintRoute(r: Route, fallback: bool): seq<string>
    requires Printable(r)
  {
    ["route " + Join(r.domains, ' ')] + UpstreamLines(r.upstreams) + HeaderLines(r.headers) + MappingLines(r.errors)
    + Only(r.subject != [], "subject " + Join(r.subject, ' '))
    + Only(r.provider != "", "provider " + r.provider)
    + Only(r.redirectToPrimary, "redirect-to-primary")
    + Only(fallback, "fallback")
  }

  /** The first `n` routes of a configuration, as lines. */
  function PrintRoutes(c: Config, n: nat): seq<string>
    requires PrintableConfig(c) && n <= |c.routes|
  {
    if n == 0 then [] else PrintRoutes(c, n - 1) + PrintRoute(c.routes[n - 1], c.fallback == Some(n - 1))
  }

  function Print(c: Config): seq<string>
    requires PrintableConfig(c)
  {
    PrintRoutes(c, |c.routes|)
  }

  // ---- reading single lines back ----

  lemma {:induction false} HeaderReadsBack(h: Header)
    requires PrintableHeader(h)
    ensures ParseHeader(HeaderArgs(h)) == Ok(h)
    ensures L.Clean(HeaderArgs(h))
  {
    hide L.SplitThree, ToLower, L.Cut;
    L.Operations();
    assert "add" != "delete" && "replace" != "delete" && "default" != "delete";
    match h.op {
      case Delete =>
        HeaderWithoutValue("delete", h);
        assert "delete" + " " == "delete ";
      case Add =>
        HeaderWithValue("add", h);
        assert "add" + " " == "add ";
      case Replace =>
        HeaderWithValue("replace", h);
        assert "replace" + " " == "replace ";
      case Default =>
        HeaderWithValue("default", h);
        assert "default" + " " == "default ";
    }
  }

  lemma {:induction false} HeaderWithValue(op: string, h: Header)
    requires L.Keyword(op) && Free(h.name, ' ') && L.Clean(h.value)
    ensures L.SplitThree(op + " " + h.name + " " + h.value) == [op, h.name, h.value]
    ensures ToLower(op) == op && L.Clean(op + " " + h.name + " " + h.value)
  {
    var rest := h.name + [' '] + h.value;
    assert op + " " + h.name + " " + h.value == op + [' '] + rest;
    L.CutFirst(op, ' ', rest);
    L.CutFirst(h.name, ' ', h.value);
  }

  lemma {:induction false} HeaderWithoutValue(op: string, h: Header)
    requires L.Keyword(op) && Free(h.name, ' ') && L.Clean(h.name)
    ensures L.SplitThree(op + " " + h.name) == [op, h.name]
    ensures ToLower(op) == op && L.Clean(op + " " + h.name)
  {
    assert op + " " + h.name == op + [' '] + h.name;
    L.CutFirst(op, ' ', h.name);
    L.CutNone(h.name, ' ');
  }

  lemma {:induction false} MappingReadsBack(url: UrlParser, m: ErrorMapping)
    requires PrintableMapping(m)
    ensures ParseOnError(url, MappingArgs(m)) == Ok(m)
    ensures L.Clean(MappingArgs(m))
  {
    L.AtoiThreeDigits(m.status);
    L.FieldsTwo(L.ThreeDigits(m.status), m.upstream);
    L.CutNone(m.upstream, '/');
  }

  /** With a path: whatever url.Parse makes of the text after the first slash is the mapping's path and query. */
  lemma {:induction false} MappingWithPathReadsBack(url: UrlParser, m: ErrorMapping, target: string)
    requires GoodMapping(m) && L.NoSpace(m.upstream) && L.NoSpace(target) && target != ""
    requires url("/" + target) == Some((m.path, m.rawQuery)) && ('?' in target ==> m.rawQuery != "")
    ensures ParseOnError(url, L.ThreeDigits(m.status) + " " + (m.upstream + "/" + target)) == Ok(m)
  {
    var place := m.upstream + "/" + target;
    L.AtoiThreeDigits(m.status);
    L.FieldsTwo(L.ThreeDigits(m.status), place);
    assert place == m.upstream + ['/'] + target;
    L.CutFirst(m.upstream, '/', target);
  }

  // ---- reading a route back ----

  ghost predicate Leads(url: UrlParser, st: State, lines: seq<string>, st': State) {
    Run(url, st, ClassifyAll(lines)) == Ok(st')
  }

  lemma {:induction false} LeadsOn(url: UrlParser, s0: State, a: seq<string>, s1: State, b: seq<string>, s2: State)
    requires Leads(url, s0, a, s1) && Leads(url, s1, b, s2)
    ensures Leads(url, s0, a + b, s2)
  {
    hide Run, L.Classify;
    assert ClassifyAll(a + b) == ClassifyAll(a) + ClassifyAll(b);
    RunConcat(url, s0, ClassifyAll(a), ClassifyAll(b));
  }

  lemma {:induction false} LeadsOne(url: UrlParser, st: State, line: string, st': State)
    requires Step(url, st, L.Classify(line)) == Ok(st')
    ensures Leads(url, st, [line], st')
  {
    hide L.Classify, Step;
    var ds := ClassifyAll([line]);
    assert ds == [L.Classify(line)] && ds[1..] == [];
    assert Run(url, st', []) == Ok(st');
  }

  /** The state while route `r` is being built. */
  function Building(st: State, r: Route): State {
    st.(route := Some(r))
  }

  lemma {:induction false} UpstreamsReadBack(url: UrlParser, st: State, r: Route, us: seq<string>)
    requires forall i :: 0 <= i < |us| ==> EmptyOrClean(us[i])
    ensures Leads(url, Building(st, r), UpstreamLines(us), Building(st, r.(upstreams := r.upstreams + us)))
    decreases |us|
  {
    hide Leads;
    if us == [] {
      assert r.(upstreams := r.upstreams + us) == r;
      NothingLeadsNowhere(url, Building(st, r));
    } else {
      var r' := r.(upstreams := r.upstreams + [us[0]]);
      UpstreamReadsBack(url, st, r, us[0]);
      UpstreamsReadBack(url, st, r', us[1..]);
      assert UpstreamLines(us) == ["upstream " + us[0]] + UpstreamLines(us[1..]);
      assert r'.upstreams + us[1..] == r.upstreams + us;
      LeadsOn(url, Building(st, r), ["upstream " + us[0]], Building(st, r'), UpstreamLines(us[1..]),
              Building(st, r.(upstreams := r.upstreams + us)));
    }
  }

  lemma {:induction false} UpstreamReadsBack(url: UrlParser, st: State, r: Route, u: string)
    requires EmptyOrClean(u)
    ensures Leads(url, Building(st, r), ["upstream " + u], Building(st, r.(upstreams := r.upstreams + [u])))
  {
    hide L.Classify, L.ByWord, Leads;
    L.Keywords();
    L.Table(u);
    if u == "" {
      L.ClassifyBare("upstream");
      assert "upstream " + u == "upstream" + " ";
    } else {
      L.ClassifyWithArgs("upstream", u);
      assert "upstream " + u == "upstream" + " " + u;
    }
    LeadsOne(url, Building(st, r), "upstream " + u, Building(st, r.(upstreams := r.upstreams + [u])));
  }

  lemma {:induction false} HeadersReadBack(url: UrlParser, st: State, r: Route, hs: seq<Header>)
    requires forall i :: 0 <= i < |hs| ==> PrintableHeader(hs[i])
    ensures Leads(url, Building(st, r), HeaderLines(hs), Building(st, r.(headers := r.headers + hs)))
    decreases |hs|
  {
    hide Leads, HeaderArgs;
    if hs == [] {
      assert r.(headers := r.headers + hs) == r;
      NothingLeadsNowhere(url, Building(st, r));
    } else {
      var r' := r.(headers := r.headers + [hs[0]]);
      HeaderLineReadsBack(url, st, r, hs[0]);
      HeadersReadBack(url, st, r', hs[1..]);
      assert HeaderLines(hs) == ["header " + HeaderArgs(hs[0])] + HeaderLines(hs[1..]);
      assert r'.headers + hs[1..] == r.headers + hs;
      LeadsOn(url, Building(st, r), ["header " + HeaderArgs(hs[0])], Building(st, r'), HeaderLines(hs[1..]),
              Building(st, r.(headers := r.headers + hs)));
    }
  }

  lemma {:induction false} HeaderLineReadsBack(url: UrlParser, st: State, r: Route, h: Header)
    requires PrintableHeader(h)
    ensures Leads(url, Building(st, r), ["header " + HeaderArgs(h)], Building(st, r.(headers := r.headers + [h])))
  {
    hide HeaderArgs, ParseHeader, L.Classify, L.ByWord, Leads;
    L.Keywords();
    L.Table(HeaderArgs(h));
    HeaderReadsBack(h);
    L.ClassifyWithArgs("header", HeaderArgs(h));
    assert "header " + HeaderArgs(h) == "header" + " " + HeaderArgs(h);
    LeadsOne(url, Building(st, r), "header " + HeaderArgs(h), Building(st, r.(headers := r.headers + [h])));
  }

  lemma {:induction false} MappingsReadBack(url: UrlParser, st: State, r: Route, ms: seq<ErrorMapping>)
    requires forall i :: 0 <= i < |ms| ==> PrintableMapping(ms[i])
    ensures Leads(url, Building(st, r), MappingLines(ms), Building(st, r.(errors := r.errors + ms)))
    decreases |ms|
  {
    hide Leads, MappingArgs;
    if ms == [] {
      assert r.(errors := r.errors + ms) == r;
      NothingLeadsNowhere(url, Building(st, r));
    } else {
      var r' := r.(errors := r.errors + [ms[0]]);
      MappingLineReadsBack(url, st, r, ms[0]);
      MappingsReadBack(url, st, r', ms[1..]);
      assert MappingLines(ms) == ["on_error " + MappingArgs(ms[0])] + MappingLines(ms[1..]);
      assert r'.errors + ms[1..] == r.errors + ms;
      LeadsOn(url, Building(st, r), ["on_error " + MappingArgs(ms[0])], Building(st, r'), MappingLines(ms[1..]),
              Building(st, r.(errors := r.errors + ms)));
    }
  }

  lemma {:induction false} MappingLineReadsBack(url: UrlParser, st: State, r: Route, m: ErrorMapping)
    requires PrintableMapping(m)
    ensures Leads(url, Building(st, r), ["on_error " + MappingArgs(m)], Building(st, r.(errors := r.errors + [m])))
  {
    hide MappingArgs, ParseOnError, L.Classify, L.ByWord, Leads;
    L.Keywords();
    L.Table(MappingArgs(m));
    MappingReadsBack(url, m);
    L.ClassifyWithArgs("on_error", MappingArgs(m));
    assert "on_error " + MappingArgs(m) == "on_error" + " " + MappingArgs(m);
    LeadsOne(url, Building(st, r), "on_error " + MappingArgs(m), Building(st, r.(errors := r.errors + [m])));
  }

  lemma {:induction false} SubjectReadsBack(url: UrlParser, st: State, r: Route, subject: seq<string>)
    requires r.subject == [] && (subject == [] || Words(subject))
    ensures Leads(url, Building(st, r), Only(subject != [], "subject " + Join(subject, ' ')), Building(st, r.(subject := subject)))
  {
    hide L.Classify, L.ByWord, Leads, Join, Split;
    if subject == [] {
      NothingLeadsNowhere(url, Building(st, r));
    } else {
      var args := Join(subject, ' ');
      L.Keywords();
      L.Table(args);
      L.ClassifyWithArgs("subject", args);
      SplitOfJoin(subject, ' ');
      assert r.subject + Split(args, ' ') == subject;
      assert "subject " + args == "subject" + " " + args;
      LeadsOne(url, Building(st, r), "subject " + args, Building(st, r.(subject := subject)));
    }
  }

  lemma {:induction false} ProviderReadsBack(url: UrlParser, st: State, r: Route, p: string)
    requires r.provider == "" && EmptyOrClean(p)
    ensures Leads(url, Building(st, r), Only(p != "", "provider " + p), Building(st, r.(provider := p)))
  {
    hide L.Classify, L.ByWord, Leads;
    if p == "" {
      NothingLeadsNowhere(url, Building(st, r));
    } else {
      L.Keywords();
      L.Table(p);
      L.ClassifyWithArgs("provider", p);
      assert "provider " + p == "provider" + " " + p;
      LeadsOne(url, Building(st, r), "provider " + p, Building(st, r.(provider := p)));
    }
  }

  lemma {:induction false} RedirectReadsBack(url: UrlParser, st: State, r: Route, redirect: bool)
    requires !r.redirectToPrimary && (redirect ==> |r.domains| >= 2)
    ensures Leads(url, Building(st, r), Only(redirect, "redirect-to-primary"), Building(st, r.(redirectToPrimary := redirect)))
  {
    hide L.Classify, L.ByWord, Leads;
    if !redirect {
      NothingLeadsNowhere(url, Building(st, r));
    } else {
      L.Keywords();
      L.Table("");
      L.ClassifyBare("redirect-to-primary");
      LeadsOne(url, Building(st, r), "redirect-to-primary", Building(st, r.(redirectToPrimary := true)));
    }
  }

  lemma {:induction false} FallbackReadsBack(url: UrlParser, st: State, r: Route, fallback: bool)
    requires fallback ==> st.fallback.None?
    ensures Leads(url, Building(st, r), Only(fallback, "fallback"),
                  Building(if fallback then st.(fallback := Some(|st.routes|)) else st, r))
  {
    hide L.Classify, L.ByWord, Leads;
    if !fallback {
      NothingLeadsNowhere(url, Building(st, r));
    } else {
      L.Keywords();
      L.Table("");
      L.ClassifyBare("fallback");
      LeadsOne(url, Building(st, r), "fallback", Building(st.(fallback := Some(|st.routes|)), r));
    }
  }

  lemma {:induction false} OpenReadsBack(url: UrlParser, st: State, routes: seq<Route>, domains: seq<string>)
    requires Words(domains) && Close(st) == Ok(routes)
    ensures Leads(url, st, ["route " + Join(domains, ' ')],
                  Building(State(routes, None, st.fallback), Route(domains, [], [], [], [], "", false)))
  {
    hide L.Classify, L.ByWord, Leads, Join;
    var args := Join(domains, ' ');
    L.Keywords();
    L.Table(args);
    L.ClassifyWithArgs("route", args);
    SplitOfJoin(domains, ' ');
    assert "route " + args == "route" + " " + args;
    LeadsOne(url, st, "route " + args, Building(State(routes, None, st.fallback), Route(domains, [], [], [], [], "", false)));
  }

  /** The lines of a route build exactly that route, after whatever was complete before. */
  lemma {:induction false} RouteReadsBack(url: UrlParser, st: State, routes: seq<Route>, r: Route, fallback: bool)
    requires Printable(r) && Close(st) == Ok(routes) && (fallback ==> st.fallback.None?)
    ensures Leads(url, st, PrintRoute(r, fallback),
                  State(routes, Some(r), if fallback then Some(|routes|) else st.fallback))
  {
    hide Leads, Words, Join, Building;
    var base := State(routes, None, st.fallback);
    var r0 := Route(r.domains, [], [], [], [], "", false);
    var r1 := r0.(upstreams := r.upstreams);
    var r2 := r1.(headers := r.headers);
    var r3 := r2.(errors := r.errors);
    var r4 := r3.(subject := r.subject);
    var r5 := r4.(provider := r.provider);
    var end := if fallback then base.(fallback := Some(|routes|)) else base;
    assert [] + r.upstreams == r.upstreams && [] + r.headers == r.headers && [] + r.errors == r.errors;
    var l0 := ["route " + Join(r.domains, ' ')];
    var l4 := Only(r.subject != [], "subject " + Join(r.subject, ' '));
    var l5 := Only(r.provider != "", "provider " + r.provider);
    var l6, l7 := Only(r.redirectToPrimary, "redirect-to-primary"), Only(fallback, "fallback");
    OpenReadsBack(url, st, routes, r.domains);
    UpstreamsReadBack(url, base, r0, r.upstreams);
    HeadersReadBack(url, base, r1, r.headers);
    MappingsReadBack(url, base, r2, r.errors);
    SubjectReadsBack(url, base, r3, r.subject);
    ProviderReadsBack(url, base, r4, r.provider);
    RedirectReadsBack(url, base, r5, r.redirectToPrimary);
    FallbackReadsBack(url, base, r, fallback);
    var t := l0 + UpstreamLines(r.upstreams);
    LeadsOn(url, st, l0, Building(base, r0), UpstreamLines(r.upstreams), Building(base, r1));
    LeadsOn(url, st, t, Building(base, r1), HeaderLines(r.headers), Building(base, r2));
    t := t + HeaderLines(r.headers);
    LeadsOn(url, st, t, Building(base, r2), MappingLines(r.errors), Building(base, r3));
    t := t + MappingLines(r.errors);
    LeadsOn(url, st, t, Building(base, r3), l4, Building(base, r4));
    LeadsOn(url, st, t + l4, Building(base, r4), l5, Building(base, r5));
    LeadsOn(url, st, t + l4 + l5, Building(base, r5), l6, Building(base, r));
    LeadsOn(url, st, t + l4 + l5 + l6, Building(base, r), l7, Building(end, r));
    BuildingIs(end, r);
  }

  lemma {:induction false} BuildingIs(st: State, r: Route)
    ensures Building(st, r) == State(st.routes, Some(r), st.fallback)
  {
  }

  lemma {:induction false} RoutesReadBack(url: UrlParser, c: Config, n: nat)
    requires PrintableConfig(c) && n <= |c.routes|
    ensures Leads(url, INITIAL, PrintRoutes(c, n), Reached(c, n))
    ensures Close(Reached(c, n)) == Ok(c.routes[..n])
  {
    hide Leads, PrintRoute, Printable;
    if n == 0 {
      NothingLeadsNowhere(url, INITIAL);
    } else {
      RoutesReadBack(url, c, n - 1);
      RouteReadsBack(url, Reached(c, n - 1), c.routes[..n - 1], c.routes[n - 1], c.fallback == Some(n - 1));
      LeadsOn(url, INITIAL, PrintRoutes(c, n - 1), Reached(c, n - 1),
              PrintRoute(c.routes[n - 1], c.fallback == Some(n - 1)), Reached(c, n));
      HasUpstream(c.routes[n - 1]);
      assert c.routes[..n - 1] + [c.routes[n - 1]] == c.routes[..n];
    }
  }

  lemma {:induction false} HasUpstream(r: Route)
    requires Printable(r)
    ensures r.upstreams != []
  {
  }

  lemma {:induction false} NothingLeadsNowhere(url: UrlParser, st: State)
    ensures Leads(url, st, [], st)
  {
  }

  /** The state after the first `n` routes: the last of them is still being built. */
  function Reached(c: Config, n: nat): State
    requires PrintableConfig(c) && n <= |c.routes|
  {
    if n == 0 then INITIAL
    else
      State(c.routes[..n - 1], Some(c.routes[n - 1]),
            if c.fallback.Some? && c.fallback.value < n then c.fallback else None)
  }

  /** Parsing the printed text of any printable configuration gives back that configuration. */
  lemma {:induction false} RoundTrip(url: UrlParser, c: Config)
    requires PrintableConfig(c)
    ensures Meaning(url, Print(c)) == Ok(c)
  {
    RoutesReadBack(url, c, |c.routes|);
    assert c.routes[..|c.routes|] == c.routes;
  }
}
