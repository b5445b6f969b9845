/**
 The route configuration language (config/parser.go): a loop over lines that updates the
 finished routes, the route being built and the fallback. The fallback is a pointer to a
 route in the source, and the position of that route here: the route being built is the
 one after the finished ones, and keeps changing after `fallback` has named it.
 */
module ConfigParser {
  import opened Text
  import L = ConfigLexer

  datatype HeaderOp = Delete | Add | Replace | Default

  datatype Header = Header(op: HeaderOp, name: string, value: string)

  datatype ErrorMapping = ErrorMapping(status: int, upstream: string, path: string, rawQuery: string)

  datatype Route = Route(
    domains: seq<string>,
    upstreams: seq<string>,
    subject: seq<string>,
    headers: seq<Header>,
    errors: seq<ErrorMapping>,
    provider: string,
    redirectToPrimary: bool)

  datatype Config = Config(routes: seq<Route>, fallback: Option<nat>)

  datatype Error =
    | NoDomains | NoUpstreams | NoRoute | BadHeader | BadOnError | MultipleProviders | MultipleFallbacks
    | MultipleRedirects | RedirectNeedsDomains | NoSubject | InvalidLine

  datatype Result<+T> = Ok(value: T) | Err(error: Error)

  /** url.Parse on a path: its path and raw query, if it parses. */
  type UrlParser = string -> Option<(string, string)>

  // ---- argument forms ----

  function ParseHeader(args: string): Result<Header> {
    var parts := L.SplitThree(args);
    var op := ToLower(parts[0]);
    if op == "delete" then
      if |parts| == 2 then Ok(Header(Delete, parts[1], "")) else Err(BadHeader)
    else if |parts| != 3 then Err(BadHeader)
    else if op == "add" then Ok(Header(Add, parts[1], parts[2]))
    else if op == "replace" then Ok(Header(Replace, parts[1], parts[2]))
    else if op == "default" then Ok(Header(Default, parts[1], parts[2]))
    else Err(BadHeader)
  }

  function ParseOnError(url: UrlParser, args: string): (r: Result<ErrorMapping>)
    ensures r.Ok? ==> GoodMapping(r.value)
  {
    var parts := L.Fields(args);
    if |parts| != 2 then Err(BadOnError)
    else
      var status := L.Atoi(parts[0]);
      if status.None? || status.value < 400 || status.value > 599 then Err(BadOnError)
      else
        var (host, path, _) := L.Cut(parts[1], '/');
        if host == "" || '?' in host || '#' in host then Err(BadOnError)
        else if path == "" then Ok(ErrorMapping(status.value, host, "", ""))
        else
          var target := url("/" + path);
          if target.None? || (target.value.1 == "" && '?' in path) then Err(BadOnError)
          else Ok(ErrorMapping(status.value, host, target.value.0, target.value.1))
  }

  // ---- the state machine ----

  datatype State = State(routes: seq<Route>, route: Option<Route>, fallback: Option<nat>)

  const INITIAL := State([], None, None)

  function NewRoute(args: string): Route {
    Route(Split(args, ' '), [], [], [], [], "", false)
  }

  /** Ends the route being built, which must have an upstream by now. */
  function Close(st: State): Result<seq<Route>> {
    if st.route.None? then Ok(st.routes)
    else if st.route.value.upstreams == [] then Err(NoUpstreams)
    else Ok(st.routes + [st.route.value])
  }

  function Open(st: State, args: string): Result<State> {
    if args == "" then Err(NoDomains)
    else
      match Close(st)
      case Err(e) => Err(e)
      case Ok(routes) => Ok(State(routes, Some(NewRoute(args)), st.fallback))
  }

  function WithHeader(r: Route, args: string): Result<Route> {
    match ParseHeader(args)
    case Err(e) => Err(e)
    case Ok(h) => Ok(r.(headers := r.headers + [h]))
  }

  function WithOnError(url: UrlParser, r: Route, args: string): Result<Route> {
    match ParseOnError(url, args)
    case Err(e) => Err(e)
    case Ok(m) => Ok(r.(errors := r.errors + [m]))
  }

  /** A directive that changes the route being built. */
  function Change(url: UrlParser, r: Route, d: L.Directive): Result<Route>
    requires d.Upstream? || d.Header? || d.OnError? || d.Provider? || d.RedirectToPrimary? || d.Subject?
  {
    match d
    case Upstream(args) => Ok(r.(upstreams := r.upstreams + [args]))
    case Header(args) => WithHeader(r, args)
    case OnError(args) => WithOnError(url, r, args)
    case Provider(args) => if r.provider != "" then Err(MultipleProviders) else Ok(r.(provider := args))
    case RedirectToPrimary =>
      if r.redirectToPrimary then Err(MultipleRedirects)
      else if |r.domains| < 2 then Err(RedirectNeedsDomains)
      else Ok(r.(redirectToPrimary := true))
    case Subject(args) => if args == "" then Err(NoSubject) else Ok(r.(subject := r.subject + Split(args, ' ')))
  }

  /** One line of the loop. */
  function Step(url: UrlParser, st: State, d: L.Directive): Result<State> {
    match d
    case Route(args) => Open(st, args)
    case Ignored => Ok(st)
    case Invalid => Err(InvalidLine)
    case Fallback =>
      if st.route.None? then Err(NoRoute)
      else if st.fallback.Some? then Err(MultipleFallbacks)
      else Ok(st.(fallback := Some(|st.routes|)))
    case _ =>
      if st.route.None? then Err(NoRoute)
      else
        match Change(url, st.route.value, d)
        case Err(e) => Err(e)
        case Ok(r) => Ok(st.(route := Some(r)))
  }

  function Run(url: UrlParser, st: State, ds: seq<L.Directive>): Result<State>
    decreases |ds|
  {
    if ds == [] then Ok(st)
    else
      match Step(url, st, ds[0])
      case Err(e) => Err(e)
      case Ok(st') => Run(url, st', ds[1..])
  }

  function Finish(st: Result<State>): Result<Config> {
    match st
    case Err(e) => Err(e)
    case Ok(s) =>
      match Close(s)
      case Err(e) => Err(e)
      case Ok(routes) => Ok(Config(routes, s.fallback))
  }

  function ClassifyAll(lines: seq<string>): (ds: seq<L.Directive>)
    ensures |ds| == |lines|
    ensures forall i :: 0 <= i < |lines| ==> ds[i] == L.Classify(lines[i])
  {
    seq(|lines|, i requires 0 <= i < |lines| => L.Classify(lines[i]))
  }

  /** What parsing some lines amounts to. */
  function Meaning(url: UrlParser, lines: seq<string>): Result<Config> {
    Finish(Run(url, INITIAL, ClassifyAll(lines)))
  }

  /** Parse: the loop over lines. */
  method Parse(url: UrlParser, lines: seq<string>) returns (r: Result<Config>)
    ensures r == Meaning(url, lines)
  {
    hide L.Classify, WithHeader, WithOnError;
    var routes: seq<Route> := [];
    var route: Option<Route> := None;
    var fallback: Option<nat> := None;
    ghost var ds := ClassifyAll(lines);
    for i := 0 to |lines|
      invariant Run(url, INITIAL, ds) == Run(url, State(routes, route, fallback), ds[i..])
    {
      assert ds[i..][0] == ds[i] && ds[i..][1..] == ds[i + 1..];
      match L.Classify(lines[i]) {
        case Route(args) =>
          if args == "" {
            return Err(NoDomains);
          }
          if route.Some? {
            if route.value.upstreams == [] {
              return Err(NoUpstreams);
            }
            routes := routes + [route.value];
          }
          route := Some(NewRoute(args));
        case Ignored =>
        case Invalid =>
          return Err(InvalidLine);
        case Fallback =>
          if route.None? {
            return Err(NoRoute);
          }
          if fallback.Some? {
            return Err(MultipleFallbacks);
          }
          fallback := Some(|routes|);
        case Upstream(args) =>
          if route.None? {
            return Err(NoRoute);
          }
          route := Some(route.value.(upstreams := route.value.upstreams + [args]));
        case Header(args) =>
          if route.None? {
            return Err(NoRoute);
          }
          var changed := WithHeader(route.value, args);
          if changed.Err? {
            return Err(changed.error);
          }
          route := Some(changed.value);
        case OnError(args) =>
          if route.None? {
            return Err(NoRoute);
          }
          var changed := WithOnError(url, route.value, args);
          if changed.Err? {
            return Err(changed.error);
          }
          route := Some(changed.value);
        case Provider(args) =>
          if route.None? {
            return Err(NoRoute);
          }
          if route.value.provider != "" {
            return Err(MultipleProviders);
          }
          route := Some(route.value.(provider := args));
        case RedirectToPrimary =>
          if route.None? {
            return Err(NoRoute);
          }
          if route.value.redirectToPrimary {
            return Err(MultipleRedirects);
          }
          if |route.value.domains| < 2 {
            return Err(RedirectNeedsDomains);
          }
          route := Some(route.value.(redirectToPrimary := true));
        case Subject(args) =>
          if route.None? {
            return Err(NoRoute);
          }
          if args == "" {
            return Err(NoSubject);
          }
          route := Some(route.value.(subject := route.value.subject + Split(args, ' ')));
      }
    }
    assert ds[|lines|..] == [];
    if route.Some? {
      if route.value.upstreams == [] {
        return Err(NoUpstreams);
      }
      routes := routes + [route.value];
    }
    return Ok(Config(routes, fallback));
  }

  lemma {:induction false} RunConcat(url: UrlParser, st: State, a: seq<L.Directive>, b: seq<L.Directive>)
    ensures Run(url, st, a + b) == match Run(url, st, a) case Err(e) => Err(e) case Ok(s) => Run(url, s, b)
    decreases |a|
  {
    if a == [] {
      assert a + b == b;
    } else {
      assert (a + b)[0] == a[0] && (a + b)[1..] == a[1..] + b;
      match Step(url, st, a[0])
      case Err(_) =>
      case Ok(s) => RunConcat(url, s, a[1..], b);
    }
  }

  // ---- what every accepted configuration satisfies ----

  predicate GoodMapping(m: ErrorMapping) {
    400 <= m.status <= 599 && m.upstream != "" && '/' !in m.upstream && '?' !in m.upstream && '#' !in m.upstream
  }

  predicate GoodRoute(r: Route) {
    && |r.domains| >= 1
    && (r.redirectToPrimary ==> |r.domains| >= 2)
    && (forall i :: 0 <= i < |r.errors| ==> GoodMapping(r.errors[i]))
  }

  predicate Complete(r: Route) {
    GoodRoute(r) && |r.upstreams| >= 1
  }

  predicate GoodConfig(c: Config) {
    && (forall i :: 0 <= i < |c.routes| ==> Complete(c.routes[i]))
    && (c.fallback.Some? ==> c.fallback.value < |c.routes|)
  }

  predicate GoodState(st: State) {
    && (forall i :: 0 <= i < |st.routes| ==> Complete(st.routes[i]))
    && (st.route.None? ==> st.routes == [] && st.fallback.None?)
    && (st.route.Some? ==> GoodRoute(st.route.value))
    && (st.fallback.Some? ==> st.fallback.value <= |st.routes|)
  }

  lemma {:induction false} StepKeepsGood(url: UrlParser, st: State, d: L.Directive)
    requires GoodState(st) && Step(url, st, d).Ok?
    ensures GoodState(Step(url, st, d).value)
  {
  }

  lemma {:induction false} RunKeepsGood(url: UrlParser, st: State, ds: seq<L.Directive>)
    requires GoodState(st) && Run(url, st, ds).Ok?
    ensures GoodState(Run(url, st, ds).value)
    decreases |ds|
  {
    if ds != [] {
      StepKeepsGood(url, st, ds[0]);
      RunKeepsGood(url, Step(url, st, ds[0]).value, ds[1..]);
    }
  }

  /**
   Every accepted configuration: each route has a domain and an upstream, redirects to its
   primary domain only with another one to redirect from, maps only error statuses to
   named upstreams; and the fallback is one of the routes.
   */
  lemma {:induction false} AcceptedIsGood(url: UrlParser, lines: seq<string>)
    requires Meaning(url, lines).Ok?
    ensures GoodConfig(Meaning(url, lines).value)
  {
    RunKeepsGood(url, INITIAL, ClassifyAll(lines));
  }

  // ---- parsing is a homomorphism ----

  /** The state reached on the second of two texts, when the first left `first` behind. */
  function After(first: State, routes: seq<Route>, st: State): State {
    if st.route.None? then first
    else
      State(routes + st.routes, st.route,
            if st.fallback.Some? then Some(|routes| + st.fallback.value) else first.fallback)
  }

  lemma {:induction false} StepAfter(url: UrlParser, first: State, routes: seq<Route>, st: State, d: L.Directive)
    requires Close(first) == Ok(routes) && GoodState(st) && Step(url, st, d).Ok?
    ensures var next := Step(url, After(first, routes, st), d);
      if d.Fallback? && first.fallback.Some? then next == Err(MultipleFallbacks)
      else next == Ok(After(first, routes, Step(url, st, d).value))
  {
    if d.Route? && st.route.None? {
      assert routes + [] == routes;
    } else if d.Route? {
      assert routes + st.routes + [st.route.value] == routes + (st.routes + [st.route.value]);
    }
  }

  lemma {:induction false} RunAfter(url: UrlParser, first: State, routes: seq<Route>, st: State, ds: seq<L.Directive>)
    requires Close(first) == Ok(routes) && GoodState(st) && Run(url, st, ds).Ok?
    ensures var next := Run(url, After(first, routes, st), ds); var end := Run(url, st, ds).value;
      if first.fallback.Some? && st.fallback.None? && end.fallback.Some? then next == Err(MultipleFallbacks)
      else next == Ok(After(first, routes, end))
    decreases |ds|
  {
    if ds != [] {
      StepAfter(url, first, routes, st, ds[0]);
      var st' := Step(url, st, ds[0]).value;
      StepKeepsGood(url, st, ds[0]);
      RunAfter(url, first, routes, st', ds[1..]);
      FallbackStays(url, st', ds[1..]);
    }
  }

  lemma {:induction false} FallbackStays(url: UrlParser, st: State, ds: seq<L.Directive>)
    requires Run(url, st, ds).Ok?
    ensures st.fallback.Some? ==> Run(url, st, ds).value.fallback == st.fallback
    decreases |ds|
  {
    if ds != [] {
      FallbackStays(url, Step(url, st, ds[0]).value, ds[1..]);
    }
  }

  /**
   Two accepted texts, one after the other, mean the routes of the first followed by those
   of the second, with whichever fallback there is; they are rejected exactly when both
   name a fallback.
   */
  lemma {:induction false} ConcatenationConcatenates(url: UrlParser, a: seq<string>, b: seq<string>)
    requires Meaning(url, a).Ok? && Meaning(url, b).Ok?
    ensures var x, y := Meaning(url, a).value, Meaning(url, b).value;
      Meaning(url, a + b) ==
        if x.fallback.Some? && y.fallback.Some? then Err(MultipleFallbacks)
        else Ok(Config(x.routes + y.routes,
                       if y.fallback.Some? then Some(|x.routes| + y.fallback.value) else x.fallback))
  {
    hide L.Classify, Run;
    var da, db := ClassifyAll(a), ClassifyAll(b);
    assert ClassifyAll(a + b) == da + db;
    RunConcat(url, INITIAL, da, db);
    var first, second := Run(url, INITIAL, da).value, Run(url, INITIAL, db).value;
    var routes := Close(first).value;
    RunKeepsGood(url, INITIAL, db);
    RunAfter(url, first, routes, INITIAL, db);
    FinishAfter(first, routes, second);
  }

  lemma {:induction false} FinishAfter(first: State, routes: seq<Route>, st: State)
    requires Close(first) == Ok(routes) && GoodState(st) && Close(st).Ok?
    ensures Finish(Ok(After(first, routes, st))) ==
      Ok(Config(routes + Close(st).value,
                if st.fallback.Some? then Some(|routes| + st.fallback.value) else first.fallback))
  {
    if st.route.Some? {
      assert routes + st.routes + [st.route.value] == routes + (st.routes + [st.route.value]);
    } else {
      assert routes + [] == routes;
    }
  }
}
