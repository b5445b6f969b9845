/**
 What a configuration means, without the parser's state: the lines of a route are those
 from its `route` line to the next one; each field of the route collects what those lines
 say about it; and each error is a fault of one line, judged by the lines before it.
 */
module ConfigMeaning {
  import opened Text
  import L = ConfigLexer
  import opened ConfigParser

  // ---- what the lines of one route say ----

  function Domains(ds: seq<L.Directive>): seq<string> {
    if ds != [] && ds[0].Route? then Split(ds[0].args, ' ') else []
  }

  function Upstreams(ds: seq<L.Directive>): seq<string> {
    if ds == [] then []
    else
      var d := ds[|ds| - 1];
      Upstreams(ds[..|ds| - 1]) + if d.Upstream? then [d.args] else []
  }

  function Subjects(ds: seq<L.Directive>): seq<string> {
    if ds == [] then []
    else
      var d := ds[|ds| - 1];
      Subjects(ds[..|ds| - 1]) + if d.Subject? then Split(d.args, ' ') else []
  }

  function Headers(ds: seq<L.Directive>): seq<Header> {
    if ds == [] then []
    else
      var d := ds[|ds| - 1];
      Headers(ds[..|ds| - 1]) + if d.Header? && ParseHeader(d.args).Ok? then [ParseHeader(d.args).value] else []
  }

  function Errors(url: UrlParser, ds: seq<L.Directive>): seq<ErrorMapping> {
    if ds == [] then []
    else
      var d := ds[|ds| - 1];
      Errors(url, ds[..|ds| - 1]) + if d.OnError? && ParseOnError(url, d.args).Ok? then [ParseOnError(url, d.args).value] else []
  }

  /** The argument of the last `provider` line. */
  function Provider(ds: seq<L.Directive>): string {
    if ds == [] then ""
    else
      var d := ds[|ds| - 1];
      if d.Provider? then d.args else Provider(ds[..|ds| - 1])
  }

  predicate Redirects(ds: seq<L.Directive>) {
    L.RedirectToPrimary in ds
  }

  function RouteOf(url: UrlParser, ds: seq<L.Directive>): Route {
    Route(Domains(ds), Upstreams(ds), Subjects(ds), Headers(ds), Errors(url, ds), Provider(ds), Redirects(ds))
  }

  // ---- the lines of each route ----

  /** The lines from each `route` line up to the next; lines before the first belong to no route. */
  function Segments(ds: seq<L.Directive>): (segs: seq<seq<L.Directive>>)
    ensures forall i :: 0 <= i < |segs| ==> segs[i] != [] && segs[i][0].Route?
  {
    if ds == [] then []
    else
      var d, segs := ds[|ds| - 1], Segments(ds[..|ds| - 1]);
      if d.Route? then segs + [[d]]
      else if segs == [] then []
      else segs[..|segs| - 1] + [segs[|segs| - 1] + [d]]
  }

  function Routes(url: UrlParser, segs: seq<seq<L.Directive>>): (rs: seq<Route>)
    ensures |rs| == |segs|
    ensures forall i :: 0 <= i < |segs| ==> rs[i] == RouteOf(url, segs[i])
  {
    seq(|segs|, i requires 0 <= i < |segs| => RouteOf(url, segs[i]))
  }

  /** The route whose lines the first `fallback` line is among. */
  function FallbackOf(ds: seq<L.Directive>): Option<nat> {
    if ds == [] then None
    else
      var before := FallbackOf(ds[..|ds| - 1]);
      if before.None? && ds[|ds| - 1].Fallback? && |Segments(ds)| > 0 then Some(|Segments(ds)| - 1) else before
  }

  // ---- what is wrong with a line, given the lines before it ----

  /** Lines that say something about a route need one. */
  predicate NeedsRoute(d: L.Directive) {
    !d.Route? && !d.Ignored? && !d.Invalid?
  }

  function Current(before: seq<L.Directive>): seq<L.Directive>
    requires Segments(before) != []
  {
    Segments(before)[|Segments(before)| - 1]
  }

  function Fault(url: UrlParser, before: seq<L.Directive>, d: L.Directive): Option<Error> {
    if d.Invalid? then Some(InvalidLine)
    else if d.Route? then
      if d.args == "" then Some(NoDomains)
      else if Segments(before) != [] && Upstreams(Current(before)) == [] then Some(NoUpstreams)
      else None
    else if !NeedsRoute(d) then None
    else if Segments(before) == [] then Some(NoRoute)
    else
      var seen := Current(before);
      match d
      case Header(args) => if ParseHeader(args).Err? then Some(ParseHeader(args).error) else None
      case OnError(args) => if ParseOnError(url, args).Err? then Some(ParseOnError(url, args).error) else None
      case Provider(_) => if Provider(seen) != "" then Some(MultipleProviders) else None
      case RedirectToPrimary =>
        if Redirects(seen) then Some(MultipleRedirects)
        else if |Domains(seen)| < 2 then Some(RedirectNeedsDomains)
        else None
      case Subject(args) => if args == "" then Some(NoSubject) else None
      case Fallback => if FallbackOf(before).Some? then Some(MultipleFallbacks) else None
      case _ => None
  }

  /** Line `i` is the first with a fault. */
  ghost predicate FirstFault(url: UrlParser, ds: seq<L.Directive>, i: nat, e: Error) {
    && i < |ds| && Fault(url, ds[..i], ds[i]) == Some(e)
    && forall k :: 0 <= k < i ==> Fault(url, ds[..k], ds[k]) == None
  }

  ghost predicate Faultless(url: UrlParser, ds: seq<L.Directive>) {
    forall k :: 0 <= k < |ds| ==> Fault(url, ds[..k], ds[k]) == None
  }

  // ---- the parser's state is what the lines so far say ----

  function StateOf(url: UrlParser, ds: seq<L.Directive>): State {
    var rs := Routes(url, Segments(ds));
    if rs == [] then State([], None, FallbackOf(ds)) else State(rs[..|rs| - 1], Some(rs[|rs| - 1]), FallbackOf(ds))
  }

  lemma {:induction false} RouteGrows(url: UrlParser, seg: seq<L.Directive>, d: L.Directive)
    requires seg != [] && !d.Route?
    ensures var r, r' := RouteOf(url, seg), RouteOf(url, seg + [d]);
      && r'.domains == r.domains
      && r'.upstreams == r.upstreams + (if d.Upstream? then [d.args] else [])
      && r'.subject == r.subject + (if d.Subject? then Split(d.args, ' ') else [])
      && r'.headers == r.headers + (if d.Header? && ParseHeader(d.args).Ok? then [ParseHeader(d.args).value] else [])
      && r'.errors == r.errors + (if d.OnError? && ParseOnError(url, d.args).Ok? then [ParseOnError(url, d.args).value] else [])
      && r'.provider == (if d.Provider? then d.args else r.provider)
      && r'.redirectToPrimary == (r.redirectToPrimary || d.RedirectToPrimary?)
  {
    hide Split, ParseHeader, ParseOnError;
    assert (seg + [d])[..|seg|] == seg;
  }

  lemma {:induction false} RouteBegins(url: UrlParser, d: L.Directive)
    requires d.Route?
    ensures RouteOf(url, [d]) == NewRoute(d.args)
  {
    hide Split;
    assert [d][..0] == [];
    assert Upstreams([]) == [] && Subjects([]) == [] && Headers([]) == [] && Errors(url, []) == [] && Provider([]) == "";
    assert L.RedirectToPrimary !in [d];
  }

  lemma {:induction false} SegmentsSnoc(ds: seq<L.Directive>, d: L.Directive)
    ensures var segs := Segments(ds);
      Segments(ds + [d]) ==
        if d.Route? then segs + [[d]] else if segs == [] then [] else segs[..|segs| - 1] + [segs[|segs| - 1] + [d]]
  {
    assert (ds + [d])[..|ds|] == ds;
  }

  lemma {:induction false} FallbackSnoc(ds: seq<L.Directive>, d: L.Directive)
    ensures FallbackOf(ds + [d]) ==
      if FallbackOf(ds).None? && d.Fallback? && |Segments(ds)| > 0 then Some(|Segments(ds)| - 1) else FallbackOf(ds)
  {
    assert (ds + [d])[..|ds|] == ds;
    SegmentsSnoc(ds, d);
  }

  /** A `route` line ends the route before it and begins a new one. */
  lemma {:induction false} StateAfterRoute(url: UrlParser, ds: seq<L.Directive>, d: L.Directive)
    requires d.Route?
    ensures StateOf(url, ds + [d]) == State(Routes(url, Segments(ds)), Some(NewRoute(d.args)), FallbackOf(ds))
  {
    hide RouteOf, NewRoute, Segments, FallbackOf;
    var segs := Segments(ds);
    SegmentsSnoc(ds, d);
    FallbackSnoc(ds, d);
    RouteBegins(url, d);
    var rs := Routes(url, segs + [[d]]);
    assert rs[..|rs| - 1] == Routes(url, segs);
  }

  /** Any other line changes the last route only. */
  lemma {:induction false} StateAfterOther(url: UrlParser, ds: seq<L.Directive>, d: L.Directive)
    requires !d.Route? && Segments(ds) != []
    ensures StateOf(url, ds + [d]) ==
      State(StateOf(url, ds).routes, Some(RouteOf(url, Current(ds) + [d])), FallbackOf(ds + [d]))
    ensures StateOf(url, ds).route == Some(RouteOf(url, Current(ds)))
  {
    hide RouteOf, Segments, FallbackOf;
    var segs := Segments(ds);
    SegmentsSnoc(ds, d);
    var front := segs[..|segs| - 1];
    var rs, rs' := Routes(url, segs), Routes(url, front + [Current(ds) + [d]]);
    assert rs'[..|rs'| - 1] == rs[..|rs| - 1];
  }

  lemma {:induction false} StateBeforeRoutes(url: UrlParser, ds: seq<L.Directive>, d: L.Directive)
    requires !d.Route? && Segments(ds) == []
    ensures StateOf(url, ds + [d]) == StateOf(url, ds) && StateOf(url, ds).route.None?
  {
    SegmentsSnoc(ds, d);
    FallbackSnoc(ds, d);
  }

  /** Closing the last route: it must have an upstream by then. */
  lemma {:induction false} CloseMatches(url: UrlParser, ds: seq<L.Directive>)
    ensures Close(StateOf(url, ds)) == if EndsWell(ds) then Ok(Routes(url, Segments(ds))) else Err(NoUpstreams)
  {
    hide Segments, Upstreams, FallbackOf, RouteOf;
    var segs := Segments(ds);
    var rs := Routes(url, segs);
    if segs != [] {
      LastOf(rs);
      UpstreamsOf(url, segs, |segs| - 1);
    }
  }

  lemma {:induction false} LastOf(rs: seq<Route>)
    requires rs != []
    ensures rs[..|rs| - 1] + [rs[|rs| - 1]] == rs
  {
  }

  lemma {:induction false} OpenMatches(url: UrlParser, ds: seq<L.Directive>, d: L.Directive)
    requires d.Route?
    ensures Matches(url, ds, d)
  {
    hide Segments, NewRoute, Routes, FallbackOf, Upstreams, StateOf, Close;
    StateAfterRoute(url, ds, d);
    CloseMatches(url, ds);
    StateFallback(url, ds);
  }

  lemma {:induction false} UpstreamsOf(url: UrlParser, segs: seq<seq<L.Directive>>, i: nat)
    requires i < |segs|
    ensures Routes(url, segs)[i].upstreams == Upstreams(segs[i])
  {
  }

  /** The step on a line fails with the line's fault, or leads to what the lines then say. */
  ghost predicate Matches(url: UrlParser, ds: seq<L.Directive>, d: L.Directive) {
    Step(url, StateOf(url, ds), d) ==
      match Fault(url, ds, d)
      case Some(e) => Err(e)
      case None => Ok(StateOf(url, ds + [d]))
  }

  lemma {:induction false} ChangeMatches(url: UrlParser, ds: seq<L.Directive>, d: L.Directive)
    requires !d.Route? && Segments(ds) != [] && NeedsRoute(d) && !d.Fallback?
    ensures Matches(url, ds, d)
  {
    hide Segments, Routes, FallbackOf, ParseHeader, ParseOnError, Split, StateOf;
    StateAfterOther(url, ds, d);
    FallbackSnoc(ds, d);
    RouteGrows(url, Current(ds), d);
    StateFallback(url, ds);
    hide RouteOf;
    RouteFields(url, Current(ds));
    var r, r' := RouteOf(url, Current(ds)), RouteOf(url, Current(ds) + [d]);
    assert r.upstreams + [] == r.upstreams && r.subject + [] == r.subject && r.headers + [] == r.headers && r.errors + [] == r.errors;
  }

  lemma {:induction false} RouteFields(url: UrlParser, seg: seq<L.Directive>)
    ensures var r := RouteOf(url, seg);
      r.domains == Domains(seg) && r.provider == Provider(seg) && r.redirectToPrimary == Redirects(seg)
  {
  }

  lemma {:induction false} StateFallback(url: UrlParser, ds: seq<L.Directive>)
    ensures StateOf(url, ds).fallback == FallbackOf(ds)
    ensures Segments(ds) != [] ==> |StateOf(url, ds).routes| == |Segments(ds)| - 1 && StateOf(url, ds).route.Some?
    ensures Segments(ds) == [] ==> StateOf(url, ds).route.None?
  {
  }

  lemma {:induction false} OthersMatch(url: UrlParser, ds: seq<L.Directive>, d: L.Directive)
    requires d.Invalid? || d.Ignored? || d.Fallback? || (NeedsRoute(d) && Segments(ds) == [])
    ensures Matches(url, ds, d)
  {
    hide Segments, Routes, FallbackOf, StateOf, RouteOf;
    StateFallback(url, ds);
    if Segments(ds) == [] {
      StateBeforeRoutes(url, ds, d);
    } else {
      StateAfterOther(url, ds, d);
      FallbackSnoc(ds, d);
      SameRoute(url, Current(ds), d);
    }
  }

  lemma {:induction false} SameRoute(url: UrlParser, seg: seq<L.Directive>, d: L.Directive)
    requires seg != [] && (d.Invalid? || d.Ignored? || d.Fallback?)
    ensures RouteOf(url, seg + [d]) == RouteOf(url, seg)
  {
    RouteGrows(url, seg, d);
    hide RouteOf;
    var r, r' := RouteOf(url, seg), RouteOf(url, seg + [d]);
    assert r.upstreams + [] == r.upstreams && r.subject + [] == r.subject && r.headers + [] == r.headers && r.errors + [] == r.errors;
  }

  lemma {:induction false} StepMatches(url: UrlParser, ds: seq<L.Directive>, d: L.Directive)
    ensures Matches(url, ds, d)
  {
    hide Matches;
    if d.Route? {
      OpenMatches(url, ds, d);
    } else if d.Invalid? || d.Ignored? || d.Fallback? || Segments(ds) == [] {
      OthersMatch(url, ds, d);
    } else {
      ChangeMatches(url, ds, d);
    }
  }

  // ---- runs ----

  lemma {:induction false} RunFrom(url: UrlParser, before: seq<L.Directive>, ds: seq<L.Directive>, whole: seq<L.Directive>)
    requires whole == before + ds && Faultless(url, before)
    ensures Faultless(url, whole) ==> Run(url, StateOf(url, before), ds) == Ok(StateOf(url, whole))
    ensures forall i, e :: FirstFault(url, whole, i, e) ==> Run(url, StateOf(url, before), ds) == Err(e)
    decreases |ds|
  {
    hide Step, StateOf, Fault;
    if ds == [] {
      assert whole == before;
    } else {
      var d := ds[0];
      var n := |before|;
      assert whole[..n] == before && whole[n] == d && before + [d] == whole[..n + 1];
      StepMatches(url, before, d);
      if Fault(url, before, d).None? {
        PrefixFaultless(url, before, d);
        assert whole == (before + [d]) + ds[1..];
        RunFrom(url, before + [d], ds[1..], whole);
      } else {
        OnlyFirst(url, whole, n);
      }
    }
  }

  lemma {:induction false} PrefixFaultless(url: UrlParser, before: seq<L.Directive>, d: L.Directive)
    requires Faultless(url, before) && Fault(url, before, d) == None
    ensures Faultless(url, before + [d])
  {
    hide Fault;
    forall k | 0 <= k < |before| + 1 ensures Fault(url, (before + [d])[..k], (before + [d])[k]) == None {
      if k < |before| {
        assert (before + [d])[..k] == before[..k];
      } else {
        assert (before + [d])[..k] == before;
      }
    }
  }

  lemma {:induction false} OnlyFirst(url: UrlParser, whole: seq<L.Directive>, n: nat)
    requires n < |whole| && Fault(url, whole[..n], whole[n]).Some? && Faultless(url, whole[..n])
    ensures !Faultless(url, whole)
    ensures forall i, e :: FirstFault(url, whole, i, e) ==> i == n && Fault(url, whole[..n], whole[n]) == Some(e)
  {
    hide Fault;
    assert forall k :: 0 <= k < n ==> whole[..n][..k] == whole[..k] && whole[..n][k] == whole[k];
  }

  /** Nothing is wrong at the end either: the last route has an upstream. */
  predicate EndsWell(ds: seq<L.Directive>) {
    Segments(ds) == [] || Upstreams(Current(ds)) != []
  }

  lemma {:induction false} EmptyState(url: UrlParser)
    ensures StateOf(url, []) == INITIAL && Faultless(url, [])
  {
  }

  lemma {:induction false} FinishMatches(url: UrlParser, ds: seq<L.Directive>)
    ensures Finish(Ok(StateOf(url, ds))) ==
      if EndsWell(ds) then Ok(Config(Routes(url, Segments(ds)), FallbackOf(ds))) else Err(NoUpstreams)
  {
    hide Segments, Upstreams, Routes, FallbackOf, StateOf, Close;
    CloseMatches(url, ds);
    StateFallback(url, ds);
  }

  /**
   What every text means: if no line has a fault and the last route has an upstream, one
   route for each `route` line, with the domains, upstreams, subjects, headers, mappings,
   provider and redirect that its lines give, in order, and the fallback they name; otherwise
   the error is the fault of the first line that has one.
   */
  lemma {:induction false} MeaningIs(url: UrlParser, lines: seq<string>)
    ensures var ds := ClassifyAll(lines);
      && (Faultless(url, ds) ==>
          Meaning(url, lines) == if EndsWell(ds) then Ok(Config(Routes(url, Segments(ds)), FallbackOf(ds))) else Err(NoUpstreams))
      && (forall i, e :: FirstFault(url, ds, i, e) ==> Meaning(url, lines) == Err(e))
  {
    hide Run, StateOf, L.Classify, Routes, Segments, EndsWell, FallbackOf, Fault;
    var ds := ClassifyAll(lines);
    EmptyState(url);
    assert [] + ds == ds;
    RunFrom(url, [], ds, ds);
    FinishMatches(url, ds);
  }

  /** A text is accepted exactly when no line has a fault and the last route has an upstream. */
  lemma {:induction false} AcceptedIff(url: UrlParser, lines: seq<string>)
    ensures Meaning(url, lines).Ok? <==> Faultless(url, ClassifyAll(lines)) && EndsWell(ClassifyAll(lines))
  {
    hide Meaning, EndsWell, Fault, L.Classify, Segments;
    var ds := ClassifyAll(lines);
    MeaningIs(url, lines);
    if !Faultless(url, ds) {
      var i, e := SomeFirstFault(url, ds);
    }
  }

  lemma {:induction false} SomeFirstFault(url: UrlParser, ds: seq<L.Directive>) returns (i: nat, e: Error)
    requires !Faultless(url, ds)
    ensures FirstFault(url, ds, i, e)
  {
    hide Fault;
    var k: nat :| 0 <= k < |ds| && Fault(url, ds[..k], ds[k]) != None;
    i, e := FirstFaultBy(url, ds, k);
  }

  lemma {:induction false} FirstFaultBy(url: UrlParser, ds: seq<L.Directive>, k: nat) returns (i: nat, e: Error)
    requires k < |ds| && Fault(url, ds[..k], ds[k]).Some?
    ensures FirstFault(url, ds, i, e)
  {
    hide Fault;
    if m: nat :| 0 <= m < k && Fault(url, ds[..m], ds[m]).Some? {
      i, e := FirstFaultBy(url, ds, m);
    } else {
      i, e := k, Fault(url, ds[..k], ds[k]).value;
    }
  }

  // ---- segments are stretches of the lines ----

  function Flatten(segs: seq<seq<L.Directive>>): seq<L.Directive> {
    if segs == [] then [] else Flatten(segs[..|segs| - 1]) + segs[|segs| - 1]
  }

  /** One after the other, the lines of the routes are all lines from the first `route` line on, and only the first of each is a `route` line. */
  lemma {:induction false} SegmentsCover(ds: seq<L.Directive>) returns (k: nat)
    ensures k <= |ds| && Flatten(Segments(ds)) == ds[k..]
    ensures forall i :: 0 <= i < k ==> !ds[i].Route?
    ensures forall i, j :: 0 <= i < |Segments(ds)| && 0 < j < |Segments(ds)[i]| ==> !Segments(ds)[i][j].Route?
  {
    if ds == [] {
      k := 0;
    } else {
      var front, d := ds[..|ds| - 1], ds[|ds| - 1];
      assert ds == front + [d];
      var segs := Segments(front);
      k := SegmentsCover(front);
      assert k <= |front| && ds[k..] == front[k..] + [d];
      if d.Route? {
        assert (segs + [[d]])[..|segs|] == segs;
      } else if segs == [] {
        assert front[k..] == [];
        k := |ds|;
      } else {
        var init, last := segs[..|segs| - 1], segs[|segs| - 1];
        var segs' := init + [last + [d]];
        assert segs'[..|segs'| - 1] == init;
        assert Flatten(init) + (last + [d]) == (Flatten(init) + last) + [d];
      }
    }
  }

  // ---- arguments ----

  function OpName(op: HeaderOp): string {
    match op
    case Delete => "delete"
    case Add => "add"
    case Replace => "replace"
    case Default => "default"
  }

  /** How a header rule is written, with its operation in any case. */
  ghost predicate WritesHeader(op: string, h: Header, args: string) {
    && ToLower(op) == OpName(h.op) && Free(op, ' ') && Free(h.name, ' ')
    && if h.op.Delete? then h.value == "" && args == op + [' '] + h.name
       else args == op + [' '] + (h.name + [' '] + h.value)
  }

  lemma {:induction false} OpNames(op: HeaderOp, name: string)
    requires name == OpName(op)
    ensures name == "delete" <==> op.Delete?
    ensures name == "add" <==> op.Add?
    ensures name == "replace" <==> op.Replace?
    ensures name == "default" <==> op.Default?
  {
    assert |"add"| == 3 && |"delete"| == 6 && |"replace"| == 7 && |"default"| == 7 && "replace"[0] != "default"[0];
  }

  /** Exactly the written header rules are accepted, each as what it says. */
  lemma {:induction false} HeaderIff(args: string, h: Header)
    ensures ParseHeader(args) == Ok(h) <==> exists op :: WritesHeader(op, h, args)
  {
    hide ToLower, L.Cut;
    OpNames(h.op, OpName(h.op));
    if op :| WritesHeader(op, h, args) {
      if h.op.Delete? {
        L.CutFirst(op, ' ', h.name);
        L.CutNone(h.name, ' ');
      } else {
        L.CutFirst(op, ' ', h.name + [' '] + h.value);
        L.CutFirst(h.name, ' ', h.value);
      }
    }
    if ParseHeader(args) == Ok(h) {
      var (a, rest, more) := L.Cut(args, ' ');
      var (b, c, yet) := L.Cut(rest, ' ');
      assert WritesHeader(a, h, args);
    }
  }

  /** The place an error is fetched from: an upstream, and perhaps a path that the URL parser understands. */
  ghost predicate WritesPlace(url: UrlParser, place: string, m: ErrorMapping) {
    || ((place == m.upstream || place == m.upstream + ['/']) && m.path == "" && m.rawQuery == "")
    || exists target :: WritesTarget(url, place, m, target)
  }

  ghost predicate WritesTarget(url: UrlParser, place: string, m: ErrorMapping, target: string) {
    && target != "" && place == m.upstream + ['/'] + target
    && url("/" + target) == Some((m.path, m.rawQuery)) && ('?' in target ==> m.rawQuery != "")
  }

  lemma {:induction false} PlaceIff(url: UrlParser, place: string, m: ErrorMapping)
    requires '/' !in m.upstream
    ensures var (host, path, _) := L.Cut(place, '/');
      WritesPlace(url, place, m) <==>
        && host == m.upstream
        && if path == "" then m.path == "" && m.rawQuery == ""
           else url("/" + path) == Some((m.path, m.rawQuery)) && ('?' in path ==> m.rawQuery != "")
  {
    hide L.Cut;
    var (host, path, more) := L.Cut(place, '/');
    if WritesPlace(url, place, m) {
      if place == m.upstream {
        L.CutNone(m.upstream, '/');
      } else if target :| WritesTarget(url, place, m, target) {
        L.CutFirst(m.upstream, '/', target);
      } else {
        L.CutFirst(m.upstream, '/', "");
        assert place == m.upstream + ['/'] + "";
      }
    }
    if host == m.upstream && path != "" && url("/" + path) == Some((m.path, m.rawQuery)) && ('?' in path ==> m.rawQuery != "") {
      assert WritesTarget(url, place, m, path);
    }
  }

  /** Exactly the written error mappings are accepted: an error status, and a place with a named upstream. */
  lemma {:induction false} OnErrorIff(url: UrlParser, args: string, m: ErrorMapping)
    ensures ParseOnError(url, args) == Ok(m) <==>
      && |L.Fields(args)| == 2 && L.Atoi(L.Fields(args)[0]) == Some(m.status) && 400 <= m.status <= 599
      && m.upstream != "" && '/' !in m.upstream && '?' !in m.upstream && '#' !in m.upstream
      && WritesPlace(url, L.Fields(args)[1], m)
  {
    hide L.Fields, L.Atoi, L.Cut, WritesPlace;
    if |L.Fields(args)| == 2 && '/' !in m.upstream {
      PlaceIff(url, L.Fields(args)[1], m);
    }
  }
}
