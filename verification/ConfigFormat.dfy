/**
 How much the printer of ConfigPrinter covers: everything the parser accepts, as far as
 no error mapping has a path. So any accepted text can be parsed, printed and parsed
 again without loss.
 */
module ConfigFormat {
  import opened Text
  import L = ConfigLexer
  import opened ConfigParser
  import opened ConfigPrinter
  import D = Delivery

  // ---- what the parts of a line look like ----

  predicate CleanArgs(d: L.Directive) {
    match d
    case Route(args) => EmptyOrClean(args)
    case Upstream(args) => EmptyOrClean(args)
    case Header(args) => EmptyOrClean(args)
    case OnError(args) => EmptyOrClean(args)
    case Provider(args) => EmptyOrClean(args)
    case Subject(args) => EmptyOrClean(args)
    case _ => true
  }

  /** Trimming leaves no white space at the end of the arguments. */
  lemma {:induction false} ClassifiedIsClean(line: string)
    ensures CleanArgs(L.Classify(line))
  {
    var l := L.TrimSpace(line);
    var (word, args, more) := L.Cut(l, ' ');
    ArgsAreClean(l);
    ByWordIsClean(ToLower(word), args, l == "");
  }

  lemma {:induction false} ArgsAreClean(l: string)
    requires EmptyOrClean(l)
    ensures EmptyOrClean(L.Cut(l, ' ').1)
  {
    var (word, args, more) := L.Cut(l, ' ');
    if args != "" {
      assert l == word + [' '] + args;
      assert l[|l| - 1] == args[|args| - 1];
    }
  }

  lemma {:induction false} ByWordIsClean(word: string, args: string, blank: bool)
    requires EmptyOrClean(args)
    ensures CleanArgs(L.ByWord(word, args, blank))
  {
    hide EmptyOrClean;
  }

  /** The words of clean arguments, joined again, are those arguments. */
  lemma {:induction false} SplitIsWords(args: string)
    requires L.Clean(args)
    ensures Words(Split(args, ' '))
  {
    JoinOfSplit(args, ' ');
  }

  lemma {:induction false} MoreWords(xs: seq<string>, ys: seq<string>)
    requires (xs == [] || Words(xs)) && Words(ys)
    ensures Words(xs + ys)
  {
    hide Join;
    if xs == [] {
      assert xs + ys == ys;
    } else {
      JoinConcat(xs, ys, ' ');
      var a, b := Join(xs, ' '), Join(ys, ' ');
      assert (a + [' '] + b)[|a| + |b|] == b[|b| - 1];
    }
  }

  lemma {:induction false} HeaderIsPrintable(args: string)
    requires EmptyOrClean(args) && ParseHeader(args).Ok?
    ensures PrintableHeader(ParseHeader(args).value)
  {
    hide ToLower, L.Cut;
    var (a, rest, more) := L.Cut(args, ' ');
    ArgsAreClean(args);
    if more {
      assert args == a + [' '] + rest && args[|args| - 1] == if rest == "" then ' ' else rest[|rest| - 1];
      var (b, c, yet) := L.Cut(rest, ' ');
      ArgsAreClean(rest);
      if yet {
        assert rest == b + [' '] + c && rest[|rest| - 1] == if c == "" then ' ' else c[|c| - 1];
      }
    }
  }

  lemma {:induction false} FieldsHaveNoSpace(s: string, i: nat)
    requires i < |L.Fields(s)|
    ensures L.NoSpace(L.Fields(s)[i])
    decreases |s|
  {
    if L.IsSpace(s[0]) {
      FieldsHaveNoSpace(s[1..], i);
    } else if i > 0 {
      FieldsHaveNoSpace(s[L.WordLength(s)..], i - 1);
    }
  }

  lemma {:induction false} UpstreamHasNoSpace(url: UrlParser, args: string)
    requires ParseOnError(url, args).Ok?
    ensures L.NoSpace(ParseOnError(url, args).value.upstream)
  {
    hide L.Fields, L.Atoi;
    var parts := L.Fields(args);
    FieldsHaveNoSpace(args, 1);
    var (host, path, more) := L.Cut(parts[1], '/');
    assert forall k :: 0 <= k < |host| ==> host[k] == parts[1][k];
  }

  // ---- what the parser builds ----

  predicate WrittenMapping(m: ErrorMapping) {
    GoodMapping(m) && L.NoSpace(m.upstream)
  }

  /** A route as it can be written down, perhaps without upstreams yet. */
  predicate Written(r: Route) {
    && Words(r.domains)
    && (forall i :: 0 <= i < |r.upstreams| ==> EmptyOrClean(r.upstreams[i]))
    && (r.subject == [] || Words(r.subject))
    && (forall i :: 0 <= i < |r.headers| ==> PrintableHeader(r.headers[i]))
    && (forall i :: 0 <= i < |r.errors| ==> WrittenMapping(r.errors[i]))
    && EmptyOrClean(r.provider)
    && (r.redirectToPrimary ==> |r.domains| >= 2)
  }

  predicate WrittenState(st: State) {
    && (forall i :: 0 <= i < |st.routes| ==> Written(st.routes[i]))
    && (st.route.Some? ==> Written(st.route.value))
  }

  lemma {:induction false} ChangeKeepsWritten(url: UrlParser, r: Route, d: L.Directive)
    requires Written(r) && CleanArgs(d)
    requires d.Upstream? || d.Header? || d.OnError? || d.Provider? || d.RedirectToPrimary? || d.Subject?
    requires Change(url, r, d).Ok?
    ensures Written(Change(url, r, d).value)
  {
    hide Words, EmptyOrClean, PrintableHeader, WrittenMapping, ParseHeader, ParseOnError, Split;
    match d
    case Upstream(args) =>
    case Header(args) => HeaderIsPrintable(args);
    case OnError(args) => MappingIsWritten(url, args);
    case Provider(args) =>
    case RedirectToPrimary =>
    case Subject(args) => SubjectIsWords(r.subject, args);
  }

  lemma {:induction false} MappingIsWritten(url: UrlParser, args: string)
    requires ParseOnError(url, args).Ok?
    ensures WrittenMapping(ParseOnError(url, args).value)
  {
    UpstreamHasNoSpace(url, args);
  }

  lemma {:induction false} SubjectIsWords(subject: seq<string>, args: string)
    requires (subject == [] || Words(subject)) && EmptyOrClean(args) && args != ""
    ensures Words(subject + Split(args, ' '))
  {
    SplitIsWords(args);
    MoreWords(subject, Split(args, ' '));
  }

  lemma {:induction false} NewRouteIsWritten(args: string)
    requires EmptyOrClean(args) && args != ""
    ensures Written(NewRoute(args))
  {
    SplitIsWords(args);
  }

  lemma {:induction false} StepKeepsWritten(url: UrlParser, st: State, d: L.Directive)
    requires WrittenState(st) && CleanArgs(d) && Step(url, st, d).Ok?
    ensures WrittenState(Step(url, st, d).value)
  {
    hide Written, Change, NewRoute;
    if d.Route? {
      NewRouteIsWritten(d.args);
    } else if !d.Ignored? && !d.Invalid? && !d.Fallback? {
      ChangeKeepsWritten(url, st.route.value, d);
    }
  }

  lemma {:induction false} RunKeepsWritten(url: UrlParser, st: State, ds: seq<L.Directive>)
    requires WrittenState(st) && (forall i :: 0 <= i < |ds| ==> CleanArgs(ds[i])) && Run(url, st, ds).Ok?
    ensures WrittenState(Run(url, st, ds).value)
    decreases |ds|
  {
    hide WrittenState, Step, CleanArgs;
    if ds != [] {
      StepKeepsWritten(url, st, ds[0]);
      RunKeepsWritten(url, Step(url, st, ds[0]).value, ds[1..]);
    }
  }

  // ---- the theorem ----

  predicate PathFreeRoute(r: Route) {
    forall i :: 0 <= i < |r.errors| ==> r.errors[i].path == "" && r.errors[i].rawQuery == ""
  }

  predicate PathFree(c: Config) {
    forall i :: 0 <= i < |c.routes| ==> PathFreeRoute(c.routes[i])
  }

  lemma {:induction false} WrittenIsPrintable(r: Route)
    requires Written(r) && |r.upstreams| >= 1 && PathFreeRoute(r)
    ensures Printable(r)
  {
    hide Words, EmptyOrClean, PrintableHeader;
    forall i | 0 <= i < |r.errors| ensures PrintableMapping(r.errors[i]) {
      assert WrittenMapping(r.errors[i]);
    }
  }

  lemma {:induction false} PrintableIsPathFree(r: Route)
    requires Printable(r)
    ensures PathFreeRoute(r)
  {
    forall i | 0 <= i < |r.errors| ensures r.errors[i].path == "" && r.errors[i].rawQuery == "" {
      assert PrintableMapping(r.errors[i]);
    }
  }

  /** Every accepted configuration without paths is printable, and so printing and parsing it again returns it. */
  lemma {:induction false} AcceptedIsPrintable(url: UrlParser, lines: seq<string>)
    requires Meaning(url, lines).Ok? && PathFree(Meaning(url, lines).value)
    ensures var c := Meaning(url, lines).value;
      PrintableConfig(c) && Meaning(url, Print(c)) == Ok(c)
  {
    hide L.Classify, Run, Written, Printable, CleanArgs, PathFreeRoute;
    var ds, c := ClassifyAll(lines), Meaning(url, lines).value;
    forall i | 0 <= i < |ds| ensures CleanArgs(ds[i]) {
      ClassifiedIsClean(lines[i]);
    }
    RunKeepsWritten(url, INITIAL, ds);
    AcceptedIsGood(url, lines);
    forall i | 0 <= i < |c.routes| ensures Printable(c.routes[i]) {
      assert Complete(c.routes[i]);
      WrittenIsPrintable(c.routes[i]);
    }
    RoundTrip(url, c);
  }

  /** The printable configurations are exactly the ones some lines mean and that have no paths; the lines may contain newlines here. */
  lemma {:induction false} PrintableIff(url: UrlParser, c: Config)
    ensures PrintableConfig(c) <==> PathFree(c) && exists lines :: Meaning(url, lines) == Ok(c)
  {
    hide Meaning, Printable, PathFreeRoute, Print;
    if PrintableConfig(c) {
      RoundTrip(url, c);
      forall i | 0 <= i < |c.routes| ensures PathFreeRoute(c.routes[i]) {
        PrintableIsPathFree(c.routes[i]);
      }
    } else if PathFree(c) && exists lines :: Meaning(url, lines) == Ok(c) {
      var lines :| Meaning(url, lines) == Ok(c);
      AcceptedIsPrintable(url, lines);
    }
  }

  // ---- text ----

  const NL := '\n'

  predicate FreeArgs(d: L.Directive) {
    match d
    case Route(args) => Free(args, NL)
    case Upstream(args) => Free(args, NL)
    case Header(args) => Free(args, NL)
    case OnError(args) => Free(args, NL)
    case Provider(args) => Free(args, NL)
    case Subject(args) => Free(args, NL)
    case _ => true
  }

  lemma {:induction false} TrimLeftFree(s: string)
    requires Free(s, NL)
    ensures Free(L.TrimLeft(s), NL)
  {
    if s != "" && L.IsSpace(s[0]) {
      TrimLeftFree(s[1..]);
    }
  }

  lemma {:induction false} TrimRightFree(s: string)
    requires Free(s, NL)
    ensures Free(L.TrimRight(s), NL)
  {
    if s != "" && L.IsSpace(s[|s| - 1]) {
      TrimRightFree(s[..|s| - 1]);
    }
  }

  lemma {:induction false} CutFree(s: string, c: char)
    requires Free(s, NL)
    ensures Free(L.Cut(s, c).0, NL) && Free(L.Cut(s, c).1, NL)
  {
  }

  lemma {:induction false} ClassifiedIsFree(line: string)
    requires Free(line, NL)
    ensures FreeArgs(L.Classify(line))
  {
    hide L.ByWord, L.Cut, L.TrimLeft, L.TrimRight;
    TrimLeftFree(line);
    TrimRightFree(L.TrimLeft(line));
    var l := L.TrimSpace(line);
    CutFree(l, ' ');
    ByWordIsFree(ToLower(L.Cut(l, ' ').0), L.Cut(l, ' ').1, l == "");
  }

  lemma {:induction false} ByWordIsFree(word: string, args: string, blank: bool)
    requires Free(args, NL)
    ensures FreeArgs(L.ByWord(word, args, blank))
  {
    hide Free;
  }

  lemma {:induction false} SplitFree(s: string, c: char)
    requires Free(s, NL)
    ensures AllFree(Split(s, c), NL)
  {
    if s != [] {
      SplitFree(s[..|s| - 1], c);
    }
  }

  lemma {:induction false} HeaderIsFree(args: string)
    requires Free(args, NL) && ParseHeader(args).Ok?
    ensures var h := ParseHeader(args).value; Free(h.name, NL) && Free(h.value, NL)
  {
    hide ToLower, L.Cut;
    CutFree(args, ' ');
    CutFree(L.Cut(args, ' ').1, ' ');
  }

  lemma {:induction false} FieldsFree(s: string, i: nat)
    requires Free(s, NL) && i < |L.Fields(s)|
    ensures Free(L.Fields(s)[i], NL)
    decreases |s|
  {
    if L.IsSpace(s[0]) {
      FieldsFree(s[1..], i);
    } else if i > 0 {
      FieldsFree(s[L.WordLength(s)..], i - 1);
    }
  }

  lemma {:induction false} UpstreamIsFree(url: UrlParser, args: string)
    requires Free(args, NL) && ParseOnError(url, args).Ok?
    ensures Free(ParseOnError(url, args).value.upstream, NL)
  {
    hide L.Fields, L.Atoi, L.Cut;
    FieldsFree(args, 1);
    CutFree(L.Fields(args)[1], '/');
  }

  predicate FreeHeader(h: Header) {
    Free(h.name, NL) && Free(h.value, NL)
  }

  /** A route without newlines in what gets printed. */
  predicate FreeRoute(r: Route) {
    && AllFree(r.domains, NL) && AllFree(r.upstreams, NL) && AllFree(r.subject, NL) && Free(r.provider, NL)
    && (forall i :: 0 <= i < |r.headers| ==> FreeHeader(r.headers[i]))
    && (forall i :: 0 <= i < |r.errors| ==> Free(r.errors[i].upstream, NL))
  }

  predicate FreeState(st: State) {
    && (forall i :: 0 <= i < |st.routes| ==> FreeRoute(st.routes[i]))
    && (st.route.Some? ==> FreeRoute(st.route.value))
  }

  lemma {:induction false} ChangeKeepsFree(url: UrlParser, r: Route, d: L.Directive)
    requires FreeRoute(r) && FreeArgs(d)
    requires d.Upstream? || d.Header? || d.OnError? || d.Provider? || d.RedirectToPrimary? || d.Subject?
    requires Change(url, r, d).Ok?
    ensures FreeRoute(Change(url, r, d).value)
  {
    hide Free, ParseHeader, ParseOnError, Split;
    match d
    case Upstream(args) =>
    case Header(args) => HeaderIsFree(args);
    case OnError(args) => UpstreamIsFree(url, args);
    case Provider(args) =>
    case RedirectToPrimary =>
    case Subject(args) => SplitFree(args, ' ');
  }

  lemma {:induction false} NewRouteIsFree(args: string)
    requires Free(args, NL)
    ensures FreeRoute(NewRoute(args))
  {
    SplitFree(args, ' ');
  }

  lemma {:induction false} StepKeepsFree(url: UrlParser, st: State, d: L.Directive)
    requires FreeState(st) && FreeArgs(d) && Step(url, st, d).Ok?
    ensures FreeState(Step(url, st, d).value)
  {
    hide FreeRoute, Change, NewRoute;
    if d.Route? {
      NewRouteIsFree(d.args);
    } else if !d.Ignored? && !d.Invalid? && !d.Fallback? {
      ChangeKeepsFree(url, st.route.value, d);
    }
  }

  lemma {:induction false} RunKeepsFree(url: UrlParser, st: State, ds: seq<L.Directive>)
    requires FreeState(st) && (forall i :: 0 <= i < |ds| ==> FreeArgs(ds[i])) && Run(url, st, ds).Ok?
    ensures FreeState(Run(url, st, ds).value)
    decreases |ds|
  {
    hide FreeState, Step, FreeArgs;
    if ds != [] {
      StepKeepsFree(url, st, ds[0]);
      RunKeepsFree(url, Step(url, st, ds[0]).value, ds[1..]);
    }
  }

  lemma {:induction false} LinesAreFree(text: string)
    ensures AllFree(D.Lines(text), NL)
  {
    var pieces := Split(text, NL);
    forall i | 0 <= i < |D.Lines(text)| ensures Free(D.Lines(text)[i], NL) {
      assert Free(pieces[i], NL);
    }
  }

  /** What a text means holds no newline. */
  lemma {:induction false} MeantByTextIsFree(url: UrlParser, text: string)
    requires Meaning(url, D.Lines(text)).Ok?
    ensures forall i :: 0 <= i < |Meaning(url, D.Lines(text)).value.routes| ==> FreeRoute(Meaning(url, D.Lines(text)).value.routes[i])
  {
    hide L.Classify, Run, FreeRoute, FreeArgs, D.Lines;
    var lines := D.Lines(text);
    var ds := ClassifyAll(lines);
    LinesAreFree(text);
    forall i | 0 <= i < |ds| ensures FreeArgs(ds[i]) {
      ClassifiedIsFree(lines[i]);
    }
    RunKeepsFree(url, INITIAL, ds);
  }

  // ---- printed lines stay single lines ----

  lemma {:induction false} JoinFree(xs: seq<string>)
    requires AllFree(xs, NL)
    ensures Free(Join(xs, ' '), NL)
  {
    if |xs| > 1 {
      JoinFree(xs[..|xs| - 1]);
    }
  }

  /** A word and clean or no arguments after it make a single line. */
  lemma {:induction false} DirectiveIsOneLine(word: string, args: string)
    requires L.Keyword(word) && Free(args, NL) && EmptyOrClean(args)
    ensures D.OneLine(word + " " + args)
  {
    var l := word + " " + args;
    forall k | 0 <= k < |l| ensures l[k] != NL {
      if k < |word| {
        assert l[k] == word[k] && !L.IsSpace(word[k]);
      } else if k > |word| {
        assert l[k] == args[k - |word| - 1];
      }
    }
    assert l[|l| - 1] == if args == "" then ' ' else args[|args| - 1];
  }

  lemma {:induction false} WordIsOneLine(word: string)
    requires L.Keyword(word)
    ensures D.OneLine(word)
  {
    assert forall k :: 0 <= k < |word| ==> word[k] != NL;
  }

  lemma {:induction false} HeaderArgsFree(h: Header)
    requires FreeHeader(h)
    ensures Free(HeaderArgs(h), NL)
  {
    assert Free("delete ", NL) && Free("add ", NL) && Free("replace ", NL) && Free("default ", NL) && Free(" ", NL);
  }

  lemma {:induction false} MappingArgsFree(m: ErrorMapping)
    requires PrintableMapping(m) && Free(m.upstream, NL)
    ensures Free(MappingArgs(m), NL)
  {
    assert Free(L.ThreeDigits(m.status), NL) && Free(" ", NL);
  }

  lemma {:induction false} UpstreamsAreOneLine(us: seq<string>)
    requires AllFree(us, NL) && forall i :: 0 <= i < |us| ==> EmptyOrClean(us[i])
    ensures D.AllOneLine(UpstreamLines(us))
  {
    hide EmptyOrClean, Free, D.OneLine;
    L.Keywords();
    forall i | 0 <= i < |us| ensures D.OneLine(UpstreamLines(us)[i]) {
      DirectiveIsOneLine("upstream", us[i]);
      assert "upstream " + us[i] == "upstream" + " " + us[i];
    }
  }

  lemma {:induction false} HeaderIsOneLine(h: Header)
    requires PrintableHeader(h) && FreeHeader(h)
    ensures D.OneLine("header " + HeaderArgs(h))
  {
    hide HeaderArgs, D.OneLine;
    L.Keywords();
    HeaderReadsBack(h);
    HeaderArgsFree(h);
    DirectiveIsOneLine("header", HeaderArgs(h));
    assert "header " + HeaderArgs(h) == "header" + " " + HeaderArgs(h);
  }

  lemma {:induction false} HeadersAreOneLine(hs: seq<Header>)
    requires forall i :: 0 <= i < |hs| ==> PrintableHeader(hs[i])
    requires forall i :: 0 <= i < |hs| ==> FreeHeader(hs[i])
    ensures D.AllOneLine(HeaderLines(hs))
  {
    hide PrintableHeader, FreeHeader, HeaderArgs, D.OneLine;
    forall i | 0 <= i < |hs| ensures D.OneLine(HeaderLines(hs)[i]) {
      HeaderIsOneLine(hs[i]);
    }
  }

  lemma {:induction false} MappingIsOneLine(url: UrlParser, m: ErrorMapping)
    requires PrintableMapping(m) && Free(m.upstream, NL)
    ensures D.OneLine("on_error " + MappingArgs(m))
  {
    hide MappingArgs, D.OneLine;
    L.Keywords();
    MappingReadsBack(url, m);
    MappingArgsFree(m);
    DirectiveIsOneLine("on_error", MappingArgs(m));
    assert "on_error " + MappingArgs(m) == "on_error" + " " + MappingArgs(m);
  }

  lemma {:induction false} MappingsAreOneLine(url: UrlParser, ms: seq<ErrorMapping>)
    requires forall i :: 0 <= i < |ms| ==> PrintableMapping(ms[i])
    requires forall i :: 0 <= i < |ms| ==> Free(ms[i].upstream, NL)
    ensures D.AllOneLine(MappingLines(ms))
  {
    hide PrintableMapping, MappingArgs, Free, D.OneLine;
    forall i | 0 <= i < |ms| ensures D.OneLine(MappingLines(ms)[i]) {
      MappingIsOneLine(url, ms[i]);
    }
  }

  lemma {:induction false} OneLineConcat(a: seq<string>, b: seq<string>)
    requires D.AllOneLine(a) && D.AllOneLine(b)
    ensures D.AllOneLine(a + b)
  {
    hide D.OneLine;
  }

  lemma {:induction false} WordsAreOneLine(word: string, xs: seq<string>)
    requires L.Keyword(word) && Words(xs) && AllFree(xs, NL)
    ensures D.OneLine(word + " " + Join(xs, ' '))
  {
    JoinFree(xs);
    DirectiveIsOneLine(word, Join(xs, ' '));
  }

  /** The lines after those for upstreams, headers and error mappings. */
  lemma {:induction false} RestIsOneLine(r: Route, fallback: bool)
    requires (r.subject == [] || Words(r.subject)) && EmptyOrClean(r.provider) && AllFree(r.subject, NL) && Free(r.provider, NL)
    ensures D.AllOneLine(Only(r.subject != [], "subject " + Join(r.subject, ' ')))
    ensures D.AllOneLine(Only(r.provider != "", "provider " + r.provider))
    ensures D.AllOneLine(Only(r.redirectToPrimary, "redirect-to-primary"))
    ensures D.AllOneLine(Only(fallback, "fallback"))
  {
    hide Words, EmptyOrClean, Free, D.OneLine, Join;
    L.Keywords();
    if r.subject != [] {
      WordsAreOneLine("subject", r.subject);
      assert "subject " + Join(r.subject, ' ') == "subject" + " " + Join(r.subject, ' ');
    }
    DirectiveIsOneLine("provider", r.provider);
    assert "provider " + r.provider == "provider" + " " + r.provider;
    WordIsOneLine("redirect-to-primary");
    WordIsOneLine("fallback");
  }

  lemma {:induction false} RouteIsOneLine(url: UrlParser, r: Route, fallback: bool)
    requires Printable(r) && FreeRoute(r)
    ensures D.AllOneLine(PrintRoute(r, fallback))
  {
    hide Words, EmptyOrClean, Free, PrintableHeader, PrintableMapping, FreeHeader, D.AllOneLine, Join;
    var l0 := ["route " + Join(r.domains, ' ')];
    L.Keywords();
    WordsAreOneLine("route", r.domains);
    assert "route " + Join(r.domains, ' ') == "route" + " " + Join(r.domains, ' ');
    SingleLine("route " + Join(r.domains, ' '));
    UpstreamsAreOneLine(r.upstreams);
    HeadersAreOneLine(r.headers);
    MappingsAreOneLine(url, r.errors);
    RestIsOneLine(r, fallback);
    var l4 := Only(r.subject != [], "subject " + Join(r.subject, ' '));
    var l5 := Only(r.provider != "", "provider " + r.provider);
    var l6, l7 := Only(r.redirectToPrimary, "redirect-to-primary"), Only(fallback, "fallback");
    OneLineConcat(l0, UpstreamLines(r.upstreams));
    var t := l0 + UpstreamLines(r.upstreams);
    OneLineConcat(t, HeaderLines(r.headers));
    t := t + HeaderLines(r.headers);
    OneLineConcat(t, MappingLines(r.errors));
    t := t + MappingLines(r.errors);
    OneLineConcat(t, l4);
    OneLineConcat(t + l4, l5);
    OneLineConcat(t + l4 + l5, l6);
    OneLineConcat(t + l4 + l5 + l6, l7);
  }

  lemma {:induction false} SingleLine(line: string)
    requires D.OneLine(line)
    ensures D.AllOneLine([line])
  {
  }

  lemma {:induction false} RoutesAreOneLine(url: UrlParser, c: Config, n: nat)
    requires PrintableConfig(c) && n <= |c.routes| && forall i :: 0 <= i < |c.routes| ==> FreeRoute(c.routes[i])
    ensures D.AllOneLine(PrintRoutes(c, n))
  {
    hide Printable, FreeRoute, PrintRoute, D.OneLine;
    if n > 0 {
      RoutesAreOneLine(url, c, n - 1);
      RouteIsOneLine(url, c.routes[n - 1], c.fallback == Some(n - 1));
      OneLineConcat(PrintRoutes(c, n - 1), PrintRoute(c.routes[n - 1], c.fallback == Some(n - 1)));
    }
  }

  /** The configurations that print to text are exactly the ones some text means and that have no paths. */
  lemma {:induction false} PrintableAsTextIff(url: UrlParser, c: Config)
    ensures PrintableConfig(c) && D.AllOneLine(Print(c)) <==> PathFree(c) && exists text :: Meaning(url, D.Lines(text)) == Ok(c)
  {
    hide Meaning, Printable, PathFreeRoute, FreeRoute, PrintRoutes, D.OneLine, D.Lines;
    if PrintableConfig(c) && D.AllOneLine(Print(c)) {
      PrintableIff(url, c);
      RoundTrip(url, c);
      D.LinesOfUnlines(Print(c));
      assert Meaning(url, D.Lines(D.Unlines(Print(c)))) == Ok(c);
    }
    if PathFree(c) && exists text :: Meaning(url, D.Lines(text)) == Ok(c) {
      var text :| Meaning(url, D.Lines(text)) == Ok(c);
      AcceptedIsPrintable(url, D.Lines(text));
      MeantByTextIsFree(url, text);
      RoutesAreOneLine(url, c, |c.routes|);
    }
  }
}
