/**
 Config delivery from end to end (config/source_network.go): a server frames the text of
 configurations, the client unframes, splits into lines, parses and installs them, until
 the first error on the connection.
 */
module Delivery {
  import opened Text
  import opened ConfigParser
  import opened ConfigPrinter
  import F = Frames
  import R = Routing

  // ---- text and lines ----

  function Chomp(l: string): string {
    if l != "" && l[|l| - 1] == '\r' then l[..|l| - 1] else l
  }

  /** bufio.Scanner with ScanLines: lines end at newlines, a final unterminated line counts unless it is empty. */
  function Lines(text: string): seq<string> {
    var pieces := Split(text, '\n');
    var n := if pieces[|pieces| - 1] == "" then |pieces| - 1 else |pieces|;
    seq(n, i requires 0 <= i < n => Chomp(pieces[i]))
  }

  function Unlines(lines: seq<string>): string {
    if lines == [] then "" else Unlines(lines[..|lines| - 1]) + lines[|lines| - 1] + "\n"
  }

  /** A line that stays one line: no newline inside, and no carriage return that reading would drop. */
  predicate OneLine(l: string) {
    Free(l, '\n') && (l == "" || l[|l| - 1] != '\r')
  }

  predicate AllOneLine(lines: seq<string>) {
    forall i :: 0 <= i < |lines| ==> OneLine(lines[i])
  }

  lemma {:induction false} UnlinesSplit(lines: seq<string>)
    requires AllOneLine(lines)
    ensures Split(Unlines(lines), '\n') == lines + [""]
  {
    if lines != [] {
      var front, last := lines[..|lines| - 1], lines[|lines| - 1];
      var u := Unlines(front);
      UnlinesSplit(front);
      SplitExtend(u, front, last);
      assert u + last + "\n" == (u + last) + ['\n'] + "";
      SplitLast(u + last, '\n', "");
      assert front + [last] == lines;
    }
  }

  /** Newline-free text goes onto the last, empty piece. */
  lemma {:induction false} SplitExtend(u: string, front: seq<string>, last: string)
    requires Free(last, '\n') && Split(u, '\n') == front + [""]
    ensures Split(u + last, '\n') == front + [last]
  {
    if last == "" {
      assert u + last == u;
    } else {
      var l, c := last[..|last| - 1], last[|last| - 1];
      SplitExtend(u, front, l);
      assert (u + last)[..|u + last| - 1] == u + l;
      assert l + [c] == last;
    }
  }

  lemma {:induction false} LinesOfUnlines(lines: seq<string>)
    requires AllOneLine(lines)
    ensures Lines(Unlines(lines)) == lines
  {
    UnlinesSplit(lines);
  }

  lemma {:induction false} LinesOfUnfinished(lines: seq<string>, last: string)
    requires AllOneLine(lines) && OneLine(last) && last != ""
    ensures Lines(Unlines(lines) + last) == lines + [last]
  {
    UnlinesSplit(lines);
    SplitExtend(Unlines(lines), lines, last);
  }

  /** Lines ended in the manner of Windows. */
  function UnlinesCr(lines: seq<string>): string {
    if lines == [] then "" else UnlinesCr(lines[..|lines| - 1]) + lines[|lines| - 1] + "\r\n"
  }

  /** One carriage return before each newline makes no difference. */
  lemma {:induction false} LinesOfUnlinesCr(lines: seq<string>)
    requires AllFree(lines, '\n')
    ensures Lines(UnlinesCr(lines)) == lines
  {
    var cr := seq(|lines|, i requires 0 <= i < |lines| => lines[i] + ['\r']);
    SplitCr(lines, cr);
    var pieces := Split(UnlinesCr(lines), '\n');
    assert |pieces| == |lines| + 1 && pieces[|lines|] == "";
    forall i | 0 <= i < |lines| ensures Chomp(pieces[i]) == lines[i] {
      assert pieces[i] == lines[i] + ['\r'];
    }
  }

  lemma {:induction false} SplitCr(lines: seq<string>, cr: seq<string>)
    requires AllFree(lines, '\n') && |cr| == |lines| && forall i :: 0 <= i < |lines| ==> cr[i] == lines[i] + ['\r']
    ensures Split(UnlinesCr(lines), '\n') == cr + [""]
  {
    if lines != [] {
      var front, last := lines[..|lines| - 1], lines[|lines| - 1];
      var u := UnlinesCr(front);
      SplitCr(front, cr[..|cr| - 1]);
      SplitExtend(u, cr[..|cr| - 1], last + ['\r']);
      assert u + last + "\r\n" == (u + (last + ['\r'])) + ['\n'] + "";
      SplitLast(u + (last + ['\r']), '\n', "");
      assert cr == cr[..|cr| - 1] + [last + ['\r']];
    }
  }

  // ---- text and bytes ----

  predicate Bytewise(text: string) {
    forall i :: 0 <= i < |text| ==> text[i] as int < 256
  }

  function Encode(text: string): F.Bytes
    requires Bytewise(text)
  {
    seq(|text|, i requires 0 <= i < |text| => text[i] as int)
  }

  function Decode(b: F.Bytes): string {
    seq(|b|, i requires 0 <= i < |b| => b[i] as char)
  }

  /** Configurations that can be sent: printable, one directive a line, in bytes, and short enough for a frame. */
  predicate CanSend(c: Config) {
    && PrintableConfig(c) && AllOneLine(Print(c)) && Bytewise(Unlines(Print(c)))
    && F.Sendable(Encode(Unlines(Print(c))))
  }

  /** The payload for a configuration. */
  function Payload(c: Config): (p: F.Bytes)
    requires CanSend(c)
    ensures F.Sendable(p)
  {
    Encode(Unlines(Print(c)))
  }

  // ---- the connection ----

  /** What a payload installs: nothing if it does not parse, or if the route manager rejects a domain. */
  function Accepted(url: UrlParser, payload: F.Bytes): Option<Config> {
    match Meaning(url, Lines(Decode(payload)))
    case Err(_) => None
    case Ok(c) => if R.Installable(c.routes) then Some(c) else None
  }

  /** readAndApplyConfig: installs the next configuration, or fails and leaves the routes alone. */
  method ReadAndApplyConfig(url: UrlParser, conn: F.Conn, manager: R.Manager) returns (ok: bool)
    requires conn.Valid() && manager.Valid()
    modifies conn, manager, manager.index
    ensures conn.Valid() && manager.Valid()
    ensures conn.Unread() == F.ReadFrame(old(conn.Unread())).rest
    ensures var p := F.ReadFrame(old(conn.Unread())).payload;
      var c := if p.Some? then Accepted(url, p.value) else None;
      && ok == c.Some?
      && manager.index.routes == (if ok then c.value.routes else old(manager.index.routes))
      && manager.fallback == (if ok then c.value.fallback else old(manager.fallback))
  {
    hide F.ReadFrame, Meaning, Lines;
    var payload := conn.NextFrame();
    if payload.None? {
      return false;
    }
    var parsed := Parse(url, Lines(Decode(payload.value)));
    if parsed.Err? {
      return false;
    }
    ok := manager.SetRoutes(parsed.value.routes, parsed.value.fallback);
  }

  /** The configurations installed from a connection, until the first error. */
  function Applied(url: UrlParser, s: F.Bytes): seq<Config>
    decreases |s|
  {
    var r := F.ReadFrame(s);
    if r.payload.None? || Accepted(url, r.payload.value).None? then []
    else [Accepted(url, r.payload.value).value] + Applied(url, r.rest)
  }

  /** How many configurations come before the first one with an invalid domain. */
  function Installables(cs: seq<Config>): (n: nat)
    ensures n <= |cs|
    ensures forall i :: 0 <= i < n ==> R.Installable(cs[i].routes)
    ensures n < |cs| ==> !R.Installable(cs[n].routes)
  {
    if cs == [] || !R.Installable(cs[0].routes) then 0 else 1 + Installables(cs[1..])
  }

  function Min(a: nat, b: nat): nat {
    if a <= b then a else b
  }

  lemma {:induction false} PayloadParses(url: UrlParser, c: Config)
    requires CanSend(c)
    ensures Meaning(url, Lines(Decode(Payload(c)))) == Ok(c)
  {
    var text := Unlines(Print(c));
    assert Decode(Encode(text)) == text;
    LinesOfUnlines(Print(c));
    RoundTrip(url, c);
  }

  predicate AllCanSend(cs: seq<Config>) {
    forall i :: 0 <= i < |cs| ==> CanSend(cs[i])
  }

  function Payloads(cs: seq<Config>): (ps: seq<F.Bytes>)
    requires AllCanSend(cs)
    ensures |ps| == |cs| && F.AllSendable(ps)
  {
    if cs == [] then [] else [Payload(cs[0])] + Payloads(cs[1..])
  }

  /** A whole frame installs its configuration and reading goes on, or ends there on an invalid domain. */
  lemma {:induction false} FrameApplies(url: UrlParser, c: Config, rest: F.Bytes)
    requires CanSend(c)
    ensures Applied(url, F.Frame(Payload(c)) + rest) == if R.Installable(c.routes) then [c] + Applied(url, rest) else []
  {
    hide F.ReadFrame, F.Frame, Meaning, Lines, Payload, R.Installable;
    F.FrameReadsBack(Payload(c), rest);
    PayloadParses(url, c);
  }

  lemma {:induction false} CutFrameApplies(url: UrlParser, p: F.Bytes, k: nat)
    requires F.Sendable(p) && k < |F.Frame(p)|
    ensures Applied(url, F.Frame(p)[..k]) == []
  {
    hide F.ReadFrame, F.Frame, Accepted;
    F.CutFrameFails(p, k);
  }

  /**
   Whatever configurations are sent and wherever the connection breaks: the client installs
   exactly those whose frames arrived whole and that come before the first one with an
   invalid domain, in order and unchanged.
   */
  lemma {:induction false} ConfigsArrive(url: UrlParser, cs: seq<Config>, k: nat)
    requires AllCanSend(cs)
    requires k <= |F.Stream(Payloads(cs))|
    ensures Applied(url, F.Stream(Payloads(cs))[..k]) == cs[..Min(F.Whole(Payloads(cs), k), Installables(cs))]
    decreases |cs|
  {
    hide F.Frame, F.Stream, F.Whole, Payload, CanSend, R.Installable, Accepted, Applied;
    var ps := Payloads(cs);
    if cs == [] {
      NothingApplies(url);
      F.NothingSent(k);
    } else {
      assert ps[0] == Payload(cs[0]) && ps[1..] == Payloads(cs[1..]);
      var f := F.Frame(ps[0]);
      F.CutStream(ps, k);
      if k < |f| {
        CutFrameApplies(url, ps[0], k);
      } else {
        FrameApplies(url, cs[0], F.Stream(ps[1..])[..k - |f|]);
        if R.Installable(cs[0].routes) {
          ConfigsArrive(url, cs[1..], k - |f|);
          Prepend(cs, Min(F.Whole(ps[1..], k - |f|), Installables(cs[1..])));
        }
      }
    }
  }

  lemma {:induction false} Prepend(cs: seq<Config>, n: nat)
    requires n < |cs|
    ensures [cs[0]] + cs[1..][..n] == cs[..n + 1]
  {
  }

  lemma {:induction false} NothingApplies(url: UrlParser)
    ensures Applied(url, []) == []
  {
    hide F.ReadFrame;
    F.EmptyFails();
  }
}
