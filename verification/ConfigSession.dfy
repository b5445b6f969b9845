/**
 The reconnect loop of NetworkSource and the delivery of configurations together
 (config/source_network.go): which configurations a whole run installs, over however
 many connections it takes.
 */
module ConfigSession {
  import opened Text
  import opened ConfigParser
  import D = Delivery
  import F = Frames
  import N = NetworkSource

  /** The connection in use, what earlier connections and this one had installed, and what is left to read on it. */
  datatype Session = Session(conn: nat, earlier: seq<Config>, here: seq<Config>, unread: F.Bytes)

  function Installed(w: Session): seq<Config> {
    w.earlier + w.here
  }

  /** A round of the loop gets as far as reading. */
  predicate Reads(s: N.State, r: N.Round) {
    !s.ended && r.Round? && (s.initialConfigRead || r.setDeadlineOk)
  }

  /** What the next read on a connection installs. */
  function NextConfig(url: UrlParser, unread: F.Bytes): Option<Config> {
    var p := F.ReadFrame(unread).payload;
    if p.None? then None else D.Accepted(url, p.value)
  }

  /** A round reads from the connection in use, and after a failed read moves on to the next one. */
  function Advance(url: UrlParser, conns: seq<F.Bytes>, s: N.State, w: Session, r: N.Round): Session {
    if !Reads(s, r) then w
    else
      var c := NextConfig(url, w.unread);
      if c.Some? then w.(here := w.here + [c.value], unread := F.ReadFrame(w.unread).rest)
      else if !s.secondChance && r.dialOk && w.conn + 1 < |conns| then Session(w.conn + 1, Installed(w), [], conns[w.conn + 1])
      else w
  }

  /** The round is one that these connections give rise to. */
  predicate Fits(url: UrlParser, conns: seq<F.Bytes>, s: N.State, w: Session, r: N.Round) {
    Reads(s, r) ==>
      && r.applied == NextConfig(url, w.unread).Some?
      && (!r.applied && !s.secondChance && r.dialOk ==> w.conn + 1 < |conns|)
  }

  function After(url: UrlParser, conns: seq<F.Bytes>, rounds: seq<N.Round>): Session
    requires conns != []
  {
    if rounds == [] then Session(0, [], [], conns[0])
    else
      var front := rounds[..|rounds| - 1];
      Advance(url, conns, N.After(front), After(url, conns, front), rounds[|rounds| - 1])
  }

  /** A run in which every read gets what the connection in use delivers. */
  predicate Possible(url: UrlParser, conns: seq<F.Bytes>, rounds: seq<N.Round>)
    requires conns != []
  {
    rounds != [] ==>
      var front := rounds[..|rounds| - 1];
      Possible(url, conns, front) && Fits(url, conns, N.After(front), After(url, conns, front), rounds[|rounds| - 1])
  }

  /** All that the first `n` connections install, each read to its first error. */
  function AllOf(url: UrlParser, conns: seq<F.Bytes>, n: nat): seq<Config>
    requires n <= |conns|
  {
    if n == 0 then [] else AllOf(url, conns, n - 1) + D.Applied(url, conns[n - 1])
  }

  ghost predicate Inv(url: UrlParser, conns: seq<F.Bytes>, w: Session) {
    && w.conn < |conns|
    && w.earlier == AllOf(url, conns, w.conn)
    && D.Applied(url, conns[w.conn]) == w.here + D.Applied(url, w.unread)
  }

  lemma {:induction false} AppliedStep(url: UrlParser, unread: F.Bytes)
    ensures var c := NextConfig(url, unread);
      D.Applied(url, unread) == if c.Some? then [c.value] + D.Applied(url, F.ReadFrame(unread).rest) else []
  {
    hide F.ReadFrame, D.Accepted;
  }

  lemma {:induction false} InvStep(url: UrlParser, conns: seq<F.Bytes>, s: N.State, w: Session, r: N.Round)
    requires Inv(url, conns, w)
    ensures Inv(url, conns, Advance(url, conns, s, w, r))
  {
    hide F.ReadFrame, NextConfig, D.Applied;
    AppliedStep(url, w.unread);
    var c := NextConfig(url, w.unread);
    if c.Some? {
      var rest := D.Applied(url, F.ReadFrame(w.unread).rest);
      assert w.here + ([c.value] + rest) == (w.here + [c.value]) + rest;
    } else {
      assert w.here + [] == w.here;
      if w.conn + 1 < |conns| {
        var next := conns[w.conn + 1];
        assert [] + D.Applied(url, next) == D.Applied(url, next);
      }
    }
  }

  /**
   At every point of every run: what has been installed, followed by what the connection in
   use would still install, is all that the connections used so far install.
   */
  lemma {:induction false} InstalledSoFar(url: UrlParser, conns: seq<F.Bytes>, rounds: seq<N.Round>)
    requires conns != []
    ensures var w := After(url, conns, rounds);
      Inv(url, conns, w) && Installed(w) + D.Applied(url, w.unread) == AllOf(url, conns, w.conn + 1)
  {
    hide D.Applied, Advance;
    InvAlways(url, conns, rounds);
    var w := After(url, conns, rounds);
    assert w.earlier + w.here + D.Applied(url, w.unread) == w.earlier + (w.here + D.Applied(url, w.unread));
  }

  lemma {:induction false} InvAlways(url: UrlParser, conns: seq<F.Bytes>, rounds: seq<N.Round>)
    requires conns != []
    ensures Inv(url, conns, After(url, conns, rounds))
  {
    hide D.Applied, Advance;
    if rounds == [] {
      assert [] + D.Applied(url, conns[0]) == D.Applied(url, conns[0]);
    } else {
      var front := rounds[..|rounds| - 1];
      InvAlways(url, conns, front);
      InvStep(url, conns, N.After(front), After(url, conns, front), rounds[|rounds| - 1]);
    }
  }

  /** The loop's record of reads counts the installed configurations, and its reconnects the connections. */
  lemma {:induction false} LoopCounts(url: UrlParser, conns: seq<F.Bytes>, rounds: seq<N.Round>)
    requires conns != [] && Possible(url, conns, rounds)
    ensures var s, w := N.After(rounds), After(url, conns, rounds);
      N.Applied(s.history) == |Installed(w)| && (!s.ended ==> s.reconnects == w.conn)
  {
    hide Advance, Fits, N.Next, N.Applied;
    if rounds == [] {
      NothingRead();
    } else {
      var front := rounds[..|rounds| - 1];
      LoopCounts(url, conns, front);
      RoundCounts(url, conns, N.After(front), After(url, conns, front), rounds[|rounds| - 1]);
    }
  }

  lemma {:induction false} NothingRead()
    ensures N.Applied([]) == 0
  {
  }

  lemma {:induction false} RoundCounts(url: UrlParser, conns: seq<F.Bytes>, s: N.State, w: Session, r: N.Round)
    requires Fits(url, conns, s, w, r)
    requires N.Applied(s.history) == |Installed(w)| && (!s.ended ==> s.reconnects == w.conn)
    ensures var s', w' := N.Next(s, r), Advance(url, conns, s, w, r);
      N.Applied(s'.history) == |Installed(w')| && (!s'.ended ==> s'.reconnects == w'.conn)
  {
    hide F.ReadFrame, NextConfig, N.Applied, N.NoLongFailure, N.DeadlinesOk;
    if Reads(s, r) {
      N.OneMoreRead(s.history, N.Read(s.deadline || !s.initialConfigRead, r.applied), false);
    }
  }

  /**
   When dialling and deadlines work and nobody stops it, the loop ends having installed
   exactly the configurations of the connections it used, in order and unchanged.
   */
  lemma {:induction false} EndsWithEverything(url: UrlParser, conns: seq<F.Bytes>, rounds: seq<N.Round>)
    requires conns != [] && Possible(url, conns, rounds) && N.After(rounds).ended
    requires forall i :: 0 <= i < |rounds| ==> N.Healthy(rounds[i])
    ensures var w := After(url, conns, rounds); w.conn < |conns| && Installed(w) == AllOf(url, conns, w.conn + 1)
  {
    hide D.Applied, AllOf, NextConfig, Advance, Fits, N.Next, N.Healthy;
    var front, r := rounds[..|rounds| - 1], rounds[|rounds| - 1];
    var s, w := N.After(front), After(url, conns, front);
    assert N.Healthy(r);
    InstalledSoFar(url, conns, front);
    if s.ended {
      EndsWithEverything(url, conns, front);
      EndedStays(url, conns, s, w, r);
    } else {
      LastRound(url, conns, s, w, r);
      AppliedStep(url, w.unread);
      assert Installed(w) + [] == Installed(w);
    }
  }

  lemma {:induction false} EndedStays(url: UrlParser, conns: seq<F.Bytes>, s: N.State, w: Session, r: N.Round)
    requires s.ended
    ensures Advance(url, conns, s, w, r) == w
  {
  }

  /** A healthy loop ends with a second failed read, which installs nothing. */
  lemma {:induction false} LastRound(url: UrlParser, conns: seq<F.Bytes>, s: N.State, w: Session, r: N.Round)
    requires !s.ended && N.Healthy(r) && N.Next(s, r).ended && Fits(url, conns, s, w, r)
    ensures Advance(url, conns, s, w, r) == w && NextConfig(url, w.unread).None?
  {
    hide NextConfig;
  }
}
