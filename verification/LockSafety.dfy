/**
 Safety of the certificate lock over whole runs: which events can take a token out of
 its key, that it never comes back, how long a lease lasts, when two sections exclude
 each other, and when refreshing keeps a lock from acquisition to Unlock.
 */
module LockSafety {
  import opened Text
  import opened LockProtocol
  import Names

  /** The server would answer GET with this token. */
  predicate Live(s: State, t: Token) {
    t in s.issuer && Current(s, s.issuer[t].key) == Some(t)
  }

  /** When the lease of a live token runs out. */
  function Expiry(s: State, t: Token): int
    requires Live(s, t)
  {
    s.locks[s.issuer[t].key].expiry
  }

  // ---- one step ----

  /**
   A live token stops being live exactly by the clock reaching its expiry or by serving
   a release of that very token; its expiry only moves by serving an extension of that
   very token. Requests carrying any other token leave it alone.
   */
  lemma {:induction false} TokenStep(c: Config, s: State, e: Event, t: Token)
    requires Inv(c, s) && Enabled(c, s, e) && Live(s, t)
    ensures var s' := Apply(c, s, e);
      && (!Live(s', t) <==> (e.Tick? && s'.now >= Expiry(s, t)) || e == ServeRelease(t))
      && (Live(s', t) ==> Expiry(s', t) == if e == ServeExtend(t) then s.now + TTL else Expiry(s, t))
      && (Live(s', t) ==> Expiry(s, t) <= Expiry(s', t))
  {
    var k := s.issuer[t].key;
    assert LockOk(s, k);
    HistoryGrows(c, s, e);
  }

  /** Without resent SETNX requests, a granted token that is not live stays that way. */
  lemma {:induction false} GoneStep(c: Config, s: State, e: Event, t: Token)
    requires Inv(c, s) && Enabled(c, s, e) && !c.retries
    requires t in s.granted && !Live(s, t)
    ensures t in Apply(c, s, e).granted && !Live(Apply(c, s, e), t)
  {
    HistoryGrows(c, s, e);
  }

  // ---- where releases and extensions come from ----

  ghost predicate UnlockTaking(r: Run, u: nat, t: Token)
    requires r.Valid() && u < |r.events|
  {
    && r.events[u].Unlock?
    && ObjectOf(r.events[u].g) in r.states[u].recorded
    && r.states[u].recorded[ObjectOf(r.events[u].g)] == t
  }

  lemma {:induction false} ReleaseOrigin(r: Run, m: nat, t: Token) returns (u: nat)
    requires r.Valid() && m < |r.states| && t in r.states[m].releases
    ensures u < m && UnlockTaking(r, u, t)
    ensures t in r.states[u].issuer && ObjectOf(r.states[u].issuer[t]) == ObjectOf(r.events[u].g)
  {
    assert r.StepAt(m - 1);
    if t in r.states[m - 1].releases {
      u := ReleaseOrigin(r, m - 1, t);
    } else {
      u := m - 1;
      InvAt(r, u);
      assert RecordOk(r.states[u], ObjectOf(r.events[u].g));
    }
  }

  lemma {:induction false} EnterOrigin(r: Run, m: nat, t: Token) returns (w: nat)
    requires r.Valid() && m < |r.states| && t in r.states[m].entered
    ensures w < m && t in r.states[w].issuer && r.events[w] == Enter(r.states[w].issuer[t])
  {
    assert r.StepAt(m - 1);
    if t in r.states[m - 1].entered {
      w := EnterOrigin(r, m - 1, t);
    } else {
      w := m - 1;
      InvAt(r, w);
      assert PhaseOk(r.states[w], r.events[w].g);
    }
  }

  lemma {:induction false} ExtensionOrigin(r: Run, m: nat, t: Token) returns (u: nat, w: nat)
    requires r.Valid() && m < |r.states| && t in r.states[m].extensions
    ensures w < u < m && r.events[u] == Refresh(t)
    ensures t in r.states[w].issuer && r.events[w] == Enter(r.states[w].issuer[t])
  {
    assert r.StepAt(m - 1);
    if t in r.states[m - 1].extensions {
      u, w := ExtensionOrigin(r, m - 1, t);
    } else {
      u := m - 1;
      InvAt(r, u);
      w := EnterOrigin(r, u, t);
    }
  }

  // ---- whole runs ----

  ghost predicate NoRelease(r: Run, t: Token, i: nat, j: nat)
    requires j <= |r.events|
  {
    forall m :: i <= m < j ==> r.events[m] != ServeRelease(t)
  }

  /** A lease that is not released lasts at least until the expiry it had, whatever else happens. */
  lemma {:induction false} LeaseHolds(r: Run, i: nat, j: nat, t: Token)
    requires r.Valid() && i <= j < |r.states|
    requires Live(r.states[i], t) && NoRelease(r, t, i, j)
    requires r.states[j].now < Expiry(r.states[i], t)
    ensures Live(r.states[j], t) && Expiry(r.states[j], t) >= Expiry(r.states[i], t)
  {
    if i < j {
      assert r.StepAt(j - 1);
      InvAt(r, j - 1);
      HistoryGrows(r.cfg, r.states[j - 1], r.events[j - 1]);
      LeaseHolds(r, i, j - 1, t);
      TokenStep(r.cfg, r.states[j - 1], r.events[j - 1], t);
    }
  }

  /** The step at which a live token was lost. */
  ghost predicate LostAt(r: Run, m: nat, t: Token)
    requires r.Valid() && m < |r.events|
  {
    && Live(r.states[m], t)
    && (|| r.events[m] == ServeRelease(t)
        || (r.events[m].Tick? && r.states[m + 1].now >= Expiry(r.states[m], t)))
  }

  /**
   A token that was live and is not any more ran out, or was released by an Unlock of
   the process that generated it, on the redisLock of that key.
   */
  lemma {:induction false} OnlyExpiryOrOwnerEndsLease(r: Run, i: nat, j: nat, t: Token) returns (m: nat, u: nat)
    requires r.Valid() && i <= j < |r.states|
    requires Live(r.states[i], t) && !Live(r.states[j], t)
    ensures i <= m < j && LostAt(r, m, t)
    ensures r.events[m] == ServeRelease(t) ==>
      u < m && UnlockTaking(r, u, t) && ObjectOf(r.events[u].g) == ObjectOf(r.states[i].issuer[t])
  {
    u := 0;
    assert r.StepAt(j - 1);
    InvAt(r, j - 1);
    if Live(r.states[j - 1], t) {
      m := j - 1;
      TokenStep(r.cfg, r.states[m], r.events[m], t);
      if r.events[m] == ServeRelease(t) {
        u := ReleaseOrigin(r, m, t);
        IssuerFixed(r, i, m, t);
        IssuerFixed(r, u, m, t);
      }
    } else {
      m, u := OnlyExpiryOrOwnerEndsLease(r, i, j - 1, t);
    }
  }

  lemma {:induction false} IssuerFixed(r: Run, i: nat, j: nat, t: Token)
    requires r.Valid() && i <= j < |r.states| && t in r.states[i].issuer
    ensures t in r.states[j].issuer && r.states[j].issuer[t] == r.states[i].issuer[t]
  {
    if i < j {
      IssuerFixed(r, i, j - 1, t);
      assert r.StepAt(j - 1);
      HistoryGrows(r.cfg, r.states[j - 1], r.events[j - 1]);
    }
  }

  lemma {:induction false} GoneForever(r: Run, j: nat, m: nat, t: Token)
    requires r.Valid() && j <= m < |r.states| && !r.cfg.retries
    requires t in r.states[j].granted && !Live(r.states[j], t)
    ensures t in r.states[m].granted && !Live(r.states[m], t)
  {
    if j < m {
      GoneForever(r, j, m - 1, t);
      assert r.StepAt(m - 1);
      InvAt(r, m - 1);
      GoneStep(r.cfg, r.states[m - 1], r.events[m - 1], t);
    }
  }

  lemma {:induction false} GrantedStays(r: Run, i: nat, j: nat, t: Token)
    requires r.Valid() && i <= j < |r.states| && Live(r.states[i], t)
    ensures t in r.states[j].granted
  {
    InvAt(r, i);
    if i < j {
      GrantedStays(r, i, j - 1, t);
      assert r.StepAt(j - 1);
      HistoryGrows(r.cfg, r.states[j - 1], r.events[j - 1]);
    } else {
      assert LockOk(r.states[i], r.states[i].issuer[t].key);
    }
  }

  /** Once a token has left its key it never returns. */
  ghost predicate TokensNeverReturn(r: Run)
    requires r.Valid()
  {
    forall t, i, j, m :: 0 <= i <= j <= m < |r.states| && Live(r.states[i], t) && !Live(r.states[j], t)
      ==> !Live(r.states[m], t)
  }

  lemma {:induction false} NeverReturns(r: Run)
    requires r.Valid() && !r.cfg.retries
    ensures TokensNeverReturn(r)
  {
    forall t, i: nat, j: nat, m: nat | 0 <= i <= j <= m < |r.states| && Live(r.states[i], t) && !Live(r.states[j], t)
      ensures !Live(r.states[m], t)
    {
      GrantedStays(r, i, j, t);
      GoneForever(r, j, m, t);
    }
  }

  /**
   With resending, both copies of a SETNX can be served: one while its section waits, the
   other after that section has come and gone. The lock is then taken again, and no
   section is left to release it.
   */
  lemma {:induction false} ResentTokenReturns() returns (r: Run)
    ensures r.Valid() && r.cfg.retries && !TokensNeverReturn(r)
    ensures forall i :: 0 <= i < |r.states| ==> r.states[i].now == 0
    ensures var last := r.states[|r.states| - 1];
      Live(last, "t") && Expiry(last, "t") == TTL && last.phase == map[] && last.recorded == map[]
  {
    var g := Section(0, 0, "k");
    r := Run(Config(true), seq(8, i requires 0 <= i < 8 => Echo(g, i)), seq(7, i requires 0 <= i < 7 => EchoEvent(g, i)));
    forall i | 0 <= i < 7 ensures r.StepAt(i) {
      if i < 2 { EchoOpens(g, i); } else if i < 4 { EchoEnters(g, i); } else { EchoCloses(g, i); }
    }
    assert Live(r.states[3], "t") && !Live(r.states[6], "t") && Live(r.states[7], "t");
  }

  function EchoEvent(g: Section, i: nat): Event
    requires i < 7
  {
    match i
    case 0 => Attempt(g, "t")
    case 1 => Resend("t", 1)
    case 2 => ServeSetNX("t", 1)
    case 3 => Enter(g)
    case 4 => Unlock(g)
    case 5 => ServeRelease("t")
    case 6 => ServeSetNX("t", 0)
  }

  function Echo(g: Section, i: nat): State
    requires i < 8
  {
    var issuer, lock, t, copy := map["t" := g], map[g.key := Entry("t", TTL)], {"t"}, {Request("t", 0)};
    match i
    case 0 => Init(0)
    case 1 => State(0, map[], issuer, copy, {}, {}, map[g := Waiting("t")], map[], {}, {}, {})
    case 2 => Echo(g, 1).(pending := {Request("t", 0), Request("t", 1)})
    case 3 => State(0, lock, issuer, copy, t, {}, map[g := Waiting("t")], map[], {}, {}, {})
    case 4 => State(0, lock, issuer, copy, t, t, map[g := Inside("t")], map[ObjectOf(g) := "t"], t, {}, {})
    case 5 => State(0, lock, issuer, copy, t, t, map[], map[], t, {}, t)
    case 6 => Echo(g, 5).(locks := map[])
    case 7 => Echo(g, 5).(pending := {})
  }

  ghost predicate EchoStep(g: Section, i: nat)
    requires i < 7
  {
    && Enabled(Config(true), Echo(g, i), EchoEvent(g, i))
    && Echo(g, i + 1) == Apply(Config(true), Echo(g, i), EchoEvent(g, i))
  }

  lemma {:induction false} EchoOpens(g: Section, i: nat)
    requires i < 2
    ensures EchoStep(g, i)
  {
  }

  lemma {:induction false} EchoEnters(g: Section, i: nat)
    requires 2 <= i < 4
    ensures EchoStep(g, i)
  {
  }

  lemma {:induction false} EchoCloses(g: Section, i: nat)
    requires 4 <= i < 7
    ensures EchoStep(g, i)
  {
  }

  /** Tokens never return in any run exactly when the client library does not resend SETNX. */
  lemma {:induction false} NeverReturnsIffNoRetries(c: Config)
    ensures (forall r: Run :: r.Valid() && r.cfg == c ==> TokensNeverReturn(r)) <==> !c.retries
  {
    if c.retries {
      var r := ResentTokenReturns();
      assert r.cfg == c;
    } else {
      forall r: Run | r.Valid() && r.cfg == c ensures TokensNeverReturn(r) {
        NeverReturns(r);
      }
    }
  }

  // ---- mutual exclusion ----

  /** A section is past Lock and not yet at Unlock. */
  predicate PastLock(s: State, g: Section) {
    g in s.phase && s.phase[g].Inside?
  }

  /** And the server still has its token. */
  predicate InLease(s: State, g: Section) {
    PastLock(s, g) && Live(s, s.phase[g].token)
  }

  /** Two sections on one key are never inside live leases at once. */
  lemma {:induction false} MutualExclusion(r: Run, i: nat, g: Section, h: Section)
    requires r.Valid() && i < |r.states| && g.key == h.key
    requires InLease(r.states[i], g) && InLease(r.states[i], h)
    ensures g == h
  {
    InvAt(r, i);
    assert PhaseOk(r.states[i], g) && PhaseOk(r.states[i], h);
  }

  /** The section a Lock call on some certificate names runs. */
  function SectionFor(proc: nat, id: nat, prefix: string, subject: string, alts: seq<string>): Section {
    Section(proc, id, Names.LockKey(prefix, subject, alts))
  }

  /** The same for certificate names: any order of the alt names contends for the same lock. */
  lemma {:induction false} NamesExcludeEachOther(r: Run, i: nat, p: nat, x: nat, q: nat, y: nat, prefix: string, subject: string,
                              a: seq<string>, b: seq<string>)
    requires r.Valid() && i < |r.states| && multiset(a) == multiset(b) && (p, x) != (q, y)
    ensures !(InLease(r.states[i], SectionFor(p, x, prefix, subject, a)) && InLease(r.states[i], SectionFor(q, y, prefix, subject, b)))
  {
    var g, h := SectionFor(p, x, prefix, subject, a), SectionFor(q, y, prefix, subject, b);
    Names.KeysIgnoreOrder("", subject, a, b);
    if InLease(r.states[i], g) && InLease(r.states[i], h) {
      MutualExclusion(r, i, g, h);
      assert false;
    }
  }

  /**
   If the server grants `u` while `t` was live on the same key earlier, then the lease
   `t` had then has run out, or a release of `t` was served in between.
   */
  lemma {:induction false} GrantsAreSeparated(r: Run, i: nat, j: nat, t: Token, u: Token)
    requires r.Valid() && i <= j < |r.events|
    requires Live(r.states[i], t)
    requires r.events[j].ServeSetNX? && r.events[j].token == u && u in r.states[j].issuer && Live(r.states[j + 1], u)
    requires !Live(r.states[j], u) && r.states[j].issuer[u].key == r.states[i].issuer[t].key
    ensures r.states[j].now >= Expiry(r.states[i], t) || !NoRelease(r, t, i, j)
  {
    assert r.StepAt(j);
    IssuerFixed(r, i, j, t);
    if r.states[j].now < Expiry(r.states[i], t) && NoRelease(r, t, i, j) {
      LeaseHolds(r, i, j, t);
      assert false;
    }
  }

  // ---- Unlock releases what the redisLock records ----

  /** Lock returning or Unlock running on a given redisLock. */
  predicate Touches(e: Event, o: Object) {
    (e.Enter? || e.Unlock?) && ObjectOf(e.g) == o
  }

  ghost predicate Untouched(r: Run, o: Object, i: nat, j: nat)
    requires j <= |r.events|
  {
    forall m :: i < m < j ==> !Touches(r.events[m], o)
  }

  /** Section `g` takes `t` out of Lock at step `i` and neither unlocks nor crashes before step `j`. */
  ghost predicate Stays(r: Run, g: Section, t: Token, i: nat, j: nat)
    requires r.Valid() && j <= |r.events|
  {
    && i < j
    && r.events[i] == Enter(g) && g in r.states[i].phase && r.states[i].phase[g] == Waiting(t)
    && forall m :: i < m < j ==> r.events[m] != Unlock(g) && r.events[m] != Crash(g.proc)
  }

  ghost predicate Records(s: State, o: Object, t: Token) {
    o in s.recorded && s.recorded[o] == t
  }

  /** One step while a section stays inside: its object keeps recording its token unless it is touched. */
  lemma {:induction false} InsideStep(c: Config, s: State, e: Event, g: Section, t: Token)
    requires Inv(c, s) && Enabled(c, s, e) && e != Unlock(g) && e != Crash(g.proc)
    requires g in s.phase && s.phase[g] == Inside(t)
    ensures var s' := Apply(c, s, e);
      && g in s'.phase && s'.phase[g] == Inside(t)
      && (Records(s', ObjectOf(g), t) <==> Records(s, ObjectOf(g), t) && !Touches(e, ObjectOf(g)))
  {
    assert PhaseOk(s, g);
    if Touches(e, ObjectOf(g)) {
      assert PhaseOk(s, e.g);
    }
  }

  lemma {:induction false} StaysInside(r: Run, g: Section, t: Token, i: nat, j: nat)
    requires r.Valid() && j <= |r.events| && Stays(r, g, t, i, j)
    ensures g in r.states[j].phase && r.states[j].phase[g] == Inside(t)
    ensures Records(r.states[j], ObjectOf(g), t) <==> Untouched(r, ObjectOf(g), i, j)
  {
    assert r.StepAt(j - 1);
    if i < j - 1 {
      StaysInside(r, g, t, i, j - 1);
      InvAt(r, j - 1);
      InsideStep(r.cfg, r.states[j - 1], r.events[j - 1], g, t);
    }
  }

  /**
   Unlock releases the token its own Lock obtained exactly when no other section of the
   same process returned from Lock, or ran Unlock, on that key in between.
   */
  lemma {:induction false} UnlockReleasesOwnIffUntouched(r: Run, g: Section, t: Token, i: nat, j: nat)
    requires r.Valid() && j < |r.events| && Stays(r, g, t, i, j) && r.events[j] == Unlock(g)
    ensures UnlockTaking(r, j, t) <==> Untouched(r, ObjectOf(g), i, j)
  {
    StaysInside(r, g, t, i, j);
  }

  /** While a section stays inside undisturbed, no release of its token has been sent. */
  lemma {:induction false} UndisturbedUnreleased(r: Run, g: Section, t: Token, i: nat, j: nat)
    requires r.Valid() && j <= |r.events| && Stays(r, g, t, i, j) && Untouched(r, ObjectOf(g), i, j)
    ensures t !in r.states[j].releases
  {
    assert r.StepAt(j - 1);
    InvAt(r, j - 1);
    var s, e := r.states[j - 1], r.events[j - 1];
    assert g in s.phase ==> PhaseOk(s, g);
    if i < j - 1 {
      UndisturbedUnreleased(r, g, t, i, j - 1);
      if e.Unlock? && ObjectOf(e.g) in s.recorded {
        StaysInside(r, g, t, i, j - 1);
        assert RecordOk(s, ObjectOf(e.g));
      }
    }
  }

  lemma {:induction false} ReleasesGrow(r: Run, i: nat, j: nat, t: Token)
    requires r.Valid() && i <= j < |r.states| && t in r.states[i].releases
    ensures t in r.states[j].releases
  {
    if i < j {
      ReleasesGrow(r, i, j - 1, t);
      assert r.StepAt(j - 1);
    }
  }

  lemma {:induction false} NoReleaseWhileUndisturbed(r: Run, g: Section, t: Token, i: nat, j: nat)
    requires r.Valid() && j <= |r.events| && Stays(r, g, t, i, j) && Untouched(r, ObjectOf(g), i, j)
    ensures NoRelease(r, t, 0, j)
  {
    UndisturbedUnreleased(r, g, t, i, j);
    forall m | 0 <= m < j ensures r.events[m] != ServeRelease(t) {
      if r.events[m] == ServeRelease(t) {
        assert r.StepAt(m);
        ReleasesGrow(r, m, j, t);
      }
    }
  }

  /** A section that stays inside undisturbed holds the key for as long as its lease lasts. */
  lemma {:induction false} UndisturbedSectionHoldsLock(r: Run, g: Section, t: Token, i: nat, j: nat, k: nat)
    requires r.Valid() && j <= |r.events| && Stays(r, g, t, i, j) && Untouched(r, ObjectOf(g), i, j)
    requires k <= j && Live(r.states[k], t) && r.states[j].now < Expiry(r.states[k], t)
    ensures Live(r.states[j], t)
  {
    NoReleaseWhileUndisturbed(r, g, t, i, j);
    LeaseHolds(r, k, j, t);
  }

  /**
   Without that condition the lock can be lost early: a section that outlived its own
   lease unlocks the redisLock of its process and so releases the lease of a later
   section of that process. Another process then gets in, while the later section is
   still inside and its lease has not run out.
   */
  lemma {:induction false} LateUnlockReleasesSibling() returns (r: Run, g: Section, h: Section)
    ensures r.Valid() && !r.cfg.retries && |r.states| == 13
    ensures g.proc != h.proc && g.key == h.key
    ensures Live(r.states[6], "b") && r.states[12].now < Expiry(r.states[6], "b")
    ensures g in r.states[12].phase && r.states[12].phase[g] == Inside("b") && !Live(r.states[12], "b")
    ensures h in r.states[12].phase && r.states[12].phase[h] == Inside("c") && Live(r.states[12], "c")
  {
    g, h := G, H;
    r := Run(Config(false), seq(13, i requires 0 <= i < 13 => Scene(i)), seq(12, i requires 0 <= i < 12 => SceneEvent(i)));
    forall i | 0 <= i < 12 ensures r.StepAt(i) {
      if i < 4 { SceneOpens(i); } else if i < 6 { SceneSecond(i); } else if i == 6 { SceneOverlaps(); } else if i == 7 { SceneTurns(); } else { SceneCloses(i); }
    }
  }

  // Sections F and G belong to process 0, section H to process 1.
  const F := Section(0, 0, "k")
  const G := Section(0, 1, "k")
  const H := Section(1, 0, "k")
  const O := Object(0, "k")

  function SceneEvent(i: nat): Event
    requires i < 12
  {
    match i
    case 0 => Attempt(F, "a")
    case 1 => ServeSetNX("a", 0)
    case 2 => Enter(F)
    case 3 => Tick(60_000)
    case 4 => Attempt(G, "b")
    case 5 => ServeSetNX("b", 0)
    case 6 => Enter(G)
    case 7 => Unlock(F)
    case 8 => ServeRelease("b")
    case 9 => Attempt(H, "c")
    case 10 => ServeSetNX("c", 0)
    case 11 => Enter(H)
  }

  function Scene(i: nat): State
    requires i < 13
  {
    var a, b, c := map["a" := F], map["a" := F, "b" := G], map["a" := F, "b" := G, "c" := H];
    var ka, kb, kc := map["k" := Entry("a", 60_000)], map["k" := Entry("b", 120_000)], map["k" := Entry("c", 120_000)];
    match i
    case 0 => Init(0)
    case 1 => State(0, map[], a, {Request("a", 0)}, {}, {}, map[F := Waiting("a")], map[], {}, {}, {})
    case 2 => State(0, ka, a, {}, {"a"}, {}, map[F := Waiting("a")], map[], {}, {}, {})
    case 3 => State(0, ka, a, {}, {"a"}, {"a"}, map[F := Inside("a")], map[O := "a"], {"a"}, {}, {})
    case 4 => Scene(3).(now := 60_000)
    case 5 => State(60_000, ka, b, {Request("b", 0)}, {"a"}, {"a"}, map[F := Inside("a"), G := Waiting("b")], map[O := "a"], {"a"}, {}, {})
    case 6 => State(60_000, kb, b, {}, {"a", "b"}, {"a"}, map[F := Inside("a"), G := Waiting("b")], map[O := "a"], {"a"}, {}, {})
    case 7 => State(60_000, kb, b, {}, {"a", "b"}, {"a", "b"}, map[F := Inside("a"), G := Inside("b")], map[O := "b"],
                    {"a", "b"}, {}, {})
    case 8 => State(60_000, kb, b, {}, {"a", "b"}, {"a", "b"}, map[G := Inside("b")], map[], {"a", "b"}, {}, {"b"})
    case 9 => Scene(8).(locks := map[])
    case 10 => State(60_000, map[], c, {Request("c", 0)}, {"a", "b"}, {"a", "b"}, map[G := Inside("b"), H := Waiting("c")], map[],
                     {"a", "b"}, {}, {"b"})
    case 11 => Scene(10).(locks := kc, pending := {}, granted := {"a", "b", "c"})
    case 12 => State(60_000, kc, c, {}, {"a", "b", "c"}, {"a", "b", "c"}, map[G := Inside("b"), H := Inside("c")],
                     map[Object(1, "k") := "c"], {"a", "b", "c"}, {}, {"b"})
  }

  ghost predicate SceneStep(i: nat)
    requires i < 12
  {
    && Enabled(Config(false), Scene(i), SceneEvent(i))
    && Scene(i + 1) == Apply(Config(false), Scene(i), SceneEvent(i))
  }

  lemma {:induction false} SceneOpens(i: nat)
    requires i < 4
    ensures SceneStep(i)
  {
  }

  lemma {:induction false} SceneSecond(i: nat)
    requires 4 <= i < 6
    ensures SceneStep(i)
  {
  }

  lemma {:induction false} SceneOverlaps()
    ensures SceneStep(6)
  {
  }

  lemma {:induction false} SceneTurns()
    ensures SceneStep(7)
  {
  }

  lemma {:induction false} SceneCloses(i: nat)
    requires 8 <= i < 12
    ensures SceneStep(i)
  {
  }

  // ---- refreshing ----

  /** Tick `k` of the refresh goroutine that a Lock returning at time `a` starts. */
  function TickTime(a: int, k: int): int {
    a + k * RENEW_INTERVAL
  }

  /** The extension sent at tick `k` takes effect at step `x`, within the operation timeout. */
  ghost predicate Extended(r: Run, t: Token, a: int, k: int, x: nat)
    requires r.Valid() && x < |r.events|
  {
    && r.events[x] == ServeExtend(t)
    && TickTime(a, k) <= r.states[x].now <= TickTime(a, k) + OPERATION_TIMEOUT
  }

  ghost predicate TickSucceeds(r: Run, t: Token, a: int, k: int, j: nat)
    requires r.Valid() && j <= |r.events|
  {
    exists x :: 0 <= x < j && Extended(r, t, a, k, x)
  }

  /** Of any two consecutive ticks whose time is up at state `j`, one has extended the lock. */
  ghost predicate NoTwoFailures(r: Run, t: Token, a: int, j: nat)
    requires r.Valid() && j <= |r.events|
  {
    forall k :: k >= 1 && TickTime(a, k + 1) + OPERATION_TIMEOUT < r.states[j].now ==>
      TickSucceeds(r, t, a, k, j) || TickSucceeds(r, t, a, k + 1, j)
  }

  lemma {:induction false} ClockMonotone(r: Run, i: nat, j: nat)
    requires r.Valid() && i <= j < |r.states|
    ensures r.states[i].now <= r.states[j].now
  {
    if i < j {
      ClockMonotone(r, i, j - 1);
      assert r.StepAt(j - 1);
      HistoryGrows(r.cfg, r.states[j - 1], r.events[j - 1]);
    }
  }

  /** The server grants `t` at step `q`; the reply reaches section `g` at step `i`, within the operation timeout. */
  ghost predicate GrantedInTime(r: Run, t: Token, q: nat, i: nat)
    requires r.Valid() && q < i < |r.states|
  {
    && Live(r.states[q + 1], t)
    && Expiry(r.states[q + 1], t) == r.states[q].now + TTL
    && r.states[i].now <= r.states[q].now + OPERATION_TIMEOUT
  }

  /** Serving an extension of a live token gives it a whole TTL again. */
  lemma {:induction false} ExtensionRenews(r: Run, t: Token, x: nat, j: nat)
    requires r.Valid() && x < j < |r.states|
    requires Live(r.states[x], t) && r.events[x] == ServeExtend(t) && NoRelease(r, t, 0, j)
    requires r.states[j].now < r.states[x].now + TTL
    ensures Live(r.states[j], t) && Expiry(r.states[j], t) >= r.states[x].now + TTL
  {
    InvAt(r, x);
    assert r.StepAt(x);
    TokenStep(r.cfg, r.states[x], r.events[x], t);
    LeaseHolds(r, x + 1, j, t);
  }

  /** Two ticks after a Lock returned at time `a`, some extension took effect in the last 45 seconds. */
  lemma {:induction false} RecentExtension(r: Run, t: Token, a: int, j: nat) returns (x: nat)
    requires r.Valid() && j <= |r.events| && NoTwoFailures(r, t, a, j)
    requires r.states[j].now > TickTime(a, 2) + OPERATION_TIMEOUT
    ensures x < j && r.events[x] == ServeExtend(t)
    ensures r.states[x].now > a && r.states[j].now - r.states[x].now <= 45_000
  {
    var last := (r.states[j].now - a - OPERATION_TIMEOUT - 1) / RENEW_INTERVAL;
    var k := last - 1;
    assert TickTime(a, k + 1) + OPERATION_TIMEOUT < r.states[j].now <= TickTime(a, k + 2) + OPERATION_TIMEOUT;
    assert TickSucceeds(r, t, a, k, j) || TickSucceeds(r, t, a, k + 1, j);
    if TickSucceeds(r, t, a, k, j) {
      x :| 0 <= x < j && Extended(r, t, a, k, x);
    } else {
      x :| 0 <= x < j && Extended(r, t, a, k + 1, x);
    }
  }

  /**
   A section whose refreshes never fail twice in a row, and which no other section of its
   process disturbs, holds its lock at every state from Lock to Unlock, and always with at
   least ten seconds of its lease left.
   */
  lemma {:induction false} UndisturbedRefreshKeepsLock(r: Run, g: Section, t: Token, q: nat, i: nat, j: nat)
    requires r.Valid() && q < i && j <= |r.events|
    requires Stays(r, g, t, i, j) && Untouched(r, ObjectOf(g), i, j) && GrantedInTime(r, t, q, i)
    requires forall m :: i < m <= j ==> NoTwoFailures(r, t, r.states[i].now, m)
    ensures Live(r.states[j], t) && Expiry(r.states[j], t) - r.states[j].now >= 10_000
    decreases j
  {
    var a := r.states[i].now;
    NoReleaseWhileUndisturbed(r, g, t, i, j);
    if r.states[j].now <= TickTime(a, 2) + OPERATION_TIMEOUT {
      LeaseHolds(r, q + 1, j, t);
    } else {
      var x := RecentExtension(r, t, a, j);
      if x <= i {
        ClockMonotone(r, x, i);
      }
      UndisturbedRefreshKeepsLock(r, g, t, q, i, x);
      ExtensionRenews(r, t, x, j);
    }
  }

  // ---- runs in which refreshing works ----

  ghost predicate EnteredInTime(r: Run, t: Token, i: nat)
    requires r.Valid() && i < |r.states|
  {
    exists q :: 0 <= q < i && GrantedInTime(r, t, q, i)
  }

  /**
   In the whole run, SETNX replies are no older than the operation timeout, and no section
   has two failed refreshes in a row while it is inside.
   */
  ghost predicate WellRefreshed(r: Run)
    requires r.Valid()
  {
    forall g, t, i, m :: 0 <= i < m <= |r.events| && Stays(r, g, t, i, m) ==>
      EnteredInTime(r, t, i) && NoTwoFailures(r, t, r.states[i].now, m)
  }

  /** A section that is inside entered at some step and has stayed since. */
  lemma {:induction false} InsideOrigin(r: Run, h: Section, u: Token, m: nat) returns (w: nat)
    requires r.Valid() && m < |r.states| && h in r.states[m].phase && r.states[m].phase[h] == Inside(u)
    ensures w < m && Stays(r, h, u, w, m)
  {
    assert r.StepAt(m - 1);
    var s := r.states[m - 1];
    if h in s.phase && s.phase[h].Inside? {
      w := InsideOrigin(r, h, u, m - 1);
    } else {
      w := m - 1;
    }
  }

  /** A section that has stayed undisturbed so far in such a run is live. */
  lemma {:induction false} UndisturbedIsLive(r: Run, g: Section, t: Token, i: nat, j: nat)
    requires r.Valid() && WellRefreshed(r) && j <= |r.events|
    requires Stays(r, g, t, i, j) && Untouched(r, ObjectOf(g), i, j)
    ensures Live(r.states[j], t) && Expiry(r.states[j], t) - r.states[j].now >= 10_000
  {
    assert EnteredInTime(r, t, i);
    var q :| 0 <= q < i && GrantedInTime(r, t, q, i);
    forall m | i < m <= j ensures NoTwoFailures(r, t, r.states[i].now, m) {
      assert Stays(r, g, t, i, m);
    }
    UndisturbedRefreshKeepsLock(r, g, t, q, i, j);
  }

  /** A token whose grant was answered in time, and which has not entered yet, is live. */
  lemma {:induction false} EnteringIsLive(r: Run, h: Section, u: Token, i: nat)
    requires r.Valid() && WellRefreshed(r) && i < |r.events|
    requires r.events[i] == Enter(h) && h in r.states[i].phase && r.states[i].phase[h] == Waiting(u)
    ensures Live(r.states[i], u) && u !in r.states[i].entered
  {
    assert Stays(r, h, u, i, i + 1);
    var q :| 0 <= q < i && GrantedInTime(r, u, q, i);
    InvAt(r, i);
    assert PhaseOk(r.states[i], h);
    forall m | 0 <= m < i ensures r.events[m] != ServeRelease(u) {
      if r.events[m] == ServeRelease(u) {
        assert r.StepAt(m);
        ReleasesGrow(r, m, i, u);
      }
    }
    LeaseHolds(r, q + 1, i, u);
  }

  /** No section returns from Lock while another of its process is inside and was undisturbed so far. */
  lemma {:induction false} NobodyEnters(r: Run, g: Section, t: Token, i: nat, j: nat, h: Section)
    requires r.Valid() && WellRefreshed(r) && j < |r.events|
    requires Stays(r, g, t, i, j) && Untouched(r, ObjectOf(g), i, j) && g.key == h.key
    ensures r.events[j] != Enter(h)
  {
    StaysInside(r, g, t, i, j);
    UndisturbedIsLive(r, g, t, i, j);
    InvAt(r, j);
    assert PhaseOk(r.states[j], g);
    if r.events[j] == Enter(h) {
      assert r.StepAt(j);
      assert PhaseOk(r.states[j], h);
      EnteringIsLive(r, h, r.states[j].phase[h].token, j);
      assert false;
    }
  }

  /** In such a run no section is ever disturbed by another section of its process. */
  lemma {:induction false} NobodyDisturbs(r: Run, g: Section, t: Token, i: nat, j: nat)
    requires r.Valid() && WellRefreshed(r) && j <= |r.events| && Stays(r, g, t, i, j)
    ensures Untouched(r, ObjectOf(g), i, j)
    decreases j
  {
    if i < j - 1 {
      assert Stays(r, g, t, i, j - 1);
      NobodyDisturbs(r, g, t, i, j - 1);
      var e := r.events[j - 1];
      assert r.StepAt(j - 1);
      if e.Enter? && ObjectOf(e.g) == ObjectOf(g) {
        NobodyEnters(r, g, t, i, j - 1, e.g);
      } else if e.Unlock? && ObjectOf(e.g) == ObjectOf(g) {
        var u := r.states[j - 1].phase[e.g].token;
        var w := InsideOrigin(r, e.g, u, j - 1);
        assert Touches(r.events[w], ObjectOf(g)) && Touches(r.events[i], ObjectOf(g));
        if w < i {
          assert Stays(r, e.g, u, w, i + 1);
          NobodyDisturbs(r, e.g, u, w, i + 1);
        }
      }
    }
  }

  /**
   In every run without late replies and without two failed refreshes in a row, every
   section holds its lock at every state from Lock to Unlock, always with at least ten
   seconds of its lease left.
   */
  lemma {:induction false} RefreshKeepsLock(r: Run, g: Section, t: Token, i: nat, j: nat)
    requires r.Valid() && WellRefreshed(r) && j <= |r.events| && Stays(r, g, t, i, j)
    ensures Live(r.states[j], t) && Expiry(r.states[j], t) - r.states[j].now >= 10_000
  {
    NobodyDisturbs(r, g, t, i, j);
    UndisturbedIsLive(r, g, t, i, j);
  }

  /** Hence there is never more than one section, of all processes, between Lock and Unlock on one key. */
  lemma {:induction false} OneInside(r: Run, j: nat, g: Section, h: Section)
    requires r.Valid() && WellRefreshed(r) && j < |r.states| && g.key == h.key
    requires PastLock(r.states[j], g) && PastLock(r.states[j], h)
    ensures g == h
  {
    var t, u := r.states[j].phase[g].token, r.states[j].phase[h].token;
    var i := InsideOrigin(r, g, t, j);
    var w := InsideOrigin(r, h, u, j);
    RefreshKeepsLock(r, g, t, i, j);
    RefreshKeepsLock(r, h, u, w, j);
    MutualExclusion(r, j, g, h);
  }

  /** And every Unlock releases the token that its own Lock obtained. */
  lemma {:induction false} UnlockReleasesOwn(r: Run, g: Section, j: nat)
    requires r.Valid() && WellRefreshed(r) && j < |r.events| && r.events[j] == Unlock(g)
    ensures PastLock(r.states[j], g) && UnlockTaking(r, j, r.states[j].phase[g].token)
  {
    assert r.StepAt(j);
    var t := r.states[j].phase[g].token;
    var i := InsideOrigin(r, g, t, j);
    NobodyDisturbs(r, g, t, i, j);
    UnlockReleasesOwnIffUntouched(r, g, t, i, j);
  }
}
