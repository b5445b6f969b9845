/**
 What the lock makes possible and what it rules out for good: refreshing can hold a lock
 for as long as one likes, an attempt that was given up never turns into a lock, a lease
 nobody extends runs out, and so the lock of a crashed process becomes free by itself.
 */
module LockLiveness {
  import Text
  import opened LockProtocol
  import opened LockSafety

  // ---- one refresh ----

  /** A refresh tick sends an extension; when it is served while the token is live, the lease is a whole TTL again. */
  lemma {:induction false} RefreshRenews(c: Config, s: State, t: Token)
    requires Inv(c, s) && Live(s, t) && Enabled(c, s, Refresh(t))
    ensures var sent := Apply(c, s, Refresh(t));
      && Live(sent, t) && Enabled(c, sent, ServeExtend(t))
      && Live(Apply(c, sent, ServeExtend(t)), t)
      && Expiry(Apply(c, sent, ServeExtend(t)), t) == s.now + TTL
  {
    assert LockOk(s, s.issuer[t].key);
  }

  /** Every Lock that returns starts a refresh goroutine, which can tick from then on. */
  lemma {:induction false} EnterStartsRefreshing(r: Run, i: nat, g: Section, t: Token)
    requires r.Valid() && i < |r.events| && Stays(r, g, t, i, i + 1)
    ensures Enabled(r.cfg, r.states[i + 1], Refresh(t))
  {
    assert r.StepAt(i);
  }

  // ---- a section of any length ----

  const LONG := Section(0, 0, "k")

  /** Past Lock at time `now`, with the lock held until `expiry`. */
  function Holding(now: int, expiry: int, sent: bool): State {
    State(now, map["k" := Entry("a", expiry)], map["a" := LONG], {}, {"a"}, {"a"}, map[LONG := Inside("a")],
          map[ObjectOf(LONG) := "a"], {"a"}, if sent then {"a"} else {}, {})
  }

  /** Entering, and then a tick of the clock, a refresh and its extension, over and over. */
  function LongEvent(i: nat): Event {
    if i == 0 then Attempt(LONG, "a")
    else if i == 1 then ServeSetNX("a", 0)
    else if i == 2 then Enter(LONG)
    else if i % 3 == 0 then Tick(20_000)
    else if i % 3 == 1 then Refresh("a")
    else ServeExtend("a")
  }

  function LongState(i: nat): State {
    if i == 0 then Init(0)
    else if i == 1 then State(0, map[], map["a" := LONG], {Request("a", 0)}, {}, {}, map[LONG := Waiting("a")], map[], {}, {}, {})
    else if i == 2 then State(0, map["k" := Entry("a", TTL)], map["a" := LONG], {}, {"a"}, {}, map[LONG := Waiting("a")], map[], {}, {}, {})
    else
      var n := i / 3 - 1;
      if i % 3 == 0 then Holding(20_000 * n, 20_000 * n + TTL, n > 0)
      else Holding(20_000 * (n + 1), 20_000 * n + TTL, n > 0 || i % 3 == 2)
  }

  ghost predicate LongStep(i: nat) {
    Enabled(Config(false), LongState(i), LongEvent(i)) && LongState(i + 1) == Apply(Config(false), LongState(i), LongEvent(i))
  }

  lemma {:induction false} LongOpens(i: nat)
    requires i < 3
    ensures LongStep(i)
  {
  }

  lemma {:induction false} HoldingTick(now: int, expiry: int, sent: bool)
    ensures Apply(Config(false), Holding(now, expiry, sent), Tick(20_000)) == Holding(now + 20_000, expiry, sent)
  {
  }

  lemma {:induction false} HoldingRefresh(now: int, expiry: int, sent: bool)
    ensures Enabled(Config(false), Holding(now, expiry, sent), Refresh("a"))
    ensures Apply(Config(false), Holding(now, expiry, sent), Refresh("a")) == Holding(now, expiry, true)
  {
  }

  lemma {:induction false} HoldingExtend(now: int, expiry: int)
    requires now < expiry
    ensures Enabled(Config(false), Holding(now, expiry, true), ServeExtend("a"))
    ensures Apply(Config(false), Holding(now, expiry, true), ServeExtend("a")) == Holding(now, now + TTL, true)
  {
    var s := Holding(now, expiry, true);
    assert Current(s, "k") == Text.Some("a");
  }

  lemma {:induction false} LongGoesOn(i: nat)
    requires i >= 3
    ensures LongStep(i)
  {
    hide Holding, Apply, Enabled;
    var n := i / 3 - 1;
    if i % 3 == 0 {
      HoldingTick(20_000 * n, 20_000 * n + TTL, n > 0);
      TickIsEnabled(LongState(i));
    } else if i % 3 == 1 {
      HoldingRefresh(20_000 * (n + 1), 20_000 * n + TTL, n > 0);
    } else {
      HoldingExtend(20_000 * (n + 1), 20_000 * n + TTL);
    }
  }

  lemma {:induction false} TickIsEnabled(s: State)
    ensures Enabled(Config(false), s, Tick(20_000))
  {
  }

  ghost function LongRun(n: nat): Run {
    Run(Config(false), seq(3 * n + 4, i requires 0 <= i => LongState(i)), seq(3 * n + 3, i requires 0 <= i => LongEvent(i)))
  }

  lemma {:induction false} LongRunIsValid(n: nat)
    ensures LongRun(n).Valid()
  {
    hide LongState, LongEvent;
    var r := LongRun(n);
    forall i | 0 <= i < |r.events| ensures r.StepAt(i) {
      if i < 3 { LongOpens(i); } else { LongGoesOn(i); }
    }
    LongStarts();
  }

  lemma {:induction false} LongStarts()
    ensures LongState(0) == Init(0)
  {
  }

  lemma {:induction false} LongNow(i: nat)
    ensures LongState(i).now == if i < 3 then 0 else 20_000 * ((i + 2) / 3 - 1)
  {
  }

  lemma {:induction false} LongGrant()
    ensures Live(LongState(2), "a") && Expiry(LongState(2), "a") == TTL && LongState(1).now == 0 && LongState(2).now == 0
  {
  }

  lemma {:induction false} LongEnters(i: nat)
    requires LongEvent(i).Enter?
    ensures i == 2 && LongState(2).phase == map[LONG := Waiting("a")]
  {
  }

  /** The refresh at tick `k` takes effect at once. */
  lemma {:induction false} LongTickSucceeds(n: nat, k: nat, m: nat)
    requires LongRun(n).Valid() && m <= 3 * n + 3 && k >= 1
    requires TickTime(0, k + 1) + OPERATION_TIMEOUT < LongState(m).now
    ensures TickSucceeds(LongRun(n), "a", 0, k, m)
  {
    hide LongState;
    var r := LongRun(n);
    var x := 3 * k + 2;
    LongNow(m);
    LongNow(x);
    assert x < m;
    assert x % 3 == 2 && LongEvent(x) == ServeExtend("a");
    hide LongEvent;
    assert Extended(r, "a", 0, k, x);
  }

  lemma {:induction false} LongRunIsWell(n: nat)
    requires LongRun(n).Valid()
    ensures WellRefreshed(LongRun(n))
  {
    hide LongState, LongEvent, TickSucceeds, Live, Expiry;
    var r := LongRun(n);
    forall g, t, i: nat, m: nat | 0 <= i < m <= |r.events| && Stays(r, g, t, i, m)
      ensures EnteredInTime(r, t, i) && NoTwoFailures(r, t, r.states[i].now, m)
    {
      LongEnters(i);
      LongGrant();
      assert t == "a" && GrantedInTime(r, t, 1, i);
      forall k | k >= 1 && TickTime(0, k + 1) + OPERATION_TIMEOUT < r.states[m].now ensures TickSucceeds(r, t, 0, k, m) {
        LongTickSucceeds(n, k, m);
      }
    }
  }

  /**
   Refreshing can hold a lock for as long as one likes: for every `n` there is a well
   refreshed run at whose end a section has been past Lock for `n` refresh intervals and
   still has a whole TTL left.
   */
  lemma {:induction false} LockCanBeHeld(n: nat) returns (r: Run)
    ensures r.Valid() && WellRefreshed(r) && !r.cfg.retries && |r.events| == 3 * n + 3
    ensures r.states[3].now == 0 && r.states[3 * n + 3].now == n * RENEW_INTERVAL
    ensures forall i :: 3 <= i < |r.states| ==> PastLock(r.states[i], LONG) && r.states[i].phase[LONG] == Inside("a")
    ensures Live(r.states[3 * n + 3], "a") && Expiry(r.states[3 * n + 3], "a") == n * RENEW_INTERVAL + TTL
  {
    LongRunIsValid(n);
    LongRunIsWell(n);
    r := LongRun(n);
    LongNow(3);
    LongNow(3 * n + 3);
    assert r.states[3 * n + 3] == Holding(20_000 * n, 20_000 * n + TTL, n > 0);
  }

  // ---- the margin ----

  function TightEvent(i: nat): Event
    requires i < 5
  {
    match i
    case 0 => Attempt(LONG, "a")
    case 1 => ServeSetNX("a", 0)
    case 2 => Tick(5_000)
    case 3 => Enter(LONG)
    case 4 => Tick(45_000)
  }

  function TightState(i: nat): State
    requires i < 6
  {
    match i
    case 0 => Init(0)
    case 1 => LongState(1)
    case 2 => LongState(2)
    case 3 => LongState(2).(now := 5_000)
    case 4 => Holding(5_000, 60_000, false)
    case 5 => Holding(50_000, 60_000, false)
  }

  ghost predicate TightStep(i: nat)
    requires i < 5
  {
    Enabled(Config(false), TightState(i), TightEvent(i)) && TightState(i + 1) == Apply(Config(false), TightState(i), TightEvent(i))
  }

  lemma {:induction false} TightOpens(i: nat)
    requires i < 3
    ensures TightStep(i)
  {
  }

  lemma {:induction false} TightCloses(i: nat)
    requires 3 <= i < 5
    ensures TightStep(i)
  {
  }

  lemma {:induction false} TightFacts(i: nat)
    requires i < 6
    ensures TightState(0) == Init(0) && TightState(1).now == 0 && TightState(3).now == 5_000 && TightState(i).now <= 50_000
    ensures Live(TightState(2), "a") && Expiry(TightState(2), "a") == 60_000
    ensures Live(TightState(5), "a") && Expiry(TightState(5), "a") - TightState(5).now == 10_000 && PastLock(TightState(5), LONG)
    ensures i < 5 && TightEvent(i).Enter? ==> i == 3 && TightState(3).phase == map[LONG := Waiting("a")]
  {
  }

  /** The ten seconds are exact: a slow reply and one missed refresh leave no more, in a run that meets the conditions. */
  lemma {:induction false} MarginIsTight() returns (r: Run)
    ensures r.Valid() && WellRefreshed(r) && |r.states| == 6 && PastLock(r.states[5], LONG)
    ensures Live(r.states[5], "a") && Expiry(r.states[5], "a") - r.states[5].now == 10_000
  {
    hide TightState, TightEvent, Live, Expiry, PastLock, WellRefreshed;
    r := Run(Config(false), seq(6, i requires 0 <= i < 6 => TightState(i)), seq(5, i requires 0 <= i < 5 => TightEvent(i)));
    TightFacts(0);
    forall i | 0 <= i < 5 ensures r.StepAt(i) {
      if i < 3 { TightOpens(i); } else { TightCloses(i); }
    }
    TightIsWell(r);
  }

  lemma {:induction false} TightIsWell(r: Run)
    requires r.Valid() && |r.states| == 6
    requires forall i :: 0 <= i < 6 ==> r.states[i] == TightState(i)
    requires forall i :: 0 <= i < 5 ==> r.events[i] == TightEvent(i)
    ensures WellRefreshed(r)
  {
    hide TightState, TightEvent, Live, Expiry;
    forall g, t, i: nat, m: nat | 0 <= i < m <= |r.events| && Stays(r, g, t, i, m)
      ensures EnteredInTime(r, t, i) && NoTwoFailures(r, t, r.states[i].now, m)
    {
      TightFacts(i);
      TightFacts(m);
      assert GrantedInTime(r, t, 1, i);
    }
  }

  // ---- attempts and processes that are gone ----

  /** No section is ever stuck: one that waits can give up, one between attempts can try any new token, one inside can unlock. */
  lemma {:induction false} NeverStuck(c: Config, s: State, g: Section, u: Token)
    requires g in s.phase && u !in s.issuer
    ensures s.phase[g].Waiting? ==> Enabled(c, s, GiveUp(g)) && Enabled(c, Apply(c, s, GiveUp(g)), Attempt(g, u))
    ensures s.phase[g].Between? ==> Enabled(c, s, Attempt(g, u))
    ensures s.phase[g].Inside? ==> Enabled(c, s, Unlock(g)) && g !in Apply(c, s, Unlock(g)).phase
  {
  }

  /** No section is waiting for this token or inside with it. */
  predicate Orphan(s: State, t: Token) {
    t in s.issuer && (s.issuer[t] in s.phase ==> s.phase[s.issuer[t]] != Waiting(t) && s.phase[s.issuer[t]] != Inside(t))
  }

  lemma {:induction false} OrphanStep(c: Config, s: State, e: Event, t: Token)
    requires Inv(c, s) && Enabled(c, s, e) && Orphan(s, t)
    ensures var s' := Apply(c, s, e);
      && Orphan(s', t)
      && (t in s'.entered ==> t in s.entered)
      && (t in s'.refreshing ==> t in s.refreshing)
      && forall o :: Records(s', o, t) ==> Records(s, o, t)
  {
    if e.Enter? {
      assert PhaseOk(s, e.g);
    }
  }

  /** Once gone, a token stays gone: it never gets recorded, refreshed or used to enter again. */
  lemma {:induction false} OrphanStays(r: Run, i: nat, j: nat, t: Token)
    requires r.Valid() && i <= j < |r.states| && Orphan(r.states[i], t)
    ensures Orphan(r.states[j], t)
    ensures t in r.states[j].entered ==> t in r.states[i].entered
    ensures t in r.states[j].refreshing ==> t in r.states[i].refreshing
    ensures forall o :: Records(r.states[j], o, t) ==> Records(r.states[i], o, t)
  {
    hide Orphan, Records, Apply, Enabled;
    if i < j {
      OrphanStays(r, i, j - 1, t);
      InvAt(r, j - 1);
      assert r.StepAt(j - 1);
      OrphanStep(r.cfg, r.states[j - 1], r.events[j - 1], t);
    }
  }

  /**
   An attempt that was given up is over: no Lock ever returns with its token, even if the
   server grants it later, and the section is free to try again with a new one.
   */
  lemma {:induction false} GivenUpNeverEnters(r: Run, i: nat, j: nat, g: Section, t: Token)
    requires r.Valid() && i < j < |r.states| && r.events[i] == GiveUp(g)
    requires g in r.states[i].phase && r.states[i].phase[g] == Waiting(t)
    ensures t !in r.states[j].entered && t !in r.states[j].refreshing
    ensures forall u :: u !in r.states[i + 1].issuer ==> Enabled(r.cfg, r.states[i + 1], Attempt(g, u))
  {
    InvAt(r, i);
    assert r.StepAt(i) && PhaseOk(r.states[i], g);
    OrphanStays(r, i + 1, j, t);
  }

  lemma {:induction false} EnteredStays(r: Run, i: nat, j: nat, t: Token)
    requires r.Valid() && i <= j < |r.states| && t in r.states[i].entered
    ensures t in r.states[j].entered
  {
    hide Apply, Enabled;
    if i < j {
      EnteredStays(r, i, j - 1, t);
      assert r.StepAt(j - 1);
      HistoryGrows(r.cfg, r.states[j - 1], r.events[j - 1]);
    }
  }

  /** Once the call that sent a SETNX has returned or is gone, that SETNX is not sent again. */
  lemma {:induction false} NoLateResend(r: Run, i: nat, j: nat, t: Token, n: nat)
    requires r.Valid() && i <= j < |r.events| && (t in r.states[i].entered || Orphan(r.states[i], t))
    ensures r.events[j] != Resend(t, n)
  {
    assert r.StepAt(j);
    InvAt(r, j);
    var s := r.states[j];
    if t in r.states[i].entered {
      EnteredStays(r, i, j, t);
      assert t in s.issuer && s.issuer[t] in s.phase ==> PhaseOk(s, s.issuer[t]);
    } else {
      OrphanStays(r, i, j, t);
    }
  }

  /** A section that has made an attempt and neither given up, unlocked nor crashed is waiting or inside. */
  lemma {:induction false} AttemptGoesOn(r: Run, i: nat, j: nat, g: Section)
    requires r.Valid() && i < j < |r.states| && r.events[i].Attempt? && r.events[i].g == g
    requires forall m :: i < m < j ==> r.events[m] != GiveUp(g) && r.events[m] != Unlock(g) && r.events[m] != Crash(g.proc)
    ensures g in r.states[j].phase && !r.states[j].phase[g].Between?
  {
    assert r.StepAt(j - 1);
    if i + 1 < j {
      AttemptGoesOn(r, i, j - 1, g);
    }
  }

  /** One attempt at a time: before the next one, a section has given up, unlocked or crashed. */
  lemma {:induction false} OneAttemptAtATime(r: Run, i: nat, j: nat, g: Section)
    requires r.Valid() && i < j < |r.events|
    requires r.events[i].Attempt? && r.events[i].g == g && r.events[j].Attempt? && r.events[j].g == g
    ensures exists m :: i < m < j && (r.events[m] == GiveUp(g) || r.events[m] == Unlock(g) || r.events[m] == Crash(g.proc))
  {
    assert r.StepAt(j);
    if forall m :: i < m < j ==> r.events[m] != GiveUp(g) && r.events[m] != Unlock(g) && r.events[m] != Crash(g.proc) {
      AttemptGoesOn(r, i, j, g);
    }
  }

  /** A lease is only ever prolonged by a refresh of the section that obtained it. */
  lemma {:induction false} OnlyRefreshProlongs(r: Run, m: nat, t: Token) returns (u: nat, w: nat)
    requires r.Valid() && m < |r.events| && Live(r.states[m], t) && Live(r.states[m + 1], t)
    requires Expiry(r.states[m + 1], t) != Expiry(r.states[m], t)
    ensures w < u < m && r.events[u] == Refresh(t)
    ensures t in r.states[w].issuer && r.events[w] == Enter(r.states[w].issuer[t])
  {
    assert r.StepAt(m);
    InvAt(r, m);
    TokenStep(r.cfg, r.states[m], r.events[m], t);
    u, w := ExtensionOrigin(r, m, t);
  }

  /** After a crash nothing of the process is left but what the server knows; other processes are as before. */
  lemma {:induction false} CrashTakesAll(c: Config, s: State, p: nat, g: Section, t: Token)
    requires Inv(c, s)
    ensures var s' := Apply(c, s, Crash(p));
      && s'.locks == s.locks && s'.pending == s.pending && s'.now == s.now
      && (g in s'.phase <==> g in s.phase && g.proc != p) && (g in s'.phase ==> s'.phase[g] == s.phase[g])
      && (Records(s', ObjectOf(g), t) <==> Records(s, ObjectOf(g), t) && g.proc != p)
      && (t in s'.refreshing <==> t in s.refreshing && s.issuer[t].proc != p)
  {
  }

  /** A lease that nobody extends runs out at the expiry it had. */
  lemma {:induction false} LeaseRunsOut(r: Run, i: nat, j: nat, t: Token)
    requires r.Valid() && i <= j < |r.states| && !r.cfg.retries && Live(r.states[i], t)
    requires forall m :: i <= m < j ==> r.events[m] != ServeExtend(t)
    ensures Live(r.states[j], t) ==> Expiry(r.states[j], t) == Expiry(r.states[i], t)
    ensures r.states[j].now >= Expiry(r.states[i], t) ==> !Live(r.states[j], t)
  {
    hide Apply, Enabled;
    if i < j {
      LeaseRunsOut(r, i, j - 1, t);
      InvAt(r, j - 1);
      assert r.StepAt(j - 1);
      if Live(r.states[j - 1], t) {
        TokenStep(r.cfg, r.states[j - 1], r.events[j - 1], t);
      } else {
        GrantedStays(r, i, j - 1, t);
        GoneForever(r, j - 1, j, t);
      }
    }
  }

  /**
   The lock of a crashed process frees itself: no refresh of its token is sent any more,
   and unless an extension sent before the crash is served after it, the token is gone when
   the lease it had runs out, one TTL after the crash at the latest.
   */
  lemma {:induction false} CrashFreesLock(r: Run, i: nat, j: nat, t: Token)
    requires r.Valid() && i < j < |r.states| && !r.cfg.retries && Live(r.states[i], t)
    requires r.events[i] == Crash(r.states[i].issuer[t].proc)
    requires forall m :: i <= m < j ==> r.events[m] != ServeExtend(t)
    ensures forall m :: i <= m < j ==> r.events[m] != Refresh(t)
    ensures r.states[j].now >= r.states[i].now + TTL ==> !Live(r.states[j], t)
  {
    InvAt(r, i);
    assert r.StepAt(i) && LockOk(r.states[i], r.states[i].issuer[t].key);
    forall m | i <= m < j ensures r.events[m] != Refresh(t) {
      if m > i {
        OrphanStays(r, i + 1, m, t);
        assert r.StepAt(m);
      }
    }
    LeaseRunsOut(r, i, j, t);
  }
}
