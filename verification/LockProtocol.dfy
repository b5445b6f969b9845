/**
 The distributed certificate lock of certificate/store_redis.go as a transition system.

 One Redis server holds `key -> (token, expiry)` and a clock. Any number of processes
 run any number of `Lock`/`Unlock` sections over it. A request is sent in one step and
 served in another, at any later time or never; replies may be lost; processes may
 crash at any point. An expired entry counts as absent, as it does in Redis.

 `Refresh` is enabled for every token whose refresh goroutine was ever started by a
 live process, whether or not its stop channel has been closed: the goroutine may
 already have chosen its ticker when the channel closes, and it goes on after a failed
 extension. Extensions and releases that were sent may be served any number of times.
 */
module LockProtocol {
  import opened Text

  type Token = string

  // Times are in milliseconds.
  const TTL: int := 60_000
  const RENEW_INTERVAL: int := TTL / 3
  const OPERATION_TIMEOUT: int := 5_000

  /** Whether the Redis client library may send a SETNX again after a network error. */
  datatype Config = Config(retries: bool)

  /** One Lock ... Unlock bracket run by a goroutine of a process on a lock key. */
  datatype Section = Section(proc: nat, id: nat, key: string)

  /** A redisLock: each process has one per lock key, shared by its goroutines. */
  datatype Object = Object(proc: nat, key: string)

  function ObjectOf(g: Section): Object {
    Object(g.proc, g.key)
  }

  datatype Entry = Entry(token: Token, expiry: int)

  /** A SETNX request: the first one of a token is copy 0, resent ones have other numbers. */
  datatype Request = Request(token: Token, copy: nat)

  /** Where a section is: sleeping between attempts, waiting for a SETNX reply, or past Lock. */
  datatype Phase = Between | Waiting(token: Token) | Inside(token: Token)

  datatype State = State(
    now: int,
    locks: map<string, Entry>,        // the server's lock keys
    issuer: map<Token, Section>,      // every token generated so far, and by which section
    pending: set<Request>,            // SETNX requests on their way to the server
    granted: set<Token>,              // SETNX requests the server has answered with true
    entered: set<Token>,              // tokens with which a Lock call has returned
    phase: map<Section, Phase>,       // sections that have started and not ended
    recorded: map<Object, Token>,     // redisLock.token, absent when empty
    refreshing: set<Token>,           // tokens with a refresh goroutine
    extensions: set<Token>,              // extension requests sent
    releases: set<Token>)             // release requests sent

  datatype Event =
    | Tick(d: nat)
    | Attempt(g: Section, token: Token)  // newLockToken, then SETNX is sent
    | Resend(token: Token, copy: nat)    // the client library sends the same SETNX again
    | ServeSetNX(token: Token, copy: nat)
    | GiveUp(g: Section)                 // reply false, error or timeout: sleep and retry
    | Enter(g: Section)                  // reply true: the token is recorded and Lock returns
    | Refresh(token: Token)
    | ServeExtend(token: Token)
    | Unlock(g: Section)
    | ServeRelease(token: Token)
    | Crash(proc: nat)

  // ---- the server ----

  /** GET: an expired key is absent. */
  function Current(s: State, k: string): Option<Token> {
    if k in s.locks && s.now < s.locks[k].expiry then Some(s.locks[k].token) else None
  }

  /** SET key token NX PX ttl. */
  function SetNX(s: State, k: string, t: Token): State {
    if Current(s, k).Some? then s
    else s.(locks := s.locks[k := Entry(t, s.now + TTL)], granted := s.granted + {t})
  }

  /** extendLockScript. */
  function ExtendScript(s: State, k: string, t: Token): State {
    if Current(s, k) == Some(t) then s.(locks := s.locks[k := Entry(t, s.now + TTL)]) else s
  }

  /** releaseLockScript. */
  function ReleaseScript(s: State, k: string, t: Token): State {
    if Current(s, k) == Some(t) then s.(locks := s.locks - {k}) else s
  }

  // ---- the transition system ----

  /** The SETNX call with this token has not returned yet; the client library resends only within that call. */
  predicate AwaitsReply(s: State, t: Token) {
    t in s.issuer && s.issuer[t] in s.phase && s.phase[s.issuer[t]] == Waiting(t)
  }

  ghost predicate Enabled(c: Config, s: State, e: Event) {
    match e
    case Tick(_) => true
    case Attempt(g, t) => (g !in s.phase || s.phase[g].Between?) && t !in s.issuer
    case Resend(t, n) => c.retries && AwaitsReply(s, t) && n > 0 && Request(t, n) !in s.pending
    case ServeSetNX(t, n) => Request(t, n) in s.pending && t in s.issuer
    case GiveUp(g) => g in s.phase && s.phase[g].Waiting?
    case Enter(g) => g in s.phase && s.phase[g].Waiting? && s.phase[g].token in s.granted
    case Refresh(t) => t in s.refreshing
    case ServeExtend(t) => t in s.extensions && t in s.issuer
    case Unlock(g) => g in s.phase && s.phase[g].Inside?
    case ServeRelease(t) => t in s.releases && t in s.issuer
    case Crash(_) => true
  }

  ghost function Apply(c: Config, s: State, e: Event): State
    requires Enabled(c, s, e)
  {
    match e
    case Tick(d) => s.(now := s.now + d)
    case Attempt(g, t) =>
      s.(issuer := s.issuer[t := g], pending := s.pending + {Request(t, 0)}, phase := s.phase[g := Waiting(t)])
    case Resend(t, n) => s.(pending := s.pending + {Request(t, n)})
    case ServeSetNX(t, n) => SetNX(s.(pending := s.pending - {Request(t, n)}), s.issuer[t].key, t)
    case GiveUp(g) => s.(phase := s.phase[g := Between])
    case Enter(g) =>
      var t := s.phase[g].token;
      s.(phase := s.phase[g := Inside(t)], recorded := s.recorded[ObjectOf(g) := t],
         entered := s.entered + {t}, refreshing := s.refreshing + {t})
    case Refresh(t) => s.(extensions := s.extensions + {t})
    case ServeExtend(t) => ExtendScript(s, s.issuer[t].key, t)
    case Unlock(g) =>
      var ended := s.(phase := s.phase - {g}, recorded := s.recorded - {ObjectOf(g)});
      // Unlock releases whatever token the object records, and nothing when it records none.
      if ObjectOf(g) in s.recorded then ended.(releases := s.releases + {s.recorded[ObjectOf(g)]}) else ended
    case ServeRelease(t) => ReleaseScript(s, s.issuer[t].key, t)
    case Crash(p) =>
      s.(phase := map g | g in s.phase && g.proc != p :: s.phase[g],
         recorded := map o | o in s.recorded && o.proc != p :: s.recorded[o],
         refreshing := set t | t in s.refreshing && t in s.issuer && s.issuer[t].proc != p)
  }

  function Init(now: int): State {
    State(now, map[], map[], {}, {}, {}, map[], map[], {}, {}, {})
  }

  datatype Run = Run(cfg: Config, states: seq<State>, events: seq<Event>) {

    ghost predicate StepAt(i: nat)
      requires i < |events| && |states| == |events| + 1
    {
      Enabled(cfg, states[i], events[i]) && states[i + 1] == Apply(cfg, states[i], events[i])
    }

    ghost predicate Valid() {
      && |states| == |events| + 1
      && states[0] == Init(states[0].now)
      && forall i :: 0 <= i < |events| ==> StepAt(i)
    }
  }

  // ---- what every run keeps ----

  /** A section's token was generated by that section. */
  predicate PhaseOk(s: State, g: Section)
    requires g in s.phase
  {
    match s.phase[g]
    case Between => true
    case Waiting(t) => t in s.issuer && s.issuer[t] == g && t !in s.entered
    case Inside(t) => t in s.issuer && s.issuer[t] == g && t in s.entered
  }

  /** A lock key only ever holds a granted token that was generated for that key, for at most one TTL. */
  predicate LockOk(s: State, k: string)
    requires k in s.locks
  {
    var t := s.locks[k].token;
    t in s.issuer && s.issuer[t].key == k && t in s.granted && s.locks[k].expiry <= s.now + TTL
  }

  /** A redisLock only ever records a token its own process generated for its own key. */
  predicate RecordOk(s: State, o: Object)
    requires o in s.recorded
  {
    var t := s.recorded[o];
    t in s.issuer && ObjectOf(s.issuer[t]) == o && t in s.entered
  }

  ghost predicate LocksOk(s: State) {
    forall k :: k in s.locks ==> LockOk(s, k)
  }

  ghost predicate PhasesOk(s: State) {
    forall g :: g in s.phase ==> PhaseOk(s, g)
  }

  ghost predicate RecordsOk(s: State) {
    forall o :: o in s.recorded ==> RecordOk(s, o)
  }

  ghost predicate RequestsOk(c: Config, s: State) {
    && (forall x :: x in s.pending ==> x.token in s.issuer)
    && s.granted <= s.issuer.Keys
    && (!c.retries ==> forall x :: x in s.pending ==> x.copy == 0 && x.token !in s.granted)
    && s.entered <= s.granted
    && s.refreshing <= s.entered && s.extensions <= s.entered && s.releases <= s.entered
  }

  ghost predicate Inv(c: Config, s: State) {
    LocksOk(s) && PhasesOk(s) && RecordsOk(s) && RequestsOk(c, s)
  }

  /** Tokens keep their issuer, and grants are never taken back. */
  lemma {:induction false} HistoryGrows(c: Config, s: State, e: Event)
    requires Enabled(c, s, e)
    ensures var s' := Apply(c, s, e);
      && s.granted <= s'.granted && s.entered <= s'.entered
      && s.now <= s'.now
      && forall t :: t in s.issuer ==> t in s'.issuer && s'.issuer[t] == s.issuer[t]
  {
  }

  lemma {:induction false} LocksStep(c: Config, s: State, e: Event)
    requires LocksOk(s) && RequestsOk(c, s) && Enabled(c, s, e)
    ensures LocksOk(Apply(c, s, e))
  {
    var s' := Apply(c, s, e);
    HistoryGrows(c, s, e);
    forall k | k in s'.locks ensures LockOk(s', k) {
      if k in s.locks {
        assert LockOk(s, k);
      }
    }
  }

  lemma {:induction false} PhasesStep(c: Config, s: State, e: Event)
    requires PhasesOk(s) && RequestsOk(c, s) && Enabled(c, s, e)
    ensures PhasesOk(Apply(c, s, e))
  {
    var s' := Apply(c, s, e);
    HistoryGrows(c, s, e);
    if e.Enter? {
      assert PhaseOk(s, e.g);
    }
    forall g | g in s'.phase ensures PhaseOk(s', g) {
      if g in s.phase {
        assert PhaseOk(s, g);
      }
    }
  }

  lemma {:induction false} RecordsStep(c: Config, s: State, e: Event)
    requires PhasesOk(s) && RecordsOk(s) && Enabled(c, s, e)
    ensures RecordsOk(Apply(c, s, e))
  {
    var s' := Apply(c, s, e);
    HistoryGrows(c, s, e);
    if e.Enter? {
      assert PhaseOk(s, e.g);
    }
    forall o | o in s'.recorded ensures RecordOk(s', o) {
      if o in s.recorded {
        assert RecordOk(s, o);
      }
    }
  }

  lemma {:induction false} RequestsStep(c: Config, s: State, e: Event)
    requires Inv(c, s) && Enabled(c, s, e)
    ensures RequestsOk(c, Apply(c, s, e))
  {
    if e.Enter? {
      assert PhaseOk(s, e.g);
    } else if e.Unlock? && ObjectOf(e.g) in s.recorded {
      assert RecordOk(s, ObjectOf(e.g));
    }
  }

  lemma {:induction false} InvStep(c: Config, s: State, e: Event)
    requires Inv(c, s) && Enabled(c, s, e)
    ensures Inv(c, Apply(c, s, e))
  {
    LocksStep(c, s, e);
    PhasesStep(c, s, e);
    RecordsStep(c, s, e);
    RequestsStep(c, s, e);
  }

  lemma {:induction false} InvAt(r: Run, i: nat)
    requires r.Valid() && i < |r.states|
    ensures Inv(r.cfg, r.states[i])
  {
    if i > 0 {
      InvAt(r, i - 1);
      assert r.StepAt(i - 1);
      InvStep(r.cfg, r.states[i - 1], r.events[i - 1]);
    }
  }
}
