/**
 Lock runs and save runs as one: many instances lock, read and save certificates on one
 Redis server. While a section is inside, nobody else writes the field of its
 certificate, so what it read is what it replaces.
 */
module SectionSaves {
  import opened Text
  import opened Names
  import opened Certificates
  import P = LockProtocol
  import R = RedisStore
  import S = LockSafety
  import W = SaveProtocol

  /**
   A run of the lock and a run of the saves on one clock: save step `i` happens in state
   `at[i]` of the lock. Every save call belongs to a section that locks the names of the
   certificate it saves.
   */
  datatype Joint = Joint(prefix: string, locks: P.Run, saves: W.Run, at: seq<nat>, owner: map<nat, P.Section>) {

    ghost predicate Interleaved()
      requires saves.Valid()
    {
      && |at| == |saves.events|
      && (forall i :: 0 <= i < |at| ==> at[i] < |locks.states|)
      && (forall i, j :: 0 <= i < j < |at| ==> at[i] <= at[j])
      && (forall i :: 0 <= i < |at| && !saves.events[i].Tick? ==> saves.states[i].now == locks.states[at[i]].now)
    }

    ghost predicate Owns(id: nat, cert: Details) {
      id in owner && owner[id].key == LockKey(prefix, cert.subject, cert.altNames)
    }

    ghost predicate Owned(i: nat)
      requires i < |saves.states|
    {
      forall id :: id in saves.states[i].calls ==> Owns(id, saves.states[i].calls[id].cert)
    }

    ghost predicate Valid() {
      && locks.Valid() && saves.Valid() && Interleaved()
      && (forall i :: 0 <= i < |saves.states| ==> Owned(i))
    }

    /** Step `i`, if it is a transaction taking effect, happens while its section is past Lock. */
    ghost predicate InsideAt(i: nat)
      requires Valid() && i < |saves.events|
    {
      saves.events[i].Execute? ==>
        saves.events[i].id in owner && S.PastLock(locks.states[at[i]], owner[saves.events[i].id])
    }

    /** Every transaction takes effect while its section is past Lock. */
    ghost predicate TransactionsInside()
      requires Valid()
    {
      forall i :: 0 <= i < |saves.events| ==> InsideAt(i)
    }

    /** No call in progress at step `i` is of a supplier whose name clashes with this one. */
    ghost predicate NoClashAt(i: nat, provider: string)
      requires i < |saves.states|
    {
      forall id :: id in saves.states[i].calls ==> !Clash(saves.states[i].calls[id].cert.provider, provider)
    }
  }

  /** The lock for a certificate's names. */
  predicate Locks(j: Joint, g: P.Section, d: Details) {
    g.key == LockKey(j.prefix, d.subject, d.altNames)
  }

  /** Whoever sets the field of a certificate while a section is past its lock is that section. */
  lemma {:induction false} OnlyTheSectionWrites(j: Joint, g: P.Section, d: Details, i: nat)
    requires j.Valid() && S.WellRefreshed(j.locks) && j.TransactionsInside()
    requires i < |j.saves.events| && j.NoClashAt(i, d.provider) && W.Sets(j.saves, i, d.Key())
    requires S.PastLock(j.locks.states[j.at[i]], g) && Locks(j, g, d)
    ensures j.saves.events[i].id in j.owner && j.owner[j.saves.events[i].id] == g
  {
    hide S.WellRefreshed, NamesKey, CertificateKey, Clash;
    var id := j.saves.events[i].id;
    var cert := j.saves.states[i].calls[id].cert;
    assert j.InsideAt(i) && j.Owned(i) && j.Owns(id, cert);
    FieldDeterminesLock(cert.provider, cert.subject, cert.altNames, d.provider, d.subject, d.altNames);
    S.OneInside(j.locks, j.at[i], g, j.owner[id]);
  }

  /** Step `m` happens while the section is inside, and is not the section's own transaction on that field. */
  ghost predicate Watching(j: Joint, g: P.Section, d: Details, m: nat)
    requires j.Valid() && m < |j.saves.events|
  {
    && S.PastLock(j.locks.states[j.at[m]], g) && j.NoClashAt(m, d.provider)
    && !(W.Sets(j.saves, m, d.Key()) && j.saves.events[m].id in j.owner && j.owner[j.saves.events[m].id] == g)
  }

  /** What a section saw in the field of its certificate: the same, gone because it had expired, or still nothing. */
  ghost predicate Unchanged(j: Joint, f: string, i: nat, k: nat)
    requires i < |j.saves.states| && k < |j.saves.states|
  {
    var h, h' := j.saves.states[i].hash, j.saves.states[k].hash;
    if f in h then (f in h' && h'[f] == h[f]) || R.Prunable(j.saves.dec, h[f], j.saves.states[k].now) else f !in h'
  }

  lemma {:induction false} NothingAppears(r: W.Run, i: nat, k: nat, f: string)
    requires r.Valid() && i <= k < |r.states| && f !in r.states[i].hash
    ensures f !in r.states[k].hash || W.SetBetween(r, i, k, f)
  {
    if i < k {
      NothingAppears(r, i, k - 1, f);
      assert r.StepAt(k - 1);
      if W.SetBetween(r, i, k - 1, f) {
        var m :| i <= m < k - 1 && W.Sets(r, m, f);
        assert W.SetBetween(r, i, k, f);
      } else if f in r.states[k].hash {
        assert W.Sets(r, k - 1, f);
      }
    }
  }

  /**
   Read and save are atomic: in a run in which refreshing works and transactions take
   effect while their sections are inside, from any moment a section is past Lock until its
   own transaction, no other call of any instance sets the field of its certificate. What
   it read there is what its transaction replaces, unless it expired meanwhile.
   */
  lemma {:induction false} ReadAndSaveAreAtomic(j: Joint, g: P.Section, d: Details, i: nat, k: nat)
    requires j.Valid() && S.WellRefreshed(j.locks) && j.TransactionsInside() && Locks(j, g, d)
    requires i <= k < |j.saves.states| && forall m :: i <= m < k ==> Watching(j, g, d, m)
    ensures !W.SetBetween(j.saves, i, k, d.Key())
    ensures Unchanged(j, d.Key(), i, k)
  {
    hide S.WellRefreshed, Details.Key;
    var f := d.Key();
    if W.SetBetween(j.saves, i, k, f) {
      var m :| i <= m < k && W.Sets(j.saves, m, f);
      assert Watching(j, g, d, m);
      OnlyTheSectionWrites(j, g, d, m);
      assert false;
    }
    if f in j.saves.states[i].hash {
      W.FieldPersists(j.saves, i, k, f);
    } else {
      NothingAppears(j.saves, i, k, f);
    }
  }

  // ---- a transaction that takes effect too late ----

  const CERT_A := Details("p", "s", [], 10, 0, false, 0, 0, "a")
  const CERT_B := Details("p", "s", [], 10, 0, false, 0, 0, "b")

  /** Sections of two processes, one after the other, on the lock for those names. */
  function First(): P.Section {
    P.Section(0, 0, LockKey("", "s", []))
  }

  function Second(): P.Section {
    P.Section(1, 0, LockKey("", "s", []))
  }

  function LockEvent(i: nat): P.Event
    requires i < 8
  {
    match i
    case 0 => P.Attempt(First(), "t")
    case 1 => P.ServeSetNX("t", 0)
    case 2 => P.Enter(First())
    case 3 => P.Unlock(First())
    case 4 => P.ServeRelease("t")
    case 5 => P.Attempt(Second(), "u")
    case 6 => P.ServeSetNX("u", 0)
    case 7 => P.Enter(Second())
  }

  function LockState(i: nat): P.State
    requires i < 9
  {
    var g, h := First(), Second();
    var one, two := map["t" := g], map["t" := g, "u" := h];
    var kt, ku := map[g.key := P.Entry("t", P.TTL)], map[g.key := P.Entry("u", P.TTL)];
    match i
    case 0 => P.Init(0)
    case 1 => P.State(0, map[], one, {P.Request("t", 0)}, {}, {}, map[g := P.Waiting("t")], map[], {}, {}, {})
    case 2 => P.State(0, kt, one, {}, {"t"}, {}, map[g := P.Waiting("t")], map[], {}, {}, {})
    case 3 => P.State(0, kt, one, {}, {"t"}, {"t"}, map[g := P.Inside("t")], map[P.ObjectOf(g) := "t"], {"t"}, {}, {})
    case 4 => P.State(0, kt, one, {}, {"t"}, {"t"}, map[], map[], {"t"}, {}, {"t"})
    case 5 => LockState(4).(locks := map[])
    case 6 => P.State(0, map[], two, {P.Request("u", 0)}, {"t"}, {"t"}, map[h := P.Waiting("u")], map[], {"t"}, {}, {"t"})
    case 7 => LockState(6).(locks := ku, pending := {}, granted := {"t", "u"})
    case 8 => P.State(0, ku, two, {}, {"t", "u"}, {"t", "u"}, map[h := P.Inside("u")], map[P.ObjectOf(h) := "u"], {"t", "u"}, {}, {"t"})
  }

  ghost predicate LockStep(i: nat)
    requires i < 8
  {
    var c := P.Config(false);
    P.Enabled(c, LockState(i), LockEvent(i)) && LockState(i + 1) == P.Apply(c, LockState(i), LockEvent(i))
  }

  lemma {:induction false} LockStepsFirst(i: nat)
    requires i < 3
    ensures LockStep(i)
  {
    hide LockKey;
  }

  lemma {:induction false} LockStepsBetween(i: nat)
    requires 3 <= i < 6
    ensures LockStep(i)
  {
    hide LockKey;
  }

  lemma {:induction false} LockStepsSecond(i: nat)
    requires 6 <= i < 8
    ensures LockStep(i)
  {
    hide LockKey;
  }

  lemma {:induction false} LateLocks() returns (r: P.Run)
    ensures r.Valid() && |r.states| == 9 && !r.cfg.retries
    ensures forall i :: 0 <= i < 9 ==> r.states[i] == LockState(i)
    ensures forall i :: 0 <= i < 8 ==> r.events[i] == LockEvent(i)
  {
    hide LockKey, LockState, LockEvent;
    r := P.Run(P.Config(false), seq(9, i requires 0 <= i < 9 => LockState(i)), seq(8, i requires 0 <= i < 8 => LockEvent(i)));
    forall i | 0 <= i < 8 ensures r.StepAt(i) {
      if i < 3 { LockStepsFirst(i); } else if i < 6 { LockStepsBetween(i); } else { LockStepsSecond(i); }
    }
    LockStarts();
  }

  lemma {:induction false} LockStarts()
    ensures LockState(0) == P.Init(0)
  {
  }

  lemma {:induction false} NoTimePasses(i: nat)
    requires i < 9
    ensures LockState(i).now == 0
  {
    hide LockKey;
  }

  lemma {:induction false} EntersAt(i: nat)
    requires i < 8 && LockEvent(i).Enter?
    ensures i == 2 || i == 7
    ensures i == 2 ==> LockEvent(i) == P.Enter(First()) && LockState(2).phase == map[First() := P.Waiting("t")]
    ensures i == 7 ==> LockEvent(i) == P.Enter(Second()) && LockState(7).phase == map[Second() := P.Waiting("u")]
  {
    hide LockKey;
  }

  lemma {:induction false} GrantedAtOnce()
    ensures S.Live(LockState(2), "t") && S.Expiry(LockState(2), "t") == P.TTL
    ensures S.Live(LockState(7), "u") && S.Expiry(LockState(7), "u") == P.TTL
  {
    hide LockKey;
  }

  /** Nothing is wrong with the lock in this run. */
  lemma {:induction false} LateLocksAreWell(r: P.Run)
    requires r.Valid() && |r.states| == 9
    requires forall i :: 0 <= i < 9 ==> r.states[i] == LockState(i)
    requires forall i :: 0 <= i < 8 ==> r.events[i] == LockEvent(i)
    ensures S.WellRefreshed(r)
  {
    hide LockKey, LockState, LockEvent, S.Live, S.Expiry;
    forall g, t, i: nat, m: nat | 0 <= i < m <= |r.events| && S.Stays(r, g, t, i, m)
      ensures S.EnteredInTime(r, t, i) && S.NoTwoFailures(r, t, r.states[i].now, m)
    {
      EntersAt(i);
      NoTimePasses(i);
      NoTimePasses(m);
      GrantedAtOnce();
      if i == 2 {
        NoTimePasses(1);
        assert S.GrantedInTime(r, t, 1, 2);
      } else {
        NoTimePasses(6);
        assert S.GrantedInTime(r, t, 6, 7);
      }
    }
  }

  function Decoding(raw: string): Option<Details> {
    Some(if raw == "a" then CERT_A else CERT_B)
  }

  function SaveEvent(i: nat): W.Event
    requires i < 6
  {
    match i
    case 0 => W.Read(0, CERT_A, "a")
    case 1 => W.Decide(0)
    case 2 => W.Read(1, CERT_B, "b")
    case 3 => W.Execute(0)
    case 4 => W.Decide(1)
    case 5 => W.Execute(1)
  }

  function SaveState(i: nat): W.State
    requires i < 7
  {
    var f := CERT_A.Key();
    var done := W.Decided(CERT_A, "a", map[]);
    match i
    case 0 => W.State(0, map[], map[])
    case 1 => W.State(0, map[], map[0 := W.HasRead(CERT_A, "a", map[])])
    case 2 => W.State(0, map[], map[0 := done])
    case 3 => W.State(0, map[], map[0 := done, 1 := W.HasRead(CERT_B, "b", map[])])
    case 4 => SaveState(3).(hash := map[f := "a"])
    case 5 => W.State(0, map[f := "a"], map[0 := done, 1 := W.Decided(CERT_B, "b", map[])])
    case 6 => SaveState(5).(hash := map[f := "b"])
  }

  ghost predicate SaveStep(i: nat)
    requires i < 6
  {
    W.Enabled(Decoding, SaveState(i), SaveEvent(i)) && SaveState(i + 1) == W.Apply(Decoding, SaveState(i), SaveEvent(i))
  }

  lemma {:induction false} SaveStepsFirst(i: nat)
    requires i < 3
    ensures SaveStep(i)
  {
    hide CertificateKey;
    assert R.PruneArgs(Decoding, map[], 0) == map[];
  }

  lemma {:induction false} SaveStepsSecond(i: nat)
    requires 3 <= i < 6
    ensures SaveStep(i)
  {
    hide CertificateKey;
    var f := CERT_A.Key();
    assert CERT_B.Key() == f;
    assert R.PruneArgs(Decoding, map[], 0) == map[];
    assert R.PruneUnchanged(map[], map[]) == map[];
    assert R.PruneUnchanged(map[f := "a"], map[]) == map[f := "a"];
    assert map[f := "a"][f := "b"] == map[f := "b"];
  }

  lemma {:induction false} LateSaves() returns (r: W.Run)
    ensures r.Valid() && |r.states| == 7 && r.dec == Decoding
    ensures forall i :: 0 <= i < 7 ==> r.states[i] == SaveState(i)
    ensures forall i :: 0 <= i < 6 ==> r.events[i] == SaveEvent(i)
  {
    hide CertificateKey, SaveState, SaveEvent;
    r := W.Run(Decoding, seq(7, i requires 0 <= i < 7 => SaveState(i)), seq(6, i requires 0 <= i < 6 => SaveEvent(i)));
    forall i | 0 <= i < 6 ensures r.StepAt(i) {
      if i < 3 { SaveStepsFirst(i); } else { SaveStepsSecond(i); }
    }
    SaveStarts();
  }

  lemma {:induction false} SaveStarts()
    ensures SaveState(0).calls == map[]
  {
  }

  lemma {:induction false} SaveCalls(i: nat, id: nat)
    requires i < 7
    ensures SaveState(i).now == 0
    ensures id in SaveState(i).calls ==> id < 2 && (SaveState(i).calls[id].cert == if id == 0 then CERT_A else CERT_B)
  {
    hide CertificateKey;
  }

  lemma {:induction false} SecondIsInside()
    ensures S.PastLock(LockState(8), Second()) && !S.PastLock(LockState(8), First())
  {
    hide LockKey;
  }

  lemma {:induction false} LateFields()
    ensures var f := CERT_A.Key();
      SaveState(2).hash == map[] && SaveState(5).hash == map[f := "a"] && SaveState(6).hash == map[f := "b"]
  {
    hide CertificateKey;
  }

  /** The joint run: the first section decides what to save while inside, but the server gets to its transaction late. */
  lemma {:induction false} LateRun() returns (j: Joint)
    ensures j.Valid() && j.prefix == "" && j.saves.dec == Decoding && j.at == [3, 3, 8, 8, 8, 8]
    ensures j.owner == map[0 := First(), 1 := Second()]
    ensures |j.locks.states| == 9 && |j.saves.states| == 7 && S.WellRefreshed(j.locks)
    ensures forall i :: 0 <= i < 9 ==> j.locks.states[i] == LockState(i)
    ensures forall i :: 0 <= i < 7 ==> j.saves.states[i] == SaveState(i)
    ensures forall i :: 0 <= i < 6 ==> j.saves.events[i] == SaveEvent(i)
  {
    hide LockKey, CertificateKey, LockState, LockEvent, SaveState, SaveEvent, S.WellRefreshed;
    var locks := LateLocks();
    var saves := LateSaves();
    LateLocksAreWell(locks);
    j := Joint("", locks, saves, [3, 3, 8, 8, 8, 8], map[0 := First(), 1 := Second()]);
    NoTimePasses(3);
    NoTimePasses(8);
    forall i | 0 <= i < 7 ensures j.Owned(i) && saves.states[i].now == 0 {
      SaveCalls(i, 0);
      forall id | id in saves.states[i].calls ensures j.Owns(id, saves.states[i].calls[id].cert) {
        SaveCalls(i, id);
      }
    }
  }

  /**
   Without the condition on transactions: the lock works all the time, but the transaction
   of the first section takes effect after it has unlocked and the second section has read.
   The second section found no certificate, and replaces the first one's unexpired one.
   */
  lemma {:induction false} LateTransactionIsOverwritten() returns (j: Joint)
    ensures j.Valid() && S.WellRefreshed(j.locks) && |j.saves.events| == 6
    ensures forall i :: 0 <= i < 6 ==> (j.InsideAt(i) <==> i != 3)
    ensures forall i :: 2 <= i < 6 ==> S.PastLock(j.locks.states[j.at[i]], Second())
    ensures Locks(j, Second(), CERT_B) && CERT_A.Key() == CERT_B.Key() && CERT_A.ValidFor(j.saves.states[6].now, 0)
    ensures CERT_B.Key() !in j.saves.states[2].hash
    ensures R.Holds(j.saves.dec, j.saves.states[5].hash, CERT_A) && R.Holds(j.saves.dec, j.saves.states[6].hash, CERT_B)
  {
    hide LockKey, CertificateKey, LockState, SaveState, S.WellRefreshed, S.PastLock;
    j := LateRun();
    SecondIsInside();
    LateFields();
    SaveCalls(6, 0);
    assert CERT_A.Key() == CERT_B.Key();
    forall i | 0 <= i < 6 ensures j.InsideAt(i) <==> i != 3 {
      assert j.saves.events[i] == SaveEvent(i);
    }
  }
}
