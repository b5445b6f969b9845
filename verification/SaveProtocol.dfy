/**
 Concurrent `SaveCertificate` calls on one Redis hash (certificate/store_redis.go). Each
 call reads all entries, decides at some later time which of them to prune, and later
 still has one transaction executed that prunes what is unchanged and sets its own
 field. Any number of calls interleave, none need ever finish, and a transaction may be
 executed more than once when the client library sends it again.
 */
module SaveProtocol {
  import opened Text
  import opened Certificates
  import opened RedisStore

  datatype Call =
    | HasRead(cert: Details, raw: string, snapshot: Hash)
    | Decided(cert: Details, raw: string, prune: Hash)

  datatype State = State(now: int, hash: Hash, calls: map<nat, Call>)

  datatype Event =
    | Tick(d: nat)
    | Read(id: nat, cert: Details, raw: string)   // storedCertificates
    | Decide(id: nat)                             // the ValidFor(0) tests
    | Execute(id: nat)                            // the transaction, on the server

  ghost predicate Enabled(dec: Decoder, s: State, e: Event) {
    match e
    case Tick(_) => true
    case Read(id, cert, raw) => id !in s.calls && dec(raw) == Some(cert)
    case Decide(id) => id in s.calls && s.calls[id].HasRead?
    case Execute(id) => id in s.calls && s.calls[id].Decided?
  }

  ghost function Apply(dec: Decoder, s: State, e: Event): State
    requires Enabled(dec, s, e)
  {
    match e
    case Tick(d) => s.(now := s.now + d)
    case Read(id, cert, raw) => s.(calls := s.calls[id := HasRead(cert, raw, s.hash)])
    case Decide(id) =>
      var c := s.calls[id];
      s.(calls := s.calls[id := Decided(c.cert, c.raw, PruneArgs(dec, c.snapshot, s.now))])
    case Execute(id) =>
      var c := s.calls[id];
      s.(hash := Commit(s.hash, c.prune, c.cert.Key(), c.raw))
  }

  datatype Run = Run(dec: Decoder, states: seq<State>, events: seq<Event>) {

    ghost predicate StepAt(i: nat)
      requires i < |events| && |states| == |events| + 1
    {
      Enabled(dec, states[i], events[i]) && states[i + 1] == Apply(dec, states[i], events[i])
    }

    /** Runs start without calls in progress, from any hash, even one with undecodable entries. */
    ghost predicate Valid() {
      && |states| == |events| + 1
      && states[0].calls == map[]
      && forall i :: 0 <= i < |events| ==> StepAt(i)
    }
  }

  /** What a call means to prune could be pruned at any time from now on: a value's expiry is part of the value. */
  ghost predicate CallOk(dec: Decoder, s: State, id: nat)
    requires id in s.calls
  {
    var c := s.calls[id];
    && dec(c.raw) == Some(c.cert)
    && (c.Decided? ==> forall f :: f in c.prune ==> Prunable(dec, c.prune[f], s.now))
  }

  ghost predicate Inv(dec: Decoder, s: State) {
    forall id :: id in s.calls ==> CallOk(dec, s, id)
  }

  lemma {:induction false} InvStep(dec: Decoder, s: State, e: Event)
    requires Inv(dec, s) && Enabled(dec, s, e)
    ensures Inv(dec, Apply(dec, s, e))
  {
    var s' := Apply(dec, s, e);
    forall id | id in s'.calls ensures CallOk(dec, s', id) {
      if id in s.calls {
        assert CallOk(dec, s, id);
      }
    }
  }

  lemma {:induction false} InvAt(r: Run, i: nat)
    requires r.Valid() && i < |r.states|
    ensures Inv(r.dec, r.states[i])
  {
    if i > 0 {
      InvAt(r, i - 1);
      assert r.StepAt(i - 1);
      InvStep(r.dec, r.states[i - 1], r.events[i - 1]);
    }
  }

  /** Execute step `i` sets field `f`. */
  ghost predicate Sets(r: Run, i: nat, f: string)
    requires r.Valid() && i < |r.events|
  {
    && r.StepAt(i)
    && r.events[i].Execute?
    && r.states[i].calls[r.events[i].id].cert.Key() == f
  }

  /**
   In every interleaving, a step that changes or removes a field either sets that field,
   or removes an entry that does not decode or has expired by the time of the step.
   */
  lemma {:induction false} NoLiveEntryIsPruned(r: Run, i: nat, f: string)
    requires r.Valid() && i < |r.events| && f in r.states[i].hash
    ensures || (f in r.states[i + 1].hash && r.states[i + 1].hash[f] == r.states[i].hash[f])
            || Sets(r, i, f)
            || (f !in r.states[i + 1].hash && Prunable(r.dec, r.states[i].hash[f], r.states[i].now))
  {
    InvAt(r, i);
    assert r.StepAt(i);
    var s, e := r.states[i], r.events[i];
    if e.Execute? {
      assert CallOk(r.dec, s, e.id);
    }
  }

  ghost predicate SetBetween(r: Run, i: nat, j: nat, f: string)
    requires r.Valid() && j < |r.states|
  {
    exists k :: i <= k < j && Sets(r, k, f)
  }

  lemma {:induction false} ClockMonotone(r: Run, i: nat, j: nat)
    requires r.Valid() && i <= j < |r.states|
    ensures r.states[i].now <= r.states[j].now
  {
    if i < j {
      ClockMonotone(r, i, j - 1);
      assert r.StepAt(j - 1);
    }
  }

  lemma {:induction false} FieldPersists(r: Run, i: nat, j: nat, f: string)
    requires r.Valid() && i <= j < |r.states| && f in r.states[i].hash
    ensures || (f in r.states[j].hash && r.states[j].hash[f] == r.states[i].hash[f])
            || Prunable(r.dec, r.states[i].hash[f], r.states[j].now)
            || SetBetween(r, i, j, f)
  {
    if i < j {
      FieldPersists(r, i, j - 1, f);
      ClockMonotone(r, j - 1, j);
      if SetBetween(r, i, j - 1, f) {
        var k :| i <= k < j - 1 && Sets(r, k, f);
        assert SetBetween(r, i, j, f);
      } else if f in r.states[j - 1].hash {
        NoLiveEntryIsPruned(r, j - 1, f);
      }
    }
  }

  /** A saved certificate stays until it expires or its own field is set again, whatever other saves do. */
  lemma {:induction false} SavedValuePersists(r: Run, i: nat, j: nat, d: Details)
    requires r.Valid() && i < j < |r.states|
    requires r.events[i].Execute? && r.events[i].id in r.states[i].calls && r.states[i].calls[r.events[i].id].cert == d
    ensures || Holds(r.dec, r.states[j].hash, d)
            || !d.ValidFor(r.states[j].now, 0)
            || SetBetween(r, i + 1, j, d.Key())
  {
    InvAt(r, i);
    assert r.StepAt(i);
    assert CallOk(r.dec, r.states[i], r.events[i].id);
    FieldPersists(r, i + 1, j, d.Key());
  }

  /** Fields keep naming what they hold, so lookups stay independent of the map's order. */
  lemma {:induction false} StaysKeyed(r: Run, j: nat)
    requires r.Valid() && j < |r.states| && Keyed(r.dec, r.states[0].hash)
    ensures Keyed(r.dec, r.states[j].hash)
  {
    if j > 0 {
      StaysKeyed(r, j - 1);
      assert r.StepAt(j - 1);
      InvAt(r, j - 1);
      if r.events[j - 1].Execute? {
        assert CallOk(r.dec, r.states[j - 1], r.events[j - 1].id);
      }
    }
  }

  /** A call that nothing interleaves with, in any state of the others, does exactly what the sequential Save does. */
  lemma {:induction false} UninterruptedCallIsSave(r: Run, i: nat, id: nat, d: Details, raw: string)
    requires r.Valid() && i + 3 <= |r.events|
    requires r.events[i..i + 3] == [Read(id, d, raw), Decide(id), Execute(id)]
    ensures r.states[i + 3].hash == Save(r.dec, r.states[i].hash, d, raw, r.states[i].now)
  {
    assert r.events[i] == r.events[i..i + 3][0] && r.events[i + 1] == r.events[i..i + 3][1] && r.events[i + 2] == r.events[i..i + 3][2];
    assert r.StepAt(i) && r.StepAt(i + 1) && r.StepAt(i + 2);
  }
}
