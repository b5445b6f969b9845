/**
 The manager over either store. CertManager describes it over the list of a JsonStore;
 here the same requests run over the hash of a RedisStore, and nobody can tell the
 difference as long as hash fields tell certificates apart and no request ends with the
 save of an expired certificate. Saves and reads are taken to succeed: a failed save still
 changes the list in memory, but not the hash.
 */
module ManagerStores {
  import opened Text
  import opened Certificates
  import opened CertManager
  import JsonStore
  import ManagerSafety
  import Redis = RedisStore

  type Encoder = Details -> string

  // ---- a request as its saves ----

  /** What a series of calls does to the list. */
  ghost function ListAfter(list: seq<Details>, calls: seq<Call>): seq<Details> {
    if calls == [] then list
    else
      var before, e := ListAfter(list, calls[..|calls| - 1]), calls[|calls| - 1];
      if e.Save? then JsonStore.Save(before, e.cert, e.time) else before
  }

  /** What it does to the hash. */
  ghost function HashAfter(dec: Redis.Decoder, enc: Encoder, h: Redis.Hash, calls: seq<Call>): Redis.Hash {
    if calls == [] then h
    else
      var before, e := HashAfter(dec, enc, h, calls[..|calls| - 1]), calls[|calls| - 1];
      if e.Save? then Redis.Save(dec, before, e.cert, enc(e.cert), e.time) else before
  }

  lemma {:induction false} ListAfterConcat(list: seq<Details>, a: seq<Call>, b: seq<Call>)
    ensures ListAfter(list, a + b) == ListAfter(ListAfter(list, a), b)
  {
    hide JsonStore.Save;
    if b == [] {
      assert a + b == a;
    } else {
      assert (a + b)[..|a + b| - 1] == a + b[..|b| - 1];
      ListAfterConcat(list, a, b[..|b| - 1]);
    }
  }

  lemma {:induction false} ListAfterOne(list: seq<Details>, e: Call)
    ensures ListAfter(list, [e]) == if e.Save? then JsonStore.Save(list, e.cert, e.time) else list
  {
    hide JsonStore.Save;
    assert [e][..0] == [] && ListAfter(list, []) == list;
  }

  lemma {:induction false} ListAfterTwo(list: seq<Details>, e: Call, f: Call)
    requires !e.Save?
    ensures ListAfter(list, [e, f]) == if f.Save? then JsonStore.Save(list, f.cert, f.time) else list
  {
    hide JsonStore.Save;
    assert [e, f][..1] == [e];
    ListAfterOne(list, e);
  }

  lemma {:induction false} ObtainIsSaves(c: Config, name: string, q: Request, list: seq<Details>)
    requires name in c.suppliers
    ensures var o := Obtain(c, name, q, list); o.list == ListAfter(list, o.calls)
  {
    hide JsonStore.Save, ListAfter;
    var o := Obtain(c, name, q, list);
    if |o.calls| == 1 {
      ListAfterOne(list, o.calls[0]);
    } else {
      assert o.calls == [o.calls[0]] + [o.calls[1], o.calls[2]];
      ListAfterConcat(list, [o.calls[0]], [o.calls[1], o.calls[2]]);
      ListAfterOne(list, o.calls[0]);
      ListAfterTwo(list, o.calls[1], o.calls[2]);
    }
  }

  lemma {:induction false} NoCalls(list: seq<Details>)
    ensures ListAfter(list, []) == list
  {
  }

  lemma {:induction false} MaintainIsSaves(c: Config, name: string, q: Request, cert: Details, list: seq<Details>)
    requires name in c.suppliers
    ensures var o := Maintain(c, name, q, cert, list); o.list == ListAfter(list, o.calls)
  {
    hide JsonStore.Save, ListAfter, Obtain;
    ObtainIsSaves(c, name, q, list);
    NoCalls(list);
    var o := StapleCert(c.suppliers[name], cert, q, list);
    if |o.calls| == 1 {
      ListAfterOne(list, o.calls[0]);
    } else {
      ListAfterTwo(list, o.calls[0], o.calls[1]);
    }
  }

  lemma {:induction false} RefreshIsSaves(c: Config, name: string, q: Request, cert: Details, list: seq<Details>)
    requires name in c.suppliers
    ensures var r := RefreshAri(c.suppliers[name], cert, q, list); r.list == ListAfter(list, r.calls)
  {
    hide JsonStore.Save, ListAfter;
    NoCalls(list);
    var r := RefreshAri(c.suppliers[name], cert, q, list);
    if |r.calls| == 1 {
      ListAfterOne(list, r.calls[0]);
    } else if |r.calls| == 2 {
      ListAfterTwo(list, r.calls[0], r.calls[1]);
    }
  }

  lemma {:induction false} LockedIsSaves(c: Config, name: string, q: Request, list: seq<Details>)
    requires name in c.suppliers
    ensures var o := Locked(c, name, q, list); o.list == ListAfter(list, o.calls)
  {
    hide JsonStore.Save, ListAfter, Obtain, Maintain, RefreshAri;
    var found := JsonStore.Lookup(list, name, q.subject, q.alts);
    if found.None? {
      ObtainIsSaves(c, name, q, list);
    } else {
      RefreshIsSaves(c, name, q, found.value, list);
      var r := RefreshAri(c.suppliers[name], found.value, q, list);
      MaintainIsSaves(c, name, q, r.cert, r.list);
      ListAfterConcat(list, r.calls, Maintain(c, name, q, r.cert, r.list).calls);
    }
  }

  /** All that a request does to the store are the saves it makes. */
  lemma {:induction false} GetIsSaves(c: Config, q: Request, list: seq<Details>)
    ensures Get(c, q, list).list == ListAfter(list, Get(c, q, list).calls)
  {
    hide JsonStore.Save, ListAfter, Locked;
    NoCalls(list);
    var name := Resolve(c, q.preferred);
    if name.Some? {
      var calls := Locked(c, name.value, q, list).calls;
      var lock, unlock := Lock(q.subject, q.alts), Unlock(q.subject, q.alts);
      LockedIsSaves(c, name.value, q, list);
      ListAfterOne(list, lock);
      ListAfterConcat(list, [lock], calls);
      ListAfterConcat(list, [lock] + calls, [unlock]);
      ListAfterOne(ListAfter(list, [lock] + calls), unlock);
    }
  }

  lemma {:induction false} MaintainIgnoresList(c: Config, name: string, q: Request, cert: Details, a: seq<Details>, b: seq<Details>)
    requires name in c.suppliers
    ensures Maintain(c, name, q, cert, a).result == Maintain(c, name, q, cert, b).result
    ensures Maintain(c, name, q, cert, a).calls == Maintain(c, name, q, cert, b).calls
  {
    hide JsonStore.Save;
  }

  /** All that a request sees of the store is the one certificate it looks up. */
  lemma {:induction false} OnlyLookupMatters(c: Config, q: Request, a: seq<Details>, b: seq<Details>)
    requires forall name :: JsonStore.Lookup(a, name, q.subject, q.alts) == JsonStore.Lookup(b, name, q.subject, q.alts)
    ensures Get(c, q, a).result == Get(c, q, b).result && Get(c, q, a).calls == Get(c, q, b).calls
  {
    hide JsonStore.Save, JsonStore.Lookup;
    var name := Resolve(c, q.preferred);
    if name.Some? {
      var found := JsonStore.Lookup(a, name.value, q.subject, q.alts);
      assert JsonStore.Lookup(b, name.value, q.subject, q.alts) == found;
      if found.Some? {
        var ra := RefreshAri(c.suppliers[name.value], found.value, q, a);
        var rb := RefreshAri(c.suppliers[name.value], found.value, q, b);
        assert ra.cert == rb.cert && ra.calls == rb.calls;
        MaintainIgnoresList(c, name.value, q, ra.cert, ra.list, rb.list);
      }
    }
  }

  // ---- requests over the hash ----

  /** The certificates of a hash, in some order. */
  ghost function Listing(dec: Redis.Decoder, h: Redis.Hash): (list: seq<Details>)
    requires Redis.Keyed(dec, h)
    ensures forall x :: x in list <==> Redis.Holds(dec, h, x)
    decreases |h|
  {
    if h == map[] then []
    else
      var f :| f in h;
      var rest := Listing(dec, h - {f});
      if dec(h[f]).Some? then rest + [dec(h[f]).value] else rest
  }

  datatype HashOutcome = HashOutcome(result: Option<Details>, hash: Redis.Hash, calls: seq<Call>)

  /** GetCertificate of a manager whose store is the hash. */
  ghost function GetOverHash(dec: Redis.Decoder, enc: Encoder, c: Config, q: Request, h: Redis.Hash): HashOutcome
    requires Redis.Keyed(dec, h)
  {
    var o := Get(c, q, Listing(dec, h));
    HashOutcome(o.result, HashAfter(dec, enc, h, o.calls), o.calls)
  }

  ghost predicate Inverts(dec: Redis.Decoder, enc: Encoder) {
    forall d :: dec(enc(d)) == Some(d)
  }

  /** The certificates that calls save. */
  function Saved(calls: seq<Call>): set<Details> {
    set e | e in calls && e.Save? :: e.cert
  }

  function Members(list: seq<Details>): set<Details> {
    set d | d in list
  }

  /** Among these certificates, a shared hash field means the same provider and names. */
  ghost predicate Apart(certs: set<Details>) {
    forall x, y :: x in certs && y in certs && x.Key() == y.Key() ==> x.SameIdentity(y)
  }

  /** The last save, if there is any, is of a certificate that has not expired. */
  predicate Settles(calls: seq<Call>) {
    calls != [] ==>
      var e := calls[|calls| - 1];
      if e.Save? then e.cert.ValidFor(e.time, 0) else Settles(calls[..|calls| - 1])
  }

  /** Saves are made under one clock, and none after `now`. */
  predicate TimedUntil(calls: seq<Call>, now: int) {
    calls != [] ==>
      var e, front := calls[|calls| - 1], calls[..|calls| - 1];
      if e.Save? then e.time <= now && TimedUntil(front, e.time) else TimedUntil(front, now)
  }

  /** One certificate per provider and names, and every field names what it holds. */
  ghost predicate Sound(dec: Redis.Decoder, list: seq<Details>, h: Redis.Hash) {
    JsonStore.Distinct(list) && Redis.Keyed(dec, h)
  }

  lemma {:induction false} CallsKeepSound(dec: Redis.Decoder, enc: Encoder, list: seq<Details>, h: Redis.Hash, calls: seq<Call>)
    requires Sound(dec, list, h) && Inverts(dec, enc)
    ensures Sound(dec, ListAfter(list, calls), HashAfter(dec, enc, h, calls))
    ensures Members(ListAfter(list, calls)) <= Members(list) + Saved(calls)
  {
    hide JsonStore.Save, Redis.Save, JsonStore.Distinct, Redis.Keyed;
    if calls != [] {
      var front, e := calls[..|calls| - 1], calls[|calls| - 1];
      assert calls == front + [e];
      CallsKeepSound(dec, enc, list, h, front);
      if e.Save? {
        var l := ListAfter(list, front);
        JsonStore.SaveMembers(l, e.cert, e.time);
        Redis.SaveKeepsKeyed(dec, HashAfter(dec, enc, h, front), e.cert, enc(e.cert), e.time);
        assert e in calls && e.cert in Saved(calls);
        forall x | x in JsonStore.Save(l, e.cert, e.time) ensures x in Members(list) + Saved(calls) {
          assert x == e.cert || x in Members(l);
        }
      }
    }
  }

  /** A save under way: what the stores hold shares a field with its certificate only under the same identity. */
  lemma {:induction false} ApartFrom(list: seq<Details>, calls: seq<Call>, now: seq<Details>, d: Details)
    requires Apart(Members(list) + Saved(calls)) && Members(now) <= Members(list) + Saved(calls) && d in Saved(calls)
    ensures forall x :: x in now && x.Key() == d.Key() ==> x.SameIdentity(d)
  {
    hide Details.Key, Details.SameIdentity;
    forall x | x in now && x.Key() == d.Key() ensures x.SameIdentity(d) {
      assert x in Members(now);
    }
  }

  /** Whatever is saved, the stores go on agreeing on what has not expired. */
  lemma {:induction false} CallsKeepAgreement(dec: Redis.Decoder, enc: Encoder, list: seq<Details>, h: Redis.Hash, calls: seq<Call>, now: int)
    requires Sound(dec, list, h) && Redis.Same(dec, list, h) && Inverts(dec, enc)
    requires Apart(Members(list) + Saved(calls)) && TimedUntil(calls, now)
    ensures Redis.Agree(dec, ListAfter(list, calls), HashAfter(dec, enc, h, calls), now)
  {
    hide JsonStore.Save, Redis.Save, Apart, Redis.Holds;
    if calls != [] {
      var front, e := calls[..|calls| - 1], calls[|calls| - 1];
      assert calls == front + [e];
      FewerApart(list, front, calls);
      CallsKeepAgreement(dec, enc, list, h, front, if e.Save? then e.time else now);
      if e.Save? {
        var l, k := ListAfter(list, front), HashAfter(dec, enc, h, front);
        CallsKeepSound(dec, enc, list, h, front);
        ApartFrom(list, calls, l, e.cert);
        Redis.SaveKeepsAgreement(dec, l, k, Redis.SaveCall(e.cert, enc(e.cert), e.time), e.time);
      }
    }
  }

  lemma {:induction false} FewerApart(list: seq<Details>, front: seq<Call>, calls: seq<Call>)
    requires Apart(Members(list) + Saved(calls)) && front <= calls
    ensures Apart(Members(list) + Saved(front))
    ensures Saved(front) <= Saved(calls)
  {
    hide Details.Key, Details.SameIdentity;
    assert forall e :: e in front ==> e in calls;
  }

  /** Stores that were the same are the same again exactly when the calls settle. */
  lemma {:induction false} SameAgainIff(dec: Redis.Decoder, enc: Encoder, list: seq<Details>, h: Redis.Hash, calls: seq<Call>, now: int)
    requires Sound(dec, list, h) && Redis.Same(dec, list, h) && Inverts(dec, enc)
    requires Apart(Members(list) + Saved(calls)) && TimedUntil(calls, now)
    ensures Redis.Same(dec, ListAfter(list, calls), HashAfter(dec, enc, h, calls)) <==> Settles(calls)
  {
    hide JsonStore.Save, Redis.Save, Apart, Redis.Same, Redis.Agree;
    if calls != [] {
      var front, e := calls[..|calls| - 1], calls[|calls| - 1];
      assert calls == front + [e];
      FewerApart(list, front, calls);
      if e.Save? {
        var l, k := ListAfter(list, front), HashAfter(dec, enc, h, front);
        CallsKeepAgreement(dec, enc, list, h, front, e.time);
        CallsKeepSound(dec, enc, list, h, front);
        ApartFrom(list, calls, l, e.cert);
        Redis.SaveMakesSameIff(dec, l, k, Redis.SaveCall(e.cert, enc(e.cert), e.time), e.time);
      } else {
        SameAgainIff(dec, enc, list, h, front, now);
      }
    }
  }

  // ---- the saves of one request are made under one clock ----

  lemma {:induction false} TimedConcat(a: seq<Call>, b: seq<Call>, past: int, now: int)
    requires TimedUntil(a, past) && TimedUntil(b, now) && past <= now
    requires forall e :: e in b && e.Save? ==> past <= e.time
    ensures TimedUntil(a + b, now)
  {
    if b == [] {
      assert a + b == a;
      TimedLater(a, past, now);
    } else {
      var front, e := b[..|b| - 1], b[|b| - 1];
      assert (a + b)[..|a + b| - 1] == a + front;
      assert b == front + [e];
      TimedConcat(a, front, past, if e.Save? then e.time else now);
    }
  }

  lemma {:induction false} TimedLater(a: seq<Call>, past: int, now: int)
    requires TimedUntil(a, past) && past <= now
    ensures TimedUntil(a, now)
  {
    if a != [] && !a[|a| - 1].Save? {
      TimedLater(a[..|a| - 1], past, now);
    }
  }

  lemma {:induction false} TimedOnce(calls: seq<Call>, now: int)
    requires forall i :: 0 <= i < |calls| - 1 ==> !calls[i].Save?
    requires calls != [] && calls[|calls| - 1].Save? ==> calls[|calls| - 1].time <= now
    ensures TimedUntil(calls, now)
  {
    if calls != [] {
      var front, e := calls[..|calls| - 1], calls[|calls| - 1];
      TimedOnce(front, if e.Save? then e.time else now);
    }
  }

  lemma {:induction false} MaintainTimed(c: Config, name: string, q: Request, cert: Details, list: seq<Details>)
    requires name in c.suppliers
    ensures var calls := Maintain(c, name, q, cert, list).calls;
      TimedUntil(calls, q.env.save) && forall e :: e in calls && e.Save? ==> e.time == q.env.save
  {
    hide JsonStore.Save;
    TimedOnce(Maintain(c, name, q, cert, list).calls, q.env.save);
  }

  lemma {:induction false} ObtainTimed(c: Config, name: string, q: Request, list: seq<Details>)
    requires name in c.suppliers
    ensures TimedUntil(Obtain(c, name, q, list).calls, q.env.save)
  {
    hide JsonStore.Save;
    TimedOnce(Obtain(c, name, q, list).calls, q.env.save);
  }

  lemma {:induction false} LockedTimed(c: Config, name: string, q: Request, list: seq<Details>)
    requires name in c.suppliers && q.env.Ordered()
    ensures TimedUntil(Locked(c, name, q, list).calls, q.env.save)
  {
    hide JsonStore.Save, Maintain, Obtain, TimedUntil;
    var found := JsonStore.Lookup(list, name, q.subject, q.alts);
    if found.None? {
      ObtainTimed(c, name, q, list);
    } else {
      var r := RefreshAri(c.suppliers[name], found.value, q, list);
      TimedOnce(r.calls, q.env.ariSave);
      MaintainTimed(c, name, q, r.cert, r.list);
      TimedConcat(r.calls, Maintain(c, name, q, r.cert, r.list).calls, q.env.ariSave, q.env.save);
    }
  }

  lemma {:induction false} GetTimed(c: Config, q: Request, list: seq<Details>)
    requires q.env.Ordered()
    ensures TimedUntil(Get(c, q, list).calls, q.env.end)
  {
    hide JsonStore.Save, Locked;
    var name := Resolve(c, q.preferred);
    if name.Some? {
      var calls := Locked(c, name.value, q, list).calls;
      var lock, unlock := Lock(q.subject, q.alts), Unlock(q.subject, q.alts);
      LockedTimed(c, name.value, q, list);
      SavesComeLate(c, name.value, q, list);
      TimedOnce([lock], q.env.ariSave);
      TimedConcat([lock], calls, q.env.ariSave, q.env.save);
      TimedLater([lock] + calls, q.env.save, q.env.end);
      assert ([lock] + calls + [unlock])[..|calls| + 1] == [lock] + calls;
    }
  }

  lemma {:induction false} SavesComeLate(c: Config, name: string, q: Request, list: seq<Details>)
    requires name in c.suppliers && q.env.Ordered()
    ensures forall e :: e in Locked(c, name, q, list).calls && e.Save? ==> q.env.ariSave <= e.time
  {
    hide JsonStore.Save;
    var found := JsonStore.Lookup(list, name, q.subject, q.alts);
    if found.Some? {
      var r := RefreshAri(c.suppliers[name], found.value, q, list);
      MaintainTimed(c, name, q, r.cert, r.list);
    }
  }

  // ---- requests and runs ----

  /** List and hash cannot be told apart. */
  ghost predicate Twins(dec: Redis.Decoder, list: seq<Details>, h: Redis.Hash) {
    Sound(dec, list, h) && Redis.Same(dec, list, h)
  }

  /**
   One request over twins: the same result and the same calls, and twins afterwards exactly
   when the request's last save, if any, was of an unexpired certificate.
   */
  lemma {:induction false} SameRequest(dec: Redis.Decoder, enc: Encoder, c: Config, q: Request, list: seq<Details>, h: Redis.Hash)
    requires Twins(dec, list, h) && Inverts(dec, enc) && q.env.Ordered()
    requires Apart(Members(list) + Saved(Get(c, q, list).calls))
    ensures var o, p := Get(c, q, list), GetOverHash(dec, enc, c, q, h);
      && p.result == o.result && p.calls == o.calls
      && (Twins(dec, o.list, p.hash) <==> Settles(o.calls))
  {
    hide Get, ListAfter, HashAfter, Apart, Settles;
    SameAnswer(dec, enc, c, q, list, h);
    var calls := Get(c, q, list).calls;
    GetIsSaves(c, q, list);
    GetTimed(c, q, list);
    CallsKeepSound(dec, enc, list, h, calls);
    SameAgainIff(dec, enc, list, h, calls, q.env.end);
  }

  lemma {:induction false} SameAnswer(dec: Redis.Decoder, enc: Encoder, c: Config, q: Request, list: seq<Details>, h: Redis.Hash)
    requires Twins(dec, list, h)
    ensures var o, p := Get(c, q, list), GetOverHash(dec, enc, c, q, h);
      p.result == o.result && p.calls == o.calls
  {
    hide Get, JsonStore.Lookup, HashAfter;
    forall name ensures JsonStore.Lookup(list, name, q.subject, q.alts) == JsonStore.Lookup(Listing(dec, h), name, q.subject, q.alts) {
      Redis.SameLookups(dec, list, h, Listing(dec, h), name, q.subject, q.alts);
    }
    OnlyLookupMatters(c, q, list, Listing(dec, h));
  }

  /** Request `i` of a run over the list. */
  ghost function CallsAt(c: Config, list: seq<Details>, qs: seq<Request>, i: nat): seq<Call>
    requires i < |qs|
  {
    Get(c, qs[i], ManagerSafety.ListAt(c, list, qs, i)).calls
  }

  /** Everything that is in the list at first or saved by the first `k` requests. */
  ghost function Everything(c: Config, list: seq<Details>, qs: seq<Request>, k: nat): set<Details>
    requires k <= |qs|
  {
    if k == 0 then Members(list) else Everything(c, list, qs, k - 1) + Saved(CallsAt(c, list, qs, k - 1))
  }

  /** The hash after the first `k` requests of a run over it, as long as fields name what they hold. */
  ghost function HashAt(dec: Redis.Decoder, enc: Encoder, c: Config, h: Redis.Hash, qs: seq<Request>, k: nat): Option<Redis.Hash>
    requires k <= |qs|
  {
    if k == 0 then Some(h)
    else
      var before := HashAt(dec, enc, c, h, qs, k - 1);
      if before.None? || !Redis.Keyed(dec, before.value) then None
      else Some(GetOverHash(dec, enc, c, qs[k - 1], before.value).hash)
  }

  lemma {:induction false} SubsetApart(a: set<Details>, b: set<Details>)
    requires Apart(b) && a <= b
    ensures Apart(a)
  {
  }

  lemma {:induction false} TwinsAt(dec: Redis.Decoder, enc: Encoder, c: Config, list: seq<Details>, h: Redis.Hash, qs: seq<Request>, k: nat)
    requires k <= |qs| && Twins(dec, list, h) && Inverts(dec, enc) && Apart(Everything(c, list, qs, k))
    requires forall i :: 0 <= i < k ==> qs[i].env.Ordered() && Settles(CallsAt(c, list, qs, i))
    ensures HashAt(dec, enc, c, h, qs, k).Some?
    ensures Twins(dec, ManagerSafety.ListAt(c, list, qs, k), HashAt(dec, enc, c, h, qs, k).value)
    ensures Members(ManagerSafety.ListAt(c, list, qs, k)) <= Everything(c, list, qs, k)
  {
    hide Get, GetOverHash, Settles, Apart, Twins, Members, Saved;
    if k > 0 {
      var before, calls := ManagerSafety.ListAt(c, list, qs, k - 1), CallsAt(c, list, qs, k - 1);
      SubsetApart(Everything(c, list, qs, k - 1), Everything(c, list, qs, k));
      TwinsAt(dec, enc, c, list, h, qs, k - 1);
      SubsetApart(Members(before) + Saved(calls), Everything(c, list, qs, k));
      OneRequest(dec, enc, c, qs[k - 1], before, HashAt(dec, enc, c, h, qs, k - 1).value);
    }
  }

  lemma {:induction false} OneRequest(dec: Redis.Decoder, enc: Encoder, c: Config, q: Request, list: seq<Details>, h: Redis.Hash)
    requires Twins(dec, list, h) && Inverts(dec, enc) && q.env.Ordered() && Settles(Get(c, q, list).calls)
    requires Apart(Members(list) + Saved(Get(c, q, list).calls))
    ensures Redis.Keyed(dec, h) && Twins(dec, Get(c, q, list).list, GetOverHash(dec, enc, c, q, h).hash)
    ensures Members(Get(c, q, list).list) <= Members(list) + Saved(Get(c, q, list).calls)
  {
    hide Get, GetOverHash, Settles, Apart;
    SameRequest(dec, enc, c, q, list, h);
    GetIsSaves(c, q, list);
    CallsKeepSound(dec, enc, list, h, Get(c, q, list).calls);
  }

  /**
   Runs over either store: from stores that hold the same certificates, as long as hash
   fields tell apart what is stored and saved, and no earlier request ended with the save
   of an expired certificate, every request returns the same certificate and makes the
   same calls on both.
   */
  lemma {:induction false} SameOnBothStores(dec: Redis.Decoder, enc: Encoder, c: Config, list: seq<Details>, h: Redis.Hash,
                                            qs: seq<Request>, k: nat)
    requires k < |qs| && Twins(dec, list, h) && Inverts(dec, enc) && Apart(Everything(c, list, qs, k))
    requires forall i :: 0 <= i < k ==> qs[i].env.Ordered() && Settles(CallsAt(c, list, qs, i))
    ensures var before := HashAt(dec, enc, c, h, qs, k);
      && before.Some? && Redis.Keyed(dec, before.value)
      && var o, p := Get(c, qs[k], ManagerSafety.ListAt(c, list, qs, k)), GetOverHash(dec, enc, c, qs[k], before.value);
         p.result == o.result && p.calls == o.calls
  {
    hide Get, GetOverHash, Apart, Settles;
    TwinsAt(dec, enc, c, list, h, qs, k);
    SameAnswer(dec, enc, c, qs[k], ManagerSafety.ListAt(c, list, qs, k), HashAt(dec, enc, c, h, qs, k).value);
  }
}
