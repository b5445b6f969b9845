/**
 The certificate hash of certificate/store_redis.go. A hash field maps to the raw JSON of
 a certificate; decoding is a partial function `dec`, of which only that it inverts the
 encoding of what is saved is ever used.
 */
module RedisStore {
  import opened Text
  import opened Certificates
  import Json = JsonStore

  type Hash = map<string, string>
  type Decoder = string -> Option<Details>

  /** An entry a save may prune: it does not decode, or has expired. */
  predicate Prunable(dec: Decoder, raw: string, now: int) {
    dec(raw).None? || !dec(raw).value.ValidFor(now, 0)
  }

  /** The entries of a snapshot that a save asks the server to prune. */
  function PruneArgs(dec: Decoder, stored: Hash, now: int): Hash {
    map f | f in stored && Prunable(dec, stored[f], now) :: stored[f]
  }

  /** pruneCertificatesScript: deletes the given fields whose values are unchanged. */
  function PruneUnchanged(h: Hash, args: Hash): Hash {
    map f | f in h && !(f in args && args[f] == h[f]) :: h[f]
  }

  /** The transaction of a save: prune, then HSET. */
  function Commit(h: Hash, args: Hash, field: string, raw: string): Hash {
    PruneUnchanged(h, args)[field := raw]
  }

  /** A save that nothing else interleaves with. */
  function Save(dec: Decoder, h: Hash, d: Details, raw: string, now: int): Hash {
    Commit(h, PruneArgs(dec, h, now), d.Key(), raw)
  }

  /** After a save the hash holds exactly the new entry and every other one that decodes to a certificate that has not expired. */
  lemma {:induction false} SaveEntries(dec: Decoder, h: Hash, d: Details, raw: string, now: int, f: string)
    ensures var h' := Save(dec, h, d, raw, now);
      && (f in h' <==> f == d.Key() || (f in h && dec(h[f]).Some? && dec(h[f]).value.notAfter > now))
      && (f in h' ==> h'[f] == if f == d.Key() then raw else h[f])
  {
    assert PruneUnchanged(h, PruneArgs(dec, h, now)).Keys == set g | g in h && !Prunable(dec, h[g], now);
  }

  // ---- the loops ----

  /** Collects the prune arguments: alternating fields and values, in whatever order the map is ranged over. */
  method CollectPruneArgs(dec: Decoder, stored: Hash, now: int) returns (args: seq<(string, string)>)
    ensures forall f, v :: (f, v) in args <==> f in PruneArgs(dec, stored, now) && PruneArgs(dec, stored, now)[f] == v
  {
    args := [];
    var todo := stored.Keys;
    while todo != {}
      invariant todo <= stored.Keys
      invariant forall f, v :: (f, v) in args <==>
        f in stored && f !in todo && stored[f] == v && Prunable(dec, stored[f], now)
    {
      var f :| f in todo;
      todo := todo - {f};
      if Prunable(dec, stored[f], now) {
        args := args + [(f, stored[f])];
      }
    }
  }

  /** The prune script's loop over its arguments deletes exactly the fields that still hold the value that was read. */
  method RunPruneScript(h: Hash, args: seq<(string, string)>) returns (r: Hash)
    ensures forall f :: f in r <==> f in h && (f, h[f]) !in args
    ensures forall f :: f in r ==> r[f] == h[f]
  {
    r := h;
    for i := 0 to |args|
      invariant forall f :: f in r <==> f in h && (f, h[f]) !in args[..i]
      invariant forall f :: f in r ==> r[f] == h[f]
    {
      var (f, v) := args[i];
      assert args[..i + 1] == args[..i] + [args[i]];
      if f in r && r[f] == v {
        r := map g | g in r && g != f :: r[g];
      }
    }
  }

  /** SaveCertificate against an otherwise idle server is Save, whatever order the stored map is ranged over in. */
  method SaveCertificate(dec: Decoder, h: Hash, d: Details, raw: string, now: int) returns (r: Hash)
    ensures r == Save(dec, h, d, raw, now)
  {
    var args := CollectPruneArgs(dec, h, now);
    r := RunPruneScript(h, args);
    assert r == PruneUnchanged(h, PruneArgs(dec, h, now));
    r := r[d.Key() := raw];
  }

  // ---- lookups do not depend on the order of the map ----

  /** Every certificate is stored under its own key. */
  ghost predicate Keyed(dec: Decoder, h: Hash) {
    forall f :: f in h && dec(h[f]).Some? ==> dec(h[f]).value.Key() == f
  }

  predicate Holds(dec: Decoder, h: Hash, x: Details) {
    x.Key() in h && dec(h[x.Key()]) == Some(x)
  }

  /** allCertificates: the decodable entries, in some order. */
  method AllCertificates(dec: Decoder, h: Hash) returns (list: seq<Details>)
    requires Keyed(dec, h)
    ensures forall x :: x in list <==> Holds(dec, h, x)
  {
    list := [];
    var todo := h.Keys;
    while todo != {}
      invariant todo <= h.Keys
      invariant forall x :: x in list <==> Holds(dec, h, x) && x.Key() !in todo
    {
      var f :| f in todo;
      todo := todo - {f};
      if dec(h[f]).Some? {
        list := list + [dec(h[f]).value];
      }
    }
  }

  lemma {:induction false} HeldOnce(dec: Decoder, h: Hash, x: Details, y: Details)
    requires Holds(dec, h, x) && Holds(dec, h, y) && x.SameIdentity(y)
    ensures x == y
  {
    KeyMatchesIdentity(x, y);
  }

  /** GetCertificate: the result is the same for every order in which the map may be ranged over. */
  method GetCertificate(dec: Decoder, h: Hash, provider: string, subject: string, alts: seq<string>)
    returns (r: Option<Details>)
    requires Keyed(dec, h)
    ensures forall list: seq<Details> ::
      (forall x :: x in list <==> Holds(dec, h, x)) ==> r == Json.Lookup(list, provider, subject, alts)
  {
    var list := AllCertificates(dec, h);
    r := Json.Lookup(list, provider, subject, alts);
    forall other: seq<Details> | (forall x :: x in other <==> Holds(dec, h, x))
      ensures r == Json.Lookup(other, provider, subject, alts)
    {
      forall x, y | x in list && y in list && x.SameIdentity(y) ensures x == y {
        HeldOnce(dec, h, x, y);
      }
      Json.LookupDependsOnMembers(list, other, provider, subject, alts);
    }
  }

  lemma {:induction false} SaveKeepsKeyed(dec: Decoder, h: Hash, d: Details, raw: string, now: int)
    requires Keyed(dec, h) && dec(raw) == Some(d)
    ensures Keyed(dec, Save(dec, h, d, raw, now))
  {
  }

  // ---- both stores hold the same certificates ----

  datatype SaveCall = SaveCall(cert: Details, raw: string, time: int)

  ghost function JsonAfter(calls: seq<SaveCall>): seq<Details> {
    if calls == [] then []
    else
      var c := calls[|calls| - 1];
      Json.Save(JsonAfter(calls[..|calls| - 1]), c.cert, c.time)
  }

  ghost function RedisAfter(dec: Decoder, calls: seq<SaveCall>): Hash {
    if calls == [] then map[]
    else
      var c := calls[|calls| - 1];
      Save(dec, RedisAfter(dec, calls[..|calls| - 1]), c.cert, c.raw, c.time)
  }

  /** Each saved value decodes to what was saved. */
  ghost predicate Decodes(dec: Decoder, calls: seq<SaveCall>) {
    forall i :: 0 <= i < |calls| ==> dec(calls[i].raw) == Some(calls[i].cert)
  }

  /** And the clock never goes back. */
  ghost predicate WellSaved(dec: Decoder, calls: seq<SaveCall>) {
    && Decodes(dec, calls)
    && (forall i, j :: 0 <= i < j < |calls| ==> calls[i].time <= calls[j].time)
  }

  /** Saved certificates that share a hash field have the same provider and names. */
  ghost predicate KeysTellApart(calls: seq<SaveCall>) {
    forall i, j :: 0 <= i < |calls| && 0 <= j < |calls| && calls[i].cert.Key() == calls[j].cert.Key()
      ==> calls[i].cert.SameIdentity(calls[j].cert)
  }

  lemma {:induction false} SeparatorFreeKeysTellApart(calls: seq<SaveCall>)
    requires forall i :: 0 <= i < |calls| ==> calls[i].cert.SeparatorFree()
    ensures KeysTellApart(calls)
  {
    forall i, j | 0 <= i < |calls| && 0 <= j < |calls| && calls[i].cert.Key() == calls[j].cert.Key()
      ensures calls[i].cert.SameIdentity(calls[j].cert)
    {
      KeyMatchesIdentity(calls[i].cert, calls[j].cert);
    }
  }

  ghost predicate Agree(dec: Decoder, list: seq<Details>, h: Hash, now: int) {
    forall x: Details :: x.ValidFor(now, 0) ==> (x in list <==> Holds(dec, h, x))
  }

  lemma {:induction false} MembersWereSaved(calls: seq<SaveCall>, x: Details) returns (i: nat)
    requires x in JsonAfter(calls)
    ensures Json.Distinct(JsonAfter(calls))
    ensures i < |calls| && calls[i].cert == x
  {
    var front, c := calls[..|calls| - 1], calls[|calls| - 1];
    StaysDistinct(front);
    Json.SaveMembers(JsonAfter(front), c.cert, c.time);
    if x == c.cert {
      i := |calls| - 1;
    } else {
      i := MembersWereSaved(front, x);
    }
  }

  /** The list never holds two entries with the same provider and names. */
  lemma {:induction false} StaysDistinct(calls: seq<SaveCall>)
    ensures Json.Distinct(JsonAfter(calls))
  {
    if calls != [] {
      var front, c := calls[..|calls| - 1], calls[|calls| - 1];
      StaysDistinct(front);
      Json.SaveMembers(JsonAfter(front), c.cert, c.time);
    }
  }

  lemma {:induction false} StaysKeyed(dec: Decoder, calls: seq<SaveCall>)
    requires Decodes(dec, calls)
    ensures Keyed(dec, RedisAfter(dec, calls))
  {
    if calls != [] {
      var front, c := calls[..|calls| - 1], calls[|calls| - 1];
      StaysKeyed(dec, front);
      SaveKeepsKeyed(dec, RedisAfter(dec, front), c.cert, c.raw, c.time);
    }
  }

  /** One save made to both stores keeps them in agreement. */
  lemma {:induction false} SaveKeepsAgreement(dec: Decoder, list: seq<Details>, h: Hash, c: SaveCall, before: int)
    requires Json.Distinct(list) && Agree(dec, list, h, before) && before <= c.time
    requires dec(c.raw) == Some(c.cert)
    requires forall x :: x in list && x.Key() == c.cert.Key() ==> x.SameIdentity(c.cert)
    ensures Agree(dec, Json.Save(list, c.cert, c.time), Save(dec, h, c.cert, c.raw, c.time), c.time)
  {
    var d, now := c.cert, c.time;
    var list', h' := Json.Save(list, d, now), Save(dec, h, d, c.raw, now);
    Json.SaveMembers(list, d, now);
    forall x: Details | x.ValidFor(now, 0) ensures x in list' <==> Holds(dec, h', x) {
      KeyMatchesIdentity(x, d);
      if x.Key() == d.Key() {
        assert h'[x.Key()] == c.raw;
      } else {
        assert Holds(dec, h', x) <==> Holds(dec, h, x);
      }
    }
  }

  lemma {:induction false} NothingAgrees(dec: Decoder, now: int)
    ensures Agree(dec, [], map[], now)
  {
  }

  /**
   From empty stores and for every sequence of saves: at the last save, and so at any
   later time, the list and the hash hold exactly the same unexpired certificates.
   */
  lemma {:induction false} StoresAgree(dec: Decoder, calls: seq<SaveCall>, now: int)
    requires WellSaved(dec, calls) && KeysTellApart(calls)
    requires forall i :: 0 <= i < |calls| ==> calls[i].time <= now
    ensures Json.Distinct(JsonAfter(calls)) && Keyed(dec, RedisAfter(dec, calls))
    ensures Agree(dec, JsonAfter(calls), RedisAfter(dec, calls), now)
  {
    hide Save, Json.Save, Details.Key, Details.SameIdentity, Holds;
    StaysDistinct(calls);
    StaysKeyed(dec, calls);
    if calls == [] {
      NothingAgrees(dec, now);
    } else {
      var front, c := calls[..|calls| - 1], calls[|calls| - 1];
      var list, h := JsonAfter(front), RedisAfter(dec, front);
      StoresAgree(dec, front, c.time);
      forall x | x in list && x.Key() == c.cert.Key() ensures x.SameIdentity(c.cert) {
        var i := MembersWereSaved(front, x);
        assert calls[i] == front[i];
      }
      SaveKeepsAgreement(dec, list, h, c, c.time);
    }
  }

  /** What was saved is still there, perhaps renewed, as long as nothing expires. */
  lemma {:induction false} IdentityStays(calls: seq<SaveCall>, i: nat) returns (x: Details)
    requires i < |calls|
    requires forall j, k :: 0 <= j < |calls| && 0 <= k < |calls| ==> calls[j].cert.ValidFor(calls[k].time, 0)
    ensures x in JsonAfter(calls) && x.SameIdentity(calls[i].cert)
    ensures exists k :: 0 <= k < |calls| && calls[k].cert == x
  {
    var front, c := calls[..|calls| - 1], calls[|calls| - 1];
    StaysDistinct(front);
    Json.SaveMembers(JsonAfter(front), c.cert, c.time);
    if i == |calls| - 1 {
      x := c.cert;
    } else {
      x := IdentityStays(front, i);
      var k :| 0 <= k < |front| && front[k].cert == x;
      assert calls[k].cert == x;
      if x.SameIdentity(c.cert) {
        x := c.cert;
        assert calls[|calls| - 1].cert == x;
      }
    }
  }

  /** The condition is exact: while nothing expires, the stores agree if and only if hash fields tell the saved certificates apart. */
  lemma {:induction false} StoresAgreeIff(dec: Decoder, calls: seq<SaveCall>, now: int)
    requires WellSaved(dec, calls)
    requires forall i :: 0 <= i < |calls| ==> calls[i].time <= now && calls[i].cert.ValidFor(now, 0)
    ensures Agree(dec, JsonAfter(calls), RedisAfter(dec, calls), now) <==> KeysTellApart(calls)
  {
    if KeysTellApart(calls) {
      StoresAgree(dec, calls, now);
    } else {
      var i, j :| 0 <= i < |calls| && 0 <= j < |calls| && calls[i].cert.Key() == calls[j].cert.Key()
        && !calls[i].cert.SameIdentity(calls[j].cert);
      var x := IdentityStays(calls, i);
      var y := IdentityStays(calls, j);
      KeyMatchesIdentity(x, calls[i].cert);
      KeyMatchesIdentity(y, calls[j].cert);
      assert x.Key() == y.Key() && x != y;
      assert !(Holds(dec, RedisAfter(dec, calls), x) && Holds(dec, RedisAfter(dec, calls), y));
    }
  }

  ghost predicate NoneOf(list: seq<Details>, provider: string, subject: string, alts: seq<string>) {
    forall x :: x in list ==> !Json.Matches(x, provider, subject, alts)
  }

  /**
   So both stores find the same unexpired certificate, in whatever order the hash is listed:
   one of the requested provider always; one of no provider as long as neither store has
   any of the requested provider, which could then only be an expired one.
   */
  lemma {:induction false} LookupsAgree(dec: Decoder, list: seq<Details>, h: Hash, listed: seq<Details>, now: int, d: Details,
                     provider: string, subject: string, alts: seq<string>)
    requires Json.Distinct(list) && Agree(dec, list, h, now) && d.ValidFor(now, 0)
    requires forall x :: x in listed <==> Holds(dec, h, x)
    requires d.provider == provider || (NoneOf(list, provider, subject, alts) && NoneOf(listed, provider, subject, alts))
    ensures Json.Lookup(list, provider, subject, alts) == Some(d) <==> Json.Lookup(listed, provider, subject, alts) == Some(d)
  {
    hide Holds;
    assert d in list <==> d in listed;
    if d in list && d.IsFor(subject, alts) && (d.provider == provider || d.provider == "") {
      assert Json.Matches(d, d.provider, subject, alts);
      var a, b := Json.Lookup(list, provider, subject, alts), Json.Lookup(listed, provider, subject, alts);
      assert a.value.provider == d.provider && b.value.provider == d.provider;
      Json.DistinctMembers(list, a.value, d);
      HeldOnce(dec, h, b.value, d);
    }
  }

  // ---- when the stores are indistinguishable ----

  /** The list and the hash hold exactly the same certificates, expired or not. */
  ghost predicate Same(dec: Decoder, list: seq<Details>, h: Hash) {
    forall x: Details :: x in list <==> Holds(dec, h, x)
  }

  /** Then every lookup gives the same answer, a certificate of no provider included. */
  lemma {:induction false} SameLookups(dec: Decoder, list: seq<Details>, h: Hash, listed: seq<Details>,
                                       provider: string, subject: string, alts: seq<string>)
    requires Json.Distinct(list) && Same(dec, list, h)
    requires forall x :: x in listed <==> Holds(dec, h, x)
    ensures Json.Lookup(list, provider, subject, alts) == Json.Lookup(listed, provider, subject, alts)
  {
    forall x, y | x in list && y in list && x.SameIdentity(y) ensures x == y {
      Json.DistinctMembers(list, x, y);
    }
    Json.LookupDependsOnMembers(list, listed, provider, subject, alts);
  }

  /** A save made to both keeps them the same exactly when its certificate has not expired: the list drops an expired one, the hash keeps it. */
  lemma {:induction false} SaveKeepsSameIff(dec: Decoder, list: seq<Details>, h: Hash, c: SaveCall)
    requires Json.Distinct(list) && Same(dec, list, h) && dec(c.raw) == Some(c.cert)
    requires forall x :: x in list && x.Key() == c.cert.Key() ==> x.SameIdentity(c.cert)
    ensures Same(dec, Json.Save(list, c.cert, c.time), Save(dec, h, c.cert, c.raw, c.time)) <==> c.cert.ValidFor(c.time, 0)
  {
    SaveMakesSameIff(dec, list, h, c, c.time);
  }

  /** No certificate had expired when it was saved. */
  ghost predicate UnexpiredWhenSaved(calls: seq<SaveCall>) {
    forall i :: 0 <= i < |calls| ==> calls[i].cert.ValidFor(calls[i].time, 0)
  }

  ghost predicate SameAfter(dec: Decoder, calls: seq<SaveCall>) {
    Same(dec, JsonAfter(calls), RedisAfter(dec, calls))
  }

  /** After these saves, and after each of them. */
  ghost predicate AlwaysSame(dec: Decoder, calls: seq<SaveCall>) {
    SameAfter(dec, calls) && (calls != [] ==> AlwaysSame(dec, calls[..|calls| - 1]))
  }

  /** One more save: the same before and after it exactly when they were before and it saves nothing expired. */
  lemma {:induction false} SameAfterIff(dec: Decoder, calls: seq<SaveCall>)
    requires Decodes(dec, calls) && KeysTellApart(calls) && calls != []
    requires SameAfter(dec, calls[..|calls| - 1])
    ensures var c := calls[|calls| - 1]; SameAfter(dec, calls) <==> c.cert.ValidFor(c.time, 0)
  {
    hide Same, Json.Save, Save, Details.Key, Details.SameIdentity;
    var front, c := calls[..|calls| - 1], calls[|calls| - 1];
    StaysDistinct(front);
    forall x | x in JsonAfter(front) && x.Key() == c.cert.Key() ensures x.SameIdentity(c.cert) {
      var i := MembersWereSaved(front, x);
      assert calls[i] == front[i];
    }
    SaveKeepsSameIff(dec, JsonAfter(front), RedisAfter(dec, front), c);
  }

  /**
   From empty stores: list and hash are the same after every save if and only if nothing
   had expired when it was saved.
   */
  lemma {:induction false} AlwaysSameIff(dec: Decoder, calls: seq<SaveCall>)
    requires Decodes(dec, calls) && KeysTellApart(calls)
    ensures AlwaysSame(dec, calls) <==> UnexpiredWhenSaved(calls)
  {
    hide SameAfter, Decodes, KeysTellApart, UnexpiredWhenSaved;
    if calls == [] {
      NothingIsSame(dec);
    } else {
      var front := calls[..|calls| - 1];
      FrontOf(dec, calls);
      AlwaysSameIff(dec, front);
      if SameAfter(dec, front) {
        SameAfterIff(dec, calls);
      }
    }
  }

  lemma {:induction false} NothingIsSame(dec: Decoder)
    ensures SameAfter(dec, []) && UnexpiredWhenSaved([])
  {
  }

  lemma {:induction false} FrontOf(dec: Decoder, calls: seq<SaveCall>)
    requires Decodes(dec, calls) && KeysTellApart(calls) && calls != []
    ensures var front, c := calls[..|calls| - 1], calls[|calls| - 1];
      && Decodes(dec, front) && KeysTellApart(front)
      && (UnexpiredWhenSaved(calls) <==> UnexpiredWhenSaved(front) && c.cert.ValidFor(c.time, 0))
  {
    hide Details.Key, Details.SameIdentity, Details.ValidFor;
    var front, c := calls[..|calls| - 1], calls[|calls| - 1];
    assert calls == front + [c];
  }

  /** Stores that agree on what has not expired become the same with a save of an unexpired certificate, and only so. */
  lemma {:induction false} SaveMakesSameIff(dec: Decoder, list: seq<Details>, h: Hash, c: SaveCall, before: int)
    requires Json.Distinct(list) && Agree(dec, list, h, before) && before <= c.time && dec(c.raw) == Some(c.cert)
    requires forall x :: x in list && x.Key() == c.cert.Key() ==> x.SameIdentity(c.cert)
    ensures Same(dec, Json.Save(list, c.cert, c.time), Save(dec, h, c.cert, c.raw, c.time)) <==> c.cert.ValidFor(c.time, 0)
  {
    hide Json.Save, Save;
    var d, now := c.cert, c.time;
    var list', h' := Json.Save(list, d, now), Save(dec, h, d, c.raw, now);
    Json.SaveMembers(list, d, now);
    SaveEntries(dec, h, d, c.raw, now, d.Key());
    if d.ValidFor(now, 0) {
      forall x: Details ensures x in list' <==> Holds(dec, h', x) {
        SaveEntries(dec, h, d, c.raw, now, x.Key());
        KeyMatchesIdentity(x, d);
      }
    } else {
      assert Holds(dec, h', d) && d !in list';
    }
  }

  /** From empty stores, under one clock: list and hash are the same exactly when the last save was of an unexpired certificate. */
  lemma {:induction false} SameAfterLastIff(dec: Decoder, calls: seq<SaveCall>)
    requires WellSaved(dec, calls) && KeysTellApart(calls)
    ensures SameAfter(dec, calls) <==> calls == [] || calls[|calls| - 1].cert.ValidFor(calls[|calls| - 1].time, 0)
  {
    if calls == [] {
      NothingIsSame(dec);
    } else {
      hide Same, Agree, Json.Save, Save, Details.Key, Details.SameIdentity;
      var front, c := calls[..|calls| - 1], calls[|calls| - 1];
      StoresAgree(dec, front, c.time);
      forall x | x in JsonAfter(front) && x.Key() == c.cert.Key() ensures x.SameIdentity(c.cert) {
        var i := MembersWereSaved(front, x);
        assert calls[i] == front[i];
      }
      SaveMakesSameIff(dec, JsonAfter(front), RedisAfter(dec, front), c, c.time);
    }
  }

  /**
   An expired certificate is saved to stores that are the same and hold an unexpired
   certificate of no provider for the same names.
   */
  ghost predicate Diverging(dec: Decoder, list: seq<Details>, h: Hash, c: SaveCall, legacy: Details) {
    && Json.Distinct(list) && Same(dec, list, h) && dec(c.raw) == Some(c.cert)
    && legacy in list && legacy.provider == "" && legacy.ValidFor(c.time, 0)
    && legacy.IsFor(c.cert.subject, c.cert.altNames)
    && c.cert.provider != "" && !c.cert.ValidFor(c.time, 0)
  }

  /** Then the list finds the certificate of no provider, and the hash the expired one. */
  lemma {:induction false} ExpiredSaveDiverges(dec: Decoder, list: seq<Details>, h: Hash, c: SaveCall, legacy: Details, listed: seq<Details>)
    requires Diverging(dec, list, h, c, legacy)
    requires forall x :: x in listed <==> Holds(dec, Save(dec, h, c.cert, c.raw, c.time), x)
    ensures Json.Lookup(Json.Save(list, c.cert, c.time), c.cert.provider, c.cert.subject, c.cert.altNames) == Some(legacy)
    ensures Json.Lookup(listed, c.cert.provider, c.cert.subject, c.cert.altNames) == Some(c.cert)
  {
    hide Json.Save, Save;
    var d, now := c.cert, c.time;
    var list', h' := Json.Save(list, d, now), Save(dec, h, d, c.raw, now);
    Json.SaveMembers(list, d, now);
    assert Json.Matches(legacy, "", d.subject, d.altNames);
    var found := Json.Lookup(list', d.provider, d.subject, d.altNames);
    Json.DistinctMembers(list', found.value, legacy);
    SaveEntries(dec, h, d, c.raw, now, d.Key());
    assert Holds(dec, h', d) && Json.Matches(d, d.provider, d.subject, d.altNames);
    HeldOnce(dec, h', Json.FirstMatch(listed, d.provider, d.subject, d.altNames).value, d);
  }

  /** There are such saves: the one of no provider is valid until 10, the other expired at 3, and it is 5. */
  lemma {:induction false} DivergingInput() returns (dec: Decoder, list: seq<Details>, h: Hash, c: SaveCall, legacy: Details)
    ensures Diverging(dec, list, h, c, legacy)
  {
    var l := Details("", "s", [], 10, 0, false, 0, 0, "");
    var e := Details("p", "s", [], 3, 0, false, 0, 0, "");
    legacy, list, h := l, [l], map[l.Key() := "l"];
    dec := raw => if raw == "l" then Some(l) else Some(e);
    c := SaveCall(e, "e", 5);
  }
}
