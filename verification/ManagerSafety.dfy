/**
 What every call and every sequential run of the certificate manager keeps: bracketed
 locking, provider isolation, timely renewal, and the spacing of issuances.
 */
module ManagerSafety {
  import opened Text
  import opened Certificates
  import opened Suppliers
  import opened CertManager
  import JsonStore

  // ---- what one call saves ----

  /** A certificate this call may save: for the requested names, under the resolved or the empty provider. */
  predicate Ours(name: string, q: Request, d: Details) {
    d.IsFor(q.subject, q.alts) && (d.provider == name || d.provider == "")
  }

  /** Calls made between Lock and Unlock: neither of those, and every save is ours. */
  predicate InnerCalls(name: string, q: Request, calls: seq<Call>) {
    forall i :: 0 <= i < |calls| ==> !calls[i].Lock? && !calls[i].Unlock? && (calls[i].Save? ==> Ours(name, q, calls[i].cert))
  }

  lemma {:induction false} InnerCallsConcat(name: string, q: Request, a: seq<Call>, b: seq<Call>)
    requires InnerCalls(name, q, a) && InnerCalls(name, q, b)
    ensures InnerCalls(name, q, a + b)
  {
  }

  lemma {:induction false} ObtainInner(c: Config, name: string, q: Request, list: seq<Details>)
    requires name in c.suppliers
    ensures InnerCalls(name, q, Obtain(c, name, q, list).calls)
  {
  }

  lemma {:induction false} MaintainInner(c: Config, name: string, q: Request, cert: Details, list: seq<Details>)
    requires name in c.suppliers && Ours(name, q, cert)
    ensures InnerCalls(name, q, Maintain(c, name, q, cert, list).calls)
  {
    ObtainInner(c, name, q, list);
    var s := c.suppliers[name];
    var stapled := s.UpdateStaple(cert, q.env.stapleReply);
    assert stapled.Some? ==> Ours(name, q, stapled.value);
  }

  lemma {:induction false} RefreshInner(s: Supplier, name: string, q: Request, cert: Details, list: seq<Details>)
    requires Ours(name, q, cert)
    ensures Ours(name, q, RefreshAri(s, cert, q, list).cert)
    ensures InnerCalls(name, q, RefreshAri(s, cert, q, list).calls)
  {
    var updated := s.UpdateRenewalInfo(cert, q.env.ariCheck, q.env.ari);
    assert updated.Some? ==> Ours(name, q, updated.value);
  }

  lemma {:induction false} LockedInner(c: Config, name: string, q: Request, list: seq<Details>)
    requires name in c.suppliers
    ensures InnerCalls(name, q, Locked(c, name, q, list).calls)
  {
    var found := JsonStore.Lookup(list, name, q.subject, q.alts);
    if found.None? {
      ObtainInner(c, name, q, list);
    } else {
      RefreshInner(c.suppliers[name], name, q, found.value, list);
      var r := RefreshAri(c.suppliers[name], found.value, q, list);
      MaintainInner(c, name, q, r.cert, r.list);
      InnerCallsConcat(name, q, r.calls, Maintain(c, name, q, r.cert, r.list).calls);
    }
  }

  /**
   On every path, including every error path, a call that resolves a supplier takes the
   lock for its names first, releases it last, and in between saves only certificates
   for exactly those names.
   */
  lemma {:induction false} LockBracketsSaves(c: Config, q: Request, list: seq<Details>)
    ensures var calls := Get(c, q, list).calls; var name := Resolve(c, q.preferred);
      if name.None? then calls == []
      else
        && |calls| >= 2
        && calls[0] == Lock(q.subject, q.alts) && calls[|calls| - 1] == Unlock(q.subject, q.alts)
        && InnerCalls(name.value, q, calls[1..|calls| - 1])
  {
    var name := Resolve(c, q.preferred);
    if name.Some? {
      LockedInner(c, name.value, q, list);
      var calls := Get(c, q, list).calls;
      assert calls[1..|calls| - 1] == Locked(c, name.value, q, list).calls;
    }
  }

  // ---- what one call leaves alone ----

  /** As far as the certificate is still valid at `end`, the lists agree on it. */
  predicate SameFor(x: Details, list: seq<Details>, list': seq<Details>, end: int) {
    x.ValidFor(end, 0) ==> (x in list <==> x in list')
  }

  /** What no save of a request changes: the other unexpired certificates, and that identities are unique. */
  ghost predicate LeftAlone(x: Details, list: seq<Details>, list': seq<Details>, end: int) {
    SameFor(x, list, list', end) && (JsonStore.Distinct(list) ==> JsonStore.Distinct(list'))
  }

  lemma {:induction false} SaveLeavesAlone(name: string, q: Request, list: seq<Details>, d: Details, t: int, end: int, x: Details)
    requires Ours(name, q, d) && !Ours(name, q, x) && t <= end
    ensures LeftAlone(x, list, JsonStore.Save(list, d, t), end)
  {
    JsonStore.SaveKeepsOthers(list, d, t, x);
    assert !x.SameIdentity(d);
    if JsonStore.Distinct(list) {
      JsonStore.SaveMembers(list, d, t);
    }
  }

  lemma {:induction false} ObtainLeavesAlone(c: Config, name: string, q: Request, list: seq<Details>, x: Details)
    requires name in c.suppliers && q.env.Ordered() && !Ours(name, q, x)
    ensures var o := Obtain(c, name, q, list);
      LeftAlone(x, list, o.list, q.env.end) && (o.result.Some? ==> Ours(name, q, o.result.value))
  {
    var o := Obtain(c, name, q, list);
    ObtainInner(c, name, q, list);
    if |o.calls| == 3 {
      SaveLeavesAlone(name, q, list, o.calls[2].cert, q.env.save, q.env.end, x);
    }
  }

  lemma {:induction false} MaintainLeavesAlone(c: Config, name: string, q: Request, cert: Details, list: seq<Details>, x: Details)
    requires name in c.suppliers && q.env.Ordered() && !Ours(name, q, x) && Ours(name, q, cert)
    ensures var o := Maintain(c, name, q, cert, list);
      LeftAlone(x, list, o.list, q.env.end) && (o.result.Some? ==> Ours(name, q, o.result.value))
  {
    assert LeftAlone(x, list, list, q.env.end);
    hide Obtain, LeftAlone;
    ObtainLeavesAlone(c, name, q, list, x);
    var o := StapleCert(c.suppliers[name], cert, q, list);
    if |o.calls| == 2 {
      assert Ours(name, q, o.calls[1].cert);
      SaveLeavesAlone(name, q, list, o.calls[1].cert, q.env.save, q.env.end, x);
    }
  }

  lemma {:induction false} RefreshLeavesAlone(s: Supplier, name: string, q: Request, cert: Details, list: seq<Details>, x: Details)
    requires q.env.Ordered() && !Ours(name, q, x) && Ours(name, q, cert)
    ensures var r := RefreshAri(s, cert, q, list);
      LeftAlone(x, list, r.list, q.env.end) && Ours(name, q, r.cert)
  {
    RefreshInner(s, name, q, cert, list);
    var r := RefreshAri(s, cert, q, list);
    if |r.calls| == 2 {
      SaveLeavesAlone(name, q, list, r.cert, q.env.ariSave, q.env.end, x);
    }
  }

  /**
   A request resolved to one supplier returns only certificates for its names, of that
   provider or of none, and leaves every other unexpired certificate as it was.
   */
  lemma {:induction false} GetLeavesAlone(c: Config, q: Request, list: seq<Details>, x: Details)
    requires q.env.Ordered()
    requires Resolve(c, q.preferred).Some? ==> !Ours(Resolve(c, q.preferred).value, q, x)
    ensures var o := Get(c, q, list);
      && LeftAlone(x, list, o.list, q.env.end)
      && (o.result.Some? ==> Resolve(c, q.preferred).Some? && Ours(Resolve(c, q.preferred).value, q, o.result.value))
  {
    if Resolve(c, q.preferred).Some? {
      var name := Resolve(c, q.preferred).value;
      var found := JsonStore.Lookup(list, name, q.subject, q.alts);
      if found.None? {
        ObtainLeavesAlone(c, name, q, list, x);
      } else {
        RefreshLeavesAlone(c.suppliers[name], name, q, found.value, list, x);
        var r := RefreshAri(c.suppliers[name], found.value, q, list);
        MaintainLeavesAlone(c, name, q, r.cert, r.list, x);
      }
    }
  }

  // ---- what is returned is what is stored ----

  /** The certificate a request for these names would find in the store. */
  predicate Current(name: string, q: Request, list: seq<Details>, d: Details) {
    && d in list && Ours(name, q, d)
    && (d.provider == name || forall x :: x in list ==> !JsonStore.Matches(x, name, q.subject, q.alts))
  }

  lemma {:induction false} CurrentIsFound(name: string, q: Request, list: seq<Details>, d: Details)
    requires JsonStore.Distinct(list) && Current(name, q, list, d)
    ensures JsonStore.Lookup(list, name, q.subject, q.alts) == Some(d)
  {
    assert JsonStore.Matches(d, d.provider, q.subject, q.alts);
    var found := JsonStore.Lookup(list, name, q.subject, q.alts);
    assert found.Some? && found.value.provider == d.provider;
    JsonStore.DistinctMembers(list, found.value, d);
  }

  /** Either gone by the end of the call because it expired, or the one that would be found. */
  ghost predicate StoredUnlessExpired(name: string, q: Request, list: seq<Details>, d: Details) {
    JsonStore.Distinct(list) && (d.ValidFor(q.env.end, 0) ==> Current(name, q, list, d))
  }

  lemma {:induction false} ObtainStores(c: Config, name: string, q: Request, list: seq<Details>)
    requires name in c.suppliers && q.env.Ordered() && JsonStore.Distinct(list)
    ensures var o := Obtain(c, name, q, list);
      o.result.Some? ==> StoredUnlessExpired(name, q, o.list, o.result.value)
  {
    var o := Obtain(c, name, q, list);
    if o.result.Some? {
      var d := o.result.value;
      assert o.list == JsonStore.Save(list, d, q.env.save) && d.provider == name && Ours(name, q, d);
      JsonStore.SaveMembers(list, d, q.env.save);
    }
  }

  lemma {:induction false} RefreshStores(s: Supplier, name: string, q: Request, cert: Details, list: seq<Details>)
    requires q.env.Ordered() && JsonStore.Distinct(list) && Current(name, q, list, cert)
    ensures var r := RefreshAri(s, cert, q, list);
      && StoredUnlessExpired(name, q, r.list, r.cert) && Ours(name, q, r.cert)
      && (r.cert.provider == name || forall x :: x in r.list ==> !JsonStore.Matches(x, name, q.subject, q.alts))
  {
    RefreshInner(s, name, q, cert, list);
    var r := RefreshAri(s, cert, q, list);
    if r.list != list {
      JsonStore.SaveMembers(list, r.cert, q.env.ariSave);
      assert r.cert.provider == cert.provider;
    }
  }

  lemma {:induction false} MaintainStores(c: Config, name: string, q: Request, cert: Details, list: seq<Details>)
    requires name in c.suppliers && q.env.Ordered() && Ours(name, q, cert) && StoredUnlessExpired(name, q, list, cert)
    requires cert.provider == name || forall x :: x in list ==> !JsonStore.Matches(x, name, q.subject, q.alts)
    ensures var o := Maintain(c, name, q, cert, list);
      o.result.Some? ==> StoredUnlessExpired(name, q, o.list, o.result.value)
  {
    ObtainStores(c, name, q, list);
    var stapled := c.suppliers[name].UpdateStaple(cert, q.env.stapleReply);
    if stapled.Some? {
      assert Ours(name, q, stapled.value) && stapled.value.provider == cert.provider;
      JsonStore.SaveMembers(list, stapled.value, q.env.save);
    }
  }

  /**
   Whatever GetCertificate returns, renewed, stapled or with new renewal information, is
   what the store would give for the same request afterwards, unless it expired meanwhile.
   */
  lemma {:induction false} ReturnedIsStored(c: Config, q: Request, list: seq<Details>)
    requires q.env.Ordered() && JsonStore.Distinct(list) && Resolve(c, q.preferred).Some?
    ensures var o := Get(c, q, list);
      o.result.Some? && o.result.value.ValidFor(q.env.end, 0) ==>
        JsonStore.Lookup(o.list, Resolve(c, q.preferred).value, q.subject, q.alts) == o.result
  {
    var name := Resolve(c, q.preferred).value;
    var found := JsonStore.Lookup(list, name, q.subject, q.alts);
    var inner := Locked(c, name, q, list);
    if found.None? {
      ObtainStores(c, name, q, list);
    } else {
      assert Current(name, q, list, found.value);
      RefreshStores(c.suppliers[name], name, q, found.value, list);
      var r := RefreshAri(c.suppliers[name], found.value, q, list);
      MaintainStores(c, name, q, r.cert, r.list);
    }
    if inner.result.Some? && inner.result.value.ValidFor(q.env.end, 0) {
      CurrentIsFound(name, q, inner.list, inner.result.value);
    }
  }

  // ---- sequential runs ----

  ghost function ListAt(c: Config, list: seq<Details>, qs: seq<Request>, k: nat): seq<Details>
    requires k <= |qs|
  {
    if k == 0 then list else Get(c, qs[k - 1], ListAt(c, list, qs, k - 1)).list
  }

  /** Requests one after another under one clock. */
  ghost predicate Sequential(qs: seq<Request>) {
    && (forall i :: 0 <= i < |qs| ==> qs[i].env.Ordered())
    && (forall i, j :: 0 <= i < j < |qs| ==> qs[i].env.end <= qs[j].env.start)
  }

  /** Some certificate no request could touch; any will do to state that the list stays distinct. */
  lemma {:induction false} NotOurs(c: Config, q: Request) returns (x: Details)
    ensures Resolve(c, q.preferred).Some? ==> !Ours(Resolve(c, q.preferred).value, q, x)
  {
    x := Details("", q.subject + "x", [], 0, 0, false, 0, 0, "");
    assert |q.subject + "x"| != |q.subject|;
  }

  lemma {:induction false} DistinctAt(c: Config, list: seq<Details>, qs: seq<Request>, k: nat)
    requires k <= |qs| && Sequential(qs) && JsonStore.Distinct(list)
    ensures JsonStore.Distinct(ListAt(c, list, qs, k))
  {
    if k > 0 {
      DistinctAt(c, list, qs, k - 1);
      var x := NotOurs(c, qs[k - 1]);
      GetLeavesAlone(c, qs[k - 1], ListAt(c, list, qs, k - 1), x);
    }
  }

  /**
   Provider isolation: over every run in which no request resolves to a provider, the
   unexpired certificates of that provider stay exactly what they were.
   */
  lemma {:induction false} ProviderIsolation(c: Config, list: seq<Details>, qs: seq<Request>, k: nat, x: Details)
    requires 0 < k <= |qs| && Sequential(qs)
    requires x.provider != "" && forall i :: 0 <= i < k ==> Resolve(c, qs[i].preferred) != Some(x.provider)
    ensures SameFor(x, list, ListAt(c, list, qs, k), qs[k - 1].env.end)
  {
    GetLeavesAlone(c, qs[k - 1], ListAt(c, list, qs, k - 1), x);
    if k > 1 {
      ProviderIsolation(c, list, qs, k - 1, x);
    }
  }

  // ---- renewal in time ----

  ghost predicate AllRenewInTime(list: seq<Details>) {
    forall d :: d in list ==> RenewsInTime(d)
  }

  /** The renewal windows given to the certificates this request handles lie before their expiry. */
  predicate WindowsOk(c: Config, q: Request, list: seq<Details>) {
    var name := Resolve(c, q.preferred);
    name.Some? ==>
      var found := JsonStore.Lookup(list, name.value, q.subject, q.alts);
      var issued := c.suppliers[name.value].Issue(q.subject, q.alts, c.shouldStaple, q.env.issue, q.env.issueReply);
      && DrawOk(q.env.ari) && (found.Some? ==> WindowBeforeExpiry(q.env.ari, found.value))
      && DrawOk(q.env.ariAfterIssue) && (issued.Some? ==> WindowBeforeExpiry(q.env.ariAfterIssue, issued.value))
  }

  /** A returned certificate that this request did not have issued had not expired when it was checked for renewal. */
  ghost predicate ReturnsUnexpired(q: Request, o: Outcome) {
    o.result.Some? && (forall d :: Issue(d) !in o.calls) ==> o.result.value.ValidFor(q.env.renewCheck, 0)
  }

  /** A certificate that need not be renewed has not expired. */
  lemma {:induction false} NoRenewalMeansValid(s: Supplier, d: Details, now: int)
    requires RenewsInTime(d) && !d.ShouldRenew(now, s.MinCertificateValidity())
    ensures d.ValidFor(now, 0)
  {
  }

  /** The condition is exact: any other renewal time leaves an instant at which an expired certificate is not renewed. */
  lemma {:induction false} RenewsInTimeIsExact(s: Supplier, d: Details)
    ensures RenewsInTime(d) <==> forall now :: !d.ShouldRenew(now, s.MinCertificateValidity()) ==> d.ValidFor(now, 0)
  {
    if !RenewsInTime(d) {
      assert !d.ShouldRenew(d.ariRenewalTime, s.MinCertificateValidity());
    }
  }

  lemma {:induction false} SaveRenewsInTime(list: seq<Details>, d: Details, t: int)
    requires AllRenewInTime(list) && RenewsInTime(d)
    ensures AllRenewInTime(JsonStore.Save(list, d, t))
  {
    forall x | x in JsonStore.Save(list, d, t) ensures RenewsInTime(x) {
      JsonStore.SaveKeepsOthers(list, d, t, x);
    }
  }

  lemma {:induction false} ObtainRenewsInTime(c: Config, name: string, q: Request, list: seq<Details>)
    requires name in c.suppliers && AllRenewInTime(list) && DrawOk(q.env.ariAfterIssue)
    requires var issued := c.suppliers[name].Issue(q.subject, q.alts, c.shouldStaple, q.env.issue, q.env.issueReply);
      issued.Some? ==> WindowBeforeExpiry(q.env.ariAfterIssue, issued.value)
    ensures AllRenewInTime(Obtain(c, name, q, list).list)
  {
    var s := c.suppliers[name];
    var issued := s.Issue(q.subject, q.alts, c.shouldStaple, q.env.issue, q.env.issueReply);
    if issued.Some? {
      var labelled := issued.value.(provider := name);
      var updated := s.UpdateRenewalInfo(labelled, q.env.issue, q.env.ariAfterIssue);
      if updated.Some? {
        UpdateRenewsInTime(s, labelled, q.env.issue, q.env.ariAfterIssue);
      }
      SaveRenewsInTime(list, if updated.Some? then updated.value else labelled, q.env.save);
    }
  }

  lemma {:induction false} RefreshRenewsInTime(s: Supplier, cert: Details, q: Request, list: seq<Details>)
    requires AllRenewInTime(list) && RenewsInTime(cert)
    requires DrawOk(q.env.ari) && WindowBeforeExpiry(q.env.ari, cert)
    ensures var r := RefreshAri(s, cert, q, list);
      AllRenewInTime(r.list) && RenewsInTime(r.cert)
  {
    var updated := s.UpdateRenewalInfo(cert, q.env.ariCheck, q.env.ari);
    if updated.Some? {
      UpdateRenewsInTime(s, cert, q.env.ariCheck, q.env.ari);
      SaveRenewsInTime(list, updated.value, q.env.ariSave);
    }
  }

  lemma {:induction false} MaintainRenewsInTime(c: Config, name: string, q: Request, cert: Details, list: seq<Details>)
    requires name in c.suppliers && AllRenewInTime(list) && RenewsInTime(cert)
    requires DrawOk(q.env.ariAfterIssue)
    requires var issued := c.suppliers[name].Issue(q.subject, q.alts, c.shouldStaple, q.env.issue, q.env.issueReply);
      issued.Some? ==> WindowBeforeExpiry(q.env.ariAfterIssue, issued.value)
    ensures var o := Maintain(c, name, q, cert, list);
      AllRenewInTime(o.list) && ReturnsUnexpired(q, o)
  {
    var s := c.suppliers[name];
    if cert.ShouldRenew(q.env.renewCheck, s.MinCertificateValidity()) {
      ObtainRenewsInTime(c, name, q, list);
      assert Obtain(c, name, q, list).calls[0].Issue?;
    } else {
      NoRenewalMeansValid(s, cert, q.env.renewCheck);
      var stapled := s.UpdateStaple(cert, q.env.stapleReply);
      if stapled.Some? {
        SaveRenewsInTime(list, stapled.value, q.env.save);
      }
    }
  }

  /**
   While renewal windows lie before expiry, a call never returns a certificate from the
   store that has already expired, and every stored renewal time stays before expiry.
   */
  lemma {:induction false} NeverReturnsExpired(c: Config, q: Request, list: seq<Details>)
    requires AllRenewInTime(list) && WindowsOk(c, q, list)
    ensures var o := Get(c, q, list);
      AllRenewInTime(o.list) && ReturnsUnexpired(q, o)
  {
    var name := Resolve(c, q.preferred);
    if name.Some? {
      var found := JsonStore.Lookup(list, name.value, q.subject, q.alts);
      var inner, o := Locked(c, name.value, q, list), Get(c, q, list);
      assert forall d :: Issue(d) in inner.calls ==> Issue(d) in o.calls;
      if found.None? {
        ObtainRenewsInTime(c, name.value, q, list);
        assert inner.calls[0].Issue?;
      } else {
        var s := c.suppliers[name.value];
        RefreshRenewsInTime(s, found.value, q, list);
        var r := RefreshAri(s, found.value, q, list);
        MaintainRenewsInTime(c, name.value, q, r.cert, r.list);
        var m := Maintain(c, name.value, q, r.cert, r.list);
        assert forall d :: Issue(d) in m.calls ==> Issue(d) in inner.calls;
      }
    }
  }

  ghost predicate WindowsOkAt(c: Config, list: seq<Details>, qs: seq<Request>, i: nat)
    requires i < |qs|
  {
    WindowsOk(c, qs[i], ListAt(c, list, qs, i))
  }

  /** The same at every request of a run. */
  lemma {:induction false} RenewInTimeAt(c: Config, list: seq<Details>, qs: seq<Request>, k: nat)
    requires k <= |qs| && AllRenewInTime(list)
    requires forall i :: 0 <= i < k ==> WindowsOkAt(c, list, qs, i)
    ensures AllRenewInTime(ListAt(c, list, qs, k))
    ensures forall i :: 0 <= i < k ==> ReturnsUnexpired(qs[i], Get(c, qs[i], ListAt(c, list, qs, i)))
  {
    hide Get, ReturnsUnexpired;
    if k > 0 {
      RenewInTimeAt(c, list, qs, k - 1);
      assert WindowsOkAt(c, list, qs, k - 1);
      NeverReturnsExpired(c, qs[k - 1], ListAt(c, list, qs, k - 1));
    }
  }

  // ---- when an expired certificate is returned ----

  /** The certificate a request has in hand after refreshing renewal information. */
  function InHand(c: Config, name: string, q: Request, list: seq<Details>): Option<Details>
    requires name in c.suppliers
  {
    var found := JsonStore.Lookup(list, name, q.subject, q.alts);
    if found.None? then None else Some(RefreshAri(c.suppliers[name], found.value, q, list).cert)
  }

  /** Whether a certificate that is not renewed gets as far as being returned. */
  predicate Delivers(s: Supplier, q: Request, cert: Details) {
    q.env.keyOk && (NeedsStaple(s, cert, q.env.stapleCheck) ==> s.UpdateStaple(cert, q.env.stapleReply).Some? && q.env.writeOk)
  }

  /**
   Exactly when a request returns a certificate from the store that has expired: when the
   renewal time last chosen for it has not come yet although its expiry has.
   */
  lemma {:induction false} ReturnsExpiredIff(c: Config, q: Request, list: seq<Details>)
    requires Resolve(c, q.preferred).Some?
    ensures var name := Resolve(c, q.preferred).value;
      var cert := InHand(c, name, q, list);
      !ReturnsUnexpired(q, Get(c, q, list)) <==>
        && cert.Some? && Delivers(c.suppliers[name], q, cert.value)
        && cert.value.ariRenewalTime != ZERO_TIME
        && cert.value.notAfter <= q.env.renewCheck <= cert.value.ariRenewalTime
  {
    hide JsonStore.Save, JsonStore.Lookup;
    var name := Resolve(c, q.preferred).value;
    var inner, o := Locked(c, name, q, list), Get(c, q, list);
    var found := JsonStore.Lookup(list, name, q.subject, q.alts);
    assert forall d :: Issue(d) in inner.calls <==> Issue(d) in o.calls;
    if found.None? {
      assert inner.calls[0].Issue?;
    } else {
      var r := RefreshAri(c.suppliers[name], found.value, q, list);
      var m := Maintain(c, name, q, r.cert, r.list);
      assert forall d :: Issue(d) in m.calls <==> Issue(d) in inner.calls;
      if r.cert.ShouldRenew(q.env.renewCheck, c.suppliers[name].MinCertificateValidity()) {
        assert m.calls[0].Issue?;
      }
    }
  }

  /** Such a request: the certificate expired at 10, its renewal time is 20, and it is 15. */
  lemma {:induction false} ExpiredIsReturned() returns (c: Config, q: Request, list: seq<Details>, d: Details)
    ensures q.env.Ordered() && d in list && !d.ValidFor(q.env.start, 0) && Get(c, q, list).result == Some(d)
  {
    d := Details("p", "s", [], 10, 0, false, 30, 20, "");
    c, list := Config(map["p" := Lego], [], false), [d];
    var env := Env(15, 15, 15, 15, 15, 15, 15, 15, AriFails, IssueFails, AriFails, StapleFails, true, true, true);
    q := Request("p", "s", [], env);
    assert JsonStore.Matches(d, "p", "s", []);
    assert JsonStore.Lookup(list, "p", "s", []) == Some(d);
  }

  /**
   When GetExistingCertificate reports a certificate that needs no renewal, and its renewal
   information is not due, GetCertificate at that instant returns that same certificate,
   with no supplier call and no save. While renewal times are before expiry, these are the
   only instants at which it makes no such call.
   */
  lemma {:induction false} ExistingAgreesWithGet(c: Config, q: Request, list: seq<Details>, now: int)
    requires Resolve(c, q.preferred).Some? && q.env.AtOnce(now)
    ensures var e := GetExisting(c, q.preferred, q.subject, q.alts, list, now, q.env.keyOk);
      var o := Get(c, q, list);
      var quiet := [Lock(q.subject, q.alts), Unlock(q.subject, q.alts)];
      && (e.cert.Some? && !e.needRenewal && e.cert.value.ariNextUpdate >= now ==>
          o.calls == quiet && o.result == e.cert && o.list == list)
      && (AllRenewInTime(list) && q.env.keyOk && o.calls == quiet ==>
          e.cert.Some? && !e.needRenewal && e.cert.value.ariNextUpdate >= now)
  {
    var name := Resolve(c, q.preferred).value;
    QuietIff(c, name, q, list, now);
    var inner, o := Locked(c, name, q, list), Get(c, q, list);
    assert inner.calls == [] <==> o.calls == [Lock(q.subject, q.alts), Unlock(q.subject, q.alts)] by {
      assert |o.calls| == |inner.calls| + 2;
    }
    var s, found := c.suppliers[name], JsonStore.Lookup(list, name, q.subject, q.alts);
    if AllRenewInTime(list) && found.Some? && !found.value.ShouldRenew(now, s.MinCertificateValidity()) {
      NoRenewalMeansValid(s, found.value, now);
    }
  }

  /** A locked section makes no call exactly when the certificate found is not due for anything. */
  lemma {:induction false} QuietIff(c: Config, name: string, q: Request, list: seq<Details>, now: int)
    requires name in c.suppliers && q.env.AtOnce(now)
    ensures var s, found := c.suppliers[name], JsonStore.Lookup(list, name, q.subject, q.alts);
      var o := Locked(c, name, q, list);
      && (o.calls == [] <==>
          && found.Some? && found.value.ariNextUpdate >= now
          && !found.value.ShouldRenew(now, s.MinCertificateValidity()) && !NeedsStaple(s, found.value, now))
      && (o.calls == [] ==> o.result == KeyPair(found.value, q.env) && o.list == list)
  {
  }

  // ---- how often certificates are issued ----

  /** A certificate as the self-signed supplier issues it, under its provider's name. */
  predicate SelfSignedCert(c: Config, d: Details) {
    && d.provider != "" && d.provider in c.suppliers && c.suppliers[d.provider] == SelfSigned
    && d.ariRenewalTime == ZERO_TIME && !d.mustStaple
  }

  /** The request has this certificate issued. */
  predicate Issues(c: Config, q: Request, list: seq<Details>, d: Details) {
    Issue(Some(d)) in Get(c, q, list).calls
  }

  /** What having a certificate issued says about it and about the state before and after. */
  lemma {:induction false} IssueFacts(c: Config, q: Request, list: seq<Details>, d: Details)
    requires q.env.Ordered() && JsonStore.Distinct(list) && Issues(c, q, list, d)
    requires d.provider in c.suppliers && c.suppliers[d.provider] == SelfSigned
    ensures Resolve(c, q.preferred) == Some(d.provider) && d.IsFor(q.subject, q.alts)
    ensures d.notAfter == q.env.issue + 30 * DAY && !d.mustStaple && d.ariRenewalTime == ZERO_TIME
    ensures d.ValidFor(q.env.end, 0) ==> d in Get(c, q, list).list
    ensures forall x :: x in list && SelfSignedCert(c, x) && x.SameIdentity(d) ==> q.env.renewCheck + 7 * DAY >= x.notAfter
  {
    var name := Resolve(c, q.preferred).value;
    var found := JsonStore.Lookup(list, name, q.subject, q.alts);
    var inner := Locked(c, name, q, list);
    assert Issue(Some(d)) in inner.calls;
    if found.Some? {
      var r := RefreshAri(c.suppliers[name], found.value, q, list);
      assert Issue(Some(d)) in Maintain(c, name, q, r.cert, r.list).calls;
      IssuedFacts(c, name, q, r.list, d);
      var y := NotOurs(c, q);
      RefreshLeavesAlone(c.suppliers[name], name, q, found.value, list, y);
      JsonStore.SaveMembers(r.list, d, q.env.save);
      forall x | x in list && SelfSignedCert(c, x) && x.SameIdentity(d) ensures q.env.renewCheck + 7 * DAY >= x.notAfter {
        OwnCertIsFound(c, q, list, x, d);
      }
    } else {
      IssuedFacts(c, name, q, list, d);
      JsonStore.SaveMembers(list, d, q.env.save);
    }
  }

  lemma {:induction false} IssuedFacts(c: Config, name: string, q: Request, list: seq<Details>, d: Details)
    requires name in c.suppliers && Issue(Some(d)) in Obtain(c, name, q, list).calls
    ensures d.provider == name && d.subject == q.subject && d.altNames == q.alts && d.ariRenewalTime == ZERO_TIME
    ensures c.suppliers[name] == SelfSigned ==>
      && d.notAfter == q.env.issue + 30 * DAY && !d.mustStaple
      && Obtain(c, name, q, list).list == JsonStore.Save(list, d, q.env.save)
  {
  }

  /** A stored self-signed certificate is the one its own requests find. */
  lemma {:induction false} OwnCertIsFound(c: Config, q: Request, list: seq<Details>, x: Details, d: Details)
    requires JsonStore.Distinct(list) && x in list && SelfSignedCert(c, x) && x.SameIdentity(d)
    requires Resolve(c, q.preferred) == Some(d.provider) && d.IsFor(q.subject, q.alts)
    ensures JsonStore.Lookup(list, d.provider, q.subject, q.alts) == Some(x)
  {
    assert JsonStore.Matches(x, d.provider, q.subject, q.alts);
    var found := JsonStore.FirstMatch(list, d.provider, q.subject, q.alts);
    JsonStore.DistinctMembers(list, found.value, x);
  }

  /** A stored self-signed certificate survives every request until it expires or is issued anew. */
  lemma {:induction false} SelfSignedStays(c: Config, q: Request, list: seq<Details>, x: Details)
    requires q.env.Ordered() && JsonStore.Distinct(list) && x in list && SelfSignedCert(c, x) && x.ValidFor(q.env.end, 0)
    ensures x in Get(c, q, list).list || exists d :: Issues(c, q, list, d) && d.SameIdentity(x)
  {
    var name := Resolve(c, q.preferred);
    if name.Some? && Ours(name.value, q, x) {
      OwnCertIsFound(c, q, list, x, x);
      var r := RefreshAri(SelfSigned, x, q, list);
      JsonStore.SaveMembers(list, x, q.env.ariSave);
      assert x in r.list && r.cert == x;
      var inner, o := Maintain(c, name.value, q, x, r.list), Get(c, q, list);
      if inner.list != r.list {
        var d := inner.calls[0].issued.value;
        IssuedFacts(c, name.value, q, r.list, d);
        assert Issue(Some(d)) in Locked(c, name.value, q, list).calls;
        assert Issues(c, q, list, d);
      }
    } else {
      GetLeavesAlone(c, q, list, x);
    }
  }

  ghost predicate IssuesAt(c: Config, list: seq<Details>, qs: seq<Request>, k: nat, d: Details)
    requires k < |qs|
  {
    Issues(c, qs[k], ListAt(c, list, qs, k), d)
  }

  ghost predicate IssuedAgain(c: Config, list: seq<Details>, qs: seq<Request>, i: nat, k: nat, x: Details)
    requires k <= |qs|
  {
    exists m, d :: i < m < k && IssuesAt(c, list, qs, m, d) && d.SameIdentity(x)
  }

  /** Between two issuances the first certificate is stored, until it expires. */
  lemma {:induction false} StoredBetween(c: Config, list: seq<Details>, qs: seq<Request>, i: nat, k: nat, x: Details)
    requires i < k <= |qs| && Sequential(qs) && JsonStore.Distinct(list)
    requires IssuesAt(c, list, qs, i, x) && x.provider != "" && x.provider in c.suppliers && c.suppliers[x.provider] == SelfSigned
    ensures SelfSignedCert(c, x)
    ensures x in ListAt(c, list, qs, k) || !x.ValidFor(qs[k - 1].env.end, 0) || IssuedAgain(c, list, qs, i, k, x)
  {
    hide Get, Issues, Certificates.Details.SameIdentity;
    DistinctAt(c, list, qs, i);
    IssueFacts(c, qs[i], ListAt(c, list, qs, i), x);
    if i < k - 1 {
      StoredBetween(c, list, qs, i, k - 1, x);
      DistinctAt(c, list, qs, k - 1);
      if IssuedAgain(c, list, qs, i, k - 1, x) {
        var m, d :| i < m < k - 1 && IssuesAt(c, list, qs, m, d) && d.SameIdentity(x);
        assert IssuedAgain(c, list, qs, i, k, x);
      } else if x in ListAt(c, list, qs, k - 1) && x.ValidFor(qs[k - 1].env.end, 0) {
        SelfSignedStays(c, qs[k - 1], ListAt(c, list, qs, k - 1), x);
        if x !in ListAt(c, list, qs, k) {
          var d :| Issues(c, qs[k - 1], ListAt(c, list, qs, k - 1), d) && d.SameIdentity(x);
          assert IssuesAt(c, list, qs, k - 1, d);
        }
      }
    }
  }

  /** Any two self-signed issuances for the same names are at least 23 days apart. */
  lemma {:induction false} IssuancesAreSpaced(c: Config, list: seq<Details>, qs: seq<Request>, i: nat, j: nat, x: Details, y: Details)
    requires i < j < |qs| && Sequential(qs) && JsonStore.Distinct(list)
    requires IssuesAt(c, list, qs, i, x) && IssuesAt(c, list, qs, j, y) && x.SameIdentity(y)
    requires x.provider != "" && x.provider in c.suppliers && c.suppliers[x.provider] == SelfSigned
    ensures qs[j].env.issue >= qs[i].env.issue + 23 * DAY
    decreases j - i
  {
    DistinctAt(c, list, qs, i);
    DistinctAt(c, list, qs, j);
    IssueFacts(c, qs[i], ListAt(c, list, qs, i), x);
    IssueFacts(c, qs[j], ListAt(c, list, qs, j), y);
    StoredBetween(c, list, qs, i, j, x);
    if IssuedAgain(c, list, qs, i, j, x) {
      var m, d :| i < m < j && IssuesAt(c, list, qs, m, d) && d.SameIdentity(x);
      IssuancesAreSpaced(c, list, qs, i, m, x, d);
    }
  }

  lemma {:induction false} SameIdentityVia(x: Details, y: Details, z: Details)
    requires x.SameIdentity(z) && y.SameIdentity(z)
    ensures x.SameIdentity(y)
  {
  }

  ghost predicate IssuanceOf(c: Config, list: seq<Details>, qs: seq<Request>, k: nat, d: Details, x: Details) {
    k < |qs| && IssuesAt(c, list, qs, k, d) && d.SameIdentity(x)
  }

  /** So in a series of issuances for the same names, the one `n` places after the first is at least `23 * n` days later. */
  lemma {:induction false} IssuanceRate(c: Config, list: seq<Details>, qs: seq<Request>, at: seq<nat>, certs: seq<Details>, n: nat)
    requires Sequential(qs) && JsonStore.Distinct(list) && n < |at| == |certs|
    requires forall i, j :: 0 <= i < j < |at| ==> at[i] < at[j]
    requires forall i :: 0 <= i < |at| ==> IssuanceOf(c, list, qs, at[i], certs[i], certs[0])
    requires certs[0].provider != "" && certs[0].provider in c.suppliers && c.suppliers[certs[0].provider] == SelfSigned
    ensures at[0] < |qs| && at[n] < |qs| && qs[at[n]].env.issue >= qs[at[0]].env.issue + 23 * DAY * n
  {
    hide IssuesAt;
    assert IssuanceOf(c, list, qs, at[0], certs[0], certs[0]);
    if n > 0 {
      assert IssuanceOf(c, list, qs, at[n], certs[n], certs[0]);
      assert IssuanceOf(c, list, qs, at[n - 1], certs[n - 1], certs[0]);
      IssuanceRate(c, list, qs, at, certs, n - 1);
      SameIdentityVia(certs[n - 1], certs[n], certs[0]);
      IssuancesAreSpaced(c, list, qs, at[n - 1], at[n], certs[n - 1], certs[n]);
    }
  }
}
