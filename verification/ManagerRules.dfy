/**
 The manager's decisions in terms of what is written in certificates and replies: when a
 stored certificate is served, when renewal information, a renewal or a staple is asked
 for, what comes back, and when a request fails.
 */
module ManagerRules {
  import opened Text
  import opened Certificates
  import opened Suppliers
  import opened CertManager
  import JsonStore
  import ManagerSafety

  /** Due for renewal: past the time the ACME server suggested, or, without one, within 30 days of expiry, 7 if self-signed. */
  predicate Due(s: Supplier, d: Details, now: int) {
    if d.ariRenewalTime == ZERO_TIME then d.notAfter <= now + (if s.Lego? then 30 * DAY else 7 * DAY)
    else d.ariRenewalTime < now
  }

  /** In need of a staple: it must have one, and its own runs out within a day, or a second if self-signed. */
  predicate Unstapled(s: Supplier, d: Details, now: int) {
    d.mustStaple && d.nextOcspUpdate <= now + (if s.Lego? then DAY else SECOND)
  }

  /** Fit to be served: not expired, and with a current staple if it must have one. */
  predicate Usable(d: Details, now: int) {
    d.notAfter > now && (d.mustStaple ==> d.nextOcspUpdate > now)
  }

  // ---- GetExistingCertificate ----

  /**
   GetExistingCertificate returns a certificate exactly when the one looked up is fit to be
   served, and then that one; it asks for renewal exactly when there is none fit to be
   served, or it is due or in need of a staple. How old its renewal information is does not
   matter. Without a supplier it does neither.
   */
  lemma {:induction false} ExistingIs(c: Config, preferred: string, subject: string, alts: seq<string>, list: seq<Details>, now: int, keyOk: bool)
    ensures var e, name := GetExisting(c, preferred, subject, alts, list, now, keyOk), Resolve(c, preferred);
      if name.None? then e == Existing(None, false)
      else
        var found, s := JsonStore.Lookup(list, name.value, subject, alts), c.suppliers[name.value];
        && (e.cert.Some? <==> keyOk && found.Some? && Usable(found.value, now))
        && (e.cert.Some? ==> e.cert == found)
        && (e.needRenewal <==>
            found.None? || !Usable(found.value, now) || Due(s, found.value, now) || Unstapled(s, found.value, now))
  {
    hide JsonStore.Lookup;
  }

  /** A certificate whose renewal information is stale, and nothing else, is served without renewal; only GetCertificate then asks for new information. */
  lemma {:induction false} StaleInfoIsRefreshed(c: Config, q: Request, list: seq<Details>, now: int)
    requires Resolve(c, q.preferred).Some? && q.env.AtOnce(now) && q.env.keyOk
    requires var name := Resolve(c, q.preferred).value; var found := JsonStore.Lookup(list, name, q.subject, q.alts);
      && found.Some? && Usable(found.value, now) && found.value.ariNextUpdate < now
      && !Due(c.suppliers[name], found.value, now) && !Unstapled(c.suppliers[name], found.value, now)
    ensures var e := GetExisting(c, q.preferred, q.subject, q.alts, list, now, q.env.keyOk);
      e.cert.Some? && !e.needRenewal && RenewalInfo in Get(c, q, list).calls
  {
    hide JsonStore.Save;
    ExistingIs(c, q.preferred, q.subject, q.alts, list, now, q.env.keyOk);
    var name := Resolve(c, q.preferred).value;
    var found := JsonStore.Lookup(list, name, q.subject, q.alts);
    var r := RefreshAri(c.suppliers[name], found.value, q, list);
    assert r.calls[0] == RenewalInfo;
    assert RenewalInfo in Locked(c, name, q, list).calls;
  }

  // ---- GetCertificate ----

  ghost predicate HasIssued(calls: seq<Call>) {
    exists d :: Issue(d) in calls
  }

  /** A request for names with this certificate in hand has a new one issued. */
  predicate WillIssue(s: Supplier, q: Request, cert: Option<Details>) {
    cert.None? || Due(s, cert.value, q.env.renewCheck)
  }

  predicate WillStaple(s: Supplier, q: Request, cert: Option<Details>) {
    !WillIssue(s, q, cert) && Unstapled(s, cert.value, q.env.stapleCheck)
  }

  /** The supplier answers, and what it gave is stored and readable. */
  predicate Succeeds(s: Supplier, q: Request, cert: Option<Details>) {
    && q.env.keyOk
    && (WillIssue(s, q, cert) ==> q.env.issueReply.Issued? && q.env.writeOk)
    && (WillStaple(s, q, cert) ==> (s.SelfSigned? || q.env.stapleReply.Stapled?) && q.env.writeOk)
  }

  lemma {:induction false} ObtainDoes(c: Config, name: string, q: Request, list: seq<Details>)
    requires name in c.suppliers
    ensures var o := Obtain(c, name, q, list);
      && HasIssued(o.calls) && Staple !in o.calls
      && (o.result.Some? <==> q.env.keyOk && q.env.issueReply.Issued? && q.env.writeOk)
      && (o.result.Some? ==> IsNew(c, name, q, o.result.value))
  {
    hide JsonStore.Save;
    var o := Obtain(c, name, q, list);
    assert o.calls[0].Issue?;
    assert o.calls[0] in o.calls && Issue(o.calls[0].issued) in o.calls;
  }

  /** A certificate as it was issued for this request, labelled with its supplier and with renewal information if there is any. */
  predicate IsNew(c: Config, name: string, q: Request, d: Details)
    requires name in c.suppliers
  {
    && d.provider == name && d.subject == q.subject && d.altNames == q.alts
    && q.env.issueReply.Issued? && d.material == q.env.issueReply.material
    && if c.suppliers[name].SelfSigned? then
         && d.notAfter == d.nextOcspUpdate == q.env.issue + 30 * DAY && !d.mustStaple
         && d.ariRenewalTime == ZERO_TIME && d.ariNextUpdate == ZERO_TIME
       else
         && d.notAfter == q.env.issueReply.notAfter && d.mustStaple == q.env.issueReply.mustStaple
         && d.nextOcspUpdate == (if c.shouldStaple then q.env.issueReply.nextOcspUpdate else ZERO_TIME)
         && HasInfo(d, q.env.issue, q.env.ariAfterIssue)
  }

  /** A new certificate with the renewal information the ACME server gave at that time, or none. */
  predicate HasInfo(d: Details, now: int, reply: AriReply) {
    match reply
    case AriFails => d.ariRenewalTime == ZERO_TIME && d.ariNextUpdate == ZERO_TIME
    case NotSupported => d.ariRenewalTime == ZERO_TIME && d.ariNextUpdate == d.notAfter
    case Window(start, end, draw, retryAfter) =>
      && d.ariNextUpdate == now + retryAfter
      && d.ariRenewalTime == start + (if end - start >= SECOND then draw else 0)
  }

  /** The certificate with the staple the responder gave. */
  predicate IsStapled(s: Supplier, q: Request, cert: Details, d: Details) {
    if s.SelfSigned? then d == cert
    else
      && q.env.stapleReply.Stapled?
      && d == cert.(nextOcspUpdate := q.env.stapleReply.nextUpdate, material := q.env.stapleReply.material)
  }

  lemma {:induction false} MaintainDoes(c: Config, name: string, q: Request, cert: Details, list: seq<Details>)
    requires name in c.suppliers
    ensures var o, s := Maintain(c, name, q, cert, list), c.suppliers[name];
      && (HasIssued(o.calls) <==> WillIssue(s, q, Some(cert)))
      && (Staple in o.calls <==> WillStaple(s, q, Some(cert)))
      && (o.result.Some? <==> Succeeds(s, q, Some(cert)))
      && (o.result.Some? ==>
          if WillIssue(s, q, Some(cert)) then IsNew(c, name, q, o.result.value)
          else if WillStaple(s, q, Some(cert)) then IsStapled(s, q, cert, o.result.value)
          else o.result.value == cert)
  {
    hide JsonStore.Save, Obtain, IsNew;
    ObtainDoes(c, name, q, list);
  }

  lemma {:induction false} InnerDoes(c: Config, name: string, q: Request, list: seq<Details>)
    requires name in c.suppliers
    ensures var o, s, cert := Locked(c, name, q, list), c.suppliers[name], ManagerSafety.InHand(c, name, q, list);
      && (HasIssued(o.calls) <==> WillIssue(s, q, cert))
      && (Staple in o.calls <==> WillStaple(s, q, cert))
      && (o.result.Some? <==> Succeeds(s, q, cert))
      && (o.result.Some? ==>
          if WillIssue(s, q, cert) then IsNew(c, name, q, o.result.value)
          else if WillStaple(s, q, cert) then IsStapled(s, q, cert.value, o.result.value)
          else o.result == cert)
  {
    hide JsonStore.Save, JsonStore.Lookup, Obtain, Maintain, IsNew, IsStapled;
    var found := JsonStore.Lookup(list, name, q.subject, q.alts);
    if found.None? {
      ObtainDoes(c, name, q, list);
    } else {
      var r := RefreshAri(c.suppliers[name], found.value, q, list);
      var o, m := Locked(c, name, q, list), Maintain(c, name, q, r.cert, r.list);
      MaintainDoes(c, name, q, r.cert, r.list);
      assert forall d :: Issue(d) in o.calls <==> Issue(d) in m.calls;
      assert Staple in o.calls <==> Staple in m.calls;
    }
  }

  /**
   What a request does with the certificate it has in hand after refreshing its renewal
   information: it has a new one issued if there is none or it is due; otherwise it gets a
   staple if one is needed. It fails exactly when the supplier does, or when what it gave
   cannot be stored or read; and it returns what was issued, what was stapled, or what was
   in hand.
   */
  lemma {:induction false} RequestDoes(c: Config, q: Request, list: seq<Details>)
    requires Resolve(c, q.preferred).Some?
    ensures var name := Resolve(c, q.preferred).value;
      var o, s, cert := Get(c, q, list), c.suppliers[name], ManagerSafety.InHand(c, name, q, list);
      && (HasIssued(o.calls) <==> WillIssue(s, q, cert))
      && (Staple in o.calls <==> WillStaple(s, q, cert))
      && (o.result.Some? <==> Succeeds(s, q, cert))
      && (o.result.Some? ==>
          if WillIssue(s, q, cert) then IsNew(c, name, q, o.result.value)
          else if WillStaple(s, q, cert) then IsStapled(s, q, cert.value, o.result.value)
          else o.result == cert)
  {
    hide Locked, IsNew, IsStapled, WillIssue, WillStaple, Succeeds, ManagerSafety.InHand;
    var name := Resolve(c, q.preferred).value;
    InnerDoes(c, name, q, list);
    var inner, o := Locked(c, name, q, list), Get(c, q, list);
    assert forall d :: Issue(d) in o.calls <==> Issue(d) in inner.calls;
    assert Staple in o.calls <==> Staple in inner.calls;
  }

  /** Without a supplier a request fails and touches nothing. */
  lemma {:induction false} NoSupplierFails(c: Config, q: Request, list: seq<Details>)
    requires Resolve(c, q.preferred).None?
    ensures Get(c, q, list) == Outcome(None, list, [])
  {
  }

  // ---- renewal information ----

  /** The certificate in hand is the one looked up, with what the ACME server says about its renewal if that was due. */
  lemma {:induction false} InHandIs(c: Config, name: string, q: Request, list: seq<Details>)
    requires name in c.suppliers
    ensures var found, cert := JsonStore.Lookup(list, name, q.subject, q.alts), ManagerSafety.InHand(c, name, q, list);
      && cert.Some? == found.Some?
      && (found.Some? ==>
          && cert.value.(ariRenewalTime := 0, ariNextUpdate := 0) == found.value.(ariRenewalTime := 0, ariNextUpdate := 0)
          && (cert != found ==> c.suppliers[name].Lego? && found.value.ariNextUpdate < q.env.ariCheck && !q.env.ari.AriFails?))
  {
    hide JsonStore.Save, JsonStore.Lookup;
  }

  /**
   After the ACME server has answered, it is not asked about that certificate again before
   the time it said, or before the certificate's expiry if it does not offer this; after
   that it is. If it did not answer, nothing changes.
   */
  lemma {:induction false} RenewalInfoWaits(d: Details, now: int, reply: AriReply, q: Request, list: seq<Details>)
    ensures var u := Lego.UpdateRenewalInfo(d, now, reply);
      && (u.None? <==> reply.AriFails?)
      && (u.Some? ==>
          (RenewalInfo in RefreshAri(Lego, u.value, q, list).calls <==>
            q.env.ariCheck > if reply.Window? then now + reply.retryAfter else d.notAfter))
  {
    hide JsonStore.Save;
  }

  /** Every instant of a window that is a second or longer can become the renewal time; of a shorter one, its start does. */
  lemma {:induction false} AnyInstantCanBeDrawn(d: Details, now: int, start: int, end: int, retryAfter: int, x: int) returns (draw: int)
    requires start <= x < end || (x == start && end - start < SECOND)
    ensures var reply := Window(start, end, draw, retryAfter);
      DrawOk(reply) && (end - start >= SECOND || x == start ==>
        Lego.UpdateRenewalInfo(d, now, reply) == Some(d.(ariRenewalTime := x, ariNextUpdate := now + retryAfter)))
  {
    draw := if end - start >= SECOND then x - start else 0;
  }

  /** An ACME server that does not offer renewal information leaves renewal to the expiry date. */
  lemma {:induction false} UnsupportedMeansByExpiry(d: Details, now: int, later: int)
    ensures var u := Lego.UpdateRenewalInfo(d, now, NotSupported);
      u.Some? && (Due(Lego, u.value, later) <==> d.notAfter <= later + 30 * DAY)
  {
  }
}
