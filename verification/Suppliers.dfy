/**
 The two certificate suppliers (certificate/supplier_lego.go, supplier_selfsigned.go).
 What an ACME server, an OCSP responder or a key generator answers is a parameter.
 */
module Suppliers {
  import opened Text
  import opened Certificates

  datatype Supplier = Lego | SelfSigned {
    function MinCertificateValidity(): int {
      if Lego? then 30 * DAY else 7 * DAY
    }

    function MinStapleValidity(): int {
      if Lego? then DAY else SECOND
    }

    /** GetCertificate. A new certificate has no provider and no renewal information yet. */
    function Issue(subject: string, alts: seq<string>, shouldStaple: bool, now: int, reply: IssueReply): (r: Option<Details>)
      ensures r.Some? ==> r.value.subject == subject && r.value.altNames == alts
      ensures r.Some? ==> r.value.ariRenewalTime == ZERO_TIME
      ensures r.Some? && SelfSigned? ==> r.value.notAfter == now + 30 * DAY && !r.value.mustStaple
    {
      match reply
      case IssueFails => None
      case Issued(notAfter, nextOcspUpdate, mustStaple, material) =>
        if SelfSigned? then
          Some(Details("", subject, alts, now + 30 * DAY, now + 30 * DAY, false, ZERO_TIME, ZERO_TIME, material))
        else
          Some(Details("", subject, alts, notAfter, if shouldStaple then nextOcspUpdate else ZERO_TIME, mustStaple,
                       ZERO_TIME, ZERO_TIME, material))
    }

    /** UpdateRenewalInfo; None on error, which leaves the certificate as it was. */
    function UpdateRenewalInfo(d: Details, now: int, reply: AriReply): (r: Option<Details>)
      ensures r.Some? ==> r.value == d.(ariNextUpdate := r.value.ariNextUpdate, ariRenewalTime := r.value.ariRenewalTime)
      ensures SelfSigned? ==> r == Some(d)
    {
      if SelfSigned? then Some(d)
      else
        match reply
        case AriFails => None
        case NotSupported => Some(d.(ariRenewalTime := ZERO_TIME, ariNextUpdate := d.notAfter))
        case Window(start, end, draw, retryAfter) =>
          Some(d.(ariRenewalTime := RenewalTime(start, end, draw), ariNextUpdate := now + retryAfter))
    }

    /** UpdateStaple; None on error. */
    function UpdateStaple(d: Details, reply: StapleReply): (r: Option<Details>)
      ensures r.Some? ==> r.value == d.(nextOcspUpdate := r.value.nextOcspUpdate, material := r.value.material)
    {
      if SelfSigned? then Some(d)
      else
        match reply
        case StapleFails => None
        case Stapled(nextUpdate, material) => Some(d.(nextOcspUpdate := nextUpdate, material := material))
    }
  }

  datatype IssueReply = IssueFails | Issued(notAfter: int, nextOcspUpdate: int, mustStaple: bool, material: string)

  /** `draw` is the random number below the window's length. */
  datatype AriReply = AriFails | NotSupported | Window(start: int, end: int, draw: int, retryAfter: int)

  datatype StapleReply = StapleFails | Stapled(nextUpdate: int, material: string)

  /** A random instant of the window, or its start when the window is shorter than a second. */
  function RenewalTime(start: int, end: int, draw: int): int {
    if end - start >= SECOND then start + draw else start
  }

  predicate DrawOk(reply: AriReply) {
    reply.Window? && reply.end - reply.start >= SECOND ==> 0 <= reply.draw < reply.end - reply.start
  }

  /** The suggested window, if any, lies before the certificate's expiry. */
  predicate WindowBeforeExpiry(reply: AriReply, d: Details) {
    reply.Window? ==> reply.start < d.notAfter && reply.end <= d.notAfter
  }

  /** No renewal time, or one before the certificate expires. */
  predicate RenewsInTime(d: Details) {
    d.ariRenewalTime == ZERO_TIME || d.ariRenewalTime < d.notAfter
  }

  /** A renewal time picked from a window lies in it; from a window before expiry, it is before expiry. */
  lemma {:induction false} UpdateRenewsInTime(s: Supplier, d: Details, now: int, reply: AriReply)
    requires RenewsInTime(d) && DrawOk(reply) && WindowBeforeExpiry(reply, d)
    requires s.UpdateRenewalInfo(d, now, reply).Some?
    ensures RenewsInTime(s.UpdateRenewalInfo(d, now, reply).value)
    ensures s.Lego? && reply.Window? && reply.start < reply.end ==>
      reply.start <= s.UpdateRenewalInfo(d, now, reply).value.ariRenewalTime < reply.end
  {
  }
}
