/**
 Stored certificates (certificate/details.go). Times are integers in milliseconds; 0
 stands for Go's zero time and every clock reading is later than that.
 */
module Certificates {
  import opened Text
  import opened Names

  const ZERO_TIME: int := 0
  const SECOND: int := 1_000
  const DAY: int := 24 * 3_600 * SECOND

  datatype Details = Details(
    provider: string,
    subject: string,
    altNames: seq<string>,
    notAfter: int,
    nextOcspUpdate: int,
    mustStaple: bool,        // the certificate carries the must-staple extension
    ariNextUpdate: int,
    ariRenewalTime: int,
    material: string)        // keys, certificates and responses in encoded form
  {
    predicate ValidFor(now: int, period: int) {
      notAfter > now + period
    }

    predicate ShouldRenew(now: int, minimumValidity: int) {
      if ariRenewalTime == ZERO_TIME then !ValidFor(now, minimumValidity) else now > ariRenewalTime
    }

    predicate HasStapleFor(now: int, period: int) {
      nextOcspUpdate > now + period
    }

    /** Covers the given names and no others: the same subject, and the alt names in any order. */
    predicate IsFor(subject: string, altNames: seq<string>) {
      this.subject == subject && multiset(this.altNames) == multiset(altNames)
    }

    /** How IsFor is computed: by comparing sorted copies of the alt names. */
    predicate IsForBySorting(subject: string, altNames: seq<string>) {
      this.subject == subject && |this.altNames| == |altNames| && SortedCopy(this.altNames) == SortedCopy(altNames)
    }

    /** What a store identifies a certificate by. */
    predicate SameIdentity(d: Details) {
      provider == d.provider && IsFor(d.subject, d.altNames)
    }

    /** The hash field under which a RedisStore keeps the certificate. */
    function Key(): string {
      CertificateKey(provider, subject, altNames)
    }

    predicate SeparatorFree() {
      Free(provider, SEP) && NamesFree(subject, altNames)
    }
  }

  /** Comparing sorted copies decides IsFor. */
  lemma {:induction false} SortingDecidesIsFor(d: Details, subject: string, altNames: seq<string>)
    ensures d.IsForBySorting(subject, altNames) <==> d.IsFor(subject, altNames)
  {
    SortedCopyEqualIff(d.altNames, altNames);
    assert |multiset(d.altNames)| == |d.altNames| && |multiset(altNames)| == |altNames|;
  }

  /** The hash field tells certificates apart exactly as provider plus IsFor does, on names without the separator. */
  lemma {:induction false} KeyMatchesIdentity(a: Details, b: Details)
    ensures a.SameIdentity(b) ==> a.Key() == b.Key()
    ensures a.SeparatorFree() && b.SeparatorFree() ==> (a.Key() == b.Key() <==> a.SameIdentity(b))
  {
    if a.SameIdentity(b) {
      KeysIgnoreOrder(a.provider, a.subject, a.altNames, b.altNames);
    } else if a.SeparatorFree() && b.SeparatorFree() {
      CertificateKeyEqualIff(a.provider, a.subject, a.altNames, b.provider, b.subject, b.altNames);
    }
  }
}
