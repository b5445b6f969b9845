/**
 The lock and the manager together: whoever writes a field of the certificate hash does
 so between locking and unlocking the one lock that goes with that field.
 */
module LockedSaves {
  import opened Names
  import opened Certificates
  import CertManager
  import ManagerSafety
  import P = LockProtocol
  import S = LockSafety

  /** The request saves this certificate. */
  ghost predicate Saves(c: CertManager.Config, q: CertManager.Request, list: seq<Details>, d: Details) {
    exists time :: CertManager.Save(d, time) in CertManager.Get(c, q, list).calls
  }

  /** A saved certificate is for exactly the names its call locked. */
  lemma {:induction false} SavedNamesAreLocked(c: CertManager.Config, q: CertManager.Request, list: seq<Details>, d: Details)
    requires Saves(c, q, list, d)
    ensures d.IsFor(q.subject, q.alts)
  {
    ManagerSafety.LockBracketsSaves(c, q, list);
    hide CertManager.Get;
    var calls := CertManager.Get(c, q, list).calls;
    var time :| CertManager.Save(d, time) in calls;
    var k :| 0 <= k < |calls| && calls[k] == CertManager.Save(d, time);
    assert calls[k] == calls[1..|calls| - 1][k - 1];
  }

  /**
   Two calls, of whatever processes, that save to the same hash field take the same lock,
   unless their suppliers' names clash; the certificates need not be the same.
   */
  lemma {:induction false} OneFieldOneLock(prefix: string, c1: CertManager.Config, q1: CertManager.Request, l1: seq<Details>, d1: Details,
                        c2: CertManager.Config, q2: CertManager.Request, l2: seq<Details>, d2: Details)
    requires Saves(c1, q1, l1, d1)
    requires Saves(c2, q2, l2, d2)
    requires d1.Key() == d2.Key() && !Clash(d1.provider, d2.provider)
    ensures LockKey(prefix, q1.subject, q1.alts) == LockKey(prefix, q2.subject, q2.alts)
  {
    hide CertManager.Get, Saves, NamesKey, CertificateKey, Clash;
    SavedNamesAreLocked(c1, q1, l1, d1);
    SavedNamesAreLocked(c2, q2, l2, d2);
    FieldDeterminesLock(d1.provider, d1.subject, d1.altNames, d2.provider, d2.subject, d2.altNames);
    KeysIgnoreOrder("", q1.subject, q1.alts, d1.altNames);
    KeysIgnoreOrder("", q2.subject, q2.alts, d2.altNames);
  }

  /**
   Hence two different calls that save to the same field are never both between Lock and
   Unlock with their leases live; and, in a run in which refreshing works, never both
   between Lock and Unlock at all.
   */
  lemma {:induction false} WritersOfOneFieldExclude(r: P.Run, i: nat, p1: nat, id1: nat, p2: nat, id2: nat, prefix: string,
                                 c1: CertManager.Config, q1: CertManager.Request, l1: seq<Details>, d1: Details,
                                 c2: CertManager.Config, q2: CertManager.Request, l2: seq<Details>, d2: Details)
    requires r.Valid() && i < |r.states| && (p1, id1) != (p2, id2)
    requires Saves(c1, q1, l1, d1)
    requires Saves(c2, q2, l2, d2)
    requires d1.Key() == d2.Key() && !Clash(d1.provider, d2.provider)
    ensures var g := S.SectionFor(p1, id1, prefix, q1.subject, q1.alts);
      var h := S.SectionFor(p2, id2, prefix, q2.subject, q2.alts);
      && !(S.InLease(r.states[i], g) && S.InLease(r.states[i], h))
      && (S.WellRefreshed(r) ==> !(S.PastLock(r.states[i], g) && S.PastLock(r.states[i], h)))
  {
    hide CertManager.Get, LockKey, Clash, S.WellRefreshed;
    OneFieldOneLock(prefix, c1, q1, l1, d1, c2, q2, l2, d2);
    var g := S.SectionFor(p1, id1, prefix, q1.subject, q1.alts);
    var h := S.SectionFor(p2, id2, prefix, q2.subject, q2.alts);
    if S.InLease(r.states[i], g) && S.InLease(r.states[i], h) {
      S.MutualExclusion(r, i, g, h);
      assert false;
    }
    if S.WellRefreshed(r) && S.PastLock(r.states[i], g) && S.PastLock(r.states[i], h) {
      S.OneInside(r, i, g, h);
      assert false;
    }
  }
}
