/**
 The certificate manager of certificate/manager.go over a JsonStore: lock, read, update
 renewal information, renew or staple, save, unlock. The functions say what one call
 does; the class does it step by step; the lemmas are about calls and runs of calls.
 */
module CertManager {
  import opened Text
  import opened Certificates
  import opened Suppliers
  import JsonStore

  datatype Config = Config(suppliers: map<string, Supplier>, preference: seq<string>, shouldStaple: bool)

  /** Everything outside the program during one call: what the clock reads at each use, and what others answer. */
  datatype Env = Env(
    start: int, ariCheck: int, ariSave: int, renewCheck: int, stapleCheck: int, issue: int, save: int, end: int,
    ari: AriReply, issueReply: IssueReply, ariAfterIssue: AriReply, stapleReply: StapleReply,
    ariWriteOk: bool, writeOk: bool, keyOk: bool)
  {
    predicate Ordered() {
      ZERO_TIME < start <= ariCheck <= ariSave <= renewCheck <= stapleCheck <= issue <= save <= end
    }

    predicate AtOnce(now: int) {
      start == ariCheck == ariSave == renewCheck == stapleCheck == issue == save == end == now
    }
  }

  datatype Request = Request(preferred: string, subject: string, alts: seq<string>, env: Env)

  /** Calls to the store and to the supplier. Save carries the time it prunes at, Issue the certificate as the manager labels it. */
  datatype Call =
    | Lock(subject: string, alts: seq<string>)
    | Unlock(subject: string, alts: seq<string>)
    | Save(cert: Details, time: int)
    | Issue(issued: Option<Details>)
    | RenewalInfo
    | Staple

  datatype Outcome = Outcome(result: Option<Details>, list: seq<Details>, calls: seq<Call>)

  // ---- what a call does ----

  /** This name is at position `i` of the preference list, and every name before it is unknown. */
  predicate FirstAt(suppliers: map<string, Supplier>, preference: seq<string>, i: nat, name: string) {
    i < |preference| && preference[i] == name && forall k :: 0 <= k < i ==> preference[k] !in suppliers
  }

  ghost predicate First(suppliers: map<string, Supplier>, preference: seq<string>, name: string) {
    exists i: nat :: FirstAt(suppliers, preference, i, name)
  }

  lemma {:induction false} FirstLater(suppliers: map<string, Supplier>, preference: seq<string>, name: string)
    requires preference != [] && preference[0] !in suppliers && First(suppliers, preference[1..], name)
    ensures First(suppliers, preference, name)
  {
    var i: nat :| FirstAt(suppliers, preference[1..], i, name);
    assert FirstAt(suppliers, preference, i + 1, name);
  }

  function FirstKnown(suppliers: map<string, Supplier>, preference: seq<string>): (r: Option<string>)
    ensures r.Some? ==> r.value in suppliers && First(suppliers, preference, r.value)
    ensures r.None? ==> forall p :: p in preference ==> p !in suppliers
  {
    if preference == [] then None
    else if preference[0] in suppliers then
      assert FirstAt(suppliers, preference, 0, preference[0]);
      Some(preference[0])
    else
      var r := FirstKnown(suppliers, preference[1..]);
      if r.Some? then
        FirstLater(suppliers, preference, r.value);
        r
      else r
  }

  /** The name of the supplier used for a request. */
  function Resolve(c: Config, preferred: string): (r: Option<string>)
    ensures r.Some? ==> r.value in c.suppliers
  {
    if preferred != "" then if preferred in c.suppliers then Some(preferred) else None
    else FirstKnown(c.suppliers, c.preference)
  }

  function KeyPair(d: Details, e: Env): Option<Details> {
    if e.keyOk then Some(d) else None
  }

  function Obtain(c: Config, name: string, q: Request, list: seq<Details>): Outcome
    requires name in c.suppliers
  {
    var s, e := c.suppliers[name], q.env;
    var cert0 := s.Issue(q.subject, q.alts, c.shouldStaple, e.issue, e.issueReply);
    if cert0.None? then Outcome(None, list, [Issue(None)])
    else
      var labelled := cert0.value.(provider := name);
      var updated := s.UpdateRenewalInfo(labelled, e.issue, e.ariAfterIssue);
      var cert := if updated.Some? then updated.value else labelled;
      Outcome(if e.writeOk then KeyPair(cert, e) else None, JsonStore.Save(list, cert, e.save),
              [Issue(Some(labelled)), RenewalInfo, Save(cert, e.save)])
  }

  function StapleCert(s: Supplier, cert: Details, q: Request, list: seq<Details>): Outcome {
    var stapled := s.UpdateStaple(cert, q.env.stapleReply);
    if stapled.None? then Outcome(None, list, [Staple])
    else
      Outcome(if q.env.writeOk then KeyPair(stapled.value, q.env) else None,
              JsonStore.Save(list, stapled.value, q.env.save), [Staple, Save(stapled.value, q.env.save)])
  }

  datatype Refreshed = Refreshed(cert: Details, list: seq<Details>, calls: seq<Call>)

  /** Fetches renewal information when it is due. */
  function RefreshAri(s: Supplier, cert: Details, q: Request, list: seq<Details>): Refreshed {
    if cert.ariNextUpdate < q.env.ariCheck then
      var updated := s.UpdateRenewalInfo(cert, q.env.ariCheck, q.env.ari);
      if updated.None? then Refreshed(cert, list, [RenewalInfo])
      else
        Refreshed(updated.value, JsonStore.Save(list, updated.value, q.env.ariSave),
                  [RenewalInfo, Save(updated.value, q.env.ariSave)])
    else
      Refreshed(cert, list, [])
  }

  predicate NeedsStaple(s: Supplier, cert: Details, now: int) {
    cert.mustStaple && !cert.HasStapleFor(now, s.MinStapleValidity())
  }

  /** Renews, staples or just returns the certificate found in the store. */
  function Maintain(c: Config, name: string, q: Request, cert: Details, list: seq<Details>): Outcome
    requires name in c.suppliers
  {
    var s := c.suppliers[name];
    if cert.ShouldRenew(q.env.renewCheck, s.MinCertificateValidity()) then Obtain(c, name, q, list)
    else if NeedsStaple(s, cert, q.env.stapleCheck) then StapleCert(s, cert, q, list)
    else Outcome(KeyPair(cert, q.env), list, [])
  }

  function Found(c: Config, name: string, q: Request, cert: Details, list: seq<Details>): Outcome
    requires name in c.suppliers
  {
    var r := RefreshAri(c.suppliers[name], cert, q, list);
    var o := Maintain(c, name, q, r.cert, r.list);
    o.(calls := r.calls + o.calls)
  }

  /** What happens between LockCertificate and UnlockCertificate. */
  function Locked(c: Config, name: string, q: Request, list: seq<Details>): Outcome
    requires name in c.suppliers
  {
    var found := JsonStore.Lookup(list, name, q.subject, q.alts);
    if found.None? then Obtain(c, name, q, list)
    else Found(c, name, q, found.value, list)
  }

  /** GetCertificate. */
  function Get(c: Config, q: Request, list: seq<Details>): Outcome {
    var name := Resolve(c, q.preferred);
    if name.None? then Outcome(None, list, [])
    else
      var o := Locked(c, name.value, q, list);
      o.(calls := [Lock(q.subject, q.alts)] + o.calls + [Unlock(q.subject, q.alts)])
  }

  datatype Existing = Existing(cert: Option<Details>, needRenewal: bool)

  /** GetExistingCertificate. */
  function GetExisting(c: Config, preferred: string, subject: string, alts: seq<string>, list: seq<Details>,
                       now: int, keyOk: bool): Existing {
    var name := Resolve(c, preferred);
    if name.None? then Existing(None, false)
    else
      var s := c.suppliers[name.value];
      var found := JsonStore.Lookup(list, name.value, subject, alts);
      if found.None? || !found.value.ValidFor(now, 0) || (found.value.mustStaple && !found.value.HasStapleFor(now, 0))
      then Existing(None, true)
      else
        Existing(if keyOk then found else None,
                 found.value.ShouldRenew(now, s.MinCertificateValidity()) || NeedsStaple(s, found.value, now))
  }

  // ---- the manager ----

  class Manager {
    const config: Config
    const store: JsonStore.Store
    ghost var trace: seq<Call>

    constructor (config: Config, store: JsonStore.Store)
      ensures this.config == config && this.store == store && trace == []
    {
      this.config := config;
      this.store := store;
      trace := [];
    }

    /** supplier: the preferred one, or the first of the preference list that is configured. */
    method FindSupplier(preferred: string) returns (r: Option<string>)
      ensures preferred != "" ==> r == if preferred in config.suppliers then Some(preferred) else None
      ensures preferred == "" && r.Some? ==> r.value in config.suppliers && First(config.suppliers, config.preference, r.value)
      ensures preferred == "" && r.None? ==> forall p :: p in config.preference ==> p !in config.suppliers
      ensures r == Resolve(config, preferred)
    {
      if preferred != "" {
        return if preferred in config.suppliers then Some(preferred) else None;
      }
      for i := 0 to |config.preference|
        invariant FirstKnown(config.suppliers, config.preference) == FirstKnown(config.suppliers, config.preference[i..])
      {
        if config.preference[i] in config.suppliers {
          return Some(config.preference[i]);
        }
        assert config.preference[i..][1..] == config.preference[i + 1..];
      }
      return None;
    }

    method SaveCert(cert: Details, now: int, writeOk: bool) returns (ok: bool)
      requires store.Valid()
      modifies store, store.buf, this`trace
      ensures store.Valid() && (store.buf == old(store.buf) || fresh(store.buf))
      ensures store.Contents() == JsonStore.Save(old(store.Contents()), cert, now)
      ensures ok == writeOk && trace == old(trace) + [Save(cert, now)]
    {
      ok := store.SaveCertificate(cert, now, writeOk);
      trace := trace + [Save(cert, now)];
    }

    /** obtain. */
    method ObtainCertificate(name: string, q: Request) returns (r: Option<Details>)
      requires store.Valid() && name in config.suppliers
      modifies store, store.buf, this`trace
      ensures store.Valid() && (store.buf == old(store.buf) || fresh(store.buf))
      ensures var o := Obtain(config, name, q, old(store.Contents()));
        r == o.result && store.Contents() == o.list && trace == old(trace) + o.calls
    {
      var s := config.suppliers[name];
      var issued := s.Issue(q.subject, q.alts, config.shouldStaple, q.env.issue, q.env.issueReply);
      if issued.None? {
        trace := trace + [Issue(None)];
        return None;
      }
      var cert := issued.value.(provider := name);
      trace := trace + [Issue(Some(cert)), RenewalInfo];
      var updated := s.UpdateRenewalInfo(cert, q.env.issue, q.env.ariAfterIssue);
      if updated.Some? {
        cert := updated.value;
      }
      var ok := SaveCert(cert, q.env.save, q.env.writeOk);
      return if ok then KeyPair(cert, q.env) else None;
    }

    /** staple. */
    method StapleCertificate(s: Supplier, cert: Details, q: Request) returns (r: Option<Details>)
      requires store.Valid()
      modifies store, store.buf, this`trace
      ensures store.Valid() && (store.buf == old(store.buf) || fresh(store.buf))
      ensures var o := StapleCert(s, cert, q, old(store.Contents()));
        r == o.result && store.Contents() == o.list && trace == old(trace) + o.calls
    {
      trace := trace + [Staple];
      var stapled := s.UpdateStaple(cert, q.env.stapleReply);
      if stapled.None? {
        return None;
      }
      var ok := SaveCert(stapled.value, q.env.save, q.env.writeOk);
      return if ok then KeyPair(stapled.value, q.env) else None;
    }

    /** updateRenewalInfo, when it is due. */
    method RefreshRenewalInfo(s: Supplier, cert: Details, q: Request) returns (r: Details)
      requires store.Valid()
      modifies store, store.buf, this`trace
      ensures store.Valid() && (store.buf == old(store.buf) || fresh(store.buf))
      ensures var o := RefreshAri(s, cert, q, old(store.Contents()));
        r == o.cert && store.Contents() == o.list && trace == old(trace) + o.calls
    {
      r := cert;
      if cert.ariNextUpdate < q.env.ariCheck {
        trace := trace + [RenewalInfo];
        var updated := s.UpdateRenewalInfo(cert, q.env.ariCheck, q.env.ari);
        if updated.Some? {
          r := updated.value;
          var _ := SaveCert(r, q.env.ariSave, q.env.ariWriteOk);
        }
      }
    }

    /** GetCertificate. */
    method GetCertificate(q: Request) returns (r: Option<Details>)
      requires store.Valid()
      modifies store, store.buf, this`trace
      ensures store.Valid() && (store.buf == old(store.buf) || fresh(store.buf))
      ensures var o := Get(config, q, old(store.Contents()));
        r == o.result && store.Contents() == o.list && trace == old(trace) + o.calls
    {
      hide Locked;
      var name := FindSupplier(q.preferred);
      if name.None? {
        return None;
      }
      ghost var before, o := trace, Locked(config, name.value, q, store.Contents());
      trace := trace + [Lock(q.subject, q.alts)];
      r := GetLocked(name.value, q);
      trace := trace + [Unlock(q.subject, q.alts)];
      assert trace == before + ([Lock(q.subject, q.alts)] + o.calls + [Unlock(q.subject, q.alts)]);
    }

    method GetLocked(name: string, q: Request) returns (r: Option<Details>)
      requires store.Valid() && name in config.suppliers
      modifies store, store.buf, this`trace
      ensures store.Valid() && (store.buf == old(store.buf) || fresh(store.buf))
      ensures var o := Locked(config, name, q, old(store.Contents()));
        r == o.result && store.Contents() == o.list && trace == old(trace) + o.calls
    {
      var found := store.GetCertificate(name, q.subject, q.alts);
      if found.None? {
        r := ObtainCertificate(name, q);
      } else {
        r := RefreshAndMaintain(name, q, found.value);
      }
    }

    method RefreshAndMaintain(name: string, q: Request, found: Details) returns (r: Option<Details>)
      requires store.Valid() && name in config.suppliers
      modifies store, store.buf, this`trace
      ensures store.Valid() && (store.buf == old(store.buf) || fresh(store.buf))
      ensures var o := Found(config, name, q, found, old(store.Contents()));
        r == o.result && store.Contents() == o.list && trace == old(trace) + o.calls
    {
      hide RefreshAri, Maintain;
      ghost var refreshed := RefreshAri(config.suppliers[name], found, q, store.Contents());
      var cert := RefreshRenewalInfo(config.suppliers[name], found, q);
      r := MaintainCertificate(name, q, cert);
      ghost var o := Maintain(config, name, q, refreshed.cert, refreshed.list);
      assert trace == old(trace) + (refreshed.calls + o.calls);
    }

    method MaintainCertificate(name: string, q: Request, cert: Details) returns (r: Option<Details>)
      requires store.Valid() && name in config.suppliers
      modifies store, store.buf, this`trace
      ensures store.Valid() && (store.buf == old(store.buf) || fresh(store.buf))
      ensures var o := Maintain(config, name, q, cert, old(store.Contents()));
        r == o.result && store.Contents() == o.list && trace == old(trace) + o.calls
    {
      var s := config.suppliers[name];
      if cert.ShouldRenew(q.env.renewCheck, s.MinCertificateValidity()) {
        r := ObtainCertificate(name, q);
      } else if NeedsStaple(s, cert, q.env.stapleCheck) {
        r := StapleCertificate(s, cert, q);
      } else {
        r := KeyPair(cert, q.env);
      }
    }

    /** GetExistingCertificate. */
    method GetExistingCertificate(preferred: string, subject: string, alts: seq<string>, now: int, keyOk: bool)
      returns (r: Existing)
      requires store.Valid()
      ensures r == GetExisting(config, preferred, subject, alts, store.Contents(), now, keyOk)
    {
      var name := FindSupplier(preferred);
      if name.None? {
        return Existing(None, false);
      }
      var s := config.suppliers[name.value];
      var found := store.GetCertificate(name.value, subject, alts);
      if found.None? {
        return Existing(None, true);
      }
      var cert := found.value;
      if !cert.ValidFor(now, 0) || (cert.mustStaple && !cert.HasStapleFor(now, 0)) {
        return Existing(None, true);
      }
      return Existing(if keyOk then found else None,
                      cert.ShouldRenew(now, s.MinCertificateValidity()) || NeedsStaple(s, cert, now));
    }
  }
}
