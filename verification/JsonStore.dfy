/**
 The JsonStore of certificate/store.go: a slice of certificates, searched linearly,
 spliced and filtered in place. The functions say what each operation does to the list
 of certificates; the class does it on a backing array as the Go slices do.
 */
module JsonStore {
  import opened Text
  import opened Certificates

  // ---- the list operations ----

  predicate Matches(d: Details, provider: string, subject: string, alts: seq<string>) {
    d.IsFor(subject, alts) && d.provider == provider
  }

  function FirstMatch(list: seq<Details>, provider: string, subject: string, alts: seq<string>): (r: Option<Details>)
    ensures r.Some? ==> r.value in list && Matches(r.value, provider, subject, alts)
    ensures r.None? ==> forall d :: d in list ==> !Matches(d, provider, subject, alts)
  {
    if list == [] then None
    else
      var front, last := list[..|list| - 1], list[|list| - 1];
      assert list == front + [last];
      var r := FirstMatch(front, provider, subject, alts);
      if r.Some? then r else if Matches(last, provider, subject, alts) then Some(last) else None
  }

  function LastMatch(list: seq<Details>, provider: string, subject: string, alts: seq<string>): (r: Option<Details>)
    ensures r.Some? ==> r.value in list && Matches(r.value, provider, subject, alts)
    ensures r.None? ==> forall d :: d in list ==> !Matches(d, provider, subject, alts)
  {
    if list == [] then None
    else
      var front, last := list[..|list| - 1], list[|list| - 1];
      assert list == front + [last];
      if Matches(last, provider, subject, alts) then Some(last) else LastMatch(front, provider, subject, alts)
  }

  /** GetCertificate: the first certificate of the provider, else the last one of no provider. */
  function Lookup(list: seq<Details>, provider: string, subject: string, alts: seq<string>): (r: Option<Details>)
    ensures r.Some? ==> r.value in list && r.value.IsFor(subject, alts)
    ensures r.Some? ==> r.value.provider == provider || r.value.provider == ""
    ensures r.Some? && r.value.provider != provider ==> forall d :: d in list ==> !Matches(d, provider, subject, alts)
    ensures r.None? ==> forall d :: d in list && d.IsFor(subject, alts) ==> d.provider != provider && d.provider != ""
  {
    var exact := FirstMatch(list, provider, subject, alts);
    if exact.Some? then exact else LastMatch(list, "", subject, alts)
  }

  function Remove(list: seq<Details>, provider: string, subject: string, alts: seq<string>): seq<Details> {
    if list == [] then []
    else if Matches(list[0], provider, subject, alts) then list[1..]
    else [list[0]] + Remove(list[1..], provider, subject, alts)
  }

  /** Keeps, in order, the certificates that have not expired. */
  function Prune(list: seq<Details>, now: int): (r: seq<Details>)
    ensures |r| <= |list|
    ensures forall d :: d in r <==> d in list && d.ValidFor(now, 0)
  {
    if list == [] then []
    else
      var front, last := list[..|list| - 1], list[|list| - 1];
      assert list == front + [last];
      if last.ValidFor(now, 0) then Prune(front, now) + [last] else Prune(front, now)
  }

  function Save(list: seq<Details>, d: Details, now: int): seq<Details> {
    Prune(Remove(list, d.provider, d.subject, d.altNames) + [d], now)
  }

  lemma {:induction false} FirstMatchPrefix(list: seq<Details>, i: nat, provider: string, subject: string, alts: seq<string>)
    requires i <= |list| && FirstMatch(list[..i], provider, subject, alts).Some?
    ensures FirstMatch(list, provider, subject, alts) == FirstMatch(list[..i], provider, subject, alts)
  {
    if i == |list| {
      assert list[..i] == list;
    } else {
      var front := list[..|list| - 1];
      assert front[..i] == list[..i];
      FirstMatchPrefix(front, i, provider, subject, alts);
    }
  }

  lemma {:induction false} RemoveAt(list: seq<Details>, i: nat, provider: string, subject: string, alts: seq<string>)
    requires i <= |list|
    requires forall j :: 0 <= j < i ==> !Matches(list[j], provider, subject, alts)
    requires i < |list| ==> Matches(list[i], provider, subject, alts)
    ensures Remove(list, provider, subject, alts) == if i < |list| then list[..i] + list[i + 1..] else list
  {
    hide Matches;
    if i > 0 {
      assert !Matches(list[0], provider, subject, alts);
      RemoveAt(list[1..], i - 1, provider, subject, alts);
      Reattach(list, i);
    }
  }

  lemma {:induction false} Reattach<T>(list: seq<T>, i: nat)
    requires 0 < i <= |list|
    ensures [list[0]] + list[1..] == list
    ensures i < |list| ==> [list[0]] + (list[1..][..i - 1] + list[1..][i..]) == list[..i] + list[i + 1..]
  {
  }

  lemma {:induction false} PruneStart(list: seq<Details>, now: int)
    ensures Prune(list[..0], now) == []
  {
  }

  lemma {:induction false} PruneNext(list: seq<Details>, i: nat, now: int)
    requires i < |list|
    ensures Prune(list[..i + 1], now) == Prune(list[..i], now) + if list[i].ValidFor(now, 0) then [list[i]] else []
  {
    assert list[..i + 1][..i] == list[..i];
  }

  // ---- positions ----

  ghost predicate FirstAt(list: seq<Details>, i: nat, provider: string, subject: string, alts: seq<string>) {
    && i < |list| && Matches(list[i], provider, subject, alts)
    && forall k :: 0 <= k < i ==> !Matches(list[k], provider, subject, alts)
  }

  ghost predicate LastAt(list: seq<Details>, i: nat, provider: string, subject: string, alts: seq<string>) {
    && i < |list| && Matches(list[i], provider, subject, alts)
    && forall k :: i < k < |list| ==> !Matches(list[k], provider, subject, alts)
  }

  lemma {:induction false} FirstMatchAt(list: seq<Details>, i: nat, provider: string, subject: string, alts: seq<string>)
    requires FirstAt(list, i, provider, subject, alts)
    ensures FirstMatch(list, provider, subject, alts) == Some(list[i])
  {
    hide Matches;
    var upto := list[..i + 1];
    assert upto[..i] == list[..i];
    assert FirstMatch(list[..i], provider, subject, alts).None?;
    FirstMatchPrefix(list, i + 1, provider, subject, alts);
  }

  lemma {:induction false} LastMatchAt(list: seq<Details>, i: nat, provider: string, subject: string, alts: seq<string>)
    requires LastAt(list, i, provider, subject, alts)
    ensures LastMatch(list, provider, subject, alts) == Some(list[i])
  {
    hide Matches;
    if i < |list| - 1 {
      LastMatchAt(list[..|list| - 1], i, provider, subject, alts);
    }
  }

  /** With duplicates, a lookup gives the first certificate of the provider; if there is none, the last one of no provider. */
  lemma {:induction false} LookupPicks(list: seq<Details>, i: nat, provider: string, subject: string, alts: seq<string>)
    ensures FirstAt(list, i, provider, subject, alts) ==> Lookup(list, provider, subject, alts) == Some(list[i])
    ensures LastAt(list, i, "", subject, alts) && (forall d :: d in list ==> !Matches(d, provider, subject, alts)) ==>
      Lookup(list, provider, subject, alts) == Some(list[i])
  {
    hide Matches;
    if FirstAt(list, i, provider, subject, alts) {
      FirstMatchAt(list, i, provider, subject, alts);
    }
    if LastAt(list, i, "", subject, alts) {
      LastMatchAt(list, i, "", subject, alts);
    }
  }

  lemma {:induction false} PruneConcat(a: seq<Details>, b: seq<Details>, now: int)
    ensures Prune(a + b, now) == Prune(a, now) + Prune(b, now)
  {
    if b == [] {
      assert a + b == a;
    } else {
      assert (a + b)[..|a + b| - 1] == a + b[..|b| - 1];
      PruneConcat(a, b[..|b| - 1], now);
    }
  }

  /** A save takes out the first certificate of the same identity, puts the new one last, and keeps the order of the rest. */
  lemma {:induction false} SavePutsLast(list: seq<Details>, i: nat, d: Details, now: int)
    requires i <= |list| && (i < |list| ==> FirstAt(list, i, d.provider, d.subject, d.altNames))
    requires i == |list| ==> forall k :: 0 <= k < i ==> !Matches(list[k], d.provider, d.subject, d.altNames)
    ensures Save(list, d, now) ==
      Prune(list[..i], now) + (if i < |list| then Prune(list[i + 1..], now) else []) + (if d.notAfter > now then [d] else [])
  {
    hide Matches;
    RemoveAt(list, i, d.provider, d.subject, d.altNames);
    var rest := if i < |list| then list[i + 1..] else [];
    assert Remove(list, d.provider, d.subject, d.altNames) == list[..i] + rest;
    PruneConcat(list[..i], rest, now);
    PruneConcat(list[..i] + rest, [d], now);
    assert [d][..0] == [];
  }

  // ---- what a save leaves alone, whatever the list ----

  lemma {:induction false} RemoveKeepsOthers(list: seq<Details>, d: Details, x: Details)
    ensures var r := Remove(list, d.provider, d.subject, d.altNames);
      (x in r ==> x in list) && (x in list && !x.SameIdentity(d) ==> x in r)
  {
    if list != [] {
      assert list == [list[0]] + list[1..];
      RemoveKeepsOthers(list[1..], d, x);
    }
  }

  /** Even with duplicates, a save adds only its certificate and drops only what has expired or has its identity. */
  lemma {:induction false} SaveKeepsOthers(list: seq<Details>, d: Details, now: int, x: Details)
    ensures x in Save(list, d, now) ==> x.ValidFor(now, 0) && (x == d || x in list)
    ensures !x.SameIdentity(d) && x.ValidFor(now, 0) ==> (x in Save(list, d, now) <==> x in list)
  {
    RemoveKeepsOthers(list, d, x);
  }

  // ---- one certificate per provider and names ----

  /** No two entries have the same provider and names. */
  ghost predicate Distinct(list: seq<Details>) {
    forall i, j :: 0 <= i < j < |list| ==> !list[i].SameIdentity(list[j])
  }

  lemma {:induction false} RemoveMembers(list: seq<Details>, d: Details)
    requires Distinct(list)
    ensures var r := Remove(list, d.provider, d.subject, d.altNames);
      && Distinct(r)
      && (forall x :: x in r <==> x in list && !x.SameIdentity(d))
  {
    if list != [] {
      var x, rest := list[0], list[1..];
      assert list == [x] + rest;
      assert forall y :: y in rest ==> !x.SameIdentity(y);
      RemoveMembers(rest, d);
      var r := Remove(list, d.provider, d.subject, d.altNames);
      if x.SameIdentity(d) {
        assert forall y :: y in rest ==> !y.SameIdentity(d);
      } else {
        assert r == [x] + Remove(rest, d.provider, d.subject, d.altNames);
      }
    }
  }

  lemma {:induction false} PruneDistinct(list: seq<Details>, now: int)
    requires Distinct(list)
    ensures Distinct(Prune(list, now))
  {
    if list != [] {
      var front, last := list[..|list| - 1], list[|list| - 1];
      assert list == front + [last];
      PruneDistinct(front, now);
      assert forall y :: y in front ==> !y.SameIdentity(last);
    }
  }

  /**
   Saving keeps one entry per provider and names. What the list then holds is exactly the
   new certificate and everything saved under another identity, in so far as it is still
   valid.
   */
  lemma {:induction false} SaveMembers(list: seq<Details>, d: Details, now: int)
    requires Distinct(list)
    ensures Distinct(Save(list, d, now))
    ensures forall x :: x in Save(list, d, now) <==>
      x.ValidFor(now, 0) && (x == d || (x in list && !x.SameIdentity(d)))
  {
    RemoveMembers(list, d);
    var r := Remove(list, d.provider, d.subject, d.altNames);
    assert forall y :: y in r ==> !y.SameIdentity(d);
    assert Distinct(r + [d]);
    PruneDistinct(r + [d], now);
  }

  /** Same members, and at most one per provider and names: then every lookup gives the same certificate. */
  lemma {:induction false} LookupDependsOnMembers(l1: seq<Details>, l2: seq<Details>, provider: string, subject: string, alts: seq<string>)
    requires forall x :: x in l1 <==> x in l2
    requires forall x, y :: x in l1 && y in l1 && x.SameIdentity(y) ==> x == y
    ensures Lookup(l1, provider, subject, alts) == Lookup(l2, provider, subject, alts)
  {
    var e1, e2 := FirstMatch(l1, provider, subject, alts), FirstMatch(l2, provider, subject, alts);
    assert e1.Some? && e2.Some? ==> e1.value.SameIdentity(e2.value);
    var g1, g2 := LastMatch(l1, "", subject, alts), LastMatch(l2, "", subject, alts);
    assert g1.Some? && g2.Some? ==> g1.value.SameIdentity(g2.value);
  }

  /** A distinct list has at most one member per identity. */
  lemma {:induction false} DistinctMembers(list: seq<Details>, x: Details, y: Details)
    requires Distinct(list) && x in list && y in list && x.SameIdentity(y)
    ensures x == y
  {
    var i :| 0 <= i < |list| && list[i] == x;
    var j :| 0 <= j < |list| && list[j] == y;
    assert y.SameIdentity(x);
  }

  // ---- the store ----

  class Store {
    var buf: array<Details>   // backing array of the certificates slice
    var len: nat

    ghost predicate Valid()
      reads this
    {
      len <= buf.Length
    }

    ghost function Contents(): seq<Details>
      reads this, buf
      requires Valid()
    {
      buf[..len]
    }

    constructor ()
      ensures Valid() && fresh(buf) && Contents() == []
    {
      buf := new Details[0];
      len := 0;
    }

    method GetCertificate(provider: string, subject: string, alts: seq<string>) returns (r: Option<Details>)
      requires Valid()
      ensures r == Lookup(Contents(), provider, subject, alts)
    {
      var legacy := None;
      for i := 0 to len
        invariant FirstMatch(buf[..i], provider, subject, alts).None?
        invariant legacy == LastMatch(buf[..i], "", subject, alts)
      {
        assert buf[..i + 1][..i] == buf[..i];
        if buf[i].IsFor(subject, alts) {
          if buf[i].provider == provider {
            FirstMatchPrefix(buf[..len], i + 1, provider, subject, alts);
            assert buf[..len][..i + 1] == buf[..i + 1];
            return Some(buf[i]);
          }
          if buf[i].provider == "" {
            legacy := Some(buf[i]);
          }
        }
      }
      return legacy;
    }

    /** The index of the first certificate of this provider and these names. */
    method IndexOf(provider: string, subject: string, alts: seq<string>) returns (i: nat)
      requires Valid()
      ensures i <= len
      ensures Remove(Contents(), provider, subject, alts) == if i < len then buf[..i] + buf[i + 1..len] else Contents()
    {
      i := 0;
      while i < len && !Matches(buf[i], provider, subject, alts)
        invariant 0 <= i <= len
        invariant forall j :: 0 <= j < i ==> !Matches(buf[j], provider, subject, alts)
      {
        i := i + 1;
      }
      ghost var list := buf[..len];
      RemoveAt(list, i, provider, subject, alts);
      if i < len {
        assert list[..i] == buf[..i] && list[i + 1..] == buf[i + 1..len];
      }
    }

    /** removeCertificate: closes the gap by shifting the tail left. */
    method RemoveCertificate(provider: string, subject: string, alts: seq<string>)
      requires Valid()
      modifies this`len, buf
      ensures Valid() && buf == old(buf)
      ensures Contents() == old(Remove(Contents(), provider, subject, alts))
    {
      var i := IndexOf(provider, subject, alts);
      if i < len {
        ShiftLeft(i);
        len := len - 1;
      }
    }

    /** The copy made by append(s[:i], s[i+1:]...). */
    method ShiftLeft(i: nat)
      requires Valid() && i < len
      modifies buf
      ensures buf[..len - 1] == old(buf[..i] + buf[i + 1..len])
    {
      var j := i;
      while j + 1 < len
        invariant i <= j < len
        invariant buf[..j] == old(buf[..i] + buf[i + 1..j + 1])
        invariant buf[j + 1..len] == old(buf[j + 1..len])
      {
        assert buf[j + 1] == buf[j + 1..len][0] == old(buf[j + 1]);
        assert buf[j + 2..len] == buf[j + 1..len][1..] == old(buf[j + 2..len]);
        buf[j] := buf[j + 1];
        j := j + 1;
        assert buf[..j] == buf[..j - 1] + [buf[j - 1]];
      }
    }

    /** pruneCertificates: filters into the same backing array it is reading from. */
    method PruneCertificates(now: int)
      requires Valid()
      modifies this`len, buf
      ensures Valid() && buf == old(buf)
      ensures Contents() == old(Prune(Contents(), now))
    {
      hide Prune;
      ghost var was := buf[..len];
      var kept := 0;
      PruneStart(was, now);
      for i := 0 to len
        invariant kept <= i <= len == old(len)
        invariant buf[..kept] == Prune(was[..i], now)
        invariant forall j :: i <= j < len ==> buf[j] == was[j]
      {
        PruneNext(was, i, now);
        if buf[i].ValidFor(now, 0) {
          ghost var before := buf[..kept];
          buf[kept] := buf[i];
          assert buf[..kept + 1] == before + [was[i]];
          kept := kept + 1;
        }
      }
      assert was[..len] == was;
      len := kept;
    }

    /** append: writes in place while there is capacity, otherwise moves to a larger array. */
    method Append(d: Details)
      requires Valid()
      modifies this, buf
      ensures Valid() && (buf == old(buf) || fresh(buf))
      ensures Contents() == old(Contents()) + [d]
    {
      if len == buf.Length {
        var bigger := new Details[2 * len + 1];
        for i := 0 to len
          invariant buf == old(buf) && len == old(len) && buf[..] == old(buf[..])
          invariant bigger[..i] == buf[..i]
        {
          bigger[i] := buf[i];
          assert bigger[..i + 1] == bigger[..i] + [buf[i]];
        }
        buf := bigger;
      }
      buf[len] := d;
      len := len + 1;
    }

    /** SaveCertificate: the list is updated before the file is written, whether or not writing succeeds. */
    method SaveCertificate(d: Details, now: int, writeSucceeds: bool) returns (ok: bool)
      requires Valid()
      modifies this, buf
      ensures Valid() && (buf == old(buf) || fresh(buf))
      ensures Contents() == Save(old(Contents()), d, now)
      ensures ok == writeSucceeds
    {
      RemoveCertificate(d.provider, d.subject, d.altNames);
      Append(d);
      PruneCertificates(now);
      return writeSucceeds;
    }
  }
}
