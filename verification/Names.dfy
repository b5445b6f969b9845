/**
 Certificate names and the keys built from them (certificate/store_redis.go): alt names
 are sorted before they are joined, so that a key depends only on the subject and on
 the alt names as a multiset.
 */
module Names {
  import opened Text

  // ---- the order used by sort.Strings ----

  predicate Leq(a: string, b: string) {
    a == [] || (b != [] && (a[0] < b[0] || (a[0] == b[0] && Leq(a[1..], b[1..]))))
  }

  lemma {:induction false} LeqTotal(a: string, b: string)
    ensures Leq(a, b) || Leq(b, a)
  {
    if a != [] && b != [] && a[0] == b[0] {
      LeqTotal(a[1..], b[1..]);
    }
  }

  lemma {:induction false} LeqAntisymmetric(a: string, b: string)
    requires Leq(a, b) && Leq(b, a)
    ensures a == b
  {
    if a != [] {
      LeqAntisymmetric(a[1..], b[1..]);
      assert a == [a[0]] + a[1..] && b == [b[0]] + b[1..];
    }
  }

  lemma {:induction false} LeqTransitive(a: string, b: string, c: string)
    requires Leq(a, b) && Leq(b, c)
    ensures Leq(a, c)
  {
    if a != [] && a[0] == b[0] == c[0] {
      LeqTransitive(a[1..], b[1..], c[1..]);
    }
  }

  predicate Sorted(xs: seq<string>) {
    forall i, j :: 0 <= i < j < |xs| ==> Leq(xs[i], xs[j])
  }

  // ---- sortedCopy ----

  /** Inserts a name into a sorted list. */
  function Insert(x: string, xs: seq<string>): (r: seq<string>)
    requires Sorted(xs)
    ensures Sorted(r)
    ensures multiset(r) == multiset(xs) + multiset{x}
  {
    if xs == [] then [x]
    else if Leq(x, xs[0]) then
      assert forall j :: 0 <= j < |xs| ==> Leq(x, xs[j]) by {
        forall j | 0 <= j < |xs| ensures Leq(x, xs[j]) {
          if j > 0 { LeqTransitive(x, xs[0], xs[j]); }
        }
      }
      [x] + xs
    else
      var r := Insert(x, xs[1..]);
      assert xs == [xs[0]] + xs[1..];
      assert forall j :: 0 <= j < |r| ==> Leq(xs[0], r[j]) by {
        LeqTotal(x, xs[0]);
        forall j | 0 <= j < |r| ensures Leq(xs[0], r[j]) {
          assert r[j] in multiset(r);
          assert r[j] in multiset(xs[1..]) || r[j] == x;
        }
      }
      [xs[0]] + r
  }

  /** sortedCopy: the same names in ascending order. */
  function SortedCopy(xs: seq<string>): (r: seq<string>)
    ensures Sorted(r)
    ensures multiset(r) == multiset(xs)
  {
    if xs == [] then []
    else
      assert xs == [xs[0]] + xs[1..];
      Insert(xs[0], SortedCopy(xs[1..]))
  }

  /** The least name of a multiset comes first in an ascending listing. */
  lemma {:induction false} SortedFirst(a: seq<string>, x: string)
    requires Sorted(a) && x in a
    ensures Leq(a[0], x)
  {
    LeqTotal(x, x);
  }

  lemma {:induction false} TailMultiset(a: seq<string>)
    requires a != []
    ensures multiset(a[1..]) == multiset(a) - multiset{a[0]}
    ensures a == [a[0]] + a[1..]
  {
    assert a == [a[0]] + a[1..];
  }

  /** A multiset of names has one ascending listing. */
  lemma {:induction false} SortedUnique(a: seq<string>, b: seq<string>)
    requires Sorted(a) && Sorted(b)
    requires multiset(a) == multiset(b)
    ensures a == b
  {
    assert |multiset(a)| == |a| && |multiset(b)| == |b|;
    if a != [] {
      var x, y := a[0], b[0];
      assert x in multiset(b) && y in multiset(a);
      SortedFirst(a, y);
      SortedFirst(b, x);
      LeqAntisymmetric(x, y);
      TailMultiset(a);
      TailMultiset(b);
      SortedUnique(a[1..], b[1..]);
    }
  }

  /** Two lists of names sort to the same list exactly when one is a permutation of the other. */
  lemma {:induction false} SortedCopyEqualIff(a: seq<string>, b: seq<string>)
    ensures SortedCopy(a) == SortedCopy(b) <==> multiset(a) == multiset(b)
  {
    if multiset(a) == multiset(b) {
      SortedUnique(SortedCopy(a), SortedCopy(b));
    }
  }

  /** A list and its sorted copy have the same separator-freedom. */
  lemma {:induction false} SortedCopyFree(xs: seq<string>, c: char)
    requires AllFree(xs, c)
    ensures AllFree(SortedCopy(xs), c)
  {
    var r := SortedCopy(xs);
    forall i | 0 <= i < |r| ensures Free(r[i], c) {
      assert r[i] in multiset(xs);
    }
  }

  // ---- keys ----

  const SEP := ';'

  /** namesKey: identifies a subject and its alt names in lock keys. */
  function NamesKey(subject: string, alts: seq<string>): string {
    Join([subject] + SortedCopy(alts), SEP)
  }

  /** certificateKey: identifies a certificate in the hash. */
  function CertificateKey(provider: string, subject: string, alts: seq<string>): string {
    Join([provider, subject] + SortedCopy(alts), SEP)
  }

  /** The key under which a store with the given prefix keeps the lock for some names. */
  function LockKey(prefix: string, subject: string, alts: seq<string>): string {
    prefix + ":lock:" + NamesKey(subject, alts)
  }

  predicate NamesFree(subject: string, alts: seq<string>) {
    Free(subject, SEP) && AllFree(alts, SEP)
  }

  /** Any permutation of the alt names yields the same keys. */
  lemma {:induction false} KeysIgnoreOrder(provider: string, subject: string, a: seq<string>, b: seq<string>)
    requires multiset(a) == multiset(b)
    ensures NamesKey(subject, a) == NamesKey(subject, b)
    ensures CertificateKey(provider, subject, a) == CertificateKey(provider, subject, b)
  {
    SortedCopyEqualIff(a, b);
  }

  /** On names without the separator, lock keys are equal exactly for the same subject and permuted alt names. */
  lemma {:induction false} LockKeyEqualIff(prefix: string, s1: string, a1: seq<string>, s2: string, a2: seq<string>)
    requires NamesFree(s1, a1) && NamesFree(s2, a2)
    ensures LockKey(prefix, s1, a1) == LockKey(prefix, s2, a2) <==> s1 == s2 && multiset(a1) == multiset(a2)
  {
    var x, y := [s1] + SortedCopy(a1), [s2] + SortedCopy(a2);
    if LockKey(prefix, s1, a1) == LockKey(prefix, s2, a2) {
      var n := |prefix + ":lock:"|;
      assert NamesKey(s1, a1) == LockKey(prefix, s1, a1)[n..] == NamesKey(s2, a2);
      SortedCopyFree(a1, SEP);
      SortedCopyFree(a2, SEP);
      SplitOfJoin(x, SEP);
      SplitOfJoin(y, SEP);
      assert SortedCopy(a1) == x[1..] && SortedCopy(a2) == y[1..];
      assert s1 == x[0] && s2 == y[0];
    } else if s1 == s2 && multiset(a1) == multiset(a2) {
      KeysIgnoreOrder("", s1, a1, a2);
    }
  }

  /** On names without the separator, hash fields are equal exactly for the same provider, subject and permuted alt names. */
  lemma {:induction false} CertificateKeyEqualIff(p1: string, s1: string, a1: seq<string>, p2: string, s2: string, a2: seq<string>)
    requires Free(p1, SEP) && Free(p2, SEP) && NamesFree(s1, a1) && NamesFree(s2, a2)
    ensures CertificateKey(p1, s1, a1) == CertificateKey(p2, s2, a2)
       <==> p1 == p2 && s1 == s2 && multiset(a1) == multiset(a2)
  {
    hide CertificateKey, NamesKey, Clash;
    if CertificateKey(p1, s1, a1) == CertificateKey(p2, s2, a2) {
      FreeNeverClash(p1, p2);
      FieldDeterminesLock(p1, s1, a1, p2, s2, a2);
      LockKeyEqualIff("", s1, a1, s2, a2);
    } else if p1 == p2 && s1 == s2 && multiset(a1) == multiset(a2) {
      KeysIgnoreOrder(p1, s1, a1, a2);
    }
  }

  /** A hash field is the provider, the separator, and what the lock key is made of. */
  lemma {:induction false} CertificateKeyIs(provider: string, subject: string, alts: seq<string>)
    ensures CertificateKey(provider, subject, alts) == provider + [SEP] + NamesKey(subject, alts)
  {
    var names := [subject] + SortedCopy(alts);
    assert [provider, subject] + SortedCopy(alts) == [provider] + names;
    JoinConcat([provider], names, SEP);
  }

  /** One supplier name continues the other after a separator. */
  predicate Clash(p1: string, p2: string) {
    p1 + [SEP] <= p2 || p2 + [SEP] <= p1
  }

  lemma {:induction false} FreeNeverClash(p1: string, p2: string)
    ensures Clash(p1, p2) ==> SEP in p1 || SEP in p2
  {
    if p1 + [SEP] <= p2 {
      assert p2[|p1|] == SEP;
    } else if p2 + [SEP] <= p1 {
      assert p1[|p2|] == SEP;
    }
  }

  /** Whatever is in the names: certificates that share a field share a lock, unless their suppliers' names clash. */
  lemma {:induction false} FieldDeterminesLock(p1: string, s1: string, a1: seq<string>, p2: string, s2: string, a2: seq<string>)
    requires CertificateKey(p1, s1, a1) == CertificateKey(p2, s2, a2) && !Clash(p1, p2)
    ensures p1 == p2 && NamesKey(s1, a1) == NamesKey(s2, a2)
  {
    hide NamesKey, CertificateKey;
    CertificateKeyIs(p1, s1, a1);
    CertificateKeyIs(p2, s2, a2);
    SameSplit(p1, NamesKey(s1, a1), p2, NamesKey(s2, a2));
  }

  lemma {:induction false} SameSplit(p1: string, n1: string, p2: string, n2: string)
    requires p1 + [SEP] + n1 == p2 + [SEP] + n2
    ensures Clash(p1, p2) || (p1 == p2 && n1 == n2)
  {
    var k := p1 + [SEP] + n1;
    if |p1| < |p2| {
      assert k[..|p1| + 1] == p1 + [SEP] && k[..|p1| + 1] == p2[..|p1| + 1];
      assert p1 + [SEP] <= p2;
    } else if |p2| < |p1| {
      assert k[..|p2| + 1] == p2 + [SEP] && k[..|p2| + 1] == p1[..|p2| + 1];
      assert p2 + [SEP] <= p1;
    } else {
      assert k[..|p1|] == p1 && k[..|p1|] == p2;
      assert k[|p1| + 1..] == n1 && k[|p1| + 1..] == n2;
    }
  }

  lemma {:induction false} NamesKeyAlone(subject: string)
    ensures NamesKey(subject, []) == subject
  {
    assert [subject] + SortedCopy([]) == [subject];
  }

  /** With clashing suppliers, any name of one shares its field with another name of the other, under another lock. */
  lemma {:induction false} ClashingSuppliersCollide(p: string, x: string, subject: string)
    ensures CertificateKey(p + [SEP] + x, subject, []) == CertificateKey(p, x + [SEP] + subject, [])
    ensures NamesKey(subject, []) != NamesKey(x + [SEP] + subject, [])
  {
    CertificateKeyIs(p + [SEP] + x, subject, []);
    CertificateKeyIs(p, x + [SEP] + subject, []);
    NamesKeyAlone(subject);
    NamesKeyAlone(x + [SEP] + subject);
    assert (p + [SEP] + x) + [SEP] + subject == p + [SEP] + (x + [SEP] + subject);
    assert |x + [SEP] + subject| > |subject|;
  }

  /** Of two suppliers, every shared field means a shared lock. */
  ghost predicate FieldsDetermineLocks(p1: string, p2: string) {
    forall s1, a1, s2, a2 :: CertificateKey(p1, s1, a1) == CertificateKey(p2, s2, a2) ==> NamesKey(s1, a1) == NamesKey(s2, a2)
  }

  /** The condition is exact. */
  lemma {:induction false} FieldsDetermineLocksIff(p1: string, p2: string)
    ensures FieldsDetermineLocks(p1, p2) <==> !Clash(p1, p2)
  {
    hide CertificateKey, NamesKey;
    if p1 + [SEP] <= p2 {
      var x := p2[|p1| + 1..];
      assert p2 == p1 + [SEP] + x;
      ClashingSuppliersCollide(p1, x, "a");
      assert CertificateKey(p1, x + [SEP] + "a", []) == CertificateKey(p2, "a", []);
    } else if p2 + [SEP] <= p1 {
      var x := p1[|p2| + 1..];
      assert p1 == p2 + [SEP] + x;
      ClashingSuppliersCollide(p2, x, "a");
      assert CertificateKey(p1, "a", []) == CertificateKey(p2, x + [SEP] + "a", []);
    } else {
      forall s1, a1, s2, a2 | CertificateKey(p1, s1, a1) == CertificateKey(p2, s2, a2)
        ensures NamesKey(s1, a1) == NamesKey(s2, a2)
      {
        FieldDeterminesLock(p1, s1, a1, p2, s2, a2);
      }
    }
  }

  /** With the separator inside a name, different certificates can share a hash field. */
  lemma {:induction false} SeparatorInNameCollides()
    ensures CertificateKey("p", "a;b", []) == CertificateKey("p", "a", ["b"])
    ensures multiset(["b"]) != multiset{}
  {
    assert SortedCopy(["b"]) == ["b"];
    var two, three := ["p", "a;b"], ["p", "a", "b"];
    assert [two[0], two[1]] + SortedCopy([]) == two;
    assert ["p", "a"] + SortedCopy(["b"]) == three;
    assert two[..1] == ["p"] && three[..2] == ["p", "a"] && three[..2][..1] == ["p"];
    assert Join(two, SEP) == "p;a;b";
    assert Join(three, SEP) == "p;a;b";
    assert "b" in multiset(["b"]);
  }
}
