/**
 The one-pass domain name check of proxy/domains.go, against the label grammar: names are
 dot-separated labels with an optional final dot (sections 2.3.1, 2.3.4 and 3.1 of RFC
 1035, extended with underscores).
 */
module Domains {
  import opened Text

  predicate IsLetter(c: char) {
    'a' <= c <= 'z' || 'A' <= c <= 'Z' || c == '_'
  }

  predicate LabelChar(c: char) {
    IsLetter(c) || IsDigit(c) || c == '-'
  }

  predicate ValidLabel(l: string) {
    && 1 <= |l| <= 63
    && (forall i :: 0 <= i < |l| ==> LabelChar(l[i]))
    && l[0] != '-' && l[|l| - 1] != '-'
  }

  /** The name without its final dot, if it has one. */
  function Body(s: string): string {
    if s != "" && s[|s| - 1] == '.' then s[..|s| - 1] else s
  }

  function Labels(s: string): seq<string> {
    Split(Body(s), '.')
  }

  predicate NotNumeric(s: string) {
    exists i :: 0 <= i < |s| && !IsDigit(s[i]) && s[i] != '.'
  }

  /** The grammar. */
  predicate DomainName(s: string) {
    && s != "" && |Body(s)| <= 253
    && (forall i :: 0 <= i < |Labels(s)| ==> ValidLabel(Labels(s)[i]))
    && NotNumeric(s)
  }

  // ---- labels of a prefix ----

  /** Splitting more of a string keeps the finished pieces and extends the last one. */
  lemma {:induction false} SplitPrefix(s: string, i: nat)
    requires i <= |s|
    ensures var l, m := Split(s[..i], '.'), Split(s, '.');
      && |l| <= |m|
      && (forall j :: 0 <= j < |l| - 1 ==> m[j] == l[j])
      && l[|l| - 1] <= m[|l| - 1]
  {
    if i == |s| {
      assert s[..i] == s;
    } else {
      var t := s[..|s| - 1];
      SplitPrefix(t, i);
      assert t[..i] == s[..i];
      var r, m := Split(t, '.'), Split(s, '.');
      assert r[|r| - 1] <= m[|r| - 1] && forall j :: 0 <= j < |r| - 1 ==> m[j] == r[j];
    }
  }

  /** What the scan knows after reading a prefix: finished labels are valid, the one being read may still become so. */
  ghost predicate Scanned(p: string, last: char, partlen: nat) {
    var l := Split(p, '.');
    var cur := l[|l| - 1];
    && (forall j :: 0 <= j < |l| - 1 ==> ValidLabel(l[j]))
    && (forall k :: 0 <= k < |cur| ==> LabelChar(cur[k]))
    && (cur != "" ==> cur[0] != '-')
    && partlen == |cur|
    && last == if cur == "" then '.' else cur[|cur| - 1]
  }

  lemma {:induction false} ScanLabelChar(s: string, i: nat, last: char, partlen: nat)
    requires i < |s| && Scanned(s[..i], last, partlen) && LabelChar(s[i]) && !(s[i] == '-' && last == '.')
    ensures Scanned(s[..i + 1], s[i], partlen + 1)
  {
    assert s[..i + 1][..i] == s[..i];
  }

  lemma {:induction false} ScanDot(s: string, i: nat, last: char, partlen: nat)
    requires i < |s| && Scanned(s[..i], last, partlen) && s[i] == '.' && last != '.' && last != '-' && partlen <= 63
    ensures Scanned(s[..i + 1], '.', 0)
  {
    assert s[..i + 1][..i] == s[..i];
  }

  /** A prefix whose last label cannot be completed condemns the whole name. */
  lemma {:induction false} BadStart(s: string, i: nat)
    requires i < |s| && s[i] != '.'
    requires var l := Split(s[..i + 1], '.'); var cur := l[|l| - 1];
      cur != "" && (cur[0] == '-' || !LabelChar(cur[|cur| - 1]))
    ensures !DomainName(s)
  {
    var b := Body(s);
    assert s[..i + 1] == b[..i + 1];
    SplitPrefix(b, i + 1);
    var l, m := Split(b[..i + 1], '.'), Split(b, '.');
    var k := |l| - 1;
    assert m[k][0] == l[k][0] && m[k][|l[k]| - 1] == l[k][|l[k]| - 1];
    assert !ValidLabel(Labels(s)[k]);
  }

  /** A finished label is one of the name's labels. */
  lemma {:induction false} FinishedLabel(s: string, i: nat)
    requires i <= |s| && (i < |s| ==> s[i] == '.') && (i == |s| && i > 0 ==> s[i - 1] != '.')
    ensures var l := Split(s[..i], '.');
      |l| <= |Labels(s)| && Labels(s)[|l| - 1] == l[|l| - 1]
  {
    hide Split;
    var b := Body(s);
    if i < |b| {
      assert b[..i] == s[..i];
      PieceBeforeDot(b, i);
    } else {
      assert b == s[..i];
    }
  }

  /** The piece that a dot finishes stays as it is. */
  lemma {:induction false} PieceBeforeDot(b: string, i: nat)
    requires i < |b| && b[i] == '.'
    ensures var l, m := Split(b[..i], '.'), Split(b, '.');
      |l| <= |m| && m[|l| - 1] == l[|l| - 1]
  {
    SplitPrefix(b, i + 1);
    assert b[..i + 1][..i] == b[..i];
    assert Split(b[..i + 1], '.') == Split(b[..i], '.') + [""];
  }

  /** A name that has been scanned to its end consists of valid labels. */
  lemma {:induction false} ScannedAll(s: string, last: char, partlen: nat)
    requires s != "" && |Body(s)| <= 253 && Scanned(s, last, partlen) && last != '-' && partlen <= 63
    ensures DomainName(s) <==> NotNumeric(s)
  {
    var l := Split(s, '.');
    if s[|s| - 1] == '.' {
      assert l == Labels(s) + [""];
      assert forall i :: 0 <= i < |Labels(s)| ==> Labels(s)[i] == l[i];
    } else {
      assert l == Labels(s);
    }
  }

  // The reasons for which the scan stops early.

  lemma {:induction false} StopAtChar(s: string, i: nat, last: char, partlen: nat)
    requires i < |s| && Scanned(s[..i], last, partlen) && s[i] != '.'
    requires !LabelChar(s[i]) || (s[i] == '-' && last == '.')
    ensures !DomainName(s)
  {
    assert s[..i + 1][..i] == s[..i];
    BadStart(s, i);
  }

  lemma {:induction false} StopAtDot(s: string, i: nat, last: char, partlen: nat)
    requires i < |s| && Scanned(s[..i], last, partlen) && s[i] == '.'
    requires last == '.' || last == '-' || partlen > 63 || partlen == 0
    ensures !DomainName(s)
  {
    FinishedLabel(s, i);
    var l := Split(s[..i], '.');
    assert !ValidLabel(Labels(s)[|l| - 1]);
  }

  lemma {:induction false} StopAtEnd(s: string, last: char, partlen: nat)
    requires s != "" && Scanned(s, last, partlen) && (last == '-' || partlen > 63)
    ensures !DomainName(s)
  {
    assert s[..|s|] == s;
    FinishedLabel(s, |s|);
    var l := Split(s, '.');
    assert !ValidLabel(Labels(s)[|l| - 1]);
  }

  lemma {:induction false} ScanStart(s: string)
    ensures Scanned(s[..0], '.', 0)
  {
  }

  /** isDomainName: one pass over the bytes, with early exits. */
  method IsDomainName(s: string) returns (ok: bool)
    ensures ok <==> DomainName(s)
  {
    var l := |s|;
    if l == 0 || l > 254 || (l == 254 && s[l - 1] != '.') {
      return false;
    }
    hide DomainName, Scanned;
    var last := '.';
    var nonNumeric := false;
    var partlen := 0;
    ScanStart(s);
    for i := 0 to |s|
      invariant Scanned(s[..i], last, partlen)
      invariant nonNumeric <==> exists k :: 0 <= k < i && !IsDigit(s[k]) && s[k] != '.'
    {
      var c := s[i];
      if IsLetter(c) {
        ScanLabelChar(s, i, last, partlen);
        nonNumeric := true;
        partlen := partlen + 1;
      } else if IsDigit(c) {
        ScanLabelChar(s, i, last, partlen);
        partlen := partlen + 1;
      } else if c == '-' {
        if last == '.' {
          StopAtChar(s, i, last, partlen);
          return false;
        }
        ScanLabelChar(s, i, last, partlen);
        partlen := partlen + 1;
        nonNumeric := true;
      } else if c == '.' {
        if last == '.' || last == '-' {
          StopAtDot(s, i, last, partlen);
          return false;
        }
        if partlen > 63 || partlen == 0 {
          StopAtDot(s, i, last, partlen);
          return false;
        }
        ScanDot(s, i, last, partlen);
        partlen := 0;
      } else {
        StopAtChar(s, i, last, partlen);
        return false;
      }
      last := c;
    }
    assert s[..|s|] == s;
    if last == '-' || partlen > 63 {
      StopAtEnd(s, last, partlen);
      return false;
    }
    ScannedAll(s, last, partlen);
    return nonNumeric;
  }

  /** A name is made of label characters and dots. */
  lemma {:induction false} CharsOfPieces(s: string, k: nat)
    requires k < |s|
    requires forall i :: 0 <= i < |Split(s, '.')| ==> forall j :: 0 <= j < |Split(s, '.')[i]| ==> LabelChar(Split(s, '.')[i][j])
    ensures s[k] == '.' || LabelChar(s[k])
  {
    var t, c := s[..|s| - 1], s[|s| - 1];
    var r, m := Split(t, '.'), Split(s, '.');
    if c == '.' {
      assert forall i :: 0 <= i < |r| ==> r[i] == m[i];
    } else {
      assert c == m[|m| - 1][|m[|m| - 1]| - 1];
      assert forall i :: 0 <= i < |r| ==> r[i] <= m[i];
    }
    if k < |s| - 1 {
      CharsOfPieces(t, k);
    }
  }

  lemma {:induction false} NameChars(s: string, c: char)
    requires DomainName(s) && c != '.' && !LabelChar(c)
    ensures c !in s
  {
    var b := Body(s);
    var l := Labels(s);
    assert forall i :: 0 <= i < |l| ==> ValidLabel(l[i]);
    assert l == Split(b, '.');
    forall k | 0 <= k < |s| ensures s[k] != c {
      if k < |b| {
        CharsOfPieces(b, k);
      }
    }
  }

  // ---- the wire form ----

  /** Section 3.1 of RFC 1035: each label preceded by its length, then the empty root label. */
  function Wire(labels: seq<string>): seq<int> {
    if labels == [] then [0]
    else [|labels[0]|] + Octets(labels[0]) + Wire(labels[1..])
  }

  function Octets(l: string): (r: seq<int>)
    ensures |r| == |l|
  {
    seq(|l|, i requires 0 <= i < |l| => l[i] as int)
  }

  lemma {:induction false} WireSnoc(labels: seq<string>, l: string)
    ensures |Wire(labels + [l])| == |Wire(labels)| + |l| + 1
  {
    if labels == [] {
      assert [l][1..] == [];
    } else {
      WireSnoc(labels[1..], l);
      assert (labels + [l])[1..] == labels[1..] + [l];
    }
  }

  lemma {:induction false} WireLength(s: string)
    ensures |Wire(Split(s, '.'))| == |s| + 2
  {
    if s == "" {
      assert [""][1..] == [];
    } else {
      var t := s[..|s| - 1];
      WireLength(t);
      var r := Split(t, '.');
      var front, cur := r[..|r| - 1], r[|r| - 1];
      assert r == front + [cur];
      WireSnoc(front, cur);
      if s[|s| - 1] == '.' {
        WireSnoc(r, "");
      } else {
        WireSnoc(front, cur + [s[|s| - 1]]);
      }
    }
  }

  /** Every accepted name fits the 255 octets of section 2.3.4 of RFC 1035. */
  lemma {:induction false} AcceptedFitsOnWire(s: string)
    requires DomainName(s)
    ensures |Wire(Labels(s))| <= 255
  {
    WireLength(Body(s));
  }

  /** Reading labels off the wire: a length above 63 is a compression pointer or reserved (section 4.1.4 of RFC 1035). */
  function ReadWire(b: seq<int>): Option<seq<string>>
    decreases |b|
  {
    if b == [] then None
    else if b[0] == 0 then (if |b| == 1 then Some([]) else None)
    else if b[0] < 0 || b[0] > 63 || |b| < b[0] + 1 || !AllBytes(b[1..b[0] + 1]) then None
    else
      var rest := ReadWire(b[b[0] + 1..]);
      if rest.None? then None else Some([Chars(b[1..b[0] + 1])] + rest.value)
  }

  predicate AllBytes(b: seq<int>) {
    forall i :: 0 <= i < |b| ==> 0 <= b[i] < 256
  }

  function Chars(b: seq<int>): string
    requires AllBytes(b)
  {
    seq(|b|, i requires 0 <= i < |b| => b[i] as char)
  }

  lemma {:induction false} OctetsReadBack(l: string)
    requires ValidLabel(l)
    ensures AllBytes(Octets(l)) && Chars(Octets(l)) == l
  {
    assert forall i :: 0 <= i < |l| ==> LabelChar(l[i]);
  }

  lemma {:induction false} LabelReadsBack(l: string, rest: seq<int>)
    requires ValidLabel(l)
    ensures ReadWire([|l|] + Octets(l) + rest) == match ReadWire(rest) case None => None case Some(ls) => Some([l] + ls)
  {
    var b := [|l|] + Octets(l) + rest;
    OctetsReadBack(l);
    hide ValidLabel, Octets, Chars;
    assert b[0] == |l| && b[1..|l| + 1] == Octets(l) && b[|l| + 1..] == rest;
  }

  lemma {:induction false} LabelsReadBack(labels: seq<string>)
    requires forall i :: 0 <= i < |labels| ==> ValidLabel(labels[i])
    ensures ReadWire(Wire(labels)) == Some(labels)
  {
    hide ValidLabel, Octets;
    if labels != [] {
      assert ValidLabel(labels[0]);
      LabelsReadBack(labels[1..]);
      LabelReadsBack(labels[0], Wire(labels[1..]));
      assert [labels[0]] + labels[1..] == labels;
    }
  }

  /** Every accepted name can be written to the wire and read back label by label. */
  lemma {:induction false} AcceptedReadsBack(s: string)
    requires DomainName(s)
    ensures ReadWire(Wire(Labels(s))) == Some(Labels(s))
  {
    LabelsReadBack(Labels(s));
  }

  /** Labels joined by dots are a name exactly when each is a valid one, there is more than digits, and it all fits. */
  lemma {:induction false} JoinedIsName(labels: seq<string>)
    requires labels != [] && AllFree(labels, '.') && labels[|labels| - 1] != ""
    ensures var s := Join(labels, '.');
      DomainName(s) <==> |s| <= 253 && (forall i :: 0 <= i < |labels| ==> ValidLabel(labels[i])) && NotNumeric(s)
  {
    var s, last := Join(labels, '.'), labels[|labels| - 1];
    assert last != "" && last[|last| - 1] in last && last[|last| - 1] != '.';
    assert s != "" && s[|s| - 1] == last[|last| - 1];
    SplitOfJoin(labels, '.');
    assert Body(s) == s && Labels(s) == labels;
  }

  /** A dot at the end makes no difference. */
  lemma {:induction false} FinalDotIgnored(s: string)
    requires s != "" && s[|s| - 1] != '.'
    ensures DomainName(s + ".") <==> DomainName(s)
  {
    var t := s + ".";
    assert Body(t) == s && Body(s) == s;
    assert Labels(t) == Labels(s);
    if NotNumeric(s) {
      var i :| 0 <= i < |s| && !IsDigit(s[i]) && s[i] != '.';
      assert t[i] == s[i];
    }
    if NotNumeric(t) {
      var i :| 0 <= i < |t| && !IsDigit(t[i]) && t[i] != '.';
      assert t[i] == s[i];
    }
  }

  /** Labels and non-labels. */
  lemma {:induction false} Examples(a: string)
    requires forall i :: 0 <= i < |a| ==> a[i] == 'a'
    ensures ValidLabel("x-1_Y") && ValidLabel("_a") && ValidLabel("0")
    ensures !ValidLabel("") && !ValidLabel("a-") && !ValidLabel("-a") && !ValidLabel("a:1") && !ValidLabel("a b") && !ValidLabel("*")
    ensures ValidLabel(a) <==> 1 <= |a| <= 63
  {
    var x, y := "a:1", "a b";
    assert x[1] == ':' && y[1] == ' ';
    assert !LabelChar(x[1]) && !LabelChar(y[1]) && !LabelChar("*"[0]);
  }
}
