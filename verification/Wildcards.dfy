/**
 The wildcard rewrite of certificate/wildcards.go.
 */
module Wildcards {
  import opened Text
  import opened Domains

  /** A configured domain with its leading dot. */
  function Dotted(c: string): string
    requires c != ""
  {
    if c[0] == '.' then c else "." + c
  }

  /** A configured domain means the same with and without its leading dot. */
  lemma {:induction false} DotIsOptional(d: string)
    requires d != "" && d[0] != '.'
    ensures Dotted(d) == "." + d && Dotted("." + d) == "." + d
  {
  }

  predicate AllDotted(ws: seq<string>) {
    forall i :: 0 <= i < |ws| ==> ws[i] != "" && ws[i][0] == '.'
  }

  /** NewWildcardResolver: empty entries are dropped, the others get a leading dot. */
  method Normalise(domains: seq<string>) returns (ws: seq<string>)
    ensures AllDotted(ws)
    ensures forall w :: w in ws <==> exists i :: 0 <= i < |domains| && domains[i] != "" && Dotted(domains[i]) == w
  {
    ws := [];
    for i := 0 to |domains|
      invariant AllDotted(ws)
      invariant forall w :: w in ws <==> exists k :: 0 <= k < i && domains[k] != "" && Dotted(domains[k]) == w
    {
      if domains[i] != "" {
        ws := ws + [Dotted(domains[i])];
      }
    }
  }

  /** The text from the first dot on; empty when there is no dot. */
  function AfterFirstLabel(name: string): string {
    name[IndexOf(name, '.')..]
  }

  /** Replace the text before the first dot by `*` if and only if the rest is one of the wildcard domains. */
  function Rewrite(ws: set<string>, name: string): string {
    if '.' in name && AfterFirstLabel(name) in ws then "*" + AfterFirstLabel(name) else name
  }

  function Members(ws: seq<string>): set<string> {
    set w | w in ws
  }

  predicate HasSuffix(s: string, w: string) {
    |w| <= |s| && s[|s| - |w|..] == w
  }

  /** A dotted suffix after a dot-free prefix is what follows the first label. */
  lemma {:induction false} SuffixAfterFirstLabel(name: string, w: string)
    requires w != "" && w[0] == '.'
    ensures HasSuffix(name, w) && Free(name[..|name| - |w|], '.') <==> '.' in name && AfterFirstLabel(name) == w
  {
    if '.' in name && AfterFirstLabel(name) == w {
      assert |name| - |w| == IndexOf(name, '.');
    }
    if HasSuffix(name, w) && Free(name[..|name| - |w|], '.') {
      var prefix := name[..|name| - |w|];
      assert name == prefix + w && w == ['.'] + w[1..];
      assert name == prefix + ['.'] + w[1..];
      IndexOfFirst(prefix, '.', w[1..]);
    }
  }

  /** applyWildcard: the first wildcard domain that fits. */
  method ApplyWildcard(ws: seq<string>, name: string) returns (r: string)
    requires AllDotted(ws)
    ensures r == Rewrite(Members(ws), name)
  {
    for i := 0 to |ws|
      invariant forall k :: 0 <= k < i ==> !('.' in name && AfterFirstLabel(name) == ws[k])
    {
      SuffixAfterFirstLabel(name, ws[i]);
      if HasSuffix(name, ws[i]) && '.' !in name[..|name| - |ws[i]|] {
        return "*" + ws[i];
      }
    }
    return name;
  }

  /** applyWildcards: one output per input. */
  method ApplyWildcards(ws: seq<string>, names: seq<string>) returns (rs: seq<string>)
    requires AllDotted(ws)
    ensures |rs| == |names|
    ensures forall i :: 0 <= i < |names| ==> rs[i] == Rewrite(Members(ws), names[i])
  {
    rs := [];
    for i := 0 to |names|
      invariant |rs| == i
      invariant forall k :: 0 <= k < i ==> rs[k] == Rewrite(Members(ws), names[k])
    {
      var r := ApplyWildcard(ws, names[i]);
      rs := rs + [r];
    }
  }

  /**
   Exactly the names with one label before a wildcard domain are rewritten, to that domain's
   wildcard: not the domain itself, and not what has further labels before it.
   */
  lemma {:induction false} RewriteIs(ws: set<string>, head: string, rest: string)
    requires Free(head, '.') && (rest == "" || rest[0] == '.')
    ensures Rewrite(ws, head + rest) == if rest != "" && rest in ws then "*" + rest else head + rest
  {
    if rest == "" {
      assert head + rest == head;
    } else {
      assert head + rest == head + ['.'] + rest[1..];
      IndexOfFirst(head, '.', rest[1..]);
      assert (head + rest)[|head|] == '.';
      assert AfterFirstLabel(head + rest) == rest;
    }
  }

  /** Rewriting a second time changes nothing. */
  lemma {:induction false} RewriteIdempotent(ws: set<string>, name: string)
    ensures Rewrite(ws, Rewrite(ws, name)) == Rewrite(ws, name)
  {
    var r := Rewrite(ws, name);
    if r != name {
      var rest := AfterFirstLabel(name);
      assert r == "*" + ['.'] + rest[1..];
      IndexOfFirst("*", '.', rest[1..]);
      assert AfterFirstLabel(r) == rest;
    }
  }

  /** Section 6.3 of RFC 9525: a wildcard stands for exactly one whole left-most label. */
  predicate Covers(pattern: string, name: string) {
    || pattern == name
    || (|pattern| >= 2 && pattern[0] == '*' && pattern[1] == '.'
        && |name| > |pattern| - 1 && HasSuffix(name, pattern[1..])
        && Free(name[..|name| - |pattern| + 1], '.'))
  }

  lemma {:induction false} NoNameStartsWithDot(name: string)
    requires name != "" && name[0] == '.'
    ensures !DomainName(name)
  {
    FinishedLabel(name, 0);
    assert name[..0] == "";
    assert !ValidLabel(Labels(name)[0]);
  }

  /** The rewritten name covers every domain name it was made from. */
  lemma {:induction false} RewriteCovers(ws: set<string>, name: string)
    requires DomainName(name)
    ensures Covers(Rewrite(ws, name), name)
  {
    assert name != "";
    hide DomainName;
    if name != "" && name[0] == '.' {
      NoNameStartsWithDot(name);
    }
    var r := Rewrite(ws, name);
    if r != name {
      var i := IndexOf(name, '.');
      assert r[1..] == name[i..];
      assert |name| - |r| + 1 == i;
    }
  }
}
