/**
 How config/parser.go takes a line apart: trimming, the directive word, and the argument
 forms of `header` and `on_error`. White space is ASCII white space.
 */
module ConfigLexer {
  import opened Text

  predicate IsSpace(c: char) {
    c == ' ' || ('\t' <= c <= '\r')
  }

  /** ASCII white space: space, tab, line feed, vertical tab, form feed and carriage return. */
  lemma {:induction false} SpaceIs(c: char)
    ensures IsSpace(c) <==> c as int in {32, 9, 10, 11, 12, 13}
  {
  }

  /** Non-empty and not ending in white space: survives trimming at the right end. */
  predicate Clean(s: string) {
    s != "" && !IsSpace(s[|s| - 1])
  }

  function TrimLeft(s: string): (r: string)
    ensures r == "" || !IsSpace(r[0])
  {
    if s != "" && IsSpace(s[0]) then TrimLeft(s[1..]) else s
  }

  function TrimRight(s: string): (r: string)
    ensures r == "" || Clean(r)
    ensures |r| <= |s| && (r != "" ==> r[0] == s[0])
  {
    if s != "" && IsSpace(s[|s| - 1]) then TrimRight(s[..|s| - 1]) else s
  }

  /** strings.TrimSpace. */
  function TrimSpace(s: string): (r: string)
    ensures r == "" || (!IsSpace(r[0]) && Clean(r))
  {
    TrimRight(TrimLeft(s))
  }

  /** strings.Cut at the first occurrence of a character. */
  function Cut(s: string, c: char): (r: (string, string, bool))
    ensures Free(r.0, c)
    ensures r.2 ==> s == r.0 + [c] + r.1
    ensures !r.2 ==> r.0 == s && r.1 == ""
  {
    var i := IndexOf(s, c);
    if i < |s| then
      assert s == s[..i] + [c] + s[i + 1..];
      (s[..i], s[i + 1..], true)
    else
      assert s[..i] == s;
      (s, "", false)
  }

  lemma {:induction false} CutFirst(a: string, c: char, b: string)
    requires Free(a, c)
    ensures Cut(a + [c] + b, c) == (a, b, true)
  {
    IndexOfFirst(a, c, b);
    var s := a + [c] + b;
    assert s[..|a|] == a && s[|a| + 1..] == b;
  }

  lemma {:induction false} CutNone(a: string, c: char)
    requires Free(a, c)
    ensures Cut(a, c) == (a, "", false)
  {
    IndexOfNone(a, c);
  }

  /** strings.SplitN(s, " ", 3). */
  function SplitThree(s: string): (r: seq<string>)
    ensures 1 <= |r| <= 3
  {
    var (a, rest, more) := Cut(s, ' ');
    if !more then [a]
    else
      var (b, c, yet) := Cut(rest, ' ');
      if !yet then [a, b] else [a, b, c]
  }

  // ---- directives ----

  datatype Directive =
    | Route(args: string)
    | Upstream(args: string)
    | Header(args: string)
    | OnError(args: string)
    | Provider(args: string)
    | Fallback
    | RedirectToPrimary
    | Subject(args: string)
    | Ignored     // blank line or comment
    | Invalid

  /** The switch on the lower-cased directive word. */
  function ByWord(word: string, args: string, blank: bool): Directive {
    if word == "route" then Route(args)
    else if word == "upstream" then Upstream(args)
    else if word == "header" then Header(args)
    else if word == "on_error" then OnError(args)
    else if word == "provider" then Provider(args)
    else if word == "fallback" then Fallback
    else if word == "redirect-to-primary" then RedirectToPrimary
    else if word == "subject" then Subject(args)
    else if word == "#" || blank then Ignored
    else Invalid
  }

  function Classify(line: string): Directive {
    var l := TrimSpace(line);
    var (word, args, _) := Cut(l, ' ');
    ByWord(ToLower(word), args, l == "")
  }

  // Words that ToLower leaves alone and that hold no white space.
  predicate Keyword(w: string) {
    w != "" && forall i :: 0 <= i < |w| ==> !IsSpace(w[i]) && !('A' <= w[i] <= 'Z')
  }

  /** The case of the word that begins a line does not matter. */
  lemma {:induction false} ClassifyAnyCase(w: string, args: string)
    requires Keyword(ToLower(w)) && Clean(args)
    ensures Classify(w + " " + args) == ByWord(ToLower(w), args, false)
  {
    hide ByWord;
    var l := w + " " + args;
    forall i | 0 <= i < |w| ensures !IsSpace(w[i]) {
      assert !IsSpace(ToLower(w)[i]);
    }
    assert l[0] == w[0] && l[|l| - 1] == args[|args| - 1];
    assert l == w + [' '] + args;
    CutFirst(w, ' ', args);
  }

  /** A keyword followed by clean arguments is read back as that keyword with those arguments. */
  lemma {:induction false} ClassifyWithArgs(w: string, args: string)
    requires Keyword(w) && Clean(args)
    ensures Classify(w + " " + args) == ByWord(w, args, false)
  {
    assert ToLower(w) == w;
    ClassifyAnyCase(w, args);
  }

  predicate AllSpace(s: string) {
    forall i :: 0 <= i < |s| ==> IsSpace(s[i])
  }

  lemma {:induction false} TrimLeftSpace(s: string, rest: string)
    requires AllSpace(s)
    ensures TrimLeft(s + rest) == TrimLeft(rest)
  {
    if s == "" {
      assert s + rest == rest;
    } else {
      assert (s + rest)[1..] == s[1..] + rest;
      TrimLeftSpace(s[1..], rest);
    }
  }

  lemma {:induction false} TrimRightSpace(rest: string, s: string)
    requires AllSpace(s)
    ensures TrimRight(rest + s) == TrimRight(rest)
  {
    if s == "" {
      assert rest + s == rest;
    } else {
      assert (rest + s)[..|rest + s| - 1] == rest + s[..|s| - 1];
      TrimRightSpace(rest, s[..|s| - 1]);
    }
  }

  lemma {:induction false} TrimLeftKeeps(s: string, rest: string)
    requires !AllSpace(s)
    ensures TrimLeft(s + rest) == TrimLeft(s) + rest
  {
    if IsSpace(s[0]) {
      assert (s + rest)[1..] == s[1..] + rest;
      assert !AllSpace(s[1..]) by {
        var i :| 0 <= i < |s| && !IsSpace(s[i]);
        assert s[1..][i - 1] == s[i];
      }
      TrimLeftKeeps(s[1..], rest);
    }
  }

  /** White space around a line does not matter. */
  lemma {:induction false} IndentationIgnored(before: string, line: string, after: string)
    requires AllSpace(before) && AllSpace(after)
    ensures TrimSpace(before + line + after) == TrimSpace(line)
    ensures Classify(before + line + after) == Classify(line)
  {
    hide ByWord, Cut;
    assert before + line + after == before + (line + after);
    TrimLeftSpace(before, line + after);
    if AllSpace(line) {
      TrimLeftSpace(line, after);
      AllSpaceTrims(after);
      AllSpaceTrims(line);
    } else {
      TrimLeftKeeps(line, after);
      TrimRightSpace(TrimLeft(line), after);
    }
  }

  lemma {:induction false} AllSpaceTrims(s: string)
    requires AllSpace(s)
    ensures TrimLeft(s) == ""
  {
    TrimLeftSpace(s, "");
    assert s + "" == s;
  }

  /** A line of white space is ignored. */
  lemma {:induction false} BlankIgnored(line: string)
    requires AllSpace(line)
    ensures Classify(line) == Ignored
  {
    AllSpaceTrims(line);
    assert TrimSpace(line) == "";
    CutNone("", ' ');
    assert ToLower("") == "";
  }

  /** Any other first word is an error. */
  lemma {:induction false} UnknownIsInvalid(word: string, args: string)
    ensures ByWord(word, args, false) == Invalid <==>
      word !in ["route", "upstream", "header", "on_error", "provider", "fallback", "redirect-to-primary", "subject", "#"]
  {
  }

  /** A keyword alone, or followed by a space that trimming removes, has empty arguments. */
  lemma {:induction false} ClassifyBare(w: string)
    requires Keyword(w)
    ensures Classify(w) == ByWord(w, "", false)
    ensures Classify(w + " ") == ByWord(w, "", false)
  {
    hide ByWord;
    var l := w + " ";
    assert TrimLeft(w) == w && TrimRight(w) == w;
    assert TrimLeft(l) == l && l[..|w|] == w && TrimRight(l) == TrimRight(l[..|l| - 1]);
    CutNone(w, ' ');
    assert ToLower(w) == w;
  }

  lemma {:induction false} Keywords()
    ensures Keyword("route") && Keyword("upstream") && Keyword("header") && Keyword("on_error") && Keyword("provider")
    ensures Keyword("fallback") && Keyword("redirect-to-primary") && Keyword("subject")
  {
  }

  lemma {:induction false} Operations()
    ensures Keyword("add") && Keyword("delete") && Keyword("replace") && Keyword("default")
  {
  }

  /** The directive each keyword stands for. */
  lemma {:induction false} Table(args: string)
    ensures ByWord("route", args, false) == Route(args)
    ensures ByWord("upstream", args, false) == Upstream(args)
    ensures ByWord("header", args, false) == Header(args)
    ensures ByWord("on_error", args, false) == OnError(args)
    ensures ByWord("provider", args, false) == Provider(args)
    ensures ByWord("fallback", args, false) == Fallback
    ensures ByWord("redirect-to-primary", args, false) == RedirectToPrimary
    ensures ByWord("subject", args, false) == Subject(args)
  {
    assert "upstream"[0] != 'r' && "redirect-to-primary"[1] != 'o' && "subject"[0] == 's';
  }

  /**
   Comments. A line that starts with `#` after trimming is ignored exactly when the `#`
   stands alone or is followed by a space; every other such line is invalid.
   */
  lemma {:induction false} CommentIgnoredIff(line: string)
    requires TrimSpace(line) != "" && TrimSpace(line)[0] == '#'
    ensures var l := TrimSpace(line);
      Classify(line) == if |l| == 1 || l[1] == ' ' then Ignored else Invalid
  {
    hide ByWord;
    var l := TrimSpace(line);
    var i := IndexOf(l, ' ');
    var (word, args, _) := Cut(l, ' ');
    assert word == l[..i];
    assert i > 0 && word[0] == '#' && ToLower(word)[0] == '#';
    assert i == 1 <==> |l| == 1 || l[1] == ' ' by {
      assert i > 1 ==> word[1] == l[1];
    }
    HashIsNoDirective(ToLower(word), args);
    assert ToLower(word) == "#" <==> i == 1;
  }

  lemma {:induction false} HashIsNoDirective(word: string, args: string)
    requires word != "" && word[0] == '#'
    ensures ByWord(word, args, false) == if word == "#" then Ignored else Invalid
  {
  }

  // ---- the arguments of on_error ----

  /** Length of the leading run without white space. */
  function WordLength(s: string): (n: nat)
    ensures n <= |s|
    ensures forall i :: 0 <= i < n ==> !IsSpace(s[i])
    ensures n < |s| ==> IsSpace(s[n])
  {
    if s == "" || IsSpace(s[0]) then 0 else 1 + WordLength(s[1..])
  }

  /** strings.Fields. */
  function Fields(s: string): seq<string>
    decreases |s|
  {
    if s == "" then []
    else if IsSpace(s[0]) then Fields(s[1..])
    else
      var n := WordLength(s);
      [s[..n]] + Fields(s[n..])
  }

  predicate NoSpace(s: string) {
    forall i :: 0 <= i < |s| ==> !IsSpace(s[i])
  }

  lemma {:induction false} FieldsOfSpace(s: string, rest: string)
    requires AllSpace(s)
    ensures Fields(s + rest) == Fields(rest)
  {
    if s == "" {
      assert s + rest == rest;
    } else {
      assert (s + rest)[1..] == s[1..] + rest;
      FieldsOfSpace(s[1..], rest);
    }
  }

  /** The first word, and then the words of the rest. */
  lemma {:induction false} FieldsOfWord(a: string, rest: string)
    requires a != "" && NoSpace(a) && (rest == "" || IsSpace(rest[0]))
    ensures Fields(a + rest) == [a] + Fields(rest)
  {
    var s := a + rest;
    assert forall i :: 0 <= i < |a| ==> s[i] == a[i];
    assert rest != "" ==> s[|a|] == rest[0];
    assert WordLength(s) == |a|;
    assert s[..|a|] == a && s[|a|..] == rest;
  }

  /** Two words, however much white space is around and between them. */
  lemma {:induction false} FieldsSpaced(before: string, a: string, gap: string, b: string, after: string)
    requires a != "" && b != "" && NoSpace(a) && NoSpace(b)
    requires AllSpace(before) && AllSpace(gap) && gap != "" && AllSpace(after)
    ensures Fields(before + a + gap + b + after) == [a, b]
  {
    assert before + a + gap + b + after == before + (a + (gap + (b + after)));
    FieldsOfSpace(before, a + (gap + (b + after)));
    FieldsOfWord(a, gap + (b + after));
    FieldsOfSpace(gap, b + after);
    FieldsOfWord(b, after);
    FieldsOfSpace(after, "");
    assert after + "" == after && Fields("") == [];
  }

  lemma {:induction false} FieldsTwo(a: string, b: string)
    requires a != "" && b != "" && NoSpace(a) && NoSpace(b)
    ensures Fields(a + " " + b) == [a, b]
  {
    FieldsSpaced("", a, " ", b, "");
    assert "" + a + " " + b + "" == a + " " + b;
  }

  predicate AllDigits(s: string) {
    forall i :: 0 <= i < |s| ==> IsDigit(s[i])
  }

  function Digits(s: string): int
    requires AllDigits(s)
  {
    if s == "" then 0 else 10 * Digits(s[..|s| - 1]) + (s[|s| - 1] as int - '0' as int)
  }

  /** strconv.Atoi, without its range error: callers reject everything outside 400..599 anyway. */
  function Atoi(s: string): Option<int> {
    var negative := s != "" && s[0] == '-';
    var body := if s != "" && (s[0] == '-' || s[0] == '+') then s[1..] else s;
    if body == "" || !AllDigits(body) then None
    else Some(if negative then -Digits(body) else Digits(body))
  }

  function DigitChar(n: int): char
    requires 0 <= n < 10
  {
    '0' + n as char
  }

  function ThreeDigits(n: int): string
    requires 100 <= n < 1000
  {
    [DigitChar(n / 100), DigitChar(n / 10 % 10), DigitChar(n % 10)]
  }

  lemma {:induction false} AtoiThreeDigits(n: int)
    requires 100 <= n < 1000
    ensures Atoi(ThreeDigits(n)) == Some(n)
    ensures NoSpace(ThreeDigits(n)) && ThreeDigits(n) != ""
  {
    var s := ThreeDigits(n);
    assert s[..2] == [s[0], s[1]] && s[..2][..1] == [s[0]] && s[..2][..1][..0] == "";
    assert Digits(s[..2][..1]) == n / 100;
    assert Digits(s[..2]) == n / 10;
    assert Digits(s) == n;
  }

  /** A sign is allowed in front. */
  lemma {:induction false} AtoiSigned(n: int)
    requires 100 <= n < 1000
    ensures Atoi("+" + ThreeDigits(n)) == Some(n) && Atoi("-" + ThreeDigits(n)) == Some(-n)
  {
    AtoiThreeDigits(n);
    var s := ThreeDigits(n);
    assert IsDigit(s[0]) && AllDigits(s);
    assert ("+" + s)[1..] == s && ("-" + s)[1..] == s;
  }

  /** Nothing but digits after the sign is. */
  lemma {:induction false} AtoiRejects(s: string, i: nat)
    requires 0 < i < |s| && !IsDigit(s[i])
    ensures Atoi(s) == None
  {
    if s[0] == '-' || s[0] == '+' {
      assert !IsDigit(s[1..][i - 1]);
    }
  }
}
