/**
 Strings as Go's `strings` package sees them, restricted to ASCII white space and
 ASCII case. Splitting and joining recurse from the right end, so that extending a
 prefix by one character is a single unfolding.
 */
module Text {

  datatype Option<+T> = None | Some(value: T)

  /** True iff `c` does not occur in `s`. */
  predicate Free(s: string, c: char) {
    c !in s
  }

  /** True iff `c` occurs in none of the pieces. */
  predicate AllFree(xs: seq<string>, c: char) {
    forall i :: 0 <= i < |xs| ==> Free(xs[i], c)
  }

  /** strings.Split with a one-character separator. */
  function Split(s: string, c: char): (r: seq<string>)
    ensures |r| >= 1
    ensures AllFree(r, c)
  {
    if s == [] then [""]
    else
      var r := Split(s[..|s| - 1], c);
      if s[|s| - 1] == c then r + [""]
      else r[..|r| - 1] + [r[|r| - 1] + [s[|s| - 1]]]
  }

  /** strings.Join with a one-character separator. */
  function Join(xs: seq<string>, c: char): string {
    if |xs| == 0 then ""
    else if |xs| == 1 then xs[0]
    else Join(xs[..|xs| - 1], c) + [c] + xs[|xs| - 1]
  }

  /** Splitting after the last separator only touches the last piece. */
  lemma {:induction false} SplitLast(a: string, c: char, b: string)
    requires Free(b, c)
    ensures Split(a + [c] + b, c) == Split(a, c) + [b]
  {
    var s := a + [c] + b;
    if b == [] {
      assert s[..|s| - 1] == a;
    } else {
      var b' := b[..|b| - 1];
      SplitLast(a, c, b');
      assert s[..|s| - 1] == a + [c] + b';
      assert b == b' + [b[|b| - 1]];
    }
  }

  lemma {:induction false} SplitSingle(s: string, c: char)
    requires Free(s, c)
    ensures Split(s, c) == [s]
  {
    if s != [] {
      SplitSingle(s[..|s| - 1], c);
      assert s == s[..|s| - 1] + [s[|s| - 1]];
    }
  }

  /** Join is injective on non-empty lists of separator-free pieces: Split undoes it. */
  lemma {:induction false} SplitOfJoin(xs: seq<string>, c: char)
    requires |xs| >= 1
    requires AllFree(xs, c)
    ensures Split(Join(xs, c), c) == xs
  {
    hide Split;
    if |xs| == 1 {
      SplitSingle(xs[0], c);
    } else {
      var ys, last := xs[..|xs| - 1], xs[|xs| - 1];
      assert ys + [last] == xs;
      SplitOfJoin(ys, c);
      SplitLast(Join(ys, c), c, last);
    }
  }

  /** Conversely, joining the pieces of a string gives the string back. */
  lemma {:induction false} JoinOfSplit(s: string, c: char)
    ensures Join(Split(s, c), c) == s
  {
    if s != [] {
      var t, x := s[..|s| - 1], s[|s| - 1];
      JoinOfSplit(t, c);
      var r := Split(t, c);
      if x == c {
        JoinSnoc(r, c, "");
        assert Split(s, c) == r + [""];
      } else {
        JoinExtend(r, c, x);
        assert Split(s, c) == r[..|r| - 1] + [r[|r| - 1] + [x]];
      }
      assert s == t + [x];
    }
  }

  lemma {:induction false} JoinSnoc(xs: seq<string>, c: char, y: string)
    requires |xs| >= 1
    ensures Join(xs + [y], c) == Join(xs, c) + [c] + y
  {
    assert (xs + [y])[..|xs|] == xs;
  }

  /** Joining two lists one after the other. */
  lemma {:induction false} JoinConcat(xs: seq<string>, ys: seq<string>, c: char)
    requires |xs| >= 1 && |ys| >= 1
    ensures Join(xs + ys, c) == Join(xs, c) + [c] + Join(ys, c)
  {
    var front, last := ys[..|ys| - 1], ys[|ys| - 1];
    assert xs + ys == (xs + front) + [last];
    JoinSnoc(xs + front, c, last);
    if front == [] {
      assert xs + front == xs;
    } else {
      JoinConcat(xs, front, c);
      assert front + [last] == ys;
      assert Join(xs, c) + [c] + Join(front, c) + [c] + last == Join(xs, c) + [c] + (Join(front, c) + [c] + last);
    }
  }

  lemma {:induction false} JoinExtend(xs: seq<string>, c: char, x: char)
    requires |xs| >= 1
    ensures Join(xs[..|xs| - 1] + [xs[|xs| - 1] + [x]], c) == Join(xs, c) + [x]
  {
    var front, last := xs[..|xs| - 1], xs[|xs| - 1];
    if front == [] {
      assert xs == [last];
    } else {
      JoinSnoc(front, c, last);
      JoinSnoc(front, c, last + [x]);
      assert xs == front + [last];
      assert Join(front, c) + [c] + (last + [x]) == Join(front, c) + [c] + last + [x];
    }
  }

  /** The position of the first `c`, or `|s|` when there is none. */
  function IndexOf(s: string, c: char): (i: nat)
    ensures i <= |s|
    ensures Free(s[..i], c)
    ensures i < |s| ==> s[i] == c
  {
    if s == [] || s[0] == c then 0
    else
      var i := 1 + IndexOf(s[1..], c);
      assert s[..i] == [s[0]] + s[1..][..i - 1];
      i
  }

  /** The first separator is unique. */
  lemma {:induction false} IndexOfFirst(a: string, c: char, b: string)
    requires Free(a, c)
    ensures IndexOf(a + [c] + b, c) == |a|
  {
    var s := a + [c] + b;
    var i := IndexOf(s, c);
    assert forall k :: 0 <= k < |a| ==> s[k] == a[k] != c;
    assert forall k :: 0 <= k < i ==> s[k] == s[..i][k] != c;
    assert s[|a|] == c;
  }

  lemma {:induction false} IndexOfNone(a: string, c: char)
    requires Free(a, c)
    ensures IndexOf(a, c) == |a|
  {
    assert forall k :: 0 <= k < |a| ==> a[k] != c;
  }

  predicate IsDigit(c: char) {
    '0' <= c <= '9'
  }

  // ASCII lower case of one character.
  function LowerChar(c: char): char {
    if 'A' <= c <= 'Z' then c - 'A' + 'a' else c
  }

  /** Each capital letter has its small one, and nothing else changes. */
  lemma {:induction false} LowerCharIs(c: char)
    ensures 65 <= c as int <= 90 ==> LowerChar(c) as int == c as int + 32
    ensures !(65 <= c as int <= 90) ==> LowerChar(c) == c
  {
  }

  /** strings.ToLower on ASCII text. */
  function ToLower(s: string): (r: string)
    ensures |r| == |s|
    ensures forall i :: 0 <= i < |s| ==> r[i] == LowerChar(s[i])
  {
    if s == [] then [] else ToLower(s[..|s| - 1]) + [LowerChar(s[|s| - 1])]
  }
}
