/** Byte strings. A C++ `char`, a Python character and a CMake byte are all a Dafny `char`:
    every statement here ranges over all strings, hence over all byte strings. */
module Text {
  import opened Wrappers

  /** The concatenation of a list of strings. */
  function Concat(parts: seq<string>): string {
    if parts == [] then "" else parts[0] + Concat(parts[1..])
  }

  lemma Associate(a: string, b: string, c: string)
    ensures a + (b + c) == (a + b) + c
  {
  }

  /** A run of one character. */
  function Repeat(c: char, n: nat): (s: string)
    ensures |s| == n
    ensures forall i :: 0 <= i < n ==> s[i] == c
  {
    seq(n, _ => c)
  }

  /** The rest of `s` after the literal `prefix`, if `s` starts with it. */
  function Strip(prefix: string, s: string): Option<string> {
    if prefix <= s then Some(s[|prefix|..]) else None
  }

  lemma StripConcat(prefix: string, rest: string)
    ensures Strip(prefix, prefix + rest) == Some(rest)
  {
  }

  /** Splits `s` at the first occurrence of `c`, dropping it. */
  function Until(s: string, c: char): (r: Option<(string, string)>)
    ensures r.Some? ==> s == r.value.0 + [c] + r.value.1 && c !in r.value.0 && |r.value.1| < |s|
  {
    if s == "" then None
    else if s[0] == c then Some(("", s[1..]))
    else match Until(s[1..], c)
      case None => None
      case Some((before, after)) => Some(([s[0]] + before, after))
  }

  lemma {:induction false} UntilConcat(before: string, c: char, after: string)
    requires c !in before
    ensures Until(before + [c] + after, c) == Some((before, after))
  {
    var s := before + [c] + after;
    if before == "" {
      assert s[1..] == after;
    } else {
      assert s[1..] == before[1..] + [c] + after;
      UntilConcat(before[1..], c, after);
      assert [s[0]] + before[1..] == before;
    }
  }

  /** `mark` occurs in `s` at `j`. */
  predicate OccursAt(s: string, mark: string, j: nat) {
    j <= |s| && mark <= s[j..]
  }

  predicate Contains(s: string, mark: string) {
    exists j :: 0 <= j <= |s| && OccursAt(s, mark, j)
  }

  /** The lines of a text; nothing when its last line is not ended. */
  function SplitLines(text: string): Option<seq<string>>
    decreases |text|
  {
    if text == "" then Some([])
    else
      var (line, rest) :- Until(text, '\n');
      var lines :- SplitLines(rest);
      Some([line] + lines)
  }

  /** The text of a list of lines. */
  function Unlines(lines: seq<string>): string {
    if lines == [] then "" else lines[0] + ['\n'] + Unlines(lines[1..])
  }

  lemma {:induction false} LinesRoundTrip(lines: seq<string>)
    requires forall i :: 0 <= i < |lines| ==> '\n' !in lines[i]
    ensures SplitLines(Unlines(lines)) == Some(lines)
  {
    if lines != [] {
      UntilConcat(lines[0], '\n', Unlines(lines[1..]));
      LinesRoundTrip(lines[1..]);
      assert [lines[0]] + lines[1..] == lines;
    }
  }

  lemma {:induction false} UnlinesAppend(left: seq<string>, right: seq<string>)
    ensures Unlines(left + right) == Unlines(left) + Unlines(right)
  {
    if left == [] {
      assert left + right == right;
    } else {
      assert (left + right)[1..] == left[1..] + right;
      UnlinesAppend(left[1..], right);
    }
  }

  lemma SeparatorInside(a: string, b: string, c: string, d: string, separator: char)
    requires a + [separator] + b == c + [separator] + d && |b| < |d|
    ensures separator in d
  {
    var s := a + [separator] + b;
    assert s[|a|] == separator;
    assert s[|a|] == (c + [separator] + d)[|a|] == d[|a| - |c| - 1];
  }

  /** The last separator divides a text in only one way. */
  lemma LastSeparator(a: string, b: string, c: string, d: string, separator: char)
    requires a + [separator] + b == c + [separator] + d
    requires separator !in b && separator !in d
    ensures a == c && b == d
  {
    if |b| < |d| {
      SeparatorInside(a, b, c, d, separator);
    } else if |d| < |b| {
      SeparatorInside(c, d, a, b, separator);
    } else {
      var s := a + [separator] + b;
      assert s[..|a|] == a && s[..|c|] == c;
      assert s[|a| + 1..] == b && s[|c| + 1..] == d;
    }
  }

  /** Splits off exactly `n` characters. */
  function Take(s: string, n: nat): Option<(string, string)> {
    if n <= |s| then Some((s[..n], s[n..])) else None
  }

  lemma TakeConcat(front: string, rest: string)
    ensures Take(front + rest, |front|) == Some((front, rest))
  {
  }

  /** Lexicographic order by character code: what `memcmp` and `sort` use on equal-length text. */
  predicate LexLess(a: string, b: string) {
    if b == "" then false
    else if a == "" then true
    else a[0] < b[0] || (a[0] == b[0] && LexLess(a[1..], b[1..]))
  }

  lemma {:induction false} LexIrreflexive(a: string)
    ensures !LexLess(a, a)
  {
    if a != "" {
      LexIrreflexive(a[1..]);
    }
  }

  lemma {:induction false} LexAsymmetric(a: string, b: string)
    requires LexLess(a, b)
    ensures !LexLess(b, a)
  {
    if a != "" && b != "" && a[0] == b[0] {
      LexAsymmetric(a[1..], b[1..]);
    }
  }

  lemma {:induction false} LexTotal(a: string, b: string)
    ensures a == b || LexLess(a, b) || LexLess(b, a)
  {
    if a != "" && b != "" && a[0] == b[0] {
      LexTotal(a[1..], b[1..]);
      assert a == [a[0]] + a[1..] && b == [b[0]] + b[1..];
    }
  }

  /** A smaller front of the same length decides the order. */
  lemma {:induction false} LexFront(a: string, b: string, x: string, y: string)
    requires |a| == |b| && LexLess(a, b)
    ensures LexLess(a + x, b + y)
  {
    assert (a + x)[1..] == a[1..] + x && (b + y)[1..] == b[1..] + y;
    if a[0] == b[0] {
      LexFront(a[1..], b[1..], x, y);
    }
  }

  /** An equal front leaves the order to the rest. */
  lemma {:induction false} LexBack(a: string, x: string, y: string)
    requires LexLess(x, y)
    ensures LexLess(a + x, a + y)
  {
    if a == "" {
      assert a + x == x && a + y == y;
    } else {
      assert (a + x)[1..] == a[1..] + x && (a + y)[1..] == a[1..] + y;
      LexBack(a[1..], x, y);
    }
  }
}
