/**
 * String helpers shared by the model: Python's `str.split` on a one-character
 * separator and `sep.join`, prefix tests, and whitespace stripping as done by
 * JavaScript's `String.prototype.trim` and Python's `str.strip`.
 */
module Text {
  import opened Options

  /** Index of the first occurrence of `c` in `s`. */
  function IndexOf(s: string, c: char): (r: Option<nat>)
    ensures r.None? <==> c !in s
    ensures r.Some? ==> r.value < |s| && s[r.value] == c && c !in s[..r.value]
  {
    if |s| == 0 then None
    else if s[0] == c then Some(0)
    else
      match IndexOf(s[1..], c)
      case None => None
      case Some(i) => assert s[1..][..i] == s[1..i + 1]; Some(i + 1)
  }

  /**
   * Python's `s.split(sep)` for a one-character separator: the pieces between
   * separators, empty pieces kept, always at least one piece.
   */
  function Split(s: string, sep: char): (parts: seq<string>)
    ensures |parts| >= 1
    ensures forall i :: 0 <= i < |parts| ==> sep !in parts[i]
    decreases |s|
  {
    match IndexOf(s, sep)
    case None => [s]
    case Some(i) => [s[..i]] + Split(s[i + 1..], sep)
  }

  /** Python's `sep.join(parts)`. */
  function Join(parts: seq<string>, sep: char): string
  {
    if |parts| == 0 then ""
    else if |parts| == 1 then parts[0]
    else parts[0] + [sep] + Join(parts[1..], sep)
  }

  /** The first separator of `p + [sep] + rest` is the one after `p`. */
  lemma {:induction false} IndexOfCons(p: string, sep: char, rest: string)
    requires sep !in p
    ensures IndexOf(p + [sep] + rest, sep) == Some(|p|)
  {
    if |p| > 0 {
      IndexOfCons(p[1..], sep, rest);
      assert (p + [sep] + rest)[1..] == p[1..] + [sep] + rest;
    }
  }

  /** Splitting a string that begins with a separator-free piece and a separator. */
  lemma SplitCons(p: string, sep: char, rest: string)
    requires sep !in p
    ensures Split(p + [sep] + rest, sep) == [p] + Split(rest, sep)
  {
    var s := p + [sep] + rest;
    IndexOfCons(p, sep, rest);
    assert s[..|p|] == p;
    assert s[|p| + 1..] == rest;
  }

  /** Two separator-free pieces in front of `rest` split off as two parts. */
  lemma SplitTwo(b: string, c: string, rest: string, sep: char)
    requires sep !in b && sep !in c
    ensures Split(b + [sep] + (c + [sep] + rest), sep) == [b, c] + Split(rest, sep)
  {
    SplitCons(c, sep, rest);
    SplitCons(b, sep, c + [sep] + rest);
  }

  /** Three separator-free pieces in front of `rest` split off as three parts. */
  lemma SplitThree(a: string, b: string, c: string, rest: string, sep: char)
    requires sep !in a && sep !in b && sep !in c
    ensures Split(a + [sep] + (b + [sep] + (c + [sep] + rest)), sep) == [a, b, c] + Split(rest, sep)
  {
    SplitThreeNested(a, b, c, rest, sep);
    Regroup(a, b, c, Split(rest, sep), Split(a + [sep] + (b + [sep] + (c + [sep] + rest)), sep));
  }

  lemma SplitThreeNested(a: string, b: string, c: string, rest: string, sep: char)
    requires sep !in a && sep !in b && sep !in c
    ensures Split(a + [sep] + (b + [sep] + (c + [sep] + rest)), sep) == [a] + ([b, c] + Split(rest, sep))
  {
    SplitTwo(b, c, rest, sep);
    SplitCons(a, sep, b + [sep] + (c + [sep] + rest));
  }

  lemma Regroup(a: string, b: string, c: string, tail: seq<string>, whole: seq<string>)
    requires whole == [a] + ([b, c] + tail)
    ensures whole == [a, b, c] + tail
  {
  }

  /** Splitting a string without the separator gives the whole string. */
  lemma SplitNoSep(s: string, sep: char)
    requires sep !in s
    ensures Split(s, sep) == [s]
  {
  }

  /** Split undoes Join when no piece holds the separator. */
  lemma {:induction false} SplitJoin(parts: seq<string>, sep: char)
    requires |parts| >= 1
    requires forall i :: 0 <= i < |parts| ==> sep !in parts[i]
    ensures Split(Join(parts, sep), sep) == parts
  {
    if |parts| == 1 {
      SplitNoSep(parts[0], sep);
    } else {
      SplitJoin(parts[1..], sep);
      SplitCons(parts[0], sep, Join(parts[1..], sep));
      assert [parts[0]] + parts[1..] == parts;
    }
  }

  /** Joining a piece in front of at least one more piece puts a separator between them. */
  lemma JoinCons(head: string, tail: seq<string>, sep: char)
    requires |tail| >= 1
    ensures Join([head] + tail, sep) == head + [sep] + Join(tail, sep)
  {
    assert ([head] + tail)[1..] == tail;
  }

  /** Join undoes Split: splitting never loses a character. */
  lemma {:induction false} JoinSplit(s: string, sep: char)
    ensures Join(Split(s, sep), sep) == s
    decreases |s|
  {
    var i := IndexOf(s, sep);
    if i.Some? {
      var head, rest := s[..i.value], s[i.value + 1..];
      JoinSplit(rest, sep);
      assert Split(s, sep) == [head] + Split(rest, sep);
      JoinCons(head, Split(rest, sep), sep);
      Around(s, i.value);
    }
  }

  /** A string is the part before position `i`, the character there, and the part after. */
  lemma Around(s: string, i: nat)
    requires i < |s|
    ensures s == s[..i] + [s[i]] + s[i + 1..]
  {
  }

  /** Python's `s.split(sep)[-1]`: the piece after the last separator. */
  function LastPart(s: string, sep: char): string
    decreases |s|
  {
    match IndexOf(s, sep)
    case None => s
    case Some(i) => LastPart(s[i + 1..], sep)
  }

  /** LastPart is a separator-free suffix, preceded by a separator when it is not all of `s`. */
  lemma {:induction false} LastPartShape(s: string, sep: char)
    ensures sep !in LastPart(s, sep)
    ensures |LastPart(s, sep)| <= |s| && LastPart(s, sep) == s[|s| - |LastPart(s, sep)|..]
    ensures |LastPart(s, sep)| < |s| ==> s[|s| - |LastPart(s, sep)| - 1] == sep
    decreases |s|
  {
    match IndexOf(s, sep)
    case None =>
    case Some(i) =>
      var t := s[i + 1..];
      var r := LastPart(t, sep);
      assert LastPart(s, sep) == r;
      LastPartShape(t, sep);
      assert r == t[|t| - |r|..];
      SuffixOfSuffix(s, i + 1, |r|);
  }

  /** The last `k` characters of a suffix of `s` are the last `k` of `s`, and so is the one before them. */
  lemma SuffixOfSuffix(s: string, j: nat, k: nat)
    requires j <= |s| && k <= |s| - j
    ensures s[j..][|s| - j - k..] == s[|s| - k..]
    ensures k < |s| - j ==> s[j..][|s| - j - k - 1] == s[|s| - k - 1]
    ensures k == |s| - j && j > 0 ==> |s| - k - 1 == j - 1
  {
  }

  /** The last element of `[x] + t` is the last element of `t`. */
  lemma LastOfCons(x: string, t: seq<string>)
    requires |t| >= 1
    ensures ([x] + t)[|t|] == t[|t| - 1]
  {
  }

  /** The last piece of Split is LastPart. */
  lemma {:induction false} LastPartIsLastPiece(s: string, sep: char)
    ensures Split(s, sep)[|Split(s, sep)| - 1] == LastPart(s, sep)
    decreases |s|
  {
    var parts := Split(s, sep);
    match IndexOf(s, sep)
    case None =>
      assert parts == [s];
    case Some(i) =>
      var rest := s[i + 1..];
      var tail := Split(rest, sep);
      LastPartIsLastPiece(rest, sep);
      assert parts == [s[..i]] + tail;
      LastOfCons(s[..i], tail);
  }

  /** Python's `s.startswith(p)` and JavaScript's `s.startsWith(p)`. */
  predicate StartsWith(s: string, p: string)
  {
    |p| <= |s| && s[..|p|] == p
  }

  /** Python's `s.endswith(p)`. */
  predicate EndsWith(s: string, p: string)
  {
    |p| <= |s| && s[|s| - |p|..] == p
  }

  /** The white space that ECMAScript's `trim` removes (WhiteSpace and LineTerminator code points). */
  predicate IsJsWhitespace(c: char)
  {
    var n := c as int;
    n == 0x09 || n == 0x0A || n == 0x0B || n == 0x0C || n == 0x0D || n == 0x20 || n == 0xA0 ||
    n == 0x1680 || (0x2000 <= n <= 0x200A) || n == 0x2028 || n == 0x2029 || n == 0x202F ||
    n == 0x205F || n == 0x3000 || n == 0xFEFF
  }

  /** The white space that Python's `str.strip()` removes (the characters for which `str.isspace` holds). */
  predicate IsPyWhitespace(c: char)
  {
    var n := c as int;
    (0x09 <= n <= 0x0D) || (0x1C <= n <= 0x20) || n == 0x85 || n == 0xA0 ||
    n == 0x1680 || (0x2000 <= n <= 0x200A) || n == 0x2028 || n == 0x2029 || n == 0x202F ||
    n == 0x205F || n == 0x3000
  }

  /** Number of leading characters of `s` that satisfy `ws`. */
  function LeadingCount(s: string, ws: char -> bool): (n: nat)
    ensures n <= |s|
    ensures forall i :: 0 <= i < n ==> ws(s[i])
    ensures n == |s| || !ws(s[n])
  {
    if |s| > 0 && ws(s[0]) then
      var m := LeadingCount(s[1..], ws);
      assert forall i :: 1 <= i <= m ==> s[i] == s[1..][i - 1];
      1 + m
    else 0
  }

  /** Number of trailing characters of `s` that satisfy `ws`. */
  function TrailingCount(s: string, ws: char -> bool): (n: nat)
    ensures n <= |s|
    ensures forall i :: |s| - n <= i < |s| ==> ws(s[i])
    ensures n == |s| || !ws(s[|s| - n - 1])
  {
    if |s| > 0 && ws(s[|s| - 1]) then
      var m := TrailingCount(s[..|s| - 1], ws);
      assert forall i :: |s| - 1 - m <= i < |s| - 1 ==> s[i] == s[..|s| - 1][i];
      1 + m
    else 0
  }

  /**
   * The slice `s[a..b]` that stripping keeps: everything outside it satisfies
   * `ws`, and when it is not empty its first and last characters do not.
   */
  function StripBounds(s: string, ws: char -> bool): (ab: (nat, nat))
    ensures ab.0 <= ab.1 <= |s|
    ensures forall i :: 0 <= i < ab.0 ==> ws(s[i])
    ensures forall i :: ab.1 <= i < |s| ==> ws(s[i])
    ensures ab.0 < ab.1 ==> !ws(s[ab.0]) && !ws(s[ab.1 - 1])
  {
    var a := LeadingCount(s, ws);
    if a == |s| then (a, a)
    else
      var t := TrailingCount(s[a..], ws);
      assert forall i :: |s| - t <= i < |s| ==> s[i] == s[a..][i - a];
      assert t < |s| - a by { assert !ws(s[a..][0]); }
      (a, |s| - t)
  }

  /** `s` with the characters satisfying `ws` removed from both ends. */
  function StripWith(s: string, ws: char -> bool): string
  {
    var ab := StripBounds(s, ws);
    s[ab.0..ab.1]
  }

  /** JavaScript's `s.trim()`. */
  function JsTrim(s: string): string
  {
    StripWith(s, IsJsWhitespace)
  }

  /** Python's `s.strip()`. */
  function PyStrip(s: string): string
  {
    StripWith(s, IsPyWhitespace)
  }

  /** Stripping a string whose two ends are not white space returns it unchanged. */
  lemma StripWithNoEdges(s: string, ws: char -> bool)
    requires s == [] || (!ws(s[0]) && !ws(s[|s| - 1]))
    ensures StripWith(s, ws) == s
  {
    var ab := StripBounds(s, ws);
    if s != [] {
      assert ab.0 == 0;
      assert ab.1 == |s|;
    }
  }
}
