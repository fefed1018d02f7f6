/**
 * String primitives of PHP and JavaScript that the modelled code relies on:
 * `trim`, `rtrim`, `str_starts_with`, `str_replace`, `String.prototype.split`,
 * `Array.prototype.join`, `String(n)` for non-negative integers, and the
 * ordering of `localeCompare` on the strings it is applied to.
 */
module Strings {

  /** `str_starts_with(s, p)` / `s.startsWith(p)`. */
  predicate StartsWith(s: string, p: string) {
    |p| <= |s| && s[..|p|] == p
  }

  /** `s.endsWith(c)` for a one-character suffix. */
  predicate EndsWith(s: string, c: char) {
    |s| > 0 && s[|s| - 1] == c
  }

  /** The characters PHP's `trim` strips by default: " \t\n\r\0\x0B". */
  predicate IsPhpSpace(c: char) {
    c == ' ' || c == '\t' || c == '\n' || c == '\r' || c == '\0' || c == '\U{000B}'
  }

  predicate AllPhpSpace(s: string) {
    forall k :: 0 <= k < |s| ==> IsPhpSpace(s[k])
  }

  /** `ltrim(s)`: drops the leading whitespace, and only that. */
  function TrimLeft(s: string): (r: string)
    ensures |r| <= |s| && r == s[|s| - |r|..]
    ensures forall k :: 0 <= k < |s| - |r| ==> IsPhpSpace(s[k])
    ensures r == [] || !IsPhpSpace(r[0])
  {
    if |s| > 0 && IsPhpSpace(s[0]) then
      var r := TrimLeft(s[1..]);
      assert s[1..][|s| - 1 - |r|..] == s[|s| - |r|..];
      assert forall k :: 0 < k < |s| - |r| ==> s[k] == s[1..][k - 1];
      r
    else s
  }

  /** `rtrim(s)`: drops the trailing whitespace, and only that. */
  function TrimRight(s: string): (r: string)
    ensures |r| <= |s| && r == s[..|r|]
    ensures forall k :: |r| <= k < |s| ==> IsPhpSpace(s[k])
    ensures r == [] || !IsPhpSpace(r[|r| - 1])
  {
    if |s| > 0 && IsPhpSpace(s[|s| - 1]) then
      var r := TrimRight(s[..|s| - 1]);
      assert s[..|s| - 1][..|r|] == s[..|r|];
      assert forall k :: |r| <= k < |s| - 1 ==> s[k] == s[..|s| - 1][k];
      r
    else s
  }

  /** Where the text that `trim` keeps starts: after the leading whitespace. */
  function TrimStart(s: string): (i: nat)
    ensures i <= |s|
  {
    |s| - |TrimLeft(s)|
  }

  /** `trim(s)`: the text between the leading and the trailing whitespace. */
  function Trim(s: string): (r: string)
    ensures TrimStart(s) + |r| <= |s| && r == s[TrimStart(s)..TrimStart(s) + |r|]
    ensures forall k :: 0 <= k < TrimStart(s) ==> IsPhpSpace(s[k])
    ensures forall k :: TrimStart(s) + |r| <= k < |s| ==> IsPhpSpace(s[k])
    ensures r == [] || (!IsPhpSpace(r[0]) && !IsPhpSpace(r[|r| - 1]))
  {
    var l := TrimLeft(s);
    var r := TrimRight(l);
    TrimPieces(s, l, r);
    r
  }

  /** The trimmed text, seen as a piece of the original string. */
  lemma TrimPieces(s: string, l: string, r: string)
    requires |l| <= |s| && l == s[|s| - |l|..]
    requires |r| <= |l| && r == l[..|r|]
    requires forall k :: |r| <= k < |l| ==> IsPhpSpace(l[k])
    ensures var i := |s| - |l|; s[i..i + |r|] == r && forall k :: i + |r| <= k < |s| ==> IsPhpSpace(s[k])
  {
    var i := |s| - |l|;
    assert s[i..i + |r|] == l[..|r|];
    forall k | i + |r| <= k < |s| ensures IsPhpSpace(s[k]) {
      assert s[k] == l[k - i];
    }
  }

  /** A string without surrounding whitespace is its own trim. */
  lemma TrimOfTrimmed(s: string)
    requires s == [] || (!IsPhpSpace(s[0]) && !IsPhpSpace(s[|s| - 1]))
    ensures Trim(s) == s
  {
  }

  /** Trimming ignores whitespace added around a string. */
  lemma {:induction false} TrimSurrounded(a: string, s: string, b: string)
    requires AllPhpSpace(a) && AllPhpSpace(b)
    ensures Trim(a + s + b) == Trim(s)
  {
    TrimLeftSpacePrefix(a, s + b);
    assert a + s + b == a + (s + b);
    TrimLeftAppend(s, b);
    TrimRightSpaceSuffix(TrimLeft(s), b);
  }

  lemma {:induction false} TrimLeftSpacePrefix(a: string, s: string)
    requires AllPhpSpace(a)
    ensures TrimLeft(a + s) == TrimLeft(s)
  {
    if a != [] {
      assert (a + s)[0] == a[0];
      assert (a + s)[1..] == a[1..] + s;
      TrimLeftSpacePrefix(a[1..], s);
    } else {
      assert a + s == s;
    }
  }

  /** Appending whitespace: the left trim of `s + b` is the left trim of `s` followed by `b`,
      unless `s` is all whitespace. */
  lemma {:induction false} TrimLeftAppend(s: string, b: string)
    requires AllPhpSpace(b)
    ensures TrimRight(TrimLeft(s + b)) == TrimRight(TrimLeft(s))
  {
    if s == [] {
      assert s + b == b;
      TrimLeftSpacePrefix(b, []);
      assert b + [] == b;
    } else if IsPhpSpace(s[0]) {
      assert (s + b)[1..] == s[1..] + b;
      TrimLeftAppend(s[1..], b);
    } else {
      TrimRightSpaceSuffix(s, b);
    }
  }

  lemma {:induction false} TrimRightSpaceSuffix(s: string, b: string)
    requires AllPhpSpace(b)
    ensures TrimRight(s + b) == TrimRight(s)
  {
    if b != [] {
      assert (s + b)[..|s + b| - 1] == s + b[..|b| - 1];
      TrimRightSpaceSuffix(s, b[..|b| - 1]);
    } else {
      assert s + b == s;
    }
  }

  /** `rtrim(s, c)` for a single character `c`: drops every trailing `c`, and only those. */
  function TrimRightChar(s: string, c: char): (r: string)
    ensures |r| <= |s| && r == s[..|r|]
    ensures forall k :: |r| <= k < |s| ==> s[k] == c
    ensures r == [] || r[|r| - 1] != c
  {
    if |s| > 0 && s[|s| - 1] == c then TrimRightChar(s[..|s| - 1], c) else s
  }

  /** Appending characters `c` does not change what `rtrim(.., c)` leaves. */
  lemma {:induction false} TrimRightCharSuffix(s: string, b: string, c: char)
    requires forall k :: 0 <= k < |b| ==> b[k] == c
    ensures TrimRightChar(s + b, c) == TrimRightChar(s, c)
  {
    if b != [] {
      assert (s + b)[..|s + b| - 1] == s + b[..|b| - 1];
      TrimRightCharSuffix(s, b[..|b| - 1], c);
    } else {
      assert s + b == s;
    }
  }

  /**
   * `str_replace(p, q, s)`: scans `s` from the left and replaces every
   * non-overlapping occurrence of `p` by `q`. An empty search string leaves
   * `s` as it is, as PHP does.
   */
  function ReplaceAll(s: string, p: string, q: string): (r: string)
    decreases |s|
  {
    if |p| == 0 || |s| < |p| then s
    else if s[..|p|] == p then q + ReplaceAll(s[|p|..], p, q)
    else [s[0]] + ReplaceAll(s[1..], p, q)
  }

  /** A pattern that starts with a character `s` does not contain never matches. */
  lemma {:induction false} ReplaceAllNoMatch(s: string, p: string, q: string)
    requires |p| > 0 && p[0] !in s
    ensures ReplaceAll(s, p, q) == s
  {
    if |s| >= |p| {
      assert s[..|p|][0] == s[0];
      ReplaceAllNoMatch(s[1..], p, q);
    }
  }

  /** A prefix in which the pattern's first character does not occur is copied unchanged. */
  lemma {:induction false} ReplaceAllCopiesPrefix(a: string, s: string, p: string, q: string)
    requires |p| > 0 && p[0] !in a
    ensures ReplaceAll(a + s, p, q) == a + ReplaceAll(s, p, q)
  {
    if a != [] {
      assert |a + s| >= |p| ==> (a + s)[..|p|][0] == a[0];
      assert (a + s)[1..] == a[1..] + s;
      ReplaceAllCopiesPrefix(a[1..], s, p, q);
    } else {
      assert a + s == s;
    }
  }

  /** `p` occurs in `s` starting at position `i`. */
  predicate MatchesAt(s: string, p: string, i: int) {
    0 <= i && i + |p| <= |s| && s[i..i + |p|] == p
  }

  /** A pattern that occurs nowhere is not replaced. */
  lemma {:induction false} ReplaceAllAbsent(s: string, p: string, q: string)
    requires forall i :: !MatchesAt(s, p, i)
    ensures ReplaceAll(s, p, q) == s
    decreases |s|
  {
    if |p| > 0 && |s| >= |p| {
      assert !MatchesAt(s, p, 0);
      forall i ensures !MatchesAt(s[1..], p, i) {
        if 0 <= i && i + |p| <= |s| - 1 {
          assert s[1..][i..i + |p|] == s[i + 1..i + 1 + |p|];
          assert !MatchesAt(s, p, i + 1);
        }
      }
      ReplaceAllAbsent(s[1..], p, q);
    }
  }

  /** An occurrence of the pattern at the front is replaced. */
  lemma ReplaceAllAtFront(p: string, s: string, q: string)
    requires |p| > 0
    ensures ReplaceAll(p + s, p, q) == q + ReplaceAll(s, p, q)
  {
    assert (p + s)[..|p|] == p;
    assert (p + s)[|p|..] == s;
  }

  /** With an empty replacement, an occurrence of the pattern at the front is deleted. */
  lemma ReplaceAllDropsFront(p: string, s: string)
    requires |p| > 0
    ensures ReplaceAll(p + s, p, "") == ReplaceAll(s, p, "")
  {
    var r := ReplaceAll(s, p, "");
    ReplaceAllAtFront(p, s, "");
    assert "" + r == r;
  }

  /** A character absent from the text and from the replacement is absent from the result. */
  lemma {:induction false} ReplaceAllAvoids(s: string, p: string, q: string, c: char)
    requires c !in s && c !in q
    ensures c !in ReplaceAll(s, p, q)
    decreases |s|
  {
    if |p| > 0 && |s| >= |p| {
      if s[..|p|] == p {
        assert forall k :: 0 <= k < |s[|p|..]| ==> s[|p|..][k] == s[|p| + k];
        ReplaceAllAvoids(s[|p|..], p, q, c);
      } else {
        assert forall k :: 0 <= k < |s[1..]| ==> s[1..][k] == s[1 + k];
        ReplaceAllAvoids(s[1..], p, q, c);
      }
    }
  }

  /** `s.split(c)` for a one-character separator: the pieces between the separators, at least one. */
  function Split(s: string, c: char): (parts: seq<string>)
    ensures |parts| >= 1
    ensures forall k :: 0 <= k < |parts| ==> c !in parts[k]
    decreases |s|
  {
    if |s| == 0 then [""]
    else if s[0] == c then [""] + Split(s[1..], c)
    else
      var rest := Split(s[1..], c);
      [[s[0]] + rest[0]] + rest[1..]
  }

  /** `parts.join(sep)`. */
  function Join(parts: seq<string>, sep: string): string
    decreases |parts|
  {
    if |parts| == 0 then ""
    else if |parts| == 1 then parts[0]
    else parts[0] + sep + Join(parts[1..], sep)
  }

  /** A character in no piece and not in the separator is not in the joined text. */
  lemma {:induction false} JoinAvoids(parts: seq<string>, sep: string, c: char)
    requires forall k :: 0 <= k < |parts| ==> c !in parts[k]
    requires c !in sep
    ensures c !in Join(parts, sep)
    decreases |parts|
  {
    if |parts| > 1 {
      JoinAvoids(parts[1..], sep, c);
    }
  }

  /** Splitting where the first piece has no separator: that piece is glued to the first part. */
  lemma {:induction false} SplitPrefix(a: string, rest: string, c: char)
    requires c !in a
    ensures Split(a + rest, c) == [a + Split(rest, c)[0]] + Split(rest, c)[1..]
  {
    if a != [] {
      assert (a + rest)[0] == a[0];
      assert (a + rest)[1..] == a[1..] + rest;
      SplitPrefix(a[1..], rest, c);
      assert [a[0]] + (a[1..] + Split(rest, c)[0]) == a + Split(rest, c)[0];
    } else {
      assert a + rest == rest;
      assert a + Split(rest, c)[0] == Split(rest, c)[0];
      assert Split(rest, c) == [Split(rest, c)[0]] + Split(rest, c)[1..];
    }
  }

  /** Splitting undoes joining, provided no piece contains the separator. */
  lemma {:induction false} SplitJoin(parts: seq<string>, c: char)
    requires |parts| >= 1
    requires forall k :: 0 <= k < |parts| ==> c !in parts[k]
    ensures Split(Join(parts, [c]), c) == parts
  {
    if |parts| == 1 {
      SplitPrefix(parts[0], "", c);
      assert parts[0] + "" == parts[0];
    } else {
      var tail := Join(parts[1..], [c]);
      SplitJoin(parts[1..], c);
      assert parts[0] + [c] + tail == parts[0] + ([c] + tail);
      SplitPrefix(parts[0], [c] + tail, c);
      assert ([c] + tail)[1..] == tail;
      assert Split([c] + tail, c) == [""] + parts[1..];
      assert parts[0] + "" == parts[0];
      assert parts == [parts[0]] + parts[1..];
    }
  }

  /** Joining undoes splitting. */
  lemma {:induction false} JoinSplit(s: string, c: char)
    ensures Join(Split(s, c), [c]) == s
    decreases |s|
  {
    if |s| == 0 {
    } else if s[0] == c {
      JoinSplit(s[1..], c);
      assert s == [c] + s[1..];
    } else {
      var rest := Split(s[1..], c);
      JoinSplit(s[1..], c);
      var parts := [[s[0]] + rest[0]] + rest[1..];
      if |rest| == 1 {
        assert s == [s[0]] + s[1..];
      } else {
        assert parts[1..] == rest[1..];
        assert Join(rest, [c]) == rest[0] + [c] + Join(rest[1..], [c]);
        assert s == [s[0]] + s[1..];
      }
    }
  }

  predicate IsDigit(ch: char) {
    '0' <= ch <= '9'
  }

  function DigitChar(d: nat): (ch: char)
    requires d < 10
    ensures IsDigit(ch) && ch as int - '0' as int == d
  {
    "0123456789"[d]
  }

  /** `String(n)` for a non-negative integer: its decimal digits, without leading zeros. */
  function NatToString(n: nat): (s: string)
    ensures |s| >= 1 && (n >= 10 ==> |s| >= 2)
    ensures forall k :: 0 <= k < |s| ==> IsDigit(s[k])
    decreases n
  {
    if n < 10 then [DigitChar(n)] else NatToString(n / 10) + [DigitChar(n % 10)]
  }

  /** Distinct numbers print differently. */
  lemma {:induction false} NatToStringInjective(a: nat, b: nat)
    requires NatToString(a) == NatToString(b)
    ensures a == b
    decreases a
  {
    var sa, sb := NatToString(a), NatToString(b);
    if a >= 10 && b >= 10 {
      assert sa[|sa| - 1] == sb[|sb| - 1];
      assert sa[..|sa| - 1] == NatToString(a / 10);
      assert sb[..|sb| - 1] == NatToString(b / 10);
      NatToStringInjective(a / 10, b / 10);
    }
  }

  /** The longest prefix of decimal digits. */
  function DigitPrefix(s: string): (r: string)
    ensures |r| <= |s| && r == s[..|r|]
    ensures forall k :: 0 <= k < |r| ==> IsDigit(r[k])
    ensures |r| < |s| ==> !IsDigit(s[|r|])
    decreases |s|
  {
    if |s| == 0 || !IsDigit(s[0]) then "" else [s[0]] + DigitPrefix(s[1..])
  }

  /** Digits followed by something that does not start with a digit: the digit prefix is those digits. */
  lemma DigitPrefixOfAppend(a: string, x: string)
    requires forall k :: 0 <= k < |a| ==> IsDigit(a[k])
    requires |x| == 0 || !IsDigit(x[0])
    ensures DigitPrefix(a + x) == a
  {
    assert forall k :: 0 <= k < |a| ==> (a + x)[k] == a[k];
    assert |x| > 0 ==> (a + x)[|a|] == x[0];
    assert (a + x)[..|a|] == a;
  }

  /**
   * Code-unit lexicographic order: `a.localeCompare(b) < 0` on the strings it is
   * applied to here (calendar dates "YYYY-MM-DD" and the word "sem-data"),
   * where collation and code-unit order agree.
   */
  predicate Less(a: string, b: string)
    decreases |a|
  {
    |b| > 0 && (|a| == 0 || a[0] < b[0] || (a[0] == b[0] && Less(a[1..], b[1..])))
  }

  lemma {:induction false} LessIrreflexive(a: string)
    ensures !Less(a, a)
    decreases |a|
  {
    if |a| > 0 { LessIrreflexive(a[1..]); }
  }

  lemma {:induction false} LessTransitive(a: string, b: string, c: string)
    requires Less(a, b) && Less(b, c)
    ensures Less(a, c)
    decreases |a|
  {
    if |a| > 0 && a[0] == b[0] && b[0] == c[0] {
      LessTransitive(a[1..], b[1..], c[1..]);
    }
  }

  /** Any two different strings are ordered one way, and only one way. */
  lemma {:induction false} LessTotal(a: string, b: string)
    ensures a == b || Less(a, b) || Less(b, a)
    ensures !(Less(a, b) && Less(b, a))
    decreases |a|
  {
    if |a| > 0 && |b| > 0 && a[0] == b[0] {
      LessTotal(a[1..], b[1..]);
      if a[1..] == b[1..] {
        assert a == [a[0]] + a[1..] && b == [b[0]] + b[1..];
      }
    }
  }
}
