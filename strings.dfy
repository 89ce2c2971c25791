/**
 * The pieces of Python's `str` behaviour the monitoring code relies on:
 * `split`, `replace(pat, "")`, `strip`, `startswith`/`endswith`, `upper`,
 * `join`, decimal digits, code-point ordering and `sorted(set(...))`.
 */
module Strings {

  // ---------------------------------------------------------------------------
  // Characters and decimal digits
  // ---------------------------------------------------------------------------

  predicate IsDigit(c: char) { '0' <= c <= '9' }

  predicate AllDigits(s: string) { forall k :: 0 <= k < |s| ==> IsDigit(s[k]) }

  function DigitValue(c: char): nat
    requires IsDigit(c)
  {
    (c as int) - ('0' as int)
  }

  function DigitChar(n: nat): (c: char)
    requires n < 10
    ensures IsDigit(c) && DigitValue(c) == n
  {
    (('0' as int) + n) as char
  }

  /** The value of a string of decimal digits, as Python's `int()` reads it. */
  function NatOf(s: string): nat
    requires AllDigits(s)
    decreases |s|
  {
    if s == [] then 0 else NatOf(s[..|s| - 1]) * 10 + DigitValue(s[|s| - 1])
  }

  function Pow10(w: nat): (p: nat)
    ensures p >= 1
  {
    if w == 0 then 1 else 10 * Pow10(w - 1)
  }

  /** `n` written with exactly `w` digits, zero-padded (`%02d`, `%04d`). */
  function Pad(n: nat, w: nat): (r: string)
    requires n < Pow10(w)
    ensures |r| == w && AllDigits(r) && NatOf(r) == n
    decreases w
  {
    if w == 0 then ""
    else
      var r := Pad(n / 10, w - 1) + [DigitChar(n % 10)];
      assert r[..|r| - 1] == Pad(n / 10, w - 1);
      r
  }

  lemma NatOfDigits(s: string)
    requires AllDigits(s) && (|s| == 2 || |s| == 4)
    ensures |s| == 2 ==> NatOf(s) == 10 * DigitValue(s[0]) + DigitValue(s[1])
    ensures |s| == 4 ==>
      NatOf(s) == 1000 * DigitValue(s[0]) + 100 * DigitValue(s[1]) + 10 * DigitValue(s[2]) + DigitValue(s[3])
  {
    assert s[..1][..0] == [] && NatOf(s[..1]) == DigitValue(s[0]);
    assert s[..2][..1] == s[..1];
    if |s| == 4 {
      assert s[..3][..2] == s[..2];
      assert s[..4][..3] == s[..3] && s[..4] == s;
    } else {
      assert s[..2] == s;
    }
  }

  /** `str(n)` for a natural number: no leading zeros. */
  function NatToString(n: nat): (r: string)
    ensures |r| >= 1 && AllDigits(r) && NatOf(r) == n
    decreases n
  {
    if n < 10 then [DigitChar(n)]
    else
      var r := NatToString(n / 10) + [DigitChar(n % 10)];
      assert r[..|r| - 1] == NatToString(n / 10);
      r
  }

  /** `str(i)` for an integer. */
  function IntToString(i: int): string
  {
    if i < 0 then "-" + NatToString(-i) else NatToString(i)
  }

  /** `int(s)` for a string of the form `-?\d+`. */
  function SignedValue(s: string): int
    requires |s| >= 1
    requires AllDigits(s) || (s[0] == '-' && AllDigits(s[1..]))
  {
    if s[0] == '-' then -(NatOf(s[1..]) as int) else NatOf(s)
  }

  // ---------------------------------------------------------------------------
  // Prefixes, suffixes, occurrences
  // ---------------------------------------------------------------------------

  predicate StartsWith(s: string, p: string) { |p| <= |s| && s[..|p|] == p }

  predicate EndsWith(s: string, p: string) { |p| <= |s| && s[|s| - |p|..] == p }

  /** `p` occurs in `s` at index `i`. */
  predicate OccursAt(s: string, p: string, i: nat) { i + |p| <= |s| && s[i..i + |p|] == p }

  /** `p in s` for strings. */
  predicate Occurs(p: string, s: string) { exists i: nat | i <= |s| :: OccursAt(s, p, i) }

  predicate NoChar(s: string, c: char) { forall k :: 0 <= k < |s| ==> s[k] != c }

  /** A text without the first character of `p` does not contain `p`. */
  lemma NoFirstCharNoOccurrence(s: string, p: string)
    requires |p| > 0 && NoChar(s, p[0])
    ensures !Occurs(p, s)
  {
  }

  // ---------------------------------------------------------------------------
  // str.split(sep) and str.replace(pat, "")
  // ---------------------------------------------------------------------------

  /**
   * `(cur + s).split(sep)` when `cur` holds no separator yet: separators are
   * found left to right and do not overlap, as in Python.
   */
  function SplitFrom(s: string, sep: string, cur: string): (r: seq<string>)
    requires |sep| > 0
    ensures |r| >= 1
    decreases |s|
  {
    if |s| == 0 then [cur]
    else if StartsWith(s, sep) then [cur] + SplitFrom(s[|sep|..], sep, "")
    else SplitFrom(s[1..], sep, cur + [s[0]])
  }

  /** `s.split(sep)` for a non-empty separator. */
  function Split(s: string, sep: string): (r: seq<string>)
    requires |sep| > 0
    ensures |r| >= 1
  {
    SplitFrom(s, sep, "")
  }

  /** `s.split(sep)[-1]`. */
  function LastPiece(s: string, sep: string): string
    requires |sep| > 0
  {
    var parts := Split(s, sep);
    parts[|parts| - 1]
  }

  /** `s.replace(pat, "")` for a non-empty pattern: left to right, non-overlapping. */
  function RemoveAll(s: string, pat: string): string
    requires |pat| > 0
    decreases |s|
  {
    if StartsWith(s, pat) then RemoveAll(s[|pat|..], pat)
    else if |s| == 0 then ""
    else [s[0]] + RemoveAll(s[1..], pat)
  }

  /** A text without the separator's first character is one piece. */
  lemma {:induction false} SplitNoSeparator(s: string, sep: string, cur: string)
    requires |sep| > 0 && NoChar(s, sep[0])
    ensures SplitFrom(s, sep, cur) == [cur + s]
    decreases |s|
  {
    if |s| > 0 {
      assert s[0] != sep[0];
      assert !StartsWith(s, sep);
      SplitNoSeparator(s[1..], sep, cur + [s[0]]);
      assert cur + [s[0]] + s[1..] == cur + s;
    } else {
      assert cur + s == cur;
    }
  }

  /** A separator whose head does not recur in it cannot start inside `a` and end inside itself. */
  lemma SeparatorNotStraddling(a: string, sep: string, b: string)
    requires 0 < |a| < |sep| && NoChar(sep[1..], sep[0])
    ensures !StartsWith(a + sep + b, sep)
  {
    var s := a + sep + b;
    assert s[|a|] == sep[0];
    assert sep[|a|] == sep[1..][|a| - 1];
    assert |sep| <= |s| ==> s[..|sep|][|a|] == s[|a|];
  }

  /**
   * When the separator cannot overlap itself (its first character occurs only
   * at its head) and `b` holds no separator, `(a + sep + b).split(sep)[-1] == b`.
   */
  lemma {:induction false} LastPieceAfterSeparator(a: string, sep: string, b: string, cur: string)
    requires |sep| > 0 && NoChar(sep[1..], sep[0]) && NoChar(b, sep[0])
    ensures var p := SplitFrom(a + sep + b, sep, cur); p[|p| - 1] == b
    decreases |a|
  {
    var s := a + sep + b;
    if |a| == 0 {
      assert s == sep + b;
      assert StartsWith(s, sep);
      assert s[|sep|..] == b;
      SplitNoSeparator(b, sep, "");
    } else if StartsWith(s, sep) {
      if |a| < |sep| {
        SeparatorNotStraddling(a, sep, b);
      }
      assert a[..|sep|] == sep;
      assert s[|sep|..] == a[|sep|..] + sep + b;
      LastPieceAfterSeparator(a[|sep|..], sep, b, "");
    } else {
      assert s[1..] == a[1..] + sep + b;
      LastPieceAfterSeparator(a[1..], sep, b, cur + [s[0]]);
    }
  }

  /** Removing every `pat` from `s + pat`, where `s` cannot start an occurrence. */
  lemma {:induction false} RemoveTrailing(s: string, pat: string)
    requires |pat| > 0 && NoChar(s, pat[0])
    ensures RemoveAll(s + pat, pat) == s
    decreases |s|
  {
    if |s| == 0 {
      assert s + pat == pat;
      assert pat[|pat|..] == "";
    } else {
      assert (s + pat)[0] == s[0] != pat[0];
      assert (s + pat)[1..] == s[1..] + pat;
      RemoveTrailing(s[1..], pat);
      assert [s[0]] + s[1..] == s;
    }
  }

  // ---------------------------------------------------------------------------
  // str.strip(), str.upper(), join
  // ---------------------------------------------------------------------------

  /** Python's `str.isspace()` for one character. */
  predicate IsSpace(c: char)
  {
    ('\t' <= c <= '\r') || ('\U{1C}' <= c <= ' ') || c == '\U{85}' || c == '\U{A0}'
    || c == '\U{1680}' || ('\U{2000}' <= c <= '\U{200A}') || c == '\U{2028}' || c == '\U{2029}'
    || c == '\U{202F}' || c == '\U{205F}' || c == '\U{3000}'
  }

  predicate Blank(s: string) { forall k :: 0 <= k < |s| ==> IsSpace(s[k]) }

  function StripLeft(s: string): (r: string)
    ensures |r| == 0 || !IsSpace(r[0])
    ensures Blank(s) <==> r == ""
    decreases |s|
  {
    if |s| > 0 && IsSpace(s[0]) then StripLeft(s[1..]) else s
  }

  function StripRight(s: string): (r: string)
    ensures |r| == 0 || !IsSpace(r[|r| - 1])
    ensures Blank(s) <==> r == ""
    decreases |s|
  {
    if |s| > 0 && IsSpace(s[|s| - 1]) then StripRight(s[..|s| - 1]) else s
  }

  /** `s.strip()`: the result is empty exactly when `s` is all white space. */
  function Strip(s: string): (r: string)
    ensures Blank(s) <==> r == ""
  {
    var l := StripLeft(s);
    assert Blank(s) <==> Blank(l);
    StripRight(l)
  }

  /** `s.upper()` on ASCII letters. */
  function Upper(s: string): (r: string)
    ensures |r| == |s|
  {
    seq(|s|, k requires 0 <= k < |s| => if 'a' <= s[k] <= 'z' then ((s[k] as int) - 32) as char else s[k])
  }

  /** `sep.join(parts)`. */
  function Join(parts: seq<string>, sep: string): string
    decreases |parts|
  {
    if |parts| == 0 then ""
    else if |parts| == 1 then parts[0]
    else parts[0] + sep + Join(parts[1..], sep)
  }

  /** A join starts with the first part. */
  lemma JoinFirst(parts: seq<string>, sep: string)
    requires |parts| > 0 && |parts[0]| > 0
    ensures |Join(parts, sep)| > 0 && Join(parts, sep)[0] == parts[0][0]
  {
    if |parts| > 1 {
      assert Join(parts, sep) == parts[0] + (sep + Join(parts[1..], sep));
    }
  }

  // ---------------------------------------------------------------------------
  // Code-point ordering of strings and sorted(set(xs), reverse=True)
  // ---------------------------------------------------------------------------

  /** Python's `a < b` on `str`: lexicographic by code point. */
  predicate Less(a: string, b: string)
    decreases |a|
  {
    if |a| == 0 then |b| > 0
    else if |b| == 0 then false
    else if a[0] != b[0] then a[0] < b[0]
    else Less(a[1..], b[1..])
  }

  lemma {:induction false} LessIrreflexive(a: string)
    ensures !Less(a, a)
    decreases |a|
  {
    if |a| > 0 { LessIrreflexive(a[1..]); }
  }

  lemma {:induction false} LessAsymmetric(a: string, b: string)
    ensures Less(a, b) ==> !Less(b, a)
    decreases |a|
  {
    if |a| > 0 && |b| > 0 && a[0] == b[0] { LessAsymmetric(a[1..], b[1..]); }
  }

  lemma {:induction false} LessTransitive(a: string, b: string, c: string)
    requires Less(a, b) && Less(b, c)
    ensures Less(a, c)
    decreases |a|
  {
    if |a| > 0 && a[0] == b[0] && b[0] == c[0] { LessTransitive(a[1..], b[1..], c[1..]); }
  }

  lemma {:induction false} LessTotal(a: string, b: string)
    requires a != b
    ensures Less(a, b) || Less(b, a)
    decreases |a|
  {
    if |a| > 0 && |b| > 0 && a[0] == b[0] {
      assert a == [a[0]] + a[1..] && b == [b[0]] + b[1..];
      LessTotal(a[1..], b[1..]);
    }
  }

  predicate StrictlyAscending(s: seq<string>)
  {
    forall i, j :: 0 <= i < j < |s| ==> Less(s[i], s[j])
  }

  predicate StrictlyDescending(s: seq<string>)
  {
    forall i, j :: 0 <= i < j < |s| ==> Less(s[j], s[i])
  }

  /** Inserts `x` into a strictly descending list unless it is already there. */
  function InsertDescending(s: seq<string>, x: string): (r: seq<string>)
    requires StrictlyDescending(s)
    ensures StrictlyDescending(r)
    ensures forall y :: y in r <==> y in s || y == x
    decreases |s|
  {
    if |s| == 0 then [x]
    else if x == s[0] then s
    else if Less(s[0], x) then
      assert forall j :: 0 <= j < |s| ==> Less(s[j], x) by {
        forall j | 0 < j < |s| ensures Less(s[j], x) { LessTransitive(s[j], s[0], x); }
      }
      [x] + s
    else
      LessTotal(s[0], x);
      var t := InsertDescending(s[1..], x);
      assert forall y :: y in t ==> Less(y, s[0]) by {
        forall y | y in t ensures Less(y, s[0]) {
          if y != x { var j :| 0 <= j < |s[1..]| && s[1..][j] == y; assert s[j + 1] == y; }
        }
      }
      assert forall y :: y in s <==> y == s[0] || y in s[1..] by {
        assert s == [s[0]] + s[1..];
      }
      [s[0]] + t
  }

  /** `sorted(set(xs), reverse=True)`: duplicate-free and strictly descending. */
  function SortedDistinctDescending(xs: seq<string>): (r: seq<string>)
    ensures StrictlyDescending(r)
    ensures forall y :: y in r <==> y in xs
    decreases |xs|
  {
    if |xs| == 0 then []
    else
      var init := xs[..|xs| - 1];
      assert forall y :: y in xs <==> y in init || y == xs[|xs| - 1] by {
        assert xs == init + [xs[|xs| - 1]];
      }
      InsertDescending(SortedDistinctDescending(init), xs[|xs| - 1])
  }

  lemma HeadIsElement(b: seq<string>)
    ensures |b| > 0 ==> b[0] in b
  {
  }

  /**
   * A strictly descending list is determined by its elements, so the list
   * above is the one Python's `sorted(..., reverse=True)` returns.
   */
  lemma {:induction false} DescendingUnique(a: seq<string>, b: seq<string>)
    requires StrictlyDescending(a) && StrictlyDescending(b)
    requires forall y :: y in a <==> y in b
    ensures a == b
    decreases |a|
  {
    if |a| == 0 {
      HeadIsElement(b);
    } else {
      assert a[0] in b;
      assert |b| > 0;
      assert b[0] in a;
      if a[0] != b[0] {
        var k :| 0 <= k < |b| && b[k] == a[0];
        var m :| 0 <= m < |a| && a[m] == b[0];
        assert k > 0 && m > 0;
        assert Less(a[0], b[0]) && Less(b[0], a[0]);
        LessAsymmetric(a[0], b[0]);
        assert false;
      }
      forall y ensures y in a[1..] <==> y in b[1..] {
        if y in a[1..] {
          var j :| 0 <= j < |a[1..]| && a[1..][j] == y;
          assert Less(a[j + 1], a[0]);
          if y == a[0] { LessIrreflexive(y); }
          assert y in b && y != b[0];
          var i :| 0 <= i < |b| && b[i] == y;
          assert b[1..][i - 1] == y;
        }
        if y in b[1..] {
          var j :| 0 <= j < |b[1..]| && b[1..][j] == y;
          assert Less(b[j + 1], b[0]);
          if y == b[0] { LessIrreflexive(y); }
          assert y in a && y != a[0];
          var i :| 0 <= i < |a| && a[i] == y;
          assert a[1..][i - 1] == y;
        }
      }
      DescendingUnique(a[1..], b[1..]);
      assert a == [a[0]] + a[1..] && b == [b[0]] + b[1..];
    }
  }
}
