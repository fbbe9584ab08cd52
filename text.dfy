/** The JavaScript string operations the services and pages rely on: trim, split, join,
    substring, case folding, substring search and number-to-text conversion. */
module Text {

  // ---------------------------------------------------------------------------
  // Whitespace and trimming (String.prototype.trim)
  // ---------------------------------------------------------------------------

  /** The WhiteSpace and LineTerminator code points that String.prototype.trim removes. */
  predicate IsJsWhitespace(c: char) {
    || c == ' ' || c == '\t' || c == '\n' || c == '\r'
    || c == '\U{B}' || c == '\U{C}' || c == '\U{A0}' || c == '\U{1680}'
    || ('\U{2000}' <= c <= '\U{200A}')
    || c == '\U{2028}' || c == '\U{2029}' || c == '\U{202F}' || c == '\U{205F}'
    || c == '\U{3000}' || c == '\U{FEFF}'
  }

  /** A string with no whitespace at either end. */
  predicate IsTrimmed(s: string) {
    s == [] || (!IsJsWhitespace(s[0]) && !IsJsWhitespace(s[|s| - 1]))
  }

  /** The index of the first non-blank at or after `i`; `|s|` when there is none. */
  function SkipBlanks(s: string, i: nat): (j: nat)
    requires i <= |s|
    ensures i <= j <= |s|
    ensures forall k :: i <= k < j ==> IsJsWhitespace(s[k])
    ensures j == |s| || !IsJsWhitespace(s[j])
    decreases |s| - i
  {
    if i < |s| && IsJsWhitespace(s[i]) then SkipBlanks(s, i + 1) else i
  }

  /** The index just past the last non-blank before `e`, going no lower than `lo`. */
  function BackBlanks(s: string, lo: nat, e: nat): (j: nat)
    requires lo <= e <= |s|
    ensures lo <= j <= e
    ensures forall k :: j <= k < e ==> IsJsWhitespace(s[k])
    ensures j == lo || !IsJsWhitespace(s[j - 1])
    decreases e
  {
    if e > lo && IsJsWhitespace(s[e - 1]) then BackBlanks(s, lo, e - 1) else e
  }

  /** String.prototype.trim: the leading and then the trailing whitespace stripped, the
      middle untouched. */
  function Trim(s: string): (r: string)
    ensures IsTrimmed(r)
    ensures |r| <= |s|
  {
    var lo := SkipBlanks(s, 0);
    s[lo..BackBlanks(s, lo, |s|)]
  }

  /** Trim keeps a contiguous run of the input, and what it strips is whitespace. */
  lemma TrimIsInfix(s: string)
    ensures var lo := SkipBlanks(s, 0);
      var hi := lo + |Trim(s)|;
      && OccursAt(Trim(s), s, lo)
      && (forall k :: 0 <= k < lo ==> IsJsWhitespace(s[k]))
      && (forall k :: hi <= k < |s| ==> IsJsWhitespace(s[k]))
  {
  }

  /** Trimming is the identity on an already trimmed string, so it is idempotent. */
  lemma TrimIdentity(s: string)
    requires IsTrimmed(s)
    ensures Trim(s) == s
  {
    if |s| > 0 {
      assert SkipBlanks(s, 0) == 0;
      assert BackBlanks(s, 0, |s|) == |s|;
    }
  }

  /** Leading whitespace makes no difference to the trimmed string. */
  lemma TrimLeadingBlank(c: char, s: string)
    requires IsJsWhitespace(c)
    ensures Trim([c] + s) == Trim(s)
  {
    var t := [c] + s;
    assert t[0] == c && t[1..] == s;
    TrimDropsBlank(t);
  }

  /** A string that starts with white space trims to the same string as its tail. */
  lemma TrimDropsBlank(t: string)
    requires |t| > 0 && IsJsWhitespace(t[0])
    ensures Trim(t) == Trim(t[1..])
  {
    var lo := SkipBlanks(t[1..], 0);
    var hi := BackBlanks(t[1..], lo, |t| - 1);
    TrimBoundsShift(t);
    TailSlice(t, lo, hi);
  }

  /** The bounds `Trim` keeps move one place right when a blank is put in front. */
  lemma TrimBoundsShift(t: string)
    requires |t| > 0 && IsJsWhitespace(t[0])
    ensures var lo := SkipBlanks(t[1..], 0);
      && SkipBlanks(t, 0) == lo + 1
      && BackBlanks(t, lo + 1, |t|) == BackBlanks(t[1..], lo, |t| - 1) + 1
  {
    SkipShift(t, 0);
    BackShift(t, SkipBlanks(t[1..], 0), |t| - 1);
  }

  lemma TailSlice(t: string, a: nat, b: nat)
    requires a <= b < |t|
    ensures t[a + 1..b + 1] == t[1..][a..b]
  {
    var x, y := t[a + 1..b + 1], t[1..][a..b];
    assert |x| == |y|;
    forall k | 0 <= k < |x| ensures x[k] == y[k] {
      assert x[k] == t[a + 1 + k];
    }
  }

  lemma {:induction false} SkipShift(t: string, i: nat)
    requires i < |t|
    ensures SkipBlanks(t, i + 1) == SkipBlanks(t[1..], i) + 1
    decreases |t| - i
  {
    var s := t[1..];
    if i < |s| {
      assert t[i + 1] == s[i];
      if IsJsWhitespace(s[i]) {
        SkipShift(t, i + 1);
      }
    }
  }

  lemma {:induction false} BackShift(t: string, lo: nat, e: nat)
    requires lo <= e < |t|
    ensures BackBlanks(t, lo + 1, e + 1) == BackBlanks(t[1..], lo, e) + 1
    decreases e
  {
    var s := t[1..];
    if e > lo {
      assert t[e] == s[e - 1];
      if IsJsWhitespace(s[e - 1]) {
        BackShift(t, lo, e - 1);
      }
    }
  }

  lemma TrimAvoids(s: string, c: char)
    requires c !in s
    ensures c !in Trim(s)
  {
    var lo := SkipBlanks(s, 0);
    var r := Trim(s);
    forall k | 0 <= k < |r| ensures r[k] != c {
      assert r[k] == s[lo + k];
    }
  }

  // ---------------------------------------------------------------------------
  // Split and join (String.prototype.split with a one-character separator, Array.prototype.join)
  // ---------------------------------------------------------------------------

  /** `s.split(sep)`: the maximal separator-free pieces, empty ones included; never an empty list. */
  function Split(s: string, sep: char): (parts: seq<string>)
    ensures |parts| >= 1
    ensures forall i :: 0 <= i < |parts| ==> sep !in parts[i]
  {
    if |s| == 0 then [""]
    else
      var rest := Split(s[1..], sep);
      if s[0] == sep then [""] + rest
      else [[s[0]] + rest[0]] + rest[1..]
  }

  /** `parts.join(sep)`. */
  function Join(parts: seq<string>, sep: string): string {
    if |parts| == 0 then ""
    else if |parts| == 1 then parts[0]
    else parts[0] + sep + Join(parts[1..], sep)
  }

  /** A character in none of the pieces and not in the separator is not in the join. */
  lemma {:induction false} JoinAvoids(parts: seq<string>, sep: string, c: char)
    requires forall i :: 0 <= i < |parts| ==> c !in parts[i]
    requires c !in sep
    ensures c !in Join(parts, sep)
  {
    if |parts| > 1 {
      JoinAvoids(parts[1..], sep, c);
    }
  }

  /** The pieces of a split, glued back with the separator, give the original string. */
  lemma {:induction false} JoinSplit(s: string, sep: char)
    ensures Join(Split(s, sep), [sep]) == s
  {
    if |s| > 0 {
      var rest := Split(s[1..], sep);
      JoinSplit(s[1..], sep);
      if s[0] == sep {
        assert Join([""] + rest, [sep]) == "" + [sep] + Join(rest, [sep]);
      } else if |rest| == 1 {
        assert Split(s, sep) == [[s[0]] + rest[0]];
      } else {
        var parts := [[s[0]] + rest[0]] + rest[1..];
        assert parts[1..] == rest[1..];
        assert Join(rest, [sep]) == rest[0] + [sep] + Join(rest[1..], [sep]);
      }
    }
  }

  lemma {:induction false} SplitWithoutSeparator(p: string, sep: char)
    requires sep !in p
    ensures Split(p, sep) == [p]
  {
    if |p| > 0 {
      assert sep !in p[1..];
      SplitWithoutSeparator(p[1..], sep);
      assert [p[0]] + p[1..] == p;
    }
  }

  lemma {:induction false} SplitAtSeparator(p: string, sep: char, t: string)
    requires sep !in p
    ensures Split(p + [sep] + t, sep) == [p] + Split(t, sep)
  {
    if |p| == 0 {
      assert (p + [sep] + t)[1..] == t;
    } else {
      assert (p + [sep] + t)[1..] == p[1..] + [sep] + t;
      SplitAtSeparator(p[1..], sep, t);
      assert [p[0]] + p[1..] == p;
    }
  }

  /** Splitting at a separator that joins two strings splits each side on its own. */
  lemma {:induction false} SplitConcat(a: string, sep: char, b: string)
    ensures Split(a + [sep] + b, sep) == Split(a, sep) + Split(b, sep)
  {
    var s := a + [sep] + b;
    if |a| == 0 {
      assert s[1..] == b;
    } else {
      assert s[1..] == a[1..] + [sep] + b;
      SplitConcat(a[1..], sep, b);
    }
  }

  /** A character other than the separator in front lengthens only the first piece. */
  lemma SplitCons(c: char, s: string, sep: char)
    requires c != sep
    ensures Split([c] + s, sep) == [[c] + Split(s, sep)[0]] + Split(s, sep)[1..]
  {
    assert ([c] + s)[1..] == s;
  }

  /** Splitting a join of separator-free pieces gives the pieces back. */
  lemma {:induction false} SplitJoin(parts: seq<string>, sep: char)
    requires |parts| >= 1
    requires forall i :: 0 <= i < |parts| ==> sep !in parts[i]
    ensures Split(Join(parts, [sep]), sep) == parts
  {
    if |parts| == 1 {
      SplitWithoutSeparator(parts[0], sep);
    } else {
      SplitJoin(parts[1..], sep);
      SplitAtSeparator(parts[0], sep, Join(parts[1..], [sep]));
    }
  }

  // ---------------------------------------------------------------------------
  // Substrings and case folding
  // ---------------------------------------------------------------------------

  /** `s.substring(0, n)`: the first n characters, or all of them when there are fewer. */
  function Take(s: string, n: nat): (r: string)
    ensures |r| <= n && |r| <= |s|
    ensures r == s[..|r|]
    ensures r == s <==> |s| <= n
    ensures |s| > n ==> |r| == n
  {
    if |s| <= n then s else s[..n]
  }

  /** Lower-casing of one character (ASCII letters only). */
  function LowerChar(c: char): (r: char)
    ensures 'A' <= c <= 'Z' ==> r as int == c as int + 32
    ensures !('A' <= c <= 'Z') ==> r == c
  {
    if 'A' <= c <= 'Z' then (c as int + 32) as char else c
  }

  /** Upper-casing of one character (ASCII letters only). */
  function UpperChar(c: char): (r: char)
    ensures 'a' <= c <= 'z' ==> r as int == c as int - 32
    ensures !('a' <= c <= 'z') ==> r == c
  {
    if 'a' <= c <= 'z' then (c as int - 32) as char else c
  }

  function Lower(s: string): (r: string)
    ensures |r| == |s|
  {
    seq(|s|, i requires 0 <= i < |s| => LowerChar(s[i]))
  }

  /** `n` occurs in `h` starting at index `i`. */
  predicate OccursAt(n: string, h: string, i: int) {
    0 <= i && i + |n| <= |h| && h[i..i + |n|] == n
  }

  /** `h.includes(n)`. */
  predicate IsSubstring(n: string, h: string) {
    (|n| <= |h| && h[..|n|] == n) || (|h| > 0 && IsSubstring(n, h[1..]))
  }

  /** The recursive search agrees with "occurs at some index". */
  lemma {:induction false} IsSubstringIff(n: string, h: string)
    ensures IsSubstring(n, h) <==> exists i :: OccursAt(n, h, i)
  {
    assert OccursAt(n, h, 0) <==> (|n| <= |h| && h[..|n|] == n);
    if |n| <= |h| && h[..|n|] == n {
    } else if |h| > 0 {
      IsSubstringIff(n, h[1..]);
      if IsSubstring(n, h[1..]) {
        var i :| OccursAt(n, h[1..], i);
        assert h[1..][i..i + |n|] == h[i + 1..i + 1 + |n|];
        assert OccursAt(n, h, i + 1);
      }
      if exists i :: OccursAt(n, h, i) {
        var i :| OccursAt(n, h, i);
        assert i > 0;
        assert h[1..][i - 1..i - 1 + |n|] == h[i..i + |n|];
        assert OccursAt(n, h[1..], i - 1);
      }
    }
  }

  /** Substring search ignoring the case of ASCII letters: the model of `ILIKE '%needle%'`. */
  predicate ContainsIgnoreCase(text: string, needle: string) {
    IsSubstring(Lower(needle), Lower(text))
  }

  /** The empty needle occurs in every text. */
  lemma EmptyNeedle(text: string)
    ensures ContainsIgnoreCase(text, "")
  {
    assert Lower("") == "";
    assert Lower(text)[..0] == "";
  }

  // ---------------------------------------------------------------------------
  // Ordering of text
  // ---------------------------------------------------------------------------

  /** Lexicographic order by code point: a prefix comes first. */
  predicate LexLe(a: string, b: string) {
    |a| == 0 || (|b| > 0 && (a[0] < b[0] || (a[0] == b[0] && LexLe(a[1..], b[1..]))))
  }

  lemma {:induction false} LexTotal(a: string, b: string)
    ensures LexLe(a, b) || LexLe(b, a)
  {
    if |a| > 0 && |b| > 0 && a[0] == b[0] {
      LexTotal(a[1..], b[1..]);
    }
  }

  lemma {:induction false} LexTransitive(a: string, b: string, c: string)
    requires LexLe(a, b) && LexLe(b, c)
    ensures LexLe(a, c)
  {
    if |a| > 0 && a[0] == b[0] && b[0] == c[0] {
      LexTransitive(a[1..], b[1..], c[1..]);
    }
  }

  // ---------------------------------------------------------------------------
  // Decimal text of numbers
  // ---------------------------------------------------------------------------

  predicate IsDigit(c: char) {
    '0' <= c <= '9'
  }

  predicate AllDigits(s: string) {
    forall i :: 0 <= i < |s| ==> IsDigit(s[i])
  }

  function DigitChar(d: nat): (c: char)
    requires d < 10
    ensures IsDigit(c)
  {
    ('0' as int + d) as char
  }

  function DigitValue(c: char): nat
    requires IsDigit(c)
  {
    c as int - '0' as int
  }

  /** `n.toString()` for a natural number. */
  function NatToString(n: nat): (s: string)
    ensures |s| >= 1 && AllDigits(s)
    ensures s[0] == '0' ==> n == 0
  {
    if n < 10 then [DigitChar(n)] else NatToString(n / 10) + [DigitChar(n % 10)]
  }

  /** The value of a string of decimal digits. */
  function ParseDigits(s: string): nat
    requires AllDigits(s)
  {
    if |s| == 0 then 0 else ParseDigits(s[..|s| - 1]) * 10 + DigitValue(s[|s| - 1])
  }

  /** Reading back the decimal text of a number gives the number. */
  lemma {:induction false} NatToStringRoundTrip(n: nat)
    ensures ParseDigits(NatToString(n)) == n
  {
    if n >= 10 {
      NatToStringRoundTrip(n / 10);
      var s := NatToString(n);
      assert s[..|s| - 1] == NatToString(n / 10);
    }
  }

  /** The digits of an amount in hundredths with the point before the last two. */
  function UnsignedCentsText(a: nat): (s: string)
    ensures |s| >= 4 && s[|s| - 3] == '.'
    ensures AllDigits(s[..|s| - 3]) && AllDigits(s[|s| - 2..])
  {
    NatToString(a / 100) + "." + [DigitChar(a % 100 / 10), DigitChar(a % 10)]
  }

  /** The text of an exact two-decimal number given in hundredths, as PostgreSQL prints a
      numeric(p, 2) value: an optional minus sign, the integer part, a point, two digits. */
  function CentsToString(cents: int): (s: string)
    ensures |s| >= 4 && s[|s| - 3] == '.'
    ensures cents < 0 <==> s[0] == '-'
  {
    if cents < 0 then "-" + UnsignedCentsText(-cents) else UnsignedCentsText(cents)
  }

  function ParseUnsignedCents(u: string): nat {
    if |u| >= 4 && AllDigits(u[..|u| - 3]) && AllDigits(u[|u| - 2..]) then
      ParseDigits(u[..|u| - 3]) * 100 + ParseDigits(u[|u| - 2..])
    else 0
  }

  /** Reads the text CentsToString produces. */
  function ParseCents(s: string): int {
    if |s| > 0 && s[0] == '-' then 0 - ParseUnsignedCents(s[1..]) else ParseUnsignedCents(s) as int
  }

  lemma TwoDigits(d: nat)
    requires d < 100
    ensures ParseDigits([DigitChar(d / 10), DigitChar(d % 10)]) == d
  {
    var t := [DigitChar(d / 10), DigitChar(d % 10)];
    assert t[..1] == [DigitChar(d / 10)];
    assert [DigitChar(d / 10)][..0] == [];
    assert ParseDigits([DigitChar(d / 10)]) == d / 10;
    assert ParseDigits(t) == ParseDigits(t[..1]) * 10 + DigitValue(t[1]);
  }

  lemma UnsignedCentsRoundTrip(a: nat)
    ensures ParseUnsignedCents(UnsignedCentsText(a)) == a
  {
    CentsTextParts(a);
    NatToStringRoundTrip(a / 100);
    TwoDigits(a % 100);
    assert a % 100 / 10 == a % 100 / 10 && (a % 100) % 10 == a % 10;
  }

  /** The text splits into the whole part's digits, the point and the two cents digits. */
  lemma CentsTextParts(a: nat)
    ensures var u := UnsignedCentsText(a);
      && u[..|u| - 3] == NatToString(a / 100)
      && u[|u| - 2..] == [DigitChar(a % 100 / 10), DigitChar(a % 10)]
  {
  }

  /** The two-decimal text determines the amount: rendering loses nothing. */
  lemma CentsRoundTrip(cents: int)
    ensures ParseCents(CentsToString(cents)) == cents
  {
    if cents < 0 {
      assert CentsToString(cents) == "-" + UnsignedCentsText(-cents);
      SignedCentsRoundTrip(-cents);
    } else {
      assert CentsToString(cents) == UnsignedCentsText(cents);
      UnsignedCentsReadsBack(cents);
    }
  }

  lemma SignedCentsRoundTrip(a: nat)
    ensures ParseCents("-" + UnsignedCentsText(a)) == -(a as int)
  {
    var u := UnsignedCentsText(a);
    var s := "-" + u;
    assert s[0] == '-' && s[1..] == u;
    UnsignedCentsRoundTrip(a);
  }

  lemma UnsignedCentsReadsBack(a: nat)
    ensures ParseCents(UnsignedCentsText(a)) == a
  {
    var u := UnsignedCentsText(a);
    var n := NatToString(a / 100);
    assert u[0] == n[0] && IsDigit(n[0]);
    UnsignedCentsRoundTrip(a);
  }
}
