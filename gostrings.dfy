/** Models of the Go standard-library operations the engine relies on:
    character classes (unicode), trimming and joining (strings), decimal
    parsing (strconv.Atoi, through ParseInt and ParseUint) and Go's truncating integer division. */
module GoStrings {
  import opened Seqs

  // ---------------------------------------------------------------------
  // Character classes and case mapping
  // ---------------------------------------------------------------------

  /** unicode.IsSpace: the Latin-1 spaces plus the other characters with
      the Unicode White_Space property. */
  predicate IsSpace(c: char) {
    c == ' ' || c == '\t' || c == '\n' || c == '\r' ||
    c == '\U{000B}' || c == '\U{000C}' || c == '\U{0085}' || c == '\U{00A0}' ||
    c == '\U{1680}' || ('\U{2000}' <= c <= '\U{200A}') ||
    c == '\U{2028}' || c == '\U{2029}' || c == '\U{202F}' || c == '\U{205F}' ||
    c == '\U{3000}'
  }

  /** unicode.In(c, unicode.Digit, unicode.Letter), restricted to ASCII. */
  predicate IsWordChar(c: char) {
    ('a' <= c <= 'z') || ('A' <= c <= 'Z') || ('0' <= c <= '9')
  }

  /** unicode.ToLower, restricted to ASCII. */
  function Lower(c: char): char {
    if 'A' <= c <= 'Z' then (c as int - 'A' as int + 'a' as int) as char else c
  }

  /** strings.ToLower: maps every character on its own. */
  function LowerStr(s: string): (r: string)
    ensures |r| == |s|
    ensures forall i :: 0 <= i < |s| ==> r[i] == Lower(s[i])
  {
    if s == [] then [] else [Lower(s[0])] + LowerStr(s[1..])
  }

  /** Lower-casing twice is lower-casing once. */
  lemma LowerStrIdempotent(s: string)
    ensures LowerStr(LowerStr(s)) == LowerStr(s)
  {
    assert forall i :: 0 <= i < |s| ==> Lower(Lower(s[i])) == Lower(s[i]);
  }

  // ---------------------------------------------------------------------
  // Trimming, joining, removing newlines
  // ---------------------------------------------------------------------

  /** Drops the leading white space. */
  function TrimLeft(s: string): string {
    if s == [] || !IsSpace(s[0]) then s else TrimLeft(s[1..])
  }

  /** TrimLeft keeps a suffix of the text that does not start with white
      space, and what it drops is white space. */
  lemma {:induction false} TrimLeftFacts(s: string)
    ensures |TrimLeft(s)| <= |s| && TrimLeft(s) == s[|s| - |TrimLeft(s)|..]
    ensures TrimLeft(s) == [] || !IsSpace(TrimLeft(s)[0])
    ensures forall i :: 0 <= i < |s| - |TrimLeft(s)| ==> IsSpace(s[i])
  {
    if s != [] && IsSpace(s[0]) {
      var t := s[1..];
      TrimLeftFacts(t);
      var r := TrimLeft(t);
      assert TrimLeft(s) == r;
      assert t[|t| - |r|..] == s[|s| - |r|..];
      forall i | 0 <= i < |s| - |r| ensures IsSpace(s[i]) {
        if i > 0 {
          assert s[i] == t[i - 1];
        }
      }
    }
  }

  /** Drops the trailing white space. */
  function TrimRight(s: string): string {
    if s == [] || !IsSpace(s[|s| - 1]) then s else TrimRight(s[..|s| - 1])
  }

  /** TrimRight keeps a prefix of the text that does not end with white
      space, and what it drops is white space. */
  lemma {:induction false} TrimRightFacts(s: string)
    ensures |TrimRight(s)| <= |s| && TrimRight(s) == s[..|TrimRight(s)|]
    ensures TrimRight(s) == [] || !IsSpace(TrimRight(s)[|TrimRight(s)| - 1])
    ensures forall i :: |TrimRight(s)| <= i < |s| ==> IsSpace(s[i])
  {
    if s != [] && IsSpace(s[|s| - 1]) {
      var t := s[..|s| - 1];
      TrimRightFacts(t);
      var r := TrimRight(t);
      assert TrimRight(s) == r;
      assert t[..|r|] == s[..|r|];
      forall i | |r| <= i < |s| ensures IsSpace(s[i]) {
        if i < |t| {
          assert s[i] == t[i];
        }
      }
    }
  }

  /** strings.TrimSpace. */
  function TrimSpace(s: string): string {
    TrimRight(TrimLeft(s))
  }

  /** TrimSpace cuts a contiguous piece out of the text that neither
      starts nor ends with white space, dropping only white space. */
  lemma TrimSpaceFacts(s: string)
    ensures var r, lo := TrimSpace(s), |s| - |TrimLeft(s)|;
      && |TrimLeft(s)| <= |s| && lo + |r| <= |s| && r == s[lo..lo + |r|]
      && (r == [] || (!IsSpace(r[0]) && !IsSpace(r[|r| - 1])))
      && (forall i :: 0 <= i < lo ==> IsSpace(s[i]))
      && (forall i :: lo + |r| <= i < |s| ==> IsSpace(s[i]))
  {
    TrimLeftFacts(s);
    TrimRightFacts(TrimLeft(s));
    var l, r, lo := TrimLeft(s), TrimSpace(s), |s| - |TrimLeft(s)|;
    forall i | lo + |r| <= i < |s| ensures IsSpace(s[i]) {
      assert s[i] == l[i - lo];
    }
  }

  /** Trimming a text whose last character is not white space keeps that
      character last: the result is a suffix of the text. */
  lemma TrimSpaceKeepsLast(s: string)
    requires s != [] && !IsSpace(s[|s| - 1])
    ensures TrimSpace(s) != [] && TrimSpace(s)[|TrimSpace(s)| - 1] == s[|s| - 1]
    ensures |TrimSpace(s)| <= |s| && TrimSpace(s) == s[|s| - |TrimSpace(s)|..]
  {
    TrimLeftFacts(s);
    var l := TrimLeft(s);
    assert l != [] && l[|l| - 1] == s[|s| - 1];
  }

  /** strings.TrimSuffix: removes one occurrence of `suffix` at the end. */
  function TrimSuffix(s: string, suffix: string): (r: string)
    ensures r == s || (|suffix| <= |s| && s == r + suffix)
    ensures |suffix| <= |s| && s[|s| - |suffix|..] == suffix ==> r + suffix == s
  {
    if |suffix| <= |s| && s[|s| - |suffix|..] == suffix then s[..|s| - |suffix|] else s
  }

  /** regexp `\n` replaced by "": the text with every newline removed. */
  function RemoveNewlines(s: string): (r: string)
    ensures '\n' !in r
    ensures |r| <= |s|
    ensures '\n' !in s ==> r == s
  {
    if s == [] then []
    else
      var p := s[..|s| - 1];
      assert s == p + [s[|s| - 1]];
      RemoveNewlines(p) + (if s[|s| - 1] == '\n' then [] else [s[|s| - 1]])
  }

  lemma RemoveNewlinesSnoc(s: string, c: char)
    ensures RemoveNewlines(s + [c]) == RemoveNewlines(s) + (if c == '\n' then [] else [c])
  {
    assert (s + [c])[..|s|] == s;
  }

  /** Newline removal works piece by piece. */
  lemma {:induction false} RemoveNewlinesAppend(a: string, b: string)
    ensures RemoveNewlines(a + b) == RemoveNewlines(a) + RemoveNewlines(b)
    decreases |b|
  {
    if b == [] {
      assert a + b == a;
    } else {
      var p, c := b[..|b| - 1], b[|b| - 1];
      RemoveNewlinesAppend(a, p);
      AppendSplitLast(a, b);
      RemoveNewlinesSnoc(a + p, c);
      RemoveNewlinesSnoc(p, c);
      SplitLast(b);
      AppendAssoc(RemoveNewlines(a), RemoveNewlines(p), if c == '\n' then [] else [c]);
    }
  }

  /** Newline removal keeps every other character as often as it occurs. */
  lemma {:induction false} RemoveNewlinesKeepsOthers(s: string)
    ensures forall c :: c != '\n' ==> multiset(RemoveNewlines(s))[c] == multiset(s)[c]
  {
    if s != [] {
      var p := s[..|s| - 1];
      RemoveNewlinesKeepsOthers(p);
      assert s == p + [s[|s| - 1]];
    }
  }

  // ---------------------------------------------------------------------
  // Integers
  // ---------------------------------------------------------------------

  const MaxInt64: int := 0x7FFF_FFFF_FFFF_FFFF
  const MinInt64: int := -0x8000_0000_0000_0000

  predicate IsDigit(c: char) { '0' <= c <= '9' }

  /** The value of a string of decimal digits. */
  function DecimalValue(digits: string): (v: nat)
    requires forall i :: 0 <= i < |digits| ==> IsDigit(digits[i])
  {
    if digits == [] then 0
    else
      assert IsDigit(digits[|digits| - 1]);
      10 * DecimalValue(digits[..|digits| - 1]) + (digits[|digits| - 1] as int - '0' as int)
  }

  function Pow10(n: nat): (p: nat)
    ensures p >= 1
  {
    if n == 0 then 1 else 10 * Pow10(n - 1)
  }

  /** A string of k digits denotes a number below 10^k. */
  lemma {:induction false} DecimalValueBound(digits: string)
    requires forall i :: 0 <= i < |digits| ==> IsDigit(digits[i])
    ensures DecimalValue(digits) < Pow10(|digits|)
  {
    if digits != [] {
      DecimalValueBound(digits[..|digits| - 1]);
    }
  }

  /** Reading two digit strings one after the other: the first one's value
      is shifted left by the second one's length. */
  lemma {:induction false} DecimalValueAppend(a: string, b: string)
    requires forall i :: 0 <= i < |a| ==> IsDigit(a[i])
    requires forall i :: 0 <= i < |b| ==> IsDigit(b[i])
    ensures forall i :: 0 <= i < |a + b| ==> IsDigit((a + b)[i])
    ensures DecimalValue(a + b) == DecimalValue(a) * Pow10(|b|) + DecimalValue(b)
    decreases |b|
  {
    if b == [] {
      assert a + b == a;
    } else {
      var b' := b[..|b| - 1];
      assert (a + b)[..|a + b| - 1] == a + b';
      DecimalValueAppend(a, b');
      var ab := a + b;
      assert ab[|ab| - 1] == b[|b| - 1];
      var c := b[|b| - 1] as int - '0' as int;
      var va, vb, p := DecimalValue(a), DecimalValue(b'), Pow10(|b'|);
      assert DecimalValue(ab) == 10 * DecimalValue(a + b') + c;
      assert DecimalValue(b) == 10 * vb + c;
      assert Pow10(|b|) == 10 * p;
      MulShift(va, p);
    }
  }

  lemma MulShift(x: int, y: int)
    ensures 10 * (x * y) == x * (10 * y)
  {
  }

  predicate AllDigits(s: string) {
    s != [] && forall i :: 0 <= i < |s| ==> IsDigit(s[i])
  }

  const MaxUint64: int := 0xFFFF_FFFF_FFFF_FFFF

  /** What strconv.ParseUint in base 10 reports: a value, a syntax error
      or a range error. */
  datatype UintResult = UintOk(value: nat) | UintSyntax | UintRange

  /** ParseUint's scan of the digits left to right, from the value `acc`
      read so far. A character that is not a digit is a syntax error; a
      digit that takes the value past 2^64 - 1 is a range error, reported
      before any later character is looked at. */
  function ParseDigits(s: string, acc: nat): (r: UintResult)
    requires acc <= MaxUint64
    ensures r.UintOk? ==> acc <= r.value <= MaxUint64
    decreases |s|
  {
    if s == [] then UintOk(acc)
    else if !IsDigit(s[0]) then UintSyntax
    else
      var next := 10 * acc + (s[0] as int - '0' as int);
      if next > MaxUint64 then UintRange else ParseDigits(s[1..], next)
  }

  /** strconv.ParseUint(s, 10, 64): the empty string is a syntax error. */
  function ParseUint(s: string): UintResult {
    if s == [] then UintSyntax else ParseDigits(s, 0)
  }

  /** ParseInt's reading of ParseUint's report, with the error ignored as
      Atoi's callers do: a syntax error gives 0, a range error or a value
      outside the 64-bit range gives the bound on the side of the sign. */
  function SignedValue(neg: bool, r: UintResult): (n: int)
    ensures MinInt64 <= n <= MaxInt64
    ensures !neg ==> n >= 0
    ensures r.UintSyntax? ==> n == 0
    ensures r.UintRange? ==> n == if neg then MinInt64 else MaxInt64
  {
    match r
    case UintSyntax => 0
    case UintRange => if neg then MinInt64 else MaxInt64
    case UintOk(u) =>
      var v: int := u;
      if neg then (if v > -MinInt64 then MinInt64 else -v)
      else if v > MaxInt64 then MaxInt64 else v
  }

  /** strconv.Atoi with its error ignored, for 64-bit `int`: an optional
      sign, then ParseUint of the rest, read back by ParseInt. */
  function Atoi(s: string): (n: int)
    ensures MinInt64 <= n <= MaxInt64
    ensures AllDigits(s) ==> n >= 0
  {
    if s == [] then 0
    else
      var body := if s[0] == '-' || s[0] == '+' then s[1..] else s;
      SignedValue(s[0] == '-', ParseUint(body))
  }

  /** Atoi of a text made of an optional sign and a rest that does not
      itself start with a sign. */
  lemma AtoiOfSigned(sign: string, t: string)
    requires sign == [] || sign == "+" || sign == "-"
    requires sign == [] ==> t != [] && t[0] != '+' && t[0] != '-'
    ensures Atoi(sign + t) == SignedValue(sign == "-", ParseUint(t))
  {
    var s := sign + t;
    if sign == [] {
      assert s == t;
    } else {
      assert s[0] == sign[0] && s[1..] == t;
    }
  }

  lemma ShiftDigit(acc: nat, d: nat, p: nat, v: nat)
    requires p >= 1
    ensures (10 * acc + d) * p + v == acc * (10 * p) + (d * p + v)
    ensures (10 * acc + d) * p + v >= 10 * acc + d
  {
  }

  /** The value of a digit string is its first digit shifted past the
      rest, plus the value of the rest. */
  lemma FirstDigit(s: string)
    requires s != [] && forall i :: 0 <= i < |s| ==> IsDigit(s[i])
    ensures forall i :: 0 <= i < |s[1..]| ==> IsDigit(s[1..][i])
    ensures Pow10(|s|) == 10 * Pow10(|s| - 1)
    ensures DecimalValue(s) == (s[0] as int - '0' as int) * Pow10(|s| - 1) + DecimalValue(s[1..])
  {
    var c, t := s[0], s[1..];
    assert DecimalValue([c]) == c as int - '0' as int by {
      assert [c][..0] == [];
    }
    DecimalValueAppend([c], t);
    assert [c] + t == s;
  }

  /** The scan from `acc` reads the digit string `s` as acc * 10^|s| plus
      its value, unless that passes 2^64 - 1: then it is a range error,
      whatever follows the digits. */
  lemma {:induction false} ParseDigitsOfDigits(s: string, rest: string, acc: nat)
    requires acc <= MaxUint64 && forall i :: 0 <= i < |s| ==> IsDigit(s[i])
    ensures acc * Pow10(|s|) + DecimalValue(s) <= MaxUint64 ==>
      ParseDigits(s + rest, acc) == ParseDigits(rest, acc * Pow10(|s|) + DecimalValue(s))
    ensures acc * Pow10(|s|) + DecimalValue(s) > MaxUint64 ==> ParseDigits(s + rest, acc) == UintRange
    decreases |s|
  {
    if s == [] {
      assert s + rest == rest;
    } else {
      var t := s[1..];
      var d := s[0] as int - '0' as int;
      var next := 10 * acc + d;
      assert (s + rest)[0] == s[0] && (s + rest)[1..] == t + rest;
      FirstDigit(s);
      var p, v := Pow10(|t|), DecimalValue(t);
      ShiftDigit(acc, d, p, v);
      assert acc * Pow10(|s|) + DecimalValue(s) == next * p + v;
      if next <= MaxUint64 {
        assert ParseDigits(s + rest, acc) == ParseDigits(t + rest, next);
        ParseDigitsOfDigits(t, rest, next);
      }
    }
  }

  /** An overflowing run of digits is a range error however the text goes
      on: Atoi clamps to the bound on the side of the sign. */
  lemma AtoiOverflowingDigits(sign: string, digits: string, rest: string)
    requires sign == [] || sign == "+" || sign == "-"
    requires AllDigits(digits) && DecimalValue(digits) > MaxUint64
    ensures Atoi(sign + (digits + rest)) == if sign == "-" then MinInt64 else MaxInt64
  {
    ParseDigitsOfDigits(digits, rest, 0);
    assert (digits + rest)[0] == digits[0];
    AtoiOfSigned(sign, digits + rest);
  }

  /** A character other than a digit, reached before the digits overflow,
      is a syntax error: Atoi gives 0. */
  lemma AtoiJunkAfterDigits(sign: string, digits: string, c: char, rest: string)
    requires sign == [] || sign == "+" || sign == "-"
    requires forall i :: 0 <= i < |digits| ==> IsDigit(digits[i])
    requires DecimalValue(digits) <= MaxUint64 && !IsDigit(c)
    requires sign == [] && digits == [] ==> c != '+' && c != '-'
    ensures Atoi(sign + (digits + ([c] + rest))) == 0
  {
    var t := digits + ([c] + rest);
    ParseDigitsOfDigits(digits, [c] + rest, 0);
    assert ParseDigits([c] + rest, DecimalValue(digits)) == UintSyntax;
    assert ParseUint(t) == UintSyntax;
    if digits == [] {
      assert t[0] == c;
    } else {
      assert t[0] == digits[0] && IsDigit(digits[0]);
    }
    AtoiOfSigned(sign, t);
  }

  /** Atoi of a digit string whose value fits in 64 bits is its value. */
  lemma AtoiOfDigits(s: string)
    requires AllDigits(s) && DecimalValue(s) <= MaxInt64
    ensures Atoi(s) == DecimalValue(s)
  {
    ParseDigitsOfDigits(s, [], 0);
    assert s + [] == s;
    AtoiOfSigned([], s);
  }

  /** The decimal digits of a number, without leading zeros: a reference
      rendering against which Atoi is proved to read numbers back. */
  function DecimalString(n: nat): (s: string)
    ensures AllDigits(s)
  {
    var digit := ('0' as int + n % 10) as char;
    if n < 10 then [digit] else DecimalString(n / 10) + [digit]
  }

  /** Reading back the decimal digits of a number gives the number. */
  lemma {:induction false} DecimalStringValue(n: nat)
    ensures DecimalValue(DecimalString(n)) == n
  {
    var s := DecimalString(n);
    if n >= 10 {
      DecimalStringValue(n / 10);
      assert s[..|s| - 1] == DecimalString(n / 10);
    }
  }

  /** Atoi reads back the decimal rendering of every number in the 64-bit
      range. */
  lemma AtoiOfDecimalString(n: nat)
    requires n <= MaxInt64
    ensures Atoi(DecimalString(n)) == n
  {
    DecimalStringValue(n);
    AtoiOfDigits(DecimalString(n));
  }

  /** Go's `%` on int: the remainder takes the sign of the dividend. */
  function GoRem(a: int, b: int): (r: int)
    requires b > 0
    ensures -b < r < b
    ensures a >= 0 ==> r == a % b
  {
    if a >= 0 then a % b else -((-a) % b)
  }

  /** Go's `/` on int: the quotient is truncated toward zero. */
  function GoQuo(a: int, b: int): (q: int)
    requires b > 0
    ensures a >= 0 ==> q == a / b
    ensures b * q + GoRem(a, b) == a
  {
    if a >= 0 then a / b else -((-a) / b)
  }
}
