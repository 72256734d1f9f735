// Decimal text as Rust prints and parses it (`to_string`, `str::parse`,
// zero-padded `{:04}`), joining, and searching.
module Text {
  import opened Options

  const U64_LIMIT: int := 0x1_0000_0000_0000_0000
  const I64_LIMIT: int := 0x8000_0000_0000_0000

  predicate IsDigit(c: char) {
    '0' <= c <= '9'
  }

  function Digit(d: nat): (c: char)
    requires d < 10
    ensures IsDigit(c) && DigitValue(c) == d
  {
    '0' + d as char
  }

  function DigitValue(c: char): (d: nat)
    requires IsDigit(c)
    ensures d < 10
  {
    (c - '0') as int
  }

  predicate AllDigits(s: string) {
    forall i :: 0 <= i < |s| ==> IsDigit(s[i])
  }

  /** The number a run of digits denotes. */
  function Digits(s: string): nat
    requires AllDigits(s)
  {
    if s == [] then 0 else 10 * Digits(s[..|s| - 1]) + DigitValue(s[|s| - 1])
  }

  /** `u64::to_string`: no leading zero except for 0 itself. */
  function Decimal(n: nat): (s: string)
    ensures |s| > 0 && AllDigits(s) && Digits(s) == n
  {
    if n < 10 then [Digit(n)] else
      var front := Decimal(n / 10);
      var s := front + [Digit(n % 10)];
      assert s[..|s| - 1] == front;
      s
  }

  /** Lower-case hexadecimal digit. */
  function HexDigit(d: nat): char
    requires d < 16
  {
    if d < 10 then '0' + d as char else 'a' + (d - 10) as char
  }

  /** Parts with slashes between. */
  function Join(parts: seq<string>): string {
    if parts == [] then "" else
    if |parts| == 1 then parts[0] else parts[0] + "/" + Join(parts[1..])
  }

  /** `i64::to_string`. */
  function SignedDecimal(n: int): string {
    if n < 0 then "-" + Decimal(-n) else Decimal(n)
  }

  /** `{n:0w}`: zero-padded to width `w`, wider numbers keep all their digits. */
  function Padded(n: nat, w: nat): (s: string)
    ensures AllDigits(s) && Digits(s) == n
  {
    if w == 0 then (if n == 0 then "" else Decimal(n)) else
      var front := Padded(n / 10, w - 1);
      var s := front + [Digit(n % 10)];
      assert s[..|s| - 1] == front;
      s
  }

  /** `str::parse` of an unsigned number: an optional `+`, then at least one digit, no overflow. */
  function ParseBelow(s: string, limit: int): Option<nat> {
    var body := if s != [] && s[0] == '+' then s[1..] else s;
    if body != [] && AllDigits(body) && Digits(body) < limit then Some(Digits(body)) else None
  }

  function ParseU64(s: string): Option<nat> {
    ParseBelow(s, U64_LIMIT)
  }

  /** Exactly what parses: one or more digits, with or without a plus sign, that denote less than the limit. */
  lemma ParsesExactly(s: string, limit: int, n: nat)
    ensures ParseBelow(s, limit) == Some(n) <==>
      n < limit && exists digits :: digits != "" && AllDigits(digits) && Digits(digits) == n &&
                                    (s == digits || s == "+" + digits)
  {
    var body := if s != [] && s[0] == '+' then s[1..] else s;
    if s != [] && s[0] == '+' {
      assert s == "+" + body;
    }
    if digits :| digits != "" && AllDigits(digits) && Digits(digits) == n && (s == digits || s == "+" + digits) {
      assert IsDigit(digits[0]);
      assert ("+" + digits)[1..] == digits;
    }
  }

  lemma {:induction false} DigitsBound(s: string)
    requires AllDigits(s)
    ensures Digits(s) < Pow10(|s|)
  {
    if s != [] {
      DigitsBound(s[..|s| - 1]);
    }
  }

  function Pow10(w: nat): nat {
    if w == 0 then 1 else 10 * Pow10(w - 1)
  }

  lemma {:induction false} PaddedWidth(n: nat, w: nat)
    requires n < Pow10(w)
    ensures |Padded(n, w)| == w
  {
    if w > 0 {
      PaddedWidth(n / 10, w - 1);
    }
  }

  lemma DigitsSnoc(front: string, last: char)
    requires AllDigits(front) && IsDigit(last)
    ensures Digits(front + [last]) / 10 == Digits(front)
    ensures Digit(Digits(front + [last]) % 10) == last
  {
  }

  /** A digit run is the padded form, at its own width, of the number it denotes. */
  lemma {:induction false} PaddedOfDigits(s: string)
    requires AllDigits(s)
    ensures Padded(Digits(s), |s|) == s
  {
    if s != [] {
      var front, last := s[..|s| - 1], s[|s| - 1];
      PaddedOfDigits(front);
      DigitsSnoc(front, last);
      assert s == front + [last];
    }
  }

  predicate MatchAt(haystack: string, i: nat, needle: string) {
    i + |needle| <= |haystack| && haystack[i..i + |needle|] == needle
  }

  function FindFrom(haystack: string, i: nat, needle: string): (r: Option<nat>)
    ensures r.Some? ==> i <= r.value <= |haystack| - |needle| && MatchAt(haystack, r.value, needle)
    ensures r.Some? ==> forall j :: i <= j < r.value ==> !MatchAt(haystack, j, needle)
    ensures r.None? ==> forall j :: i <= j ==> !MatchAt(haystack, j, needle)
    decreases |haystack| - i
  {
    if i + |needle| > |haystack| then None else
    if haystack[i..i + |needle|] == needle then Some(i) else FindFrom(haystack, i + 1, needle)
  }

  /** `find_subsequence`: the first index of `needle`. */
  function Find(haystack: string, needle: string): Option<nat> {
    FindFrom(haystack, 0, needle)
  }

  predicate Contains(s: string, part: string) {
    Find(s, part).Some?
  }
}
