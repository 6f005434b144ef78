/** String helpers with the meaning PHP gives them: trim, strtoupper,
    integer-to-string conversion, and the byte-wise ordering of strings. */
module Text {

  /** The characters PHP's `trim()` strips by default. */
  predicate IsTrimmable(c: char) {
    c == ' ' || c == '\t' || c == '\n' || c == '\r' || c == '\0' || c == '\U{0B}'
  }

  /** `trim(s) === ''`: the string is empty once PHP's trim() has run. */
  predicate Blank(s: string) {
    forall i :: 0 <= i < |s| ==> IsTrimmable(s[i])
  }

  /** PHP 8 `strtoupper` on one character: ASCII letters only. */
  function UpperChar(c: char): (r: char)
    ensures 'a' <= c <= 'z' ==> r as int == c as int - 32
    ensures !('a' <= c <= 'z') ==> r == c
  {
    if 'a' <= c <= 'z' then (c as int - 32) as char else c
  }

  /** PHP 8 `strtoupper`: every lower-case ASCII letter is raised, nothing else moves. */
  function Upper(s: string): (r: string)
    ensures |r| == |s|
    ensures forall i :: 0 <= i < |s| ==> r[i] == UpperChar(s[i])
    ensures forall i :: 0 <= i < |r| ==> !('a' <= r[i] <= 'z')
  {
    seq(|s|, i requires 0 <= i < |s| => UpperChar(s[i]))
  }

  /** `t` occurs somewhere inside `s` (PHP's `str_contains`). */
  predicate Contains(s: string, t: string) {
    t <= s || (s != [] && Contains(s[1..], t))
  }

  /** `s` ends with `t` (PHP's `str_ends_with`). */
  predicate EndsWith(s: string, t: string) {
    |t| <= |s| && s[|s| - |t|..] == t
  }

  /** The pieces of a message joined in order (PHP's `.` chain). */
  function Concat(parts: seq<string>): string {
    if parts == [] then [] else parts[0] + Concat(parts[1..])
  }

  /** Text before an occurrence does not hide it. */
  lemma {:induction false} ContainsPrepend(a: string, s: string, t: string)
    requires Contains(s, t)
    ensures Contains(a + s, t)
  {
    if a == [] {
      assert a + s == s;
    } else {
      ContainsPrepend(a[1..], s, t);
      assert (a + s)[1..] == a[1..] + s;
    }
  }

  /** Text after an occurrence does not hide it. */
  lemma {:induction false} ContainsAppend(s: string, tail: string, t: string)
    requires Contains(s, t)
    ensures Contains(s + tail, t)
  {
    if !(t <= s) {
      ContainsAppend(s[1..], tail, t);
      assert (s + tail)[1..] == s[1..] + tail;
    }
  }

  /** Every piece of a concatenation occurs in it. */
  lemma {:induction false} ConcatContains(parts: seq<string>, i: nat)
    requires i < |parts|
    ensures Contains(Concat(parts), parts[i])
  {
    if i == 0 {
      assert parts[0] <= parts[0] + Concat(parts[1..]);
    } else {
      ConcatContains(parts[1..], i - 1);
      ContainsPrepend(parts[0], Concat(parts[1..]), parts[i]);
    }
  }

  /** Every piece of a message built from `parts` followed by `tail` occurs in it. */
  lemma ConcatThenContains(parts: seq<string>, tail: string, i: nat)
    requires i < |parts|
    ensures Contains(Concat(parts) + tail, parts[i])
  {
    ConcatContains(parts, i);
    ContainsAppend(Concat(parts), tail, parts[i]);
  }

  /** A message built from `parts` followed by `tail` opens with the first piece
      and ends with the tail. */
  lemma ConcatThenEnds(parts: seq<string>, tail: string)
    requires parts != []
    ensures parts[0] <= Concat(parts) + tail
    ensures EndsWith(Concat(parts) + tail, tail)
  {
    assert Concat(parts) + tail == parts[0] + (Concat(parts[1..]) + tail);
  }

  predicate IsDigit(c: char) {
    '0' as int <= c as int <= '9' as int
  }

  function DigitChar(d: nat): (c: char)
    requires d < 10
    ensures IsDigit(c) && c as int - '0' as int == d
  {
    ('0' as int + d) as char
  }

  /** PHP's conversion of a non-negative integer to its decimal string. */
  function DecimalString(n: nat): (r: string)
    ensures |r| > 0
    ensures forall i :: 0 <= i < |r| ==> IsDigit(r[i])
    ensures r[0] == '0' ==> n == 0
  {
    if n < 10 then [DigitChar(n)] else DecimalString(n / 10) + [DigitChar(n % 10)]
  }

  /** The value of a string of decimal digits: the partner of DecimalString. */
  function DecimalValue(s: string): nat
    requires forall i :: 0 <= i < |s| ==> IsDigit(s[i])
  {
    if s == [] then 0
    else
      assert IsDigit(s[|s| - 1]);
      10 * DecimalValue(s[..|s| - 1]) + (s[|s| - 1] as int - '0' as int)
  }

  /** Reading back the decimal string of an id gives the id. */
  lemma {:induction false} DecimalRoundTrip(n: nat)
    ensures DecimalValue(DecimalString(n)) == n
  {
    if n >= 10 {
      var s := DecimalString(n);
      assert s[..|s| - 1] == DecimalString(n / 10);
      DecimalRoundTrip(n / 10);
    }
  }

  /** Code-point (binary collation) ordering of strings, used for ORDER BY on text. */
  predicate LexLe(a: string, b: string)
    decreases |a|
  {
    if a == [] then true
    else if b == [] then false
    else if a[0] != b[0] then a[0] < b[0]
    else LexLe(a[1..], b[1..])
  }

  /** Any two strings are comparable, so ordering by a string column is total. */
  lemma {:induction false} LexTotal(a: string, b: string)
    ensures LexLe(a, b) || LexLe(b, a)
    decreases |a|
  {
    if a != [] && b != [] && a[0] == b[0] {
      LexTotal(a[1..], b[1..]);
    }
  }
}
