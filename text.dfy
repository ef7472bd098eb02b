/**
 * The few Kotlin standard-library string operations the Nostr code relies on:
 * `startsWith`, `indexOf`, `lastIndexOf`, `substringAfter`, `lowercase`,
 * `Int.toString()` and `String.toLongOrNull()`.
 * Strings are sequences of characters; nothing here depends on UTF-16.
 */
module Text {
  import opened Outcomes

  predicate StartsWith(s: string, prefix: string) {
    |prefix| <= |s| && s[..|prefix|] == prefix
  }

  /** `d` occurs in `s` starting at index `i`. */
  predicate OccursAt(s: string, d: string, i: int) {
    0 <= i && i + |d| <= |s| && s[i..i + |d|] == d
  }

  /** `s.indexOf(d, from)`: the first occurrence at or after `from`, or -1. */
  function IndexOfFrom(s: string, d: string, from: nat): (r: int)
    ensures r == -1 || (from <= r && OccursAt(s, d, r))
    ensures forall i :: from <= i && (r == -1 || i < r) ==> !OccursAt(s, d, i)
    decreases |s| - from
  {
    if from + |d| > |s| then -1
    else if s[from..from + |d|] == d then from
    else IndexOfFrom(s, d, from + 1)
  }

  /** `s.indexOf(d)` */
  function IndexOf(s: string, d: string): int {
    IndexOfFrom(s, d, 0)
  }

  /**
   * `s.substringAfter(d)`: the text after the first occurrence of `d`, or the
   * whole of `s` when `d` does not occur (Kotlin's default for a missing delimiter).
   */
  function SubstringAfter(s: string, d: string): (r: string)
    ensures IndexOf(s, d) == -1 ==> r == s
    ensures IndexOf(s, d) >= 0 ==> s == s[..IndexOf(s, d)] + d + r
  {
    var i := IndexOf(s, d);
    if i < 0 then s else s[i + |d|..]
  }

  /** `s.lastIndexOf(c)` */
  function LastIndexOf(s: string, c: char): (r: int)
    ensures -1 <= r < |s|
    ensures r >= 0 ==> s[r] == c
    ensures forall i :: r < i < |s| ==> s[i] != c
  {
    if s == [] then -1
    else if s[|s| - 1] == c then |s| - 1
    else LastIndexOf(s[..|s| - 1], c)
  }

  /** Text without `c` appended after `s` leaves the last `c` where it was. */
  lemma {:induction false} LastIndexOfAppend(s: string, t: string, c: char)
    requires c !in t
    ensures LastIndexOf(s + t, c) == LastIndexOf(s, c)
  {
    if t == [] {
      assert s + t == s;
    } else {
      var u := t[..|t| - 1];
      assert (s + t)[..|s + t| - 1] == s + u;
      assert (s + t)[|s + t| - 1] == t[|t| - 1];
      LastIndexOfAppend(s, u, c);
    }
  }

  /**
   * `lowercase()` for every character whose lower case is ASCII: the letters
   * `A`-`Z` and the Kelvin sign, which lower-cases to `k`. Other characters are
   * left as they are; none of them lower-cases into ASCII.
   */
  function LowerChar(c: char): char {
    if 'A' <= c <= 'Z' then (c as int + 32) as char
    else if c == KelvinSign then 'k'
    else c
  }

  /** U+212A KELVIN SIGN. */
  const KelvinSign: char := '\U{212A}'


  /** `String.lowercase()`, character by character. */
  function Lower(s: string): string {
    seq(|s|, i requires 0 <= i < |s| => LowerChar(s[i]))
  }

  predicate IsDigit(c: char) {
    '0' <= c <= '9'
  }

  predicate AllDigits(s: string) {
    forall i :: 0 <= i < |s| ==> IsDigit(s[i])
  }

  /** The value of a string of decimal digits. */
  function DigitsValue(s: string): nat
    requires AllDigits(s)
  {
    if s == [] then 0
    else 10 * DigitsValue(s[..|s| - 1]) + (s[|s| - 1] as int - '0' as int)
  }

  /** `n.toString()` for a non-negative `n`: decimal, no leading zeros. */
  function NatToString(n: nat): (r: string)
    ensures |r| >= 1 && AllDigits(r)
    ensures r[0] == '0' ==> n == 0
  {
    if n < 10 then ['0' + n as char]
    else NatToString(n / 10) + ['0' + (n % 10) as char]
  }

  const LongMin: int := -0x8000_0000_0000_0000
  const LongMax: int := 0x7FFF_FFFF_FFFF_FFFF

  /**
   * `String.toLongOrNull()`: an optional `+` or `-`, then at least one decimal
   * digit, with the value inside the range of a 64-bit `Long`; null otherwise.
   */
  function ParseLong(s: string): (r: Option<int>)
    ensures r.Some? ==> LongMin <= r.value <= LongMax
  {
    if |s| == 0 then None
    else if s[0] == '-' || s[0] == '+' then
      if |s| == 1 || !AllDigits(s[1..]) then None
      else
        var digits: int := DigitsValue(s[1..]);
        var v := if s[0] == '-' then -digits else digits;
        if LongMin <= v <= LongMax then Some(v) else None
    else if !AllDigits(s) then None
    else if DigitsValue(s) <= LongMax then Some(DigitsValue(s))
    else None
  }

  /** Reading back what `NatToString` writes gives the number again. */
  lemma {:induction false} DigitsValueOfNatToString(n: nat)
    ensures DigitsValue(NatToString(n)) == n
  {
    if n >= 10 {
      var s := NatToString(n);
      DigitsValueOfNatToString(n / 10);
      assert s[..|s| - 1] == NatToString(n / 10);
    }
  }

  /** `Int.toString()` never maps two numbers to the same text. */
  lemma NatToStringInjective(m: nat, n: nat)
    ensures NatToString(m) == NatToString(n) ==> m == n
  {
    DigitsValueOfNatToString(m);
    DigitsValueOfNatToString(n);
  }

  /** `toLongOrNull` reads every non-negative `Long` back from its decimal text. */
  lemma ParseLongOfNatToString(n: nat)
    requires n <= LongMax
    ensures ParseLong(NatToString(n)) == Some(n)
  {
    DigitsValueOfNatToString(n);
  }

  /** ... and every negative `Long` from its text with a minus sign. */
  lemma ParseLongOfNegative(n: nat)
    requires 0 < n <= -LongMin
    ensures ParseLong("-" + NatToString(n)) == Some(-(n as int))
  {
    var s := "-" + NatToString(n);
    assert s[1..] == NatToString(n);
    DigitsValueOfNatToString(n);
  }
}
