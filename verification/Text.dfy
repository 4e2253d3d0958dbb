/** Small text functions: decimal numbers, and splitting at the last occurrence of a character. */
module Text {
  function Digit(n: nat): char
    requires n < 10
  {
    "0123456789"[n]
  }

  predicate IsDigit(c: char) {
    '0' <= c <= '9'
  }

  /** Decimal form. */
  function Dec(n: nat): (s: string)
    ensures |s| > 0 && forall c :: c in s ==> IsDigit(c)
  {
    if n < 10 then [Digit(n)] else Dec(n / 10) + [Digit(n % 10)]
  }

  lemma {:induction false} DecInjective(m: nat, n: nat)
    requires Dec(m) == Dec(n)
    ensures m == n
  {
    var s, t := Dec(m), Dec(n);
    if m < 10 && n < 10 {
      assert s[0] == Digit(m) && t[0] == Digit(n);
    } else if m >= 10 && n >= 10 {
      assert s[..|s| - 1] == Dec(m / 10) && t[..|t| - 1] == Dec(n / 10);
      assert s[|s| - 1] == Digit(m % 10) && t[|t| - 1] == Digit(n % 10);
      DecInjective(m / 10, n / 10);
      assert m == 10 * (m / 10) + m % 10 && n == 10 * (n / 10) + n % 10;
    }
  }

  /** The number that digits stand for. */
  function Value(s: string): int {
    if s == "" then 0 else 10 * Value(s[..|s| - 1]) + (s[|s| - 1] as int - '0' as int)
  }

  /** The decimal form stands for its number, and starts with 0 only for 0 itself. */
  lemma {:induction false} DecExactly(n: nat)
    ensures Value(Dec(n)) == n && (Dec(n)[0] == '0' <==> n == 0)
  {
    var s := Dec(n);
    DigitIs(n % 10);
    if n < 10 {
      assert s[..0] == "";
    } else {
      DecExactly(n / 10);
      assert s[..|s| - 1] == Dec(n / 10) && s[0] == Dec(n / 10)[0];
      assert n == 10 * (n / 10) + n % 10;
    }
  }

  lemma DigitIs(n: nat)
    requires n < 10
    ensures Digit(n) as int == '0' as int + n
  {
  }

  /** Position of the last `c` in `s`, -1 when there is none. */
  function LastIndex(s: string, c: char): (r: int)
    ensures -1 <= r < |s|
    ensures r >= 0 ==> s[r] == c
    ensures forall k :: r < k < |s| ==> s[k] != c
  {
    if s == "" then -1
    else if s[|s| - 1] == c then |s| - 1
    else LastIndex(s[..|s| - 1], c)
  }

  /** What follows the last `/`. */
  function Basename(path: string): (r: string)
    ensures '/' !in r
  {
    path[LastIndex(path, '/') + 1..]
  }

  function LowerChar(c: char): char {
    if 'A' <= c <= 'Z' then ((c as int) + 32) as char else c
  }

  function Lower(s: string): (r: string)
    ensures |r| == |s|
  {
    seq(|s|, k requires 0 <= k < |s| => LowerChar(s[k]))
  }

  predicate EndsWith(s: string, t: string) {
    |t| <= |s| && s[|s| - |t|..] == t
  }

  /** The parts of `s` between occurrences of `c`. */
  function Split(s: string, c: char): (r: seq<string>)
    ensures |r| > 0
    decreases |s|
  {
    var k := LastIndex(s, c);
    if k < 0 then [s] else Split(s[..k], c) + [s[k + 1..]]
  }
}
