/** The idempotency key of a settlement job (apps/mpc-committee/src/settler.ts). */
module JobKeys {

  function Digit(n: nat): char
    requires n < 10
  {
    "0123456789"[n]
  }

  /** The decimal spelling of a number. */
  function Decimal(n: nat): (s: string)
    ensures |s| > 0
    ensures forall i :: 0 <= i < |s| ==> '0' <= s[i] <= '9'
  {
    if n < 10 then [Digit(n)] else Decimal(n / 10) + [Digit(n % 10)]
  }

  function JobKey(batchId: string, index: nat): string {
    "mpc_settle:" + batchId + ":" + Decimal(index)
  }

  lemma DigitInjective(d: nat, e: nat)
    requires d < 10 && e < 10 && Digit(d) == Digit(e)
    ensures d == e
  {
  }

  lemma LastDigit(n: nat)
    ensures var s := Decimal(n);
            s[|s| - 1] == Digit(n % 10) && (n < 10 ==> |s| == 1)
              && (n >= 10 ==> |s| > 1 && s[..|s| - 1] == Decimal(n / 10))
  {
    hide Digit;
  }

  lemma {:induction false} DecimalInjective(n: nat, m: nat)
    requires Decimal(n) == Decimal(m)
    ensures n == m
  {
    hide Digit;
    var s, t := Decimal(n), Decimal(m);
    LastDigit(n);
    LastDigit(m);
    DigitInjective(n % 10, m % 10);
    if n >= 10 && m >= 10 {
      hide Decimal;
      DecimalInjective(n / 10, m / 10);
    }
  }

  /** Two spellings after a colon line up, whatever stands before the colon. */
  lemma SameTail(a: string, b: string, s: string, t: string)
    requires a + ":" + s == b + ":" + t
    requires forall i :: 0 <= i < |s| ==> '0' <= s[i] <= '9'
    requires forall i :: 0 <= i < |t| ==> '0' <= t[i] <= '9'
    ensures a == b && s == t
  {
    var u := a + ":" + s;
    assert u[|a|] == ':' && u[|b|] == ':';
    assert a == u[..|a|] && b == u[..|b|];
    assert s == u[|a| + 1..] && t == u[|b| + 1..];
  }

  /** Different matches have different keys, whatever the batch ids look like. */
  lemma JobKeyInjective(b: string, i: nat, c: string, j: nat)
    requires JobKey(b, i) == JobKey(c, j)
    ensures b == c && i == j
  {
    var s, t := Decimal(i), Decimal(j);
    assert b + ":" + s == JobKey(b, i)[11..] && c + ":" + t == JobKey(c, j)[11..];
    SameTail(b, c, s, t);
    DecimalInjective(i, j);
  }

  /** What a string of digits is worth. */
  function Value(s: string): int {
    if s == "" then 0 else 10 * Value(s[..|s| - 1]) + (s[|s| - 1] as int - '0' as int)
  }

  lemma DigitValue(d: nat)
    requires d < 10
    ensures Digit(d) as int - '0' as int == d
  {
  }

  /** The spelling of a number is worth that number, and starts with 0 only for 0. */
  lemma {:induction false} DecimalValue(n: nat)
    ensures Value(Decimal(n)) == n
    ensures n > 0 ==> Decimal(n)[0] != '0'
  {
    LastDigit(n);
    DigitValue(n % 10);
    var s := Decimal(n);
    if n < 10 {
      assert s[..0] == "";
    } else {
      DecimalValue(n / 10);
      assert s[0] == Decimal(n / 10)[0];
    }
    hide Digit, Decimal;
  }

  /** The key as the queue sees it. */
  lemma JobKeyExample()
    ensures JobKey("b7", 12) == "mpc_settle:b7:12"
  {
    assert Decimal(12) == Decimal(1) + [Digit(2)] == "12";
  }
}
