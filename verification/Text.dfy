/** Decimal numbers as the bytes of their digits. */
module Text {
  import opened Bits

  const ZERO: byte := 48

  predicate IsDigit(c: byte) { 48 <= c <= 57 }

  /** The digits of a number, without leading zeros. */
  function Decimal(n: nat): (r: seq<byte>)
    ensures |r| > 0 && forall i :: 0 <= i < |r| ==> IsDigit(r[i])
  {
    if n < 10 then [ZERO + n] else Decimal(n / 10) + [ZERO + n % 10]
  }

  /** The number a run of digits stands for. */
  function Value(s: seq<byte>): int
    requires forall i :: 0 <= i < |s| ==> IsDigit(s[i])
  {
    if s == [] then 0 else 10 * Value(s[..|s| - 1]) + (s[|s| - 1] as int - 48)
  }

  lemma {:induction false} ValueOfDecimal(n: nat)
    ensures Value(Decimal(n)) == n
  {
    if n < 10 {
      assert [ZERO + n][..0] == [];
    } else {
      ValueOfDecimal(n / 10);
      assert Decimal(n)[..|Decimal(n)| - 1] == Decimal(n / 10);
    }
  }

  function Power10(k: nat): (r: nat)
    ensures r > 0
  {
    if k == 0 then 1 else 10 * Power10(k - 1)
  }

  /** A number below 10^k has at most k digits. */
  lemma {:induction false} DecimalLength(n: nat, k: nat)
    requires k > 0 && n < Power10(k)
    ensures |Decimal(n)| <= k
  {
    assert Power10(1) == 10 * Power10(0);
    if n < 10 {
    } else {
      DecimalLength(n / 10, k - 1);
    }
  }

  /** A number of at least 10^(k-1) has at least k digits. */
  lemma {:induction false} DecimalLengthAtLeast(n: nat, k: nat)
    requires k > 0 && n >= Power10(k - 1)
    ensures |Decimal(n)| >= k
  {
    if k == 1 {
    } else {
      assert Power10(k - 1) == 10 * Power10(k - 2) && Power10(k - 1) >= 10;
      DecimalLengthAtLeast(n / 10, k - 1);
    }
  }

  lemma U64Digits()
    ensures Power10(10) == 100_0000_0000 && Power10(20) == 1_0000_0000_0000_0000_0000
  {
    assert Power10(2) == 100 && Power10(4) == 1_0000 && Power10(6) == 1_000_000 && Power10(8) == 1_0000_0000;
    assert Power10(10) == 100_0000_0000 && Power10(12) == 1_0000_0000_0000 && Power10(14) == 100_0000_0000_0000;
    assert Power10(16) == 1_0000_0000_0000_0000 && Power10(18) == 100_0000_0000_0000_0000;
  }
}
