/** Bytes, machine words and the bit operations the sources use, written over integers. */
module Bits {
  type byte = x: int | 0 <= x < 256
  type bit = x: int | 0 <= x < 2

  const U32: int := 0x1_0000_0000

  datatype Option<+T> = None | Some(value: T)

  function Pow2(n: nat): (r: nat)
    ensures r > 0
  {
    if n == 0 then 1 else 2 * Pow2(n - 1)
  }

  /** Bitwise AND, one bit at a time. */
  function And(a: nat, b: nat): nat {
    if a == 0 || b == 0 then 0 else 2 * And(a / 2, b / 2) + (a % 2) * (b % 2)
  }

  /** Bitwise XOR, one bit at a time. */
  function Xor(a: nat, b: nat): nat {
    if a == 0 && b == 0 then 0 else 2 * Xor(a / 2, b / 2) + (a + b) % 2
  }

  lemma Pow2Add(a: nat, b: nat)
    ensures Pow2(a + b) == Pow2(a) * Pow2(b)
  {
    if a == 0 {
    } else {
      Pow2Add(a - 1, b);
      assert Pow2(a + b) == 2 * Pow2(a - 1 + b);
    }
  }

  lemma Pow2Monotone(a: nat, b: nat)
    requires a <= b
    ensures Pow2(a) <= Pow2(b)
  {
    if a == b {
    } else {
      Pow2Monotone(a, b - 1);
    }
  }

  lemma HalfMod(y: nat, m: nat)
    requires m > 0
    ensures y % (2 * m) == 2 * ((y / 2) % m) + y % 2
  {
    var q := (y / 2) / m;
    var r := (y / 2) % m;
    assert y == 2 * (m * q + r) + y % 2;
    assert y == (2 * m) * q + (2 * r + y % 2) by { assert 2 * (m * q) == (2 * m) * q; }
    ModUnique(y, 2 * m, q, 2 * r + y % 2);
  }

  lemma ModUnique(y: int, m: int, q: int, r: int)
    requires m > 0 && 0 <= r < m && y == m * q + r
    ensures y % m == r && y / m == q
  {
    var d := y / m - q;
    assert y == m * (y / m) + y % m;
    assert m * d == r - y % m by { assert m * d == m * (y / m) - m * q; }
    MulSign(m, d);
  }

  lemma MulSign(m: int, d: int)
    requires m > 0
    ensures d >= 1 ==> m * d >= m
    ensures d <= -1 ==> m * d <= -m
  {
  }

  lemma AndStep(y: nat, m: nat, b: bit)
    ensures And(y, 2 * m + b) == 2 * And(y / 2, m) + (if b == 1 then y % 2 else 0)
  {
    assert (2 * m + b) / 2 == m && (2 * m + b) % 2 == b;
  }

  /** ANDing with the mask whose bits lo..hi-1 are set keeps exactly those bits. */
  lemma {:induction false} AndMask(y: nat, lo: nat, hi: nat)
    requires lo <= hi
    ensures Pow2(hi) >= Pow2(lo)
    ensures And(y, Pow2(hi) - Pow2(lo)) == y % Pow2(hi) - y % Pow2(lo)
  {
    hide And;
    Pow2Monotone(lo, hi);
    if hi == 0 || lo == hi {
      AndNothing(y);
    } else if lo > 0 {
      AndMask(y / 2, lo - 1, hi - 1);
      HalfMod(y, Pow2(hi - 1));
      HalfMod(y, Pow2(lo - 1));
      AndStep(y, Pow2(hi - 1) - Pow2(lo - 1), 0);
    } else {
      AndMask(y / 2, 0, hi - 1);
      HalfMod(y, Pow2(hi - 1));
      AndStep(y, Pow2(hi - 1) - 1, 1);
      assert y % 1 == 0;
      assert (y / 2) % 1 == 0;
    }
  }

  lemma AndNothing(y: nat)
    ensures And(y, 0) == 0
  {
  }

  /** Reducing first to a multiple of the modulus does not change the remainder. */
  lemma ModOfMod(y: nat, a: nat, b: nat)
    requires a > 0 && b > 0
    ensures (y % (a * b)) % a == y % a
  {
    var q, r := y / (a * b), y % (a * b);
    assert y == (a * b) * q + r;
    assert r == a * (r / a) + r % a;
    assert y == a * (b * q + r / a) + r % a by {
      assert (a * b) * q == a * (b * q);
      assert a * (b * q + r / a) == a * (b * q) + a * (r / a);
    }
    ModUnique(y, a, b * q + r / a, r % a);
  }

  // ---- little-endian numbers ----

  function Power256(n: nat): (r: nat)
    ensures r > 0
  {
    if n == 0 then 1 else 256 * Power256(n - 1)
  }

  function LeBytes(v: nat, n: nat): (r: seq<byte>)
    ensures |r| == n
  {
    if n == 0 then [] else [v % 256] + LeBytes(v / 256, n - 1)
  }

  function FromLe(b: seq<byte>): (r: nat)
    ensures r < Power256(|b|)
  {
    if b == [] then 0 else b[0] as int + 256 * FromLe(b[1..])
  }

  lemma {:induction false} LeBack(v: nat, n: nat)
    ensures FromLe(LeBytes(v, n)) == v % Power256(n)
  {
    if n == 0 {
      assert v % 1 == 0;
    } else {
      var b := LeBytes(v, n);
      assert b[1..] == LeBytes(v / 256, n - 1);
      LeBack(v / 256, n - 1);
      ByteMod(v, Power256(n - 1));
    }
  }

  lemma ByteMod(v: nat, m: nat)
    requires m > 0
    ensures v % (256 * m) == v % 256 + 256 * ((v / 256) % m)
  {
    var q, r := (v / 256) / m, (v / 256) % m;
    assert v == 256 * (m * q + r) + v % 256;
    assert v == (256 * m) * q + (256 * r + v % 256) by { assert 256 * (m * q) == (256 * m) * q; }
    MulAtMost(r, m);
    ModUnique(v, 256 * m, q, 256 * r + v % 256);
  }

  lemma MulAtMost(r: nat, m: nat)
    requires r < m
    ensures 256 * r + 256 <= 256 * m
  {
  }

  lemma Powers()
    ensures Power256(4) == 0x1_0000_0000 && Power256(8) == 0x1_0000_0000_0000_0000
  {
    assert Power256(1) == 256 && Power256(2) == 0x1_0000 && Power256(3) == 0x100_0000 && Power256(4) == 0x1_0000_0000;
    assert Power256(5) == 0x100_0000_0000 && Power256(6) == 0x1_0000_0000_0000 && Power256(7) == 0x100_0000_0000_0000;
  }
}
