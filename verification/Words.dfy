/** 32-bit unsigned words, with the bitwise operators defined bit by bit on natural numbers. */
module Words {

  const WORD := 0x1_0000_0000

  type U32 = x: int | 0 <= x < WORD

  function Wrap(x: int): U32 {
    x % WORD
  }

  lemma WrapTwice(a: int, b: int)
    ensures Wrap(Wrap(a) + b) == Wrap(a + b)
  {
  }

  function Pow2(k: nat): (p: nat)
    ensures p > 0
  {
    if k == 0 then 1 else 2 * Pow2(k - 1)
  }

  function And(x: nat, y: nat): nat {
    if x == 0 || y == 0 then 0 else
      (if x % 2 == 1 && y % 2 == 1 then 1 else 0) + 2 * And(x / 2, y / 2)
  }

  function Or(x: nat, y: nat): nat {
    if x == 0 then y else if y == 0 then x else
      (if x % 2 == 1 || y % 2 == 1 then 1 else 0) + 2 * Or(x / 2, y / 2)
  }

  /** The complement of the low `width` bits of `x`. */
  function Not(x: nat, width: nat): nat {
    if width == 0 then 0 else (1 - x % 2) + 2 * Not(x / 2, width - 1)
  }

  /** Whether bit `k` of `x` is set. */
  predicate Bit(x: nat, k: nat) {
    if k == 0 then x % 2 == 1 else Bit(x / 2, k - 1)
  }

  lemma {:induction false} NoBits(k: nat)
    ensures !Bit(0, k)
  {
    if k > 0 {
      NoBits(k - 1);
    }
  }

  lemma {:induction false} AndBits(x: nat, y: nat, k: nat)
    ensures Bit(And(x, y), k) <==> Bit(x, k) && Bit(y, k)
  {
    NoBits(k);
    if x != 0 && y != 0 && k > 0 {
      AndBits(x / 2, y / 2, k - 1);
    }
  }

  lemma {:induction false} OrBits(x: nat, y: nat, k: nat)
    ensures Bit(Or(x, y), k) <==> Bit(x, k) || Bit(y, k)
  {
    NoBits(k);
    if x != 0 && y != 0 && k > 0 {
      OrBits(x / 2, y / 2, k - 1);
    }
  }

  lemma {:induction false} NotBits(x: nat, width: nat, k: nat)
    requires k < width
    ensures Bit(Not(x, width), k) <==> !Bit(x, k)
  {
    if k > 0 {
      NotBits(x / 2, width - 1, k - 1);
    }
  }

  /** A left shift that drops the bits above bit 31. */
  function ShiftLeft(x: U32, k: nat): U32 {
    Wrap(x * Pow2(k))
  }

  lemma {:induction false} NotValue(x: nat, width: nat)
    requires x < Pow2(width)
    ensures Not(x, width) == Pow2(width) - 1 - x
  {
    if width > 0 {
      NotValue(x / 2, width - 1);
    }
  }

  lemma {:induction false} AndBelow(x: nat, y: nat)
    ensures And(x, y) <= x
  {
    if x != 0 && y != 0 {
      AndBelow(x / 2, y / 2);
    }
  }

  lemma {:induction false} OrAbove(x: nat, y: nat)
    ensures x <= Or(x, y)
  {
    if x != 0 && y != 0 {
      OrAbove(x / 2, y / 2);
    }
  }

  lemma {:induction false} OrFits(x: nat, y: nat, width: nat)
    requires x < Pow2(width) && y < Pow2(width)
    ensures Or(x, y) < Pow2(width)
  {
    if x != 0 && y != 0 && width > 0 {
      OrFits(x / 2, y / 2, width - 1);
    }
  }

  lemma Pow2Of32()
    ensures Pow2(32) == WORD && Pow2(31) == 0x8000_0000
  {
    assert Pow2(8) == 0x100;
    assert Pow2(16) == 0x1_0000;
    assert Pow2(24) == 0x100_0000;
    assert Pow2(31) == 0x8000_0000;
  }

  lemma {:induction false} Pow2Splits(k: nat, j: nat)
    requires k <= j
    ensures Pow2(j) == Pow2(k) * Pow2(j - k)
    ensures Pow2(j) % Pow2(k) == 0 && Pow2(k) <= Pow2(j)
  {
    if k == j {
      assert Pow2(j) * 1 == Pow2(j);
    } else {
      Pow2Splits(k, j - 1);
      assert Pow2(j) == Pow2(k) * (2 * Pow2(j - 1 - k));
    }
    MultipleOf(Pow2(k), Pow2(j - k));
  }

  lemma MulGap(n: nat, a: int, b: int)
    requires a > b
    ensures n * a >= n * b + n
  {
    assert n * (a - b - 1) >= 0;
    assert n * (a - b - 1) == n * a - n * b - n;
  }

  lemma RemainderIs(x: nat, n: nat, d: nat, r: nat)
    requires n > 0 && r < n && x == n * d + r
    ensures x % n == r
  {
    var q := x / n;
    if d > q {
      MulGap(n, d, q);
    } else if d < q {
      MulGap(n, q, d);
    }
  }

  lemma QuotientIs(x: nat, n: nat, d: nat, r: nat)
    requires n > 0 && r < n && x == n * d + r
    ensures x / n == d
  {
    var q := x / n;
    if d > q {
      MulGap(n, d, q);
    } else if d < q {
      MulGap(n, q, d);
    }
  }

  lemma DivideTwice(x: nat, a: nat, b: nat)
    requires a > 0 && b > 0
    ensures a * b > 0 && x / a / b == x / (a * b)
  {
    var y := x / a;
    var q, r := y / b, y % b;
    MulGap(a, b, r);
    assert x == a * (b * q + r) + x % a;
    assert a * (b * q + r) == (a * b) * q + a * r;
    MulGap(a, b, 0);
    QuotientIs(x, a * b, q, a * r + x % a);
  }

  lemma MultipleOf(m: nat, q: nat)
    requires m > 0
    ensures (m * q) % m == 0
  {
    RemainderIs(m * q, m, q, 0);
  }

  /** Two multiples of `m` that are less than `m` apart are ordered. */
  lemma MultiplesApart(u: nat, v: nat, m: nat)
    requires m > 0 && u % m == 0 && v % m == 0 && u < v + m
    ensures u <= v
  {
    var p, q := u / m, v / m;
    assert u == m * p && v == m * q;
    if p > q {
      MulGap(m, p, q);
    }
  }

  lemma MultipleShift(u: nat, m: nat, n: nat)
    requires m > 0 && u % m == 0 && n % m == 0
    ensures (u + n) % m == 0
  {
    assert u + n == m * (u / m + n / m);
    MultipleOf(m, u / m + n / m);
  }

  lemma MultipleChain(x: nat, m: nat, q: nat)
    requires m > 0 && q > 0 && x % (m * q) == 0
    ensures x % m == 0
  {
    var d := x / (m * q);
    assert x == (m * q) * d == m * (q * d);
    MultipleOf(m, q * d);
  }

  lemma HalveModulus(x: nat, m: nat)
    requires m > 0
    ensures x % (2 * m) == 2 * (x / 2 % m) + x % 2
  {
    var h := x / 2;
    var d, r := h / m, h % m;
    assert h == m * d + r;
    var rest := 2 * r + x % 2;
    assert x == (2 * m) * d + rest && rest < 2 * m;
    RemainderIs(x, 2 * m, d, rest);
  }

  lemma AndStep(x: nat, y: nat, y': nat, bit: nat)
    requires y == 2 * y' + bit && bit < 2
    ensures And(x, y) == x % 2 * bit + 2 * And(x / 2, y')
  {
  }

  lemma OrStep(x: nat, y: nat, y': nat)
    requires y == 2 * y' + 1
    ensures Or(x, y) == 1 + 2 * Or(x / 2, y')
  {
  }

  /** Masking with a word whose set bits are `k..width` clears the low `k` bits. */
  lemma {:induction false} AndHighBits(x: nat, k: nat, width: nat)
    requires k <= width && x < Pow2(width)
    ensures Pow2(width) >= Pow2(k)
    ensures And(x, Pow2(width) - Pow2(k)) == x - x % Pow2(k)
  {
    Pow2Splits(k, width);
    if k > 0 {
      var half, low := Pow2(width - 1) - Pow2(k - 1), Pow2(k - 1);
      AndHighBits(x / 2, k - 1, width - 1);
      assert And(x, 2 * half) == 2 * And(x / 2, half) by { AndStep(x, 2 * half, half, 0); }
      HalveModulus(x, low);
    } else if width > 0 {
      var half := Pow2(width - 1) - 1;
      AndHighBits(x / 2, 0, width - 1);
      assert And(x, 2 * half + 1) == x % 2 + 2 * And(x / 2, half) by { AndStep(x, 2 * half + 1, half, 1); }
    }
  }

  /** Setting the low `k` bits. */
  lemma {:induction false} OrLowBits(x: nat, k: nat)
    ensures Or(x, Pow2(k) - 1) == x - x % Pow2(k) + (Pow2(k) - 1)
  {
    if k > 0 {
      var low := Pow2(k - 1);
      var high := x / 2 - x / 2 % low;
      assert Or(x / 2, low - 1) == high + low - 1 by { OrLowBits(x / 2, k - 1); }
      assert x - x % (2 * low) == 2 * high by { HalveModulus(x, low); }
      OrStep(x, Pow2(k) - 1, low - 1);
    }
  }
}
