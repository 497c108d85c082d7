/**
 * Arbitrary-precision modular exponentiation, Python's three-argument pow(b, e, m)
 * for a positive modulus and a non-negative exponent, and the identity
 * (h^a)^b = (h^b)^a = h^(a*b) (mod p) that Diffie-Hellman blinding rests on.
 */
module ModArith {

  function Pow(b: int, e: nat): int {
    if e == 0 then 1 else b * Pow(b, e - 1)
  }

  lemma {:induction false} MulAtLeast(d: int, m: int)
    requires d >= 1 && m > 0
    ensures d * m >= m
  {
    if d > 1 {
      MulAtLeast(d - 1, m);
      assert d * m == (d - 1) * m + m;
    }
  }

  /** Euclidean division has one quotient and one remainder. */
  lemma ModUnique(a: int, q: int, m: int, r: int)
    requires m > 0 && 0 <= r < m && a == q * m + r
    ensures a % m == r && a / m == q
  {
    var q', r' := a / m, a % m;
    assert a == q' * m + r';
    var d := q - q';
    assert d * m == q * m - q' * m;
    assert d * m == r' - r;
    if d > 0 {
      MulAtLeast(d, m);
    } else if d < 0 {
      MulAtLeast(-d, m);
    }
  }

  lemma MulMod(a: int, x: int, m: int)
    requires m > 0
    ensures (a * (x % m)) % m == (a * x) % m
  {
    var q := x / m;
    var r := x % m;
    assert x == q * m + r;
    assert a * x == (a * q) * m + a * r;
    var q2 := (a * r) / m;
    var r2 := (a * r) % m;
    assert a * r == q2 * m + r2;
    assert a * x == (a * q + q2) * m + r2;
    ModUnique(a * x, a * q + q2, m, r2);
  }

  /**
   * pow(b, e, m): the remainder of b^e modulo m, found by repeated
   * multiplication without ever forming b^e.
   */
  function ModPow(b: int, e: nat, m: int): (r: int)
    requires m > 0
    ensures 0 <= r < m
    ensures r == Pow(b, e) % m
  {
    if e == 0 then 1 % m
    else
      var rest := ModPow(b, e - 1, m);
      MulMod(b, Pow(b, e - 1), m);
      (b * rest) % m
  }

  lemma {:induction false} PowAdd(h: int, x: nat, y: nat)
    ensures Pow(h, x + y) == Pow(h, x) * Pow(h, y)
  {
    if x > 0 {
      PowAdd(h, x - 1, y);
      assert Pow(h, x + y) == h * Pow(h, x - 1 + y);
    }
  }

  lemma {:induction false} PowMul(h: int, a: nat, b: nat)
    ensures Pow(Pow(h, a), b) == Pow(h, a * b)
  {
    if b > 0 {
      PowMul(h, a, b - 1);
      assert a * b == a + a * (b - 1);
      PowAdd(h, a, a * (b - 1));
    }
  }

  /** Reducing the base first does not change b^e mod m. */
  lemma {:induction false} PowModBase(x: int, e: nat, m: int)
    requires m > 0
    ensures Pow(x % m, e) % m == Pow(x, e) % m
  {
    if e > 0 {
      PowModBase(x, e - 1, m);
      calc {
        Pow(x % m, e) % m;
        ((x % m) * Pow(x % m, e - 1)) % m;
        { MulMod(x % m, Pow(x % m, e - 1), m); }
        ((x % m) * (Pow(x % m, e - 1) % m)) % m;
        ((x % m) * (Pow(x, e - 1) % m)) % m;
        { MulMod(x % m, Pow(x, e - 1), m); }
        ((x % m) * Pow(x, e - 1)) % m;
        (Pow(x, e - 1) * (x % m)) % m;
        { MulMod(Pow(x, e - 1), x, m); }
        (Pow(x, e - 1) * x) % m;
        Pow(x, e) % m;
      }
    }
  }

  /** Blinding twice is blinding once with the product of the exponents. */
  lemma DoubleBlind(h: int, a: nat, b: nat, p: int)
    requires p > 0
    ensures ModPow(ModPow(h, a, p), b, p) == ModPow(h, a * b, p)
  {
    PowModBase(Pow(h, a), b, p);
    PowMul(h, a, b);
  }

  /** The order in which the two parties' exponents are applied does not matter. */
  lemma BlindingCommutes(h: int, a: nat, b: nat, p: int)
    requires p > 0
    ensures ModPow(ModPow(h, a, p), b, p) == ModPow(ModPow(h, b, p), a, p)
  {
    DoubleBlind(h, a, b, p);
    DoubleBlind(h, b, a, p);
    assert a * b == b * a;
  }
}
