/** Congruence modulo m, for the exponent laws the login relies on. */
module ModArith {

  function Pow(a: int, e: nat): int {
    if e == 0 then 1 else a * Pow(a, e - 1)
  }

  /** BN_mod_exp. */
  function PowMod(a: int, e: nat, m: int): (r: nat)
    requires m > 1
    ensures r < m
  {
    Pow(a, e) % m
  }

  /** a and b leave the same remainder. */
  ghost predicate Cong(a: int, b: int, m: int)
    requires m > 1
  {
    exists k :: Diff(a, b, m, k)
  }

  ghost predicate Diff(a: int, b: int, m: int, k: int) {
    a - b == m * k
  }

  lemma CongMod(a: int, m: int)
    requires m > 1
    ensures Cong(a, a % m, m) && Cong(a % m, a, m)
  {
    assert Diff(a, a % m, m, a / m);
    assert Diff(a % m, a, m, -(a / m));
  }

  /** Congruent numbers reduce to the same remainder. */
  lemma CongSame(a: int, b: int, m: int)
    requires m > 1 && Cong(a, b, m)
    ensures a % m == b % m
  {
    var k :| Diff(a, b, m, k);
    var qa, qb := a / m, b / m;
    var d := qa - qb - k;
    assert a == m * qa + a % m && b == m * qb + b % m;
    assert m * d == m * qa - m * qb - m * k;
    assert m * d == b % m - a % m;
    MulOutgrows(m, d);
  }

  lemma MulOutgrows(m: int, d: int)
    requires m > 1
    ensures d >= 1 ==> m * d >= m
    ensures d <= -1 ==> m * d <= -m
  {
  }

  lemma CongSym(a: int, b: int, m: int)
    requires m > 1 && Cong(a, b, m)
    ensures Cong(b, a, m)
  {
    var k :| Diff(a, b, m, k);
    assert Diff(b, a, m, -k);
  }

  lemma CongTrans(a: int, b: int, c: int, m: int)
    requires m > 1 && Cong(a, b, m) && Cong(b, c, m)
    ensures Cong(a, c, m)
  {
    var k :| Diff(a, b, m, k);
    var l :| Diff(b, c, m, l);
    assert Diff(a, c, m, k + l);
  }

  lemma CongSub(a: int, b: int, c: int, d: int, m: int)
    requires m > 1 && Cong(a, b, m) && Cong(c, d, m)
    ensures Cong(a - c, b - d, m) && Cong(a + c, b + d, m)
  {
    var k :| Diff(a, b, m, k);
    var l :| Diff(c, d, m, l);
    assert Diff(a - c, b - d, m, k - l);
    assert Diff(a + c, b + d, m, k + l);
  }

  lemma CongMul(a: int, b: int, c: int, d: int, m: int)
    requires m > 1 && Cong(a, b, m) && Cong(c, d, m)
    ensures Cong(a * c, b * d, m)
  {
    var k :| Diff(a, b, m, k);
    var l :| Diff(c, d, m, l);
    calc {
      a * c - b * d;
      (a - b) * c + b * (c - d);
      (m * k) * c + b * (m * l);
      m * (k * c + b * l);
    }
    assert Diff(a * c, b * d, m, k * c + b * l);
  }

  lemma CongRefl(a: int, m: int)
    requires m > 1
    ensures Cong(a, a, m)
  {
    assert Diff(a, a, m, 0);
  }

  lemma {:induction false} CongPow(a: int, b: int, e: nat, m: int)
    requires m > 1 && Cong(a, b, m)
    ensures Cong(Pow(a, e), Pow(b, e), m)
  {
    if e == 0 {
      CongRefl(1, m);
    } else {
      CongPow(a, b, e - 1, m);
      CongMul(a, b, Pow(a, e - 1), Pow(b, e - 1), m);
    }
  }

  lemma {:induction false} PowAdds(a: int, e: nat, f: nat)
    ensures Pow(a, e + f) == Pow(a, e) * Pow(a, f) && Pow(a, 1) == a
  {
    if e > 0 {
      PowAdds(a, e - 1, f);
      assert e + f - 1 == e - 1 + f;
      MulAssoc(a, Pow(a, e - 1), Pow(a, f));
    }
  }

  lemma MulAssoc(a: int, b: int, c: int)
    ensures (a * b) * c == a * (b * c)
  {
  }

  lemma {:induction false} PowMultiplies(a: int, e: nat, f: nat)
    ensures 0 <= e * f
    ensures Pow(Pow(a, e), f) == Pow(a, e * f)
  {
    if f == 0 {
      assert e * f == 0;
    } else {
      PowMultiplies(a, e, f - 1);
      assert e * f == e + e * (f - 1);
      PowAdds(a, e, e * (f - 1));
    }
  }
}
