/** Modular exponentiation and the equality behind Diffie-Hellman key agreement. */
module ModularPower {

  function Times(a: nat, b: nat): nat {
    a * b
  }

  function Power(b: nat, e: nat): nat {
    if e == 0 then 1 else Times(b, Power(b, e - 1))
  }

  function ModPow(b: nat, e: nat, m: nat): (r: nat)
    requires m > 0
    ensures r < m
  {
    Power(b, e) % m
  }

  lemma TimesAssoc(a: nat, b: nat, c: nat)
    ensures Times(Times(a, b), c) == Times(a, Times(b, c))
  {
  }

  lemma TimesComm(a: nat, b: nat)
    ensures Times(a, b) == Times(b, a)
  {
  }

  lemma {:induction false} PowerAdd(b: nat, i: nat, j: nat)
    ensures Power(b, i + j) == Times(Power(b, i), Power(b, j))
  {
    if i == 0 {
    } else {
      PowerAdd(b, i - 1, j);
      hide Times;
      TimesAssoc(b, Power(b, i - 1), Power(b, j));
    }
  }

  lemma TimesSucc(a: nat, e: nat)
    requires e > 0
    ensures Times(a, e) == a + Times(a, e - 1)
  {
  }

  lemma {:induction false} PowerPower(b: nat, a: nat, e: nat)
    ensures Power(Power(b, a), e) == Power(b, Times(a, e))
  {
    if e == 0 {
    } else {
      PowerPower(b, a, e - 1);
      TimesSucc(a, e);
      hide Times;
      PowerAdd(b, a, Times(a, e - 1));
    }
  }

  lemma Quotient(x: nat, m: nat)
    requires m > 0
    ensures x == Times(x / m, m) + x % m
  {
  }

  lemma Distribute(a: nat, b: nat, c: nat)
    ensures Times(a + b, c) == Times(a, c) + Times(b, c)
  {
  }

  lemma {:induction false} AddMultiple(k: nat, r: nat, m: nat)
    requires m > 0
    ensures (Times(k, m) + r) % m == r % m
  {
    if k > 0 {
      AddMultiple(k - 1, r, m);
      Distribute(k - 1, 1, m);
      AddOne(Times(k - 1, m) + r, m);
    }
  }

  lemma AddOne(x: nat, m: nat)
    requires m > 0
    ensures (x + m) % m == x % m
  {
    var q := x / m;
    var r := x % m;
    assert x + m == m * (q + 1) + r;
    UniqueRemainder(m, (x + m) / m, (x + m) % m, q + 1, r);
  }

  lemma UniqueRemainder(m: nat, q: nat, r: nat, q': nat, r': nat)
    requires r < m && r' < m && m * q + r == m * q' + r'
    ensures r == r'
  {
    if q > q' {
      Gap(m, q', q);
    } else if q' > q {
      Gap(m, q, q');
    }
  }

  lemma Gap(m: nat, a: nat, b: nat)
    requires a < b
    ensures m * b >= m * a + m
  {
    var d := b - a - 1;
    assert m * b == m * a + m + m * d;
  }

  /** A factor may be reduced first. */
  lemma ReduceFactor(x: nat, y: nat, m: nat)
    requires m > 0
    ensures Times(x % m, y) % m == Times(x, y) % m
  {
    hide Times;
    Quotient(x, m);
    Distribute(Times(x / m, m), x % m, y);
    TimesAssoc(x / m, m, y);
    TimesComm(m, y);
    TimesAssoc(x / m, y, m);
    AddMultiple(Times(x / m, y), Times(x % m, y), m);
  }

  lemma ReduceFactors(x: nat, y: nat, m: nat)
    requires m > 0
    ensures Times(x % m, y % m) % m == Times(x, y) % m
  {
    hide Times;
    ReduceFactor(x, y % m, m);
    TimesComm(x, y % m);
    ReduceFactor(y, x, m);
    TimesComm(x, y);
  }

  lemma {:induction false} ReduceBase(b: nat, e: nat, m: nat)
    requires m > 0
    ensures Power(b % m, e) % m == Power(b, e) % m
  {
    hide Times;
    if e > 0 {
      ReduceBase(b, e - 1, m);
      ReduceFactors(b, Power(b, e - 1), m);
      ReduceFactor(b, Power(b % m, e - 1), m);
      TimesComm(b, Power(b % m, e - 1));
      TimesComm(b, Power(b, e - 1));
      ReduceFactor(Power(b % m, e - 1), b, m);
      ReduceFactor(Power(b, e - 1), b, m);
    }
  }

  /** Both sides raise the other's public value to their own exponent and meet. */
  lemma Agreement(g: nat, a: nat, b: nat, m: nat)
    requires m > 0
    ensures ModPow(ModPow(g, a, m), b, m) == ModPow(ModPow(g, b, m), a, m)
  {
    hide Power, Times;
    ReduceBase(Power(g, a), b, m);
    ReduceBase(Power(g, b), a, m);
    PowerPower(g, a, b);
    PowerPower(g, b, a);
    TimesComm(a, b);
  }
}
