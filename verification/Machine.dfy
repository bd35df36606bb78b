// Machine words: their sizes, powers, and quotients with remainders, shared by all modules that count.
module Machine {
  const TWO32: nat := 0x1_0000_0000
  const TWO63: nat := 0x8000_0000_0000_0000
  const TWO64: nat := 0x1_0000_0000_0000_0000
  const TWO128: nat := 0x1_0000_0000_0000_0000_0000_0000_0000_0000

  function ByteOf(i: nat): bv8
    requires i < 256
  {
    i as bv8
  }

  //// Powers

  function Pow(base: nat, n: nat): nat {
    if n == 0 then 1 else base * Pow(base, n - 1)
  }

  lemma PowStep(base: nat, n: nat)
    ensures Pow(base, n) == if n == 0 then 1 else base * Pow(base, n - 1)
  {}

  lemma {:induction false} PowPositive(base: nat, n: nat)
    requires base > 0
    ensures Pow(base, n) > 0
  {
    if n != 0 {
      PowPositive(base, n - 1);
      MulAtLeast(base, Pow(base, n - 1));
    }
  }

  lemma {:induction false} PowMonotone(base: nat, m: nat, n: nat)
    requires base > 0 && m <= n
    ensures Pow(base, m) <= Pow(base, n)
  {
    if m < n {
      PowMonotone(base, m, n - 1);
      MulAtLeast(Pow(base, n - 1), base);
    }
  }

  lemma {:induction false} PowAdd(base: nat, m: nat, n: nat)
    ensures Pow(base, m + n) == Pow(base, m) * Pow(base, n)
  {
    if n != 0 {
      PowAdd(base, m, n - 1);
      Rearrange(base, Pow(base, m), Pow(base, n - 1));
    }
  }

  lemma Rearrange(b: nat, p: nat, q: nat)
    ensures b * (p * q) == p * (b * q)
  {}

  lemma ProductApart(d: nat, q: nat, p: nat)
    requires q < p
    ensures d * q + d <= d * p
  {
    MulAtLeast(d, p - q);
  }

  lemma {:induction false} MulAtLeast(d: nat, k: nat)
    requires k >= 1
    ensures d * k >= d
  {
    if k > 1 {
      MulAtLeast(d, k - 1);
      assert d * k == d * (k - 1) + d;
    }
  }

  //// Quotients and remainders

  function Quot(v: nat, d: nat): nat
    requires 0 < d
  {
    v / d
  }

  function Rem(v: nat, d: nat): (r: nat)
    requires 0 < d
    ensures r < d
  {
    v % d
  }

  lemma QuotRem(v: nat, d: nat)
    requires 0 < d
    ensures v == d * Quot(v, d) + Rem(v, d)
    ensures Quot(v, d) == v / d && Rem(v, d) == v % d
  {}

  lemma RemainderUnique(x: nat, d: nat, q: nat, r: nat)
    requires 0 < d && x == d * q + r && r < d
    ensures x / d == q && x % d == r
    ensures Quot(x, d) == q && Rem(x, d) == r
  {
    var q', r' := x / d, x % d;
    assert d * q' + r' == d * q + r;
    if q < q' { ProductApart(d, q, q'); }
    if q' < q { ProductApart(d, q', q); }
  }

  // The lowest digit and the others.
  lemma RemSplit(v: nat, b: nat, p: nat)
    requires b > 0 && p > 0
    ensures b * p > 0 && Rem(v, b * p) == Rem(v, b) + b * Rem(Quot(v, b), p) && Quot(v, b * p) == Quot(Quot(v, b), p)
  {
    hide Quot, Rem;
    var w := Quot(v, b);
    var q, r, s := Quot(w, p), Rem(w, p), Rem(v, b);
    QuotRem(v, b);
    QuotRem(w, p);
    MulAtLeast(b, p);
    Regroup(b, p, q, r, s);
    ProductApart(b, r, p);
    RemainderUnique(v, b * p, q, s + b * r);
  }

  lemma Regroup(b: nat, p: nat, q: nat, r: nat, s: nat)
    ensures b * (p * q + r) + s == (b * p) * q + (s + b * r)
  {}
}
