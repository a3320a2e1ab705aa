/**
 Positional numerals, most significant digit first.  Base 58, base 32, base 256
 and decimal text all rest on these facts.
 */
module Digits {

  function Pow(b: nat, k: nat): (r: nat)
    ensures b > 0 ==> r > 0
  {
    if k == 0 then 1 else b * Pow(b, k - 1)
  }

  ghost predicate InBase(ds: seq<nat>, b: nat) {
    forall i :: 0 <= i < |ds| ==> ds[i] < b
  }

  /** The number a digit string denotes. */
  function ToNat(ds: seq<nat>, b: nat): nat {
    if ds == [] then 0 else ToNat(ds[..|ds| - 1], b) * b + ds[|ds| - 1]
  }

  /** The shortest digit string for `n`; zero has no digits. */
  function Minimal(n: nat, b: nat): seq<nat>
    requires b >= 2
  {
    if n == 0 then [] else DivShrinks(n, b); Minimal(n / b, b) + [n % b]
  }

  /** The `k` lowest digits of `n`. */
  function Fixed(n: nat, b: nat, k: nat): seq<nat>
    requires b >= 2
  {
    if k == 0 then [] else Fixed(n / b, b, k - 1) + [n % b]
  }

  lemma DivShrinks(n: nat, b: nat)
    requires n > 0 && b >= 2
    ensures n / b < n
  {
    assert n == b * (n / b) + n % b;
  }

  lemma DivModOf(q: nat, r: nat, b: nat)
    requires r < b
    ensures (q * b + r) / b == q && (q * b + r) % b == r
  {
    var n := q * b + r;
    assert n == b * (n / b) + n % b;
    var d := n / b - q;
    assert b * d == r - n % b;
    MulAtLeast(b, d);
    assert d == 0;
  }

  lemma MulAtLeast(b: int, d: int)
    requires b > 0
    ensures d >= 1 ==> b * d >= b
    ensures d <= -1 ==> b * d <= -b
  {
  }

  lemma MulMono(a: nat, x: nat, y: nat)
    requires x <= y
    ensures a * x <= a * y
  {
  }

  lemma Quotient(n: nat, b: nat)
    requires b > 0
    ensures n == (n / b) * b + n % b && 0 <= n % b < b
  {
  }

  /** Two divisions with remainder make one. */
  lemma TwoSteps(q: nat, r: nat, a: nat, b: nat, s: nat)
    requires r < b && s < a
    ensures (q * b + r) * a + s == q * (a * b) + (r * a + s)
    ensures r * a + s < a * b
  {
    assert (q * b + r) * a == q * (a * b) + r * a;
    MulMono(a, r + 1, b);
    assert a * (r + 1) == r * a + a;
  }

  lemma DivTwice(n: nat, a: nat, b: nat)
    requires a > 0 && b > 0
    ensures a * b > 0 && n / (a * b) == (n / a) / b
  {
    var q := n / a;
    Quotient(n, a);
    Quotient(q, b);
    TwoSteps(q / b, q % b, a, b, n % a);
    DivModOf(q / b, (q % b) * a + n % a, a * b);
  }

  lemma MulStrict(a: nat, b: nat, c: nat)
    requires a < b && c > 0
    ensures a * c < b * c
  {
  }

  lemma QuotientBound(n: nat, b: nat, m: nat)
    requires b > 0 && n < b * m
    ensures n / b < m
  {
    if n / b >= m {
      MulMono(b, m, n / b);
    }
  }

  lemma MulAssoc(x: nat, y: nat, z: nat)
    ensures x * (y * z) == (x * y) * z
  {
  }

  lemma {:induction false} PowAdd(b: nat, j: nat, k: nat)
    ensures Pow(b, j + k) == Pow(b, j) * Pow(b, k)
  {
    if j > 0 {
      PowAdd(b, j - 1, k);
      MulAssoc(b, Pow(b, j - 1), Pow(b, k));
    }
  }

  lemma ToNatSnoc(hi: seq<nat>, lo: nat, b: nat)
    ensures ToNat(hi + [lo], b) == ToNat(hi, b) * b + lo
  {
    assert (hi + [lo])[..|hi|] == hi;
  }

  /** One more digit at the end. */
  lemma OneMoreDigit(hi: seq<nat>, lo: nat, b: nat, n: nat)
    requires b > 0 && InBase(hi, b) && ToNat(hi, b) == n / b && lo == n % b
    ensures ToNat(hi + [lo], b) == n && InBase(hi + [lo], b)
  {
    ToNatSnoc(hi, lo, b);
    Quotient(n, b);
  }

  lemma {:induction false} ToNatMinimal(n: nat, b: nat)
    requires b >= 2
    ensures ToNat(Minimal(n, b), b) == n && InBase(Minimal(n, b), b)
    ensures n > 0 ==> Minimal(n, b) != [] && Minimal(n, b)[0] != 0
  {
    if n > 0 {
      DivShrinks(n, b);
      ToNatMinimal(n / b, b);
      OneMoreDigit(Minimal(n / b, b), n % b, b, n);
      if n / b == 0 {
        Quotient(n, b);
      }
    }
  }

  lemma {:induction false} MinimalToNat(ds: seq<nat>, b: nat)
    requires b >= 2 && InBase(ds, b)
    requires ds == [] || ds[0] != 0
    ensures Minimal(ToNat(ds, b), b) == ds
    ensures ds != [] ==> ToNat(ds, b) > 0
  {
    if ds != [] {
      var hi, lo := ds[..|ds| - 1], ds[|ds| - 1];
      MinimalToNat(hi, b);
      DivModOf(ToNat(hi, b), lo, b);
      if hi != [] {
        assert ToNat(hi, b) * b > 0;
      }
      assert ds == hi + [lo];
    }
  }

  lemma {:induction false} FixedToNat(ds: seq<nat>, b: nat)
    requires b >= 2 && InBase(ds, b)
    ensures Fixed(ToNat(ds, b), b, |ds|) == ds
  {
    if ds != [] {
      var hi, lo := ds[..|ds| - 1], ds[|ds| - 1];
      FixedToNat(hi, b);
      DivModOf(ToNat(hi, b), lo, b);
      assert ds == hi + [lo];
    }
  }

  lemma {:induction false} FixedInBase(n: nat, b: nat, k: nat)
    requires b >= 2
    ensures InBase(Fixed(n, b, k), b)
  {
    if k > 0 {
      FixedInBase(n / b, b, k - 1);
    }
  }

  lemma {:induction false} ToNatFixed(n: nat, b: nat, k: nat)
    requires b >= 2 && n < Pow(b, k)
    ensures |Fixed(n, b, k)| == k && InBase(Fixed(n, b, k), b)
    ensures ToNat(Fixed(n, b, k), b) == n
  {
    if k > 0 {
      QuotientBound(n, b, Pow(b, k - 1));
      ToNatFixed(n / b, b, k - 1);
      OneMoreDigit(Fixed(n / b, b, k - 1), n % b, b, n);
    }
  }

  lemma {:induction false} ToNatBound(ds: seq<nat>, b: nat)
    requires b >= 2 && InBase(ds, b)
    ensures ToNat(ds, b) < Pow(b, |ds|)
  {
    if ds != [] {
      var hi := ds[..|ds| - 1];
      ToNatBound(hi, b);
      MulMono(b, ToNat(hi, b) + 1, Pow(b, |hi|));
      assert b * (ToNat(hi, b) + 1) == ToNat(hi, b) * b + b;
    }
  }

  lemma Shifted(h: nat, p: nat, l: nat, b: nat, d: nat)
    ensures (h * p + l) * b + d == h * (b * p) + (l * b + d)
  {
    assert h * p * b == h * (b * p);
  }

  lemma {:induction false} ToNatAppend(hi: seq<nat>, lo: seq<nat>, b: nat)
    ensures ToNat(hi + lo, b) == ToNat(hi, b) * Pow(b, |lo|) + ToNat(lo, b)
  {
    if lo == [] {
      assert hi + lo == hi;
    } else {
      var front, d := lo[..|lo| - 1], lo[|lo| - 1];
      ToNatAppend(hi, front, b);
      ToNatSnoc(hi + front, d, b);
      assert hi + lo == (hi + front) + [d];
      Shifted(ToNat(hi, b), Pow(b, |front|), ToNat(front, b), b, d);
    }
  }

  /** Dropping the `k` lowest digits divides by `b^k`. */
  lemma {:induction false} MinimalPrefix(n: nat, b: nat, k: nat)
    requires b >= 2 && n / Pow(b, k) > 0
    ensures |Minimal(n, b)| == |Minimal(n / Pow(b, k), b)| + k
    ensures Minimal(n / Pow(b, k), b) <= Minimal(n, b)
    decreases k
  {
    if k > 0 {
      DivTwice(n, b, Pow(b, k - 1));
      if n == 0 {
        assert false;
      }
      MinimalPrefix(n / b, b, k - 1);
    }
  }
}
