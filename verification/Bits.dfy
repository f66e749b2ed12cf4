/** Powers of two, bits of integers, and strings of '0'/'1' read as numbers. */
module Bits {

  function Pow2(k: nat): (r: nat)
    ensures r > 0
  {
    if k == 0 then 1 else 2 * Pow2(k - 1)
  }

  /** Bit `k` of `n` in two's complement (`/` rounds down for a positive divisor). */
  predicate Bit(n: int, k: nat) {
    n / Pow2(k) % 2 == 1
  }

  function Digit(b: bool): char {
    if b then '1' else '0'
  }

  function Weight(c: char): nat {
    if c == '1' then 1 else 0
  }

  /** The number a string denotes, most significant character first; as in the host code, any
      character but '1' stands for a zero. */
  function Value(s: string): (r: nat)
    ensures r < Pow2(|s|)
  {
    if s == [] then 0 else 2 * Value(s[..|s| - 1]) + Weight(s[|s| - 1])
  }

  function Reverse(s: string): (r: string)
    ensures |r| == |s|
    ensures forall i :: 0 <= i < |s| ==> r[i] == s[|s| - 1 - i]
  {
    seq(|s|, i requires 0 <= i < |s| => s[|s| - 1 - i])
  }

  lemma DoubleProduct(a: int, b: int)
    ensures a * (2 * b) == 2 * (a * b)
  {
  }

  lemma {:induction false} Pow2Add(a: nat, b: nat)
    ensures Pow2(a + b) == Pow2(a) * Pow2(b)
  {
    if b > 0 {
      Pow2Add(a, b - 1);
      DoubleProduct(Pow2(a), Pow2(b - 1));
    }
  }

  lemma Pow2Constants()
    ensures Pow2(16) == 0x1_0000 && Pow2(23) == 0x80_0000
    ensures Pow2(31) == 0x8000_0000 && Pow2(32) == 0x1_0000_0000 && Pow2(33) == 0x2_0000_0000
  {
    assert Pow2(8) == 256;
    Pow2Add(8, 8);
    Pow2Add(16, 7);
    Pow2Add(16, 15);
    assert Pow2(7) == 128 && Pow2(15) == 0x8000;
  }

  lemma {:induction false} Pow2Monotone(a: nat, b: nat)
    requires a <= b
    ensures Pow2(a) <= Pow2(b)
  {
    if a < b {
      Pow2Monotone(a, b - 1);
    }
  }

  lemma HalfThenDivide(n: int, d: nat)
    requires d > 0
    ensures n / (2 * d) == n / 2 / d
  {
    var q, r := n / 2 / d, n / 2 % d;
    assert n / 2 == d * q + r;
    assert n == 2 * d * q + (2 * r + n % 2);
    assert 0 <= 2 * r + n % 2 < 2 * d;
    QuotientUnique(n, 2 * d, q, 2 * r + n % 2);
  }

  lemma {:induction false} MulStep(d: nat, a: int, b: int)
    requires a < b
    ensures d * a + d <= d * b
    decreases b - a
  {
    assert d * (a + 1) == d * a + d;
    if a + 1 < b {
      MulStep(d, a + 1, b);
    }
  }

  lemma QuotientUnique(n: int, d: nat, q: int, r: nat)
    requires 0 <= r < d && n == d * q + r
    ensures n / d == q && n % d == r
  {
    var q', r' := n / d, n % d;
    assert n == d * q' + r' && 0 <= r' < d;
    if q < q' {
      MulStep(d, q, q');
    } else if q' < q {
      MulStep(d, q', q);
    }
  }

  lemma BitZero(n: int)
    ensures Bit(n, 0) == (n % 2 == 1)
  {
    assert Pow2(0) == 1;
  }

  /** Dropping the lowest bit shifts the others down. */
  lemma BitHalf(n: int, k: nat)
    ensures Bit(n, k + 1) == Bit(n / 2, k)
  {
    HalfThenDivide(n, Pow2(k));
  }

  /** The bits of a string's value are its characters, from the right. */
  lemma {:induction false} BitOfValue(s: string, k: nat)
    ensures Bit(Value(s), k) <==> k < |s| && s[|s| - 1 - k] == '1'
  {
    if s == [] {
      assert 0 / Pow2(k) == 0;
    } else if k == 0 {
      BitZero(Value(s));
    } else {
      BitHalf(Value(s), k - 1);
      BitOfValue(s[..|s| - 1], k - 1);
      assert Value(s) / 2 == Value(s[..|s| - 1]);
    }
  }

  /** A number below 2^w is determined by its `w` low bits. */
  lemma {:induction false} BitsDetermine(m: int, n: int, w: nat)
    requires 0 <= m < Pow2(w) && 0 <= n < Pow2(w)
    requires forall k :: 0 <= k < w ==> Bit(m, k) == Bit(n, k)
    ensures m == n
  {
    if w > 0 {
      assert Bit(m, 0) == Bit(n, 0);
      BitZero(m);
      BitZero(n);
      forall k | 0 <= k < w - 1
        ensures Bit(m / 2, k) == Bit(n / 2, k)
      {
        BitHalf(m, k);
        BitHalf(n, k);
      }
      BitsDetermine(m / 2, n / 2, w - 1);
    }
  }

  lemma ValueSnoc(s: string, c: char)
    ensures Value(s + [c]) == 2 * Value(s) + Weight(c)
  {
    assert (s + [c])[..|s|] == s;
  }

  lemma {:induction false} ValueAppend(hi: string, lo: string)
    ensures Value(hi + lo) == Value(hi) * Pow2(|lo|) + Value(lo)
    decreases |lo|
  {
    if lo == [] {
      assert hi + lo == hi;
    } else {
      var lo', c := lo[..|lo| - 1], lo[|lo| - 1];
      ValueAppend(hi, lo');
      assert hi + lo == hi + lo' + [c];
      ValueSnoc(hi + lo', c);
      DoubleProduct(Value(hi), Pow2(|lo'|));
    }
  }

  lemma ValueCons(c: char, s: string)
    ensures Value([c] + s) == Weight(c) * Pow2(|s|) + Value(s)
  {
    ValueAppend([c], s);
    assert [c][..0] == [];
    assert Value([c]) == Weight(c);
  }

  /** The first `w` characters, least significant first, of a number. */
  function LsbFirst(n: int, w: nat): (s: string)
    ensures |s| == w
  {
    seq(w, i requires 0 <= i < w => Digit(Bit(n, i)))
  }

  lemma {:induction false} LsbFirstValue(n: nat, w: nat)
    ensures Value(Reverse(LsbFirst(n, w))) == n % Pow2(w)
  {
    var s := Reverse(LsbFirst(n, w));
    forall k | 0 <= k < w
      ensures Bit(Value(s), k) == Bit(n % Pow2(w), k)
    {
      BitOfValue(s, k);
      BitOfRemainder(n, w, k);
    }
    BitsDetermine(Value(s), n % Pow2(w), w);
  }

  lemma {:induction false} BitOfRemainder(n: int, w: nat, k: nat)
    requires k < w
    ensures Bit(n % Pow2(w), k) == Bit(n, k)
    decreases w
  {
    HalfRemainder(n, Pow2(w - 1));
    var m := n % Pow2(w);
    assert m / 2 == n / 2 % Pow2(w - 1) && m % 2 == n % 2;
    if k == 0 {
      BitZero(n);
      BitZero(m);
    } else {
      BitHalf(n, k - 1);
      BitHalf(m, k - 1);
      BitOfRemainder(n / 2, w - 1, k - 1);
    }
  }

  lemma HalfRemainder(n: int, p: nat)
    requires p > 0
    ensures n % (2 * p) / 2 == n / 2 % p
    ensures n % (2 * p) % 2 == n % 2
  {
    var q, r := n / 2 / p, n / 2 % p;
    var e := n % 2;
    assert n / 2 == p * q + r;
    assert 2 * (p * q) == (2 * p) * q;
    QuotientUnique(n, 2 * p, q, 2 * r + e);
  }
}
