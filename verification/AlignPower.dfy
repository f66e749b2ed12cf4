/** `align_power` (Software/bfd.h) in the wrapping arithmetic of the 64-bit `bfd_vma`. */
module AlignPower {
  import opened Bits

  const TWO_TO_64: int := 0x1_0000_0000_0000_0000

  /** An address. */
  type Vma = x: int | 0 <= x < TWO_TO_64

  /** `x & (-1 << align)`: the `align` low bits cleared. */
  function ClearLow(x: Vma, align: nat): Vma {
    RemainderBounds(x, Pow2(align));
    x - x % Pow2(align)
  }

  lemma RemainderBounds(x: nat, d: nat)
    requires d > 0
    ensures 0 <= x % d <= x
  {
    MulNonNegative(d, x / d);
  }

  lemma MulNonNegative(d: nat, q: nat)
    ensures d * q >= 0
  {
  }

  /** That is what the mask does, bit by bit. */
  lemma ClearLowBits(x: Vma, align: nat, k: nat)
    ensures Bit(ClearLow(x, align), k) <==> k >= align && Bit(x, k)
  {
    var p, q := Pow2(align), x / Pow2(align);
    assert ClearLow(x, align) == p * q;
    if k < align {
      LowBitsClear(q, align, k);
    } else {
      HighBitsStay(x, align, k);
    }
  }

  /** A multiple of 2^align has no lower bits. */
  lemma LowBitsClear(q: nat, align: nat, k: nat)
    requires k < align
    ensures !Bit(Pow2(align) * q, k)
  {
    var s := Pow2(align - k - 1);
    Pow2Add(k, align - k);
    assert Pow2(align) == Pow2(k) * (2 * s);
    Regroup(Pow2(k), s, q);
    QuotientUnique(Pow2(align) * q, Pow2(k), 2 * (s * q), 0);
  }

  lemma Regroup(a: int, s: int, q: int)
    ensures a * (2 * s) * q == a * (2 * (s * q))
  {
    assert a * (2 * s) * q == a * (2 * s * q);
    assert 2 * s * q == 2 * (s * q);
  }

  lemma HighBitsStay(x: nat, align: nat, k: nat)
    requires k >= align
    ensures Bit(Pow2(align) * (x / Pow2(align)), k) == Bit(x, k)
  {
    var p, s := Pow2(align), Pow2(k - align);
    Pow2Add(align, k - align);
    DivideTwice(x, p, s);
    DivideTwice(p * (x / p), p, s);
    QuotientUnique(p * (x / p), p, x / p, 0);
  }

  lemma DivideTwice(x: int, p: nat, s: nat)
    requires p > 0 && s > 0 && p * s > 0
    ensures x / (p * s) == x / p / s
  {
    var y := x / p;
    var q, r, e := y / s, y % s, x % p;
    assert y == s * q + r;
    assert x == p * (s * q + r) + e;
    assert p * (s * q + r) == p * s * q + p * r by {
      assert p * (s * q + r) == p * (s * q) + p * r;
      assert p * (s * q) == p * s * q;
    }
    MulStep(p, r, s);
    MulNonNegative(p, r);
    QuotientUnique(x, p * s, q, p * r + e);
  }

  function AlignPower(addr: Vma, align: nat): Vma
    requires align < 64
  {
    ClearLow((addr + Pow2(align) - 1) % TWO_TO_64, align)
  }

  predicate IsMultiple(x: int, align: nat) {
    x % Pow2(align) == 0
  }

  /** Adding 2^align - 1 does not wrap. */
  predicate Fits(addr: Vma, align: nat) {
    addr + Pow2(align) - 1 < TWO_TO_64
  }

  lemma PowerOf64()
    ensures Pow2(64) == TWO_TO_64
  {
    Pow2Constants();
    Pow2Add(32, 32);
  }

  /** Multiples of `d` are at least `d` apart. */
  lemma MultiplesApart(x: int, y: int, d: nat)
    requires d > 0 && x % d == 0 && y % d == 0 && x < y
    ensures x + d <= y
  {
    var a, b := x / d, y / d;
    assert x == d * a && y == d * b;
    if b <= a {
      if b < a {
        MulStep(d, b, a);
      }
      assert false;
    }
    MulStep(d, a, b);
  }

  lemma RoundDown(x: nat, d: nat)
    requires d > 0
    ensures (x - x % d) % d == 0 && x - d < x - x % d <= x
  {
    QuotientUnique(x - x % d, d, x / d, 0);
  }

  /** The result is always a multiple of 2^align. When the sum does not wrap it is the least one
      that is not below the address; when it does, it is 0, below the address. */
  lemma LeastMultiple(addr: Vma, align: nat, m: Vma)
    requires align < 64
    ensures IsMultiple(AlignPower(addr, align), align)
    ensures addr <= AlignPower(addr, align) <==> Fits(addr, align)
    ensures !Fits(addr, align) ==> AlignPower(addr, align) == 0
    ensures Fits(addr, align) && IsMultiple(m, align) && addr <= m ==> AlignPower(addr, align) <= m
  {
    if Fits(addr, align) {
      LeastWhenFits(addr, align, m);
    } else {
      WrappedSum(addr, align);
      QuotientUnique(0, Pow2(align), 0, 0);
    }
  }

  lemma LeastWhenFits(addr: Vma, align: nat, m: Vma)
    requires align < 64 && Fits(addr, align)
    ensures IsMultiple(AlignPower(addr, align), align) && addr <= AlignPower(addr, align)
    ensures IsMultiple(m, align) && addr <= m ==> AlignPower(addr, align) <= m
  {
    AlignedSum(addr, align);
    RoundedUp(addr, Pow2(align), m);
  }

  /** Adding d - 1 and rounding down is rounding up. */
  lemma RoundedUp(x: nat, d: nat, m: int)
    requires d > 0
    ensures var r := x + d - 1 - (x + d - 1) % d;
            r % d == 0 && x <= r && (m % d == 0 && x <= m ==> r <= m)
  {
    var r := x + d - 1 - (x + d - 1) % d;
    RoundDown(x + d - 1, d);
    if m % d == 0 && x <= m < r {
      MultiplesApart(m, r, d);
    }
  }

  lemma AlignedSum(addr: Vma, align: nat)
    requires align < 64 && Fits(addr, align)
    ensures AlignPower(addr, align) == addr + Pow2(align) - 1 - (addr + Pow2(align) - 1) % Pow2(align)
  {
    SumWithinWord(addr + Pow2(align) - 1);
  }

  lemma WrappedSum(addr: Vma, align: nat)
    requires align < 64 && !Fits(addr, align)
    ensures AlignPower(addr, align) == 0 < addr
  {
    var sum := addr + Pow2(align) - 1;
    PowerOf64();
    Pow2Monotone(align, 64);
    SumWraps(sum);
    QuotientUnique(sum - TWO_TO_64, Pow2(align), 0, sum - TWO_TO_64);
  }

  lemma SumWithinWord(sum: nat)
    requires sum < TWO_TO_64
    ensures sum % TWO_TO_64 == sum
  {
  }

  lemma SumWraps(sum: nat)
    requires TWO_TO_64 <= sum < 2 * TWO_TO_64
    ensures sum % TWO_TO_64 == sum - TWO_TO_64
  {
  }

  /** Aligning twice is aligning once. */
  lemma Idempotent(addr: Vma, align: nat)
    requires align < 64
    ensures AlignPower(AlignPower(addr, align), align) == AlignPower(addr, align)
  {
    LeastMultiple(addr, align, addr);
    MultipleStays(AlignPower(addr, align), align);
  }

  /** A multiple is its own least multiple. */
  lemma MultipleStays(m: Vma, align: nat)
    requires align < 64 && IsMultiple(m, align)
    ensures AlignPower(m, align) == m
  {
    MultipleFits(m, align);
    LeastMultiple(m, align, m);
  }

  lemma MultipleFits(m: Vma, align: nat)
    requires align < 64 && IsMultiple(m, align)
    ensures Fits(m, align)
  {
    PowerOf64();
    Pow2Add(align, 64 - align);
    QuotientUnique(TWO_TO_64, Pow2(align), Pow2(64 - align), 0);
    MultiplesApart(m, TWO_TO_64, Pow2(align));
  }

  /** The result is 0 only for address 0 and for sums that wrap. */
  lemma ZeroExactly(addr: Vma, align: nat)
    requires align < 64
    ensures AlignPower(addr, align) == 0 <==> addr == 0 || !Fits(addr, align)
  {
    LeastMultiple(addr, align, addr);
    if addr == 0 {
      QuotientUnique(0, Pow2(align), 0, 0);
      MultipleStays(0, align);
    }
  }

  /** Aligning preserves order unless the larger sum alone wraps. */
  lemma Monotone(addr: Vma, addr': Vma, align: nat)
    requires align < 64 && addr <= addr'
    ensures AlignPower(addr, align) <= AlignPower(addr', align) <==>
            Fits(addr', align) || !Fits(addr, align) || addr == 0
  {
    ZeroExactly(addr, align);
    LeastMultiple(addr', align, addr');
    if Fits(addr', align) {
      LeastMultiple(addr, align, AlignPower(addr', align));
    }
  }

  lemma CoarserMultiple(x: int, a: nat, b: nat)
    requires a <= b && IsMultiple(x, b)
    ensures IsMultiple(x, a)
  {
    Pow2Add(a, b - a);
    var q := x / Pow2(b);
    assert x == Pow2(b) * q;
    assert x == Pow2(a) * (Pow2(b - a) * q);
    QuotientUnique(x, Pow2(a), Pow2(b - a) * q, 0);
  }

  /** Aligning to 2^a and then to a coarser 2^b is aligning to 2^b. */
  lemma Nested(addr: Vma, a: nat, b: nat)
    requires a <= b < 64
    ensures AlignPower(AlignPower(addr, a), b) == AlignPower(addr, b)
  {
    Pow2Monotone(a, b);
    LeastMultiple(addr, a, addr);
    LeastMultiple(addr, b, addr);
    if Fits(addr, b) {
      NestedFits(addr, a, b);
    } else {
      ZeroExactly(AlignPower(addr, a), b);
    }
  }

  lemma NestedFits(addr: Vma, a: nat, b: nat)
    requires a <= b < 64 && Fits(addr, a) && Fits(addr, b)
    ensures AlignPower(AlignPower(addr, a), b) == AlignPower(addr, b)
  {
    var x, y := AlignPower(addr, a), AlignPower(addr, b);
    LeastMultiple(addr, b, y);
    CoarserMultiple(y, a, b);
    LeastMultiple(addr, a, y);
    MultipleFits(y, b);
    LeastMultiple(x, b, y);
    LeastMultiple(addr, b, AlignPower(x, b));
  }
}
