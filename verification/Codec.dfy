/** The number/string conversions of Software/main.c, in its machine arithmetic. */
module Codec {
  import opened Bits
  import opened TextFiles

  const TWO_TO_31: int := 0x8000_0000
  const TWO_TO_32: int := 0x1_0000_0000
  const TWO_TO_64: int := 0x1_0000_0000_0000_0000

  /** Conversion of a `uint64_t` to `int`: the low 32 bits, as two's complement. */
  function ToInt(v: nat): int {
    var low := v % TWO_TO_32;
    if low < TWO_TO_31 then low else low - TWO_TO_32
  }

  /** `abs`; the one `int` without a positive counterpart is left as it is. */
  function Abs(i: int): int {
    if i < 0 && i != -TWO_TO_31 then -i else i
  }

  /** The last `w` characters. */
  function Low(s: string, w: nat): string {
    if |s| <= w then s else s[|s| - w..]
  }

  /** What `dec_2_int` makes of a string: characters of weight up to 2^30 count in full, one of
      weight 2^31 is sign-extended to 64 bits, anything above is lost. */
  function Parsed(s: string): (r: nat)
    ensures r < TWO_TO_64
  {
    Pow2Constants();
    Pow2Monotone(|Low(s, 31)|, 31);
    Value(Low(s, 31)) + (if |s| >= 32 && s[|s| - 32] == '1' then TWO_TO_64 - TWO_TO_31 else 0)
  }

  lemma Pow2Wraps(k: nat)
    requires k >= 32
    ensures Pow2(k) % TWO_TO_32 == 0
    ensures k >= 64 ==> Pow2(k) % TWO_TO_64 == 0
  {
    assert Pow2(32) == TWO_TO_32 && Pow2(64) == TWO_TO_64 by {
      Pow2Constants();
      Pow2Add(32, 32);
    }
    Pow2Add(32, k - 32);
    QuotientUnique(Pow2(k), TWO_TO_32, Pow2(k - 32), 0);
    if k >= 64 {
      Pow2Add(64, k - 64);
      QuotientUnique(Pow2(k), TWO_TO_64, Pow2(k - 64), 0);
    }
  }

  /** What a '1' of weight 2^k adds to the 64-bit sum. */
  function Contribution(k: nat): int {
    Abs(ToInt(Pow2(k) % TWO_TO_64))
  }

  lemma SmallToInt(v: nat)
    requires v <= TWO_TO_31
    ensures Abs(ToInt(v % TWO_TO_64)) == if v < TWO_TO_31 then v else -TWO_TO_31
  {
    assert v % TWO_TO_64 == v && v % TWO_TO_32 == v;
  }

  lemma ContributionClosedForm(k: nat)
    ensures Contribution(k) == if k <= 30 then Pow2(k) else if k == 31 then -TWO_TO_31 else 0
  {
    if k <= 31 {
      assert Pow2(31) == TWO_TO_31 by { Pow2Constants(); }
      Pow2Monotone(k, 31);
      if k <= 30 {
        Pow2Monotone(k + 1, 31);
      }
      SmallToInt(Pow2(k));
    } else {
      Pow2Wraps(k);
      RemainderOfRemainder(Pow2(k));
    }
  }

  /** One more character on the left. */
  lemma ParsedStep(c: char, s: string)
    ensures c != '1' ==> Parsed([c] + s) == Parsed(s)
    ensures c == '1' ==> Parsed([c] + s) == (Parsed(s) + Contribution(|s|)) % TWO_TO_64
  {
    var p, q := Parsed(s), Parsed([c] + s);
    if |s| <= 30 {
      ParsedStepLow(c, s);
    } else {
      ParsedStepHigh(c, s);
    }
    if c == '1' {
      ContributionClosedForm(|s|);
      WrapStep(p, q, Contribution(|s|));
    }
  }

  lemma WrapStep(p: nat, q: nat, d: int)
    requires p < TWO_TO_64 && q < TWO_TO_64 && -TWO_TO_64 <= d
    ensures (p + d) % TWO_TO_64 == q <== q == p + d || q == p + d + TWO_TO_64
  {
  }

  lemma ParsedStepLow(c: char, s: string)
    requires |s| <= 30
    ensures Parsed([c] + s) == Parsed(s) + Weight(c) * Pow2(|s|)
  {
    ValueCons(c, s);
  }

  lemma ParsedStepHigh(c: char, s: string)
    requires |s| >= 31
    ensures Parsed([c] + s) == Parsed(s) + if c == '1' && |s| == 31 then TWO_TO_64 - TWO_TO_31 else 0
    ensures |s| == 31 ==> Parsed(s) < TWO_TO_31
  {
    var t := [c] + s;
    assert Low(t, 31) == Low(s, 31);
    assert t[|t| - 32] == if |s| == 31 then c else s[|s| - 32];
    Pow2Constants();
  }

  lemma RemainderOfRemainder(v: nat)
    ensures v % TWO_TO_64 % TWO_TO_32 == v % TWO_TO_32
  {
  }

  lemma DoubleModulo(v: nat)
    ensures v % TWO_TO_64 * 2 % TWO_TO_64 == 2 * v % TWO_TO_64
  {
    var q, r := v / TWO_TO_64, v % TWO_TO_64;
    if 2 * r < TWO_TO_64 {
      QuotientUnique(2 * v, TWO_TO_64, 2 * q, 2 * r);
      QuotientUnique(2 * r, TWO_TO_64, 0, 2 * r);
    } else {
      QuotientUnique(2 * v, TWO_TO_64, 2 * q + 1, 2 * r - TWO_TO_64);
      QuotientUnique(2 * r, TWO_TO_64, 1, 2 * r - TWO_TO_64);
    }
  }

  /** `dec_2_int`, in wrapping 64-bit arithmetic. */
  method Dec2Int(inputDec: string) returns (sum: nat)
    ensures sum == Parsed(inputDec)
  {
    sum := 0;
    var length := |inputDec|;
    assert inputDec[length..] == [];
    for k := 1 to length + 1
      invariant sum == Parsed(inputDec[length - (k - 1)..])
    {
      ghost var rest := inputDec[length - (k - 1)..];
      assert inputDec[length - k..] == [inputDec[length - k]] + rest;
      ParsedStep(inputDec[length - k], rest);
      if inputDec[length - k] == '1' {
        var powV := 1;
        for y := 0 to k - 1
          invariant powV == Pow2(y) % TWO_TO_64
        {
          DoubleModulo(Pow2(y));
          powV := powV * 2 % TWO_TO_64;
        }
        assert Abs(ToInt(powV)) == Contribution(|rest|);
        sum := (sum + Abs(ToInt(powV))) % TWO_TO_64;
      }
    }
    assert inputDec[0..] == inputDec;
  }

  /** The 32 characters of `n` in two's complement, most significant first. */
  function Binary32(n: int): (s: string)
    ensures |s| == 32
  {
    Reverse(LsbFirst(n, 32))
  }

  /** `decimal_to_binary`: a fresh buffer of 32 characters and a terminator. */
  method DecimalToBinary(n: int) returns (pointer: array<char>)
    requires -TWO_TO_31 <= n < TWO_TO_31
    ensures fresh(pointer) && pointer.Length == 33
    ensures pointer[..] == Binary32(n) + [NUL]
  {
    pointer := new char[33];
    var count := 0;
    var c := 31;
    while c >= 0
      invariant -1 <= c <= 31 && count == 31 - c
      invariant forall i :: 0 <= i < count ==> pointer[i] == Binary32(n)[i]
    {
      var d := n / Pow2(c);
      if d % 2 == 1 {
        pointer[count] := '1';
      } else {
        pointer[count] := '0';
      }
      count := count + 1;
      c := c - 1;
    }
    pointer[count] := NUL;
  }

  /** `dec_2_int` undoes `decimal_to_binary` on every 32-bit `int`: exactly for n >= 0, and as the
      64-bit two's complement of `n` for n < 0. */
  lemma ParseInvertsPrint(n: int)
    requires -TWO_TO_31 <= n < TWO_TO_31
    ensures Parsed(Binary32(n)) == n % TWO_TO_64
    ensures ToInt(Parsed(Binary32(n))) == n
  {
    LowOfBinary(n);
    SignBit(n);
    assert Binary32(n)[0] == Digit(n < 0);
    Remainders(n);
  }

  lemma SignBit(n: int)
    requires -TWO_TO_31 <= n < TWO_TO_31
    ensures Bit(n, 31) == (n < 0)
  {
    Pow2Constants();
    assert n / TWO_TO_31 == if n < 0 then -1 else 0;
  }

  lemma Remainders(n: int)
    requires -TWO_TO_31 <= n < TWO_TO_31
    ensures var low := n % TWO_TO_31 + if n < 0 then TWO_TO_64 - TWO_TO_31 else 0;
            low == n % TWO_TO_64 && (low < TWO_TO_64 ==> ToInt(low) == n)
  {
    assert n % TWO_TO_31 == if n < 0 then n + TWO_TO_31 else n;
    assert n % TWO_TO_64 == if n < 0 then n + TWO_TO_64 else n;
    assert n < 0 ==> (n + TWO_TO_64) % TWO_TO_32 == n + TWO_TO_32;
  }

  lemma LowOfBinary(n: int)
    ensures Value(Low(Binary32(n), 31)) == n % TWO_TO_31
  {
    var m := n % Pow2(31);
    LowBits(n, 31);
    assert Low(Binary32(n), 31) == Reverse(LsbFirst(n, 31));
    LsbFirstValue(m, 31);
    RemainderTwice(n, Pow2(31));
    Pow2Constants();
  }

  lemma LowBits(n: int, w: nat)
    ensures LsbFirst(n, w) == LsbFirst(n % Pow2(w), w)
  {
    forall k | 0 <= k < w
      ensures Bit(n, k) == Bit(n % Pow2(w), k)
    {
      BitOfRemainder(n, w, k);
    }
  }

  lemma RemainderTwice(n: int, d: nat)
    requires d > 0
    ensures n % d % d == n % d
  {
    QuotientUnique(n % d, d, 0, n % d);
  }

  /** Reading the least-significant-first characters of a number backwards gives its low bits. */
  lemma ParseInvertsLsbFirst(n: nat, w: nat)
    requires w <= 31
    ensures Parsed(Reverse(LsbFirst(n, w))) == n % Pow2(w)
  {
    LsbFirstValue(n, w);
  }

  /** No '1' of weight 2^31 or more. */
  predicate FitsInt(s: string) {
    forall i :: 0 <= i < |s| - 31 ==> s[i] != '1'
  }

  /** The characters of weight 2^31 to 2^63 are all '1', and none above is. */
  predicate SignExtended(s: string) {
    && |s| >= 64
    && (forall i :: |s| - 64 <= i < |s| - 31 ==> s[i] == '1')
    && (forall i :: 0 <= i < |s| - 64 ==> s[i] != '1')
  }

  /** `dec_2_int` returns the positional value of a string exactly when the value fits a
      non-negative `int`, or is the 64-bit sign extension of a negative one. */
  lemma ParsedIsValueExactly(s: string)
    ensures Parsed(s) == Value(s) <==> FitsInt(s) || SignExtended(s)
  {
    if |s| > 31 {
      var hi, lo := s[..|s| - 31], s[|s| - 31..];
      assert s == hi + lo && lo == Low(s, 31);
      SplitValue(hi, lo);
      ValueZero(hi);
      ValueAllOnes(hi, 33);
      assert Pow2(33) == 0x2_0000_0000 by { Pow2Constants(); }
      HighPart(s, hi);
    }
  }

  /** A concrete case: a '1' followed by 31 zeros denotes 2^31 and is read as 2^64 - 2^31. */
  lemma ValueMissed()
    ensures var s := "1" + seq(31, _ => '0');
            Value(s) == TWO_TO_31 && Parsed(s) == TWO_TO_64 - TWO_TO_31
  {
    var zeros := seq(31, _ => '0');
    ValueZero(zeros);
    ValueCons('1', zeros);
    assert Low("1" + zeros, 31) == zeros;
    Pow2Constants();
  }

  lemma SplitValue(hi: string, lo: string)
    requires hi != [] && |lo| == 31
    ensures Parsed(hi + lo) == Value(hi + lo) <==> Value(hi) == 0 || Value(hi) == 0x1_FFFF_FFFF
  {
    ParsedParts(hi, lo);
    ValueAppend(hi, lo);
    assert Pow2(31) == TWO_TO_31 by { Pow2Constants(); }
    LastWeight(hi);
    ScaledEqual(Weight(hi[|hi| - 1]), Value(hi));
  }

  lemma ParsedParts(hi: string, lo: string)
    requires hi != [] && |lo| == 31
    ensures Parsed(hi + lo) == Value(lo) + Weight(hi[|hi| - 1]) * (TWO_TO_64 - TWO_TO_31)
  {
    var s := hi + lo;
    assert Low(s, 31) == lo && s[|s| - 32] == hi[|hi| - 1];
  }

  lemma LastWeight(s: string)
    requires s != []
    ensures Value(s) % 2 == Weight(s[|s| - 1]) <= 1
  {
    QuotientUnique(Value(s), 2, Value(s[..|s| - 1]), Weight(s[|s| - 1]));
  }

  lemma ScaledEqual(b: nat, v: nat)
    requires b <= 1 && v % 2 == b
    ensures b * (TWO_TO_64 - TWO_TO_31) == v * TWO_TO_31 <==> v == 0 || v == 0x1_FFFF_FFFF
  {
  }

  lemma HighPart(s: string, hi: string)
    requires |s| > 31 && hi == s[..|s| - 31]
    ensures FitsInt(s) <==> forall i :: 0 <= i < |hi| ==> hi[i] != '1'
    ensures SignExtended(s) <==> && |hi| >= 33
                                 && (forall i :: |hi| - 33 <= i < |hi| ==> hi[i] == '1')
                                 && forall i :: 0 <= i < |hi| - 33 ==> hi[i] != '1'
  {
    assert forall i :: 0 <= i < |hi| ==> hi[i] == s[i];
  }

  lemma {:induction false} ValueZero(s: string)
    ensures Value(s) == 0 <==> forall i :: 0 <= i < |s| ==> s[i] != '1'
  {
    if s != [] {
      ValueZero(s[..|s| - 1]);
      assert Value(s) == 0 ==> forall i :: 0 <= i < |s| ==> i < |s| - 1 || s[i] != '1';
      assert forall i :: 0 <= i < |s| - 1 ==> s[i] == s[..|s| - 1][i];
    }
  }

  lemma {:induction false} ValueAllOnes(s: string, w: nat)
    ensures Value(s) == Pow2(w) - 1 <==>
            |s| >= w && (forall i :: |s| - w <= i < |s| ==> s[i] == '1')
            && forall i :: 0 <= i < |s| - w ==> s[i] != '1'
  {
    if w == 0 {
      ValueZero(s);
    } else if s != [] {
      var s' := s[..|s| - 1];
      ValueAllOnes(s', w - 1);
      assert Value(s) == Pow2(w) - 1 <==> s[|s| - 1] == '1' && Value(s') == Pow2(w - 1) - 1;
      assert forall i :: 0 <= i < |s'| ==> s'[i] == s[i];
    }
  }
}
