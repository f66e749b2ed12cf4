/** The D-metric of "Python Script/d_metric.py": from the result lists of a campaign to one number.
    Decimal numbers are exact reals. */
module DMetric {
  import opened Bits

  datatype Error = IndexError | NameError
  datatype Result<+T> = Success(value: T) | Failure(error: Error)

  /** The result lists; index 0 of the test lists stays empty, the golden run has its own. */
  datatype Results = Results(golden1: seq<string>, golden2: seq<string>,
                             test1: seq<seq<string>>, test2: seq<seq<string>>)
  {
    /** The two designs' lists were filled together, for `cases` configurations. */
    predicate Paired(cases: nat) {
      && |golden1| == |golden2| && |test1| == |test2| == cases
      && forall k :: 0 <= k < cases ==> |test1[k]| == |test2[k]|
    }

    /** There is a result for every test the metric looks at. */
    predicate Complete(cases: nat, inputs: nat) {
      && Paired(cases) && (cases > 1 ==> |golden1| >= inputs)
      && forall k :: 1 <= k < cases ==> |test1[k]| >= inputs
    }

    /** Both designs deviate from golden runs that agree with each other. */
    predicate Joint(cases: nat, k: nat, j: nat)
      requires Complete(cases, j + 1) && 1 <= k < cases
    {
      test1[k][j] != golden1[j] && test2[k][j] != golden2[j] && golden1[j] == golden2[j]
    }

    function Flags(cases: nat, inputs: nat, k: nat): (s: seq<bool>)
      requires Complete(cases, inputs) && 1 <= k < cases
      ensures |s| == inputs
    {
      seq(inputs, j requires 0 <= j < inputs => Joint(cases, k, j))
    }

    /** How many inputs detect each non-golden configuration in both designs at once. */
    function Hits(cases: nat, inputs: nat): (h: seq<nat>)
      requires Complete(cases, inputs)
      ensures |h| == if cases == 0 then 0 else cases - 1
    {
      seq(if cases == 0 then 0 else cases - 1, k requires 0 <= k < cases - 1 => CountTrue(Flags(cases, inputs, k + 1)))
    }
  }

  function CountTrue(s: seq<bool>): (n: nat)
    ensures n <= |s|
  {
    if s == [] then 0 else CountTrue(s[..|s| - 1]) + if s[|s| - 1] then 1 else 0
  }

  /** The number of configurations without a joint detection. */
  function Zeros(hits: seq<nat>): (n: nat)
    ensures n <= |hits|
  {
    if hits == [] then 0 else Zeros(hits[..|hits| - 1]) + if hits[|hits| - 1] == 0 then 1 else 0
  }

  /** The number the script prints: with z configurations never jointly detected out of N - 1, and
      at least one detected, (z + 1 - 2^-n) / (N - 1). The script stops with an error when no
      configuration is detected. */
  function Metric(hits: seq<nat>, n: nat): Result<real> {
    if Zeros(hits) == |hits| then Failure(NameError)
    else Success((Zeros(hits) as real + 1.0 - 1.0 / Pow2(n) as real) / |hits| as real)
  }

  /** A row of the joint-detectability matrix. */
  function Row(hits: nat): seq<int> {
    seq(hits, i => i + 1)
  }

  lemma RowStep(hits: nat)
    ensures Row(hits) + [hits + 1] == Row(hits + 1)
  {
  }

  /** The matrix: row k is exactly 1, 2, ..., hits(k). */
  method Matrix(r: Results, cases: nat, inputs: nat) returns (m: Result<seq<seq<int>>>)
    requires r.Paired(cases)
    ensures m.Success? <==> r.Complete(cases, inputs)
    ensures m.Failure? ==> m.error == IndexError
    ensures m.Success? ==>
              |m.value| == cases && forall k :: 1 <= k < cases ==> m.value[k] == Row(r.Hits(cases, inputs)[k - 1])
  {
    var matrix: seq<seq<int>> := seq(cases, _ => []);
    var k := 1;
    while k < cases
      invariant 1 <= k && (k == 1 || k <= cases) && |matrix| == cases
      invariant forall i :: 1 <= i < k ==> |r.test1[i]| >= inputs
      invariant k > 1 ==> |r.golden1| >= inputs
      invariant r.Complete(cases, inputs) ==> forall i :: 1 <= i < k ==> matrix[i] == Row(r.Hits(cases, inputs)[i - 1])
      invariant forall i :: k <= i < cases ==> matrix[i] == []
    {
      var count := 0;
      for j := 0 to inputs
        invariant |matrix| == cases && j <= |r.test1[k]| && j <= |r.golden1|
        invariant forall i :: k < i < cases ==> matrix[i] == []
        invariant r.Complete(cases, inputs) ==>
                    forall i :: 1 <= i < k ==> matrix[i] == Row(r.Hits(cases, inputs)[i - 1])
        invariant r.Complete(cases, inputs) ==> count == CountTrue(r.Flags(cases, inputs, k)[..j])
        invariant count >= 0 && matrix[k] == Row(count)
      {
        if j >= |r.test1[k]| || j >= |r.golden1| {
          return Failure(IndexError);
        }
        ghost var before := count;
        if r.test1[k][j] != r.golden1[j] && r.test2[k][j] != r.golden2[j] {
          if r.golden1[j] == r.golden2[j] {
            RowStep(count);
            count := count + 1;
            matrix := matrix[k := matrix[k] + [count]];
          }
        }
        if r.Complete(cases, inputs) {
          ghost var flags := r.Flags(cases, inputs, k);
          assert flags[..j + 1][..j] == flags[..j];
          assert flags[j] == r.Joint(cases, k, j);
        }
      }
      if r.Complete(cases, inputs) {
        ghost var flags := r.Flags(cases, inputs, k);
        assert flags[..inputs] == flags;
      }
      k := k + 1;
    }
    return Success(matrix);
  }

  /** The reduction of a matrix of such rows. The script takes the first entry of the last non-empty
      row, and counts the empty ones. */
  method Reduce(matrix: seq<seq<int>>, ghost hits: seq<nat>, noInputs: nat) returns (d: Result<real>)
    requires |hits| == (if matrix == [] then 0 else |matrix| - 1)
    requires forall k :: 1 <= k < |matrix| ==> matrix[k] == Row(hits[k - 1])
    ensures d == Metric(hits, noInputs)
  {
    var countJD: nat := 0;
    var jointDetect := Failure(NameError);
    var p := Pow2(noInputs) as real;
    var m := 1;
    assert hits[..0] == [];
    while m < |matrix|
      invariant 1 <= m && (m == 1 || m <= |matrix|)
      invariant countJD == Zeros(hits[..m - 1])
      invariant jointDetect == if countJD == m - 1 then Failure(NameError) else Success(1.0 - 1.0 / p)
    {
      ghost var before := hits[..m - 1];
      assert hits[..m][..m - 1] == before && hits[..m][m - 1] == hits[m - 1];
      if matrix[m] == [] {
        countJD := countJD + 1;
      } else {
        assert matrix[m][0] == 1;
        jointDetect := Success(1.0 - matrix[m][0] as real / p);
      }
      m := m + 1;
    }
    assert hits[..m - 1] == hits;
    if jointDetect.Failure? {
      return jointDetect;
    }
    d := Success((jointDetect.value + countJD as real) / (|matrix| - 1) as real);
  }

  /** The whole script, from result lists to number: an `IndexError` exactly when a result is
      missing, a `NameError` exactly when nothing is jointly detected. */
  method DMetric(r: Results, cases: nat, inputs: nat, noInputs: nat) returns (d: Result<real>)
    requires r.Paired(cases)
    ensures d == if r.Complete(cases, inputs) then Metric(r.Hits(cases, inputs), noInputs) else Failure(IndexError)
  {
    var m := Matrix(r, cases, inputs);
    if m.Failure? {
      return Failure(m.error);
    }
    d := Reduce(m.value, r.Hits(cases, inputs), noInputs);
  }

  // ---------------------------------------------------------------- what the number is

  /** The number is never negative and always below 1. */
  lemma Bounds(hits: seq<nat>, n: nat)
    requires Zeros(hits) < |hits|
    ensures Metric(hits, n).Success? && 0.0 <= Metric(hits, n).value < 1.0
  {
    NearOne(Zeros(hits) as real, Pow2(n) as real, |hits| as real);
  }

  lemma NearOne(z: real, p: real, c: real)
    requires 0.0 <= z && p >= 1.0 && z + 1.0 <= c
    ensures 0.0 <= (z + 1.0 - 1.0 / p) / c < 1.0
  {
    assert 0.0 < 1.0 / p <= 1.0;
    Fraction(z + 1.0 - 1.0 / p, c);
  }

  lemma Fraction(a: real, b: real)
    requires 0.0 <= a < b
    ensures 0.0 <= a / b < 1.0
  {
  }

  function Total(hits: seq<nat>): nat {
    if hits == [] then 0 else Total(hits[..|hits| - 1]) + hits[|hits| - 1]
  }

  /** What the D-metric is meant to be: the mean over all configurations of the fraction of inputs
      that do not detect the configuration jointly. */
  function Mean(hits: seq<nat>, n: nat): real
    requires hits != []
  {
    SumOf(hits, n) / |hits| as real
  }

  function SumOf(hits: seq<nat>, n: nat): real {
    if hits == [] then 0.0
    else SumOf(hits[..|hits| - 1], n) + (1.0 - hits[|hits| - 1] as real / Pow2(n) as real)
  }

  lemma {:induction false} SumClosedForm(hits: seq<nat>, n: nat)
    ensures SumOf(hits, n) == |hits| as real - Total(hits) as real / Pow2(n) as real
  {
    if hits != [] {
      var init, last := hits[..|hits| - 1], hits[|hits| - 1];
      SumClosedForm(init, n);
      SplitFraction(Total(init) as real, last as real, Pow2(n) as real);
    }
  }

  lemma SplitFraction(a: real, b: real, d: real)
    requires d > 0.0
    ensures a / d + b / d == (a + b) / d
  {
  }

  lemma MeanClosedForm(hits: seq<nat>, n: nat)
    requires hits != []
    ensures Mean(hits, n) == (|hits| as real - Total(hits) as real / Pow2(n) as real) / |hits| as real
  {
    SumClosedForm(hits, n);
  }

  /** How much too large the number is with z of `all` configurations never jointly detected, `total`
      joint detections and p = 2^n: ((total - 1) / p - (all - z - 1)) / all. */
  function Excess(z: real, all: real, total: real, p: real): real
    requires all > 0.0 && p > 0.0
  {
    ((total - 1.0) / p - (all - z - 1.0)) / all
  }

  /** The number differs from that mean by an exact amount. */
  lemma DistanceFromMean(hits: seq<nat>, n: nat)
    requires Zeros(hits) < |hits|
    ensures Metric(hits, n).value - Mean(hits, n) ==
            Excess(Zeros(hits) as real, |hits| as real, Total(hits) as real, Pow2(n) as real)
  {
    MeanClosedForm(hits, n);
    Difference(Metric(hits, n).value, Mean(hits, n),
               Zeros(hits) as real, |hits| as real, Total(hits) as real, Pow2(n) as real);
  }

  lemma Difference(metric: real, mean: real, z: real, all: real, total: real, p: real)
    requires all > 0.0 && p > 0.0
    requires metric == (z + 1.0 - 1.0 / p) / all && mean == (all - total / p) / all
    ensures metric - mean == Excess(z, all, total, p)
  {
    Gap(z, all, total, p);
  }

  /** The two agree exactly when H - 1 == 2^n * (c - 1); for a single detected configuration, when
      exactly one input detects it. */
  lemma MeanExactly(hits: seq<nat>, n: nat)
    requires Zeros(hits) < |hits|
    ensures Metric(hits, n).value == Mean(hits, n) <==> Total(hits) - 1 == Pow2(n) * (|hits| - Zeros(hits) - 1)
  {
    MeanClosedForm(hits, n);
    IntegerGap(Zeros(hits), |hits|, Total(hits), Pow2(n));
  }

  lemma IntegerGap(z: nat, all: nat, total: nat, p: nat)
    requires all > 0 && p > 0
    ensures (z as real + 1.0 - 1.0 / p as real) / all as real == (all as real - total as real / p as real) / all as real
            <==> total - 1 == p * (all - z - 1)
  {
    Gap(z as real, all as real, total as real, p as real);
    var q := all - z - 1;
    RealProduct(p, q);
    SameInt(total - 1, p * q);
  }

  lemma SameInt(a: int, b: int)
    ensures a as real == b as real <==> a == b
  {
  }

  lemma Gap(z: real, all: real, total: real, p: real)
    requires all > 0.0 && p > 0.0
    ensures (z + 1.0 - 1.0 / p) / all - (all - total / p) / all == ((total - 1.0) / p - (all - z - 1.0)) / all
    ensures (z + 1.0 - 1.0 / p) / all == (all - total / p) / all <==> total - 1.0 == p * (all - z - 1.0)
  {
    var a, b := z + 1.0 - 1.0 / p, all - total / p;
    DifferenceOverSame(a, b, all);
    DifferenceOverSame(total, 1.0, p);
    var x, y := (total - 1.0) / p, all - z - 1.0;
    assert a - b == x - y;
    assert total - 1.0 == p * x;
    SameFactor(p, x, y);
  }

  lemma SameFactor(p: real, x: real, y: real)
    requires p > 0.0
    ensures p * x == p * y <==> x == y
  {
    if p * x == p * y {
      assert p * (x - y) == 0.0;
    }
  }

  lemma DifferenceOverSame(a: real, b: real, d: real)
    requires d > 0.0
    ensures a / d - b / d == (a - b) / d
    ensures a / d == b / d <==> a == b
  {
  }

  lemma RealProduct(p: nat, q: int)
    ensures (p * q) as real == p as real * q as real
  {
  }

  lemma CountFour(a: bool, b: bool, c: bool, d: bool)
    ensures CountTrue([a, b, c, d]) ==
            (if a then 1 else 0) + (if b then 1 else 0) + (if c then 1 else 0) + if d then 1 else 0
  {
    assert [a, b, c, d][..3] == [a, b, c] && [a, b, c][..2] == [a, b];
    assert [a, b][..1] == [a] && [a][..0] == [];
    assert CountTrue([a, b]) == (if a then 1 else 0) + if b then 1 else 0;
  }

  lemma OneAndTwo()
    ensures Metric([1, 2], 2).Success? && Metric([1, 2], 2).value != Mean([1, 2], 2)
  {
    var h: seq<nat> := [1, 2];
    assert h[..1] == [1] && h[..1][..0] == [];
    assert Zeros(h) == 0 && Total(h) == 3;
    MeanExactly(h, 2);
  }

  /** Results of a campaign with four stimuli: the first configuration is detected by one of them,
      the second by two. */
  const EXAMPLE: Results :=
    Results(["0", "0", "0", "0"], ["0", "0", "0", "0"],
            [[], ["1", "0", "0", "0"], ["1", "1", "0", "0"]],
            [[], ["1", "0", "0", "0"], ["1", "1", "0", "0"]])

  lemma ExampleFlags()
    ensures EXAMPLE.Complete(3, 4)
    ensures EXAMPLE.Flags(3, 4, 1) == [true, false, false, false]
    ensures EXAMPLE.Flags(3, 4, 2) == [true, true, false, false]
  {
    assert "1" != "0" by {
      assert "1"[0] != "0"[0];
    }
  }

  /** A concrete case in which the script's number is not the mean. */
  lemma MeanMissed()
    ensures EXAMPLE.Complete(3, 4) && EXAMPLE.Hits(3, 4) == [1, 2]
    ensures Metric(EXAMPLE.Hits(3, 4), 2).Success?
    ensures Metric(EXAMPLE.Hits(3, 4), 2).value != Mean(EXAMPLE.Hits(3, 4), 2)
  {
    ExampleFlags();
    CountFour(true, false, false, false);
    CountFour(true, true, false, false);
    assert EXAMPLE.Hits(3, 4) == [1, 2];
    OneAndTwo();
  }

  // ---------------------------------------------------------------- what the number does not depend on

  /** The results with the two designs exchanged throughout. */
  function Swapped(r: Results): Results {
    Results(r.golden2, r.golden1, r.test2, r.test1)
  }

  lemma SwapDesigns(r: Results, cases: nat, inputs: nat)
    requires r.Complete(cases, inputs)
    ensures Swapped(r).Complete(cases, inputs) && Swapped(r).Hits(cases, inputs) == r.Hits(cases, inputs)
  {
    forall k | 1 <= k < cases
      ensures Swapped(r).Flags(cases, inputs, k) == r.Flags(cases, inputs, k)
    {
    }
  }

  function Range(n: nat): (s: seq<nat>)
    ensures |s| == n && forall i :: 0 <= i < n ==> s[i] == i
  {
    seq(n, i requires 0 <= i < n => i)
  }

  /** `p` lists the numbers below `n` in some order. */
  ghost predicate Permutation(p: seq<nat>, n: nat) {
    multiset(p) == multiset(Range(n))
  }

  lemma PermutationRange(p: seq<nat>, n: nat)
    requires Permutation(p, n)
    ensures |p| == n && forall i :: 0 <= i < |p| ==> p[i] < n
  {
    assert |multiset(p)| == |p| && |multiset(Range(n))| == n;
    forall i | 0 <= i < |p|
      ensures p[i] < n
    {
      assert p[i] in multiset(p);
      assert p[i] in Range(n);
    }
  }

  /** The elements of `s` at the given indices. */
  function Pick<T>(s: seq<T>, p: seq<nat>): (r: seq<T>)
    requires forall i :: 0 <= i < |p| ==> p[i] < |s|
    ensures |r| == |p| && forall i :: 0 <= i < |p| ==> r[i] == s[p[i]]
  {
    seq(|p|, i requires 0 <= i < |p| => s[p[i]])
  }

  function Without<T>(s: seq<T>, i: nat): seq<T>
    requires i < |s|
  {
    s[..i] + s[i + 1..]
  }

  lemma WithoutMultiset<T>(s: seq<T>, i: nat)
    requires i < |s|
    ensures multiset(s) == multiset(Without(s, i)) + multiset{s[i]}
  {
    assert s == s[..i] + [s[i]] + s[i + 1..];
  }

  lemma SameWithout<T>(p: multiset<T>, q: multiset<T>, x: T)
    requires p + multiset{x} == q + multiset{x}
    ensures p == q
  {
    assert p == p + multiset{x} - multiset{x};
    assert q == q + multiset{x} - multiset{x};
  }

  /** Picking in another order picks the same elements. */
  lemma {:induction false} PickSame<T>(s: seq<T>, p: seq<nat>, q: seq<nat>)
    requires multiset(p) == multiset(q)
    requires forall i :: 0 <= i < |p| ==> p[i] < |s|
    requires forall i :: 0 <= i < |q| ==> q[i] < |s|
    ensures multiset(Pick(s, p)) == multiset(Pick(s, q))
    decreases |p|
  {
    SameLength(p, q);
    if p != [] {
      assert p[0] in multiset(q);
      var i :| 0 <= i < |q| && q[i] == p[0];
      SameRest(p, q, i);
      PickSame(s, Without(p, 0), Without(q, i));
      PickWithout(s, p, 0);
      PickWithout(s, q, i);
    }
  }

  lemma SameLength<T>(p: seq<T>, q: seq<T>)
    requires multiset(p) == multiset(q)
    ensures |p| == |q|
  {
    assert |multiset(p)| == |p| && |multiset(q)| == |q|;
  }

  lemma SameRest<T>(p: seq<T>, q: seq<T>, i: nat)
    requires multiset(p) == multiset(q) && p != [] && i < |q| && q[i] == p[0]
    ensures multiset(Without(p, 0)) == multiset(Without(q, i))
  {
    WithoutMultiset(p, 0);
    WithoutMultiset(q, i);
    SameWithout(multiset(Without(p, 0)), multiset(Without(q, i)), p[0]);
  }

  lemma PickWithout<T>(s: seq<T>, p: seq<nat>, i: nat)
    requires (forall k :: 0 <= k < |p| ==> p[k] < |s|) && i < |p|
    ensures forall k :: 0 <= k < |Without(p, i)| ==> Without(p, i)[k] < |s|
    ensures multiset(Pick(s, p)) == multiset(Pick(s, Without(p, i))) + multiset{s[p[i]]}
  {
    assert Pick(s, Without(p, i)) == Without(Pick(s, p), i);
    WithoutMultiset(Pick(s, p), i);
  }

  lemma PickPermutes<T>(s: seq<T>, p: seq<nat>)
    requires Permutation(p, |s|)
    ensures |p| == |s| && forall i :: 0 <= i < |p| ==> p[i] < |s|
    ensures multiset(Pick(s, p)) == multiset(s)
  {
    PermutationRange(p, |s|);
    PickSame(s, p, Range(|s|));
    assert Pick(s, Range(|s|)) == s;
  }

  lemma {:induction false} CountTrueIsMultiplicity(s: seq<bool>)
    ensures CountTrue(s) == multiset(s)[true]
  {
    if s != [] {
      CountTrueIsMultiplicity(s[..|s| - 1]);
      assert s == s[..|s| - 1] + [s[|s| - 1]];
    }
  }

  lemma {:induction false} ZerosIsMultiplicity(hits: seq<nat>)
    ensures Zeros(hits) == multiset(hits)[0]
  {
    if hits != [] {
      ZerosIsMultiplicity(hits[..|hits| - 1]);
      assert hits == hits[..|hits| - 1] + [hits[|hits| - 1]];
    }
  }

  /** The number does not change when the inputs are applied in another order throughout. */
  lemma PermuteInputs(r: Results, r': Results, cases: nat, inputs: nat, p: seq<nat>)
    requires r.Complete(cases, inputs) && cases > 1 && Permutation(p, inputs)
    requires r'.Paired(cases) && |p| == inputs && forall i :: 0 <= i < |p| ==> p[i] < inputs
    requires r'.golden1 == Pick(r.golden1, p) && r'.golden2 == Pick(r.golden2, p)
    requires forall k :: 1 <= k < cases ==> r'.test1[k] == Pick(r.test1[k], p) && r'.test2[k] == Pick(r.test2[k], p)
    ensures r'.Complete(cases, inputs) && r'.Hits(cases, inputs) == r.Hits(cases, inputs)
  {
    forall k | 1 <= k < cases
      ensures CountTrue(r'.Flags(cases, inputs, k)) == CountTrue(r.Flags(cases, inputs, k))
    {
      var flags, flags' := r.Flags(cases, inputs, k), r'.Flags(cases, inputs, k);
      assert flags' == Pick(flags, p);
      PickPermutes(flags, p);
      CountTrueIsMultiplicity(flags);
      CountTrueIsMultiplicity(flags');
    }
  }

  /** Nor when the non-golden configurations are run in another order. */
  lemma PermuteConfigurations(r: Results, r': Results, cases: nat, inputs: nat, p: seq<nat>, n: nat)
    requires r.Complete(cases, inputs) && cases > 1 && Permutation(p, cases - 1)
    requires r'.Paired(cases) && |p| == cases - 1 && forall i :: 0 <= i < |p| ==> p[i] < cases - 1
    requires r'.golden1 == r.golden1 && r'.golden2 == r.golden2
    requires forall k :: 1 <= k < cases ==> r'.test1[k] == r.test1[p[k - 1] + 1] && r'.test2[k] == r.test2[p[k - 1] + 1]
    ensures r'.Complete(cases, inputs)
    ensures Metric(r'.Hits(cases, inputs), n) == Metric(r.Hits(cases, inputs), n)
  {
    var hits, hits' := r.Hits(cases, inputs), r'.Hits(cases, inputs);
    forall k | 0 <= k < cases - 1
      ensures hits'[k] == hits[p[k]]
    {
      MovedFlags(r, r', cases, inputs, k + 1, p[k] + 1);
    }
    SameMetric(hits, hits', p, n);
  }

  lemma SameMetric(hits: seq<nat>, hits': seq<nat>, p: seq<nat>, n: nat)
    requires Permutation(p, |hits|) && |hits'| == |p| == |hits|
    requires forall k :: 0 <= k < |p| ==> p[k] < |hits| && hits'[k] == hits[p[k]]
    ensures Metric(hits', n) == Metric(hits, n)
  {
    assert hits' == Pick(hits, p);
    ZerosOfPick(hits, p);
  }

  lemma MovedFlags(r: Results, r': Results, cases: nat, inputs: nat, k: nat, k': nat)
    requires r.Complete(cases, inputs) && r'.Complete(cases, inputs) && 1 <= k < cases && 1 <= k' < cases
    requires r'.golden1 == r.golden1 && r'.golden2 == r.golden2
    requires r'.test1[k] == r.test1[k'] && r'.test2[k] == r.test2[k']
    ensures r'.Flags(cases, inputs, k) == r.Flags(cases, inputs, k')
  {
  }

  lemma ZerosOfPick(hits: seq<nat>, p: seq<nat>)
    requires Permutation(p, |hits|)
    ensures |p| == |hits| && (forall i :: 0 <= i < |p| ==> p[i] < |hits|) && Zeros(Pick(hits, p)) == Zeros(hits)
  {
    PickPermutes(hits, p);
    ZerosIsMultiplicity(hits);
    ZerosIsMultiplicity(Pick(hits, p));
  }
}
