/** The multi-threshold sweep schedule of multibeta: with n factors and the
    ratio at 2^-k, the index is round(n / 2^k); the sweep stops after the first
    zero index. Beta is the literal 1 when the index is past the end of the
    descending factor list, otherwise the factor at that index. */
module Schedule {
  import opened Rounding
  import opened Sorting
  import opened Records

  /** The index used when the ratio has been halved k times. */
  function IndexAt(n: nat, k: nat): nat
  {
    RoundHalfEven(n, Pow2(k))
  }

  /** The indices of the iterations from the k-th on. */
  function IndicesFrom(n: nat, k: nat): (s: seq<nat>)
    ensures |s| >= 1 && s[|s| - 1] == 0
    ensures forall i :: 0 <= i < |s| ==> s[i] == IndexAt(n, k + i)
    ensures forall i :: 0 <= i < |s| - 1 ==> s[i] > 0
    decreases 2 * n - Pow2(k)
  {
    var index := IndexAt(n, k);
    RoundZeroIff(n, Pow2(k));
    if index > 0 then [index] + IndicesFrom(n, k + 1) else [index]
  }

  /** The indices of the whole sweep. */
  function Indices(n: nat): (s: seq<nat>)
    ensures |s| >= 1 && s[0] == n
  {
    IndicesFrom(n, 0)
  }

  /** The indices never grow as the ratio halves. */
  lemma IndicesNonIncreasing(n: nat, k: nat)
    ensures forall i, j :: 0 <= i <= j < |IndicesFrom(n, k)| ==>
              IndicesFrom(n, k)[i] >= IndicesFrom(n, k)[j]
  {
    var s := IndicesFrom(n, k);
    forall i, j | 0 <= i <= j < |s| ensures s[i] >= s[j] {
      assert s[i] == IndexAt(n, k + i) && s[j] == IndexAt(n, (k + i) + (j - i));
      StepDown(n, k + i, j - i);
    }
  }

  /** round(n/2^(k+d)) <= round(n/2^k). */
  lemma {:induction false} StepDown(n: nat, k: nat, d: nat)
    ensures IndexAt(n, k + d) <= IndexAt(n, k)
    decreases d
  {
    if d > 0 {
      StepDown(n, k, d - 1);
      RoundHalving(n, Pow2(k + d - 1));
    }
  }

  /** After the first iteration every index lies inside the factor list, for a
      non-empty list; the first index is the list's length. */
  lemma IndicesInRange(n: nat)
    ensures forall i :: 1 <= i < |Indices(n)| ==> Indices(n)[i] < n
  {
    var s := Indices(n);
    if |s| >= 2 {
      IndicesNonIncreasing(n, 0);
      assert Pow2(1) == 2;
      assert s[1] == RoundHalfEven(n, 2);
      RoundHalfBelow(n);
    }
  }

  /** The sweep runs ceil(log2(2n)) + 1 times: the last ratio is the first with
      2^k >= 2n, and every earlier one had 2^k < 2n. */
  lemma IndicesLength(n: nat)
    ensures 2 * n <= Pow2(|Indices(n)| - 1)
    ensures |Indices(n)| >= 2 ==> Pow2(|Indices(n)| - 2) < 2 * n
    ensures n == 0 <==> |Indices(n)| == 1
  {
    var s := Indices(n);
    assert s[|s| - 1] == IndexAt(n, |s| - 1);
    RoundZeroIff(n, Pow2(|s| - 1));
    if |s| >= 2 {
      assert s[|s| - 2] == IndexAt(n, |s| - 2);
      RoundZeroIff(n, Pow2(|s| - 2));
    }
  }

  /** Beta for one index: the literal 1 past the end of the list, else the factor there. */
  function BetaAt(facs: seq<real>, index: nat): (beta: Num)
    ensures beta == Int(1) || (beta.Float? && beta.x in facs)
  {
    if index >= |facs| then Int(1) else Float(facs[index])
  }

  /** The betas passed to run, in sweep order, for the descending factor list facs. */
  function SweepBetas(facs: seq<real>): (betas: seq<Num>)
    ensures |betas| == |Indices(|facs|)|
  {
    var s := Indices(|facs|);
    seq(|s|, i requires 0 <= i < |s| => BetaAt(facs, s[i]))
  }

  /** The i-th beta is the beta for the i-th index. */
  lemma SweepBetasAt(facs: seq<real>)
    ensures forall i :: 0 <= i < |SweepBetas(facs)| ==>
              SweepBetas(facs)[i] == BetaAt(facs, Indices(|facs|)[i])
  {
  }

  /** One step of the sweep: the k-th run uses the beta for round(n/2^k), and
      another run follows exactly when that index is positive. */
  lemma SweepStep(facs: seq<real>, k: nat)
    requires k < |SweepBetas(facs)|
    ensures SweepBetas(facs)[k] == BetaAt(facs, IndexAt(|facs|, k))
    ensures IndexAt(|facs|, k) > 0 <==> k + 1 < |SweepBetas(facs)|
  {
    SweepBetasAt(facs);
    var s := Indices(|facs|);
    assert s[k] == IndexAt(|facs|, k);
  }

  /** The first run always uses beta = 1; every later run uses a factor of the
      list, read at an index inside it. */
  lemma SweepBetasSource(facs: seq<real>)
    ensures SweepBetas(facs)[0] == Int(1)
    ensures forall i :: 1 <= i < |SweepBetas(facs)| ==>
              Indices(|facs|)[i] < |facs| && SweepBetas(facs)[i] == Float(facs[Indices(|facs|)[i]])
  {
    IndicesInRange(|facs|);
    SweepBetasAt(facs);
  }

  /** Every beta is the literal 1 or an element of the factor list. */
  lemma SweepBetasMembers(facs: seq<real>)
    ensures forall b :: b in SweepBetas(facs) ==> b == Int(1) || (b.Float? && b.x in facs)
  {
    SweepBetasSource(facs);
    var betas := SweepBetas(facs);
    forall b | b in betas ensures b == Int(1) || (b.Float? && b.x in facs) {
      var i :| 0 <= i < |betas| && betas[i] == b;
      if i >= 1 {
        assert facs[Indices(|facs|)[i]] in facs;
      }
    }
  }

  /** With the factors in descending order, the betas after the first never decrease. */
  lemma SweepBetasNonDecreasing(facs: seq<real>)
    requires Descending(facs)
    ensures forall i, j :: 1 <= i <= j < |SweepBetas(facs)| ==>
              SweepBetas(facs)[i].Float? && SweepBetas(facs)[j].Float? &&
              SweepBetas(facs)[i].x <= SweepBetas(facs)[j].x
  {
    SweepBetasSource(facs);
    IndicesNonIncreasing(|facs|, 0);
  }

  /** The sweep ends on facs[0], the largest factor, when there is one; with no
      factors it is the single run with beta = 1. */
  lemma SweepBetasEnd(facs: seq<real>)
    requires Descending(facs)
    ensures |facs| == 0 ==> SweepBetas(facs) == [Int(1)]
    ensures |facs| >= 1 ==> SweepBetas(facs)[|SweepBetas(facs)| - 1] == Float(facs[0])
    ensures |facs| >= 1 ==> forall f :: f in facs ==> f <= facs[0]
  {
    var s := Indices(|facs|);
    SweepBetasAt(facs);
    assert s[|s| - 1] == 0;
    if |facs| == 0 {
      IndicesLength(0);
    }
  }

  /** Three factors: indices 3 (past the end, so beta = 1), 2, 1, 0. */
  lemma IndicesOfThree()
    ensures Indices(3) == [3, 2, 1, 0]
  {
    assert Pow2(1) == 2 && Pow2(2) == 4 && Pow2(3) == 8;
    assert IndexAt(3, 3) == 0 && IndexAt(3, 2) == 1 && IndexAt(3, 1) == 2;
    assert IndicesFrom(3, 3) == [0];
    assert IndicesFrom(3, 2) == [1, 0];
    assert IndicesFrom(3, 1) == [2, 1, 0];
  }

  /** The index need not fall at every step: with five factors round(5/8) =
      round(5/4) = 1, so the sweep runs twice with beta = facs[1]. */
  lemma IndicesOfFive()
    ensures Indices(5) == [5, 2, 1, 1, 0]
  {
    assert Pow2(1) == 2 && Pow2(2) == 4 && Pow2(3) == 8 && Pow2(4) == 16;
    assert IndexAt(5, 4) == 0 && IndexAt(5, 3) == 1 && IndexAt(5, 2) == 1 && IndexAt(5, 1) == 2;
    assert IndicesFrom(5, 4) == [0];
    assert IndicesFrom(5, 3) == [1, 0];
    assert IndicesFrom(5, 2) == [1, 1, 0];
    assert IndicesFrom(5, 1) == [2, 1, 1, 0];
  }
}
