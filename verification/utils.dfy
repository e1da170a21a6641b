/** The helper validators and the NaN-aware aggregation of `mapie/utils.py`.
    A NaN entry is `None`; every other number is a real. Exceptions the
    source raises are `Failure`/`Fail` values naming the error. */
module Utils {
  import opened Results

  // ---------------------------------------------------------------------
  // phi1D / phi2D: mask-weighted, NaN-ignoring aggregation
  // ---------------------------------------------------------------------

  /** `x * b` for one row `b` of a 1-NaN mask: a NaN weight yields NaN. */
  function MaskRow(x: seq<real>, b: seq<Option<real>>): (r: seq<Option<real>>)
    requires |b| == |x|
    ensures |r| == |x|
    ensures forall j :: 0 <= j < |x| ==> (r[j].None? <==> b[j].None?)
    ensures forall j :: 0 <= j < |x| && b[j].Some? ==> r[j].value == x[j] * b[j].value
  {
    seq(|x|, j requires 0 <= j < |x| => if b[j].Some? then Some(x[j] * b[j].value) else None)
  }

  /** Every row of `B` is as wide as `x`. */
  predicate RowsAsWide(B: seq<seq<Option<real>>>, width: nat) {
    forall i :: 0 <= i < |B| ==> |B[i]| == width
  }

  /** phi1D: multiply `x` by each row of `B`, then reduce each product row
      with `fun` (numpy's row-wise reducer applied along axis 1). */
  function Phi1D(x: seq<real>, B: seq<seq<Option<real>>>, fun: seq<Option<real>> -> Option<real>)
    : (r: seq<Option<real>>)
    requires RowsAsWide(B, |x|)
    ensures |r| == |B|
    ensures forall i :: 0 <= i < |B| ==> r[i] == fun(MaskRow(x, B[i]))
  {
    if |B| == 0 then []
    else Phi1D(x, B[..|B| - 1], fun) + [fun(MaskRow(x, B[|B| - 1]))]
  }

  /** phi1D of each row of `A`, in order. */
  function Phi1DRows(A: seq<seq<real>>, B: seq<seq<Option<real>>>, fun: seq<Option<real>> -> Option<real>)
    : (r: seq<seq<Option<real>>>)
    requires forall i :: 0 <= i < |A| ==> RowsAsWide(B, |A[i]|)
    ensures |r| == |A|
    ensures forall i :: 0 <= i < |A| ==> r[i] == Phi1D(A[i], B, fun)
  {
    if |A| == 0 then []
    else Phi1DRows(A[..|A| - 1], B, fun) + [Phi1D(A[|A| - 1], B, fun)]
  }

  /** The error numpy's `apply_along_axis` raises when the axis it iterates
      over is empty. */
  datatype ApplyError = EmptyIteration

  /** phi2D: one result row per row of `A`, each the phi1D of that row;
      an `A` without rows is an error, not an empty table. */
  function Phi2D(A: seq<seq<real>>, B: seq<seq<Option<real>>>, fun: seq<Option<real>> -> Option<real>)
    : (r: Result<seq<seq<Option<real>>>, ApplyError>)
    requires forall i :: 0 <= i < |A| ==> RowsAsWide(B, |A[i]|)
    ensures r.Failure? <==> |A| == 0
    ensures r.Failure? ==> r.error == EmptyIteration
    ensures r.Success? ==> |r.value| == |A|
    ensures r.Success? ==> forall i :: 0 <= i < |A| ==> r.value[i] == Phi1D(A[i], B, fun)
  {
    if |A| == 0 then Failure(EmptyIteration) else Success(Phi1DRows(A, B, fun))
  }

  /** Sum of the non-NaN entries of a row. */
  function SumPresent(row: seq<Option<real>>): real {
    if |row| == 0 then 0.0
    else SumPresent(row[..|row| - 1]) + (if row[|row| - 1].Some? then row[|row| - 1].value else 0.0)
  }

  /** Number of non-NaN entries of a row. */
  function CountPresent(row: seq<Option<real>>): (c: nat)
    ensures c <= |row|
    ensures c == 0 <==> forall j :: 0 <= j < |row| ==> row[j].None?
  {
    if |row| == 0 then 0
    else
      var rest := CountPresent(row[..|row| - 1]);
      assert forall j :: 0 <= j < |row| - 1 ==> row[..|row| - 1][j] == row[j];
      rest + (if row[|row| - 1].Some? then 1 else 0)
  }

  /** numpy's `nanmean` of one row: the mean of the non-NaN entries, NaN when
      there are none. */
  function NanMean(row: seq<Option<real>>): (m: Option<real>)
    ensures m.None? <==> forall j :: 0 <= j < |row| ==> row[j].None?
    ensures m.Some? ==> m.value * CountPresent(row) as real == SumPresent(row)
  {
    var c := CountPresent(row);
    if c == 0 then None else Some(SumPresent(row) / c as real)
  }

  lemma {:induction false} SumPresentAppend(a: seq<Option<real>>, b: seq<Option<real>>)
    ensures SumPresent(a + b) == SumPresent(a) + SumPresent(b)
    ensures CountPresent(a + b) == CountPresent(a) + CountPresent(b)
    decreases |b|
  {
    if |b| == 0 {
      assert a + b == a;
    } else {
      var b' := b[..|b| - 1];
      assert (a + b)[..|a + b| - 1] == a + b';
      SumPresentAppend(a, b');
    }
  }

  /** NaN entries drop out of `nanmean`: inserting one anywhere leaves the
      mean unchanged. */
  lemma NanEntriesDropOut(row: seq<Option<real>>, j: nat)
    requires j <= |row|
    ensures NanMean(row[..j] + [None] + row[j..]) == NanMean(row)
  {
    var r := row[..j] + [None] + row[j..];
    SumPresentAppend(row[..j] + [None], row[j..]);
    SumPresentAppend(row[..j], [None]);
    SumPresentAppend(row[..j], row[j..]);
    assert row[..j] + row[j..] == row;
  }

  /** The first example of phi1D's documentation: NaN positions of the mask
      drop out of the mean, giving [2, 4]. */
  lemma Phi1DExample()
    ensures Phi1D([1.0, 2.0, 3.0, 4.0, 5.0],
                  [[Some(1.0), Some(1.0), Some(1.0), None, None],
                   [None, None, Some(1.0), Some(1.0), Some(1.0)]],
                  NanMean)
            == [Some(2.0), Some(4.0)]
  {
    HeadTailMeans([1.0, 2.0, 3.0, 4.0, 5.0], 2.0, 4.0);
  }

  /** The first mask of the examples: the first three entries count. */
  const HeadMask: seq<Option<real>> := [Some(1.0), Some(1.0), Some(1.0), None, None]

  /** The second mask of the examples: the last three entries count. */
  const TailMask: seq<Option<real>> := [None, None, Some(1.0), Some(1.0), Some(1.0)]

  lemma HeadMean(x: seq<real>, head: real)
    requires |x| == 5 && x[0] + x[1] + x[2] == 3.0 * head
    ensures NanMean(MaskRow(x, HeadMask)) == Some(head)
  {
    assert MaskRow(x, HeadMask) == [Some(x[0]), Some(x[1]), Some(x[2]), None, None];
    MeanOfFive(Some(x[0]), Some(x[1]), Some(x[2]), None, None);
  }

  lemma TailMean(x: seq<real>, tail: real)
    requires |x| == 5 && x[2] + x[3] + x[4] == 3.0 * tail
    ensures NanMean(MaskRow(x, TailMask)) == Some(tail)
  {
    assert MaskRow(x, TailMask) == [None, None, Some(x[2]), Some(x[3]), Some(x[4])];
    MeanOfFive(None, None, Some(x[2]), Some(x[3]), Some(x[4]));
  }

  /** The two masks of the examples average the first three and the last
      three entries of a five-entry row. */
  lemma HeadTailMeans(x: seq<real>, head: real, tail: real)
    requires |x| == 5
    requires x[0] + x[1] + x[2] == 3.0 * head && x[2] + x[3] + x[4] == 3.0 * tail
    ensures Phi1D(x, [HeadMask, TailMask], NanMean) == [Some(head), Some(tail)]
  {
    var r := Phi1D(x, [HeadMask, TailMask], NanMean);
    assert r[0] == NanMean(MaskRow(x, HeadMask)) && r[1] == NanMean(MaskRow(x, TailMask));
    HeadMean(x, head);
    TailMean(x, tail);
  }

  /** phi2D of three rows, spelled out. */
  lemma Phi2DOfThree(A: seq<seq<real>>, B: seq<seq<Option<real>>>, fun: seq<Option<real>> -> Option<real>)
    requires |A| == 3 && forall i :: 0 <= i < |A| ==> RowsAsWide(B, |A[i]|)
    ensures Phi2D(A, B, fun) == Success([Phi1D(A[0], B, fun), Phi1D(A[1], B, fun), Phi1D(A[2], B, fun)])
  {
    var r := Phi2D(A, B, fun).value;
    assert r == [r[0], r[1], r[2]];
  }

  /** The documented `phi2D` example: three rows of A give
      [[2, 4], [7, 9], [12, 14]]. */
  lemma Phi2DExample()
    ensures Phi2D([[1.0, 2.0, 3.0, 4.0, 5.0], [6.0, 7.0, 8.0, 9.0, 10.0], [11.0, 12.0, 13.0, 14.0, 15.0]],
                  [[Some(1.0), Some(1.0), Some(1.0), None, None],
                   [None, None, Some(1.0), Some(1.0), Some(1.0)]],
                  NanMean)
            == Success([[Some(2.0), Some(4.0)], [Some(7.0), Some(9.0)], [Some(12.0), Some(14.0)]])
  {
    var A := [[1.0, 2.0, 3.0, 4.0, 5.0], [6.0, 7.0, 8.0, 9.0, 10.0], [11.0, 12.0, 13.0, 14.0, 15.0]];
    var B := [[Some(1.0), Some(1.0), Some(1.0), None, None], [None, None, Some(1.0), Some(1.0), Some(1.0)]];
    Phi2DOfThree(A, B, NanMean);
    HeadTailMeans(A[0], 2.0, 4.0);
    HeadTailMeans(A[1], 7.0, 9.0);
    HeadTailMeans(A[2], 12.0, 14.0);
  }

  /** Present-entry sum and count of a row extended by one entry. */
  lemma PresentSnoc(a: seq<Option<real>>, v: Option<real>)
    ensures SumPresent(a + [v]) == SumPresent(a) + (if v.Some? then v.value else 0.0)
    ensures CountPresent(a + [v]) == CountPresent(a) + (if v.Some? then 1 else 0)
  {
    assert (a + [v])[..|a|] == a;
  }

  /** Present-entry sum and count of a five-entry row. */
  lemma MeanOfFive(v0: Option<real>, v1: Option<real>, v2: Option<real>, v3: Option<real>, v4: Option<real>)
    ensures SumPresent([v0, v1, v2, v3, v4])
            == (if v0.Some? then v0.value else 0.0) + (if v1.Some? then v1.value else 0.0)
               + (if v2.Some? then v2.value else 0.0) + (if v3.Some? then v3.value else 0.0)
               + (if v4.Some? then v4.value else 0.0)
    ensures CountPresent([v0, v1, v2, v3, v4])
            == (if v0.Some? then 1 else 0) + (if v1.Some? then 1 else 0) + (if v2.Some? then 1 else 0)
               + (if v3.Some? then 1 else 0) + (if v4.Some? then 1 else 0)
  {
    PresentSnoc([], v0);
    assert [] + [v0] == [v0];
    PresentSnoc([v0], v1);
    assert [v0] + [v1] == [v0, v1];
    PresentSnoc([v0, v1], v2);
    assert [v0, v1] + [v2] == [v0, v1, v2];
    PresentSnoc([v0, v1, v2], v3);
    assert [v0, v1, v2] + [v3] == [v0, v1, v2, v3];
    PresentSnoc([v0, v1, v2, v3], v4);
    assert [v0, v1, v2, v3] + [v4] == [v0, v1, v2, v3, v4];
  }

  // ---------------------------------------------------------------------
  // check_nan_in_aposteriori_prediction
  // ---------------------------------------------------------------------

  /** Every entry of the row is NaN (vacuously so for a row of width 0, as
      with numpy's `all` on an empty axis). */
  predicate AllNan(row: seq<Option<real>>) {
    forall j :: 0 <= j < |row| ==> row[j].None?
  }

  /** The warning condition of check_nan_in_aposteriori_prediction: some row
      of the prediction matrix is entirely NaN. Only the condition is
      modelled, not the warning it emits. */
  function CheckNanInAposterioriPrediction(X: seq<seq<Option<real>>>): (warn: bool)
    ensures warn <==> exists i :: 0 <= i < |X| && AllNan(X[i])
  {
    if |X| == 0 then false
    else AllNan(X[|X| - 1]) || CheckNanInAposterioriPrediction(X[..|X| - 1])
  }

  /** The `nanmean` of a masked row is NaN exactly when the mask row is all NaN. */
  lemma MaskedMeanUndefinedIffAllNan(x: seq<real>, b: seq<Option<real>>)
    requires |b| == |x|
    ensures NanMean(MaskRow(x, b)).None? <==> AllNan(b)
  {
    var m := MaskRow(x, b);
    assert forall j :: 0 <= j < |x| ==> (m[j].None? <==> b[j].None?);
  }

  /** Row `i` of phi1D with `nanmean` is NaN exactly when mask row `i` is all NaN. */
  lemma AggregateUndefinedAt(x: seq<real>, B: seq<seq<Option<real>>>, i: nat)
    requires RowsAsWide(B, |x|) && i < |B|
    ensures Phi1D(x, B, NanMean)[i].None? <==> AllNan(B[i])
  {
    assert |B[i]| == |x|;
    var r := Phi1D(x, B, NanMean);
    assert r[i] == NanMean(MaskRow(x, B[i]));
    MaskedMeanUndefinedIffAllNan(x, B[i]);
  }

  /** The NaN guard signals exactly when some aggregate of phi1D with
      `nanmean` is undefined (NaN), whatever the prediction vector. */
  lemma NanGuardMatchesUndefinedAggregate(x: seq<real>, B: seq<seq<Option<real>>>)
    requires RowsAsWide(B, |x|)
    ensures CheckNanInAposterioriPrediction(B)
            <==> exists i :: 0 <= i < |B| && Phi1D(x, B, NanMean)[i].None?
  {
    var r := Phi1D(x, B, NanMean);
    if CheckNanInAposterioriPrediction(B) {
      var i :| 0 <= i < |B| && AllNan(B[i]);
      AggregateUndefinedAt(x, B, i);
    }
    if i :| 0 <= i < |B| && r[i].None? {
      AggregateUndefinedAt(x, B, i);
    }
  }

  // ---------------------------------------------------------------------
  // check_null_weight
  // ---------------------------------------------------------------------

  /** Positions of the nonzero weights, in increasing order. */
  function NonZeroPositions(w: seq<real>): (idx: seq<nat>)
    ensures forall k :: 0 <= k < |idx| ==> idx[k] < |w|
  {
    if |w| == 0 then []
    else
      var rest := NonZeroPositions(w[..|w| - 1]);
      if w[|w| - 1] != 0.0 then rest + [|w| - 1] else rest
  }

  /** The positions listed are exactly those of the nonzero weights, each
      once, in increasing order. */
  lemma {:induction false} NonZeroPositionsExact(w: seq<real>)
    ensures forall k :: 0 <= k < |NonZeroPositions(w)| ==> w[NonZeroPositions(w)[k]] != 0.0
    ensures forall k, l :: 0 <= k < l < |NonZeroPositions(w)| ==> NonZeroPositions(w)[k] < NonZeroPositions(w)[l]
    ensures forall i :: 0 <= i < |w| && w[i] != 0.0 ==> i in NonZeroPositions(w)
  {
    if |w| != 0 {
      var w' := w[..|w| - 1];
      NonZeroPositionsExact(w');
      assert forall i :: 0 <= i < |w'| ==> w'[i] == w[i];
    }
  }

  /** Boolean-mask indexing `s[w != 0]`: the entries of `s` whose weight is
      nonzero, in their original order. */
  function KeepNonZero<T>(s: seq<T>, w: seq<real>): (r: seq<T>)
    requires |s| == |w|
    ensures |r| <= |s|
    ensures forall v :: v in r ==> v in s
    ensures (forall j :: 0 <= j < |w| ==> w[j] != 0.0) ==> r == s
  {
    if |s| == 0 then []
    else KeepNonZero(s[..|s| - 1], w[..|w| - 1]) + (if w[|w| - 1] != 0.0 then [s[|s| - 1]] else [])
  }

  /** Mask indexing picks exactly the entries at the nonzero positions. */
  lemma {:induction false} KeepNonZeroSelects<T>(s: seq<T>, w: seq<real>)
    requires |s| == |w|
    ensures |KeepNonZero(s, w)| == |NonZeroPositions(w)|
    ensures forall k :: 0 <= k < |KeepNonZero(s, w)| ==> KeepNonZero(s, w)[k] == s[NonZeroPositions(w)[k]]
  {
    if |s| != 0 {
      KeepNonZeroSelects(s[..|s| - 1], w[..|w| - 1]);
    }
  }

  /** Number of zero weights. */
  function CountZeros(w: seq<real>): nat {
    if |w| == 0 then 0 else CountZeros(w[..|w| - 1]) + (if w[|w| - 1] == 0.0 then 1 else 0)
  }

  /** Exactly the zero-weight rows are dropped. */
  lemma {:induction false} KeptCount(w: seq<real>)
    ensures |NonZeroPositions(w)| == |w| - CountZeros(w)
  {
    if |w| != 0 {
      KeptCount(w[..|w| - 1]);
    }
  }

  /** `_check_sample_weight` rejects a weight vector whose length is not the
      number of rows of `X`; numpy rejects a boolean mask whose length is not
      that of `y`. */
  datatype WeightError = SampleWeightShapeMismatch | LabelMaskMismatch

  /** The triple `(sample_weight, X, y)` returned by check_null_weight. */
  datatype Weighted = Weighted(weights: Option<seq<real>>, X: seq<seq<real>>, y: seq<real>)

  /** check_null_weight: with no weights, `X` and `y` come back unchanged;
      with weights, exactly the rows of nonzero weight are kept, in their
      original order. */
  function CheckNullWeight(sampleWeight: Option<seq<real>>, X: seq<seq<real>>, y: seq<real>)
    : (r: Result<Weighted, WeightError>)
    ensures sampleWeight.None? ==> r == Success(Weighted(None, X, y))
    ensures sampleWeight.Some? && |sampleWeight.value| != |X| ==> r == Failure(SampleWeightShapeMismatch)
    ensures sampleWeight.Some? && |sampleWeight.value| == |X| && |y| != |X| ==> r == Failure(LabelMaskMismatch)
    ensures sampleWeight.Some? && |sampleWeight.value| == |X| == |y| ==> r.Success?
    ensures r.Success? && sampleWeight.Some? ==>
              var w := sampleWeight.value;
              var idx := NonZeroPositions(w);
              && |w| == |X| == |y|
              && r.value.weights.Some?
              && |r.value.weights.value| == |r.value.X| == |r.value.y| == |idx| == |w| - CountZeros(w)
              && (forall k :: 0 <= k < |idx| ==> r.value.weights.value[k] == w[idx[k]] != 0.0)
              && (forall k :: 0 <= k < |idx| ==> r.value.X[k] == X[idx[k]] && r.value.y[k] == y[idx[k]])
  {
    match sampleWeight
    case None => Success(Weighted(None, X, y))
    case Some(w) =>
      if |w| != |X| then Failure(SampleWeightShapeMismatch)
      else if |y| != |X| then Failure(LabelMaskMismatch)
      else
        NonZeroPositionsExact(w);
        KeepNonZeroSelects(w, w);
        KeepNonZeroSelects(X, w);
        KeepNonZeroSelects(y, w);
        KeptCount(w);
        Success(Weighted(Some(KeepNonZero(w, w)), KeepNonZero(X, w), KeepNonZero(y, w)))
  }

  /** The nonzero positions of the documentation example's weights. */
  lemma ExampleWeightPositions()
    ensures NonZeroPositions([0.0, 1.0, 1.0, 1.0, 1.0, 1.0]) == [1, 2, 3, 4, 5]
  {
    var w := [0.0, 1.0, 1.0, 1.0, 1.0, 1.0];
    var w5 := [0.0, 1.0, 1.0, 1.0, 1.0];
    var w4 := [0.0, 1.0, 1.0, 1.0];
    var w3 := [0.0, 1.0, 1.0];
    var w2 := [0.0, 1.0];
    var w1 := [0.0];
    assert w[..5] == w5;
    assert w5[..4] == w4;
    assert w4[..3] == w3;
    assert w3[..2] == w2;
    assert w2[..1] == w1;
    assert w1[..0] == [];
    assert NonZeroPositions(w1) == [];
    assert NonZeroPositions(w2) == [1];
    assert NonZeroPositions(w3) == [1, 2];
    assert NonZeroPositions(w4) == [1, 2, 3];
    assert NonZeroPositions(w5) == [1, 2, 3, 4];
  }

  /** The documentation example: a single leading zero weight removes the
      first row. */
  lemma CheckNullWeightExample()
    ensures CheckNullWeight(Some([0.0, 1.0, 1.0, 1.0, 1.0, 1.0]),
                            [[0.0], [1.0], [2.0], [3.0], [4.0], [5.0]],
                            [5.0, 7.0, 9.0, 11.0, 13.0, 15.0])
            == Success(Weighted(Some([1.0, 1.0, 1.0, 1.0, 1.0]),
                                [[1.0], [2.0], [3.0], [4.0], [5.0]],
                                [7.0, 9.0, 11.0, 13.0, 15.0]))
  {
    var w := [0.0, 1.0, 1.0, 1.0, 1.0, 1.0];
    var X := [[0.0], [1.0], [2.0], [3.0], [4.0], [5.0]];
    var y := [5.0, 7.0, 9.0, 11.0, 13.0, 15.0];
    ExampleWeightPositions();
    var idx := NonZeroPositions(w);
    var r := CheckNullWeight(Some(w), X, y);
    assert r.Success?;
    var v := r.value;
    assert idx[0] == 1 && idx[1] == 2 && idx[2] == 3 && idx[3] == 4 && idx[4] == 5;
    assert |v.X| == 5;
    assert v.X[0] == [1.0] && v.X[1] == [2.0] && v.X[2] == [3.0] && v.X[3] == [4.0] && v.X[4] == [5.0];
    assert v.X == [[1.0], [2.0], [3.0], [4.0], [5.0]];
    assert v.y == [7.0, 9.0, 11.0, 13.0, 15.0];
    assert v.weights.value == [1.0, 1.0, 1.0, 1.0, 1.0];
  }

  // ---------------------------------------------------------------------
  // check_alpha
  // ---------------------------------------------------------------------

  /** Element type of the array numpy builds from the argument. */
  datatype DType = Float64 | Float32 | OtherDType

  /** The argument of check_alpha: nothing, a Python float, an iterable that
      numpy turns into an array of the given rank and element type (its
      entries listed in order), or anything else. */
  datatype AlphaArg =
    | AlphaNone
    | AlphaFloat(alpha: real)
    | AlphaIterable(ndim: nat, dtype: DType, values: seq<real>)
    | AlphaOther

  datatype AlphaError = NotFloatOrIterable | NotOneDimensional | NotFloatDType | OutOfRange

  predicate InOpenUnit(a: real) {
    0.0 < a < 1.0
  }

  /** check_alpha. */
  function CheckAlpha(arg: AlphaArg): (r: Result<Option<seq<real>>, AlphaError>)
    ensures arg.AlphaNone? ==> r == Success(None)
    ensures arg.AlphaOther? ==> r == Failure(NotFloatOrIterable)
    ensures arg.AlphaFloat? ==> (r.Success? <==> InOpenUnit(arg.alpha))
    ensures arg.AlphaFloat? && r.Success? ==> r.value == Some([arg.alpha])
    ensures arg.AlphaIterable? ==>
              (r.Success? <==>
                 arg.ndim == 1 && arg.dtype != OtherDType
                 && forall i :: 0 <= i < |arg.values| ==> InOpenUnit(arg.values[i]))
    ensures arg.AlphaIterable? && arg.ndim != 1 ==> r == Failure(NotOneDimensional)
    ensures arg.AlphaIterable? && arg.ndim == 1 && arg.dtype == OtherDType ==> r == Failure(NotFloatDType)
    ensures arg.AlphaIterable? && r.Success? ==> r.value == Some(arg.values)
    ensures (arg.AlphaFloat? || (arg.AlphaIterable? && arg.ndim == 1 && arg.dtype != OtherDType)) && r.Failure? ==>
              r.error == OutOfRange
    ensures r.Success? && r.value.Some? ==> forall i :: 0 <= i < |r.value.value| ==> InOpenUnit(r.value.value[i])
  {
    match arg
    case AlphaNone => Success(None)
    case AlphaOther => Failure(NotFloatOrIterable)
    case AlphaFloat(a) =>
      assert [a][0] == a;
      CheckAlphaArray(1, Float64, [a])
    case AlphaIterable(ndim, dtype, values) => CheckAlphaArray(ndim, dtype, values)
  }

  /** The checks check_alpha applies to the array it has built. */
  function CheckAlphaArray(ndim: nat, dtype: DType, values: seq<real>): (r: Result<Option<seq<real>>, AlphaError>)
    ensures r.Success? <==> ndim == 1 && dtype != OtherDType && forall i :: 0 <= i < |values| ==> InOpenUnit(values[i])
    ensures ndim != 1 ==> r == Failure(NotOneDimensional)
    ensures ndim == 1 && dtype == OtherDType ==> r == Failure(NotFloatDType)
    ensures ndim == 1 && dtype != OtherDType && r.Failure? ==> r.error == OutOfRange
    ensures r.Success? ==> r.value == Some(values)
  {
    if ndim != 1 then Failure(NotOneDimensional)
    else if dtype == OtherDType then Failure(NotFloatDType)
    else if exists i :: 0 <= i < |values| && !InOpenUnit(values[i]) then Failure(OutOfRange)
    else Success(Some(values))
  }

  // ---------------------------------------------------------------------
  // check_alpha_and_n_samples
  // ---------------------------------------------------------------------

  datatype SampleError = TooFewSamples

  /** `n < 1 / a` on numpy floats: dividing by zero yields +infinity, which
      every sample count is below. */
  predicate BelowReciprocal(n: int, a: real) {
    a == 0.0 || (n as real) < 1.0 / a
  }

  /** The per-alpha condition under which check_alpha_and_n_samples raises. */
  predicate TooFewFor(n: int, a: real) {
    BelowReciprocal(n, a) || BelowReciprocal(n, 1.0 - a)
  }

  /** check_alpha_and_n_samples: raises on the first alpha for which
      `n < 1/alpha` or `n < 1/(1 - alpha)`. */
  function CheckAlphaAndNSamples(alphas: seq<real>, n: int): (r: Outcome<SampleError>)
    ensures r.Fail? <==> exists i :: 0 <= i < |alphas| && TooFewFor(n, alphas[i])
  {
    if |alphas| == 0 then Pass
    else if TooFewFor(n, alphas[0]) then Fail(TooFewSamples)
    else
      var rest := CheckAlphaAndNSamples(alphas[1..], n);
      assert forall i :: 1 <= i < |alphas| ==> alphas[i] == alphas[1..][i - 1];
      rest
  }

  /** Enough samples for one alpha, stated with products. */
  predicate EnoughFor(n: int, a: real) {
    n as real * a >= 1.0 && n as real * (1.0 - a) >= 1.0
  }

  /** For alphas strictly inside (0, 1), the check passes exactly when
      `n * alpha >= 1` and `n * (1 - alpha) >= 1` for every alpha. */
  lemma SufficientSamplesIff(alphas: seq<real>, n: int)
    requires forall i :: 0 <= i < |alphas| ==> InOpenUnit(alphas[i])
    ensures CheckAlphaAndNSamples(alphas, n).Pass? <==> forall i :: 0 <= i < |alphas| ==> EnoughFor(n, alphas[i])
  {
    forall i | 0 <= i < |alphas|
      ensures TooFewFor(n, alphas[i]) <==> !EnoughFor(n, alphas[i])
    {
      TooFewIff(n, alphas[i]);
    }
  }

  /** For alpha strictly inside (0, 1), the raising condition is
      `n * alpha < 1` or `n * (1 - alpha) < 1`. */
  lemma TooFewIff(n: int, a: real)
    requires InOpenUnit(a)
    ensures TooFewFor(n, a) <==> !EnoughFor(n, a)
  {
    ReciprocalBound(n, a);
    ReciprocalBound(n, 1.0 - a);
  }

  // The solver does not combine facts about products reliably, so the
  // reciprocal bound below is assembled from one-step lemmas.

  lemma PositiveProduct(p: real, q: real)
    requires 0.0 < p && 0.0 < q
    ensures 0.0 < p * q
  {
  }

  lemma NonNegativeProduct(p: real, q: real)
    requires 0.0 <= p && 0.0 < q
    ensures 0.0 <= p * q
  {
  }

  lemma DistributeDifference(u: real, v: real, a: real)
    ensures (v - u) * a == v * a - u * a
  {
  }

  lemma InverseCancels(a: real)
    requires a != 0.0
    ensures (1.0 / a) * a == 1.0
  {
  }

  lemma CompareWithOne(d: real, one: real, p: real)
    requires one == 1.0
    ensures 0.0 < d && d == one - p ==> p < 1.0
    ensures 0.0 <= d && d == p - one ==> 1.0 <= p
  {
  }

  /** For a positive `a`, `x < 1/a` exactly when `x * a < 1`. */
  lemma BelowInverse(x: real, a: real)
    requires 0.0 < a
    ensures x < 1.0 / a <==> x * a < 1.0
  {
    var inv := 1.0 / a;
    InverseCancels(a);
    if x < inv {
      DistributeDifference(x, inv, a);
      PositiveProduct(inv - x, a);
      CompareWithOne((inv - x) * a, inv * a, x * a);
    } else {
      DistributeDifference(inv, x, a);
      NonNegativeProduct(x - inv, a);
      CompareWithOne((x - inv) * a, inv * a, x * a);
    }
  }

  /** For a positive `a`, `n < 1/a` exactly when `n * a < 1`. */
  lemma ReciprocalBound(n: int, a: real)
    requires 0.0 < a
    ensures BelowReciprocal(n, a) <==> n as real * a < 1.0
  {
    BelowInverse(n as real, a);
  }

  /** Five samples cannot support alpha = 0.1, since 1/alpha = 10 > 5. */
  lemma FiveSamplesTooFewForTenPercent()
    ensures CheckAlphaAndNSamples([0.1], 5) == Fail(TooFewSamples)
  {
    assert BelowReciprocal(5, 0.1);
  }

  // ---------------------------------------------------------------------
  // check_n_features_in
  // ---------------------------------------------------------------------

  /** Shape of a 2-D feature matrix. */
  datatype Shape = Shape(rows: nat, columns: nat)

  /** The `cv` argument: absent, a string, a float, or a splitter object. */
  datatype CvArg = CvNone | CvString(name: string) | CvFloat(fraction: real) | CvSplitter

  datatype FeatureError = FeatureCountMismatch

  /** check_n_features_in; `declaredFeatures` is the estimator's
      `n_features_in_` attribute when it has one (a missing estimator has
      none). */
  function CheckNFeaturesIn(X: Shape, cv: CvArg, declaredFeatures: Option<int>): (r: Result<nat, FeatureError>)
    ensures r.Success? ==> r.value == X.columns
    ensures r.Failure? <==> cv == CvString("prefit") && declaredFeatures.Some? && declaredFeatures.value != X.columns
  {
    if cv == CvString("prefit") && declaredFeatures.Some? && declaredFeatures.value != X.columns then
      Failure(FeatureCountMismatch)
    else Success(X.columns)
  }

  // ---------------------------------------------------------------------
  // check_n_jobs / check_verbose
  // ---------------------------------------------------------------------

  /** The `n_jobs` argument: `None`, an integer, or some other object. */
  datatype JobsArg = JobsNone | JobsInt(jobs: int) | JobsOther

  datatype JobsError = JobsNotInteger | JobsZero

  /** check_n_jobs. */
  function CheckNJobs(nJobs: JobsArg): (r: Outcome<JobsError>)
    ensures r.Pass? <==> nJobs.JobsNone? || (nJobs.JobsInt? && nJobs.jobs != 0)
    ensures nJobs.JobsOther? ==> r == Fail(JobsNotInteger)
    ensures nJobs == JobsInt(0) ==> r == Fail(JobsZero)
  {
    match nJobs
    case JobsOther => Fail(JobsNotInteger)
    case JobsNone => Pass
    case JobsInt(k) => if k == 0 then Fail(JobsZero) else Pass
  }

  /** The `verbose` argument: an integer or some other object. */
  datatype VerboseArg = VerboseInt(level: int) | VerboseOther

  datatype VerboseError = VerboseNotInteger | VerboseNegative

  /** check_verbose. */
  function CheckVerbose(verbose: VerboseArg): (r: Outcome<VerboseError>)
    ensures r.Pass? <==> verbose.VerboseInt? && verbose.level >= 0
    ensures verbose.VerboseOther? ==> r == Fail(VerboseNotInteger)
    ensures verbose.VerboseInt? && verbose.level < 0 ==> r == Fail(VerboseNegative)
  {
    match verbose
    case VerboseOther => Fail(VerboseNotInteger)
    case VerboseInt(v) => if v < 0 then Fail(VerboseNegative) else Pass
  }
}
