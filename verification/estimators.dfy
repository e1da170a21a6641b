/** The interval-construction engine of `MapieRegressor`: parameter checks,
    choice of the splitting strategy, the fold loop of `fit` that builds the
    fold assignment `k_` and the out-of-fold residuals, and the three
    interval rules of `predict`.

    The base regressor and the splitter are foreign code. A fitted regressor
    is represented by the rows it was trained on; its predictions enter as
    inputs (the in-sample predictions of the full-data model, the
    predictions of each fold model on its validation rows, and the matrix of
    fold-model predictions on new rows); the splitter's output enters as a
    list of (train, validation) index sequences. */
module Estimators {
  import opened Results
  import opened Quantiles

  // ---------------------------------------------------------------------
  // Configuration
  // ---------------------------------------------------------------------

  datatype Method = Naive | Jackknife | JackknifePlus | JackknifeMinmax | Cv | CvPlus | CvMinmax

  /** Where the center of each interval comes from: the model fitted on the
      full training set, or the median of the fold models' predictions. */
  datatype ReturnPred = ReturnSingle | ReturnMedian

  /** The names accepted for `method`, as the class lists them. */
  const ValidMethods: seq<string> :=
    ["naive", "jackknife", "jackknife_plus", "jackknife_minmax", "cv", "cv_plus", "cv_minmax"]

  /** The names accepted for `return_pred`. */
  const ValidReturnPreds: seq<string> := ["single", "median"]

  function MethodName(m: Method): string {
    match m
    case Naive => "naive"
    case Jackknife => "jackknife"
    case JackknifePlus => "jackknife_plus"
    case JackknifeMinmax => "jackknife_minmax"
    case Cv => "cv"
    case CvPlus => "cv_plus"
    case CvMinmax => "cv_minmax"
  }

  function ReturnPredName(r: ReturnPred): string {
    match r
    case ReturnSingle => "single"
    case ReturnMedian => "median"
  }

  /** The method a valid name denotes. */
  function ParseMethod(name: string): (m: Option<Method>)
    ensures m.Some? <==> name in ValidMethods
    ensures m.Some? ==> MethodName(m.value) == name
  {
    if name == "naive" then Some(Naive)
    else if name == "jackknife" then Some(Jackknife)
    else if name == "jackknife_plus" then Some(JackknifePlus)
    else if name == "jackknife_minmax" then Some(JackknifeMinmax)
    else if name == "cv" then Some(Cv)
    else if name == "cv_plus" then Some(CvPlus)
    else if name == "cv_minmax" then Some(CvMinmax)
    else None
  }

  /** Every method is recovered from its name. */
  lemma MethodNameRoundTrip(m: Method)
    ensures MethodName(m) in ValidMethods
    ensures ParseMethod(MethodName(m)) == Some(m)
  {
  }

  /** The base regressor: the default ordinary-least-squares model or one
      supplied by the caller (opaque here). */
  datatype Regressor = LinearRegression | UserRegressor(id: nat)

  /** The constructor arguments of `MapieRegressor`, unchecked. */
  datatype Params = Params(
    estimator: Option<Regressor>,
    alpha: real,
    methodName: string,
    nSplits: int,
    shuffle: bool,
    returnPred: string,
    randomState: Option<int>)

  /** The arguments after `_check_parameters` accepted them. */
  datatype Config = Config(
    estimator: Regressor,
    alpha: real,
    kind: Method,
    nSplits: int,
    shuffle: bool,
    returnPred: ReturnPred,
    randomState: Option<int>)

  datatype ParamError = InvalidAlpha | InvalidMethod | InvalidReturnPred

  /** `_check_parameters`: alpha strictly inside (0, 1), a listed method and
      a listed `return_pred`, checked in that order; a missing estimator
      becomes the default linear regression. */
  function CheckParameters(p: Params): (r: Result<Config, ParamError>)
    ensures r.Success? <==> 0.0 < p.alpha < 1.0 && p.methodName in ValidMethods && p.returnPred in ValidReturnPreds
    ensures !(0.0 < p.alpha < 1.0) ==> r == Failure(InvalidAlpha)
    ensures 0.0 < p.alpha < 1.0 && p.methodName !in ValidMethods ==> r == Failure(InvalidMethod)
    ensures 0.0 < p.alpha < 1.0 && p.methodName in ValidMethods && p.returnPred !in ValidReturnPreds ==>
              r == Failure(InvalidReturnPred)
    ensures r.Success? ==>
              && MethodName(r.value.kind) == p.methodName
              && ReturnPredName(r.value.returnPred) == p.returnPred
              && r.value.alpha == p.alpha
              && r.value.estimator == (if p.estimator.Some? then p.estimator.value else LinearRegression)
              && r.value.nSplits == p.nSplits && r.value.shuffle == p.shuffle
              && r.value.randomState == p.randomState
  {
    if !(0.0 < p.alpha < 1.0) then Failure(InvalidAlpha)
    else
      match ParseMethod(p.methodName)
      case None => Failure(InvalidMethod)
      case Some(m) =>
        if p.returnPred == "single" || p.returnPred == "median" then
          var rp := if p.returnPred == "single" then ReturnSingle else ReturnMedian;
          var est := if p.estimator.Some? then p.estimator.value else LinearRegression;
          Success(Config(est, p.alpha, m, p.nSplits, p.shuffle, rp, p.randomState))
        else Failure(InvalidReturnPred)
  }

  // ---------------------------------------------------------------------
  // Splitting strategy
  // ---------------------------------------------------------------------

  /** The splitter objects `_select_cv` builds. */
  datatype Splitter = KFold(nSplits: int, shuffle: bool, randomState: Option<int>) | LeaveOneOut

  datatype CvError = NoSplitterForMethod

  /** `_select_cv`: k-fold for names starting with "cv" (the seed cleared
      when shuffling is off), leave-one-out for names starting with
      "jackknife", an error for any other name. */
  function SelectCv(methodName: string, nSplits: int, shuffle: bool, randomState: Option<int>)
    : (r: Result<Splitter, CvError>)
    ensures r.Failure? <==> !("cv" <= methodName) && !("jackknife" <= methodName)
    ensures r.Success? && r.value.KFold? <==> "cv" <= methodName
    ensures r.Success? && r.value.KFold? ==>
              r.value.nSplits == nSplits && r.value.shuffle == shuffle
              && (!shuffle ==> r.value.randomState.None?)
              && (shuffle ==> r.value.randomState == randomState)
  {
    if "cv" <= methodName then
      Success(KFold(nSplits, shuffle, if shuffle then randomState else None))
    else if "jackknife" <= methodName then Success(LeaveOneOut)
    else Failure(NoSplitterForMethod)
  }

  predicate CvFamily(m: Method) {
    m == Cv || m == CvPlus || m == CvMinmax
  }

  predicate JackknifeFamily(m: Method) {
    m == Jackknife || m == JackknifePlus || m == JackknifeMinmax
  }

  /** Which splitter each method gets: k-fold for the three "cv" methods,
      leave-one-out for the three "jackknife" methods, none for "naive". */
  lemma SplitterByMethod(m: Method, nSplits: int, shuffle: bool, randomState: Option<int>)
    ensures SelectCv(MethodName(m), nSplits, shuffle, randomState).Failure? <==> m == Naive
    ensures SelectCv(MethodName(m), nSplits, shuffle, randomState) == Success(LeaveOneOut) <==> JackknifeFamily(m)
    ensures CvFamily(m) ==>
              SelectCv(MethodName(m), nSplits, shuffle, randomState)
              == Success(KFold(nSplits, shuffle, if shuffle then randomState else None))
  {
    var name := MethodName(m);
    match m
    case Naive =>
      assert name[0] == 'n';
    case Jackknife =>
      assert name[0] == 'j';
    case JackknifePlus =>
      assert name[0] == 'j';
    case JackknifeMinmax =>
      assert name[0] == 'j';
    case Cv =>
    case CvPlus =>
    case CvMinmax =>
  }

  /** With shuffling disabled the seed has no influence on the splitter. */
  lemma SeedIrrelevantWithoutShuffle(methodName: string, nSplits: int, seed1: Option<int>, seed2: Option<int>)
    ensures SelectCv(methodName, nSplits, false, seed1) == SelectCv(methodName, nSplits, false, seed2)
  {
  }

  // ---------------------------------------------------------------------
  // Folds
  // ---------------------------------------------------------------------

  /** One (train, validation) pair yielded by the splitter. */
  datatype Split = Split(train: seq<nat>, val: seq<nat>)

  /** Every validation index is a row index. */
  predicate ValInRange(splits: seq<Split>, n: nat) {
    forall k, q :: 0 <= k < |splits| && 0 <= q < |splits[k].val| ==> splits[k].val[q] < n
  }

  /** No row appears twice among all validation sets. */
  predicate ValNoOverlap(splits: seq<Split>) {
    forall k1, q1, k2, q2 ::
      0 <= k1 < |splits| && 0 <= q1 < |splits[k1].val| &&
      0 <= k2 < |splits| && 0 <= q2 < |splits[k2].val| &&
      splits[k1].val[q1] == splits[k2].val[q2]
      ==> k1 == k2 && q1 == q2
  }

  /** Fold `k` validates row `i`. */
  predicate Validates(splits: seq<Split>, k: nat, i: nat)
    requires k < |splits|
  {
    exists q :: 0 <= q < |splits[k].val| && splits[k].val[q] == i
  }

  /** Some fold validates row `i`. */
  predicate Validated(splits: seq<Split>, i: nat) {
    exists k :: 0 <= k < |splits| && Validates(splits, k, i)
  }

  /** Every row is validated by some fold. */
  predicate ValCovers(splits: seq<Split>, n: nat) {
    forall i :: 0 <= i < n ==> Validated(splits, i)
  }

  /** The validation sets partition the rows [0, n): each row lies in
      exactly one validation set, exactly once. */
  predicate Partition(splits: seq<Split>, n: nat) {
    ValInRange(splits, n) && ValNoOverlap(splits) && ValCovers(splits, n)
  }

  /** No fold trains on one of its own validation rows. */
  predicate HeldOut(splits: seq<Split>) {
    forall k :: 0 <= k < |splits| ==>
      forall t, q :: 0 <= t < |splits[k].train| && 0 <= q < |splits[k].val| ==>
        splits[k].train[t] != splits[k].val[q]
  }

  /** What the chosen splitter yields on n rows: leave-one-out gives n folds,
      fold k validating row k alone; k-fold gives `nSplits` folds whose
      validation sets partition the rows. */
  predicate SplitsOf(splitter: Splitter, splits: seq<Split>, n: nat) {
    HeldOut(splits) &&
    match splitter
    case LeaveOneOut => |splits| == n && forall k :: 0 <= k < |splits| ==> splits[k].val == [k]
    case KFold(nSplits, _, _) => |splits| == nSplits && Partition(splits, n)
  }

  /** Leave-one-out folds partition the rows. */
  lemma LeaveOneOutPartitions(splits: seq<Split>, n: nat)
    requires SplitsOf(LeaveOneOut, splits, n)
    ensures Partition(splits, n)
  {
    forall i | 0 <= i < n
      ensures Validated(splits, i)
    {
      assert splits[i].val[0] == i;
      assert Validates(splits, i, i);
    }
  }

  /** Each fold model's predictions on its own validation rows. */
  predicate FoldPredsFit(splits: seq<Split>, foldPreds: seq<seq<real>>) {
    |foldPreds| == |splits| && forall k :: 0 <= k < |splits| ==> |foldPreds[k]| == |splits[k].val|
  }

  /** A fitted copy of the base regressor, identified by the rows it was
      trained on. */
  datatype Model = Model(regressor: Regressor, trainedOn: seq<nat>)

  /** Row `i` is a validation row of a position that comes before position
      `q0` of fold `k0` (folds in order, positions in order). */
  predicate WrittenBefore(splits: seq<Split>, k0: nat, q0: nat, i: nat) {
    exists k, q :: 0 <= k < |splits| && 0 <= q < |splits[k].val| && splits[k].val[q] == i &&
      (k < k0 || (k == k0 && q < q0))
  }

  /** Only rows of earlier positions have been written, each at most once. */
  predicate Fresh(splits: seq<Split>, k0: nat, q0: nat, writes: seq<nat>) {
    forall i :: 0 <= i < |writes| ==> writes[i] <= 1 && (writes[i] != 0 ==> WrittenBefore(splits, k0, q0, i))
  }

  /** Every earlier position has written its fold number and its
      prediction to its row. */
  predicate Done(splits: seq<Split>, foldPreds: seq<seq<real>>, k0: nat, q0: nat,
                 foldIds: seq<nat>, oof: seq<real>, writes: seq<nat>)
  {
    && ValInRange(splits, |writes|) && FoldPredsFit(splits, foldPreds)
    && |foldIds| == |writes| && |oof| == |writes|
    && forall k, q :: 0 <= k < |splits| && 0 <= q < |splits[k].val| && (k < k0 || (k == k0 && q < q0)) ==>
         && writes[splits[k].val[q]] == 1
         && foldIds[splits[k].val[q]] == k
         && oof[splits[k].val[q]] == foldPreds[k][q]
  }

  /** Since validation sets do not overlap, no earlier position wrote the
      row of the current one. */
  lemma NotYetWritten(splits: seq<Split>, k: nat, q: nat)
    requires ValNoOverlap(splits) && k < |splits| && q < |splits[k].val|
    ensures !WrittenBefore(splits, k, q, splits[k].val[q])
  {
    forall k1, q1 | 0 <= k1 < |splits| && 0 <= q1 < |splits[k1].val| && splits[k1].val[q1] == splits[k].val[q]
      ensures !(k1 < k || (k1 == k && q1 < q))
    {
    }
  }

  /** One assignment of the fold loop: the row of position q of fold k is
      still unwritten, and writing it advances both loop facts by one
      position. */
  lemma {:induction false} WriteStep(splits: seq<Split>, foldPreds: seq<seq<real>>, n: nat, k: nat, q: nat,
                                     foldIds: seq<nat>, oof: seq<real>, writes: seq<nat>)
    requires Partition(splits, n) && k < |splits| && q < |splits[k].val| && |writes| == n
    requires Fresh(splits, k, q, writes) && Done(splits, foldPreds, k, q, foldIds, oof, writes)
    ensures writes[splits[k].val[q]] == 0
    ensures var v := splits[k].val[q];
            Fresh(splits, k, q + 1, writes[v := writes[v] + 1]) &&
            Done(splits, foldPreds, k, q + 1, foldIds[v := k], oof[v := foldPreds[k][q]], writes[v := writes[v] + 1])
  {
    var v := splits[k].val[q];
    NotYetWritten(splits, k, q);
    var writes' := writes[v := writes[v] + 1];
    forall i | 0 <= i < |writes'|
      ensures writes'[i] <= 1 && (writes'[i] != 0 ==> WrittenBefore(splits, k, q + 1, i))
    {
      if i == v {
        assert splits[k].val[q] == i;
      } else if writes'[i] != 0 {
        var k1, q1 :| 0 <= k1 < |splits| && 0 <= q1 < |splits[k1].val| && splits[k1].val[q1] == i &&
                      (k1 < k || (k1 == k && q1 < q));
        assert k1 < k || (k1 == k && q1 < q + 1);
      }
    }
  }

  /** Finishing fold k is the same as starting fold k + 1. */
  lemma NextFold(splits: seq<Split>, k: nat, i: nat)
    requires k < |splits| && WrittenBefore(splits, k, |splits[k].val|, i)
    ensures WrittenBefore(splits, k + 1, 0, i)
  {
    var k1, q1 :| 0 <= k1 < |splits| && 0 <= q1 < |splits[k1].val| && splits[k1].val[q1] == i &&
                  (k1 < k || (k1 == k && q1 < |splits[k].val|));
    assert k1 < k + 1;
  }

  /** The body of the fold loop for fold k: `k_[val] = k` and
      `y_pred[val] = predictions`, one position at a time. */
  method WriteFold(n: nat, splits: seq<Split>, foldPreds: seq<seq<real>>, k: nat,
                   foldIds0: seq<nat>, oof0: seq<real>, ghost writes0: seq<nat>)
    returns (foldIds: seq<nat>, oof: seq<real>, ghost writes: seq<nat>)
    requires Partition(splits, n) && k < |splits| && |writes0| == n
    requires Fresh(splits, k, 0, writes0) && Done(splits, foldPreds, k, 0, foldIds0, oof0, writes0)
    ensures |foldIds| == n && |oof| == n
    ensures forall q :: 0 <= q < |splits[k].val| ==>
              foldIds[splits[k].val[q]] == k && oof[splits[k].val[q]] == foldPreds[k][q]
    ensures |writes| == n
    ensures Fresh(splits, k + 1, 0, writes) && Done(splits, foldPreds, k + 1, 0, foldIds, oof, writes)
  {
    foldIds, oof, writes := foldIds0, oof0, writes0;
    var val := splits[k].val;
    var q := 0;
    while q < |val|
      invariant 0 <= q <= |val| && |writes| == n
      invariant Fresh(splits, k, q, writes) && Done(splits, foldPreds, k, q, foldIds, oof, writes)
    {
      WriteStep(splits, foldPreds, n, k, q, foldIds, oof, writes);
      var v := val[q];
      foldIds := foldIds[v := k];
      oof := oof[v := foldPreds[k][q]];
      writes := writes[v := writes[v] + 1];
      q := q + 1;
    }
    forall i | 0 <= i < |writes| && writes[i] != 0
      ensures WrittenBefore(splits, k + 1, 0, i)
    {
      NextFold(splits, k, i);
    }
  }

  /** The fold loop of `fit`: for fold k, `k_[val] = k`, one model is fitted
      on the training rows and appended, and its validation predictions are
      written to `y_pred[val]`. The ghost `writes` has no counterpart in
      the source: it counts the assignments made to each entry of `y_pred`.
      The initial contents of `y_pred` (`np.empty_like`) are arbitrary and
      are taken as zero. */
  method FitFolds(n: nat, splits: seq<Split>, foldPreds: seq<seq<real>>, regressor: Regressor)
    returns (foldIds: seq<nat>, oof: seq<real>, ghost writes: seq<nat>, models: seq<Model>)
    requires Partition(splits, n)
    requires FoldPredsFit(splits, foldPreds)
    ensures |foldIds| == n && |oof| == n && |writes| == n
    ensures forall i :: 0 <= i < n ==> writes[i] == 1
    ensures forall k, q :: 0 <= k < |splits| && 0 <= q < |splits[k].val| ==>
              foldIds[splits[k].val[q]] == k && oof[splits[k].val[q]] == foldPreds[k][q]
    ensures |models| == |splits|
    ensures forall k :: 0 <= k < |splits| ==> models[k] == Model(regressor, splits[k].train)
  {
    foldIds := seq(n, _ => 0);
    oof := seq(n, _ => 0.0);
    writes := seq(n, _ => 0);
    models := [];
    var k := 0;
    while k < |splits|
      invariant 0 <= k <= |splits| && |writes| == n
      invariant Fresh(splits, k, 0, writes) && Done(splits, foldPreds, k, 0, foldIds, oof, writes)
      invariant |models| == k
      invariant forall k' :: 0 <= k' < k ==> models[k'] == Model(regressor, splits[k'].train)
    {
      foldIds, oof, writes := WriteFold(n, splits, foldPreds, k, foldIds, oof, writes);
      models := models + [Model(regressor, splits[k].train)];
      k := k + 1;
    }
    forall i | 0 <= i < n
      ensures writes[i] == 1
    {
      assert Validated(splits, i);
      var k1 :| 0 <= k1 < |splits| && Validates(splits, k1, i);
      var q1 :| 0 <= q1 < |splits[k1].val| && splits[k1].val[q1] == i;
    }
  }

  // ---------------------------------------------------------------------
  // Residuals
  // ---------------------------------------------------------------------

  /** `np.abs(y - y_pred)`. */
  function Residuals(y: seq<real>, pred: seq<real>): (r: seq<real>)
    requires |pred| == |y|
    ensures |r| == |y|
    ensures forall i :: 0 <= i < |y| ==> 0.0 <= r[i]
    ensures forall i :: 0 <= i < |y| ==> y[i] == pred[i] - r[i] || y[i] == pred[i] + r[i]
  {
    seq(|y|, i requires 0 <= i < |y| => if y[i] >= pred[i] then y[i] - pred[i] else pred[i] - y[i])
  }

  /** Each label lies within its residual of its prediction, and no smaller
      radius around the prediction reaches it. */
  lemma ResidualIsDistance(y: seq<real>, pred: seq<real>, i: nat, radius: real)
    requires |pred| == |y| && i < |y|
    ensures pred[i] - Residuals(y, pred)[i] <= y[i] <= pred[i] + Residuals(y, pred)[i]
    ensures pred[i] - radius <= y[i] <= pred[i] + radius ==> Residuals(y, pred)[i] <= radius
  {
  }

  // ---------------------------------------------------------------------
  // fit
  // ---------------------------------------------------------------------

  /** The state `fit` leaves behind: the checked configuration, the model
      fitted on all rows (`single_estimator_`), `residuals_`, `k_` and
      `estimators_` (the last two empty for "naive"). */
  datatype FitState = FitState(
    config: Config,
    single: Model,
    residuals: seq<real>,
    foldIds: seq<nat>,
    estimators: seq<Model>)

  /** What `predict` may rely on. */
  predicate ValidFit(st: FitState) {
    && 0.0 < st.config.alpha < 1.0
    && |st.residuals| > 0
    && (forall j :: 0 <= j < |st.residuals| ==> 0.0 <= st.residuals[j])
    && (st.config.kind != Naive ==>
          && |st.foldIds| == |st.residuals|
          && |st.estimators| > 0
          && (forall j :: 0 <= j < |st.foldIds| ==> st.foldIds[j] < |st.estimators|))
    && (JackknifeFamily(st.config.kind) ==>
          && |st.estimators| == |st.residuals|
          && (forall j :: 0 <= j < |st.foldIds| ==> st.foldIds[j] == j))
  }

  /** Residual j was measured with a model that did not train on row j. */
  predicate HeldOutPairing(st: FitState)
    requires ValidFit(st) && st.config.kind != Naive
  {
    forall j :: 0 <= j < |st.residuals| ==> j !in st.estimators[st.foldIds[j]].trainedOn
  }

  function Range(n: nat): (r: seq<nat>)
    ensures |r| == n
    ensures forall i :: 0 <= i < n ==> r[i] == i
  {
    seq(n, i => i)
  }

  /** What the caller's splitter and fold models must deliver when the
      parameters are valid and the method needs folds. */
  predicate FoldsAgree(p: Params, splits: seq<Split>, foldPreds: seq<seq<real>>, n: nat) {
    CheckParameters(p).Success? && p.methodName != "naive" ==>
      var cv := SelectCv(p.methodName, p.nSplits, p.shuffle, p.randomState);
      cv.Success? && SplitsOf(cv.value, splits, n) && FoldPredsFit(splits, foldPreds)
  }

  /** After the fold loop over partitioning, held-out splits, every row's
      recorded fold is a fold whose model did not train on that row. */
  lemma FoldOfEachRow(n: nat, splits: seq<Split>, foldIds: seq<nat>, models: seq<Model>, regressor: Regressor)
    requires Partition(splits, n) && HeldOut(splits)
    requires |foldIds| == n && |models| == |splits|
    requires forall k :: 0 <= k < |splits| ==> models[k] == Model(regressor, splits[k].train)
    requires forall k, q :: 0 <= k < |splits| && 0 <= q < |splits[k].val| ==> foldIds[splits[k].val[q]] == k
    ensures n > 0 ==> |models| > 0
    ensures forall j :: 0 <= j < n ==> foldIds[j] < |models| && j !in models[foldIds[j]].trainedOn
  {
    forall j | 0 <= j < n
      ensures foldIds[j] < |models| && j !in models[foldIds[j]].trainedOn
    {
      assert Validated(splits, j);
      var k :| 0 <= k < |splits| && Validates(splits, k, j);
      var q :| 0 <= q < |splits[k].val| && splits[k].val[q] == j;
      assert foldIds[j] == k;
    }
    if n > 0 {
      assert Validated(splits, 0);
    }
  }

  /** Under leave-one-out the fold of row j is j. */
  lemma LeaveOneOutFoldIds(n: nat, splits: seq<Split>, foldIds: seq<nat>)
    requires SplitsOf(LeaveOneOut, splits, n) && |foldIds| == n
    requires forall k, q :: 0 <= k < |splits| && 0 <= q < |splits[k].val| ==> foldIds[splits[k].val[q]] == k
    ensures forall j :: 0 <= j < n ==> foldIds[j] == j
  {
    forall j | 0 <= j < n
      ensures foldIds[j] == j
    {
      assert splits[j].val[0] == j;
    }
  }

  /** `fit`. `inSample` holds the full-data model's predictions on the
      training rows; `foldPreds[k]` holds fold model k's predictions on its
      validation rows. */
  method Fit(p: Params, y: seq<real>, inSample: seq<real>, splits: seq<Split>, foldPreds: seq<seq<real>>)
    returns (r: Result<FitState, ParamError>)
    requires |y| > 0 && |inSample| == |y|
    requires FoldsAgree(p, splits, foldPreds, |y|)
    ensures CheckParameters(p).Failure? ==> r == Failure(CheckParameters(p).error)
    ensures CheckParameters(p).Success? ==> r.Success? && r.value.config == CheckParameters(p).value
    ensures r.Success? ==>
              && ValidFit(r.value)
              && |r.value.residuals| == |y|
              && r.value.single == Model(r.value.config.estimator, Range(|y|))
    ensures r.Success? && p.methodName == "naive" ==>
              && r.value.residuals == Residuals(y, inSample)
              && r.value.foldIds == [] && r.value.estimators == []
    ensures r.Success? && p.methodName != "naive" ==>
              && HeldOutPairing(r.value)
              && |r.value.estimators| == |splits|
              && (forall k :: 0 <= k < |splits| ==>
                    r.value.estimators[k] == Model(r.value.config.estimator, splits[k].train))
              && (forall k, q :: 0 <= k < |splits| && 0 <= q < |splits[k].val| ==>
                    var i := splits[k].val[q];
                    r.value.foldIds[i] == k
                    && (y[i] == foldPreds[k][q] - r.value.residuals[i]
                        || y[i] == foldPreds[k][q] + r.value.residuals[i]))
  {
    var checked := CheckParameters(p);
    if checked.Failure? {
      return Failure(checked.error);
    }
    var cfg := checked.value;
    var n := |y|;
    var single := Model(cfg.estimator, Range(n));
    MethodNameRoundTrip(cfg.kind);
    if p.methodName == "naive" {
      return Success(FitState(cfg, single, Residuals(y, inSample), [], []));
    }
    assert cfg.kind != Naive;
    var cv := SelectCv(p.methodName, p.nSplits, p.shuffle, p.randomState);
    SplitterByMethod(cfg.kind, p.nSplits, p.shuffle, p.randomState);
    if cv.value.LeaveOneOut? {
      LeaveOneOutPartitions(splits, n);
    }
    var foldIds, oof, writes, models := FitFolds(n, splits, foldPreds, cfg.estimator);
    var st := FitState(cfg, single, Residuals(y, oof), foldIds, models);
    FoldOfEachRow(n, splits, foldIds, models, cfg.estimator);
    if JackknifeFamily(cfg.kind) {
      LeaveOneOutFoldIds(n, splits, foldIds);
    }
    r := Success(st);
  }

  // ---------------------------------------------------------------------
  // predict
  // ---------------------------------------------------------------------

  /** One row of the output table: `[center, lower, upper]`. */
  datatype Interval = Interval(center: real, lower: real, upper: real)

  /** Methods whose band is the prediction plus or minus one residual quantile. */
  predicate ResidualQuantileMethod(m: Method) {
    m == Naive || m == Jackknife || m == Cv
  }

  predicate PlusMethod(m: Method) {
    m == JackknifePlus || m == CvPlus
  }

  predicate MinmaxMethod(m: Method) {
    m == JackknifeMinmax || m == CvMinmax
  }

  /** The fold-model predictions for one test row lined up with the
      residuals: for "cv_plus", column j becomes the prediction of fold
      `k_[j]`; for "jackknife_plus" the columns already line up. */
  function AlignedRow(st: FitState, row: seq<real>): (a: seq<real>)
    requires ValidFit(st) && PlusMethod(st.config.kind) && |row| == |st.estimators|
    ensures |a| == |st.residuals|
    ensures forall j :: 0 <= j < |a| ==> a[j] == row[st.foldIds[j]]
  {
    if st.config.kind == CvPlus then seq(|st.foldIds|, j requires 0 <= j < |st.foldIds| => row[st.foldIds[j]])
    else row
  }

  /** One row of `lower_bounds`: column j is the prediction of the model
      that held out row j ("+") or the smallest fold prediction ("minmax"),
      minus residual j. */
  function LowerBounds(st: FitState, row: seq<real>): (b: seq<real>)
    requires ValidFit(st) && !ResidualQuantileMethod(st.config.kind) && |row| == |st.estimators|
    ensures |b| == |st.residuals|
    ensures PlusMethod(st.config.kind) ==>
              forall j :: 0 <= j < |b| ==> b[j] == row[st.foldIds[j]] - st.residuals[j]
    ensures MinmaxMethod(st.config.kind) ==>
              forall j :: 0 <= j < |b| ==> b[j] == Min(row) - st.residuals[j]
  {
    var r := st.residuals;
    if PlusMethod(st.config.kind) then
      var a := AlignedRow(st, row);
      seq(|r|, j requires 0 <= j < |r| => a[j] - r[j])
    else
      var lo := Min(row);
      seq(|r|, j requires 0 <= j < |r| => lo - r[j])
  }

  /** One row of `upper_bounds`: as `LowerBounds`, with the largest fold
      prediction for "minmax" and the residual added. */
  function UpperBounds(st: FitState, row: seq<real>): (b: seq<real>)
    requires ValidFit(st) && !ResidualQuantileMethod(st.config.kind) && |row| == |st.estimators|
    ensures |b| == |st.residuals|
    ensures PlusMethod(st.config.kind) ==>
              forall j :: 0 <= j < |b| ==> b[j] == row[st.foldIds[j]] + st.residuals[j]
    ensures MinmaxMethod(st.config.kind) ==>
              forall j :: 0 <= j < |b| ==> b[j] == Max(row) + st.residuals[j]
  {
    var r := st.residuals;
    if PlusMethod(st.config.kind) then
      var a := AlignedRow(st, row);
      seq(|r|, j requires 0 <= j < |r| => a[j] + r[j])
    else
      var hi := Max(row);
      seq(|r|, j requires 0 <= j < |r| => hi + r[j])
  }

  /** The minmax bound rows stay below the row minimum and above the row
      maximum, because residuals are non-negative. */
  lemma MinmaxBoundsEnclose(st: FitState, row: seq<real>)
    requires ValidFit(st) && MinmaxMethod(st.config.kind) && |row| == |st.estimators|
    ensures forall v :: v in LowerBounds(st, row) ==> v <= Min(row)
    ensures forall v :: v in UpperBounds(st, row) ==> Max(row) <= v
  {
    var lb := LowerBounds(st, row);
    var ub := UpperBounds(st, row);
    forall v | v in lb
      ensures v <= Min(row)
    {
      var j :| 0 <= j < |lb| && lb[j] == v;
    }
    forall v | v in ub
      ensures Max(row) <= v
    {
      var j :| 0 <= j < |ub| && ub[j] == v;
    }
  }

  /** Each lower bound is at most the upper bound of the same column, because
      residuals are non-negative and the row minimum is at most its maximum. */
  lemma BoundRowsOrdered(st: FitState, row: seq<real>)
    requires ValidFit(st) && !ResidualQuantileMethod(st.config.kind) && |row| == |st.estimators|
    ensures |LowerBounds(st, row)| == |UpperBounds(st, row)|
    ensures forall j :: 0 <= j < |LowerBounds(st, row)| ==> LowerBounds(st, row)[j] <= UpperBounds(st, row)[j]
  {
    if MinmaxMethod(st.config.kind) {
      ElementWithinRange(row, row[0]);
    }
  }

  /** For alpha at most 1/2 the chosen lower bound is at most the chosen
      upper bound. */
  lemma BandOrderedUpToHalf(st: FitState, row: seq<real>)
    requires ValidFit(st) && !ResidualQuantileMethod(st.config.kind) && |row| == |st.estimators|
    requires st.config.alpha <= 0.5
    ensures QuantileLower(LowerBounds(st, row), st.config.alpha)
              <= QuantileHigher(UpperBounds(st, row), 1.0 - st.config.alpha)
  {
    BoundRowsOrdered(st, row);
    QuantileBandOrdered(LowerBounds(st, row), UpperBounds(st, row), st.config.alpha);
  }

  /** The "naive", "jackknife" and "cv" rule: the prediction plus or minus
      the "higher" (1 - alpha) quantile of the residuals. */
  function ResidualBand(st: FitState, c: real): (out: Interval)
    requires ValidFit(st)
    ensures out.center == c
    ensures out.lower <= out.center <= out.upper
    ensures out.upper - out.center == out.center - out.lower
    ensures out.upper - out.center in st.residuals
    ensures out.upper - out.lower == 2.0 * QuantileHigher(st.residuals, 1.0 - st.config.alpha)
  {
    var q := QuantileHigher(st.residuals, 1.0 - st.config.alpha);
    Interval(c, c - q, c + q)
  }

  /** The "+" and "minmax" rules: the "lower" alpha quantile of the lower
      bound row and the "higher" (1 - alpha) quantile of the upper bound
      row, around the full-data prediction or the median of the fold
      predictions. */
  function BoundsBand(st: FitState, c: real, row: seq<real>): (out: Interval)
    requires ValidFit(st) && !ResidualQuantileMethod(st.config.kind) && |row| == |st.estimators|
    ensures out.center == (if st.config.returnPred == ReturnMedian then Median(row) else c)
    ensures out.lower == QuantileLower(LowerBounds(st, row), st.config.alpha)
    ensures out.upper == QuantileHigher(UpperBounds(st, row), 1.0 - st.config.alpha)
    ensures out.lower in LowerBounds(st, row)
    ensures out.upper in UpperBounds(st, row)
    ensures MinmaxMethod(st.config.kind) ==> out.lower <= Min(row) && Max(row) <= out.upper
    ensures st.config.alpha <= 0.5 ==> out.lower <= out.upper
  {
    var center := if st.config.returnPred == ReturnMedian then Median(row) else c;
    var lower := QuantileLower(LowerBounds(st, row), st.config.alpha);
    var upper := QuantileHigher(UpperBounds(st, row), 1.0 - st.config.alpha);
    var band := Interval(center, lower, upper);
    var ordered := st.config.alpha <= 0.5;
    if MinmaxMethod(st.config.kind) && ordered then
      MinmaxBoundsEnclose(st, row);
      BandOrderedUpToHalf(st, row);
      band
    else if MinmaxMethod(st.config.kind) then
      MinmaxBoundsEnclose(st, row);
      band
    else if ordered then
      BandOrderedUpToHalf(st, row);
      band
    else band
  }

  /** The prediction table row for one test sample. `c` is the full-data
      model's prediction; `row` holds the fold models' predictions (unused
      by the residual-quantile methods). */
  function PredictRow(st: FitState, c: real, row: seq<real>): (out: Interval)
    requires ValidFit(st)
    requires !ResidualQuantileMethod(st.config.kind) ==> |row| == |st.estimators|
    ensures ResidualQuantileMethod(st.config.kind) ==>
              && out.center == c
              && out.lower <= out.center <= out.upper
              && out.upper - out.center == out.center - out.lower
              && out.upper - out.center in st.residuals
              && out.upper - out.lower == 2.0 * QuantileHigher(st.residuals, 1.0 - st.config.alpha)
    ensures !ResidualQuantileMethod(st.config.kind) ==>
              && out.center == (if st.config.returnPred == ReturnMedian then Median(row) else c)
              && out.lower == QuantileLower(LowerBounds(st, row), st.config.alpha)
              && out.upper == QuantileHigher(UpperBounds(st, row), 1.0 - st.config.alpha)
              && out.lower in LowerBounds(st, row)
              && out.upper in UpperBounds(st, row)
    ensures MinmaxMethod(st.config.kind) ==> out.lower <= Min(row) && Max(row) <= out.upper
    ensures MinmaxMethod(st.config.kind) && st.config.returnPred == ReturnMedian ==>
              out.lower <= out.center <= out.upper
    ensures st.config.alpha <= 0.5 ==> out.lower <= out.upper
  {
    if ResidualQuantileMethod(st.config.kind) then ResidualBand(st, c)
    else BoundsBand(st, c, row)
  }

  /** `predict`: `center[i]` is the full-data model's prediction for test
      row i and `P[i][k]` that of fold model k. */
  function Predict(st: FitState, center: seq<real>, P: seq<seq<real>>): (out: seq<Interval>)
    requires ValidFit(st)
    requires !ResidualQuantileMethod(st.config.kind) ==>
               |P| == |center| && forall i :: 0 <= i < |P| ==> |P[i]| == |st.estimators|
    ensures |out| == |center|
    ensures forall i :: 0 <= i < |center| ==>
              out[i] == PredictRow(st, center[i], if ResidualQuantileMethod(st.config.kind) then [] else P[i])
    ensures ResidualQuantileMethod(st.config.kind) ==>
              forall i, i' :: 0 <= i < |out| && 0 <= i' < |out| ==>
                out[i].upper - out[i].lower == out[i'].upper - out[i'].lower
  {
    seq(|center|, i requires 0 <= i < |center| =>
      PredictRow(st, center[i], if ResidualQuantileMethod(st.config.kind) then [] else P[i]))
  }

  /** For both "+" methods, column j of both bound rows uses the prediction
      of the fold model `k_[j]`, and that model did not train on row j. */
  lemma PlusPairsResidualWithHeldOutModel(st: FitState, row: seq<real>, j: nat)
    requires ValidFit(st) && PlusMethod(st.config.kind) && |row| == |st.estimators|
    requires HeldOutPairing(st)
    requires j < |st.residuals|
    ensures LowerBounds(st, row)[j] == row[st.foldIds[j]] - st.residuals[j]
    ensures UpperBounds(st, row)[j] == row[st.foldIds[j]] + st.residuals[j]
    ensures j !in st.estimators[st.foldIds[j]].trainedOn
  {
  }

  /** Under leave-one-out `k_[j] = j`, so the "cv_plus" re-indexing would
      leave a "jackknife_plus" row unchanged. */
  lemma JackknifePlusNeedsNoReindex(st: FitState, row: seq<real>)
    requires ValidFit(st) && st.config.kind == JackknifePlus && |row| == |st.estimators|
    ensures seq(|st.foldIds|, j requires 0 <= j < |st.foldIds| => row[st.foldIds[j]]) == row
  {
  }

  /** For the "+" methods with the full-data center, the center can fall
      outside the band: fold models that agree on 10 while the full-data
      model predicts 0 give a lower bound of 10. The regressor is a
      user-supplied one: least squares on these rows could not disagree
      like this. */
  lemma PlusCenterMayLeaveBand()
    ensures var st := FitState(Config(UserRegressor(0), 0.5, JackknifePlus, 5, true, ReturnSingle, None),
                               Model(UserRegressor(0), [0, 1]), [0.0, 0.0], [0, 1],
                               [Model(UserRegressor(0), [1]), Model(UserRegressor(0), [0])]);
            ValidFit(st) && PredictRow(st, 0.0, [10.0, 10.0]).center < PredictRow(st, 0.0, [10.0, 10.0]).lower
  {
    var st := FitState(Config(UserRegressor(0), 0.5, JackknifePlus, 5, true, ReturnSingle, None),
                       Model(UserRegressor(0), [0, 1]), [0.0, 0.0], [0, 1],
                       [Model(UserRegressor(0), [1]), Model(UserRegressor(0), [0])]);
    assert ValidFit(st);
    var lb := LowerBounds(st, [10.0, 10.0]);
    assert lb == [10.0, 10.0];
    var out := PredictRow(st, 0.0, [10.0, 10.0]);
    assert out.lower in lb;
    assert out.center == 0.0;
  }

  /** A jackknife_plus fit of a user-supplied regressor on four rows, with
      zero residuals and alpha = 0.9. */
  const NineTenthsFit: FitState :=
    FitState(Config(UserRegressor(0), 0.9, JackknifePlus, 5, true, ReturnSingle, None),
             Model(UserRegressor(0), [0, 1, 2, 3]), [0.0, 0.0, 0.0, 0.0], [0, 1, 2, 3],
             [Model(UserRegressor(0), [1, 2, 3]), Model(UserRegressor(0), [0, 2, 3]),
              Model(UserRegressor(0), [0, 1, 3]), Model(UserRegressor(0), [0, 1, 2])])

  /** Each model of that fit left out the row its residual belongs to. */
  lemma NineTenthsFitHoldsOut()
    ensures ValidFit(NineTenthsFit) && HeldOutPairing(NineTenthsFit)
  {
    var st := NineTenthsFit;
    assert ValidFit(st);
    forall j | 0 <= j < 4
      ensures j !in st.estimators[st.foldIds[j]].trainedOn
    {
      assert st.foldIds[j] == j;
    }
  }

  /** Above alpha = 1/2 a "+" band can come out inverted: with fold
      predictions 0, 1, 2, 3, zero residuals and alpha = 0.9, the lower
      bound is 2 and the upper bound 1. */
  lemma PlusBandMayInvert()
    ensures ValidFit(NineTenthsFit) && HeldOutPairing(NineTenthsFit)
    ensures PredictRow(NineTenthsFit, 1.5, [0.0, 1.0, 2.0, 3.0]).upper
              < PredictRow(NineTenthsFit, 1.5, [0.0, 1.0, 2.0, 3.0]).lower
  {
    var st, row := NineTenthsFit, [0.0, 1.0, 2.0, 3.0];
    NineTenthsFitHoldsOut();
    assert LowerBounds(st, row) == row && UpperBounds(st, row) == row;
    RowQuantilesAtNineTenths(row);
  }

  /** The "lower" 0.9 quantile of 0, 1, 2, 3 is 2 and the "higher" 0.1
      quantile is 1. */
  lemma RowQuantilesAtNineTenths(row: seq<real>)
    requires row == [0.0, 1.0, 2.0, 3.0]
    ensures QuantileLower(row, 0.9) == 2.0 && QuantileHigher(row, 1.0 - 0.9) == 1.0
  {
    assert LowerIndex(4, 0.9) == 2;
    assert HigherIndex(4, 1.0 - 0.9) == 1;
    assert Sorted(row);
    SortedPositionRank(row, 2);
    SortedPositionRank(row, 1);
    RankPinsValue(row, 2, QuantileLower(row, 0.9), 2.0);
    RankPinsValue(row, 1, QuantileHigher(row, 1.0 - 0.9), 1.0);
  }
}
