/** The fractile long/short portfolio: construction and validation, selection of the
    lowest and highest fractiles of the target factor, equal weights, and the
    portfolio's exposure to each sensitivity factor. */
module Portfolio {
  import opened Results
  import opened Sequences
  import opened Frames
  import opened Fractiles

  type Row = Frames.Row<string>
  type Frame = Frames.Frame<string>

  /** The weighting scheme requested; only equal weight is implemented, and `Unsupported`
      stands for any other value a caller may pass. */
  datatype Weighting = EqualWeight | Unsupported(name: string)

  /** The builder's state after construction. */
  datatype FractilePortfolio = FractilePortfolio(
    weighting: Weighting,
    target: string,
    universe: Frame,
    fractiles: int,
    sensi: seq<string>)

  /** A universe row together with the standardized value and fractile of every
      sensitivity factor (the `Zscore <f>` and `Fractile <f>` columns). */
  datatype ScoredRow = ScoredRow(row: Row, scores: map<string, Score>)

  /** A row of the portfolio table: the security and its `Weight`. */
  datatype Position = Position(security: ScoredRow, weight: real)

  // ---------------------------------------------------------------- construction

  predicate NotIdentity(c: string) {
    c != "Date" && c != "Ticker"
  }

  /** With no explicit list, every column except `Date` and `Ticker`, in column order. */
  function DefaultSensiFactors(columns: seq<string>): (r: seq<string>)
    ensures forall c :: c in r <==> c in columns && c != "Date" && c != "Ticker"
    ensures SelectedAt(r, columns, Kept(columns, NotIdentity))
  {
    FilterSelection(columns, NotIdentity);
    Filter(columns, NotIdentity)
  }

  /** Python's `all(names)`: no name is the empty string, the only falsy string. */
  predicate AllTruthy(names: seq<string>) {
    forall i :: 0 <= i < |names| ==> names[i] != ""
  }

  /** Whether the boolean `b` is one of the column labels. The labels are strings and
      a boolean equals no string, so it never is. */
  predicate BoolIsColumn(b: bool, columns: seq<string>) {
    false
  }

  /** The explicit-list validation as written: it raises when the truth value of "every
      name is non-empty" is not a column label, or `Date` or `Ticker` is missing. A
      boolean is never a column label, so every explicit list is rejected. */
  predicate PassesCheckAsWritten(sensi: seq<string>, columns: seq<string>)
    ensures !PassesCheckAsWritten(sensi, columns)
  {
    !(!BoolIsColumn(AllTruthy(sensi), columns) || "Date" !in columns || "Ticker" !in columns)
  }

  /** The validation the error message describes: every listed factor, `Date` and
      `Ticker` are columns of the table. */
  predicate ValidateFactors(sensi: seq<string>, columns: seq<string>) {
    (forall i :: 0 <= i < |sensi| ==> sensi[i] in columns) && "Date" in columns && "Ticker" in columns
  }

  /** The validation as written refuses a list the table fully supports; the corrected
      one accepts it. */
  lemma CheckAsWrittenRejectsValidList()
    ensures !PassesCheckAsWritten(["ROIC"], ["Date", "Ticker", "ROIC"])
    ensures ValidateFactors(["ROIC"], ["Date", "Ticker", "ROIC"])
  {
    assert "ROIC" in ["Date", "Ticker", "ROIC"];
  }

  /** The constructor: drop incomplete rows, choose the sensitivity factors, and check an
      explicit list (by the corrected per-name check). */
  function NewPortfolio(df: Frame, target: string, sensi: Option<seq<string>>,
                        fractiles: int, weighting: Weighting): (r: Result<FractilePortfolio>)
    ensures r.Success? ==>
      && r.value.universe == DropNa(df)
      && r.value.target == target && r.value.fractiles == fractiles && r.value.weighting == weighting
    ensures sensi.None? ==> r.Success? && r.value.sensi == DefaultSensiFactors(df.columns)
    ensures sensi.Some? ==>
      (r.Success? <==> (forall f :: f in sensi.value ==> f in df.columns) && "Date" in df.columns && "Ticker" in df.columns)
    ensures sensi.Some? && r.Success? ==> r.value.sensi == sensi.value
    ensures r.Failure? ==> r.error == InvalidFactors
  {
    var universe := DropNa(df);
    match sensi
    case None => Success(FractilePortfolio(weighting, target, universe, fractiles, DefaultSensiFactors(df.columns)))
    case Some(names) =>
      if ValidateFactors(names, df.columns) then
        Success(FractilePortfolio(weighting, target, universe, fractiles, names))
      else
        Failure(InvalidFactors)
  }

  /** Without a `Date` or `Ticker` column an explicit list is refused, by both checks. */
  lemma ExplicitListNeedsIdentityColumns(df: Frame, target: string, names: seq<string>,
                                         fractiles: int, weighting: Weighting)
    requires "Date" !in df.columns || "Ticker" !in df.columns
    ensures NewPortfolio(df, target, Some(names), fractiles, weighting) == Failure(InvalidFactors)
    ensures !PassesCheckAsWritten(names, df.columns)
  {
  }

  /** The constructor keeps exactly the complete rows, in their original order. */
  lemma NewPortfolioUniverse(df: Frame, target: string, sensi: Option<seq<string>>,
                             fractiles: int, weighting: Weighting)
    requires NewPortfolio(df, target, sensi, fractiles, weighting).Success?
    ensures
      var u := NewPortfolio(df, target, sensi, fractiles, weighting).value.universe;
      && u.columns == df.columns
      && (forall i :: 0 <= i < |u.rows| ==> Complete(df.columns, u.rows[i]))
      && SelectedAt(u.rows, df.rows, Kept(df.rows, CompleteIn(df.columns)))
  {
    DropNaSelection(df);
  }

  // ---------------------------------------------------------------- labels

  predicate HasLabel(s: ScoredRow, target: string, bucket: int) {
    target in s.scores && s.scores[target].fractile == bucket
  }

  function LabelIs(target: string, bucket: int): ScoredRow -> bool {
    s => HasLabel(s, target, bucket)
  }

  /** The row is in the lowest or the highest fractile of the target factor. */
  function Extremes(target: string, n: int): ScoredRow -> bool {
    s => HasLabel(s, target, 1) || HasLabel(s, target, n)
  }

  /** Selected rows outside fractile N: those the weight lambda sends to its else branch. */
  function LowOnly(target: string, n: int): ScoredRow -> bool {
    s => HasLabel(s, target, 1) && !HasLabel(s, target, n)
  }

  /** How many rows carry fractile `bucket` on the target factor. */
  function Count(rows: seq<ScoredRow>, target: string, bucket: int): nat {
    |Filter(rows, LabelIs(target, bucket))|
  }

  function ZColumn(rows: seq<ScoredRow>, f: string): seq<real>
    requires forall i :: 0 <= i < |rows| ==> f in rows[i].scores
  {
    seq(|rows|, i requires 0 <= i < |rows| => rows[i].scores[f].z)
  }

  function LabelColumn(rows: seq<ScoredRow>, f: string): seq<int>
    requires forall i :: 0 <= i < |rows| ==> f in rows[i].scores
  {
    seq(|rows|, i requires 0 <= i < |rows| => rows[i].scores[f].fractile)
  }

  /** Every row is scored on `f`, and the labels form a valid `n`-fractile labelling
      of the standardized values. */
  predicate WellLabelled(rows: seq<ScoredRow>, f: string, n: int) {
    && (forall i :: 0 <= i < |rows| ==> f in rows[i].scores)
    && ValidFractiles(ZColumn(rows, f), LabelColumn(rows, f), n)
  }

  /** The scored table belongs to this portfolio: one entry per universe row, in order,
      each scored on every sensitivity factor. */
  predicate ScoredFor(p: FractilePortfolio, scored: seq<ScoredRow>) {
    && |scored| == |p.universe.rows|
    && (forall i :: 0 <= i < |scored| ==> scored[i].row == p.universe.rows[i])
    && (forall s, f :: s in scored && f in p.sensi ==> f in s.scores)
  }

  /** Equal weight requested on a target that is a sensitivity factor (so its fractile
      column exists), with at least two fractiles so that fractiles 1 and N differ. */
  predicate EqualWeightOn(p: FractilePortfolio) {
    p.fractiles >= 2 && p.target in p.sensi && p.weighting == EqualWeight
  }

  /** Fractiles 1 and N of the target are both occupied or both empty. */
  predicate LegsAgree(p: FractilePortfolio, scored: seq<ScoredRow>) {
    (Count(scored, p.target, 1) == 0) == (Count(scored, p.target, p.fractiles) == 0)
  }

  /** Fractiles 1 and N of the target both hold at least one row. */
  predicate BothLegs(p: FractilePortfolio, scored: seq<ScoredRow>) {
    Count(scored, p.target, 1) > 0 && Count(scored, p.target, p.fractiles) > 0
  }

  // ---------------------------------------------------------------- weights

  /** The selected rows with their equal weights: `high` for fractile N, `low` otherwise. */
  function Weigh(sel: seq<ScoredRow>, target: string, n: int, high: real, low: real): (r: seq<Position>)
    ensures |r| == |sel|
    ensures forall i :: 0 <= i < |r| ==> r[i].security == sel[i]
    ensures forall i :: 0 <= i < |r| ==> r[i].weight == if HasLabel(sel[i], target, n) then high else low
  {
    if |sel| == 0 then []
    else [Position(sel[0], if HasLabel(sel[0], target, n) then high else low)] + Weigh(sel[1..], target, n, high, low)
  }

  /** `_apply_weights`: keep the rows in fractile 1 or N of the target factor and weight
      them equally. As in the code, `num_long` counts fractile 1 and `num_short` fractile
      N, yet fractile N rows get +1/num_long and the others -1/num_short. A weight whose
      count is zero is a division by zero. */
  function ApplyWeights(p: FractilePortfolio, scored: seq<ScoredRow>): (r: Result<seq<Position>>)
    ensures p.target !in p.sensi ==> r == Failure(MissingColumns({"Fractile " + p.target}))
    ensures p.target in p.sensi && p.weighting.Unsupported? ==> r == Failure(NotImplemented(p.weighting.name))
    ensures r.Success? ==> forall i :: 0 <= i < |r.value| ==>
      Extremes(p.target, p.fractiles)(r.value[i].security) && r.value[i].security in scored
    ensures r.Success? ==> forall i :: 0 <= i < |scored| && Extremes(p.target, p.fractiles)(scored[i]) ==>
      exists k :: 0 <= k < |r.value| && r.value[k].security == scored[i]
  {
    if p.target !in p.sensi then
      Failure(MissingColumns({"Fractile " + p.target}))
    else
      var t, n := p.target, p.fractiles;
      var sel := Filter(scored, Extremes(t, n));
      var numLong := Count(sel, t, 1);
      var numShort := Count(sel, t, n);
      if p.weighting.Unsupported? then
        Failure(NotImplemented(p.weighting.name))
      else if (numShort > 0 && numLong == 0) || (|Filter(sel, LowOnly(t, n))| > 0 && numShort == 0) then
        Failure(DivisionByZero)
      else
        // a zero count's placeholder weight is never given to any row
        var high := if numLong > 0 then 1.0 / numLong as real else 0.0;
        var low := if numShort > 0 then -1.0 / numShort as real else 0.0;
        var ptf := Weigh(sel, t, n, high, low);
        assert forall i :: 0 <= i < |scored| && Extremes(t, n)(scored[i]) ==> exists k :: 0 <= k < |ptf| && ptf[k].security == scored[i] by {
          forall i | 0 <= i < |scored| && Extremes(t, n)(scored[i])
            ensures exists k :: 0 <= k < |ptf| && ptf[k].security == scored[i]
          {
            var k :| 0 <= k < |sel| && sel[k] == scored[i];
            assert ptf[k].security == scored[i];
          }
        }
        Success(ptf)
  }

  /** Counting fractile 1 or fractile N among the selected rows counts them in the
      whole universe: the selection keeps every such row. */
  lemma SelectionKeepsBuckets(scored: seq<ScoredRow>, t: string, n: int)
    ensures Filter(Filter(scored, Extremes(t, n)), LabelIs(t, 1)) == Filter(scored, LabelIs(t, 1))
    ensures Filter(Filter(scored, Extremes(t, n)), LabelIs(t, n)) == Filter(scored, LabelIs(t, n))
  {
    FilterFuse(scored, Extremes(t, n), LabelIs(t, 1), LabelIs(t, 1));
    FilterFuse(scored, Extremes(t, n), LabelIs(t, n), LabelIs(t, n));
  }

  /** The securities of a built portfolio are the rows in fractile 1 or N of the target. */
  lemma ApplyWeightsSecurities(p: FractilePortfolio, scored: seq<ScoredRow>)
    requires ApplyWeights(p, scored).Success?
    ensures Securities(ApplyWeights(p, scored).value) == Filter(scored, Extremes(p.target, p.fractiles))
  {
    var t, n := p.target, p.fractiles;
    var sel := Filter(scored, Extremes(t, n));
    var numLong, numShort := Count(sel, t, 1), Count(sel, t, n);
    var high := if numLong > 0 then 1.0 / numLong as real else 0.0;
    var low := if numShort > 0 then -1.0 / numShort as real else 0.0;
    assert ApplyWeights(p, scored).value == Weigh(sel, t, n, high, low);
    WeighSecurities(sel, t, n, high, low);
  }

  /** The portfolio is exactly the universe rows in fractile 1 or N of the target
      factor, in universe order, each carried over unchanged. */
  lemma PortfolioIsExtremeBuckets(p: FractilePortfolio, scored: seq<ScoredRow>)
    requires ApplyWeights(p, scored).Success?
    ensures SelectedAt(Securities(ApplyWeights(p, scored).value), scored, Kept(scored, Extremes(p.target, p.fractiles)))
  {
    ApplyWeightsSecurities(p, scored);
    FilterSelection(scored, Extremes(p.target, p.fractiles));
  }

  /** A successful build, in terms of the universe: the selected rows weighted at
      1/count(1) for fractile N and -1/count(N) for the rest; when anything is selected
      both counts are positive. */
  lemma ApplyWeightsShape(p: FractilePortfolio, scored: seq<ScoredRow>)
    requires p.fractiles >= 2
    requires ApplyWeights(p, scored).Success?
    ensures
      var t, n := p.target, p.fractiles;
      var sel := Filter(scored, Extremes(t, n));
      var lows, highs := Count(scored, t, 1), Count(scored, t, n);
      && (|sel| > 0 ==> lows > 0 && highs > 0)
      && ApplyWeights(p, scored).value ==
           Weigh(sel, t, n, if lows > 0 then 1.0 / lows as real else 0.0,
                            if highs > 0 then -1.0 / highs as real else 0.0)
  {
    var t, n := p.target, p.fractiles;
    var sel := Filter(scored, Extremes(t, n));
    SelectionKeepsBuckets(scored, t, n);
    FilterExtensional(sel, LowOnly(t, n), LabelIs(t, 1));
    if |sel| > 0 {
      assert sel[0] in sel;
      if HasLabel(sel[0], t, n) {
        assert sel[0] in Filter(sel, LabelIs(t, n));
      } else {
        assert sel[0] in Filter(sel, LabelIs(t, 1));
      }
    }
  }

  /** Every fractile N position weighs 1/(number of fractile 1 rows), every fractile 1
      position -1/(number of fractile N rows): the counts are crossed. */
  lemma ApplyWeightsEqualWeights(p: FractilePortfolio, scored: seq<ScoredRow>)
    requires EqualWeightOn(p) && LegsAgree(p, scored)
    ensures ApplyWeights(p, scored).Success?
    ensures
      var ptf, t, n := ApplyWeights(p, scored).value, p.target, p.fractiles;
      var lows, highs := Count(scored, t, 1), Count(scored, t, n);
      && (|ptf| > 0 ==> lows > 0 && highs > 0)
      && (forall i :: 0 <= i < |ptf| && HasLabel(ptf[i].security, t, n) ==>
            ptf[i].weight == 1.0 / lows as real && ptf[i].weight > 0.0)
      && (forall i :: 0 <= i < |ptf| && HasLabel(ptf[i].security, t, 1) ==>
            ptf[i].weight == -1.0 / highs as real && ptf[i].weight < 0.0)
  {
    DivisionByZeroIffOneLegEmpty(p, scored);
    ApplyWeightsShape(p, scored);
    var lows, highs := Count(scored, p.target, 1), Count(scored, p.target, p.fractiles);
    if lows > 0 && highs > 0 {
      ReciprocalPositive(lows);
      ReciprocalPositive(highs);
    }
  }

  lemma ReciprocalPositive(c: nat)
    requires c > 0
    ensures 1.0 / c as real > 0.0 && -1.0 / c as real < 0.0
  {
  }

  // ---------------------------------------------------------------- weight sums

  /** The total weight of the positions in fractile `bucket`. */
  function LegWeight(ptf: seq<Position>, target: string, bucket: int): real {
    if |ptf| == 0 then 0.0
    else (if HasLabel(ptf[0].security, target, bucket) then ptf[0].weight else 0.0) + LegWeight(ptf[1..], target, bucket)
  }

  /** The total weight of the portfolio. */
  function TotalWeight(ptf: seq<Position>): real {
    if |ptf| == 0 then 0.0 else ptf[0].weight + TotalWeight(ptf[1..])
  }

  /** `w` added up `c` times. */
  function Times(c: nat, w: real): real {
    if c == 0 then 0.0 else w + Times(c - 1, w)
  }

  lemma {:induction false} TimesIsProduct(c: nat, w: real)
    ensures Times(c, w) == c as real * w
  {
    if c > 0 {
      TimesIsProduct(c - 1, w);
      assert (c - 1) as real * w + w == c as real * w;
    }
  }

  /** The fractile N positions of weighted rows weigh `high` once per such row. */
  lemma {:induction false} WeighLongLeg(sel: seq<ScoredRow>, t: string, n: int, high: real, low: real)
    ensures LegWeight(Weigh(sel, t, n, high, low), t, n) == Times(Count(sel, t, n), high)
  {
    if |sel| > 0 {
      WeighLongLeg(sel[1..], t, n, high, low);
      var w := Weigh(sel, t, n, high, low);
      assert w[1..] == Weigh(sel[1..], t, n, high, low);
      if HasLabel(sel[0], t, n) {
        assert Filter(sel, LabelIs(t, n)) == [sel[0]] + Filter(sel[1..], LabelIs(t, n));
      }
    }
  }

  /** The fractile 1 positions of weighted rows weigh `low` once per such row. */
  lemma {:induction false} WeighShortLeg(sel: seq<ScoredRow>, t: string, n: int, high: real, low: real)
    requires n != 1
    ensures LegWeight(Weigh(sel, t, n, high, low), t, 1) == Times(Count(sel, t, 1), low)
  {
    if |sel| > 0 {
      WeighShortLeg(sel[1..], t, n, high, low);
      var w := Weigh(sel, t, n, high, low);
      assert w[1..] == Weigh(sel[1..], t, n, high, low);
      if HasLabel(sel[0], t, 1) {
        assert Filter(sel, LabelIs(t, 1)) == [sel[0]] + Filter(sel[1..], LabelIs(t, 1));
      }
    }
  }

  /** Positions in fractile 1 or N only: the total is the sum of the two legs. */
  lemma {:induction false} TotalOfTwoLegs(ptf: seq<Position>, t: string, n: int)
    requires n != 1
    requires forall i :: 0 <= i < |ptf| ==> Extremes(t, n)(ptf[i].security)
    ensures TotalWeight(ptf) == LegWeight(ptf, t, n) + LegWeight(ptf, t, 1)
  {
    if |ptf| > 0 {
      TotalOfTwoLegs(ptf[1..], t, n);
    }
  }

  lemma WeighLegSums(sel: seq<ScoredRow>, t: string, n: int, high: real, low: real)
    requires n != 1
    requires forall s :: s in sel ==> Extremes(t, n)(s)
    ensures LegWeight(Weigh(sel, t, n, high, low), t, n) == Times(Count(sel, t, n), high)
    ensures LegWeight(Weigh(sel, t, n, high, low), t, 1) == Times(Count(sel, t, 1), low)
    ensures TotalWeight(Weigh(sel, t, n, high, low)) ==
      LegWeight(Weigh(sel, t, n, high, low), t, n) + LegWeight(Weigh(sel, t, n, high, low), t, 1)
  {
    WeighLongLeg(sel, t, n, high, low);
    WeighShortLeg(sel, t, n, high, low);
    assert forall i :: 0 <= i < |sel| ==> sel[i] in sel;
    TotalOfTwoLegs(Weigh(sel, t, n, high, low), t, n);
  }

  /** Adding up `ch` weights of 1/cl and `cl` weights of -1/ch. */
  lemma LegArithmetic(cl: nat, ch: nat)
    requires cl > 0 && ch > 0
    ensures Times(ch, 1.0 / cl as real) == ch as real / cl as real
    ensures Times(cl, -1.0 / ch as real) == -(cl as real / ch as real)
  {
    TimesIsProduct(ch, 1.0 / cl as real);
    TimesIsProduct(cl, -1.0 / ch as real);
  }

  /** The long leg (fractile N) weighs count(N)/count(1), the short leg (fractile 1)
      -count(1)/count(N), and the whole portfolio their sum. */
  lemma ApplyWeightsLegSums(p: FractilePortfolio, scored: seq<ScoredRow>)
    requires EqualWeightOn(p) && BothLegs(p, scored)
    ensures ApplyWeights(p, scored).Success?
    ensures
      var ptf, t, n := ApplyWeights(p, scored).value, p.target, p.fractiles;
      var lows, highs := Count(scored, t, 1) as real, Count(scored, t, n) as real;
      && LegWeight(ptf, t, n) == highs / lows
      && LegWeight(ptf, t, 1) == -(lows / highs)
      && TotalWeight(ptf) == highs / lows - lows / highs
  {
    var t, n := p.target, p.fractiles;
    var sel := Filter(scored, Extremes(t, n));
    BothLegsBuild(p, scored);
    ApplyWeightsShape(p, scored);
    SelectionKeepsBuckets(scored, t, n);
    var lows, highs := Count(scored, t, 1), Count(scored, t, n);
    WeighLegSums(sel, t, n, 1.0 / lows as real, -1.0 / highs as real);
    LegArithmetic(lows, highs);
  }

  /** The portfolio is dollar-neutral exactly when both fractiles hold as many rows. */
  lemma DollarNeutralIffBalanced(p: FractilePortfolio, scored: seq<ScoredRow>)
    requires EqualWeightOn(p) && LegsAgree(p, scored)
    ensures ApplyWeights(p, scored).Success?
    ensures TotalWeight(ApplyWeights(p, scored).value) == 0.0 <==>
      Count(scored, p.target, 1) == Count(scored, p.target, p.fractiles)
  {
    var t, n := p.target, p.fractiles;
    DivisionByZeroIffOneLegEmpty(p, scored);
    if Count(scored, t, 1) > 0 {
      ApplyWeightsLegSums(p, scored);
      BalancedRatios(Count(scored, t, 1) as real, Count(scored, t, n) as real);
    } else {
      ApplyWeightsShape(p, scored);
      SelectionKeepsBuckets(scored, t, n);
    }
  }

  lemma BalancedRatios(a: real, b: real)
    requires a > 0.0 && b > 0.0
    ensures b / a - a / b == 0.0 <==> a == b
  {
    if b / a - a / b == 0.0 {
      assert b * b == (b / a) * a * b == (a / b) * a * b == a * a;
      assert (b - a) * (b + a) == 0.0;
    }
  }

  /** With equal weight requested, building fails exactly when one of the two extreme
      fractiles is empty and the other is not. */
  lemma DivisionByZeroIffOneLegEmpty(p: FractilePortfolio, scored: seq<ScoredRow>)
    requires EqualWeightOn(p)
    ensures ApplyWeights(p, scored).Failure? <==>
      ((Count(scored, p.target, 1) == 0) != (Count(scored, p.target, p.fractiles) == 0))
    ensures ApplyWeights(p, scored).Failure? ==> ApplyWeights(p, scored).error == DivisionByZero
  {
    var t, n := p.target, p.fractiles;
    var sel := Filter(scored, Extremes(t, n));
    SelectionKeepsBuckets(scored, t, n);
    FilterExtensional(sel, LowOnly(t, n), LabelIs(t, 1));
  }

  // ---------------------------------------------------------------- exposures

  /** The row's standardized value of factor `f` (`Zscore f`); 0 stands in for a factor
      the row is not scored on, which a scored table never lacks. */
  function ZOf(s: ScoredRow, f: string): real {
    if f in s.scores then s.scores[f].z else 0.0
  }

  /** The sum of the standardized values of `f` over the rows. */
  function SumZ(rows: seq<ScoredRow>, f: string): real {
    if |rows| == 0 then 0.0 else ZOf(rows[0], f) + SumZ(rows[1..], f)
  }

  /** `(Weight * Zscore f).sum()`: the portfolio's exposure to factor `f`. */
  function Exposure(ptf: seq<Position>, f: string): real {
    if |ptf| == 0 then 0.0 else Contribution(ptf[0], f) + Exposure(ptf[1..], f)
  }

  /** One position's `Weight * Zscore f`. */
  function Contribution(x: Position, f: string): real {
    x.weight * ZOf(x.security, f)
  }

  /** The securities of the positions, in order. */
  function Securities(ptf: seq<Position>): (r: seq<ScoredRow>)
    ensures |r| == |ptf|
    ensures forall i :: 0 <= i < |r| ==> r[i] == ptf[i].security
  {
    if |ptf| == 0 then [] else [ptf[0].security] + Securities(ptf[1..])
  }

  /** Exposure adds up over a split of the positions by any test. */
  lemma {:induction false} ExposureSplit(ptf: seq<Position>, p: Position -> bool, q: Position -> bool, f: string)
    requires forall x :: q(x) == !p(x)
    ensures Exposure(ptf, f) == Exposure(Filter(ptf, p), f) + Exposure(Filter(ptf, q), f)
  {
    if |ptf| > 0 {
      ExposureSplit(ptf[1..], p, q, f);
      if p(ptf[0]) {
        var r := [ptf[0]] + Filter(ptf[1..], p);
        assert r[0] == ptf[0] && r[1..] == Filter(ptf[1..], p);
        assert Exposure(r, f) == Contribution(ptf[0], f) + Exposure(Filter(ptf[1..], p), f);
      } else {
        var r := [ptf[0]] + Filter(ptf[1..], q);
        assert r[0] == ptf[0] && r[1..] == Filter(ptf[1..], q);
        assert Exposure(r, f) == Contribution(ptf[0], f) + Exposure(Filter(ptf[1..], q), f);
      }
    }
  }

  /** Positions whose security passes `keep`. */
  function OnSecurity(keep: ScoredRow -> bool): Position -> bool {
    (x: Position) => keep(x.security)
  }

  function NotLabel(target: string, bucket: int): ScoredRow -> bool {
    s => !HasLabel(s, target, bucket)
  }

  /** Weighting commutes with selecting rows. */
  lemma {:induction false} WeighFilter(sel: seq<ScoredRow>, t: string, n: int, high: real, low: real, keep: ScoredRow -> bool)
    ensures Filter(Weigh(sel, t, n, high, low), OnSecurity(keep)) == Weigh(Filter(sel, keep), t, n, high, low)
  {
    if |sel| > 0 {
      WeighFilter(sel[1..], t, n, high, low, keep);
      var w := Weigh(sel, t, n, high, low);
      assert w[1..] == Weigh(sel[1..], t, n, high, low);
      if keep(sel[0]) {
        var r := [sel[0]] + Filter(sel[1..], keep);
        assert r[0] == sel[0] && r[1..] == Filter(sel[1..], keep);
      }
    }
  }

  /** Weighing rows puts them, unchanged, in the positions. */
  lemma WeighSecurities(sel: seq<ScoredRow>, t: string, n: int, high: real, low: real)
    ensures Securities(Weigh(sel, t, n, high, low)) == sel
  {
  }

  /** The exposure of weighted rows splits into the fractile N rows and the others. */
  lemma WeighExposureSplit(sel: seq<ScoredRow>, t: string, n: int, high: real, low: real, f: string)
    ensures Exposure(Weigh(sel, t, n, high, low), f) ==
      Exposure(Weigh(Filter(sel, LabelIs(t, n)), t, n, high, low), f) +
      Exposure(Weigh(Filter(sel, NotLabel(t, n)), t, n, high, low), f)
  {
    var w := Weigh(sel, t, n, high, low);
    ExposureSplit(w, OnSecurity(LabelIs(t, n)), OnSecurity(NotLabel(t, n)), f);
    WeighFilter(sel, t, n, high, low, LabelIs(t, n));
    WeighFilter(sel, t, n, high, low, NotLabel(t, n));
  }

  /** Every fractile N row is weighed `high`. */
  lemma LongLegWeights(sel: seq<ScoredRow>, t: string, n: int, high: real, low: real)
    ensures forall i :: 0 <= i < |Weigh(Filter(sel, LabelIs(t, n)), t, n, high, low)| ==>
      Weigh(Filter(sel, LabelIs(t, n)), t, n, high, low)[i].weight == high
  {
    var rows := Filter(sel, LabelIs(t, n));
    assert forall i :: 0 <= i < |rows| ==> rows[i] in rows;
  }

  /** Every row outside fractile N is weighed `low`. */
  lemma ShortLegWeights(sel: seq<ScoredRow>, t: string, n: int, high: real, low: real)
    ensures forall i :: 0 <= i < |Weigh(Filter(sel, NotLabel(t, n)), t, n, high, low)| ==>
      Weigh(Filter(sel, NotLabel(t, n)), t, n, high, low)[i].weight == low
  {
    var rows := Filter(sel, NotLabel(t, n));
    assert forall i :: 0 <= i < |rows| ==> rows[i] in rows;
  }

  /** Among selected rows, those outside fractile N are exactly those in fractile 1. */
  lemma OutsideTopIsBottom(sel: seq<ScoredRow>, t: string, n: int)
    requires n != 1
    requires forall s :: s in sel ==> Extremes(t, n)(s)
    ensures Filter(sel, NotLabel(t, n)) == Filter(sel, LabelIs(t, 1))
  {
    FilterAgree(sel, NotLabel(t, n), LabelIs(t, 1));
  }

  lemma ShortLegSum(sel: seq<ScoredRow>, t: string, n: int, f: string)
    requires n != 1
    requires forall s :: s in sel ==> Extremes(t, n)(s)
    ensures SumZ(Filter(sel, NotLabel(t, n)), f) == SumZ(Filter(sel, LabelIs(t, 1)), f)
  {
    OutsideTopIsBottom(sel, t, n);
  }

  /** Positions that all weigh 1/a are exposed their summed values over a. */
  lemma {:induction false} ExposureAtReciprocal(ptf: seq<Position>, a: real, f: string)
    requires a > 0.0
    requires forall i :: 0 <= i < |ptf| ==> ptf[i].weight == 1.0 / a
    ensures Exposure(ptf, f) == SumZ(Securities(ptf), f) / a
  {
    if |ptf| > 0 {
      ExposureAtReciprocal(ptf[1..], a, f);
      assert Securities(ptf)[1..] == Securities(ptf[1..]);
    }
  }

  /** Positions that all weigh -1/b are exposed minus their summed values over b. */
  lemma {:induction false} ExposureAtNegativeReciprocal(ptf: seq<Position>, b: real, f: string)
    requires b > 0.0
    requires forall i :: 0 <= i < |ptf| ==> ptf[i].weight == -1.0 / b
    ensures Exposure(ptf, f) == -(SumZ(Securities(ptf), f) / b)
  {
    if |ptf| > 0 {
      ExposureAtNegativeReciprocal(ptf[1..], b, f);
      assert Securities(ptf)[1..] == Securities(ptf[1..]);
    }
  }

  lemma LongLegAtReciprocal(sel: seq<ScoredRow>, t: string, n: int, a: real, b: real, f: string)
    requires a > 0.0 && b > 0.0
    ensures Exposure(Weigh(Filter(sel, LabelIs(t, n)), t, n, 1.0 / a, -1.0 / b), f) ==
      SumZ(Filter(sel, LabelIs(t, n)), f) / a
  {
    LongLegWeights(sel, t, n, 1.0 / a, -1.0 / b);
    ExposureAtReciprocal(Weigh(Filter(sel, LabelIs(t, n)), t, n, 1.0 / a, -1.0 / b), a, f);
    WeighSecurities(Filter(sel, LabelIs(t, n)), t, n, 1.0 / a, -1.0 / b);
  }

  lemma ShortLegAtReciprocal(sel: seq<ScoredRow>, t: string, n: int, a: real, b: real, f: string)
    requires a > 0.0 && b > 0.0
    ensures Exposure(Weigh(Filter(sel, NotLabel(t, n)), t, n, 1.0 / a, -1.0 / b), f) ==
      -(SumZ(Filter(sel, NotLabel(t, n)), f) / b)
  {
    ShortLegWeights(sel, t, n, 1.0 / a, -1.0 / b);
    ExposureAtNegativeReciprocal(Weigh(Filter(sel, NotLabel(t, n)), t, n, 1.0 / a, -1.0 / b), b, f);
    WeighSecurities(Filter(sel, NotLabel(t, n)), t, n, 1.0 / a, -1.0 / b);
  }

  /** Weights of 1/a on fractile N and -1/b elsewhere give an exposure of the summed
      fractile N values over a, less the summed fractile 1 values over b. */
  lemma ReciprocalLegExposure(sel: seq<ScoredRow>, t: string, n: int, a: real, b: real, f: string)
    requires a > 0.0 && b > 0.0
    requires SumZ(Filter(sel, NotLabel(t, n)), f) == SumZ(Filter(sel, LabelIs(t, 1)), f)
    ensures Exposure(Weigh(sel, t, n, 1.0 / a, -1.0 / b), f) ==
      SumZ(Filter(sel, LabelIs(t, n)), f) / a - SumZ(Filter(sel, LabelIs(t, 1)), f) / b
  {
    WeighExposureSplit(sel, t, n, 1.0 / a, -1.0 / b, f);
    LongLegAtReciprocal(sel, t, n, a, b, f);
    ShortLegAtReciprocal(sel, t, n, a, b, f);
  }

  /** A non-empty build is the selection weighed at 1/count(1) and -1/count(N), and
      both counts are positive. */
  lemma ApplyWeightsNonEmpty(p: FractilePortfolio, scored: seq<ScoredRow>)
    requires p.fractiles >= 2
    requires ApplyWeights(p, scored).Success?
    requires |ApplyWeights(p, scored).value| > 0
    ensures
      var t, n := p.target, p.fractiles;
      var sel := Filter(scored, Extremes(t, n));
      var lows, highs := Count(scored, t, 1), Count(scored, t, n);
      && lows > 0 && highs > 0
      && ApplyWeights(p, scored).value == Weigh(sel, t, n, 1.0 / lows as real, -1.0 / highs as real)
      && (forall s :: s in sel ==> Extremes(t, n)(s))
      && Filter(sel, LabelIs(t, n)) == Filter(scored, LabelIs(t, n))
      && Filter(sel, LabelIs(t, 1)) == Filter(scored, LabelIs(t, 1))
  {
    ApplyWeightsShape(p, scored);
    SelectionKeepsBuckets(scored, p.target, p.fractiles);
  }

  /** The exposure of a built portfolio to `f`: the summed values of fractile N over
      count(1), less the summed values of fractile 1 over count(N). */
  lemma ApplyWeightsExposure(p: FractilePortfolio, scored: seq<ScoredRow>, f: string)
    requires EqualWeightOn(p) && BothLegs(p, scored)
    ensures ApplyWeights(p, scored).Success?
    ensures
      var ptf, t, n := ApplyWeights(p, scored).value, p.target, p.fractiles;
      var lows, highs := Count(scored, t, 1) as real, Count(scored, t, n) as real;
      Exposure(ptf, f) ==
        SumZ(Filter(scored, LabelIs(t, n)), f) / lows - SumZ(Filter(scored, LabelIs(t, 1)), f) / highs
  {
    var t, n := p.target, p.fractiles;
    var sel := Filter(scored, Extremes(t, n));
    var lows, highs := Count(scored, t, 1) as real, Count(scored, t, n) as real;
    BothLegsBuild(p, scored);
    ApplyWeightsNonEmpty(p, scored);
    ShortLegSum(sel, t, n, f);
    ReciprocalLegExposure(sel, t, n, lows, highs, f);
  }

  /** Each value of `hi` exceeds each value of `lo`; with as many of each, `hi` sums to more. */
  lemma {:induction false} SumDominates(hi: seq<ScoredRow>, lo: seq<ScoredRow>, f: string)
    requires |hi| == |lo| > 0
    requires forall x, y :: x in hi && y in lo ==> ZOf(x, f) > ZOf(y, f)
    ensures SumZ(hi, f) > SumZ(lo, f)
  {
    assert hi[0] in hi && lo[0] in lo;
    if |hi| > 1 {
      assert forall x :: x in hi[1..] ==> x in hi;
      assert forall y :: y in lo[1..] ==> y in lo;
      SumDominates(hi[1..], lo[1..], f);
    }
  }

  /** Under a valid labelling every fractile N value exceeds every fractile 1 value. */
  lemma TopAboveBottom(scored: seq<ScoredRow>, t: string, n: int)
    requires n >= 2
    requires WellLabelled(scored, t, n)
    ensures forall x, y :: x in Filter(scored, LabelIs(t, n)) && y in Filter(scored, LabelIs(t, 1)) ==>
      ZOf(x, t) > ZOf(y, t)
  {
    forall x, y | x in Filter(scored, LabelIs(t, n)) && y in Filter(scored, LabelIs(t, 1))
      ensures ZOf(x, t) > ZOf(y, t)
    {
      var i :| 0 <= i < |scored| && scored[i] == x;
      var j :| 0 <= j < |scored| && scored[j] == y;
      assert LabelColumn(scored, t)[j] < LabelColumn(scored, t)[i];
      HigherLabelLargerValue(ZColumn(scored, t), LabelColumn(scored, t), n, j, i);
    }
  }

  /** Under a valid labelling, with both extreme fractiles the same size, the portfolio
      is positively exposed to its own target factor. */
  lemma BalancedTargetExposurePositive(p: FractilePortfolio, scored: seq<ScoredRow>)
    requires EqualWeightOn(p)
    requires WellLabelled(scored, p.target, p.fractiles)
    requires Count(scored, p.target, 1) == Count(scored, p.target, p.fractiles) > 0
    ensures ApplyWeights(p, scored).Success?
    ensures Exposure(ApplyWeights(p, scored).value, p.target) > 0.0
  {
    var t, n := p.target, p.fractiles;
    var hi, lo := Filter(scored, LabelIs(t, n)), Filter(scored, LabelIs(t, 1));
    TopAboveBottom(scored, t, n);
    SumDominates(hi, lo, t);
    BalancedExposure(p, scored);
  }

  lemma BalancedExposure(p: FractilePortfolio, scored: seq<ScoredRow>)
    requires EqualWeightOn(p) && BothLegs(p, scored)
    requires Count(scored, p.target, 1) == Count(scored, p.target, p.fractiles)
    requires SumZ(Filter(scored, LabelIs(p.target, p.fractiles)), p.target) >
             SumZ(Filter(scored, LabelIs(p.target, 1)), p.target)
    ensures ApplyWeights(p, scored).Success?
    ensures Exposure(ApplyWeights(p, scored).value, p.target) > 0.0
  {
    ApplyWeightsExposure(p, scored, p.target);
    SameDenominator(Exposure(ApplyWeights(p, scored).value, p.target),
      SumZ(Filter(scored, LabelIs(p.target, p.fractiles)), p.target),
      SumZ(Filter(scored, LabelIs(p.target, 1)), p.target),
      Count(scored, p.target, 1) as real);
  }

  /** With both extreme fractiles occupied, equal weight builds a non-empty portfolio. */
  lemma BothLegsBuild(p: FractilePortfolio, scored: seq<ScoredRow>)
    requires EqualWeightOn(p) && BothLegs(p, scored)
    ensures ApplyWeights(p, scored).Success?
    ensures |ApplyWeights(p, scored).value| > 0
  {
    DivisionByZeroIffOneLegEmpty(p, scored);
    var low := Filter(scored, LabelIs(p.target, 1));
    assert low[0] in scored && Extremes(p.target, p.fractiles)(low[0]);
    var i :| 0 <= i < |scored| && scored[i] == low[0];
  }

  lemma SameDenominator(e: real, x: real, y: real, k: real)
    requires x > y && k > 0.0
    requires e == x / k - y / k
    ensures e > 0.0
  {
    assert x / k - y / k == (x - y) / k;
  }

  /** The rows of a one-factor table whose `X` values are 1, 2 and 3. */
  function ExampleTable(): Frame {
    Frame(["X"], [map["X" := Num(1.0)], map["X" := Num(2.0)], map["X" := Num(3.0)]])
  }

  /** The table scored in two fractiles: the z-scores of 1, 2, 3 to four places, and the
      halves of the quantile cut, whose median edge 0 falls in fractile 1. */
  function ExampleRows(): seq<ScoredRow> {
    [ScoredRow(ExampleTable().rows[0], map["X" := Score(-1.2247, 1)]),
     ScoredRow(ExampleTable().rows[1], map["X" := Score(0.0, 1)]),
     ScoredRow(ExampleTable().rows[2], map["X" := Score(1.2247, 2)])]
  }

  function ExamplePortfolio(): FractilePortfolio {
    FractilePortfolio(EqualWeight, "X", ExampleTable(), 2, ["X"])
  }

  /** The example portfolio is what the constructor builds from the table with default
      factors, two fractiles and equal weight. */
  lemma ExampleIsConstructed()
    ensures NewPortfolio(ExampleTable(), "X", None, 2, EqualWeight) == Success(ExamplePortfolio())
  {
    var f := ExampleTable();
    assert forall i :: 0 <= i < |f.rows| ==> Complete(f.columns, f.rows[i]);
    DropNaKeepsComplete(f);
    assert f.columns[1..] == [];
    assert DefaultSensiFactors(f.columns) == ["X"];
  }

  lemma ExampleScored()
    ensures ScoredFor(ExamplePortfolio(), ExampleRows())
  {
    var scored := ExampleRows();
    assert forall s :: s in scored ==> "X" in s.scores by {
      assert scored == [scored[0], scored[1], scored[2]];
    }
  }

  lemma ExampleCounts()
    ensures Count(ExampleRows(), "X", 1) == 2 && Count(ExampleRows(), "X", 2) == 1
  {
    var scored := ExampleRows();
    var r1, r2, r3 := scored[0], scored[1], scored[2];
    assert scored[1..] == [r2, r3] && [r2, r3][1..] == [r3] && [r3][1..] == [];
    assert HasLabel(r1, "X", 1) && !HasLabel(r1, "X", 2);
    assert HasLabel(r2, "X", 1) && !HasLabel(r2, "X", 2);
    assert HasLabel(r3, "X", 2) && !HasLabel(r3, "X", 1);
    assert Filter([r3], LabelIs("X", 1)) == [];
    assert Filter([r2, r3], LabelIs("X", 1)) == [r2];
    assert Filter(scored, LabelIs("X", 1)) == [r1, r2];
    assert Filter([r3], LabelIs("X", 2)) == [r3];
    assert Filter([r2, r3], LabelIs("X", 2)) == [r3];
    assert Filter(scored, LabelIs("X", 2)) == [r3];
  }

  lemma ExampleBuilds()
    ensures ApplyWeights(ExamplePortfolio(), ExampleRows()).Success?
    ensures |ApplyWeights(ExamplePortfolio(), ExampleRows()).value| > 0
  {
    ExampleCounts();
    BothLegsBuild(ExamplePortfolio(), ExampleRows());
  }

  /** With fractile 1 holding two rows and fractile 2 one, the long leg weighs 0.5, the
      short leg -2 and the portfolio -1.5: the crossed counts leave it neither
      unit-weighted per leg nor dollar-neutral. */
  lemma CrossedCountsExample()
    ensures ApplyWeights(ExamplePortfolio(), ExampleRows()).Success?
    ensures LegWeight(ApplyWeights(ExamplePortfolio(), ExampleRows()).value, "X", 2) == 0.5
    ensures LegWeight(ApplyWeights(ExamplePortfolio(), ExampleRows()).value, "X", 1) == -2.0
    ensures TotalWeight(ApplyWeights(ExamplePortfolio(), ExampleRows()).value) == -1.5
  {
    ExampleCounts();
    ExampleBuilds();
    ApplyWeightsLegSums(ExamplePortfolio(), ExampleRows());
    var ptf := ApplyWeights(ExamplePortfolio(), ExampleRows()).value;
    ExampleRatios(LegWeight(ptf, "X", 2), LegWeight(ptf, "X", 1), TotalWeight(ptf),
      Count(ExampleRows(), "X", 1) as real, Count(ExampleRows(), "X", 2) as real);
  }

  lemma ExampleRatios(long: real, short: real, total: real, lows: real, highs: real)
    requires lows == 2.0 && highs == 1.0
    requires long == highs / lows && short == -(lows / highs) && total == highs / lows - lows / highs
    ensures long == 0.5 && short == -2.0 && total == -1.5
  {
  }

  // ---------------------------------------------------------------- processing

  /** The two results of a build: the weighted positions and the exposure to every
      sensitivity factor. */
  datatype Built = Built(positions: seq<Position>, exposures: map<string, real>)

  /** `process_ptf` on an already scored universe, with each weight computed row by
      row as a number: weight the extreme fractiles, then compute the exposure to each
      sensitivity factor. */
  function ProcessByRow(p: FractilePortfolio, scored: seq<ScoredRow>): (r: Result<Built>)
    requires ScoredFor(p, scored)
    ensures r.Failure? <==> ApplyWeights(p, scored).Failure?
    ensures r.Failure? ==> r.error == ApplyWeights(p, scored).error
    ensures r.Success? ==> r.value.positions == ApplyWeights(p, scored).value
    ensures r.Success? ==> forall i :: 0 <= i < |r.value.positions| ==>
      r.value.positions[i].security.row in p.universe.rows
    ensures r.Success? ==> p.target in r.value.exposures
    ensures r.Success? ==> forall f :: f in r.value.exposures <==> f in p.sensi
    ensures r.Success? ==> forall f :: f in p.sensi ==>
      r.value.exposures[f] == Exposure(r.value.positions, f)
  {
    var ptf :- ApplyWeights(p, scored);
    assert forall i :: 0 <= i < |ptf| ==> ptf[i].security.row in p.universe.rows by {
      forall i | 0 <= i < |ptf|
        ensures ptf[i].security.row in p.universe.rows
      {
        var j :| 0 <= j < |scored| && scored[j] == ptf[i].security;
      }
    }
    Success(Built(ptf, map f | f in p.sensi :: Exposure(ptf, f)))
  }

  /** Whether `apply` leaves the `Weight` column categorical. The fractile column comes
      from the quantile cut with labels 1..N, so it is categorical, and `apply` on it
      maps the N categories rather than the rows: fractile N to the long weight and the
      N - 1 others to the one short weight. The mapped categories are distinct, and the
      result stays categorical, when N <= 2; an empty selection also stays an empty
      categorical column. */
  predicate WeightStaysCategorical(p: FractilePortfolio, ptf: seq<Position>) {
    p.fractiles <= 2 || |ptf| == 0
  }

  /** `process_ptf` as written: a categorical `Weight` column cannot be multiplied by the
      z-scores, so the exposure step raises; otherwise the build is the row-by-row one. */
  function Process(p: FractilePortfolio, scored: seq<ScoredRow>): (r: Result<Built>)
    requires ScoredFor(p, scored)
    ensures ApplyWeights(p, scored).Failure? ==> r == Failure(ApplyWeights(p, scored).error)
    ensures ApplyWeights(p, scored).Success? ==>
      (r.Failure? <==> p.fractiles <= 2 || |ApplyWeights(p, scored).value| == 0)
    ensures ApplyWeights(p, scored).Success? && r.Failure? ==> r.error == CategoricalWeights
    ensures r.Success? ==> r == ProcessByRow(p, scored)
  {
    var ptf :- ApplyWeights(p, scored);
    if WeightStaysCategorical(p, ptf) then Failure(CategoricalWeights) else ProcessByRow(p, scored)
  }

  /** With a valid labelling of the target factor, at least three fractiles and extreme
      fractiles of one size, processing succeeds and reports a positive exposure to the
      target factor. */
  lemma ProcessTargetExposurePositive(p: FractilePortfolio, scored: seq<ScoredRow>)
    requires ScoredFor(p, scored) && EqualWeightOn(p) && p.fractiles >= 3
    requires WellLabelled(scored, p.target, p.fractiles)
    requires Count(scored, p.target, 1) == Count(scored, p.target, p.fractiles) > 0
    ensures Process(p, scored).Success?
    ensures Process(p, scored).value.exposures[p.target] > 0.0
  {
    BalancedTargetExposurePositive(p, scored);
    BothLegsBuild(p, scored);
  }

  /** Computed row by row, the same holds from two fractiles on. */
  lemma ProcessByRowTargetExposurePositive(p: FractilePortfolio, scored: seq<ScoredRow>)
    requires ScoredFor(p, scored) && EqualWeightOn(p)
    requires WellLabelled(scored, p.target, p.fractiles)
    requires Count(scored, p.target, 1) == Count(scored, p.target, p.fractiles) > 0
    ensures ProcessByRow(p, scored).Success?
    ensures ProcessByRow(p, scored).value.exposures[p.target] > 0.0
  {
    BalancedTargetExposurePositive(p, scored);
  }

  /** With two fractiles, both occupied, the build as written raises on the categorical
      weights, while the row-by-row build succeeds. */
  lemma TwoFractilesRaise(p: FractilePortfolio, scored: seq<ScoredRow>)
    requires ScoredFor(p, scored) && EqualWeightOn(p) && p.fractiles == 2
    requires BothLegs(p, scored)
    ensures Process(p, scored) == Failure(CategoricalWeights)
    ensures ProcessByRow(p, scored).Success?
  {
    BothLegsBuild(p, scored);
  }

  /** The three-row example, processed: as written it raises, row by row it builds. */
  lemma ExampleProcessRaises()
    ensures ScoredFor(ExamplePortfolio(), ExampleRows())
    ensures Process(ExamplePortfolio(), ExampleRows()) == Failure(CategoricalWeights)
    ensures ProcessByRow(ExamplePortfolio(), ExampleRows()).Success?
  {
    ExampleCounts();
    ExampleScored();
    TwoFractilesRaise(ExamplePortfolio(), ExampleRows());
  }
}
