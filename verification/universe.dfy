/** The screening script: project the raw security table onto the working columns,
    exclude fossil-fuel industry groups, require a minimum score on each ESG pillar,
    drop incomplete rows, and name the factor columns to be ranked. */
module Universe {
  import opened Results
  import opened Sequences
  import opened Frames

  /** The columns of the security file that the script names; `Other` stands for any
      further column of the raw file. An `Other` whose heading equals a named column's
      header is a different column here, although the file would not tell them apart. */
  datatype Column =
    | Name | Isin | Country | GicsSector | IndustryGroup
    | EScore | SScore | GScore
    | Odd13 | Odd14 | Odd15
    | Roic | PbRatio | FcfYield
    | VaR95 | CVaR95 | MaxDrawdown | Sharpe | Volatility | AnnualizedReturn
    | Other(heading: string)
  {
    /** The column's header in the security file. */
    function Header(): string {
      match this
      case Name => "name"
      case Isin => "isin"
      case Country => "country"
      case GicsSector => "gics_sector_name"
      case IndustryGroup => "industry_group"
      case EScore => "E_SCORE"
      case SScore => "S_SCORE"
      case GScore => "G_SCORE"
      case Odd13 => "ODD_13"
      case Odd14 => "ODD_14"
      case Odd15 => "ODD_15"
      case Roic => "ROIC"
      case PbRatio => "PB ratio"
      case FcfYield => "FCF yield"
      case VaR95 => "VaR 95% 5Y"
      case CVaR95 => "CVaR 95% 5Y"
      case MaxDrawdown => "Max drawdown 5Y"
      case Sharpe => "Sharpe 5Y"
      case Volatility => "Volatility 5Y"
      case AnnualizedReturn => "Annualized return 5Y"
      case Other(heading) => heading
    }
  }

  type Row = Frames.Row<Column>
  type Frame = Frames.Frame<Column>

  /** The columns kept from the raw file, in order: identity, ESG pillars,
      sustainable-development-goal flags, financial ratios, risk/performance metrics. */
  const Projected: seq<Column> := [
    Name, Isin, Country, GicsSector, IndustryGroup,
    EScore, SScore, GScore,
    Odd13, Odd14, Odd15,
    Roic, PbRatio, FcfYield,
    VaR95, CVaR95, MaxDrawdown, Sharpe, Volatility, AnnualizedReturn
  ]

  /** Industry groups removed by the sector exclusion. */
  const ExcludedGroups: seq<string> := ["Oil&Gas", "Oil&Gas Services", "Gas"]

  /** The minimum accepted score on every ESG pillar. */
  const MinPillarScore: real := 3.0

  /** Identity and risk/performance columns, which are never ranked as factors. */
  const NonFactorColumns: seq<Column> := [
    Name, Isin, Country, GicsSector, IndustryGroup,
    VaR95, CVaR95, MaxDrawdown, Sharpe, Volatility, AnnualizedReturn
  ]

  // ---------------------------------------------------------------- projection

  /** The row restricted to the projected columns. */
  function Restrict(row: Row): (r: Row)
    ensures forall c :: c in r <==> c in row && c in Projected
    ensures forall c :: c in r ==> r[c] == row[c]
  {
    map c | c in row && c in Projected :: row[c]
  }

  /** The headers of the working columns absent from `columns`. */
  function AbsentHeaders(columns: seq<Column>): set<string> {
    set c | c in Projected && c !in columns :: c.Header()
  }

  /** `df_all[[...]]`: selecting the working columns fails with a key error naming every
      absent one; otherwise every row keeps exactly its projected cells. */
  function Project(raw: Frame): (r: Result<Frame>)
    ensures r.Failure? <==> exists c :: c in Projected && c !in raw.columns
    ensures r.Failure? ==> r.error == MissingColumns(AbsentHeaders(raw.columns))
    ensures r.Success? ==> r.value.columns == Projected && |r.value.rows| == |raw.rows|
    ensures r.Success? ==> forall i :: 0 <= i < |raw.rows| ==> r.value.rows[i] == Restrict(raw.rows[i])
  {
    if exists c :: c in Projected && c !in raw.columns then
      Failure(MissingColumns(AbsentHeaders(raw.columns)))
    else
      Success(Frame(Projected, seq(|raw.rows|, i requires 0 <= i < |raw.rows| => Restrict(raw.rows[i]))))
  }

  // ---------------------------------------------------------------- row predicates

  /** The row's industry group is not one of the excluded ones. A missing group is NaN,
      which `isin` does not match, so the row stays (for `dropna` to remove later). */
  predicate NotExcluded(row: Row) {
    !(IndustryGroup in row && row[IndustryGroup].Text? && row[IndustryGroup].text in ExcludedGroups)
  }

  /** The pillar score in `column` is a number of at least the minimum. A missing score
      compares false (NaN >= 3), so the row is dropped. */
  predicate PillarAtLeast(row: Row, column: Column) {
    column in row && row[column].Num? && row[column].value >= MinPillarScore
  }

  function MeetsMinimum(column: Column): Row -> bool {
    row => PillarAtLeast(row, column)
  }

  /** `astype(float)` cannot convert the cell in `column`. */
  predicate Unparseable(row: Row, column: Column) {
    column in row && row[column].Text?
  }

  /** Every test a row must pass to stay in the universe. */
  predicate Eligible(row: Row) {
    && NotExcluded(row)
    && PillarAtLeast(row, EScore)
    && PillarAtLeast(row, SScore)
    && PillarAtLeast(row, GScore)
    && Complete(Projected, row)
  }

  // ---------------------------------------------------------------- filter steps

  /** One `df[df[column].astype(float) >= 3]` step: the conversion of the whole column
      fails if any remaining cell is text; otherwise the rows meeting the minimum stay. */
  function ThresholdStep(rows: seq<Row>, column: Column): (r: Result<seq<Row>>)
    ensures r.Failure? <==> exists i :: 0 <= i < |rows| && Unparseable(rows[i], column)
    ensures r.Failure? ==> r.error == ParseError(column.Header())
    ensures r.Success? ==> forall i :: 0 <= i < |r.value| ==> PillarAtLeast(r.value[i], column) && r.value[i] in rows
    ensures r.Success? ==> forall i :: 0 <= i < |rows| && PillarAtLeast(rows[i], column) ==> rows[i] in r.value
  {
    if exists i | 0 <= i < |rows| :: Unparseable(rows[i], column) then
      Failure(ParseError(column.Header()))
    else
      var kept := Filter(rows, MeetsMinimum(column));
      assert forall i :: 0 <= i < |kept| ==> kept[i] in kept;
      Success(kept)
  }

  /** Every working column is among `columns`. */
  predicate HasWorkingColumns(columns: seq<Column>) {
    forall c :: c in Projected ==> c in columns
  }

  /** No row holds text in an E, S or G score, so every `astype(float)` converts. */
  predicate ScoresParse(rows: seq<Row>) {
    forall x :: x in rows ==> !Unparseable(x, EScore) && !Unparseable(x, SScore) && !Unparseable(x, GScore)
  }

  /** With all working columns present and no score text, projection succeeds and its
      rows hold no score text either. */
  lemma ProjectParses(raw: Frame)
    ensures HasWorkingColumns(raw.columns) && ScoresParse(raw.rows) ==>
      Project(raw).Success? && ScoresParse(Project(raw).value.rows)
  {
    if HasWorkingColumns(raw.columns) && ScoresParse(raw.rows) {
      var rows := Project(raw).value.rows;
      forall x | x in rows
        ensures !Unparseable(x, EScore) && !Unparseable(x, SScore) && !Unparseable(x, GScore)
      {
        var i :| 0 <= i < |rows| && rows[i] == x;
        assert raw.rows[i] in raw.rows;
      }
    }
  }

  /** Without score text a threshold step succeeds, and the rows it keeps hold none. */
  lemma ThresholdStepParses(rows: seq<Row>, column: Column)
    ensures ScoresParse(rows) && column in [EScore, SScore, GScore] ==>
      ThresholdStep(rows, column).Success? && ScoresParse(ThresholdStep(rows, column).value)
  {
    if ScoresParse(rows) && column in [EScore, SScore, GScore] {
      assert forall i :: 0 <= i < |rows| ==> rows[i] in rows;
    }
  }

  /** The whole screening of the script, from the raw table to the cleaned universe. */
  function FilterUniverse(raw: Frame): (r: Result<Frame>)
    ensures (exists c :: c in Projected && c !in raw.columns) ==> r.Failure?
    ensures HasWorkingColumns(raw.columns) && ScoresParse(raw.rows) ==> r.Success?
    ensures r.Failure? ==> r.error.MissingColumns? || r.error.ParseError?
    ensures r.Success? ==> r.value.columns == Projected
    ensures r.Success? ==> forall i :: 0 <= i < |r.value.rows| ==> Eligible(r.value.rows[i])
  {
    ProjectParses(raw);
    var projected :- Project(raw);
    var sectors := Filter(projected.rows, NotExcluded);
    ThresholdStepParses(sectors, EScore);
    var e :- ThresholdStep(sectors, EScore);
    ThresholdStepParses(e, SScore);
    var s :- ThresholdStep(e, SScore);
    ThresholdStepParses(s, GScore);
    var g :- ThresholdStep(s, GScore);
    var cleaned := DropNa(Frame(projected.columns, g));
    assert forall i :: 0 <= i < |cleaned.rows| ==> Eligible(cleaned.rows[i]) by {
      forall i | 0 <= i < |cleaned.rows|
        ensures Eligible(cleaned.rows[i])
      {
        var row := cleaned.rows[i];
        assert row in g && row in s && row in e && row in sectors;
      }
    }
    Success(cleaned)
  }

  // ---------------------------------------------------------------- properties

  /** On success the screening is the plain chain of the five row filters. */
  lemma ScreeningIsFilterChain(raw: Frame)
    requires FilterUniverse(raw).Success?
    ensures Project(raw).Success?
    ensures
      var rows := Project(raw).value.rows;
      FilterUniverse(raw).value.rows ==
        Filter(Filter(Filter(Filter(Filter(rows, NotExcluded), MeetsMinimum(EScore)),
          MeetsMinimum(SScore)), MeetsMinimum(GScore)), CompleteIn(Projected))
  {
    var rows := Project(raw).value.rows;
    var sectors := Filter(rows, NotExcluded);
    var e := ThresholdStep(sectors, EScore);
    assert e.Success? && e.value == Filter(sectors, MeetsMinimum(EScore));
    var s := ThresholdStep(e.value, SScore);
    assert s.Success? && s.value == Filter(e.value, MeetsMinimum(SScore));
    var g := ThresholdStep(s.value, GScore);
    assert g.Success? && g.value == Filter(s.value, MeetsMinimum(GScore));
  }

  /** The chain of five filters is one filter by `Eligible`. */
  lemma FilterChainIsEligible(rows: seq<Row>)
    ensures Filter(Filter(Filter(Filter(Filter(rows, NotExcluded), MeetsMinimum(EScore)),
      MeetsMinimum(SScore)), MeetsMinimum(GScore)), CompleteIn(Projected)) == Filter(rows, Eligible)
  {
    var c1 := (row: Row) => NotExcluded(row) && PillarAtLeast(row, EScore);
    var c2 := (row: Row) => c1(row) && PillarAtLeast(row, SScore);
    var c3 := (row: Row) => c2(row) && PillarAtLeast(row, GScore);
    FilterFuse(rows, NotExcluded, MeetsMinimum(EScore), c1);
    FilterFuse(rows, c1, MeetsMinimum(SScore), c2);
    FilterFuse(rows, c2, MeetsMinimum(GScore), c3);
    FilterFuse(rows, c3, CompleteIn(Projected), Eligible);
  }

  /** The cleaned universe is exactly the projected rows that pass every test, in their
      original order and with their cells unchanged. */
  lemma FilterUniverseSelects(raw: Frame)
    requires FilterUniverse(raw).Success?
    ensures Project(raw).Success?
    ensures FilterUniverse(raw).value.rows == Filter(Project(raw).value.rows, Eligible)
    ensures SelectedAt(FilterUniverse(raw).value.rows, Project(raw).value.rows,
                       Kept(Project(raw).value.rows, Eligible))
  {
    ScreeningIsFilterChain(raw);
    FilterChainIsEligible(Project(raw).value.rows);
    FilterSelection(Project(raw).value.rows, Eligible);
  }

  /** Projecting an already projected table changes nothing. */
  lemma ProjectProjected(f: Frame)
    requires f.columns == Projected
    requires forall i, c :: 0 <= i < |f.rows| && c in f.rows[i] ==> c in Projected
    ensures Project(f) == Success(f)
  {
    var p := Project(f).value;
    assert p.rows == f.rows by {
      forall i | 0 <= i < |f.rows|
        ensures p.rows[i] == f.rows[i]
      {
        assert Restrict(f.rows[i]) == f.rows[i];
      }
    }
  }

  /** Every step of the screening keeps a table of eligible rows whole. */
  lemma StepsKeepEligible(rows: seq<Row>)
    requires forall i :: 0 <= i < |rows| ==> Eligible(rows[i])
    ensures Filter(rows, NotExcluded) == rows
    ensures ThresholdStep(rows, EScore) == Success(rows)
    ensures ThresholdStep(rows, SScore) == Success(rows)
    ensures ThresholdStep(rows, GScore) == Success(rows)
    ensures DropNa(Frame(Projected, rows)) == Frame(Projected, rows)
  {
    FilterKeepsAll(rows, NotExcluded);
    FilterKeepsAll(rows, MeetsMinimum(EScore));
    FilterKeepsAll(rows, MeetsMinimum(SScore));
    FilterKeepsAll(rows, MeetsMinimum(GScore));
    DropNaKeepsComplete(Frame(Projected, rows));
  }

  /** Running the screening again on its own output removes nothing. */
  lemma FilterUniverseIdempotent(raw: Frame)
    requires FilterUniverse(raw).Success?
    ensures FilterUniverse(FilterUniverse(raw).value) == FilterUniverse(raw)
  {
    var out := FilterUniverse(raw).value;
    FilterUniverseSelects(raw);
    forall i, c | 0 <= i < |out.rows| && c in out.rows[i]
      ensures c in Projected
    {
      assert out.rows[i] in Project(raw).value.rows;
    }
    ProjectProjected(out);
    StepsKeepEligible(out.rows);
  }

  /** The three pillar thresholds, as row filters, may be applied in any order. The
      `ThresholdStep`s themselves commute only on rows without text in the E, S and G
      columns: with an E score of 1 and an S score of text, E first drops the row
      before S is converted, while S first raises a parse error. */
  lemma PillarFiltersCommute(rows: seq<Row>)
    ensures
      var e, s, g := MeetsMinimum(EScore), MeetsMinimum(SScore), MeetsMinimum(GScore);
      var esg := Filter(Filter(Filter(rows, e), s), g);
      && esg == Filter(Filter(Filter(rows, e), g), s)
      && esg == Filter(Filter(Filter(rows, s), e), g)
      && esg == Filter(Filter(Filter(rows, s), g), e)
      && esg == Filter(Filter(Filter(rows, g), e), s)
      && esg == Filter(Filter(Filter(rows, g), s), e)
  {
    var e, s, g := MeetsMinimum(EScore), MeetsMinimum(SScore), MeetsMinimum(GScore);
    FilterCommute(Filter(rows, e), s, g);   // e s g = e g s
    FilterCommute(rows, e, s);              // e s   = s e
    FilterCommute(Filter(rows, s), e, g);   // s e g = s g e
    FilterCommute(rows, e, g);              // e g   = g e
    FilterCommute(Filter(rows, g), e, s);   // g e s = g s e
  }

  // ---------------------------------------------------------------- factor columns

  predicate IsFactorColumn(c: Column) {
    c !in NonFactorColumns
  }

  /** The columns ranked as factors: every column that is neither identity nor a
      risk/performance metric, in column order. */
  function FactorColumns(columns: seq<Column>): (r: seq<Column>)
    ensures forall c :: c in r <==> c in columns && c !in NonFactorColumns
  {
    Filter(columns, IsFactorColumn)
  }

  const IdentityColumns: seq<Column> := [Name, Isin, Country, GicsSector, IndustryGroup]
  const ScoreAndRatioColumns: seq<Column> := [EScore, SScore, GScore, Odd13, Odd14, Odd15, Roic, PbRatio, FcfYield]
  const MetricColumns: seq<Column> := [VaR95, CVaR95, MaxDrawdown, Sharpe, Volatility, AnnualizedReturn]

  lemma ProjectedInThreeParts()
    ensures Projected == IdentityColumns + (ScoreAndRatioColumns + MetricColumns)
  {
  }

  lemma ScoreAndRatioColumnsAreFactors()
    ensures forall i :: 0 <= i < |ScoreAndRatioColumns| ==> IsFactorColumn(ScoreAndRatioColumns[i])
  {
  }

  lemma IdentityAndMetricColumnsAreNot()
    ensures forall i :: 0 <= i < |IdentityColumns| ==> !IsFactorColumn(IdentityColumns[i])
    ensures forall i :: 0 <= i < |MetricColumns| ==> !IsFactorColumn(MetricColumns[i])
  {
  }

  /** On the projected table the factors are the three pillars, the three goal flags
      and the three financial ratios. */
  lemma FactorColumnsOfProjection()
    ensures FactorColumns(Projected) == [
      EScore, SScore, GScore, Odd13, Odd14, Odd15, Roic, PbRatio, FcfYield
    ]
  {
    ProjectedInThreeParts();
    IdentityAndMetricColumnsAreNot();
    ScoreAndRatioColumnsAreFactors();
    FilterMiddle(IdentityColumns, ScoreAndRatioColumns, MetricColumns, IsFactorColumn);
  }
}
