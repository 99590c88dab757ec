/**
 * `imports_model`, `harvest_model` and `yield_model` of
 * functions/arima_models.py as one run parametrised by the series: pick the
 * columns, sort by date, difference (imports only), the preliminary fit, the
 * order search, the five-step forecast, reintegration (imports only) and the
 * month-end forecast dates.
 */
module ArimaForecast {
  import opened Wrappers
  import opened Calendar
  import opened Frames
  import opened ArimaSeries
  import opened ArimaSelection

  /** The three forecasting functions differ only in these choices. */
  datatype SeriesKind = Imports | Harvest | Yield

  function ValueColumn(k: SeriesKind): string {
    match k
    case Imports => "Imports"
    case Harvest => "Area_Harvested"
    case Yield => "Yield_per_Acre"
  }

  /** The `d` of every ARIMA order the run fits. */
  function DiffOrder(k: SeriesKind): nat {
    if k == Imports then 1 else 0
  }

  /** `n_steps`. */
  const Horizon: nat := 5

  /** The data handed to `ARIMA(...)`: imports are differenced first. */
  function ModelInput(k: SeriesKind, sorted: seq<Obs>): seq<Obs> {
    if k == Imports then DiffSeries(sorted) else sorted
  }

  // ------------------------------------------------------------ reintegration

  function Sum(xs: seq<real>): real {
    if xs == [] then 0.0 else xs[0] + Sum(xs[1..])
  }

  /** `base + xs.cumsum()`. */
  function IntegrateFrom(base: real, xs: seq<real>): (r: seq<real>)
    ensures |r| == |xs|
    decreases |xs|
  {
    if xs == [] then [] else [base + xs[0]] + IntegrateFrom(base + xs[0], xs[1..])
  }

  /** Entry `i` of the reintegrated forecast is the base plus the first `i + 1` steps. */
  lemma {:induction false} IntegrateIsCumulativeSum(base: real, xs: seq<real>, i: nat)
    requires i < |xs|
    ensures IntegrateFrom(base, xs)[i] == base + Sum(xs[..i + 1])
    decreases i
  {
    assert xs[..i + 1] == [xs[0]] + xs[1..i + 1];
    if i > 0 {
      IntegrateIsCumulativeSum(base + xs[0], xs[1..], i - 1);
      assert xs[1..][..i] == xs[1..i + 1];
    }
  }

  /** Differencing the reintegrated forecast gives back the steps. */
  lemma {:induction false} IntegrateSteps(base: real, xs: seq<real>)
    ensures |xs| > 0 ==> IntegrateFrom(base, xs)[0] == base + xs[0]
    ensures forall i :: 0 < i < |xs| ==> IntegrateFrom(base, xs)[i] - IntegrateFrom(base, xs)[i - 1] == xs[i]
    decreases |xs|
  {
    if xs != [] {
      var r := IntegrateFrom(base, xs);
      var rest := IntegrateFrom(base + xs[0], xs[1..]);
      IntegrateSteps(base + xs[0], xs[1..]);
      forall i | 0 < i < |xs| ensures r[i] - r[i - 1] == xs[i] {
        assert r[i] == rest[i - 1];
        if i > 1 {
          assert r[i - 1] == rest[i - 2];
        }
      }
    }
  }

  /** Reintegration keeps a pointwise order: a band stays a band. */
  lemma {:induction false} IntegrateMonotone(base: real, xs: seq<real>, ys: seq<real>)
    requires |xs| == |ys|
    requires forall i :: 0 <= i < |xs| ==> xs[i] <= ys[i]
    ensures forall i :: 0 <= i < |xs| ==> IntegrateFrom(base, xs)[i] <= IntegrateFrom(base, ys)[i]
    decreases |xs|
  {
    forall i | 0 <= i < |xs| ensures IntegrateFrom(base, xs)[i] <= IntegrateFrom(base, ys)[i] {
      SumMonotone(xs[..i + 1], ys[..i + 1]);
      IntegrateIsCumulativeSum(base, xs, i);
      IntegrateIsCumulativeSum(base, ys, i);
    }
  }

  lemma {:induction false} SumMonotone(xs: seq<real>, ys: seq<real>)
    requires |xs| == |ys|
    requires forall i :: 0 <= i < |xs| ==> xs[i] <= ys[i]
    ensures Sum(xs) <= Sum(ys)
    decreases |xs|
  {
    if xs != [] {
      SumMonotone(xs[1..], ys[1..]);
    }
  }

  /** Successive differences of a sequence of reals. */
  function Diffs(vs: seq<real>): (r: seq<real>)
    requires |vs| >= 1
    ensures |r| == |vs| - 1
  {
    seq(|vs| - 1, i requires 0 <= i < |vs| - 1 => vs[i + 1] - vs[i])
  }

  lemma {:induction false} IntegrateDiffs(vs: seq<real>)
    requires |vs| >= 1
    ensures IntegrateFrom(vs[0], Diffs(vs)) == vs[1..]
    decreases |vs|
  {
    if |vs| >= 2 {
      var d := Diffs(vs);
      IntegrateDiffs(vs[1..]);
      assert d[1..] == Diffs(vs[1..]);
      assert vs[1..] == [vs[1]] + vs[1..][1..];
    }
  }

  /**
   * Reintegrating the differenced imports from their first value rebuilds
   * the original series after it: cumsum undoes diff.
   */
  lemma IntegrateUndoesDiff(s: seq<Obs>)
    requires NoMissing(s) && |s| >= 1
    ensures IntegrateFrom(s[0].value.value, Values(DiffSeries(s))) == Values(s)[1..]
  {
    DiffSeriesValues(s);
    IntegrateDiffs(Values(s));
    assert Values(s)[0] == s[0].value.value;
  }

  /** The values of the differenced imports are the successive differences. */
  lemma DiffSeriesValues(s: seq<Obs>)
    requires NoMissing(s) && |s| >= 1
    ensures NoMissing(DiffSeries(s)) && Values(DiffSeries(s)) == Diffs(Values(s))
  {
    var d := DiffSeries(s);
    var vs := Values(s);
    DiffSeriesOfComplete(s);
    assert NoMissing(d);
    forall i | 0 <= i < |d| ensures Values(d)[i] == Diffs(vs)[i] {
      assert d[i] == Obs(s[i + 1].stamp, Some(s[i + 1].value.value - s[i].value.value));
    }
  }

  /** The first value plus all the differences is the last value. */
  lemma DiffTelescopes(s: seq<Obs>)
    requires NoMissing(s) && |s| >= 1
    ensures s[0].value.value + Sum(Values(DiffSeries(s))) == s[|s| - 1].value.value
  {
    var d := Values(DiffSeries(s));
    DiffSeriesOfComplete(s);
    if |s| >= 2 {
      IntegrateUndoesDiff(s);
      IntegrateIsCumulativeSum(s[0].value.value, d, |d| - 1);
      assert d[..|d|] == d;
    }
  }

  /** `last_value + xs.cumsum()`; a NaN last value makes every entry NaN. */
  function Integrated(last: Option<real>, xs: seq<real>): (r: seq<Option<real>>)
    ensures |r| == |xs|
  {
    match last
    case None => seq(|xs|, i => None)
    case Some(v) => var c := IntegrateFrom(v, xs); seq(|xs|, i requires 0 <= i < |xs| => Some(c[i]))
  }

  /** Entry `i` of `last_value + xs.cumsum()`, with NaN propagation. */
  lemma IntegratedSpec(last: Option<real>, xs: seq<real>)
    ensures last.None? ==> forall i :: 0 <= i < |xs| ==> Integrated(last, xs)[i].None?
    ensures last.Some? ==> forall i :: 0 <= i < |xs| ==> Integrated(last, xs)[i] == Some(last.value + Sum(xs[..i + 1]))
  {
    if last.Some? {
      forall i | 0 <= i < |xs| ensures Integrated(last, xs)[i] == Some(last.value + Sum(xs[..i + 1])) {
        IntegrateIsCumulativeSum(last.value, xs, i);
      }
    }
  }

  // --------------------------------------------------------------- forecasts

  /** The forecast series and the two columns of the confidence frame, with their index. */
  datatype Forecast = Forecast(dates: seq<CalendarDate>, mean: seq<Option<real>>,
                               lower: seq<Option<real>>, upper: seq<Option<real>>)

  /** What the model functions return: the sorted observations and the forecast. */
  datatype Run = Run(observed: seq<Obs>, forecast: Forecast)

  function Means(steps: seq<Step>): (r: seq<real>) ensures |r| == |steps| {
    seq(|steps|, i requires 0 <= i < |steps| => steps[i].mean)
  }

  function Lowers(steps: seq<Step>): (r: seq<real>) ensures |r| == |steps| {
    seq(|steps|, i requires 0 <= i < |steps| => steps[i].lower)
  }

  function Uppers(steps: seq<Step>): (r: seq<real>) ensures |r| == |steps| {
    seq(|steps|, i requires 0 <= i < |steps| => steps[i].upper)
  }

  function Present(xs: seq<real>): (r: seq<Option<real>>) ensures |r| == |xs| {
    seq(|xs|, i requires 0 <= i < |xs| => Some(xs[i]))
  }

  /**
   * `date_range(start=last_date, periods=6, freq='M')[1:]`: the range begins
   * at the month end on or after `last_date`, which closes `last_date`'s own
   * month, and the first entry is dropped.
   */
  function ForecastDates(last: CalendarDate): seq<CalendarDate> {
    MonthEndsAfter(last.year, last.month, Horizon)
  }

  /** The forecast built from the chosen model's steps and the last observation. */
  function ForecastFrom(k: SeriesKind, last: Obs, steps: seq<Step>): Forecast
    requires last.stamp.Some?
  {
    var dates := ForecastDates(last.stamp.value);
    if k == Imports then
      Forecast(dates, Integrated(last.value, Means(steps)),
               Integrated(last.value, Lowers(steps)), Integrated(last.value, Uppers(steps)))
    else
      Forecast(dates, Present(Means(steps)), Present(Lowers(steps)), Present(Uppers(steps)))
  }

  /**
   * Everything after the search, with its failure points in source order:
   * `best_model.get_forecast` on None, `.iloc[-1]`/`.index[-1]` on no rows,
   * `date_range` from NaT, and the index assignment of the wrong length.
   */
  function Finish(k: SeriesKind, sorted: seq<Obs>, best: Option<Choice>): Result<Run, RunError> {
    if best.None? then Err(NoViableModel)
    else if |sorted| == 0 then Err(EmptySeries)
    else if sorted[|sorted| - 1].stamp.None? then Err(NoStartDate)
    else if |best.value.steps| != Horizon then Err(LengthMismatch)
    else Ok(Run(sorted, ForecastFrom(k, sorted[|sorted| - 1], best.value.steps)))
  }

  /** A whole run of `imports_model`, `harvest_model` or `yield_model` on a table. */
  function RunSpec(k: SeriesKind, t: Table, toDatetime: Cell -> Option<CalendarDate>,
                   fit: (seq<Obs>, Order) -> FitOutcome): Result<Run, RunError>
    requires Rectangular(t)
  {
    match ExtractSeries(t, ValueColumn(k), toDatetime)
    case Err(e) => Err(e)
    case Ok(series) => RunOnSeries(k, series, fit)
  }

  /**
   * The run once the two columns are extracted: sort, prepare the model
   * input, the preliminary fit outside the `try`, the search, and the rest.
   */
  function RunOnSeries(k: SeriesKind, series: seq<Obs>, fit: (seq<Obs>, Order) -> FitOutcome): Result<Run, RunError> {
    var sorted := SortByStamp(series);
    var input := ModelInput(k, sorted);
    if fit(input, Order(1, DiffOrder(k), 1)).FitFailed? then Err(PreliminaryFitFailed)
    else Finish(k, sorted, Select(Attempts(fit, input, DiffOrder(k))))
  }

  /**
   * The model function itself. The table is only read: the source works on
   * a `.copy()` of the two columns.
   */
  method RunModel(k: SeriesKind, df: DataFrame, toDatetime: Cell -> Option<CalendarDate>,
                  fit: (seq<Obs>, Order) -> FitOutcome) returns (r: Result<Run, RunError>)
    requires df.Valid()
    ensures r == RunSpec(k, df.Value(), toDatetime, fit)
  {
    var extracted := ExtractSeries(df.Value(), ValueColumn(k), toDatetime);
    if extracted.Err? {
      return Err(extracted.error);
    }
    var sorted := SortByStamp(extracted.value);
    var input := ModelInput(k, sorted);
    var preliminary := fit(input, Order(1, DiffOrder(k), 1));
    if preliminary.FitFailed? {
      return Err(PreliminaryFitFailed);
    }
    var best := GridSearch(fit, input, DiffOrder(k));
    r := Finish(k, sorted, best);
  }

  // ------------------------------------------------------------- properties

  /**
   * A preliminary fit that succeeds rules out "no viable model": the same
   * order (1, d, 1) is the fifth candidate of the search and succeeds there too.
   */
  lemma PreliminaryFitGuaranteesAModel(k: SeriesKind, series: seq<Obs>, fit: (seq<Obs>, Order) -> FitOutcome)
    ensures RunOnSeries(k, series, fit) != Err(NoViableModel)
  {
    var sorted := SortByStamp(series);
    var input := ModelInput(k, sorted);
    if fit(input, Order(1, DiffOrder(k), 1)).Fitted? {
      var best := Select(Attempts(fit, input, DiffOrder(k)));
      assert RunOnSeries(k, series, fit) == Finish(k, sorted, best);
      PreliminaryOrderIsSearched(fit, input, DiffOrder(k));
      FinishWithAModel(k, sorted, best);
    }
  }

  /** "No viable model" is only ever the missing best model. */
  lemma FinishWithAModel(k: SeriesKind, sorted: seq<Obs>, best: Option<Choice>)
    requires best.Some?
    ensures Finish(k, sorted, best) != Err(NoViableModel)
  {
  }

  /** When order (1, d, 1) fits, the search selects something. */
  lemma PreliminaryOrderIsSearched<S>(fit: (S, Order) -> FitOutcome, data: S, d: nat)
    requires fit(data, Order(1, d, 1)).Fitted?
    ensures Select(Attempts(fit, data, d)).Some?
  {
    var attempts := Attempts(fit, data, d);
    CandidateAt(d, 1, 1);
    assert attempts[4].outcome.Fitted?;
    SelectNoneIffAllFailed(attempts);
  }

  /** The forecast dates: five consecutive month ends after the month of `last`, strictly increasing. */
  lemma ForecastDatesSpec(last: CalendarDate)
    ensures var ds := ForecastDates(last);
      |ds| == Horizon
      && (forall i :: 0 <= i < Horizon ==>
            IsMonthEnd(ds[i]) && MonthCount(ds[i].year, ds[i].month) == MonthCount(last.year, last.month) + i + 1)
      && (forall i, j :: 0 <= i < j < Horizon ==> Before(ds[i], ds[j]))
      && (forall j :: 0 <= j < Horizon ==> Before(last, ds[j]))
  {
    var ds := ForecastDates(last);
    MonthEndsAfterSpec(last.year, last.month, Horizon);
    forall i, j | 0 <= i < j < Horizon ensures Before(ds[i], ds[j]) {
      LaterMonthIsLater(ds[i], ds[j]);
    }
    forall j | 0 <= j < Horizon ensures Before(last, ds[j]) {
      LaterMonthIsLater(last, ds[j]);
    }
  }

  /** A successful run reports the sorted series and is `Finish` on it and the search's choice. */
  lemma RunOnSeriesOk(k: SeriesKind, series: seq<Obs>, fit: (seq<Obs>, Order) -> FitOutcome, run: Run)
    requires RunOnSeries(k, series, fit) == Ok(run)
    ensures run.observed == SortByStamp(series)
    ensures SortedByStamp(run.observed)
    ensures Finish(k, run.observed, Select(Attempts(fit, ModelInput(k, run.observed), DiffOrder(k)))) == Ok(run)
  {
  }

  /**
   * On success the observations end on a date, none of them is NaT, the
   * forecast has five entries in every column, and its dates are the month
   * ends of the five months after the last observation: strictly increasing
   * and later than every observed date.
   */
  lemma RunForecastDates(k: SeriesKind, series: seq<Obs>, fit: (seq<Obs>, Order) -> FitOutcome, run: Run)
    requires RunOnSeries(k, series, fit) == Ok(run)
    ensures var f := run.forecast;
      var obs := run.observed;
      |obs| > 0 && obs[|obs| - 1].stamp.Some?
      && f.dates == ForecastDates(obs[|obs| - 1].stamp.value)
      && |f.mean| == Horizon && |f.lower| == Horizon && |f.upper| == Horizon
      && (forall i, j :: 0 <= i < |obs| && 0 <= j < Horizon ==>
            obs[i].stamp.Some? && Before(obs[i].stamp.value, f.dates[j]))
  {
    RunOnSeriesOk(k, series, fit, run);
    FinishDates(k, run.observed, Select(Attempts(fit, ModelInput(k, run.observed), DiffOrder(k))));
  }

  lemma FinishDates(k: SeriesKind, sorted: seq<Obs>, best: Option<Choice>)
    requires SortedByStamp(sorted) && Finish(k, sorted, best).Ok?
    ensures var run := Finish(k, sorted, best).value;
      var f := run.forecast;
      run.observed == sorted && |sorted| > 0 && sorted[|sorted| - 1].stamp.Some?
      && f.dates == ForecastDates(sorted[|sorted| - 1].stamp.value)
      && |f.mean| == Horizon && |f.lower| == Horizon && |f.upper| == Horizon
      && (forall i, j :: 0 <= i < |sorted| && 0 <= j < Horizon ==>
            sorted[i].stamp.Some? && Before(sorted[i].stamp.value, f.dates[j]))
  {
    var f := Finish(k, sorted, best).value.forecast;
    var last := sorted[|sorted| - 1].stamp.value;
    ForecastDatesSpec(last);
    SortedEndsOnLatest(sorted);
    forall i, j | 0 <= i < |sorted| && 0 <= j < Horizon
      ensures sorted[i].stamp.Some? && Before(sorted[i].stamp.value, f.dates[j])
    {
      assert !Before(last, sorted[i].stamp.value) && Before(last, f.dates[j]);
    }
  }

  /**
   * The forecast comes from the chosen fit: a successful candidate of the
   * grid that no other successful candidate beats on both AIC and BIC.
   */
  lemma ForecastUsesUndominatedFit(k: SeriesKind, series: seq<Obs>, fit: (seq<Obs>, Order) -> FitOutcome, run: Run)
    requires RunOnSeries(k, series, fit) == Ok(run)
    ensures var input := ModelInput(k, run.observed);
      |run.observed| > 0 && run.observed[|run.observed| - 1].stamp.Some?
      && exists o :: (o in Candidates(DiffOrder(k)) && fit(input, o).Fitted?
           && |fit(input, o).steps| == Horizon
           && run.forecast == ForecastFrom(k, run.observed[|run.observed| - 1], fit(input, o).steps)
           && forall o' :: o' in Candidates(DiffOrder(k)) ==>
                !Dominates(fit(input, o'), ChoiceOf(Attempt(o, fit(input, o)))))
  {
    RunOnSeriesOk(k, series, fit, run);
    var input := ModelInput(k, run.observed);
    var best := Select(Attempts(fit, input, DiffOrder(k)));
    assert Finish(k, run.observed, best) == Ok(run);
    ChosenFitSpec(fit, input, DiffOrder(k));
    var o :| o in Candidates(DiffOrder(k)) && fit(input, o).Fitted?
      && best == Some(ChoiceOf(Attempt(o, fit(input, o))))
      && forall o' :: o' in Candidates(DiffOrder(k)) ==> !Dominates(fit(input, o'), ChoiceOf(Attempt(o, fit(input, o))));
    assert best.value.steps == fit(input, o).steps;
  }

  /** The search's choice, when there is one, is an undominated successful candidate. */
  lemma ChosenFitSpec<S>(fit: (S, Order) -> FitOutcome, data: S, d: nat)
    requires Select(Attempts(fit, data, d)).Some?
    ensures exists o :: (o in Candidates(d) && fit(data, o).Fitted?
      && Select(Attempts(fit, data, d)) == Some(ChoiceOf(Attempt(o, fit(data, o))))
      && forall o' :: o' in Candidates(d) ==> !Dominates(fit(data, o'), ChoiceOf(Attempt(o, fit(data, o)))))
  {
    var attempts := Attempts(fit, data, d);
    SelectIsAFit(attempts);
    var j :| 0 <= j < |attempts| && attempts[j].outcome.Fitted? && Select(attempts) == Some(ChoiceOf(attempts[j]));
    var o := attempts[j].order;
    assert attempts[j] == Attempt(o, fit(data, o));
    SelectNotDominated(attempts);
    CandidatesSpec(d);
    forall o' | o' in Candidates(d) ensures !Dominates(fit(data, o'), ChoiceOf(Attempt(o, fit(data, o)))) {
      var i :| 0 <= i < 9 && Candidates(d)[i] == o';
      assert attempts[i] == Attempt(o', fit(data, o'));
    }
    assert o == Candidates(d)[j];
    assert o in Candidates(d) && fit(data, o).Fitted?
      && Select(attempts) == Some(ChoiceOf(Attempt(o, fit(data, o))));
  }

  /**
   * Imports: every column is the last observed value plus the running sum of
   * the model's steps (all NaN when that value is NaN), so the band stays
   * ordered when the steps' band is. Area harvested and yield: the steps are
   * reported as they are.
   */
  lemma ForecastFromSpec(k: SeriesKind, last: Obs, steps: seq<Step>)
    requires last.stamp.Some?
    ensures var f := ForecastFrom(k, last, steps);
      (k == Imports && last.value.None? ==> forall i :: 0 <= i < |steps| ==>
         f.mean[i].None? && f.lower[i].None? && f.upper[i].None?)
      && (k == Imports && last.value.Some? ==> forall i :: 0 <= i < |steps| ==>
         f.mean[i] == Some(last.value.value + Sum(Means(steps)[..i + 1]))
         && f.lower[i] == Some(last.value.value + Sum(Lowers(steps)[..i + 1]))
         && f.upper[i] == Some(last.value.value + Sum(Uppers(steps)[..i + 1])))
      && (k != Imports ==> forall i :: 0 <= i < |steps| ==>
         f.mean[i] == Some(steps[i].mean) && f.lower[i] == Some(steps[i].lower) && f.upper[i] == Some(steps[i].upper))
  {
    var f := ForecastFrom(k, last, steps);
    if k == Imports {
      assert f.mean == Integrated(last.value, Means(steps));
      assert f.lower == Integrated(last.value, Lowers(steps));
      assert f.upper == Integrated(last.value, Uppers(steps));
      IntegratedSpec(last.value, Means(steps));
      IntegratedSpec(last.value, Lowers(steps));
      IntegratedSpec(last.value, Uppers(steps));
    } else {
      assert f.mean == Present(Means(steps)) && f.lower == Present(Lowers(steps)) && f.upper == Present(Uppers(steps));
    }
  }

  /** A band with lower <= mean <= upper at every step stays one after reintegration. */
  lemma ReintegratedBandIsOrdered(last: real, steps: seq<Step>)
    requires forall i :: 0 <= i < |steps| ==> steps[i].lower <= steps[i].mean <= steps[i].upper
    ensures forall i :: 0 <= i < |steps| ==>
      IntegrateFrom(last, Lowers(steps))[i] <= IntegrateFrom(last, Means(steps))[i] <= IntegrateFrom(last, Uppers(steps))[i]
  {
    IntegrateMonotone(last, Lowers(steps), Means(steps));
    IntegrateMonotone(last, Means(steps), Uppers(steps));
  }
}
