/**
 * The series bookkeeping of functions/arima_models.py: picking the date and
 * value columns, sorting by date, first differencing, and the split of the
 * most recent report row in `prepare_for_modelling`.
 */
module ArimaSeries {
  import opened Wrappers
  import opened Calendar
  import opened Frames

  /** One row of a two-column series: its coerced date (None is NaT) and its value (None is NaN). */
  datatype Obs = Obs(stamp: Option<CalendarDate>, value: Option<real>)

  /** The ways a forecasting run can raise instead of returning. */
  datatype RunError =
    | MissingColumn(name: string)   // pandas KeyError
    | NonNumericValue               // arithmetic or fitting on text cells raises
    | EmptySeries                   // `.iloc[-1]` / `.index[-1]` on no rows
    | PreliminaryFitFailed          // the (1, d, 1) fit outside the `try`
    | NoViableModel                 // `best_model` is still None
    | NoStartDate                   // `date_range` from NaT
    | LengthMismatch                // index assignment of the wrong length

  const DateColumn: string := "Marketing_Year_Month"

  predicate IsNumeric(c: Cell) {
    c.Number? || c.Integer? || c.Missing?
  }

  function ValueOf(c: Cell): Option<real>
    requires IsNumeric(c)
  {
    match c
    case Number(x) => Some(x)
    case Integer(i) => Some(i as real)
    case Missing => None
  }

  /**
   * `df[['Marketing_Year_Month', column]].copy()` with the date column passed
   * through `pd.to_datetime(errors='coerce')` (the oracle `toDatetime`).
   */
  function ExtractSeries(t: Table, column: string, toDatetime: Cell -> Option<CalendarDate>): (r: Result<seq<Obs>, RunError>)
    requires Rectangular(t)
    ensures Get(t, DateColumn).None? ==> r == Err(MissingColumn(DateColumn))
    ensures Get(t, DateColumn).Some? && Get(t, column).None? ==> r == Err(MissingColumn(column))
    ensures r.Ok? ==> |r.value| == t.rows
    ensures r.Ok? ==> forall i :: 0 <= i < t.rows ==>
      IsNumeric(Get(t, column).value[i])
      && r.value[i] == Obs(toDatetime(Get(t, DateColumn).value[i]), ValueOf(Get(t, column).value[i]))
    ensures r.Err? && Get(t, DateColumn).Some? && Get(t, column).Some? ==>
      r == Err(NonNumericValue) && exists i :: 0 <= i < t.rows && !IsNumeric(Get(t, column).value[i])
  {
    match Get(t, DateColumn)
    case None => Err(MissingColumn(DateColumn))
    case Some(dates) =>
      match Get(t, column)
      case None => Err(MissingColumn(column))
      case Some(values) =>
        if exists i :: 0 <= i < t.rows && !IsNumeric(values[i]) then Err(NonNumericValue)
        else Ok(seq(t.rows, i requires 0 <= i < t.rows => Obs(toDatetime(dates[i]), ValueOf(values[i]))))
  }

  // ------------------------------------------------------------- sort_values

  /** The order `sort_values` uses on dates: chronological, with NaT after every date. */
  predicate StampLe(a: Option<CalendarDate>, b: Option<CalendarDate>) {
    match b
    case None => true
    case Some(y) => a.Some? && !Before(y, a.value)
  }

  lemma StampLeTotalOrder(a: Option<CalendarDate>, b: Option<CalendarDate>, c: Option<CalendarDate>)
    ensures StampLe(a, a)
    ensures StampLe(a, b) || StampLe(b, a)
    ensures StampLe(a, b) && StampLe(b, a) ==> a == b
    ensures StampLe(a, b) && StampLe(b, c) ==> StampLe(a, c)
  {
  }

  predicate SortedByStamp(s: seq<Obs>) {
    forall i, j :: 0 <= i < j < |s| ==> StampLe(s[i].stamp, s[j].stamp)
  }

  function Insert(o: Obs, s: seq<Obs>): (r: seq<Obs>)
    requires SortedByStamp(s)
    ensures SortedByStamp(r)
    ensures multiset(r) == multiset(s) + multiset{o}
  {
    if s == [] || StampLe(o.stamp, s[0].stamp) then
      InsertInFront(o, s);
      [o] + s
    else
      var rest := Insert(o, s[1..]);
      InsertBehindHead(o, s, rest);
      [s[0]] + rest
  }

  /** An observation no later than the head of a sorted series can go in front of it. */
  lemma InsertInFront(o: Obs, s: seq<Obs>)
    requires SortedByStamp(s) && (s == [] || StampLe(o.stamp, s[0].stamp))
    ensures SortedByStamp([o] + s)
  {
    var r := [o] + s;
    forall i, j | 0 <= i < j < |r| ensures StampLe(r[i].stamp, r[j].stamp) {
      assert r[j] == s[j - 1];
      if i == 0 {
        StampLeTotalOrder(o.stamp, s[0].stamp, s[j - 1].stamp);
      } else {
        assert r[i] == s[i - 1];
      }
    }
  }

  /** The head of a sorted series stays in front of the rest with `o` inserted. */
  lemma InsertBehindHead(o: Obs, s: seq<Obs>, rest: seq<Obs>)
    requires SortedByStamp(s) && |s| > 0 && !StampLe(o.stamp, s[0].stamp)
    requires SortedByStamp(rest) && multiset(rest) == multiset(s[1..]) + multiset{o}
    ensures SortedByStamp([s[0]] + rest)
    ensures multiset([s[0]] + rest) == multiset(s) + multiset{o}
  {
    assert s == [s[0]] + s[1..];
    StampLeTotalOrder(o.stamp, s[0].stamp, o.stamp);
    forall x | x in rest ensures StampLe(s[0].stamp, x.stamp) {
      assert x in multiset(rest);
      if x != o {
        assert x in multiset(s[1..]);
        var j :| 0 <= j < |s[1..]| && s[1..][j] == x;
        assert s[j + 1] == x;
      }
    }
    var r := [s[0]] + rest;
    forall i, j | 0 <= i < j < |r| ensures StampLe(r[i].stamp, r[j].stamp) {
      if i == 0 {
        assert r[j] == rest[j - 1];
        assert r[j] in rest;
      } else {
        assert r[i] == rest[i - 1] && r[j] == rest[j - 1];
      }
    }
  }

  /**
   * `sort_values(by=date)`: the rows in date order, NaT rows last. Rows with
   * equal dates may come out in any order; this definition fixes one.
   */
  function SortByStamp(s: seq<Obs>): (r: seq<Obs>)
    ensures SortedByStamp(r)
    ensures multiset(r) == multiset(s)
    ensures |r| == |s|
  {
    if s == [] then []
    else
      assert s == [s[0]] + s[1..];
      Insert(s[0], SortByStamp(s[1..]))
  }

  /** Sorting an already sorted series changes nothing. */
  lemma {:induction false} SortSortedIsIdentity(s: seq<Obs>)
    requires SortedByStamp(s)
    ensures SortByStamp(s) == s
  {
    if s != [] {
      assert SortedByStamp(s[1..]);
      SortSortedIsIdentity(s[1..]);
      assert s == [s[0]] + s[1..];
    }
  }

  /** The dates of a series, in its row order. */
  function Stamps(s: seq<Obs>): seq<Option<CalendarDate>> {
    seq(|s|, i requires 0 <= i < |s| => s[i].stamp)
  }

  lemma RemoveAt(b: seq<Obs>, j: nat)
    requires j < |b|
    ensures multiset(b[..j] + b[j + 1..]) == multiset(b) - multiset{b[j]}
  {
    assert b == b[..j] + [b[j]] + b[j + 1..];
    assert multiset(b) == multiset(b[..j]) + multiset{b[j]} + multiset(b[j + 1..]);
  }

  /** Removing the row at `j` removes one copy of its date. */
  lemma StampsRemoveAt(b: seq<Obs>, j: nat)
    requires j < |b|
    ensures multiset(Stamps(b)) == multiset(Stamps(b[..j] + b[j + 1..])) + multiset{b[j].stamp}
  {
    var k := Stamps(b);
    assert Stamps(b[..j] + b[j + 1..]) == k[..j] + k[j + 1..];
    assert k == k[..j] + [k[j]] + k[j + 1..];
    assert multiset(k) == multiset(k[..j]) + multiset{k[j]} + multiset(k[j + 1..]);
  }

  /** The first row of `a` sits at some `j` in a permutation `b`; the rest are permutations too. */
  lemma MatchHead(a: seq<Obs>, b: seq<Obs>) returns (j: nat)
    requires |a| > 0 && multiset(a) == multiset(b)
    ensures j < |b| && b[j] == a[0]
    ensures multiset(a[1..]) == multiset(b[..j] + b[j + 1..])
  {
    assert a[0] in multiset(b);
    j :| 0 <= j < |b| && b[j] == a[0];
    RemoveAt(b, j);
    assert a == [a[0]] + a[1..];
    assert multiset(a[1..]) == multiset(a) - multiset{a[0]};
  }

  lemma {:induction false} StampsOfPermutation(a: seq<Obs>, b: seq<Obs>)
    requires multiset(a) == multiset(b)
    ensures multiset(Stamps(a)) == multiset(Stamps(b))
    decreases |a|
  {
    if a == [] {
      assert |b| == |multiset(b)| == 0;
    } else {
      var j := MatchHead(a, b);
      StampsOfPermutation(a[1..], b[..j] + b[j + 1..]);
      StampsRemoveAt(b, j);
      assert Stamps(a) == [a[0].stamp] + Stamps(a[1..]);
    }
  }

  predicate KeysSorted(k: seq<Option<CalendarDate>>) {
    forall i, j :: 0 <= i < j < |k| ==> StampLe(k[i], k[j])
  }

  /** The first key of a sorted key sequence is at or before every key in it. */
  lemma HeadIsLeast(k: seq<Option<CalendarDate>>, v: Option<CalendarDate>)
    requires KeysSorted(k) && v in k
    ensures StampLe(k[0], v)
  {
    var j :| 0 <= j < |k| && k[j] == v;
    if j == 0 {
      StampLeTotalOrder(v, v, v);
    }
  }

  lemma SplitHead(k: seq<Option<CalendarDate>>)
    requires |k| > 0
    ensures multiset(k) == multiset{k[0]} + multiset(k[1..])
    ensures KeysSorted(k) ==> KeysSorted(k[1..])
  {
    assert k == [k[0]] + k[1..];
  }

  lemma {:induction false} SortedKeysUnique(x: seq<Option<CalendarDate>>, y: seq<Option<CalendarDate>>)
    requires KeysSorted(x) && KeysSorted(y) && multiset(x) == multiset(y)
    ensures x == y
    decreases |x|
  {
    if x == [] {
      assert |y| == |multiset(y)| == 0;
    } else {
      HeadsAgree(x, y);
      TailsAgree(x, y);
      SortedKeysUnique(x[1..], y[1..]);
      assert x == [x[0]] + x[1..] && y == [y[0]] + y[1..];
    }
  }

  lemma TailsAgree(x: seq<Option<CalendarDate>>, y: seq<Option<CalendarDate>>)
    requires KeysSorted(x) && KeysSorted(y) && multiset(x) == multiset(y)
    requires x != [] && y != [] && x[0] == y[0]
    ensures KeysSorted(x[1..]) && KeysSorted(y[1..]) && multiset(x[1..]) == multiset(y[1..])
  {
    SplitHead(x);
    SplitHead(y);
    assert multiset(x[1..]) == multiset(x) - multiset{x[0]};
    assert multiset(y[1..]) == multiset(y) - multiset{y[0]};
  }

  lemma HeadsAgree(x: seq<Option<CalendarDate>>, y: seq<Option<CalendarDate>>)
    requires KeysSorted(x) && KeysSorted(y) && multiset(x) == multiset(y) && x != []
    ensures y != [] && x[0] == y[0]
  {
    assert |y| == |multiset(y)| == |x|;
    assert x[0] in multiset(y) && y[0] in multiset(x);
    HeadIsLeast(y, x[0]);
    HeadIsLeast(x, y[0]);
    StampLeTotalOrder(x[0], y[0], x[0]);
  }

  /**
   * Whichever order of tied rows `sort_values` picks, the sorted dates are
   * the same: they depend only on the rows, not on the sort's stability.
   */
  lemma SortedStampsUnique(a: seq<Obs>, b: seq<Obs>)
    requires SortedByStamp(a) && SortedByStamp(b) && multiset(a) == multiset(b)
    ensures Stamps(a) == Stamps(b)
  {
    StampsOfPermutation(a, b);
    SortedKeysUnique(Stamps(a), Stamps(b));
  }

  /** In a sorted series that ends on a date, no row is NaT and none is later. */
  lemma SortedEndsOnLatest(s: seq<Obs>)
    requires SortedByStamp(s) && |s| > 0 && s[|s| - 1].stamp.Some?
    ensures forall i :: 0 <= i < |s| ==> s[i].stamp.Some? && !Before(s[|s| - 1].stamp.value, s[i].stamp.value)
  {
    forall i | 0 <= i < |s| ensures s[i].stamp.Some? && !Before(s[|s| - 1].stamp.value, s[i].stamp.value) {
      if i < |s| - 1 {
        assert StampLe(s[i].stamp, s[|s| - 1].stamp);
      }
    }
  }

  // ------------------------------------------------------------ diff, dropna

  /** Subtraction with NaN propagation. */
  function Sub(a: Option<real>, b: Option<real>): Option<real> {
    if a.Some? && b.Some? then Some(a.value - b.value) else None
  }

  /** `series.diff()`: each value minus the one before it; the first is NaN. */
  function Differenced(s: seq<Obs>): seq<Obs> {
    seq(|s|, i requires 0 <= i < |s| => Obs(s[i].stamp, if i == 0 then None else Sub(s[i].value, s[i - 1].value)))
  }

  /** `series.dropna()`. */
  function DropMissing(s: seq<Obs>): (r: seq<Obs>)
    ensures |r| <= |s|
    ensures forall i :: 0 <= i < |r| ==> r[i].value.Some? && r[i] in s
  {
    if s == [] then []
    else if s[0].value.None? then DropMissing(s[1..])
    else [s[0]] + DropMissing(s[1..])
  }

  /** Every row with a value survives `dropna`, as often as it occurs. */
  lemma {:induction false} DropMissingKeepsValues(s: seq<Obs>)
    ensures forall o: Obs :: o.value.Some? ==> multiset(DropMissing(s))[o] == multiset(s)[o]
    decreases |s|
  {
    if s != [] {
      DropMissingKeepsValues(s[1..]);
      assert s == [s[0]] + s[1..];
      assert multiset(s) == multiset{s[0]} + multiset(s[1..]);
      if s[0].value.Some? {
        assert multiset(DropMissing(s)) == multiset{s[0]} + multiset(DropMissing(s[1..]));
      }
    }
  }

  /** `dropna` keeps the order of the surviving rows: it distributes over concatenation. */
  lemma {:induction false} DropMissingAppend(a: seq<Obs>, b: seq<Obs>)
    ensures DropMissing(a + b) == DropMissing(a) + DropMissing(b)
    decreases |a|
  {
    if a == [] {
      assert a + b == b;
    } else {
      var ab := a + b;
      assert ab[0] == a[0] && ab[1..] == a[1..] + b;
      DropMissingAppend(a[1..], b);
      if a[0].value.Some? {
        assert DropMissing(ab) == [a[0]] + DropMissing(a[1..] + b);
        assert DropMissing(a) == [a[0]] + DropMissing(a[1..]);
      }
    }
  }

  /** The imports series as it is handed to the fit: differenced once, NaN rows dropped. */
  function DiffSeries(s: seq<Obs>): seq<Obs> {
    DropMissing(Differenced(s))
  }

  predicate NoMissing(s: seq<Obs>) {
    forall i :: 0 <= i < |s| ==> s[i].value.Some?
  }

  lemma {:induction false} DropMissingKeepsComplete(s: seq<Obs>)
    requires NoMissing(s)
    ensures DropMissing(s) == s
  {
    if s != [] {
      DropMissingKeepsComplete(s[1..]);
      assert s == [s[0]] + s[1..];
    }
  }

  /**
   * Without missing values, differencing drops exactly the first row: the
   * result is one shorter, carries the input's dates from the second one on,
   * and holds each value minus its predecessor.
   */
  lemma DiffSeriesOfComplete(s: seq<Obs>)
    requires NoMissing(s) && |s| >= 1
    ensures |DiffSeries(s)| == |s| - 1
    ensures forall i :: 0 <= i < |s| - 1 ==>
      DiffSeries(s)[i] == Obs(s[i + 1].stamp, Some(s[i + 1].value.value - s[i].value.value))
  {
    var d := Differenced(s);
    var tail := d[1..];
    DifferencedTail(s);
    DropMissingKeepsComplete(tail);
    assert d[0].value.None?;
    assert DropMissing(d) == DropMissing(tail);
  }

  lemma DifferencedTail(s: seq<Obs>)
    requires NoMissing(s) && |s| >= 1
    ensures |Differenced(s)[1..]| == |s| - 1
    ensures forall i :: 0 <= i < |s| - 1 ==>
      Differenced(s)[1..][i] == Obs(s[i + 1].stamp, Some(s[i + 1].value.value - s[i].value.value))
    ensures NoMissing(Differenced(s)[1..])
  {
    var tail := Differenced(s)[1..];
    forall i | 0 <= i < |s| - 1
      ensures tail[i] == Obs(s[i + 1].stamp, Some(s[i + 1].value.value - s[i].value.value))
    {
      assert tail[i] == Differenced(s)[i + 1];
    }
  }

  /** The values of a series without NaN. */
  function Values(s: seq<Obs>): (r: seq<real>)
    requires NoMissing(s)
    ensures |r| == |s|
  {
    seq(|s|, i requires 0 <= i < |s| => s[i].value.value)
  }

  // -------------------------------------------------- prepare_for_modelling

  /** The table without its first row. */
  function DropFirstRow(t: Table): (r: Table)
    requires Rectangular(t) && t.rows > 0
    ensures Rectangular(r)
  {
    Table(t.rows - 1, seq(|t.columns|, k requires 0 <= k < |t.columns| => Column(t.columns[k].name, t.columns[k].cells[1..])))
  }

  /**
   * `(df.iloc[0], df.iloc[1:])`: the first (most recent) report row and the
   * rows after it; an empty table raises IndexError.
   */
  function SplitMostRecent(t: Table): (r: Result<(seq<Cell>, Table), RunError>)
    requires Rectangular(t)
    ensures r.Err? <==> t.rows == 0
    ensures r.Err? ==> r.error == EmptySeries
    ensures r.Ok? ==> var (first, rest) := r.value;
      Rectangular(rest) && rest.rows == t.rows - 1 && Names(rest) == Names(t)
      && first == RowAt(t, 0)
      && forall i :: 0 <= i < rest.rows ==> RowAt(rest, i) == RowAt(t, i + 1)
  {
    if t.rows == 0 then Err(EmptySeries) else Ok((RowAt(t, 0), DropFirstRow(t)))
  }

  /** The cells of a column after `pd.to_datetime(errors='coerce')`. */
  function CoerceDates(cells: seq<Cell>, toDatetime: Cell -> Option<CalendarDate>): (r: seq<Cell>)
    ensures |r| == |cells|
  {
    seq(|cells|, i requires 0 <= i < |cells| =>
      match toDatetime(cells[i]) case Some(d) => Stamp(d) case None => Missing)
  }

  /**
   * `prepare_for_modelling(df)`: coerce `projected_dates` in place (a
   * KeyError when it is missing), then split off the first row.
   */
  method PrepareForModelling(df: DataFrame, toDatetime: Cell -> Option<CalendarDate>)
    returns (r: Result<(seq<Cell>, Table), RunError>)
    requires df.Valid()
    modifies df
    ensures df.Valid()
    ensures Get(old(df.Value()), "projected_dates").None? ==>
      r == Err(MissingColumn("projected_dates")) && df.Value() == old(df.Value())
    ensures Get(old(df.Value()), "projected_dates").Some? ==>
      df.Value() == SetColumn(old(df.Value()), "projected_dates",
                              CoerceDates(Get(old(df.Value()), "projected_dates").value, toDatetime))
      && r == SplitMostRecent(df.Value())
  {
    var col := Get(df.Value(), "projected_dates");
    if col.None? {
      return Err(MissingColumn("projected_dates"));
    }
    df.columns := SetColumn(df.Value(), "projected_dates", CoerceDates(col.value, toDatetime)).columns;
    r := SplitMostRecent(df.Value());
  }
}
