/**
 * Normalisation of the scraped supply-and-demand table
 * (functions/clean_data.py): column selection and renaming, numeric
 * cleanup of the value cells, and the marketing-year date columns.
 */
module CleanData {
  import opened Wrappers
  import opened Calendar
  import opened Text
  import opened Frames

  // ---------------------------------------------------------------- clean_cols

  /** The fixed renaming that `clean_cols` applies to the report's row labels. */
  const RenameMap: map<string, string> := map[
    "Date" := "Date",
    "Area Planted" := "Area_Planted",
    "Area Harvested" := "Area_Harvested",
    "Yield per Harvested Acre" := "Yield_per_Acre",
    "Beginning Stocks" := "Beginning_Stocks",
    "Production" := "Production",
    "Imports" := "Imports",
    "    Supply, Total" := "Total_Supply",
    "Feed and Residual" := "Feed_and_Residual",
    "Food, Seed & Industrial 2/" := "Food_Seed_and_Industrial_Use",
    "   Ethanol & by-products 3/" := "Ethanol_and_By_products",
    "    Domestic, Total" := "Total_Domestic_Use",
    "Exports" := "Exports",
    "    Use, Total" := "Total_Use",
    "Ending Stocks" := "Ending_Stocks",
    "Avg. Farm Price ($/bu)  4/" := "Avg_Farm_Price"
  ]

  /** A column `clean_cols` throws away: an `Unnamed` filler or one without a name. */
  predicate Dropped(name: string) {
    Contains(name, "Unnamed") || name == ""
  }

  function Rename(name: string): string {
    if name in RenameMap then RenameMap[name] else name
  }

  /** The two `df.loc[:, mask]` filters of `clean_cols`. */
  function KeepColumns(cols: seq<Column>): (r: seq<Column>)
    ensures |r| <= |cols|
    ensures forall j :: 0 <= j < |r| ==> !Dropped(r[j].name) && r[j] in cols
    ensures forall c :: c in cols && !Dropped(c.name) ==> c in r
  {
    if cols == [] then []
    else if Dropped(cols[0].name) then KeepColumns(cols[1..])
    else [cols[0]] + KeepColumns(cols[1..])
  }

  /** `df.rename(columns=RenameMap)`. */
  function RenameColumns(cols: seq<Column>): seq<Column> {
    seq(|cols|, k requires 0 <= k < |cols| => Column(Rename(cols[k].name), cols[k].cells))
  }

  /** `clean_cols(df)`. */
  function CleanCols(t: Table): Table {
    Table(t.rows, RenameColumns(KeepColumns(t.columns)))
  }

  lemma OccurrenceStartsWithUn(s: string, i: nat)
    requires i + 7 <= |s|
    ensures OccursAt(s, "Unnamed", i) ==> s[i] == 'U' && s[i + 1] == 'n'
  {
    assert s[i..i + 7][0] == s[i] && s[i..i + 7][1] == s[i + 1];
  }

  /** A text without a capital U does not contain `Unnamed`. */
  lemma NoUnnamedWithoutU(s: string)
    requires 'U' !in s
    ensures !Contains(s, "Unnamed")
  {
    forall i | 0 <= i && i + 7 <= |s| ensures !OccursAt(s, "Unnamed", i) {
      OccurrenceStartsWithUn(s, i);
    }
  }

  /** Neither does one whose only capital U starts its final "Use". */
  lemma NoUnnamedBeforeUse(p: string)
    requires 'U' !in p
    ensures !Contains(p + "Use", "Unnamed")
  {
    var s := p + "Use";
    forall i | 0 <= i && i + 7 <= |s| ensures !OccursAt(s, "Unnamed", i) {
      OccurrenceStartsWithUn(s, i);
      assert s[i] == p[i];
    }
  }

  /** The new names `RenameMap` hands out. */
  const RenameTargets: seq<string> := [
    "Date", "Area_Planted", "Area_Harvested", "Yield_per_Acre", "Beginning_Stocks",
    "Production", "Imports", "Total_Supply", "Feed_and_Residual",
    "Food_Seed_and_Industrial_Use", "Ethanol_and_By_products", "Total_Domestic_Use",
    "Exports", "Total_Use", "Ending_Stocks", "Avg_Farm_Price"]

  lemma RenameValuesAreTargets()
    ensures forall n :: n in RenameMap ==> RenameMap[n] in RenameTargets
  {
  }

  /** The positions in `RenameTargets` of the three names that end in "Use". */
  const FoodSeedIndustrialUse := 9
  const TotalDomesticUse := 11
  const TotalUse := 13

  /** Apart from the three names ending in "Use", no new name has a capital U. */
  lemma TargetsWithoutU()
    ensures forall i :: (0 <= i < |RenameTargets| && i != FoodSeedIndustrialUse && i != TotalDomesticUse && i != TotalUse
      ==> 'U' !in RenameTargets[i])
  {
  }

  lemma TargetKept(i: nat)
    requires i < |RenameTargets|
    ensures !Dropped(RenameTargets[i])
  {
    if i == FoodSeedIndustrialUse {
      NoUnnamedBeforeUse("Food_Seed_and_Industrial_");
      assert "Food_Seed_and_Industrial_" + "Use" == RenameTargets[i];
    } else if i == TotalDomesticUse {
      NoUnnamedBeforeUse("Total_Domestic_");
      assert "Total_Domestic_" + "Use" == RenameTargets[i];
    } else if i == TotalUse {
      NoUnnamedBeforeUse("Total_");
      assert "Total_" + "Use" == RenameTargets[i];
    } else {
      TargetsWithoutU();
      NoUnnamedWithoutU(RenameTargets[i]);
    }
  }

  /** None of the new names that `RenameMap` hands out is itself a dropped name. */
  lemma RenameTargetsKept()
    ensures forall n :: n in RenameMap ==> !Dropped(RenameMap[n])
  {
    RenameValuesAreTargets();
    forall n | n in RenameMap ensures !Dropped(RenameMap[n]) {
      var i :| 0 <= i < |RenameTargets| && RenameTargets[i] == RenameMap[n];
      TargetKept(i);
    }
  }

  /**
   * `clean_cols` keeps exactly the columns whose name neither contains
   * `Unnamed` nor is empty, renames each through `RenameMap` (names that are
   * not keys pass through), leaves their cells alone, and so never yields a
   * dropped name.
   */
  lemma CleanColsSpec(t: Table)
    ensures CleanCols(t).rows == t.rows
    ensures Rectangular(t) ==> Rectangular(CleanCols(t))
    ensures forall j :: 0 <= j < |CleanCols(t).columns| ==> !Dropped(CleanCols(t).columns[j].name)
    ensures forall k :: 0 <= k < |t.columns| && !Dropped(t.columns[k].name) ==>
      Column(Rename(t.columns[k].name), t.columns[k].cells) in CleanCols(t).columns
    ensures forall j :: 0 <= j < |CleanCols(t).columns| ==> RenamedKeptColumn(t, CleanCols(t).columns[j])
  {
    RenameTargetsKept();
    CleanColsOutputs(t);
    CleanColsInputs(t);
  }

  /** `c` is a kept column of `t` under its new name, with its cells. */
  ghost predicate RenamedKeptColumn(t: Table, c: Column) {
    exists k :: 0 <= k < |t.columns| && !Dropped(t.columns[k].name)
      && c == Column(Rename(t.columns[k].name), t.columns[k].cells)
  }

  /** Every cleaned column is a kept input column under its new name. */
  lemma CleanColsOutputs(t: Table)
    ensures forall j :: 0 <= j < |CleanCols(t).columns| ==> RenamedKeptColumn(t, CleanCols(t).columns[j])
  {
    var kept := KeepColumns(t.columns);
    var out := CleanCols(t).columns;
    forall j | 0 <= j < |out|
      ensures RenamedKeptColumn(t, out[j])
    {
      assert !Dropped(kept[j].name) && kept[j] in t.columns;
      var k :| 0 <= k < |t.columns| && t.columns[k] == kept[j];
      assert out[j] == Column(Rename(kept[j].name), kept[j].cells);
      assert 0 <= k < |t.columns| && !Dropped(t.columns[k].name)
        && out[j] == Column(Rename(t.columns[k].name), t.columns[k].cells);
    }
  }

  /** Every kept input column appears under its new name. */
  lemma CleanColsInputs(t: Table)
    ensures forall k :: 0 <= k < |t.columns| && !Dropped(t.columns[k].name) ==>
      Column(Rename(t.columns[k].name), t.columns[k].cells) in CleanCols(t).columns
  {
    var kept := KeepColumns(t.columns);
    var out := CleanCols(t).columns;
    forall k | 0 <= k < |t.columns| && !Dropped(t.columns[k].name)
      ensures Column(Rename(t.columns[k].name), t.columns[k].cells) in out
    {
      assert t.columns[k] in kept;
      var j :| 0 <= j < |kept| && kept[j] == t.columns[k];
      assert out[j] == Column(Rename(t.columns[k].name), t.columns[k].cells);
    }
  }

  /** The surviving columns keep their left-to-right order. */
  lemma CleanColsPreservesOrder(rows: nat, a: seq<Column>, b: seq<Column>)
    ensures CleanCols(Table(rows, a + b)).columns == CleanCols(Table(rows, a)).columns + CleanCols(Table(rows, b)).columns
  {
    KeepColumnsAppend(a, b);
    RenameColumnsAppend(KeepColumns(a), KeepColumns(b));
  }

  lemma RenameColumnsAppend(a: seq<Column>, b: seq<Column>)
    ensures RenameColumns(a + b) == RenameColumns(a) + RenameColumns(b)
  {
    var l, r := RenameColumns(a + b), RenameColumns(a) + RenameColumns(b);
    assert |l| == |r|;
    forall k | 0 <= k < |l| ensures l[k] == r[k] {
      if k < |a| { assert (a + b)[k] == a[k]; } else { assert (a + b)[k] == b[k - |a|]; }
    }
  }

  lemma {:induction false} KeepColumnsAppend(a: seq<Column>, b: seq<Column>)
    ensures KeepColumns(a + b) == KeepColumns(a) + KeepColumns(b)
  {
    if a != [] {
      var ab := a + b;
      assert ab[0] == a[0] && ab[1..] == a[1..] + b;
      KeepColumnsAppend(a[1..], b);
      if !Dropped(a[0].name) {
        assert KeepColumns(ab) == [a[0]] + KeepColumns(a[1..] + b);
        assert KeepColumns(a) == [a[0]] + KeepColumns(a[1..]);
      }
    } else {
      assert a + b == b;
    }
  }

  // --------------------------------------------------------- convert_numerical

  /**
   * `clean_numeric(x)`: a string loses every `*` and its outer whitespace and
   * is handed to `pd.to_numeric` (here `toNumeric`, with `None` for the
   * ValueError it raises, which becomes NA). Any other cell goes to
   * `pd.to_numeric` as it is: numbers and NA come back unchanged, and a
   * timestamp raises a TypeError that `except ValueError` does not catch
   * (`None` here).
   */
  function CleanNumeric(c: Cell, toNumeric: string -> Option<real>): Option<Cell> {
    match c
    case Text(s) =>
      Some(match toNumeric(Strip(RemoveAll(s, '*')))
           case Some(x) => Number(x)
           case None => Missing)
    case Stamp(_) => None
    case _ => Some(c)
  }

  predicate CellsConvert(cells: seq<Cell>, toNumeric: string -> Option<real>) {
    forall i :: 0 <= i < |cells| ==> CleanNumeric(cells[i], toNumeric).Some?
  }

  /**
   * One iteration of the column loop of `convert_numerical`: `Date` is
   * skipped, any other column is cleaned cell by cell, and the `apply`
   * raises (`None`) when one of its cells does.
   */
  function ConvertColumn(c: Column, toNumeric: string -> Option<real>): (r: Option<Column>)
    ensures r.Some? ==> r.value.name == c.name && |r.value.cells| == |c.cells|
  {
    if c.name == "Date" then Some(c)
    else if !CellsConvert(c.cells, toNumeric) then None
    else Some(Column(c.name, seq(|c.cells|, i requires 0 <= i < |c.cells| => CleanNumeric(c.cells[i], toNumeric).value)))
  }

  predicate ColumnsConvert(cols: seq<Column>, toNumeric: string -> Option<real>) {
    forall k :: 0 <= k < |cols| ==> ConvertColumn(cols[k], toNumeric).Some?
  }

  /**
   * The table once the first `k` columns have been through the loop and the
   * rest not yet.
   */
  function ConvertedUpTo(t: Table, k: nat, toNumeric: string -> Option<real>): Table
    requires k <= |t.columns| && ColumnsConvert(t.columns[..k], toNumeric)
  {
    Table(t.rows, seq(|t.columns|, j requires 0 <= j < |t.columns| =>
      if j < k then (assert t.columns[..k][j] == t.columns[j]; ConvertColumn(t.columns[j], toNumeric).value)
      else t.columns[j]))
  }

  /** The table `convert_numerical` returns, or `None` when it raises. */
  function ConvertedTable(t: Table, toNumeric: string -> Option<real>): Option<Table> {
    if ColumnsConvert(t.columns, toNumeric) then
      assert t.columns[..|t.columns|] == t.columns;
      Some(ConvertedUpTo(t, |t.columns|, toNumeric))
    else None
  }

  /** Column `k` is the first whose `apply` raises. */
  predicate FailsFirstAt(t: Table, k: nat, toNumeric: string -> Option<real>) {
    k < |t.columns| && ConvertColumn(t.columns[k], toNumeric).None?
    && ColumnsConvert(t.columns[..k], toNumeric)
  }

  /**
   * `convert_numerical` raises exactly when a column other than `Date` holds
   * a timestamp. Otherwise it keeps the rows and the column names, leaves
   * the `Date` column untouched, turns every string cell of any other column
   * into the number its cleaned text parses to, or NA when it does not parse,
   * and leaves numbers, integers and NA as they were.
   */
  lemma ConvertedTableSpec(t: Table, toNumeric: string -> Option<real>)
    requires Rectangular(t)
    ensures ConvertedTable(t, toNumeric).None? <==>
      exists k, i :: 0 <= k < |t.columns| && t.columns[k].name != "Date" && 0 <= i < t.rows && t.columns[k].cells[i].Stamp?
    ensures ConvertedTable(t, toNumeric).Some? ==> var r := ConvertedTable(t, toNumeric).value;
      Rectangular(r) && r.rows == t.rows && Names(r) == Names(t)
      && (forall k :: 0 <= k < |t.columns| && t.columns[k].name == "Date" ==> r.columns[k] == t.columns[k])
      && (forall k, i :: 0 <= k < |t.columns| && t.columns[k].name != "Date" && 0 <= i < t.rows ==>
            var before, after := t.columns[k].cells[i], r.columns[k].cells[i];
            (before.Text? ==>
               after == (if toNumeric(Strip(RemoveAll(before.s, '*'))).Some?
                         then Number(toNumeric(Strip(RemoveAll(before.s, '*'))).value) else Missing))
            && (!before.Text? ==> after == before))
  {
    if ConvertedTable(t, toNumeric).None? {
      var k :| 0 <= k < |t.columns| && ConvertColumn(t.columns[k], toNumeric).None?;
      var i :| 0 <= i < |t.columns[k].cells| && CleanNumeric(t.columns[k].cells[i], toNumeric).None?;
      assert t.columns[k].name != "Date" && t.columns[k].cells[i].Stamp?;
    } else {
      var r := ConvertedTable(t, toNumeric).value;
      forall k | 0 <= k < |t.columns| ensures r.columns[k] == ConvertColumn(t.columns[k], toNumeric).value {
      }
      forall k, i | 0 <= k < |t.columns| && t.columns[k].name != "Date" && 0 <= i < t.rows
        ensures !t.columns[k].cells[i].Stamp?
      {
        assert CleanNumeric(t.columns[k].cells[i], toNumeric).Some?;
      }
    }
  }

  /**
   * `convert_numerical(df)`: the loop over the columns, overwriting each in
   * place. When a column's `apply` raises, the columns before it are already
   * converted and it and the ones after it are not.
   */
  method ConvertNumerical(df: DataFrame, toNumeric: string -> Option<real>) returns (ok: bool)
    requires df.Valid()
    modifies df
    ensures df.Valid()
    ensures ok <==> ConvertedTable(old(df.Value()), toNumeric).Some?
    ensures ok ==> df.Value() == ConvertedTable(old(df.Value()), toNumeric).value
    ensures !ok ==> exists k :: FailsFirstAt(old(df.Value()), k, toNumeric)
                             && df.Value() == ConvertedUpTo(old(df.Value()), k, toNumeric)
  {
    ghost var t := df.Value();
    var k := 0;
    while k < |df.columns|
      invariant 0 <= k <= |df.columns| == |t.columns|
      invariant ColumnsConvert(t.columns[..k], toNumeric)
      invariant df.Value() == ConvertedUpTo(t, k, toNumeric)
    {
      var col := df.columns[k];
      assert col == t.columns[k];
      var converted := ConvertColumn(col, toNumeric);
      if converted.None? {
        assert FailsFirstAt(t, k, toNumeric);
        assert !ColumnsConvert(t.columns, toNumeric);
        return false;
      }
      if col.name != "Date" {
        df.columns := df.columns[k := converted.value];
      }
      assert t.columns[..k + 1] == t.columns[..k] + [t.columns[k]];
      k := k + 1;
    }
    assert t.columns[..k] == t.columns;
    ok := true;
  }

  // ----------------------------------------------------------- convert_to_date

  predicate IsDigit(c: char) {
    '0' <= c <= '9'
  }

  predicate AllDigits(s: string) {
    forall i :: 0 <= i < |s| ==> IsDigit(s[i])
  }

  /** `int(s)` for a string of ASCII digits. */
  function DigitsValue(s: string): nat
    requires AllDigits(s)
  {
    if s == [] then 0 else 10 * DigitsValue(s[..|s| - 1]) + (s[|s| - 1] as int - '0' as int)
  }

  function LowerAscii(c: char): char {
    if 'A' <= c <= 'Z' then (c as int + 32) as char else c
  }

  function LowerText(s: string): (r: string)
    ensures |r| == |s| && forall i :: 0 <= i < |s| ==> r[i] == LowerAscii(s[i])
  {
    seq(|s|, i requires 0 <= i < |s| => LowerAscii(s[i]))
  }

  /** The month names `%b` accepts in the C locale, in the lower case `strptime` compares in. */
  const MonthNames: seq<string> :=
    ["jan", "feb", "mar", "apr", "may", "jun", "jul", "aug", "sep", "oct", "nov", "dec"]

  /** The month `%b` matches, compared without regard to (ASCII) case. */
  function MonthFromAbbrev(s: string): (r: Option<int>)
    ensures r.Some? ==> 1 <= r.value <= 12 && LowerText(s) == MonthNames[r.value - 1]
    ensures r.None? ==> LowerText(s) !in MonthNames
  {
    var l := LowerText(s);
    if l == "jan" then Some(1) else if l == "feb" then Some(2) else if l == "mar" then Some(3)
    else if l == "apr" then Some(4) else if l == "may" then Some(5) else if l == "jun" then Some(6)
    else if l == "jul" then Some(7) else if l == "aug" then Some(8) else if l == "sep" then Some(9)
    else if l == "oct" then Some(10) else if l == "nov" then Some(11) else if l == "dec" then Some(12)
    else None
  }

  /**
   * `datetime.strptime(text, "%Y %b")`: four digits, at least one whitespace
   * character (the format's space), a month name, and nothing after it; year
   * 0 is out of range. The day defaults to 1.
   */
  function StrptimeYearMonth(text: string): (r: Option<CalendarDate>)
    ensures r.Some? ==> 1 <= r.value.year <= 9999 && r.value.day == 1
  {
    if |text| < 4 || !AllDigits(text[..4]) then None
    else
      var year := DigitsValue(text[..4]);
      assert year <= 9999 by { FourDigitsBound(text[..4]); }
      var rest := text[4..];
      var k := LeadingSpaces(rest);
      if k == 0 || year == 0 then None
      else match MonthFromAbbrev(rest[k..])
        case None => None
        case Some(m) => Some(Date(year, m, 1))
  }

  lemma FourDigitsBound(s: string)
    requires |s| == 4 && AllDigits(s)
    ensures DigitsValue(s) <= 9999
  {
    var s3, s2, s1 := s[..3], s[..3][..2], s[..3][..2][..1];
    assert s[..|s| - 1] == s3 && s3[..|s3| - 1] == s2 && s2[..|s2| - 1] == s1 && s1[..|s1| - 1] == [];
    assert DigitsValue(s1) <= 9;
    assert DigitsValue(s2) <= 99;
    assert DigitsValue(s3) <= 999;
  }

  const ProjSeparator: string := " Proj. "

  /**
   * `convert_to_date(dateLabel)`: split at " Proj. " into exactly two parts
   * (anything else raises), keep the text before the first "/" of the first
   * part as the year, and parse "year month" as `%Y %b`. `None` stands for
   * the ValueError.
   */
  function ConvertToDate(dateLabel: string): (r: Option<CalendarDate>)
    ensures r.Some? ==> |Split(dateLabel, ProjSeparator)| == 2
    ensures r.Some? ==> r.value.day == 1 && 1 <= r.value.year <= 9999
  {
    var parts := Split(dateLabel, ProjSeparator);
    if |parts| != 2 then None
    else StrptimeYearMonth(Split(parts[0], "/")[0] + " " + parts[1])
  }

  lemma MonthNameHasNoSpace(s: string, m: int)
    requires 1 <= m <= 12 && LowerText(s) == MonthNames[m - 1]
    ensures |s| == 3 && ' ' !in s && '/' !in s && !IsSpace(s[0])
  {
    forall i | 0 <= i < |s| ensures s[i] != ' ' && s[i] != '/' && (i == 0 ==> !IsSpace(s[i])) {
      assert 'a' <= LowerText(s)[i] <= 'z';
    }
  }

  /**
   * A report label "YYYY/YY Proj. Mon" becomes the first day of month Mon of
   * year YYYY: the year is the four digits before the "/", the month name may
   * be in any case, and the day is always 1.
   */
  lemma ConvertToDateOfLabel(yearText: string, crop: string, month: string, m: int)
    requires |yearText| == 4 && AllDigits(yearText) && DigitsValue(yearText) >= 1
    requires ' ' !in crop
    requires 1 <= m <= 12 && LowerText(month) == MonthNames[m - 1]
    ensures ConvertToDate(yearText + "/" + crop + ProjSeparator + month)
         == Some(Date(DigitsValue(yearText), m, 1))
  {
    MonthNameHasNoSpace(month, m);
    DigitsHaveNoSeparator(yearText);
    var first := yearText + "/" + crop;
    assert ' ' !in first;
    SplitLabel(first, month);
    YearBeforeSlash(yearText, crop);
    StrptimeOfYearAndMonth(yearText, month, m);
  }

  lemma DigitsHaveNoSeparator(s: string)
    requires AllDigits(s)
    ensures ' ' !in s && '/' !in s
  {
    forall i | 0 <= i < |s| ensures s[i] != ' ' && s[i] != '/' { assert IsDigit(s[i]); }
  }

  lemma SplitLabel(first: string, month: string)
    requires ' ' !in first && ' ' !in month
    ensures Split(first + ProjSeparator + month, ProjSeparator) == [first, month]
  {
    assert ProjSeparator[0] == ' ';
    SplitAfter(first, ProjSeparator, month);
    SplitWithoutSeparator(month, ProjSeparator);
  }

  lemma YearBeforeSlash(yearText: string, crop: string)
    requires '/' !in yearText
    ensures Split(yearText + "/" + crop, "/")[0] == yearText
  {
    SplitAfter(yearText, "/", crop);
  }

  /**
   * `text` reads as the four year digits of `y`, a run of whitespace, and
   * the name of month `m` in any case.
   */
  predicate IsYearMonthText(text: string, yearText: string, gap: string, month: string, y: int, m: int) {
    text == yearText + gap + month
    && |yearText| == 4 && AllDigits(yearText) && DigitsValue(yearText) == y && y >= 1
    && |gap| > 0 && (forall i :: 0 <= i < |gap| ==> IsSpace(gap[i]))
    && 1 <= m <= 12 && LowerText(month) == MonthNames[m - 1]
  }

  /**
   * `strptime(text, "%Y %b")` succeeds with year `y` and month `m` exactly
   * when the text is four digits worth `y` (not 0), whitespace, and the name
   * of month `m`, with nothing before or after.
   */
  lemma StrptimeYearMonthSpec(text: string, y: int, m: int)
    ensures (StrptimeYearMonth(text).Some? && StrptimeYearMonth(text).value.year == y
             && StrptimeYearMonth(text).value.month == m)
        <==> exists yearText, gap, month :: IsYearMonthText(text, yearText, gap, month, y, m)
  {
    var r := StrptimeYearMonth(text);
    if r.Some? && r.value.year == y && r.value.month == m {
      StrptimeReadsYearMonth(text);
    }
    if exists yearText, gap, month :: IsYearMonthText(text, yearText, gap, month, y, m) {
      var yearText, gap, month :| IsYearMonthText(text, yearText, gap, month, y, m);
      StrptimeAcceptsYearMonth(text, yearText, gap, month, y, m);
    }
  }

  lemma StrptimeReadsYearMonth(text: string)
    requires StrptimeYearMonth(text).Some?
    ensures var d := StrptimeYearMonth(text).value;
      IsYearMonthText(text, text[..4], text[4..][..LeadingSpaces(text[4..])],
                      text[4..][LeadingSpaces(text[4..])..], d.year, d.month)
  {
    var rest := text[4..];
    var k := LeadingSpaces(rest);
    assert text == text[..4] + rest[..k] + rest[k..];
  }

  lemma StrptimeAcceptsYearMonth(text: string, yearText: string, gap: string, month: string, y: int, m: int)
    requires IsYearMonthText(text, yearText, gap, month, y, m)
    ensures StrptimeYearMonth(text) == Some(Date(y, m, 1))
  {
    MonthNameHasNoSpace(month, m);
    assert text[..4] == yearText;
    assert text[4..] == gap + month;
    LeadingSpacesBefore(gap, month);
    MonthOfName(month, m);
  }

  lemma StrptimeOfYearAndMonth(yearText: string, month: string, m: int)
    requires |yearText| == 4 && AllDigits(yearText) && DigitsValue(yearText) >= 1
    requires 1 <= m <= 12 && LowerText(month) == MonthNames[m - 1]
    ensures StrptimeYearMonth(yearText + " " + month) == Some(Date(DigitsValue(yearText), m, 1))
  {
    var text := yearText + " " + month;
    assert IsYearMonthText(text, yearText, " ", month, DigitsValue(yearText), m);
    StrptimeYearMonthSpec(text, DigitsValue(yearText), m);
  }

  /** The whitespace run before a word is exactly the leading whitespace. */
  lemma {:induction false} LeadingSpacesBefore(gap: string, word: string)
    requires forall i :: 0 <= i < |gap| ==> IsSpace(gap[i])
    requires |word| > 0 && !IsSpace(word[0])
    ensures LeadingSpaces(gap + word) == |gap| && (gap + word)[|gap|..] == word
    decreases |gap|
  {
    var s := gap + word;
    if gap == [] {
      assert s == word;
    } else {
      assert s[0] == gap[0] && IsSpace(s[0]);
      assert s[1..] == gap[1..] + word;
      LeadingSpacesBefore(gap[1..], word);
      assert LeadingSpaces(s) == 1 + LeadingSpaces(s[1..]);
    }
  }

  /** Each of the twelve names is read as its own month. */
  lemma MonthOfName(month: string, m: int)
    requires 1 <= m <= 12 && LowerText(month) == MonthNames[m - 1]
    ensures MonthFromAbbrev(month) == Some(m)
  {
    var l := LowerText(month);
    if m == 1 { assert l == "jan"; }
    else if m == 2 { assert l == "feb"; }
    else if m == 3 { assert l == "mar"; }
    else if m == 4 { assert l == "apr"; }
    else if m == 5 { assert l == "may"; }
    else if m == 6 { assert l == "jun"; }
    else if m == 7 { assert l == "jul"; }
    else if m == 8 { assert l == "aug"; }
    else if m == 9 { assert l == "sep"; }
    else if m == 10 { assert l == "oct"; }
    else if m == 11 { assert l == "nov"; }
    else { assert l == "dec"; }
  }

  // ---------------------------------------------- adjust_month_to_marketing_year

  /** `(month - 5) % 12 + 1`; Python's `%` with a positive modulus agrees with Dafny's. */
  function AdjustMonth(month: int): (r: int)
    ensures 1 <= r <= 12
  {
    (month - 5) % 12 + 1
  }

  /** The calendar month of a marketing-year month: the inverse rotation. */
  function CalendarMonthOf(marketingMonth: int): int {
    (marketingMonth + 3) % 12 + 1
  }

  /** The rotation is a bijection of 1..12: May is the first month, April the last. */
  lemma AdjustMonthBijective(m: int, r: int)
    requires 1 <= m <= 12 && 1 <= r <= 12
    ensures 1 <= CalendarMonthOf(r) <= 12
    ensures CalendarMonthOf(AdjustMonth(m)) == m
    ensures AdjustMonth(CalendarMonthOf(r)) == r
    ensures AdjustMonth(5) == 1 && AdjustMonth(6) == 2 && AdjustMonth(12) == 8
    ensures AdjustMonth(1) == 9 && AdjustMonth(4) == 12
  {
  }

  // -------------------------------------------------------------- new_date_cols

  /**
   * `df['Date'].apply(convert_to_date)`: every label must be a string that
   * converts, or the whole call raises (`None`).
   */
  function ProjectedDates(cells: seq<Cell>): (r: Option<seq<CalendarDate>>)
    ensures r.Some? <==> forall i :: 0 <= i < |cells| ==> cells[i].Text? && ConvertToDate(cells[i].s).Some?
    ensures r.Some? ==> |r.value| == |cells|
    ensures r.Some? ==> forall i :: 0 <= i < |cells| ==> cells[i].Text? && ConvertToDate(cells[i].s) == Some(r.value[i])
  {
    ApplyToLabels(cells, ConvertToDate)
  }

  /** `Series.apply(convert)` over text cells; a non-text cell or a failed conversion raises. */
  function ApplyToLabels(cells: seq<Cell>, convert: string -> Option<CalendarDate>): (r: Option<seq<CalendarDate>>)
    ensures r.Some? <==> forall i :: 0 <= i < |cells| ==> cells[i].Text? && convert(cells[i].s).Some?
    ensures r.Some? ==> |r.value| == |cells|
    ensures r.Some? ==> forall i :: 0 <= i < |cells| ==> cells[i].Text? && convert(cells[i].s) == Some(r.value[i])
  {
    if cells == [] then Some([])
    else if !cells[0].Text? then None
    else match convert(cells[0].s)
      case None => None
      case Some(d) =>
        match ApplyToLabels(cells[1..], convert)
        case None => None
        case Some(ds) => Some([d] + ds)
  }

  /** The marketing-year date of a projected date: same year, rotated month, day 1. */
  function MarketingYearMonth(d: CalendarDate): (r: CalendarDate) {
    Date(d.year, AdjustMonth(d.month), 1)
  }

  function StampCells(ds: seq<CalendarDate>): seq<Cell> {
    seq(|ds|, i requires 0 <= i < |ds| => Stamp(ds[i]))
  }

  function YearCells(ds: seq<CalendarDate>): seq<Cell> {
    seq(|ds|, i requires 0 <= i < |ds| => Integer(ds[i].year))
  }

  function AdjustedMonthCells(ds: seq<CalendarDate>): seq<Cell> {
    seq(|ds|, i requires 0 <= i < |ds| => Integer(AdjustMonth(ds[i].month)))
  }

  function MarketingCells(ds: seq<CalendarDate>): seq<Cell> {
    seq(|ds|, i requires 0 <= i < |ds| => Stamp(MarketingYearMonth(ds[i])))
  }

  /**
   * The table after the four column assignments of `new_date_cols`, given
   * the projected dates of its rows.
   */
  function WithDateColumns(t: Table, ds: seq<CalendarDate>): (r: Table)
    requires |ds| == t.rows
    ensures r.rows == t.rows
    ensures Rectangular(t) ==> Rectangular(r)
    ensures Get(r, "projected_dates") == Some(StampCells(ds))
    ensures Get(r, "Adjusted_Year") == Some(YearCells(ds))
    ensures Get(r, "Adjusted_Month") == Some(AdjustedMonthCells(ds))
    ensures Get(r, "Marketing_Year_Month") == Some(MarketingCells(ds))
    ensures forall n :: n !in DateColumnNames ==> Get(r, n) == Get(t, n)
  {
    DateColumnNamesDistinct();
    var t1 := SetColumn(t, "projected_dates", StampCells(ds));
    var t2 := SetColumn(t1, "Adjusted_Year", YearCells(ds));
    var t3 := SetColumn(t2, "Adjusted_Month", AdjustedMonthCells(ds));
    var r := SetColumn(t3, "Marketing_Year_Month", MarketingCells(ds));
    assert Get(r, "projected_dates") == Get(t3, "projected_dates") == Get(t2, "projected_dates") == Get(t1, "projected_dates");
    assert Get(r, "Adjusted_Year") == Get(t3, "Adjusted_Year") == Get(t2, "Adjusted_Year");
    assert Get(r, "Adjusted_Month") == Get(t3, "Adjusted_Month");
    forall n | n !in DateColumnNames ensures Get(r, n) == Get(t, n) {
      assert Get(r, n) == Get(t3, n) == Get(t2, n) == Get(t1, n) == Get(t, n);
    }
    r
  }

  /** The four new column names are pairwise different (their lengths already differ). */
  lemma DateColumnNamesDistinct()
    ensures "projected_dates" != "Adjusted_Year" && "projected_dates" != "Adjusted_Month"
    ensures "projected_dates" != "Marketing_Year_Month" && "Adjusted_Year" != "Adjusted_Month"
    ensures "Adjusted_Year" != "Marketing_Year_Month" && "Adjusted_Month" != "Marketing_Year_Month"
  {
    assert |"projected_dates"| == 15 && |"Adjusted_Year"| == 13;
    assert |"Adjusted_Month"| == 14 && |"Marketing_Year_Month"| == 20;
  }

  const DateColumnNames: set<string> :=
    {"projected_dates", "Adjusted_Year", "Adjusted_Month", "Marketing_Year_Month"}

  /**
   * Row by row, `Marketing_Year_Month` is built from the year and
   * marketing month of the projected date: the year is kept, the month is
   * rotated, the day is 1.
   */
  lemma MarketingColumnRows(t: Table, ds: seq<CalendarDate>, i: nat)
    requires |ds| == t.rows && i < t.rows
    ensures var r := WithDateColumns(t, ds);
      var year, month := Get(r, "Adjusted_Year").value[i], Get(r, "Adjusted_Month").value[i];
      var mym := Get(r, "Marketing_Year_Month").value[i];
      Get(r, "projected_dates").value[i] == Stamp(ds[i])
      && year == Integer(ds[i].year)
      && month == Integer(AdjustMonth(ds[i].month))
      && mym.Stamp? && mym.d == Date(year.i, month.i, 1)
  {
  }

  /**
   * `new_date_cols(df)`: fill `projected_dates`, `Adjusted_Year`,
   * `Adjusted_Month` and `Marketing_Year_Month` in place. It fails, leaving
   * the table as it was, when there is no `Date` column or a label does not
   * convert. On a table without rows the `apply` yields an empty column of
   * objects, not of timestamps: it is stored as `projected_dates`, and the
   * `.dt` accessor then raises.
   */
  method NewDateCols(df: DataFrame) returns (ok: bool)
    requires df.Valid()
    modifies df
    ensures df.Valid()
    ensures ok <==> old(df.rows) > 0 && Get(old(df.Value()), "Date").Some?
                    && ProjectedDates(Get(old(df.Value()), "Date").value).Some?
    ensures Get(old(df.Value()), "Date").None? || ProjectedDates(Get(old(df.Value()), "Date").value).None?
            ==> df.Value() == old(df.Value())
    ensures old(df.rows) == 0 && Get(old(df.Value()), "Date").Some?
            ==> df.Value() == SetColumn(old(df.Value()), "projected_dates", [])
    ensures ok ==> df.Value() == WithDateColumns(old(df.Value()), ProjectedDates(Get(old(df.Value()), "Date").value).value)
  {
    var labels := Get(df.Value(), "Date");
    if labels.None? {
      return false;
    }
    var projected := ProjectedDates(labels.value);
    if projected.None? {
      return false;
    }
    var ds := projected.value;
    df.columns := SetColumn(df.Value(), "projected_dates", StampCells(ds)).columns;
    if ds == [] {
      assert StampCells(ds) == [];
      return false;
    }
    df.columns := SetColumn(df.Value(), "Adjusted_Year", YearCells(ds)).columns;
    df.columns := SetColumn(df.Value(), "Adjusted_Month", AdjustedMonthCells(ds)).columns;
    df.columns := SetColumn(df.Value(), "Marketing_Year_Month", MarketingCells(ds)).columns;
    ok := true;
  }
}
