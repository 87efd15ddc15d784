/** One pass of the Campaign Demand Estimator page in app.py, from an
    uploaded table to the message it shows. */
module CampaignApp {
  import opened Wrappers
  import opened DemandNormalizer
  import opened PeriodFilter
  import opened Estimator
  import opened Schema

  /** One row of the uploaded table apart from its Demand cell, which is kept
      apart because cleaning replaces it in place. Dates are the parsed
      timestamps, None where the text is not a date. */
  datatype Record = Record(country: string, description: Option<string>, dateStart: Option<int>, dateEnd: Option<int>)

  /** What the user entered on the page: the country, the keyword, both
      periods, the growth percentage, whether the estimate button was
      pressed, and the index labels of the rows whose checkbox was cleared in
      each period's list. */
  datatype Query = Query(
    country: string, keyword: string,
    earlierStart: int, earlierEnd: int, growth: real,
    laterStart: int, laterEnd: int,
    pressed: bool, clearedEarlier: set<nat>, clearedLater: set<nat>)

  /** What the page ends with. */
  datatype Outcome =
    | SchemaError(missing: set<string>)
    | KeywordTooShort
    | AwaitingButton
    | Finished(earlier: seq<Row>, later: seq<Row>, estimate: Estimate)

  /** The value a cleaned Demand cell holds. */
  function DemandOf(c: Cell): (v: Option<real>)
    ensures StoredCell(v) == c || c.Text?
  {
    match c
    case Amount(x) => Some(x)
    case _ => None
  }

  /** The table after cleaning, one row per record, labelled by its position
      (the default index of a freshly read table). */
  function Table(records: seq<Record>, cleaned: seq<Cell>): (rows: seq<Row>)
    requires |cleaned| == |records|
    ensures |rows| == |records|
    ensures forall i :: 0 <= i < |rows| ==> rows[i].id == i
  {
    seq(|records|, i requires 0 <= i < |records| =>
      Row(i, records[i].country, records[i].description, records[i].dateStart, records[i].dateEnd, DemandOf(cleaned[i])))
  }

  /** `x` is the table row built from record `x.id`: that record's country,
      description and dates, and the parsed value of its raw Demand cell. */
  predicate RowOfRecord(x: Row, records: seq<Record>, cells: seq<Cell>, render: real -> string)
    requires |cells| == |records|
  {
    x.id < |records| &&
    x.country == records[x.id].country && x.description == records[x.id].description &&
    x.dateStart == records[x.id].dateStart && x.dateEnd == records[x.id].dateEnd &&
    x.demand == ParseDemand(cells[x.id], render)
  }

  /** The growth percentage the number input accepts. */
  predicate GrowthInRange(growth: real) {
    0.0 <= growth <= 100.0
  }

  /** What a pass of the page shows for the uploaded table (its column names,
      its records and its raw Demand cells) and the user's entries. */
  function Session(columns: seq<string>, records: seq<Record>, cells: seq<Cell>, render: real -> string, q: Query): Outcome
    requires |cells| == |records| && LiteralKeyword(q.keyword) && GrowthInRange(q.growth)
  {
    if MissingColumns(columns) != {} then SchemaError(MissingColumns(columns))
    else if |q.keyword| < 3 then KeywordTooShort
    else if !q.pressed then AwaitingButton
    else
      var rows := Table(records, CleanedColumn(cells, render));
      var earlier := Kept(FilterData(rows, q.country, q.keyword, q.earlierStart, q.earlierEnd), q.clearedEarlier);
      var later := Kept(FilterData(rows, q.country, q.keyword, q.laterStart, q.laterEnd), q.clearedLater);
      Finished(earlier, later, EstimateDemand(earlier, later, q.growth))
  }

  /** The page, step by step: check the columns, clean the Demand column in
      place, then, once the keyword is long enough and the button pressed,
      filter both periods, collect the ticked rows and estimate. */
  method Run(columns: seq<string>, records: seq<Record>, demand: array<Cell>, render: real -> string, q: Query)
    returns (out: Outcome)
    requires demand.Length == |records| && LiteralKeyword(q.keyword) && GrowthInRange(q.growth)
    modifies demand
    ensures out == Session(columns, records, old(demand[..]), render, q)
    ensures out.SchemaError? ==> demand[..] == old(demand[..])
    ensures !out.SchemaError? ==> demand[..] == CleanedColumn(old(demand[..]), render)
  {
    var missing := MissingColumns(columns);
    if missing != {} {
      return SchemaError(missing);
    }
    CleanDemandColumn(demand, render);
    var rows := Table(records, demand[..]);
    if |q.keyword| < 3 {
      return KeywordTooShort;
    }
    if !q.pressed {
      return AwaitingButton;
    }
    var filteredEarlier := FilterData(rows, q.country, q.keyword, q.earlierStart, q.earlierEnd);
    var filteredLater := FilterData(rows, q.country, q.keyword, q.laterStart, q.laterEnd);
    var earlier := SelectRows(filteredEarlier, q.clearedEarlier);
    var later := SelectRows(filteredLater, q.clearedLater);
    out := Finished(earlier, later, EstimateDemand(earlier, later, q.growth));
  }

  // ---------------------------------------------------------------------
  // Properties of a pass

  /** A table without every required column stops with an error naming
      exactly the missing ones. */
  lemma MissingColumnsReported(columns: seq<string>, records: seq<Record>, cells: seq<Cell>, render: real -> string, q: Query)
    requires |cells| == |records| && LiteralKeyword(q.keyword) && GrowthInRange(q.growth)
    ensures Session(columns, records, cells, render, q).SchemaError? <==> exists c :: c in Required && c !in columns
    ensures Session(columns, records, cells, render, q).SchemaError? ==>
      Session(columns, records, cells, render, q).missing == set c | c in Required && c !in columns
  {
  }

  /** With the columns present, a keyword of fewer than three characters
      (the empty keyword included) stops before any filtering. */
  lemma ShortKeywordStops(columns: seq<string>, records: seq<Record>, cells: seq<Cell>, render: real -> string, q: Query)
    requires |cells| == |records| && LiteralKeyword(q.keyword) && GrowthInRange(q.growth)
    requires MissingColumns(columns) == {}
    ensures Session(columns, records, cells, render, q) == KeywordTooShort <==> |q.keyword| < 3
  {
  }

  /** Every row listed for a period is a row of the table whose country,
      keyword and dates pass that period's filter, whose checkbox is ticked,
      and whose demand is the cleaned value of its raw cell. */
  lemma ListedRowsFaithful(columns: seq<string>, records: seq<Record>, cells: seq<Cell>, render: real -> string, q: Query)
    requires |cells| == |records| && LiteralKeyword(q.keyword) && GrowthInRange(q.growth)
    requires Session(columns, records, cells, render, q).Finished?
    ensures forall x :: x in Session(columns, records, cells, render, q).earlier ==>
      Matches(x, q.country, q.keyword, q.earlierStart, q.earlierEnd) && x.id !in q.clearedEarlier &&
      RowOfRecord(x, records, cells, render)
    ensures forall x :: x in Session(columns, records, cells, render, q).later ==>
      Matches(x, q.country, q.keyword, q.laterStart, q.laterEnd) && x.id !in q.clearedLater &&
      RowOfRecord(x, records, cells, render)
  {
    PeriodRowsFaithful(records, cells, render, q.country, q.keyword, q.earlierStart, q.earlierEnd, q.clearedEarlier);
    PeriodRowsFaithful(records, cells, render, q.country, q.keyword, q.laterStart, q.laterEnd, q.clearedLater);
  }

  /** The rows listed and ticked for one period. */
  lemma PeriodRowsFaithful(records: seq<Record>, cells: seq<Cell>, render: real -> string,
                           country: string, keyword: string, start: int, end: int, cleared: set<nat>)
    requires |cells| == |records| && LiteralKeyword(keyword)
    ensures forall x :: x in Kept(FilterData(Table(records, CleanedColumn(cells, render)), country, keyword, start, end), cleared) ==>
      Matches(x, country, keyword, start, end) && x.id !in cleared &&
      RowOfRecord(x, records, cells, render)
  {
    var rows := Table(records, CleanedColumn(cells, render));
    var filtered := FilterData(rows, country, keyword, start, end);
    KeptIsSelection(filtered, cleared);
    RowsOfTable(records, CleanedColumn(cells, render), cells, render);
  }

  lemma RowsOfTable(records: seq<Record>, cleaned: seq<Cell>, cells: seq<Cell>, render: real -> string)
    requires |cells| == |records| && cleaned == CleanedColumn(cells, render)
    ensures forall x :: x in Table(records, cleaned) ==> RowOfRecord(x, records, cells, render)
  {
    var rows := Table(records, cleaned);
    forall x | x in rows
      ensures RowOfRecord(x, records, cells, render)
    {
      var i :| 0 <= i < |rows| && rows[i] == x;
      StoredValue(ParseDemand(cells[i], render));
    }
  }

  /** Storing a parsed value and reading it back gives the value. */
  lemma StoredValue(v: Option<real>)
    ensures DemandOf(StoredCell(v)) == v
  {
  }

  /** With every checkbox left ticked, each period lists exactly its filtered
      rows. */
  lemma DefaultListsFiltered(columns: seq<string>, records: seq<Record>, cells: seq<Cell>, render: real -> string, q: Query)
    requires |cells| == |records| && LiteralKeyword(q.keyword) && GrowthInRange(q.growth)
    requires Session(columns, records, cells, render, q).Finished?
    requires q.clearedEarlier == {} && q.clearedLater == {}
    ensures var rows := Table(records, CleanedColumn(cells, render));
      Session(columns, records, cells, render, q).earlier == FilterData(rows, q.country, q.keyword, q.earlierStart, q.earlierEnd) &&
      Session(columns, records, cells, render, q).later == FilterData(rows, q.country, q.keyword, q.laterStart, q.laterEnd)
  {
    var rows := Table(records, CleanedColumn(cells, render));
    DefaultKeepsAll(FilterData(rows, q.country, q.keyword, q.earlierStart, q.earlierEnd), {});
    DefaultKeepsAll(FilterData(rows, q.country, q.keyword, q.laterStart, q.laterEnd), {});
  }

  /** A finished pass warns instead of estimating exactly when no Later row is
      listed and ticked. */
  lemma WarningWithoutLater(columns: seq<string>, records: seq<Record>, cells: seq<Cell>, render: real -> string, q: Query)
    requires |cells| == |records| && LiteralKeyword(q.keyword) && GrowthInRange(q.growth)
    requires Session(columns, records, cells, render, q).Finished?
    ensures Session(columns, records, cells, render, q).estimate == NoLaterSelection <==>
      Session(columns, records, cells, render, q).later == []
  {
  }

  /** Since the growth is never negative, the estimate is never below the
      plain average of the two means when the Earlier mean is not negative. */
  lemma GrowthNeverLowers(columns: seq<string>, records: seq<Record>, cells: seq<Cell>, render: real -> string, q: Query)
    requires |cells| == |records| && LiteralKeyword(q.keyword) && GrowthInRange(q.growth)
    requires Session(columns, records, cells, render, q).Finished?
    requires var s := Session(columns, records, cells, render, q);
      s.earlier != [] && Mean(s.earlier).Some? && Mean(s.earlier).value >= 0.0 && Mean(s.later).Some?
    ensures var s := Session(columns, records, cells, render, q);
      s.estimate.Value? && s.estimate.amount >= (Mean(s.earlier).value + Mean(s.later).value) / 2.0
  {
    var s := Session(columns, records, cells, render, q);
    GrowthMonotone(s.earlier, s.later, 0.0, q.growth);
  }
}
