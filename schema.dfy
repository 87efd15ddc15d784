/** The column check app.py makes on an uploaded campaign table before any
    processing. */
module Schema {

  /** The columns the rest of the app reads. */
  const Required: set<string> :=
    {"Country", "Description", "Date Start", "Date End", "Demand", "Campaign name"}

  /** The required columns the table lacks; the table is accepted exactly
      when none is missing, and the error message lists these. */
  function MissingColumns(columns: seq<string>): (missing: set<string>)
    ensures missing <= Required
    ensures forall c :: c in Required ==> (c in missing <==> c !in columns)
    ensures missing == {} <==> forall c :: c in Required ==> c in columns
  {
    Required - set c | c in columns
  }

  /** Extra, unknown columns never cause a missing-column error. */
  lemma ExtraColumnsHarmless(columns: seq<string>, extra: seq<string>)
    ensures MissingColumns(columns + extra) <= MissingColumns(columns)
    ensures MissingColumns(columns) == {} ==> MissingColumns(columns + extra) == {}
  {
  }

  /** Only which columns are present matters, not their order or repetition. */
  lemma ColumnOrderIrrelevant(columns: seq<string>, columns': seq<string>)
    requires (set c | c in columns) == (set c | c in columns')
    ensures MissingColumns(columns) == MissingColumns(columns')
  {
  }

  /** A table with all columns but "Demand" is rejected naming only "Demand". */
  lemma ExampleDemandMissing()
    ensures MissingColumns(["Country", "Description", "Date Start", "Date End", "Campaign name"]) == {"Demand"}
  {
    var columns := ["Country", "Description", "Date Start", "Date End", "Campaign name"];
    assert "Demand" !in columns;
    assert forall c :: c in Required && c != "Demand" ==> c in columns;
  }
}
