/** The period filter of app.py (`filter_data`): the rows of one country whose
    description contains the keyword and whose campaign lies inside a date window. */
module PeriodFilter {
  import opened Wrappers

  /** One row of the loaded table, after the demand column has been cleaned.
      `id` is the row's index label in the table, dates are timestamps
      (None when the text did not parse as a date) and `demand` is None for a
      missing or unparsable amount. The description is None when the cell is
      missing. */
  datatype Row = Row(
    id: nat,
    country: string,
    description: Option<string>,
    dateStart: Option<int>,
    dateEnd: Option<int>,
    demand: Option<real>)

  /** `key` occurs in `text` starting at position `i`. */
  predicate OccursAt(text: string, key: string, i: int) {
    0 <= i && i + |key| <= |text| && text[i..i + |key|] == key
  }

  /** `key in text`: a contiguous, case-sensitive occurrence anywhere. */
  function Contains(text: string, key: string): (r: bool)
    ensures r <==> exists i :: OccursAt(text, key, i)
    decreases |text|
  {
    if |key| > |text| then false
    else if text[..|key|] == key then
      assert OccursAt(text, key, 0);
      true
    else
      var r := Contains(text[1..], key);
      ShiftOccurrence(text, key);
      assert !OccursAt(text, key, 0);
      r
  }

  /** Occurrences in `text[1..]` are the occurrences in `text` after position 0. */
  lemma ShiftOccurrence(text: string, key: string)
    requires text != []
    ensures forall i :: 0 <= i ==> (OccursAt(text[1..], key, i) <==> OccursAt(text, key, i + 1))
    ensures (exists i :: OccursAt(text, key, i)) <==> OccursAt(text, key, 0) || exists i :: OccursAt(text[1..], key, i)
  {
    forall i | 0 <= i
      ensures OccursAt(text[1..], key, i) <==> OccursAt(text, key, i + 1)
    {
      if 0 <= i && i + |key| <= |text[1..]| {
        assert text[1..][i..i + |key|] == text[i + 1..i + 1 + |key|];
      }
    }
    if i :| OccursAt(text, key, i) {
      if i > 0 {
        assert OccursAt(text[1..], key, i - 1);
      }
    }
  }

  /** Characters with a special meaning in a regular expression. */
  predicate IsRegexMeta(c: char) {
    c in "\\^$.|?*+()[]{}"
  }

  /** A keyword that `str.contains` (a regular-expression search by default)
      matches literally. */
  predicate LiteralKeyword(keyword: string) {
    forall i :: 0 <= i < |keyword| ==> !IsRegexMeta(keyword[i])
  }

  /** The combined mask of `filter_data` for one row: same country, a present
      description containing the keyword, a start date on or after the window
      start and an end date on or before the window end. A date that did not
      parse compares false. */
  predicate Matches(row: Row, country: string, keyword: string, start: int, end: int) {
    row.country == country &&
    row.description.Some? && Contains(row.description.value, keyword) &&
    row.dateStart.Some? && row.dateStart.value >= start &&
    row.dateEnd.Some? && row.dateEnd.value <= end
  }

  /** `xs` is `ys` with some rows left out, the rest in the same order. */
  predicate IsSubsequence(xs: seq<Row>, ys: seq<Row>)
    decreases |ys|
  {
    if xs == [] then true
    else if ys == [] then false
    else if xs[0] == ys[0] then IsSubsequence(xs[1..], ys[1..])
    else IsSubsequence(xs, ys[1..])
  }

  /** `filter_data(df, country, keyword, start_date, end_date)`: the rows that
      pass the mask, as a new table in their original order. The input is a
      value and is left as it was. */
  function FilterData(rows: seq<Row>, country: string, keyword: string, start: int, end: int): (r: seq<Row>)
    requires LiteralKeyword(keyword)
    ensures IsSubsequence(r, rows)
    ensures forall x :: x in r ==> Matches(x, country, keyword, start, end)
    ensures forall x :: multiset(r)[x] == if Matches(x, country, keyword, start, end) then multiset(rows)[x] else 0
  {
    if rows == [] then []
    else
      var rest := FilterData(rows[1..], country, keyword, start, end);
      assert rows == [rows[0]] + rows[1..];
      if Matches(rows[0], country, keyword, start, end) then
        assert ([rows[0]] + rest)[1..] == rest;
        [rows[0]] + rest
      else
        SubsequenceOfTail(rest, rows);
        rest
  }

  lemma SubsequenceOfTail(xs: seq<Row>, ys: seq<Row>)
    requires ys != [] && IsSubsequence(xs, ys[1..])
    ensures IsSubsequence(xs, ys)
    decreases |xs| + |ys|
  {
    if xs != [] && xs[0] == ys[0] {
      SubsequenceDropFirst(xs, ys[1..]);
    }
  }

  lemma SubsequenceDropFirst(xs: seq<Row>, ys: seq<Row>)
    requires xs != [] && IsSubsequence(xs, ys)
    ensures IsSubsequence(xs[1..], ys)
    decreases |xs| + |ys|
  {
    if ys != [] {
      if xs[0] == ys[0] {
        SubsequenceOfTail(xs[1..], ys);
      } else {
        SubsequenceDropFirst(xs, ys[1..]);
        SubsequenceOfTail(xs[1..], ys);
      }
    }
  }

  /** Every returned row is of the query country, has a description containing
      the keyword, and has both dates parsed and inside the window, both bounds
      included. */
  lemma FilteredRowsMatch(rows: seq<Row>, country: string, keyword: string, start: int, end: int, x: Row)
    requires LiteralKeyword(keyword)
    requires x in FilterData(rows, country, keyword, start, end)
    ensures x in rows
    ensures x.country == country
    ensures x.description.Some? && exists i :: OccursAt(x.description.value, keyword, i)
    ensures x.dateStart.Some? && start <= x.dateStart.value
    ensures x.dateEnd.Some? && x.dateEnd.value <= end
  {
    var r := FilterData(rows, country, keyword, start, end);
    assert multiset(r)[x] > 0;
  }

  /** A row with a start or end date that did not parse is never returned,
      whatever the window. */
  lemma UnparsedDatesExcluded(rows: seq<Row>, country: string, keyword: string, start: int, end: int, x: Row)
    requires LiteralKeyword(keyword)
    requires x.dateStart.None? || x.dateEnd.None?
    ensures x !in FilterData(rows, country, keyword, start, end)
  {
  }

  /** Conversely, a row that passes all four tests is always returned, as
      often as it occurs in the input. */
  lemma MatchingRowsKept(rows: seq<Row>, country: string, keyword: string, start: int, end: int, i: int)
    requires LiteralKeyword(keyword)
    requires 0 <= i < |rows| && Matches(rows[i], country, keyword, start, end)
    ensures rows[i] in FilterData(rows, country, keyword, start, end)
    ensures multiset(FilterData(rows, country, keyword, start, end))[rows[i]] == multiset(rows)[rows[i]]
  {
    assert rows[i] in multiset(rows);
  }

  /** Filtering the result again with the same query changes nothing. */
  lemma {:induction false} FilterIdempotent(rows: seq<Row>, country: string, keyword: string, start: int, end: int)
    requires LiteralKeyword(keyword)
    ensures FilterData(FilterData(rows, country, keyword, start, end), country, keyword, start, end)
         == FilterData(rows, country, keyword, start, end)
  {
    if rows != [] {
      FilterIdempotent(rows[1..], country, keyword, start, end);
      var rest := FilterData(rows[1..], country, keyword, start, end);
      if Matches(rows[0], country, keyword, start, end) {
        assert ([rows[0]] + rest)[1..] == rest;
      }
    }
  }

  /** A keyword with a character the text lacks is not contained in it. */
  lemma AbsentCharNotContained(text: string, key: string, j: int)
    requires 0 <= j < |key| && key[j] !in text
    ensures !Contains(text, key)
  {
  }

  /** The keyword test distinguishes case: "sale" is not found in
      "Summer SALE event", but it is found in "Summer sale event". */
  lemma KeywordIsCaseSensitive()
    ensures !Contains("Summer SALE event", "sale")
    ensures Contains("Summer " + "sale" + " event", "sale")
  {
    AbsentCharNotContained("Summer SALE event", "sale", 1);
    ContainedBetween("Summer ", "sale", " event");
  }

  /** A text built around the keyword contains it. */
  lemma ContainedBetween(a: string, key: string, b: string)
    ensures Contains(a + key + b, key)
  {
    assert (a + key + b)[|a|..|a| + |key|] == key;
    assert OccursAt(a + key + b, key, |a|);
  }

  /** So a row whose description has the keyword only in another case is
      filtered out, whatever its country and dates. */
  lemma OtherCaseFilteredOut(row: Row, start: int, end: int)
    requires row.description == Some("Summer SALE event")
    ensures FilterData([row], row.country, "sale", start, end) == []
  {
    KeywordIsCaseSensitive();
    assert [row][1..] == [];
  }
}
