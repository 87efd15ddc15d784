/** The Demand normaliser of app.py: `parse_demand` turns one cell of the
    locale-formatted currency column ("1.234,56 €") into a number or None, and
    `clean_demand_column` applies it to every cell of the column in place. */
module DemandNormalizer {
  import opened Wrappers

  /** A cell of the Demand column as the loaded table holds it: missing (NaN or
      None), text, or a number that the loader already parsed. */
  datatype Cell = Missing | Text(text: string) | Amount(amount: real)

  /** Number of occurrences of `c` in `s`. */
  function Count(s: string, c: char): nat {
    if s == [] then 0 else (if s[0] == c then 1 else 0) + Count(s[1..], c)
  }

  /** `s.replace(c, '')`: every occurrence of `c` deleted, all other characters kept. */
  function Remove(s: string, c: char): string {
    if s == [] then [] else (if s[0] == c then [] else [s[0]]) + Remove(s[1..], c)
  }

  /** `s.replace(a, b)` for single characters: each `a` becomes `b`, in place. */
  function Replace(s: string, a: char, b: char): string {
    if s == [] then [] else [if s[0] == a then b else s[0]] + Replace(s[1..], a, b)
  }

  /** The text `parse_demand` hands to `float()`: delete every euro sign, every
      space and every dot (thousands separators), then turn each comma (the
      decimal separator) into a dot. */
  function Clean(s: string): string {
    Replace(Remove(Remove(Remove(s, '€'), ' '), '.'), ',', '.')
  }

  lemma {:induction false} CountAppend(a: string, b: string, d: char)
    ensures Count(a + b, d) == Count(a, d) + Count(b, d)
  {
    if a != [] {
      assert (a + b)[1..] == a[1..] + b;
      CountAppend(a[1..], b, d);
    } else {
      assert a + b == b;
    }
  }

  lemma {:induction false} CountZero(s: string, c: char)
    ensures Count(s, c) == 0 <==> c !in s
  {
    if s != [] {
      CountZero(s[1..], c);
      assert c in s <==> s[0] == c || c in s[1..];
    }
  }

  /** Removing `c` deletes all of its occurrences and keeps every other character. */
  lemma {:induction false} RemoveCounts(s: string, c: char, d: char)
    ensures |Remove(s, c)| == |s| - Count(s, c)
    ensures Count(Remove(s, c), d) == if d == c then 0 else Count(s, d)
  {
    if s != [] {
      RemoveCounts(s[1..], c, d);
      CountAppend(if s[0] == c then [] else [s[0]], Remove(s[1..], c), d);
    }
  }

  /** Replacing `a` by `b` keeps the length and moves the count of `a` onto `b`. */
  lemma {:induction false} ReplaceCounts(s: string, a: char, b: char, d: char)
    requires a != b
    ensures |Replace(s, a, b)| == |s|
    ensures Count(Replace(s, a, b), d) ==
      if d == a then 0 else if d == b then Count(s, b) + Count(s, a) else Count(s, d)
  {
    if s != [] {
      ReplaceCounts(s[1..], a, b, d);
      assert Replace(s, a, b)[1..] == Replace(s[1..], a, b);
    }
  }

  /** What the cleaning guarantees of its result: no euro sign, space or comma
      is left, there are as many dots as the input had commas, every other
      character is kept as often as it occurred, and the length shrinks by the
      number of euro signs, spaces and dots deleted. */
  lemma CleanedText(s: string, d: char)
    ensures '€' !in Clean(s) && ' ' !in Clean(s) && ',' !in Clean(s)
    ensures Count(Clean(s), '.') == Count(s, ',')
    ensures d != '€' && d != ' ' && d != '.' && d != ',' ==> Count(Clean(s), d) == Count(s, d)
    ensures |Clean(s)| == |s| - Count(s, '€') - Count(s, ' ') - Count(s, '.')
  {
    var noEuro := Remove(s, '€');
    var noSpace := Remove(noEuro, ' ');
    var noDot := Remove(noSpace, '.');
    var r := Replace(noDot, ',', '.');
    RemoveCounts(s, '€', '€');
    RemoveCounts(noEuro, ' ', '€');
    RemoveCounts(noSpace, '.', '€');
    ReplaceCounts(noDot, ',', '.', '€');
    RemoveCounts(s, '€', ' ');
    RemoveCounts(noEuro, ' ', ' ');
    RemoveCounts(noSpace, '.', ' ');
    ReplaceCounts(noDot, ',', '.', ' ');
    RemoveCounts(s, '€', ',');
    RemoveCounts(noEuro, ' ', ',');
    RemoveCounts(noSpace, '.', ',');
    ReplaceCounts(noDot, ',', '.', ',');
    RemoveCounts(s, '€', '.');
    RemoveCounts(noEuro, ' ', '.');
    RemoveCounts(noSpace, '.', '.');
    ReplaceCounts(noDot, ',', '.', '.');
    RemoveCounts(s, '€', d);
    RemoveCounts(noEuro, ' ', d);
    RemoveCounts(noSpace, '.', d);
    ReplaceCounts(noDot, ',', '.', d);
    CountZero(r, '€');
    CountZero(r, ' ');
    CountZero(r, ',');
  }

  /** What one input character contributes to the cleaned text. */
  function CleanChar(c: char): string {
    if c == '€' || c == ' ' || c == '.' then [] else if c == ',' then ['.'] else [c]
  }

  /** An independent single-pass definition of the cleaning chain. */
  function CleanOnePass(s: string): string {
    if s == [] then [] else CleanChar(s[0]) + CleanOnePass(s[1..])
  }

  lemma {:induction false} RemoveAppend(a: string, b: string, c: char)
    ensures Remove(a + b, c) == Remove(a, c) + Remove(b, c)
  {
    if a != [] {
      assert (a + b)[1..] == a[1..] + b;
      RemoveAppend(a[1..], b, c);
    } else {
      assert a + b == b;
    }
  }

  lemma {:induction false} ReplaceAppend(a: string, b: string, x: char, y: char)
    ensures Replace(a + b, x, y) == Replace(a, x, y) + Replace(b, x, y)
  {
    if a != [] {
      assert (a + b)[1..] == a[1..] + b;
      ReplaceAppend(a[1..], b, x, y);
    } else {
      assert a + b == b;
    }
  }

  /** Cleaning works character by character: the cleaned text of a concatenation
      is the concatenation of the cleaned texts. */
  lemma CleanAppend(a: string, b: string)
    ensures Clean(a + b) == Clean(a) + Clean(b)
  {
    RemoveAppend(a, b, '€');
    RemoveAppend(Remove(a, '€'), Remove(b, '€'), ' ');
    RemoveAppend(Remove(Remove(a, '€'), ' '), Remove(Remove(b, '€'), ' '), '.');
    ReplaceAppend(Remove(Remove(Remove(a, '€'), ' '), '.'), Remove(Remove(Remove(b, '€'), ' '), '.'), ',', '.');
  }

  /** The four-pass replace chain equals the single-pass definition. */
  lemma {:induction false} CleanIsOnePass(s: string)
    ensures Clean(s) == CleanOnePass(s)
  {
    if s == [] {
    } else {
      assert s == [s[0]] + s[1..];
      CleanAppend([s[0]], s[1..]);
      CleanIsOnePass(s[1..]);
      CleanSingle(s[0]);
    }
  }

  lemma CleanSingle(c: char)
    ensures Clean([c]) == CleanChar(c)
  {
    RemoveSingle(c, '€');
    RemoveSingle(c, ' ');
    RemoveSingle(c, '.');
    assert [c][1..] == [];
    if c == '€' || c == ' ' || c == '.' {
      assert Remove(Remove(Remove([c], '€'), ' '), '.') == [];
    } else {
      assert Remove(Remove(Remove([c], '€'), ' '), '.') == [c];
      assert Replace([c], ',', '.') == [if c == ',' then '.' else c];
    }
  }

  lemma RemoveSingle(x: char, c: char)
    ensures Remove([x], c) == if x == c then [] else [x]
    ensures Remove([], c) == []
  {
    assert [x][1..] == [];
  }

  // ---------------------------------------------------------------------
  // The numeric parse: Python's float() on the cleaned text, restricted to
  // an optional sign, digits, and an optional dot followed by digits.

  predicate IsDigit(c: char) { '0' <= c <= '9' }

  predicate AllDigits(s: string) { forall i :: 0 <= i < |s| ==> IsDigit(s[i]) }

  /** The natural number a digit string denotes, read left to right. */
  function DigitsValue(s: string): nat
    requires AllDigits(s)
  {
    Horner(0, s)
  }

  /** `acc` followed by the digits of `s`. */
  function Horner(acc: nat, s: string): nat
    requires AllDigits(s)
    decreases |s|
  {
    if s == [] then acc else Horner(10 * acc + DigitValue(s[0]), s[1..])
  }

  function DigitValue(c: char): nat
    requires IsDigit(c)
  {
    c as int - '0' as int
  }

  /** The value of the digits after the decimal point: ".56" is 0.56. */
  function FracValue(s: string): real
    requires AllDigits(s)
  {
    if s == [] then 0.0 else (DigitValue(s[0]) as real + FracValue(s[1..])) / 10.0
  }

  /** Length of the longest prefix of `s` made of digits. */
  function LeadingDigits(s: string): (k: nat)
    ensures k <= |s| && AllDigits(s[..k])
    ensures k < |s| ==> !IsDigit(s[k])
  {
    if s == [] || !IsDigit(s[0]) then 0
    else
      var k := 1 + LeadingDigits(s[1..]);
      assert s[..k] == [s[0]] + s[1..][..k - 1];
      k
  }

  /** float() on a text without sign. */
  function ParseUnsigned(t: string): Option<real> {
    var k := LeadingDigits(t);
    if k == |t| then
      (if k == 0 then None else Some(DigitsValue(t) as real))
    else if t[k] == '.' && AllDigits(t[k + 1..]) && |t| > 1 then
      Some(DigitsValue(t[..k]) as real + FracValue(t[k + 1..]))
    else None
  }

  /** float() on the cleaned text; None stands for the ValueError that
      `parse_demand` catches. */
  function ParseFloat(s: string): Option<real> {
    if |s| > 0 && (s[0] == '+' || s[0] == '-') then
      match ParseUnsigned(s[1..])
      case None => None
      case Some(v) => Some(if s[0] == '-' then -v else v)
    else ParseUnsigned(s)
  }

  /** The accepted grammar, stated declaratively: digits, or digits with one dot
      somewhere, with at least one digit in all. */
  predicate UnsignedDecimal(t: string) {
    (|t| > 0 && AllDigits(t)) ||
    (exists k :: 0 <= k < |t| && t[k] == '.' && AllDigits(t[..k]) && AllDigits(t[k + 1..]) && |t| > 1)
  }

  predicate IsDecimal(s: string) {
    UnsignedDecimal(s) || (|s| > 0 && (s[0] == '+' || s[0] == '-') && UnsignedDecimal(s[1..]))
  }

  lemma ParseUnsignedDefined(t: string)
    ensures ParseUnsigned(t).Some? <==> UnsignedDecimal(t)
  {
    if ParseUnsigned(t).Some? {
      ParseUnsignedSound(t);
    }
    if UnsignedDecimal(t) {
      ParseUnsignedComplete(t);
    }
  }

  lemma ParseUnsignedSound(t: string)
    requires ParseUnsigned(t).Some?
    ensures UnsignedDecimal(t)
  {
    var k := LeadingDigits(t);
    if k == |t| {
      assert t[..k] == t;
    } else {
      assert 0 <= k < |t| && t[k] == '.' && AllDigits(t[..k]) && AllDigits(t[k + 1..]) && |t| > 1;
    }
  }

  lemma ParseUnsignedComplete(t: string)
    requires UnsignedDecimal(t)
    ensures ParseUnsigned(t).Some?
  {
    if |t| > 0 && AllDigits(t) {
      LeadingDigitsOf(t, []);
      assert t + [] == t;
    } else {
      var j :| 0 <= j < |t| && t[j] == '.' && AllDigits(t[..j]) && AllDigits(t[j + 1..]) && |t| > 1;
      LeadingDigitsAtDot(t, j);
    }
  }

  lemma LeadingDigitsAtDot(t: string, j: int)
    requires 0 <= j < |t| && t[j] == '.' && AllDigits(t[..j])
    ensures LeadingDigits(t) == j
  {
    var left, right := t[..j], t[j..];
    assert left + right == t;
    assert right[0] == '.';
    LeadingDigitsOf(left, right);
  }

  /** float() accepts exactly the texts of the grammar. */
  lemma ParseFloatDefined(s: string)
    ensures ParseFloat(s).Some? <==> IsDecimal(s)
  {
    ParseUnsignedDefined(s);
    if |s| > 0 && (s[0] == '+' || s[0] == '-') {
      ParseUnsignedDefined(s[1..]);
      assert !IsDigit(s[0]);
    }
  }

  lemma {:induction false} LeadingDigitsOf(a: string, rest: string)
    requires AllDigits(a)
    requires rest == [] || !IsDigit(rest[0])
    ensures LeadingDigits(a + rest) == |a|
  {
    if a == [] {
      assert a + rest == rest;
    } else {
      assert (a + rest)[0] == a[0];
      assert (a + rest)[1..] == a[1..] + rest;
      assert AllDigits(a[1..]) by {
        forall i | 0 <= i < |a[1..]| ensures IsDigit(a[1..][i]) { assert a[1..][i] == a[i + 1]; }
      }
      LeadingDigitsOf(a[1..], rest);
    }
  }

  /** The value float() gives a text with digits `a`, a dot and digits `b`. */
  lemma ParseFloatValue(a: string, b: string)
    requires AllDigits(a) && AllDigits(b) && |a| + |b| > 0
    ensures ParseFloat(a + "." + b) == Some(DigitsValue(a) as real + FracValue(b))
  {
    DottedParts(a, b);
    Unsigned(a + "." + b);
    ParseUnsignedDotted(a, b);
  }

  lemma DottedParts(a: string, b: string)
    requires AllDigits(a)
    ensures a + "." + b == a + ("." + b)
    ensures (a + "." + b)[|a|] == '.'
    ensures (a + "." + b)[..|a|] == a
    ensures (a + "." + b)[|a| + 1..] == b
    ensures (a + "." + b)[0] != '+' && (a + "." + b)[0] != '-'
  {
    if |a| > 0 { assert (a + "." + b)[0] == a[0]; }
  }

  /** A text that does not start with a sign is parsed as unsigned. */
  lemma Unsigned(t: string)
    requires t == [] || (t[0] != '+' && t[0] != '-')
    ensures ParseFloat(t) == ParseUnsigned(t)
  {
  }

  lemma ParseUnsignedDotted(a: string, b: string)
    requires AllDigits(a) && AllDigits(b) && |a| + |b| > 0
    ensures ParseUnsigned(a + "." + b) == Some(DigitsValue(a) as real + FracValue(b))
  {
    DottedParts(a, b);
    LeadingDigitsOf(a, "." + b);
    ParseUnsignedAt(a + "." + b, a, b);
  }

  lemma ParseUnsignedAt(t: string, a: string, b: string)
    requires |a| < |t| && t[|a|] == '.' && t[..|a|] == a && t[|a| + 1..] == b && |t| > 1
    requires AllDigits(a) && AllDigits(b) && LeadingDigits(t) == |a|
    ensures ParseUnsigned(t) == Some(DigitsValue(a) as real + FracValue(b))
  {
  }

  /** A leading sign: "-" negates the value, "+" keeps it. */
  lemma SignedValue(t: string)
    requires ParseUnsigned(t).Some?
    ensures ParseFloat(['-'] + t) == Some(-ParseUnsigned(t).value)
    ensures ParseFloat(['+'] + t) == ParseUnsigned(t)
  {
    assert (['-'] + t)[1..] == t;
    assert (['+'] + t)[1..] == t;
  }

  /** The value float() gives a text of digits alone. */
  lemma ParseFloatDigits(a: string)
    requires AllDigits(a) && |a| > 0
    ensures ParseFloat(a) == Some(DigitsValue(a) as real)
  {
    LeadingDigitsOf(a, []);
    assert a + [] == a;
    assert IsDigit(a[0]);
  }

  // ---------------------------------------------------------------------
  // parse_demand and clean_demand_column

  /** `parse_demand(val)`: a missing cell gives None; any other cell is turned
      into text by `str()` (for a number, `render` stands for Python's float
      formatting), cleaned, and parsed, a failed parse giving None. */
  function ParseDemand(val: Cell, render: real -> string): Option<real> {
    match val
    case Missing => None
    case Text(s) => ParseFloat(Clean(s))
    case Amount(x) => ParseFloat(Clean(render(x)))
  }

  /** The cell pandas stores for a result of `parse_demand`: None becomes NaN. */
  function StoredCell(v: Option<real>): (c: Cell)
    ensures !c.Text?
  {
    match v
    case None => Missing
    case Some(x) => Amount(x)
  }

  /** The Demand column after `clean_demand_column`: one cleaned cell per row. */
  function CleanedColumn(col: seq<Cell>, render: real -> string): (r: seq<Cell>)
    ensures |r| == |col|
    ensures forall i :: 0 <= i < |r| ==> !r[i].Text?
  {
    seq(|col|, i requires 0 <= i < |col| => StoredCell(ParseDemand(col[i], render)))
  }

  /** `df['Demand'] = df['Demand'].apply(f)`: every cell of the column replaced,
      in place, by the image of its old value. */
  method ApplyToColumn(column: array<Cell>, f: Cell -> Cell)
    modifies column
    ensures forall i :: 0 <= i < column.Length ==> column[i] == f(old(column[i]))
  {
    for i := 0 to column.Length
      invariant forall j :: 0 <= j < i ==> column[j] == f(old(column[j]))
      invariant forall j :: i <= j < column.Length ==> column[j] == old(column[j])
    {
      column[i] := f(column[i]);
    }
  }

  /** `clean_demand_column`: the Demand column, overwritten in place with one
      parsed cell per row; the number of rows is unchanged and no text is left. */
  method CleanDemandColumn(column: array<Cell>, render: real -> string)
    modifies column
    ensures column[..] == CleanedColumn(old(column[..]), render)
    ensures forall i :: 0 <= i < column.Length ==> !column[i].Text?
  {
    ApplyToColumn(column, c => StoredCell(ParseDemand(c, render)));
  }

  // ---------------------------------------------------------------------
  // Properties of the normaliser

  /** `parse_demand` never fails: a text cell gives a number exactly when its
      cleaned form is in float()'s grammar, and None otherwise. */
  lemma ParseDemandDefined(s: string, render: real -> string)
    ensures ParseDemand(Text(s), render).Some? <==> IsDecimal(Clean(s))
  {
    ParseFloatDefined(Clean(s));
  }

  /** A missing cell stays missing, whatever the formatting of numbers. */
  lemma MissingIsNone(render: real -> string)
    ensures ParseDemand(Missing, render) == None
    ensures StoredCell(ParseDemand(Missing, render)) == Missing
  {
  }

  /** A euro sign, a space or a dot anywhere in the text is ignored. */
  lemma SeparatorIgnored(a: string, c: char, b: string, render: real -> string)
    requires c == '€' || c == ' ' || c == '.'
    ensures ParseDemand(Text(a + [c] + b), render) == ParseDemand(Text(a + b), render)
  {
    CleanAppend(a + [c], b);
    CleanAppend(a, [c]);
    CleanAppend(a, b);
    CleanSingle(c);
    assert Clean(a + [c]) == Clean(a);
  }

  /** A locale-formatted amount: digits, a decimal comma, digits, then " €". */
  lemma LocaleAmount(a: string, b: string, render: real -> string)
    requires AllDigits(a) && AllDigits(b) && |a| > 0
    ensures ParseDemand(Text(a + "," + b + " €"), render) == Some(DigitsValue(a) as real + FracValue(b))
  {
    CleanLocale(a, b);
    ParseFloatValue(a, b);
  }

  lemma CleanLocale(a: string, b: string)
    requires AllDigits(a) && AllDigits(b)
    ensures Clean(a + "," + b + " €") == a + "." + b
  {
    CleanAppend(a + "," + b, " €");
    CleanDecimalComma(a, b);
    CleanIsOnePass(" €");
  }

  lemma CleanDecimalComma(a: string, b: string)
    requires AllDigits(a) && AllDigits(b)
    ensures Clean(a + "," + b) == a + "." + b
  {
    CleanAppend(a + ",", b);
    CleanAppend(a, ",");
    DigitsArePlain(a);
    DigitsArePlain(b);
    CleanSingle(',');
  }

  lemma DigitsArePlain(s: string)
    requires AllDigits(s)
    ensures Clean(s) == s
  {
    assert forall i :: 0 <= i < |s| ==> Plain(s[i]) by {
      forall i | 0 <= i < |s| ensures Plain(s[i]) { assert IsDigit(s[i]); }
    }
    CleanPlain(s);
  }

  /** A character the cleaning leaves alone. */
  predicate Plain(c: char) { c != '€' && c != ' ' && c != '.' && c != ',' }

  /** Text without euro signs, spaces, dots and commas passes through the cleaning unchanged. */
  lemma {:induction false} CleanPlain(s: string)
    requires forall i :: 0 <= i < |s| ==> Plain(s[i])
    ensures Clean(s) == s
  {
    CleanIsOnePass(s);
    OnePassPlain(s);
  }

  lemma {:induction false} OnePassPlain(s: string)
    requires forall i :: 0 <= i < |s| ==> Plain(s[i])
    ensures CleanOnePass(s) == s
  {
    if s != [] {
      assert forall i :: 0 <= i < |s[1..]| ==> Plain(s[1..][i]) by {
        forall i | 0 <= i < |s[1..]| ensures Plain(s[1..][i]) { assert s[1..][i] == s[i + 1]; }
      }
      OnePassPlain(s[1..]);
      assert Plain(s[0]);
    }
  }

  /** An amount written as bare digits is read as that whole number. */
  lemma PlainAmount(a: string, render: real -> string)
    requires AllDigits(a) && |a| > 0
    ensures ParseDemand(Text(a), render) == Some(DigitsValue(a) as real)
  {
    CleanPlain(a);
    ParseFloatDigits(a);
  }

  /** A cell that already holds a number is treated exactly like the text `str()` renders it as. */
  lemma NumberReadAsText(x: real, render: real -> string)
    ensures ParseDemand(Amount(x), render) == ParseDemand(Text(render(x)), render)
  {
  }

  /** A number already stored in the column is not left alone: it is rendered
      as text, and the dot of a rendering such as "1234.5" is then read as a
      thousands separator, so the digits after it become whole units. */
  lemma RenormalizingShiftsDecimals(x: real, a: string, b: string, render: real -> string)
    requires render(x) == a + "." + b
    requires AllDigits(a) && AllDigits(b) && |a| > 0
    ensures ParseDemand(Amount(x), render) == Some(DigitsValue(a + b) as real)
  {
    NumberReadAsText(x, render);
    DotIsThousands(a, b, render);
  }

  /** A dot between digits is read as a thousands separator, never as a
      decimal point. */
  lemma DotIsThousands(a: string, b: string, render: real -> string)
    requires AllDigits(a) && AllDigits(b) && |a| > 0
    ensures ParseDemand(Text(a + "." + b), render) == Some(DigitsValue(a + b) as real)
  {
    SeparatorIgnored(a, '.', b, render);
    assert a + ['.'] + b == a + "." + b;
    assert forall i :: 0 <= i < |a + b| ==> (a + b)[i] in a || (a + b)[i] in b;
    PlainAmount(a + b, render);
  }

  /** Python renders 1234.5 as "1234.5"; stored back through the cleaning it
      becomes 12345. */
  lemma ExampleRenormalized(render: real -> string)
    requires render(1234.5) == "1234.5"
    ensures ParseDemand(Amount(1234.5), render) == Some(12345.0)
  {
    assert "1234" + "." + "5" == "1234.5";
    RenormalizingShiftsDecimals(1234.5, "1234", "5", render);
    assert "1234" + "5" == "12345";
    assert DigitsValue("12345") == 12345;
  }

  /** "1.234,56 €" is read as 1234.56. */
  lemma ExampleLocale(s: string, render: real -> string)
    requires s == "1" + "." + "234" + "," + "56" + " €"
    ensures ParseDemand(Text(s), render) == Some(1234.56)
  {
    var tail := "234" + "," + "56" + " €";
    assert s == "1" + ['.'] + tail;
    SeparatorIgnored("1", '.', tail, render);
    assert "1" + tail == "1" + "234" + "," + "56" + " €";
    assert "1" + "234" == "1234";
    LocaleAmount("1234", "56", render);
    assert DigitsValue("1234") == 1234;
    assert FracValue("56") == 0.56;
  }

  /** "1234.56" is read as 123456: the dot never marks decimals. */
  lemma ExampleDotIsThousands(s: string, render: real -> string)
    requires s == "1234" + "." + "56"
    ensures ParseDemand(Text(s), render) == Some(123456.0)
  {
    DotIsThousands("1234", "56", render);
    HornerAppend(0, "1234", "56");
    assert Horner(0, "1234") == 1234;
    assert Horner(1234, "56") == 123456;
  }

  /** Reading `a + b` reads `a`, then carries on with `b`. */
  lemma {:induction false} HornerAppend(acc: nat, a: string, b: string)
    requires AllDigits(a) && AllDigits(b)
    ensures AllDigits(a + b) && Horner(acc, a + b) == Horner(Horner(acc, a), b)
    decreases |a|
  {
    assert forall i :: 0 <= i < |a + b| ==> IsDigit((a + b)[i]) by {
      forall i | 0 <= i < |a + b| ensures IsDigit((a + b)[i]) {
        if i < |a| { assert (a + b)[i] == a[i]; } else { assert (a + b)[i] == b[i - |a|]; }
      }
    }
    if a != [] {
      assert (a + b)[1..] == a[1..] + b;
      assert AllDigits(a[1..]) by {
        forall i | 0 <= i < |a[1..]| ensures IsDigit(a[1..][i]) { assert a[1..][i] == a[i + 1]; }
      }
      HornerAppend(10 * acc + DigitValue(a[0]), a[1..], b);
    } else {
      assert a + b == b;
    }
  }

  /** An amount with a decimal comma and no currency sign. */
  lemma DecimalCommaAmount(a: string, b: string, render: real -> string)
    requires AllDigits(a) && AllDigits(b) && |a| + |b| > 0
    ensures ParseDemand(Text(a + "," + b), render) == Some(DigitsValue(a) as real + FracValue(b))
  {
    CleanDecimalComma(a, b);
    ParseFloatValue(a, b);
  }

  /** "0,5" is read as 0.5. */
  lemma ExampleHalf(s: string, render: real -> string)
    requires s == "0,5"
    ensures ParseDemand(Text(s), render) == Some(0.5)
  {
    DecimalCommaAmount("0", "5", render);
    assert "0" + "," + "5" == "0,5";
  }

  /** Text that is no number, and the empty text, give None. */
  lemma ExampleGarbage(render: real -> string)
    ensures ParseDemand(Text("abc"), render) == None
    ensures ParseDemand(Text(""), render) == None
  {
    CleanPlain("abc");
    assert LeadingDigits("abc") == 0;
  }

  /** A digit string has no dot. */
  lemma DigitsHaveNoDot(u: string)
    requires AllDigits(u)
    ensures Count(u, '.') == 0
  {
    CountZero(u, '.');
  }

  lemma UnsignedAtMostOneDot(u: string)
    requires UnsignedDecimal(u)
    ensures Count(u, '.') <= 1
  {
    if AllDigits(u) {
      DigitsHaveNoDot(u);
    } else {
      var k :| 0 <= k < |u| && u[k] == '.' && AllDigits(u[..k]) && AllDigits(u[k + 1..]) && |u| > 1;
      OneDot(u, k);
    }
  }

  lemma OneDot(u: string, k: int)
    requires 0 <= k < |u| && u[k] == '.' && AllDigits(u[..k]) && AllDigits(u[k + 1..])
    ensures Count(u, '.') == 1
  {
    var left, right := u[..k], u[k + 1..];
    assert u == left + ['.'] + right;
    CountAppend(left + ['.'], right, '.');
    CountAppend(left, ['.'], '.');
    DigitsHaveNoDot(left);
    DigitsHaveNoDot(right);
  }

  /** float() rejects any text with more than one dot. */
  lemma AcceptedHasAtMostOneDot(t: string)
    requires ParseFloat(t).Some?
    ensures Count(t, '.') <= 1
  {
    ParseFloatDefined(t);
    if UnsignedDecimal(t) {
      UnsignedAtMostOneDot(t);
    } else {
      UnsignedAtMostOneDot(t[1..]);
    }
  }

  /** Text with two or more commas has two or more dots once cleaned, so
      `parse_demand` gives None for it. */
  lemma TwoCommasRejected(s: string, render: real -> string)
    requires Count(s, ',') >= 2
    ensures ParseDemand(Text(s), render) == None
  {
    CleanedText(s, ',');
    if ParseFloat(Clean(s)).Some? {
      AcceptedHasAtMostOneDot(Clean(s));
    }
  }

  /** "1,2,3" has two commas and gives None. */
  lemma ExampleTwoCommas(render: real -> string)
    ensures ParseDemand(Text("1,2,3"), render) == None
  {
    assert Count("1,2,3", ',') == 2;
    TwoCommasRejected("1,2,3", render);
  }
}
