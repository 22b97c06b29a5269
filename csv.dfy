/** `parseCSV` of the marketing dashboard (marketing_dashboard.js): the
    trimmed text is cut into lines at `'\n'`, the first line gives the field
    names, every other line becomes one customer object whose fields are
    filled position by position. Nothing is quoted: a comma always separates. */
module Csv {
  import opened Text
  import opened Wrappers

  /** A field of a customer object. `NaN` only comes from arithmetic on a
      field that is absent (the `Age` of a row without a `Year_Birth`). */
  datatype Value = Num(n: real) | Str(s: string) | NaN

  /** A customer object: field name to value, as the JavaScript object keyed by
      the header names. */
  type Record = map<string, Value>

  /** The fields `parseCSV` converts with `parseFloat(v) || 0`. */
  predicate IsNumericField(h: string) {
    h in {
    "Year_Birth", "Income", "Kidhome", "Teenhome", "Recency",
    "MntWines", "MntFruits", "MntMeatProducts", "MntFishProducts",
    "MntSweetProducts", "MntGoldProds", "NumDealsPurchases",
    "NumWebPurchases", "NumCatalogPurchases", "NumStorePurchases",
    "NumWebVisitsMonth", "AcceptedCmp1", "AcceptedCmp2", "AcceptedCmp3",
    "AcceptedCmp4", "AcceptedCmp5", "Response", "Complain"
    }
  }

  // ----- parseFloat on decimal numerals -----

  predicate IsDigit(c: char) { '0' <= c <= '9' }

  predicate AllDigits(s: string) { forall i :: 0 <= i < |s| ==> IsDigit(s[i]) }

  /** Length of the run of digits that `s` starts with. */
  function DigitRun(s: string): (n: nat)
    ensures n <= |s| && AllDigits(s[..n])
    ensures n == |s| || !IsDigit(s[n])
  {
    if s != [] && IsDigit(s[0]) then
      var n := 1 + DigitRun(s[1..]);
      assert s[..n] == [s[0]] + s[1..][..n - 1];
      n
    else 0
  }

  function DigitsValue(s: string): nat
    requires AllDigits(s)
  {
    if s == [] then 0 else DigitsValue(s[..|s| - 1]) * 10 + (s[|s| - 1] as int - '0' as int)
  }

  function Pow10(n: nat): (p: nat)
    ensures p >= 1
  {
    if n == 0 then 1 else 10 * Pow10(n - 1)
  }

  /** The unsigned numeral `body` starts with: digits, and an optional `.`
      with more digits. `None` when there is no digit before or right after
      the point. */
  function ParseUnsigned(body: string): Option<real> {
    var ip := DigitRun(body);
    var rest := body[ip..];
    var fp := if rest != [] && rest[0] == '.' then DigitRun(rest[1..]) else 0;
    if ip + fp == 0 then None
    else
      var frac := if fp == 0 then 0.0 else
        assert rest[1..1 + fp] == rest[1..][..fp];
        DigitsValue(rest[1..1 + fp]) as real / Pow10(fp) as real;
      Some(DigitsValue(body[..ip]) as real + frac)
  }

  /** `parseFloat(s)` on a string that `parseCSV` has already trimmed, for the
      decimal numerals the data file holds: an optional sign, then an unsigned
      numeral; whatever follows the longest such prefix is ignored. `None`
      stands for `NaN`. */
  function ParseFloat(s: string): (x: Option<real>)
    ensures s == [] || (!IsDigit(s[0]) && s[0] != '.' && s[0] != '-' && s[0] != '+') ==> x == None
  {
    if s != [] && (s[0] == '-' || s[0] == '+') then
      match ParseUnsigned(s[1..])
      case Some(x) => Some(if s[0] == '-' then -x else x)
      case None => None
    else ParseUnsigned(s)
  }

  /** `parseFloat(v) || 0`: the number `v` starts with, or 0 (never `NaN`). */
  function Coerce(v: string): (x: real)
    ensures ParseFloat(v) == Some(x) || (ParseFloat(v) == None && x == 0.0)
  {
    match ParseFloat(v)
    case Some(x) => x
    case None => 0.0
  }

  /** A value that does not start with a numeral is stored as 0: the empty
      value of a short line, text, a lone sign or point, or a sign or point
      not followed by a digit. */
  lemma CoerceNoNumeral(v: string)
    requires v == [] || (!IsDigit(v[0]) && v[0] != '.' && v[0] != '-' && v[0] != '+')
             || (v[0] == '.' && (|v| == 1 || !IsDigit(v[1])))
             || ((v[0] == '-' || v[0] == '+') && (|v| == 1 || (!IsDigit(v[1]) && v[1] != '.')))
    ensures Coerce(v) == 0.0
  {
    if v != [] && (v[0] == '-' || v[0] == '+') && |v| >= 2 {
      assert v[1..][0] == v[1];
    }
    if v != [] && v[0] == '.' && |v| >= 2 {
      assert v[1..][0] == v[1];
    }
  }

  /** The decimal digits of `n`, most significant first, as `String(n)`. */
  function Decimal(n: nat): (s: string)
    ensures s != [] && AllDigits(s)
  {
    if n < 10 then [('0' as int + n) as char] else Decimal(n / 10) + [('0' as int + n % 10) as char]
  }

  lemma {:induction false} DecimalValue(n: nat)
    ensures DigitsValue(Decimal(n)) == n
  {
    if n >= 10 {
      DecimalValue(n / 10);
      var s := Decimal(n);
      assert s[..|s| - 1] == Decimal(n / 10);
    }
  }

  lemma {:induction false} DigitRunOfDigits(s: string, t: string)
    requires AllDigits(s)
    requires t == [] || !IsDigit(t[0])
    ensures DigitRun(s + t) == |s|
  {
    if s != [] {
      assert (s + t)[1..] == s[1..] + t;
      DigitRunOfDigits(s[1..], t);
    }
  }

  lemma ParseUnsignedDecimal(n: nat, t: string)
    requires t == [] || (!IsDigit(t[0]) && t[0] != '.')
    ensures ParseUnsigned(Decimal(n) + t) == Some(n as real)
  {
    var d := Decimal(n);
    var body := d + t;
    DigitRunOfDigits(d, t);
    assert body[..|d|] == d;
    assert body[|d|..] == t;
    DecimalValue(n);
  }

  /** `parseFloat` reads back a whole number written in decimal, whatever
      non-numeric text follows it (`"1980"`, `"12abc"`). */
  lemma ParseFloatDecimal(n: nat, t: string)
    requires t == [] || (!IsDigit(t[0]) && t[0] != '.')
    ensures ParseFloat(Decimal(n) + t) == Some(n as real)
  {
    var body := Decimal(n) + t;
    ParseUnsignedDecimal(n, t);
    assert body[0] == Decimal(n)[0] && IsDigit(body[0]);
  }

  /** ... and a negative one after a minus sign (`"-7 "`). */
  lemma ParseFloatNegative(n: nat, t: string)
    requires t == [] || (!IsDigit(t[0]) && t[0] != '.')
    ensures ParseFloat("-" + Decimal(n) + t) == Some(-(n as real))
  {
    var body := Decimal(n) + t;
    var s := "-" + Decimal(n) + t;
    assert s == ['-'] + body;
    assert s[0] == '-' && s[1..] == body;
    ParseUnsignedDecimal(n, t);
    assert ParseUnsigned(s[1..]) == Some(n as real);
  }

  // ----- rows -----

  /** The value `parseCSV` stores for the field `header` at position `index`
      of a line split into `values`: the trimmed text, `''` when the line is
      too short, coerced to a number for the numeric fields. */
  function Cell(header: string, values: seq<string>, index: nat): (v: Value)
    ensures v.Num? <==> IsNumericField(header)
    ensures v.Str? <==> !IsNumericField(header)
    ensures index >= |values| ==> v == if IsNumericField(header) then Num(0.0) else Str("")
  {
    var raw := if index < |values| then Trim(values[index]) else "";
    if IsNumericField(header) then Num(Coerce(raw)) else Str(raw)
  }

  /** The converted value of every column of a line, one per header. */
  function Cells(headers: seq<string>, values: seq<string>): (cells: seq<Value>)
    ensures |cells| == |headers|
  {
    seq(|headers|, i requires 0 <= i < |headers| => Cell(headers[i], values, i))
  }

  /** The row object after the first `n` columns have been stored, a later
      header of the same name overwriting an earlier one. */
  function RowFrom(headers: seq<string>, cells: seq<Value>, n: nat): Record
    requires n <= |headers| && n <= |cells|
  {
    if n == 0 then map[]
    else RowFrom(headers, cells, n - 1)[headers[n - 1] := cells[n - 1]]
  }

  /** Fields a parsed row can hold: a number exactly for the numeric fields,
      text for the others, and never `NaN`. */
  predicate WellTyped(r: Record) {
    forall k :: k in r ==> (if IsNumericField(k) then r[k].Num? else r[k].Str?)
  }

  /** Every header is a field of the row, and no other field is. */
  lemma {:induction false} RowFromKeys(headers: seq<string>, cells: seq<Value>, n: nat)
    requires n <= |headers| && n <= |cells|
    ensures RowFrom(headers, cells, n).Keys == set i | 0 <= i < n :: headers[i]
  {
    if n > 0 {
      RowFromKeys(headers, cells, n - 1);
      assert (set i | 0 <= i < n :: headers[i]) == (set i | 0 <= i < n - 1 :: headers[i]) + {headers[n - 1]};
    }
  }

  /** A column whose name no later header repeats keeps that column's value. */
  lemma {:induction false} RowFromValues(headers: seq<string>, cells: seq<Value>, n: nat, i: nat)
    requires i < n <= |headers| && n <= |cells|
    requires headers[i] !in headers[i + 1..n]
    ensures headers[i] in RowFrom(headers, cells, n)
    ensures RowFrom(headers, cells, n)[headers[i]] == cells[i]
  {
    if i < n - 1 {
      assert headers[n - 1] in headers[i + 1..n];
      assert headers[i] !in headers[i + 1..n - 1] by {
        forall k | i + 1 <= k < n - 1 ensures headers[k] != headers[i] {
          assert headers[k] == headers[i + 1..n][k - (i + 1)];
        }
      }
      RowFromValues(headers, cells, n - 1, i);
    }
  }

  /** Each cell is a number for a numeric field and text otherwise. */
  lemma CellsWellTyped(headers: seq<string>, values: seq<string>)
    ensures forall i :: 0 <= i < |headers| ==>
      if IsNumericField(headers[i]) then Cells(headers, values)[i].Num? else Cells(headers, values)[i].Str?
  {
  }

  /** A parsed row is well typed: it never holds `NaN`. */
  lemma {:induction false} RowFromWellTyped(headers: seq<string>, values: seq<string>, n: nat)
    requires n <= |headers|
    ensures WellTyped(RowFrom(headers, Cells(headers, values), n))
  {
    if n > 0 {
      RowFromWellTyped(headers, values, n - 1);
      CellsWellTyped(headers, values);
    }
  }

  lemma RowFromNext(headers: seq<string>, values: seq<string>, n: nat)
    requires n < |headers|
    ensures RowFrom(headers, Cells(headers, values), n + 1)
         == RowFrom(headers, Cells(headers, values), n)[headers[n] := Cell(headers[n], values, n)]
  {
  }

  /** The loop that stores the fields of one line into a fresh object,
      header by header, each value converted by `Cell`. */
  method FillRow(headers: seq<string>, values: seq<string>) returns (row: Record)
    ensures row == RowFrom(headers, Cells(headers, values), |headers|)
  {
    row := map[];
    var index := 0;
    while index < |headers|
      invariant 0 <= index <= |headers|
      invariant row == RowFrom(headers, Cells(headers, values), index)
    {
      RowFromNext(headers, values, index);
      row := row[headers[index] := Cell(headers[index], values, index)];
      index := index + 1;
    }
  }

  // ----- parseCSV -----

  /** `csv.trim().split('\n')`. */
  function Lines(csv: string): (lines: seq<string>)
    ensures |lines| == Count(Trim(csv), '\n') + 1
    ensures forall l :: l in lines ==> '\n' !in l
  {
    Split(Trim(csv), '\n')
  }

  /** The first line split at commas, each name trimmed. */
  function Headers(csv: string): (headers: seq<string>)
    ensures |headers| == Count(Lines(csv)[0], ',') + 1
  {
    var names := Split(Lines(csv)[0], ',');
    seq(|names|, i requires 0 <= i < |names| => Trim(names[i]))
  }

  function ParseCsv(csv: string): (rows: seq<Record>)
    ensures |rows| == |Lines(csv)| - 1
  {
    var lines := Lines(csv);
    var headers := Headers(csv);
    seq(|lines| - 1, i requires 0 <= i < |lines| - 1 =>
      RowFrom(headers, Cells(headers, Fields(csv, i)), |headers|))
  }

  /** `parseCSV` as it runs: every line after the header line, in order,
      split at commas and stored into a fresh row by `FillRow`. */
  method ParseRows(csv: string) returns (rows: seq<Record>)
    ensures rows == ParseCsv(csv)
  {
    var lines := Lines(csv);
    var headers := Headers(csv);
    rows := [];
    var i := 0;
    while i < |lines| - 1
      invariant 0 <= i <= |lines| - 1
      invariant rows == ParseCsv(csv)[..i]
    {
      var row := FillRow(headers, Split(lines[i + 1], ','));
      rows := rows + [row];
      i := i + 1;
    }
  }

  /** A text of L lines (after trimming) gives L - 1 rows: one per line break. */
  lemma ParseCsvCount(csv: string)
    ensures |ParseCsv(csv)| == Count(Trim(csv), '\n')
  {
  }

  /** The fields of line `i + 1`, as `parseCSV` splits them. */
  function Fields(csv: string, i: nat): seq<string>
    requires i + 1 < |Lines(csv)|
  {
    Split(Lines(csv)[i + 1], ',')
  }

  lemma ParseCsvAt(csv: string, i: nat)
    requires i < |ParseCsv(csv)|
    ensures ParseCsv(csv)[i] == RowFrom(Headers(csv), Cells(Headers(csv), Fields(csv, i)), |Headers(csv)|)
  {
  }

  /** Row `i` has exactly the header names as its fields. */
  lemma ParseCsvKeys(csv: string, i: nat)
    requires i < |ParseCsv(csv)|
    ensures ParseCsv(csv)[i].Keys == set h | h in Headers(csv)
  {
    var headers := Headers(csv);
    ParseCsvAt(csv, i);
    RowFromKeys(headers, Cells(headers, Fields(csv, i)), |headers|);
    assert (set h | h in headers) == set k | 0 <= k < |headers| :: headers[k] by {
      forall h | h in headers ensures h in set k | 0 <= k < |headers| :: headers[k] {
        var k :| 0 <= k < |headers| && headers[k] == h;
      }
    }
  }

  /** Row `i` comes from line `i + 1`: a column whose name no later header
      repeats holds that line's value in that column (`''` or 0 past the end
      of a short line). */
  lemma ParseCsvValue(csv: string, i: nat, j: nat)
    requires i < |ParseCsv(csv)|
    requires j < |Headers(csv)|
    requires Headers(csv)[j] !in Headers(csv)[j + 1..]
    ensures Headers(csv)[j] in ParseCsv(csv)[i]
    ensures ParseCsv(csv)[i][Headers(csv)[j]] == Cell(Headers(csv)[j], Fields(csv, i), j)
  {
    var headers := Headers(csv);
    var cells := Cells(headers, Fields(csv, i));
    ParseCsvAt(csv, i);
    assert headers[j + 1..|headers|] == headers[j + 1..];
    RowFromValues(headers, cells, |headers|, j);
    assert cells[j] == Cell(headers[j], Fields(csv, i), j);
  }

  /** Every parsed row is well typed. */
  lemma ParseCsvWellTyped(csv: string)
    ensures forall r :: r in ParseCsv(csv) ==> WellTyped(r)
  {
    var headers := Headers(csv);
    forall r | r in ParseCsv(csv) ensures WellTyped(r) {
      var i :| 0 <= i < |ParseCsv(csv)| && ParseCsv(csv)[i] == r;
      ParseCsvAt(csv, i);
      RowFromWellTyped(headers, Fields(csv, i), |headers|);
    }
  }
}
