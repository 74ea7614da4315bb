/** The sales-export half of the reconciliation (order_check.py): find the
    data region of the accounting export, split each packed row into tokens
    (GetExpressData), repair rows whose barcode is glued to the next field,
    and cut the token rows into bills up to the grand-total line
    (TreatExpressData). Row and column indices are 0-based here; the
    workbook's are 1-based. */
module Express {
  import opened Text
  import opened Cells

  type TokenRow = seq<string>

  // ===========================================================================
  // Row extractor (order_check.py:504-541)

  /** A text cell that, trimmed, is a non-empty run of '-' (a horizontal rule). */
  predicate IsRuleCell(c: Cell) {
    c.Str? &&
    var t := Trim(c.text);
    |t| > 0 && forall i :: 0 <= i < |t| ==> t[i] == '-'
  }

  predicate IsSeparatorRow(row: seq<Cell>) {
    exists c :: 0 <= c < |row| && IsRuleCell(row[c])
  }

  /** The indices of the separator rows, in the order the scan meets them. */
  function Separators(grid: seq<seq<Cell>>): (s: seq<nat>)
    ensures forall k :: 0 <= k < |s| ==> s[k] < |grid| && IsSeparatorRow(grid[s[k]])
    ensures forall k, l :: 0 <= k < l < |s| ==> s[k] < s[l]
    ensures forall r :: 0 <= r < |grid| && IsSeparatorRow(grid[r]) ==> r in s
  {
    if grid == [] then []
    else
      var n := |grid| - 1;
      var before := Separators(grid[..n]);
      assert forall r :: 0 <= r < n ==> grid[..n][r] == grid[r];
      before + (if IsSeparatorRow(grid[n]) then [n] else [])
  }

  /** A row the data loop can split: its first cell is text with a token in it. */
  predicate IsPackedRow(row: seq<Cell>) {
    |row| > 0 && row[0].Str? && !AllSpace(row[0].text)
  }

  predicate PackedBetween(grid: seq<seq<Cell>>, start: nat, end: nat) {
    forall r :: start <= r < end && r < |grid| && !IsBlankRow(grid[r]) ==> IsPackedRow(grid[r])
  }

  /** What the extractor demands of its grid: below the second rule, every
      row that is not blank starts with a non-blank text cell (otherwise
      `row_values[0].split()` fails, or the row yields no token). */
  predicate ExtractableGrid(grid: seq<seq<Cell>>) {
    var s := Separators(grid);
    |s| >= 2 ==> PackedBetween(grid, s[1] + 1, |grid|)
  }

  /** Rows `start` to `end - 1` that are not blank, each split on whitespace. */
  function SplitRows(grid: seq<seq<Cell>>, start: nat, end: nat): (rows: seq<TokenRow>)
    requires start <= end <= |grid| && PackedBetween(grid, start, end)
    ensures forall k :: 0 <= k < |rows| ==> rows[k] != []
    decreases end - start
  {
    if end == start then []
    else
      SplitRows(grid, start, end - 1) +
      (if IsBlankRow(grid[end - 1]) then [] else [Words(grid[end - 1][0].text)])
  }

  datatype Extraction = TooFewSeparators | DataRows(rows: seq<TokenRow>)

  /** The rows strictly below the second separator row, split into tokens. */
  function Extract(grid: seq<seq<Cell>>): (e: Extraction)
    requires ExtractableGrid(grid)
    ensures e.DataRows? ==> exists r, q :: 0 <= r < q < |grid| && IsSeparatorRow(grid[r]) && IsSeparatorRow(grid[q])
    ensures e.DataRows? ==> forall k :: 0 <= k < |e.rows| ==> e.rows[k] != []
  {
    var s := Separators(grid);
    SeparatorsCount(grid);
    if |s| < 2 then TooFewSeparators else DataRows(SplitRows(grid, s[1] + 1, |grid|))
  }

  /** The inner loop of lines 509-517: does some cell of the row hold a rule? */
  method RowHasDashLine(row: seq<Cell>) returns (found: bool)
    ensures found <==> IsSeparatorRow(row)
  {
    found := false;
    var c := 0;
    while c < |row|
      invariant 0 <= c <= |row|
      invariant forall k :: 0 <= k < c ==> !IsRuleCell(row[k])
    {
      if IsRuleCell(row[c]) {
        found := true;
        break;
      }
      c := c + 1;
    }
  }

  /** The scan of lines 504-541: one pass to collect the separator rows, one
      pass over the rows below the second of them. */
  method ExtractRows(grid: seq<seq<Cell>>) returns (e: Extraction)
    requires ExtractableGrid(grid)
    ensures e == Extract(grid)
    ensures e.DataRows? ==> forall k :: 0 <= k < |e.rows| ==> e.rows[k] != []
  {
    var separatorRows := ScanSeparators(grid);
    if |separatorRows| < 2 {
      return TooFewSeparators;
    }
    var data := SplitFrom(grid, separatorRows[1] + 1);
    return DataRows(data);
  }

  /** The first pass (lines 504-519): the separator rows, top to bottom. */
  method ScanSeparators(grid: seq<seq<Cell>>) returns (separatorRows: seq<nat>)
    ensures separatorRows == Separators(grid)
  {
    separatorRows := [];
    var r := 0;
    while r < |grid|
      invariant 0 <= r <= |grid|
      invariant separatorRows == Separators(grid[..r])
    {
      var rowHasDashLine := RowHasDashLine(grid[r]);
      if rowHasDashLine {
        separatorRows := separatorRows + [r];
      }
      assert grid[..r + 1][..r] == grid[..r];
      r := r + 1;
    }
    assert grid[..|grid|] == grid;
  }

  /** The second pass (lines 528-539): every non-blank row from `start` on,
      split on whitespace. */
  method SplitFrom(grid: seq<seq<Cell>>, start: nat) returns (data: seq<TokenRow>)
    requires start <= |grid| && PackedBetween(grid, start, |grid|)
    ensures data == SplitRows(grid, start, |grid|)
  {
    data := [];
    var r := start;
    while r < |grid|
      invariant start <= r <= |grid|
      invariant data == SplitRows(grid, start, r)
    {
      var rowValues := grid[r];
      if !IsBlankRow(rowValues) {
        data := data + [Words(rowValues[0].text)];
      }
      r := r + 1;
    }
  }

  /** With separator rows at p1 < p2 and no other separator before p2, the
      data region starts right after p2. */
  lemma SecondRuleStartsData(grid: seq<seq<Cell>>, p1: nat, p2: nat)
    requires p1 < p2 < |grid| && IsSeparatorRow(grid[p1]) && IsSeparatorRow(grid[p2])
    requires forall r :: 0 <= r < p2 && r != p1 ==> !IsSeparatorRow(grid[r])
    requires PackedBetween(grid, p2 + 1, |grid|)
    ensures ExtractableGrid(grid)
    ensures Extract(grid) == DataRows(SplitRows(grid, p2 + 1, |grid|))
  {
    FirstTwoSeparators(grid, p1, p2);
    ExtractAfter(grid, p2);
  }

  lemma ExtractAfter(grid: seq<seq<Cell>>, p: nat)
    requires |Separators(grid)| >= 2 && Separators(grid)[1] == p
    requires PackedBetween(grid, p + 1, |grid|)
    ensures ExtractableGrid(grid)
    ensures Extract(grid) == DataRows(SplitRows(grid, p + 1, |grid|))
  {
    assert ExtractableGrid(grid);
  }

  lemma FirstTwoSeparators(grid: seq<seq<Cell>>, p1: nat, p2: nat)
    requires p1 < p2 < |grid| && IsSeparatorRow(grid[p1]) && IsSeparatorRow(grid[p2])
    requires forall r :: 0 <= r < p2 && r != p1 ==> !IsSeparatorRow(grid[r])
    ensures |Separators(grid)| >= 2 && Separators(grid)[0] == p1 && Separators(grid)[1] == p2
  {
    var s := Separators(grid);
    assert p1 in s && p2 in s;
    var k1 :| 0 <= k1 < |s| && s[k1] == p1;
    var k2 :| 0 <= k2 < |s| && s[k2] == p2;
    assert s[0] <= s[k1] && IsSeparatorRow(grid[s[0]]);
    assert s[0] == p1;
    assert 1 <= k2 && s[1] <= s[k2];
    assert p1 < s[1] && IsSeparatorRow(grid[s[1]]);
  }

  /** With at most one separator row there is no data region. */
  lemma OneRuleIsNotEnough(grid: seq<seq<Cell>>)
    requires forall r, q :: 0 <= r < q < |grid| ==> !(IsSeparatorRow(grid[r]) && IsSeparatorRow(grid[q]))
    ensures ExtractableGrid(grid)
    ensures Extract(grid) == TooFewSeparators
  {
    SeparatorsCount(grid);
  }

  /** Two entries in the separator list are two distinct separator rows. */
  lemma SeparatorsCount(grid: seq<seq<Cell>>)
    ensures |Separators(grid)| >= 2 ==>
              exists r, q :: 0 <= r < q < |grid| && IsSeparatorRow(grid[r]) && IsSeparatorRow(grid[q])
  {
    var s := Separators(grid);
    if |s| >= 2 {
      assert 0 <= s[0] < s[1] < |grid| && IsSeparatorRow(grid[s[0]]) && IsSeparatorRow(grid[s[1]]);
    }
  }

  /** `t` is the split first cell of some non-blank row from `start` to `end - 1`. */
  predicate FromRegion(grid: seq<seq<Cell>>, start: nat, end: nat, t: TokenRow)
    requires start <= end <= |grid| && PackedBetween(grid, start, end)
  {
    exists r :: start <= r < end && !IsBlankRow(grid[r]) && t == Words(grid[r][0].text)
  }

  /** Each row the extractor returns is the split first cell of a non-blank
      row of the region. */
  lemma {:induction false} SplitRowsFromRegion(grid: seq<seq<Cell>>, start: nat, end: nat)
    requires start <= end <= |grid| && PackedBetween(grid, start, end)
    ensures forall k :: 0 <= k < |SplitRows(grid, start, end)| ==>
              FromRegion(grid, start, end, SplitRows(grid, start, end)[k])
    decreases end - start
  {
    if end > start {
      SplitRowsFromRegion(grid, start, end - 1);
      var prev := SplitRows(grid, start, end - 1);
      var rows := SplitRows(grid, start, end);
      forall k | 0 <= k < |rows|
        ensures FromRegion(grid, start, end, rows[k])
      {
        if k < |prev| {
          assert FromRegion(grid, start, end - 1, prev[k]);
          var r :| start <= r < end - 1 && !IsBlankRow(grid[r]) && prev[k] == Words(grid[r][0].text);
          assert rows[k] == prev[k];
        } else {
          assert rows[k] == Words(grid[end - 1][0].text);
        }
      }
    }
  }

  /** Each non-blank row of the region is returned by the extractor. */
  lemma {:induction false} SplitRowsCoversRegion(grid: seq<seq<Cell>>, start: nat, end: nat)
    requires start <= end <= |grid| && PackedBetween(grid, start, end)
    ensures forall r :: start <= r < end && !IsBlankRow(grid[r]) ==> Words(grid[r][0].text) in SplitRows(grid, start, end)
    decreases end - start
  {
    if end > start {
      SplitRowsCoversRegion(grid, start, end - 1);
      var prev := SplitRows(grid, start, end - 1);
      var rows := SplitRows(grid, start, end);
      forall r | start <= r < end && !IsBlankRow(grid[r])
        ensures Words(grid[r][0].text) in rows
      {
        if r < end - 1 {
          var k :| 0 <= k < |prev| && prev[k] == Words(grid[r][0].text);
          assert rows[k] == prev[k];
        } else {
          assert rows[|rows| - 1] == Words(grid[r][0].text);
        }
      }
    }
  }

  // ===========================================================================
  // Row repairer (order_check.py:550-572)

  /** The synthetic barcode prefix of a row whose barcode field is unreadable. */
  const PoisonPrefix := "0000000000000_"

  /** The repair of one token row. Token 2 (the barcode) is left alone when
      it is all digits; `digits.text` is split in two; anything else gets the
      poison prefix, with the original text inserted after it. */
  function RepairRow(row: TokenRow): (r: TokenRow)
    ensures |r| == |row| || |r| == |row| + 1
    ensures |r| == |row| ==> r == row
  {
    if |row| < 3 then row
    else
      var third := Trim(row[2]);
      if IsDigits(third) then row
      else
        var dot := Find(third, ".");
        if dot.Some? && IsDigits(third[..dot.value]) && third[dot.value + 1..] != []
           && !IsDigits(third[dot.value + 1..]) then
          row[..2] + [third[..dot.value], third[dot.value + 1..]] + row[3..]
        else
          row[..2] + [PoisonPrefix + third, third] + row[3..]
  }

  /** `t` is a barcode glued to the next field: digits, a dot, then
      non-empty text that is not all digits. */
  predicate GluedField(t: string) {
    exists k :: 0 <= k < |t| && t[k] == '.' && IsDigits(t[..k]) && t[k + 1..] != [] && !IsDigits(t[k + 1..])
  }

  /** A row is split, growing by one token with digits at index 2, exactly
      when its stripped token 2 is a glued field. */
  lemma RepairSplitsExactly(row: TokenRow)
    requires |row| >= 3
    ensures var r := RepairRow(row); (|r| == |row| + 1 && IsDigits(r[2])) <==> GluedField(Trim(row[2]))
  {
    var third := Trim(row[2]);
    var r := RepairRow(row);
    if GluedField(third) {
      var k :| 0 <= k < |third| && third[k] == '.' && IsDigits(third[..k]) && third[k + 1..] != []
               && !IsDigits(third[k + 1..]);
      forall j | 0 <= j < k ensures third[j] != '.' {
        assert IsDigit(third[..k][j]);
      }
      FindChar(third, '.', k);
      assert !IsDigits(third) by { assert third[k] == '.'; }
      RepairSplitCase(row, k);
    } else if |r| == |row| + 1 {
      SplitIsGlued(third);
      assert r[2] == PoisonPrefix + third;
      assert r[2][13] == '_';
    }
  }

  /** The split test of RepairRow, stated with `Find`, accepts only glued
      fields. */
  lemma SplitIsGlued(third: string)
    ensures var dot := Find(third, ".");
            (dot.Some? && IsDigits(third[..dot.value]) && third[dot.value + 1..] != []
             && !IsDigits(third[dot.value + 1..])) ==> GluedField(third)
  {
    var dot := Find(third, ".");
    if dot.Some? {
      assert third[dot.value..dot.value + 1] == ".";
      assert third[dot.value] == '.';
    }
  }

  /** Rows with fewer than 3 tokens are untouched; a row grows by at most one
      token; tokens 0-1 and the tokens after index 2 are kept, in order; a
      split gives digits, then text that is not all digits, that rejoin with
      a dot into the stripped token; otherwise token 2 is all digits or
      poisoned with its stripped text copied to token 3; and the row is split
      exactly when that token is a glued field. */
  lemma RepairRowSpec(row: TokenRow)
    ensures var r := RepairRow(row);
            (|row| < 3 ==> r == row)
            && (|r| == |row| ==> r == row && (|row| < 3 || IsDigits(Trim(row[2]))))
            && (|row| >= 3 ==> |r| == |row| || |r| == |row| + 1)
            && (|row| >= 3 ==> r[..2] == row[..2] && r[|r| - (|row| - 3)..] == row[3..])
            && (|r| == |row| + 1 ==>
                  (r[2] + "." + r[3] == Trim(row[2]) && IsDigits(r[2]) && !IsDigits(r[3]))
                  || (r[2] == PoisonPrefix + r[3] && r[3] == Trim(row[2]) && !IsDigits(r[3])))
            && (|row| >= 3 ==> IsDigits(Trim(r[2])) || (|r| > 3 && r[2] == PoisonPrefix + r[3]))
            && (|row| >= 3 ==> ((|r| == |row| + 1 && IsDigits(r[2])) <==> GluedField(Trim(row[2]))))
  {
    RepairRowShape(row);
    if |row| >= 3 {
      RepairSplitsExactly(row);
    }
  }

  /** All of RepairRowSpec but the split condition. */
  lemma RepairRowShape(row: TokenRow)
    ensures var r := RepairRow(row);
            (|row| < 3 ==> r == row)
            && (|r| == |row| ==> r == row && (|row| < 3 || IsDigits(Trim(row[2]))))
            && (|row| >= 3 ==> |r| == |row| || |r| == |row| + 1)
            && (|row| >= 3 ==> r[..2] == row[..2] && r[|r| - (|row| - 3)..] == row[3..])
            && (|r| == |row| + 1 ==>
                  (r[2] + "." + r[3] == Trim(row[2]) && IsDigits(r[2]) && !IsDigits(r[3]))
                  || (r[2] == PoisonPrefix + r[3] && r[3] == Trim(row[2]) && !IsDigits(r[3])))
            && (|row| >= 3 ==> IsDigits(Trim(r[2])) || (|r| > 3 && r[2] == PoisonPrefix + r[3]))
  {
    if |row| >= 3 {
      var third := Trim(row[2]);
      var dot := Find(third, ".");
      if !IsDigits(third) && dot.Some? && IsDigits(third[..dot.value]) && third[dot.value + 1..] != []
         && !IsDigits(third[dot.value + 1..]) {
        var left, right := third[..dot.value], third[dot.value + 1..];
        assert left + "." + right == third by {
          assert third[dot.value..dot.value + 1] == ".";
          assert third == third[..dot.value] + third[dot.value..dot.value + 1] + third[dot.value + 1..];
        }
        DigitsHaveNoSpace(left);
      }
    }
  }

  /** The split case of RepairRow: digits, a dot, then text that is not
      all digits. */
  lemma RepairSplitCase(row: TokenRow, k: nat)
    requires |row| >= 3 && !IsDigits(Trim(row[2])) && Find(Trim(row[2]), ".") == Some(k)
    requires IsDigits(Trim(row[2])[..k]) && Trim(row[2])[k + 1..] != [] && !IsDigits(Trim(row[2])[k + 1..])
    ensures RepairRow(row) == row[..2] + [Trim(row[2])[..k], Trim(row[2])[k + 1..]] + row[3..]
  {
  }

  /** The poisoned case of RepairRow: a token 2 that is neither digits nor
      splittable. */
  lemma RepairPoisonCase(row: TokenRow, k: nat)
    requires |row| >= 3 && !IsDigits(Trim(row[2])) && Find(Trim(row[2]), ".") == Some(k)
    requires !IsDigits(Trim(row[2])[..k]) || Trim(row[2])[k + 1..] == [] || IsDigits(Trim(row[2])[k + 1..])
    ensures RepairRow(row) == row[..2] + [PoisonPrefix + Trim(row[2]), Trim(row[2])] + row[3..]
  {
  }

  /** A barcode glued to the item text with a dot is split in two. */
  lemma RepairSplitsGluedField()
    ensures RepairRow(["B1", "1", "1234.ABC", "x"]) == ["B1", "1", "1234", "ABC", "x"]
  {
    var row := ["B1", "1", "1234.ABC", "x"];
    GluedFieldParts(row[2]);
    RepairSplitCase(row, 4);
    assert row[..2] == ["B1", "1"] && row[3..] == ["x"];
  }

  lemma GluedFieldParts(a: string)
    requires a == "1234.ABC"
    ensures Trim(a) == a && !IsDigits(a) && Find(a, ".") == Some(4)
    ensures a[..4] == "1234" && IsDigits("1234")
    ensures a[5..] == "ABC" && !IsDigits("ABC")
  {
    TrimNoSpace(a);
    FindChar(a, '.', 4);
    assert !IsDigits(a) by { assert a[4] == '.'; }
    assert !IsDigits("ABC") by { assert "ABC"[0] == 'A'; }
  }

  /** A decimal number is not a glued field: it is poisoned, not split. */
  lemma RepairPoisonsDecimal()
    ensures RepairRow(["B1", "1", "1234.56"]) == ["B1", "1", PoisonPrefix + "1234.56", "1234.56"]
  {
    var row := ["B1", "1", "1234.56"];
    DecimalParts(row[2]);
    RepairPoisonCase(row, 4);
    assert row[..2] == ["B1", "1"] && row[3..] == [];
  }

  lemma DecimalParts(b: string)
    requires b == "1234.56"
    ensures Trim(b) == b && !IsDigits(b) && Find(b, ".") == Some(4)
    ensures b[5..] == "56" && IsDigits("56")
  {
    TrimNoSpace(b);
    FindChar(b, '.', 4);
    assert !IsDigits(b) by { assert b[4] == '.'; }
  }

  /** A dot with no digits before it is poisoned too. */
  lemma RepairPoisonsLeadingDot()
    ensures RepairRow(["B1", "1", ".X"]) == ["B1", "1", PoisonPrefix + ".X", ".X"]
  {
    var row := ["B1", "1", ".X"];
    var c := row[2];
    TrimNoSpace(c);
    FindChar(c, '.', 0);
    assert c[..0] == "" && !IsDigits(c);
    RepairPoisonCase(row, 0);
    assert row[..2] == ["B1", "1"] && row[3..] == [];
  }

  /** One pass of the first loop of TreatExpressData: token 2 is rewritten
      and, when repaired, one token is inserted at index 3. */
  method RepairInPlace(row: TokenRow) returns (r: TokenRow)
    ensures r == RepairRow(row)
  {
    r := row;
    if |r| < 3 {
      return;
    }
    var third := Trim(r[2]);
    if IsDigits(third) {
      return;
    }
    var dot := Find(third, ".");
    if dot.Some? {
      var left, right := third[..dot.value], third[dot.value + 1..];
      if IsDigits(left) && right != [] && !IsDigits(right) {
        r := r[2 := left];
        r := r[..3] + [right] + r[3..];
        assert r == row[..2] + [left, right] + row[3..];
        return;
      }
    }
    r := r[2 := PoisonPrefix + third];
    r := r[..3] + [third] + r[3..];
    assert r == row[..2] + [PoisonPrefix + third, third] + row[3..];
  }

  /** The first loop of TreatExpressData: every row is repaired in place. */
  method RepairRows(rows: seq<TokenRow>) returns (data: seq<TokenRow>)
    ensures |data| == |rows|
    ensures forall i :: 0 <= i < |rows| ==> data[i] == RepairRow(rows[i])
  {
    data := rows;
    for i := 0 to |data|
      invariant |data| == |rows|
      invariant forall k :: 0 <= k < i ==> data[k] == RepairRow(rows[k])
      invariant forall k :: i <= k < |data| ==> data[k] == rows[k]
    {
      var row := RepairInPlace(data[i]);
      data := data[i := row];
    }
  }

  function RepairAll(rows: seq<TokenRow>): (out: seq<TokenRow>)
    ensures |out| == |rows|
  {
    seq(|rows|, i requires 0 <= i < |rows| => RepairRow(rows[i]))
  }

  // ===========================================================================
  // Bill segmenter (order_check.py:574-595)

  /** "รวมทั้งสิ้น", the first token of the grand-total row. */
  const GrandTotal := "\U{0E23}\U{0E27}\U{0E21}\U{0E17}\U{0E31}\U{0E49}\U{0E07}\U{0E2A}\U{0E34}\U{0E49}\U{0E19}"

  predicate NonEmptyRows(rows: seq<TokenRow>) {
    forall i :: 0 <= i < |rows| ==> rows[i] != []
  }

  predicate IsTotalRow(row: TokenRow) { row != [] && row[0] == GrandTotal }

  /** `re.sub(r'[^A-Za-z0-9]', '', token)`: the bill number a row belongs to. */
  function BillKey(token: string): string { Keep(token, IsAsciiAlnum) }

  datatype Segmentation =
    | Segmented(items: seq<TokenRow>, bills: seq<string>, total: string)
    | MarkerMissing

  function Extend(items: seq<TokenRow>, bills: seq<string>, s: Segmentation): Segmentation {
    match s
    case Segmented(i, b, t) => Segmented(items + i, bills + b, t)
    case MarkerMissing => MarkerMissing
  }

  lemma ExtendExtend(a: seq<TokenRow>, b: seq<string>, c: seq<TokenRow>, d: seq<string>, s: Segmentation)
    ensures Extend(a, b, Extend(c, d, s)) == Extend(a + c, b + d, s)
  {
    if s.Segmented? {
      assert a + (c + s.items) == (a + c) + s.items;
      assert b + (d + s.bills) == (b + d) + s.bills;
    }
  }

  /** The segmentation of `rows` when the bill in progress has key `bill`,
      read front to back: the grand-total row stops it (whatever its length),
      a row of fewer than five tokens is dropped, a row whose key differs
      from `bill` opens a new bill and is dropped, any other row is a line
      item of the current bill. */
  function SegmentFrom(rows: seq<TokenRow>, bill: string): (r: Segmentation)
    requires NonEmptyRows(rows)
    ensures r.Segmented? ==> |r.items| + |r.bills| < |rows|
    decreases |rows|
  {
    if rows == [] then MarkerMissing
    else if rows[0][0] == GrandTotal then Segmented([], [], rows[0][|rows[0]| - 1])
    else if |rows[0]| < 5 then SegmentFrom(rows[1..], bill)
    else
      var key := BillKey(rows[0][0]);
      if key != bill then Extend([], [key], SegmentFrom(rows[1..], key))
      else Extend([rows[0]], [], SegmentFrom(rows[1..], bill))
  }

  /** On success every surviving item is one of the rows, has at least five
      tokens and is not the grand-total row. */
  lemma {:induction false} SegmentFromItems(rows: seq<TokenRow>, bill: string)
    requires NonEmptyRows(rows)
    ensures SegmentFrom(rows, bill).Segmented? ==>
              forall k :: 0 <= k < |SegmentFrom(rows, bill).items| ==>
                var item := SegmentFrom(rows, bill).items[k];
                item in rows && |item| >= 5 && item[0] != GrandTotal
    decreases |rows|
  {
    if rows != [] && rows[0][0] != GrandTotal {
      var tail := rows[1..];
      assert forall r :: r in tail ==> r in rows;
      if |rows[0]| < 5 {
        SegmentFromItems(tail, bill);
      } else if BillKey(rows[0][0]) != bill {
        SegmentFromItems(tail, BillKey(rows[0][0]));
      } else {
        SegmentFromItems(tail, bill);
      }
    }
  }

  /** The delete-and-recheck loop of lines 574-588 over a shrinking list
      under an index cursor, and the terminal test of lines 590-595. */
  method SegmentBills(rows: seq<TokenRow>) returns (s: Segmentation)
    requires NonEmptyRows(rows)
    ensures s == SegmentFrom(rows, "")
  {
    var data := rows;
    var billNumber := "";
    var billNumbers: seq<string> := [];
    var index: int := 0;
    while index < |data| && data[index][0] != GrandTotal
      invariant 0 <= index <= |data|
      invariant NonEmptyRows(data)
      invariant SegmentFrom(rows, "") == Extend(data[..index], billNumbers, SegmentFrom(data[index..], billNumber))
      decreases |data| - index
    {
      ghost var before := data;
      assert before[index..][1..] == before[index + 1..];
      if |data[index]| < 5 {
        data := data[..index] + data[index + 1..];
        assert data[..index] == before[..index] && data[index..] == before[index + 1..];
        continue;
      }
      var checkingBill := BillKey(data[index][0]);
      if checkingBill != billNumber {
        ExtendExtend(data[..index], billNumbers, [], [checkingBill], SegmentFrom(before[index + 1..], checkingBill));
        assert data[..index] + [] == data[..index];
        billNumber := checkingBill;
        billNumbers := billNumbers + [billNumber];
        data := data[..index] + data[index + 1..];
        assert data[..index] == before[..index] && data[index..] == before[index + 1..];
        index := index - 1;
      } else {
        ExtendExtend(data[..index], billNumbers, [data[index]], [], SegmentFrom(before[index + 1..], billNumber));
        assert data[..index] + [data[index]] == data[..index + 1];
        assert billNumbers + [] == billNumbers;
      }
      index := index + 1;
    }
    if index < |data| && data[index][0] == GrandTotal {
      var total := data[index][|data[index]| - 1];
      assert data[..index] + [] == data[..index] && billNumbers + [] == billNumbers;
      data := data[..index];
      return Segmented(data, billNumbers, total);
    }
    return MarkerMissing;
  }

  function CountShort(rows: seq<TokenRow>): nat {
    if rows == [] then 0 else (if |rows[0]| < 5 then 1 else 0) + CountShort(rows[1..])
  }

  /** `a` can be obtained from `b` by deleting elements. */
  predicate IsSubseq<T(==)>(a: seq<T>, b: seq<T>)
    decreases |b|
  {
    if a == [] then true
    else if b == [] then false
    else (a[0] == b[0] && IsSubseq(a[1..], b[1..])) || IsSubseq(a, b[1..])
  }

  /** Segmentation succeeds exactly when some row is the grand-total row. */
  lemma {:induction false} SegmentNeedsTotalRow(rows: seq<TokenRow>, bill: string)
    requires NonEmptyRows(rows)
    ensures SegmentFrom(rows, bill).Segmented? <==> exists m :: 0 <= m < |rows| && IsTotalRow(rows[m])
    decreases |rows|
  {
    if rows != [] && rows[0][0] != GrandTotal {
      var key := BillKey(rows[0][0]);
      var next := if |rows[0]| >= 5 && key != bill then key else bill;
      SegmentNeedsTotalRow(rows[1..], next);
      if exists m :: 0 <= m < |rows| && IsTotalRow(rows[m]) {
        var m :| 0 <= m < |rows| && IsTotalRow(rows[m]);
        assert IsTotalRow(rows[1..][m - 1]);
      }
      if exists m :: 0 <= m < |rows[1..]| && IsTotalRow(rows[1..][m]) {
        var m :| 0 <= m < |rows[1..]| && IsTotalRow(rows[1..][m]);
        assert IsTotalRow(rows[m + 1]);
      }
    }
  }

  /** With the first grand-total row at index m, segmentation succeeds and
      the total is that row's last token. */
  lemma {:induction false} SegmentTotalIsLastToken(rows: seq<TokenRow>, bill: string, m: nat)
    requires NonEmptyRows(rows)
    requires m < |rows| && IsTotalRow(rows[m])
    requires forall j :: 0 <= j < m ==> !IsTotalRow(rows[j])
    ensures SegmentFrom(rows, bill).Segmented?
    ensures SegmentFrom(rows, bill).total == rows[m][|rows[m]| - 1]
    decreases m
  {
    if m > 0 {
      assert !IsTotalRow(rows[0]);
      var key := BillKey(rows[0][0]);
      var next := if |rows[0]| >= 5 && key != bill then key else bill;
      SegmentTotalIsLastToken(rows[1..], next, m - 1);
    }
  }

  /** The line items are drawn, in order, from the rows before the first
      grand-total row. */
  lemma {:induction false} SegmentItemsInOrder(rows: seq<TokenRow>, bill: string, m: nat)
    requires NonEmptyRows(rows)
    requires m < |rows| && IsTotalRow(rows[m])
    requires forall j :: 0 <= j < m ==> !IsTotalRow(rows[j])
    ensures SegmentFrom(rows, bill).Segmented?
    ensures IsSubseq(SegmentFrom(rows, bill).items, rows[..m])
    decreases m
  {
    SegmentTotalIsLastToken(rows, bill, m);
    if m > 0 {
      assert !IsTotalRow(rows[0]);
      assert rows[..m][1..] == rows[1..][..m - 1];
      var key := BillKey(rows[0][0]);
      var next := if |rows[0]| >= 5 && key != bill then key else bill;
      SegmentItemsInOrder(rows[1..], next, m - 1);
      var tail := SegmentFrom(rows[1..], next);
      var items := SegmentFrom(rows, bill).items;
      if |rows[0]| >= 5 && key == bill {
        assert items == [rows[0]] + tail.items;
        assert items[1..] == tail.items;
      } else {
        assert items == tail.items;
      }
    }
  }

  /** Every row before the first grand-total row is accounted for exactly
      once: as a line item, as the opening row of a bill, or as a short row
      that was dropped. */
  lemma {:induction false} SegmentAccountsForEveryRow(rows: seq<TokenRow>, bill: string, m: nat)
    requires NonEmptyRows(rows)
    requires m < |rows| && IsTotalRow(rows[m])
    requires forall j :: 0 <= j < m ==> !IsTotalRow(rows[j])
    ensures SegmentFrom(rows, bill).Segmented?
    ensures |SegmentFrom(rows, bill).items| + |SegmentFrom(rows, bill).bills| + CountShort(rows[..m]) == m
    decreases m
  {
    SegmentTotalIsLastToken(rows, bill, m);
    if m == 0 {
      assert rows[..0] == [];
    } else {
      assert !IsTotalRow(rows[0]);
      assert rows[..m][1..] == rows[1..][..m - 1];
      var key := BillKey(rows[0][0]);
      var next := if |rows[0]| >= 5 && key != bill then key else bill;
      SegmentAccountsForEveryRow(rows[1..], next, m - 1);
    }
  }

  /** The key of the bill in progress when row i is reached: the key of the
      last row of at least five tokens before it, or `bill` if there is none. */
  function KeyBefore(rows: seq<TokenRow>, i: nat, bill: string): string
    requires i <= |rows|
  {
    if i == 0 then bill
    else if |rows[i - 1]| >= 5 then BillKey(rows[i - 1][0])
    else KeyBefore(rows, i - 1, bill)
  }

  /** Row i has at least five tokens and a key other than the one in progress. */
  predicate OpensBill(rows: seq<TokenRow>, i: nat, bill: string)
    requires i < |rows|
  {
    |rows[i]| >= 5 && BillKey(rows[i][0]) != KeyBefore(rows, i, bill)
  }

  /** Row i has at least five tokens and the key in progress. */
  predicate IsLineItem(rows: seq<TokenRow>, i: nat, bill: string)
    requires i < |rows|
  {
    |rows[i]| >= 5 && BillKey(rows[i][0]) == KeyBefore(rows, i, bill)
  }

  /** The line items among the first n rows, in row order. */
  function ItemsBefore(rows: seq<TokenRow>, n: nat, bill: string): seq<TokenRow>
    requires n <= |rows|
  {
    if n == 0 then []
    else ItemsBefore(rows, n - 1, bill) + (if IsLineItem(rows, n - 1, bill) then [rows[n - 1]] else [])
  }

  /** The keys of the rows among the first n that open a bill, in row order. */
  function BillsBefore(rows: seq<TokenRow>, n: nat, bill: string): seq<string>
    requires n <= |rows|
  {
    if n == 0 then []
    else BillsBefore(rows, n - 1, bill) + (if OpensBill(rows, n - 1, bill) then [BillKey(rows[n - 1][0])] else [])
  }

  /** Segmentation after the first i rows: what those rows contributed, then
      the segmentation of the rest under the key in progress. */
  lemma {:induction false} SegmentPrefix(rows: seq<TokenRow>, bill: string, i: nat)
    requires NonEmptyRows(rows)
    requires i <= |rows|
    requires forall j :: 0 <= j < i ==> !IsTotalRow(rows[j])
    ensures NonEmptyRows(rows[i..])
    ensures SegmentFrom(rows, bill)
            == Extend(ItemsBefore(rows, i, bill), BillsBefore(rows, i, bill), SegmentFrom(rows[i..], KeyBefore(rows, i, bill)))
    decreases i
  {
    if i == 0 {
      assert rows[0..] == rows;
      var s := SegmentFrom(rows, bill);
      if s.Segmented? {
        assert [] + s.items == s.items && [] + s.bills == s.bills;
      }
    } else {
      SegmentPrefix(rows, bill, i - 1);
      var row := rows[i - 1];
      assert !IsTotalRow(row);
      var k := KeyBefore(rows, i - 1, bill);
      var rest := rows[i - 1..];
      assert rest[0] == row && rest[1..] == rows[i..];
      var c := if IsLineItem(rows, i - 1, bill) then [row] else [];
      var d := if OpensBill(rows, i - 1, bill) then [BillKey(row[0])] else [];
      var step := SegmentFrom(rows[i..], KeyBefore(rows, i, bill));
      assert SegmentFrom(rest, k) == Extend(c, d, step) by {
        if |row| < 5 {
          if step.Segmented? {
            assert [] + step.items == step.items && [] + step.bills == step.bills;
          }
        }
      }
      ExtendExtend(ItemsBefore(rows, i - 1, bill), BillsBefore(rows, i - 1, bill), c, d, step);
    }
  }

  /** The fate of each row before the first grand-total row: a row of at
      least five tokens whose key differs from the key in progress goes to
      the bill list as that key and not to the items; every other row of at
      least five tokens is a line item; a shorter row goes to neither. */
  lemma SegmentByRowFate(rows: seq<TokenRow>, bill: string, m: nat)
    requires NonEmptyRows(rows)
    requires m < |rows| && IsTotalRow(rows[m])
    requires forall j :: 0 <= j < m ==> !IsTotalRow(rows[j])
    ensures SegmentFrom(rows, bill)
            == Segmented(ItemsBefore(rows, m, bill), BillsBefore(rows, m, bill), rows[m][|rows[m]| - 1])
  {
    SegmentPrefix(rows, bill, m);
    var items, bills := ItemsBefore(rows, m, bill), BillsBefore(rows, m, bill);
    assert rows[m..][0] == rows[m];
    assert items + [] == items && bills + [] == bills;
  }

  /** Two consecutive entries of the bill list never coincide, and the first
      differs from the bill in progress. */
  lemma {:induction false} BillsAlternate(rows: seq<TokenRow>, bill: string)
    requires NonEmptyRows(rows)
    ensures SegmentFrom(rows, bill).Segmented? ==>
              var b := SegmentFrom(rows, bill).bills;
              (|b| > 0 ==> b[0] != bill) && forall k :: 0 <= k < |b| - 1 ==> b[k] != b[k + 1]
    decreases |rows|
  {
    if rows != [] && rows[0][0] != GrandTotal {
      var key := BillKey(rows[0][0]);
      if |rows[0]| >= 5 && key != bill {
        BillsAlternate(rows[1..], key);
        var s := SegmentFrom(rows, bill);
        if s.Segmented? {
          var tail := SegmentFrom(rows[1..], key);
          assert s.bills == [key] + tail.bills;
          forall k | 0 <= k < |s.bills| - 1 ensures s.bills[k] != s.bills[k + 1] {
            if k > 0 {
              assert s.bills[k] == tail.bills[k - 1] && s.bills[k + 1] == tail.bills[k];
            }
          }
        }
      } else {
        BillsAlternate(rows[1..], bill);
      }
    }
  }

  // ===========================================================================
  // The whole of GetExpressData (lines 482-595)

  datatype ExpressOutcome =
    | FewerThanTwoRules
    | NoGrandTotal
    | ExpressData(items: seq<TokenRow>, bills: seq<string>, total: string)

  function ExpressSpec(grid: seq<seq<Cell>>): ExpressOutcome
    requires ExtractableGrid(grid)
  {
    match Extract(grid)
    case TooFewSeparators => FewerThanTwoRules
    case DataRows(rows) =>
      assert NonEmptyRows(RepairAll(rows));
      match SegmentFrom(RepairAll(rows), "")
      case Segmented(items, bills, total) => ExpressData(items, bills, total)
      case MarkerMissing => NoGrandTotal
  }

  /** TreatExpressData: repair every row, then segment the result. */
  method TreatExpressData(rows: seq<TokenRow>) returns (s: Segmentation)
    requires NonEmptyRows(rows)
    ensures NonEmptyRows(RepairAll(rows)) && s == SegmentFrom(RepairAll(rows), "")
  {
    var data := RepairRows(rows);
    assert data == RepairAll(rows);
    s := SegmentBills(data);
  }

  method GetExpressData(grid: seq<seq<Cell>>) returns (out: ExpressOutcome)
    requires ExtractableGrid(grid)
    ensures out == ExpressSpec(grid)
  {
    var e := ExtractRows(grid);
    if e.TooFewSeparators? {
      return FewerThanTwoRules;
    }
    var s := TreatExpressData(e.rows);
    match s
    case Segmented(items, bills, total) => out := ExpressData(items, bills, total);
    case MarkerMissing => out := NoGrandTotal;
  }

  /** Every line item that reaches the aggregator has at least five tokens
      and a barcode that is either numeric or carries the poison prefix
      followed by the original text. */
  lemma ExpressItemsWellFormed(grid: seq<seq<Cell>>)
    requires ExtractableGrid(grid)
    ensures ExpressSpec(grid).ExpressData? ==>
              forall k :: 0 <= k < |ExpressSpec(grid).items| ==>
                var item := ExpressSpec(grid).items[k];
                |item| >= 5 && (IsDigits(Trim(item[2])) || item[2] == PoisonPrefix + item[3])
  {
    if Extract(grid).DataRows? {
      var rows := Extract(grid).rows;
      var repaired := RepairAll(rows);
      var s := SegmentFrom(repaired, "");
      SegmentFromItems(repaired, "");
      if s.Segmented? {
        forall k | 0 <= k < |s.items|
          ensures IsDigits(Trim(s.items[k][2])) || s.items[k][2] == PoisonPrefix + s.items[k][3]
        {
          var i :| 0 <= i < |repaired| && repaired[i] == s.items[k];
          RepairRowSpec(rows[i]);
          assert |RepairRow(rows[i])| >= 5;
        }
      }
    }
  }
}
