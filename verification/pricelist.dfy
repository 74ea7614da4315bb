/** The matching pipeline of the price-list checker
    (product_price_checker.py:47-152): parse the left table's text rows
    into index, product and price, look every right-hand row up by its
    cleaned barcode, and hide the rows of the output sheets that are not
    to be shown. Row indices are the tables' positional indices. */
module PriceList {
  import opened Text
  import opened Barcode

  // ===========================================================================
  // `re.split(r'\s{2,}', text)` (product_price_checker.py:90)

  /** A run of at least two whitespace characters starts at `j`. */
  predicate GapAt(s: string, j: nat) {
    j + 1 < |s| && IsSpace(s[j]) && IsSpace(s[j + 1])
  }

  predicate NoGap(s: string) {
    forall j :: 0 <= j < |s| ==> !GapAt(s, j)
  }

  /** The leftmost place a gap starts, from `i` on. */
  function GapFrom(s: string, i: nat): (r: Option<nat>)
    requires i <= |s|
    ensures r.Some? ==> i <= r.value < |s|
    decreases |s| - i
  {
    if i == |s| then None
    else if GapAt(s, i) then Some(i)
    else GapFrom(s, i + 1)
  }

  /** GapFrom finds a gap, the leftmost one from `i` on, or there is none. */
  lemma {:induction false} GapFromSpec(s: string, i: nat)
    requires i <= |s|
    ensures GapFrom(s, i).Some? ==> GapAt(s, GapFrom(s, i).value)
    ensures GapFrom(s, i).Some? ==> forall j :: i <= j < GapFrom(s, i).value ==> !GapAt(s, j)
    ensures GapFrom(s, i).None? ==> forall j :: i <= j < |s| ==> !GapAt(s, j)
    decreases |s| - i
  {
    if i < |s| && !GapAt(s, i) {
      GapFromSpec(s, i + 1);
    }
  }

  /** Length of the leading whitespace run. */
  function SpaceLen(s: string): (n: nat)
    ensures n <= |s|
  {
    if s == [] || !IsSpace(s[0]) then 0 else 1 + SpaceLen(s[1..])
  }

  /** SpaceLen measures the whole leading run of whitespace. */
  lemma {:induction false} SpaceLenSpec(s: string)
    ensures forall i :: 0 <= i < SpaceLen(s) ==> IsSpace(s[i])
    ensures SpaceLen(s) == |s| || !IsSpace(s[SpaceLen(s)])
  {
    if s != [] && IsSpace(s[0]) {
      SpaceLenSpec(s[1..]);
      forall i | 0 < i < SpaceLen(s) ensures IsSpace(s[i]) {
        assert s[i] == s[1..][i - 1];
      }
    }
  }

  /** The fields between the gaps: each gap is the whole whitespace run that
      starts where the leftmost remaining gap does. */
  function SplitWide(s: string): (fields: seq<string>)
    ensures |fields| >= 1
    decreases |s|
  {
    match GapFrom(s, 0)
    case None => [s]
    case Some(j) =>
      var n := SpaceLen(s[j..]);
      [s[..j]] + SplitWide(s[j + n..])
  }

  /** One step of the split: the text before the leftmost gap, then the
      split of what follows the gap's whole whitespace run. */
  lemma {:induction false} SplitWideStep(s: string, j: nat)
    requires GapFrom(s, 0) == Some(j)
    ensures SplitWide(s) == [s[..j]] + SplitWide(s[j + SpaceLen(s[j..])..])
  {
  }

  /** Text without a gap is a single field. */
  lemma SplitWideWhole(s: string)
    requires NoGap(s)
    ensures SplitWide(s) == [s]
  {
    GapFromSpec(s, 0);
  }

  /** The text cuts at a run of two or more whitespace characters: the part
      before it, when it has no gap and does not end in whitespace, is the
      first field, and the fields after it are those of the rest. With
      SplitWideWhole this determines the split completely, and a single
      whitespace character inside a field stays where it is. */
  lemma SplitWideAtGap(u: string, g: string, v: string)
    requires NoGap(u) && (u == [] || !IsSpace(u[|u| - 1]))
    requires |g| >= 2 && AllSpace(g)
    requires v == [] || !IsSpace(v[0])
    ensures SplitWide(u + g + v) == [u] + SplitWide(v)
  {
    var s := u + g + v;
    assert s[..|u|] == u && s[|u| + |g|..] == v;
    assert forall i :: |u| <= i < |u| + |g| ==> s[i] == g[i - |u|];
    SplitWideAt(s, |u|, |u| + |g|);
  }

  /** The same for the gap `s[j..k]` of a single text. */
  lemma SplitWideAt(s: string, j: nat, k: nat)
    requires j + 2 <= k <= |s|
    requires NoGap(s[..j]) && (j == 0 || !IsSpace(s[j - 1]))
    requires forall i :: j <= i < k ==> IsSpace(s[i])
    requires k == |s| || !IsSpace(s[k])
    ensures SplitWide(s) == [s[..j]] + SplitWide(s[k..])
  {
    NoGapUpTo(s, j);
    GapFromAt(s, 0, j);
    SkipGap(s, j, k);
    SplitWideStep(s, j);
  }

  /** The gap found at `j` is skipped up to `k`. */
  lemma SkipGap(s: string, j: nat, k: nat)
    requires j <= k <= |s|
    requires forall i :: j <= i < k ==> IsSpace(s[i])
    requires k == |s| || !IsSpace(s[k])
    ensures s[j + SpaceLen(s[j..])..] == s[k..]
  {
    SpaceLenTo(s[j..], k - j);
  }

  /** Before a gap-free prefix that ends in a non-whitespace character no
      gap starts. */
  lemma NoGapUpTo(s: string, j: nat)
    requires j + 1 < |s| && NoGap(s[..j]) && (j == 0 || !IsSpace(s[j - 1]))
    ensures forall i :: 0 <= i < j ==> !GapAt(s, i)
  {
    forall i | 0 <= i < j ensures !GapAt(s, i) {
      if i + 1 < j {
        assert !GapAt(s[..j], i);
      }
    }
  }

  /** A whitespace run of length `m` followed by text that is not
      whitespace. */
  lemma {:induction false} SpaceLenTo(t: string, m: nat)
    requires m <= |t| && (forall i :: 0 <= i < m ==> IsSpace(t[i])) && (m == |t| || !IsSpace(t[m]))
    ensures SpaceLen(t) == m
    decreases m
  {
    if m > 0 {
      SpaceLenTo(t[1..], m - 1);
    }
  }

  /** The gap found from `i` is the first one at or after `i`. */
  lemma {:induction false} GapFromAt(s: string, i: nat, j: nat)
    requires i <= j && GapAt(s, j) && forall l :: i <= l < j ==> !GapAt(s, l)
    ensures GapFrom(s, i) == Some(j)
    decreases j - i
  {
    if i < j {
      GapFromAt(s, i + 1, j);
    }
  }

  /** No field holds a gap. */
  lemma {:induction false} SplitWideNoGap(s: string)
    ensures forall k :: 0 <= k < |SplitWide(s)| ==> NoGap(SplitWide(s)[k])
    decreases |s|
  {
    GapFromSpec(s, 0);
    match GapFrom(s, 0)
    case None =>
    case Some(j) =>
      var rest := s[j + SpaceLen(s[j..])..];
      SplitWideNoGap(rest);
      SplitWideStep(s, j);
      NoGapBefore(s, j);
      NoGapCons(s[..j], SplitWide(rest));
  }

  lemma NoGapBefore(s: string, j: nat)
    requires j <= |s| && forall i :: 0 <= i < j ==> !GapAt(s, i)
    ensures NoGap(s[..j])
  {
    forall i | 0 <= i < j ensures !GapAt(s[..j], i) {
      assert !GapAt(s, i);
    }
  }

  lemma NoGapCons(f: string, fields: seq<string>)
    requires NoGap(f) && forall k :: 0 <= k < |fields| ==> NoGap(fields[k])
    ensures forall k :: 0 <= k < |[f] + fields| ==> NoGap(([f] + fields)[k])
  {
    forall k | 0 <= k < |[f] + fields| ensures NoGap(([f] + fields)[k]) {
      if k > 0 {
        assert ([f] + fields)[k] == fields[k - 1];
      }
    }
  }

  /** Splitting loses only whitespace: the fields hold, in order, every
      other character of the text. */
  lemma {:induction false} SplitWideKeepsText(s: string)
    ensures Keep(Concat(SplitWide(s)), IsNonSpace) == Keep(s, IsNonSpace)
    decreases |s|
  {
    match GapFrom(s, 0)
    case None =>
      ConcatOne(s);
    case Some(j) =>
      var n := SpaceLen(s[j..]);
      var rest := s[j + n..];
      SplitWideKeepsText(rest);
      SplitWideStep(s, j);
      SpaceLenSpec(s[j..]);
      ConcatCons(s[..j], SplitWide(rest));
      KeepAppend(s[..j], Concat(SplitWide(rest)), IsNonSpace);
      DropGap(s, j, n);
  }

  lemma ConcatOne(s: string)
    ensures Concat([s]) == s
  {
    assert [s][1..] == [];
  }

  lemma ConcatCons(f: string, fields: seq<string>)
    ensures Concat([f] + fields) == f + Concat(fields)
  {
    assert ([f] + fields)[1..] == fields;
  }

  /** Removing the whitespace run `s[j..j + n]` does not change what Keep
      keeps. */
  lemma DropGap(s: string, j: nat, n: nat)
    requires j + n <= |s| && forall i :: 0 <= i < n ==> IsSpace(s[j..][i])
    ensures Keep(s, IsNonSpace) == Keep(s[..j], IsNonSpace) + Keep(s[j + n..], IsNonSpace)
  {
    KeepSplit(s, j, IsNonSpace);
    KeepDropPrefix(s[j..], n, IsNonSpace);
    assert s[j..][n..] == s[j + n..];
  }

  /** On stripped text every field is non-empty and has no whitespace at
      either end. */
  lemma {:induction false} SplitWideStripped(s: string)
    requires s != [] && !IsSpace(s[0]) && !IsSpace(s[|s| - 1])
    ensures forall k :: 0 <= k < |SplitWide(s)| ==> Stripped(SplitWide(s)[k])
    decreases |s|
  {
    match GapFrom(s, 0)
    case None =>
    case Some(j) =>
      var n := SpaceLen(s[j..]);
      var rest := s[j + n..];
      SplitWideStep(s, j);
      GapEnds(s, j);
      SplitWideStripped(rest);
      StrippedCons(s[..j], SplitWide(rest));
  }

  /** Non-empty, with no whitespace at either end. */
  predicate Stripped(f: string) {
    f != [] && !IsSpace(f[0]) && !IsSpace(f[|f| - 1])
  }

  /** In stripped text the leftmost gap has text on both sides. */
  lemma GapEnds(s: string, j: nat)
    requires s != [] && !IsSpace(s[0]) && !IsSpace(s[|s| - 1])
    requires GapFrom(s, 0) == Some(j)
    ensures Stripped(s[..j])
    ensures j + SpaceLen(s[j..]) < |s|
    ensures var rest := s[j + SpaceLen(s[j..])..]; rest != [] && !IsSpace(rest[0]) && !IsSpace(rest[|rest| - 1])
  {
    var n := SpaceLen(s[j..]);
    GapFromSpec(s, 0);
    SpaceLenSpec(s[j..]);
    assert j > 0;
    assert !IsSpace(s[j - 1]) by {
      assert !GapAt(s, j - 1);
    }
    assert j + n < |s|;
  }

  lemma StrippedCons(f: string, fields: seq<string>)
    requires Stripped(f) && forall k :: 0 <= k < |fields| ==> Stripped(fields[k])
    ensures forall k :: 0 <= k < |[f] + fields| ==> Stripped(([f] + fields)[k])
  {
    forall k | 0 <= k < |[f] + fields| ensures Stripped(([f] + fields)[k]) {
      if k > 0 {
        assert ([f] + fields)[k] == fields[k - 1];
      }
    }
  }

  // ===========================================================================
  // Price test (product_price_checker.py:47-54, 100)

  predicate IsNumberChar(c: char) { IsDigit(c) || c == '.' || c == '-' }

  /** What `float()` accepts once everything but digits, '.' and '-' is gone:
      an optional leading '-', then digits with at most one '.', at least
      one of them a digit. */
  predicate FloatSyntax(t: string) {
    UnsignedFloatSyntax(if |t| > 0 && t[0] == '-' then t[1..] else t)
  }

  /** Digits with at most one '.', at least one of them a digit. */
  predicate UnsignedFloatSyntax(b: string) {
    (exists i :: 0 <= i < |b| && IsDigit(b[i]))
    && (forall i :: 0 <= i < |b| ==> IsDigit(b[i]) || b[i] == '.')
    && (forall i, j :: 0 <= i < j < |b| ==> !(b[i] == '.' && b[j] == '.'))
  }

  /** `numeric_value_for_compare(x) == numeric_value_for_compare(x)`: the
      filtered text parses, so the value is not NaN. */
  predicate ParsesAsNumber(s: string) {
    FloatSyntax(Keep(s, IsNumberChar))
  }

  /** The price column of a kept row. */
  function PriceOf(cols: seq<string>): (p: string)
    ensures |cols| >= 4 && ParsesAsNumber(cols[3]) ==> p == cols[3]
    ensures !(|cols| >= 4 && ParsesAsNumber(cols[3])) ==> p == (if |cols| >= 5 then cols[4] else "")
    ensures p != "" ==> exists k :: 3 <= k < |cols| && p == cols[k]
  {
    if |cols| >= 4 && ParsesAsNumber(cols[3]) then cols[3]
    else if |cols| >= 5 then cols[4]
    else ""
  }

  /** A price written as a whole number is always taken from column 3. */
  lemma DecimalPriceChosen(cols: seq<string>, n: nat)
    requires |cols| >= 4 && cols[3] == ToDecimal(n)
    ensures PriceOf(cols) == cols[3]
  {
    var d := ToDecimal(n);
    assert forall i :: 0 <= i < |d| ==> IsNumberChar(d[i]);
    assert Keep(d, IsNumberChar) == d;
    assert IsDigit(d[0]) && d[0] != '-';
    assert forall i :: 0 <= i < |d| ==> d[i] != '.';
    assert FloatSyntax(d);
  }

  /** A column 3 without any digit is never the price: column 4 is used when
      there is one. */
  lemma DigitlessPriceSkipped(cols: seq<string>)
    requires |cols| >= 4 && forall i :: 0 <= i < |cols[3]| ==> !IsDigit(cols[3][i])
    ensures PriceOf(cols) == (if |cols| >= 5 then cols[4] else "")
  {
    var t := Keep(cols[3], IsNumberChar);
    KeepDigitless(cols[3]);
  }

  /** A column 3 that has digits but is not a number, such as "1.2.3", is
      skipped too: `float()` fails on it and the value is NaN. */
  lemma MalformedPriceSkipped(cols: seq<string>)
    requires |cols| >= 5 && cols[3] == "1.2.3"
    ensures PriceOf(cols) == cols[4]
  {
    var t := cols[3];
    assert t == ['1', '.', '2', '.', '3'];
    assert forall i :: 0 <= i < |t| ==> IsNumberChar(t[i]);
    assert Keep(t, IsNumberChar) == t;
    assert t[0] != '-' && t[1] == '.' && t[3] == '.';
    assert !ParsesAsNumber(cols[3]);
  }

  lemma {:induction false} KeepDigitless(s: string)
    requires forall i :: 0 <= i < |s| ==> !IsDigit(s[i])
    ensures forall i :: 0 <= i < |Keep(s, IsNumberChar)| ==> !IsDigit(Keep(s, IsNumberChar)[i])
  {
    if s != [] {
      KeepDigitless(s[1..]);
      var r := Keep(s, IsNumberChar);
      var t := Keep(s[1..], IsNumberChar);
      assert r == (if IsNumberChar(s[0]) then [s[0]] else []) + t;
    }
  }

  // ===========================================================================
  // Left-table parse (product_price_checker.py:84-105)

  /** `str(row[0])`: a missing cell prints as "nan". */
  function RowText(cell: Option<string>): string {
    match cell
    case None => "nan"
    case Some(s) => s
  }

  function Columns(cell: Option<string>): seq<string> {
    SplitWide(Trim(RowText(cell)))
  }

  /** A row that makes it into the left table: two columns at least, the
      first an integer token. */
  predicate KeptRow(cols: seq<string>) {
    |cols| >= 2 && IsIntegerToken(Some(cols[0]))
  }

  /** What a kept row contributes to the left table. */
  datatype Entry = Entry(product: string, price: string)

  /** The entry a row of the left sheet gives, if it is kept: the cleaned
      product of column 1 and the chosen price. */
  function RowEntry(cell: Option<string>): Option<Entry> {
    var cols := Columns(cell);
    if KeptRow(cols) then Some(Entry(CleanBarcode(Some(cols[1])), PriceOf(cols))) else None
  }

  function Entries(rows: seq<Option<string>>): (es: seq<Option<Entry>>)
    ensures |es| == |rows|
  {
    if rows == [] then [] else Entries(rows[..|rows| - 1]) + [RowEntry(rows[|rows| - 1])]
  }

  lemma {:induction false} EntryAt(rows: seq<Option<string>>, i: nat)
    requires i < |rows|
    ensures Entries(rows)[i] == RowEntry(rows[i])
  {
    var n := |rows| - 1;
    var es := Entries(rows[..n]);
    assert Entries(rows) == es + [RowEntry(rows[n])];
    if i < n {
      EntryAt(rows[..n], i);
      assert rows[..n][i] == rows[i];
      assert Entries(rows)[i] == es[i];
    }
  }

  datatype LeftTable = LeftTable(indices: seq<nat>, products: seq<string>, prices: seq<string>)

  /** The left table built from the entries of rows 0 to `end - 1`. */
  function LeftTableUpTo(es: seq<Option<Entry>>, end: nat): (t: LeftTable)
    requires end <= |es|
    ensures |t.indices| == |t.products| == |t.prices|
  {
    if end == 0 then LeftTable([], [], [])
    else
      var t := LeftTableUpTo(es, end - 1);
      match es[end - 1]
      case None => t
      case Some(e) => LeftTable(t.indices + [end - 1], t.products + [e.product], t.prices + [e.price])
  }

  /** Each line of the left table is the entry of a kept row, and the rows
      appear in sheet order. */
  lemma {:induction false} LeftTableEntries(es: seq<Option<Entry>>, end: nat)
    requires end <= |es|
    ensures forall k :: 0 <= k < |LeftTableUpTo(es, end).indices| ==>
              LeftTableUpTo(es, end).indices[k] < end
              && es[LeftTableUpTo(es, end).indices[k]]
                 == Some(Entry(LeftTableUpTo(es, end).products[k], LeftTableUpTo(es, end).prices[k]))
    ensures forall k, l :: 0 <= k < l < |LeftTableUpTo(es, end).indices| ==>
              LeftTableUpTo(es, end).indices[k] < LeftTableUpTo(es, end).indices[l]
  {
    if end > 0 {
      LeftTableEntries(es, end - 1);
      var t := LeftTableUpTo(es, end - 1);
      var u := LeftTableUpTo(es, end);
      var n := |t.indices|;
      if es[end - 1].Some? {
        var e := es[end - 1].value;
        assert u == LeftTable(t.indices + [end - 1], t.products + [e.product], t.prices + [e.price]);
        forall k | 0 <= k < |u.indices|
          ensures u.indices[k] < end && es[u.indices[k]] == Some(Entry(u.products[k], u.prices[k]))
        {
          if k < n {
            assert u.indices[k] == t.indices[k] && u.products[k] == t.products[k] && u.prices[k] == t.prices[k];
          } else {
            assert k == n && u.indices[k] == end - 1 && u.products[k] == e.product && u.prices[k] == e.price;
          }
        }
        forall k, l | 0 <= k < l < |u.indices| ensures u.indices[k] < u.indices[l] {
          if l < n {
            assert u.indices[k] == t.indices[k] && u.indices[l] == t.indices[l];
          } else {
            assert u.indices[k] == t.indices[k] && u.indices[l] == end - 1;
          }
        }
      } else {
        assert u == t;
      }
    }
  }

  /** Every kept row is in the left table. */
  lemma {:induction false} LeftTableComplete(es: seq<Option<Entry>>, end: nat)
    requires end <= |es|
    ensures forall i :: 0 <= i < end && es[i].Some? ==> i in LeftTableUpTo(es, end).indices
  {
    if end > 0 {
      LeftTableComplete(es, end - 1);
      var t := LeftTableUpTo(es, end - 1);
      var u := LeftTableUpTo(es, end);
      assert u.indices[..|t.indices|] == t.indices;
      forall i | 0 <= i < end && es[i].Some? ensures i in u.indices {
        if i < end - 1 {
          var k :| 0 <= k < |t.indices| && t.indices[k] == i;
          assert u.indices[k] == i;
        } else {
          assert u.indices[|u.indices| - 1] == i;
        }
      }
    }
  }

  /** The loop of lines 88-105. */
  method ParseLeft(rows: seq<Option<string>>)
    returns (leftIndices: seq<nat>, leftProducts: seq<string>, leftPrices: seq<string>)
    ensures LeftTable(leftIndices, leftProducts, leftPrices) == LeftTableUpTo(Entries(rows), |rows|)
  {
    ghost var es := Entries(rows);
    leftIndices, leftProducts, leftPrices := [], [], [];
    var i := 0;
    while i < |rows|
      invariant 0 <= i <= |rows|
      invariant LeftTable(leftIndices, leftProducts, leftPrices) == LeftTableUpTo(es, i)
    {
      var entry := ParseRow(rows, i);
      if entry.Some? {
        leftIndices := leftIndices + [i];
        leftProducts := leftProducts + [entry.value.product];
        leftPrices := leftPrices + [entry.value.price];
      }
      assert LeftTable(leftIndices, leftProducts, leftPrices) == LeftTableUpTo(es, i + 1);
      i := i + 1;
    }
  }

  /** The body of that loop for one row: split it, keep it when its first
      field is a whole number, and choose its price. */
  method ParseRow(rows: seq<Option<string>>, i: nat) returns (entry: Option<Entry>)
    requires i < |rows|
    ensures entry == Entries(rows)[i]
  {
    EntryAt(rows, i);
    var rowStr := RowText(rows[i]);
    var cols := SplitWide(Trim(rowStr));
    if |cols| >= 2 && IsIntegerToken(Some(cols[0])) {
      var cleanedProd := CleanBarcode(Some(cols[1]));
      var price;
      if |cols| >= 4 && ParsesAsNumber(cols[3]) {
        price := cols[3];
      } else if |cols| >= 5 {
        price := cols[4];
      } else {
        price := "";
      }
      entry := Some(Entry(cleanedProd, price));
    } else {
      entry := None;
    }
  }

  // ===========================================================================
  // Lookup of the right-hand rows (product_price_checker.py:113-131)

  /** The first left product equal to `search`, both sides stripped. */
  function FirstMatch(products: seq<string>, search: string): (r: Option<nat>)
    ensures r.Some? ==> r.value < |products|
  {
    if products == [] then None
    else if Trim(search) == Trim(products[0]) then Some(0)
    else match FirstMatch(products[1..], search)
      case None => None
      case Some(j) => Some(j + 1)
  }

  /** The match found is the first product equal to the key, and none is
      found only when no product is. */
  lemma {:induction false} FirstMatchSpec(products: seq<string>, search: string)
    ensures var r := FirstMatch(products, search);
            r.Some? ==> r.value < |products| && Trim(products[r.value]) == Trim(search)
                        && forall j :: 0 <= j < r.value ==> Trim(products[j]) != Trim(search)
    ensures FirstMatch(products, search).None? ==>
              forall j :: 0 <= j < |products| ==> Trim(products[j]) != Trim(search)
  {
    if products != [] && Trim(search) != Trim(products[0]) {
      FirstMatchSpec(products[1..], search);
      var r := FirstMatch(products[1..], search);
      forall j | 1 <= j < |products| ensures products[j] == products[1..][j - 1] { }
    }
  }

  /** The inner loop of lines 120-123, with its `break`. */
  method FindProduct(products: seq<string>, search: string) returns (foundIdx: Option<nat>)
    ensures foundIdx == FirstMatch(products, search)
  {
    foundIdx := None;
    var j := 0;
    while j < |products|
      invariant 0 <= j <= |products|
      invariant forall k :: 0 <= k < j ==> Trim(products[k]) != Trim(search)
    {
      if Trim(search) == Trim(products[j]) {
        foundIdx := Some(j);
        FirstMatchAt(products, search, j);
        return;
      }
      j := j + 1;
    }
    FirstMatchAt(products, search, |products|);
  }

  /** The first product equal to the key, or none if there is none, is what
      FirstMatch finds. */
  lemma {:induction false} FirstMatchAt(products: seq<string>, search: string, j: nat)
    requires j <= |products| && forall k :: 0 <= k < j ==> Trim(products[k]) != Trim(search)
    requires j < |products| ==> Trim(products[j]) == Trim(search)
    ensures FirstMatch(products, search) == if j < |products| then Some(j) else None
  {
    if j > 0 {
      assert Trim(search) != Trim(products[0]);
      forall k | 0 <= k < j - 1 ensures Trim(products[1..][k]) != Trim(search) {
        assert products[1..][k] == products[k + 1];
      }
      FirstMatchAt(products[1..], search, j - 1);
    }
  }

  /** The key of a right-hand row: its first cell, cleaned. */
  function RightKey(row: seq<Option<string>>): string
    requires |row| > 0
  {
    CleanBarcode(row[0])
  }

  /** `row.iloc[3] if len(row) > 3 else NaN`. */
  function RightPrice(row: seq<Option<string>>): Option<string> {
    if |row| > 3 then row[3] else None
  }

  predicate NonEmptyRows(right: seq<seq<Option<string>>>) {
    forall i :: 0 <= i < |right| ==> |right[i]| > 0
  }

  function RightKeys(right: seq<seq<Option<string>>>): (keys: seq<string>)
    requires NonEmptyRows(right)
    ensures |keys| == |right|
  {
    if right == [] then [] else RightKeys(right[..|right| - 1]) + [RightKey(right[|right| - 1])]
  }

  lemma {:induction false} RightKeyAt(right: seq<seq<Option<string>>>, i: nat)
    requires NonEmptyRows(right) && i < |right|
    ensures RightKeys(right)[i] == RightKey(right[i])
  {
    var n := |right| - 1;
    if i < n {
      RightKeyAt(right[..n], i);
    }
  }

  function RightPrices(right: seq<seq<Option<string>>>): (ps: seq<Option<string>>)
    ensures |ps| == |right|
  {
    seq(|right|, i requires 0 <= i < |right| => RightPrice(right[i]))
  }

  /** What the lookup says about one right-hand row. */
  datatype Verdict = Unmatched | Outdated | Current

  /** `round(left, 2) == round(right, 2)` on the values the two prices
      compare as: a price that does not parse, or is missing, is NaN and
      equals nothing; two numbers agree when `samePrice` says that they are
      equal to two decimal places. */
  predicate PricesAgree(left: string, right: Option<string>, samePrice: (string, string) -> bool) {
    ParsesAsNumber(left) && right.Some? && ParsesAsNumber(right.value) && samePrice(left, right.value)
  }

  /** A row whose key no left product has is unmatched; a row whose price
      does not agree with that of the first left product with its key is
      outdated. */
  function Classify(products: seq<string>, prices: seq<string>, key: string, rightPrice: Option<string>,
                    samePrice: (string, string) -> bool): (v: Verdict)
    requires |prices| == |products|
    ensures v == Current ==> rightPrice.Some? && ParsesAsNumber(rightPrice.value)
    ensures v != Unmatched ==> exists j :: 0 <= j < |products| && Trim(products[j]) == Trim(key)
  {
    FirstMatchSpec(products, key);
    match FirstMatch(products, key)
    case None => Unmatched
    case Some(j) => if PricesAgree(prices[j], rightPrice, samePrice) then Current else Outdated
  }

  /** A row is unmatched exactly when no left product has its key, and
      outdated exactly when there is a first product with its key and that
      product's price is not the row's. */
  lemma ClassifyMeaning(products: seq<string>, prices: seq<string>, key: string, rightPrice: Option<string>,
                        samePrice: (string, string) -> bool)
    requires |prices| == |products|
    ensures Classify(products, prices, key, rightPrice, samePrice) == Unmatched <==>
            forall j :: 0 <= j < |products| ==> Trim(products[j]) != Trim(key)
    ensures Classify(products, prices, key, rightPrice, samePrice) == Outdated <==>
            exists j :: 0 <= j < |products| && Trim(products[j]) == Trim(key)
                        && (forall k :: 0 <= k < j ==> Trim(products[k]) != Trim(key))
                        && !PricesAgree(prices[j], rightPrice, samePrice)
  {
    FirstMatchSpec(products, key);
    match FirstMatch(products, key)
    case None =>
    case Some(j) =>
      forall j' | 0 <= j' < |products| && Trim(products[j']) == Trim(key)
                  && (forall k :: 0 <= k < j' ==> Trim(products[k]) != Trim(key))
        ensures j' == j
      {
        assert Trim(products[j']) == Trim(key) && Trim(products[j]) == Trim(key);
      }
  }

  datatype Lookup = Lookup(unmatched: seq<nat>, outdated: seq<nat>)

  /** The verdict of every right-hand row, given by its key and price. */
  function Verdicts(products: seq<string>, prices: seq<string>, keys: seq<string>, rightPrices: seq<Option<string>>,
                    samePrice: (string, string) -> bool): (vs: seq<Verdict>)
    requires |prices| == |products| && |rightPrices| == |keys|
    ensures |vs| == |keys|
  {
    seq(|keys|, i requires 0 <= i < |keys| => Classify(products, prices, keys[i], rightPrices[i], samePrice))
  }

  /** Rows 0 to `|vs| - 1`, sorted by their verdicts `vs`. */
  function Tally(vs: seq<Verdict>): Lookup
    decreases |vs|
  {
    if vs == [] then Lookup([], [])
    else Record(Tally(vs[..|vs| - 1]), |vs| - 1, vs[|vs| - 1])
  }

  /** List row `n` under its verdict. */
  function Record(l: Lookup, n: nat, v: Verdict): Lookup {
    match v
    case Unmatched => Lookup(l.unmatched + [n], l.outdated)
    case Outdated => Lookup(l.unmatched, l.outdated + [n])
    case Current => l
  }

  /** The loop of lines 116-131. The price comparison (`round(..., 2)` on
      floats) is the parameter `samePrice`. */
  method LookupRight(products: seq<string>, prices: seq<string>, right: seq<seq<Option<string>>>,
                     samePrice: (string, string) -> bool)
    returns (keepUnmatchIdx: seq<nat>, keepOutdatedIdx: seq<nat>)
    requires |prices| == |products| && NonEmptyRows(right)
    ensures Lookup(keepUnmatchIdx, keepOutdatedIdx)
            == Tally(Verdicts(products, prices, RightKeys(right), RightPrices(right), samePrice))
  {
    ghost var vs := Verdicts(products, prices, RightKeys(right), RightPrices(right), samePrice);
    keepUnmatchIdx, keepOutdatedIdx := [], [];
    var i := 0;
    while i < |right|
      invariant 0 <= i <= |right|
      invariant Lookup(keepUnmatchIdx, keepOutdatedIdx) == Tally(vs[..i])
    {
      var verdict := CheckRow(products, prices, right, i, samePrice);
      ghost var before := Lookup(keepUnmatchIdx, keepOutdatedIdx);
      if verdict == Unmatched {
        keepUnmatchIdx := keepUnmatchIdx + [i];
      } else if verdict == Outdated {
        keepOutdatedIdx := keepOutdatedIdx + [i];
      }
      assert Lookup(keepUnmatchIdx, keepOutdatedIdx) == Record(before, i, verdict);
      assert vs[..i + 1][..i] == vs[..i];
      i := i + 1;
    }
    assert vs[..|right|] == vs;
  }

  /** The body of that loop for one row: look its key up, then compare
      prices. */
  method CheckRow(products: seq<string>, prices: seq<string>, right: seq<seq<Option<string>>>, i: nat,
                  samePrice: (string, string) -> bool) returns (verdict: Verdict)
    requires |prices| == |products| && NonEmptyRows(right) && i < |right|
    ensures verdict == Classify(products, prices, RightKeys(right)[i], RightPrices(right)[i], samePrice)
  {
    var row := right[i];
    RightKeyAt(right, i);
    var search := CleanBarcode(row[0]);
    var foundIdx := FindProduct(products, search);
    if foundIdx.None? {
      verdict := Unmatched;
    } else {
      var leftPrice := prices[foundIdx.value];
      var rightPrice := if |row| > 3 then row[3] else None;
      var leftIsNumber := ParsesAsNumber(leftPrice);
      var rightIsNumber := rightPrice.Some? && ParsesAsNumber(rightPrice.value);
      if !(leftIsNumber && rightIsNumber && samePrice(leftPrice, rightPrice.value)) {
        verdict := Outdated;
      } else {
        verdict := Current;
      }
    }
  }

  /** Each right-hand row is sorted by its own verdict alone: it is listed as
      unmatched exactly when its verdict says so, likewise for outdated, and
      nothing else is listed. */
  lemma LookupClassifies(products: seq<string>, prices: seq<string>, keys: seq<string>,
                          rightPrices: seq<Option<string>>, samePrice: (string, string) -> bool)
    requires |prices| == |products| && |rightPrices| == |keys|
    ensures forall i :: 0 <= i < |keys| ==>
              ((i in Tally(Verdicts(products, prices, keys, rightPrices, samePrice)).unmatched)
               <==> Classify(products, prices, keys[i], rightPrices[i], samePrice) == Unmatched)
    ensures forall i :: 0 <= i < |keys| ==>
              ((i in Tally(Verdicts(products, prices, keys, rightPrices, samePrice)).outdated)
               <==> Classify(products, prices, keys[i], rightPrices[i], samePrice) == Outdated)
    ensures forall x :: x in Tally(Verdicts(products, prices, keys, rightPrices, samePrice)).unmatched ==> x < |keys|
    ensures forall x :: x in Tally(Verdicts(products, prices, keys, rightPrices, samePrice)).outdated ==> x < |keys|
  {
    TallyMembers(Verdicts(products, prices, keys, rightPrices, samePrice));
  }

  /** A row is listed exactly under its own verdict, and only rows that
      exist are listed. */
  lemma {:induction false} TallyMembers(vs: seq<Verdict>)
    ensures forall i :: 0 <= i < |vs| ==> (i in Tally(vs).unmatched <==> vs[i] == Unmatched)
    ensures forall i :: 0 <= i < |vs| ==> (i in Tally(vs).outdated <==> vs[i] == Outdated)
    ensures forall x :: x in Tally(vs).unmatched ==> x < |vs|
    ensures forall x :: x in Tally(vs).outdated ==> x < |vs|
    decreases |vs|
  {
    if vs != [] {
      TallyMembers(vs[..|vs| - 1]);
      RecordMembers(Tally(vs[..|vs| - 1]), |vs| - 1, vs[|vs| - 1]);
    }
  }

  /** Recording row `n` adds it to the list its verdict names, and to no other. */
  lemma RecordMembers(l: Lookup, n: nat, v: Verdict)
    ensures forall x :: x in Record(l, n, v).unmatched <==> x in l.unmatched || (x == n && v == Unmatched)
    ensures forall x :: x in Record(l, n, v).outdated <==> x in l.outdated || (x == n && v == Outdated)
  {
  }

  /** A matched row whose price, or whose product's price, does not read as
      a number (or that has no price column) is listed as outdated, whatever
      the comparison of numbers says: NaN differs from everything. */
  lemma UnreadablePriceOutdated(products: seq<string>, prices: seq<string>, keys: seq<string>,
                                rightPrices: seq<Option<string>>, samePrice: (string, string) -> bool,
                                i: nat, j: nat)
    requires |prices| == |products| && |rightPrices| == |keys| && i < |keys|
    requires j < |products| && Trim(products[j]) == Trim(keys[i])
    requires forall k :: 0 <= k < j ==> Trim(products[k]) != Trim(keys[i])
    requires !ParsesAsNumber(prices[j]) || rightPrices[i].None? || !ParsesAsNumber(rightPrices[i].value)
    ensures i in Tally(Verdicts(products, prices, keys, rightPrices, samePrice)).outdated
  {
    FirstMatchAt(products, keys[i], j);
    LookupClassifies(products, prices, keys, rightPrices, samePrice);
  }

  /** The left table is read, never consumed: two right-hand rows with the
      same key and price are listed alike. */
  lemma EqualKeysClassifiedAlike(products: seq<string>, prices: seq<string>, keys: seq<string>,
                                 rightPrices: seq<Option<string>>,
                                 samePrice: (string, string) -> bool, i1: nat, i2: nat)
    requires |prices| == |products| && |rightPrices| == |keys|
    requires i1 < |keys| && i2 < |keys| && keys[i1] == keys[i2] && rightPrices[i1] == rightPrices[i2]
    ensures i1 in Tally(Verdicts(products, prices, keys, rightPrices, samePrice)).unmatched
            <==> i2 in Tally(Verdicts(products, prices, keys, rightPrices, samePrice)).unmatched
    ensures i1 in Tally(Verdicts(products, prices, keys, rightPrices, samePrice)).outdated
            <==> i2 in Tally(Verdicts(products, prices, keys, rightPrices, samePrice)).outdated
  {
    TallyMembers(Verdicts(products, prices, keys, rightPrices, samePrice));
  }

  // ===========================================================================
  // hide_rows (product_price_checker.py:144-149)

  /** The row state of an output worksheet: its last row (1-based) and which
      rows are hidden. */
  class Sheet {
    var maxRow: nat
    var hidden: set<nat>

    constructor(maxRow: nat)
      ensures this.maxRow == maxRow && hidden == {}
    {
      this.maxRow := maxRow;
      hidden := {};
    }

    /** Hide every data row (2 to maxRow) whose table index `r - 2` is not
        among `keepIndices`; the header row 1 and kept rows are untouched. */
    method HideRows(keepIndices: seq<nat>)
      modifies this
      ensures maxRow == old(maxRow)
      ensures forall r :: 2 <= r <= maxRow ==> (r in hidden <==> r in old(hidden) || (r - 2) !in keepIndices)
      ensures forall r :: (r < 2 || r > maxRow) ==> (r in hidden <==> r in old(hidden))
    {
      var totalRows := maxRow;
      var keepExcelRows := seq(|keepIndices|, k requires 0 <= k < |keepIndices| => keepIndices[k] + 2);
      assert forall r :: r in keepExcelRows <==> r >= 2 && (r - 2) in keepIndices by {
        forall r ensures r in keepExcelRows <==> r >= 2 && (r - 2) in keepIndices {
          if r >= 2 && (r - 2) in keepIndices {
            var k :| 0 <= k < |keepIndices| && keepIndices[k] == r - 2;
            assert keepExcelRows[k] == r;
          }
        }
      }
      var r := 2;
      while r <= totalRows
        invariant 2 <= r <= totalRows + 1 || (r == 2 && totalRows < 2)
        invariant maxRow == totalRows
        invariant forall q :: 2 <= q < r ==> (q in hidden <==> q in old(hidden) || (q - 2) !in keepIndices)
        invariant forall q :: (q < 2 || q >= r) ==> (q in hidden <==> q in old(hidden))
      {
        if r !in keepExcelRows {
          hidden := hidden + {r};
        }
        r := r + 1;
      }
    }
  }
}
