/** The quantity aggregator of the sales export (order_check.py:597-650):
    read the pack counts written as "55.แพ็ค" in a token row, and group the
    line items by barcode in order of first appearance. */
module Quantity {
  import opened Text
  import opened Express

  /** ".แพ็ค" ("pack"), the only unit suffix the aggregator recognises. */
  const PackSuffix := ".\U{0E41}\U{0E1E}\U{0E47}\U{0E04}"

  // ===========================================================================
  // Pack quantity of a row (order_check.py:597-616)

  /** What one token contributes: the text before its first ".แพ็ค",
      stripped, with commas removed, read as a number; nothing when the
      suffix is absent, the text is empty or it does not parse. */
  function TokenQty(token: string): (q: int)
    ensures q != 0 ==> exists i :: 0 <= i <= |token| && OccursAt(token, PackSuffix, i)
  {
    match Find(token, PackSuffix)
    case None => 0
    case Some(i) =>
      var before := Keep(Trim(token[..i]), IsNotComma);
      if before == [] then 0
      else match ParseInt(before)
        case None => 0
        case Some(n) => n
  }

  /** The quantity of a row: the sum of what its tokens contribute. */
  function RowQty(row: TokenRow): int {
    if row == [] then 0 else RowQty(row[..|row| - 1]) + TokenQty(row[|row| - 1])
  }

  /** The accumulation loop of ExtractPackQtyFromRow. */
  method ExtractPackQtyFromRow(row: TokenRow) returns (qty: int)
    ensures qty == RowQty(row)
  {
    qty := 0;
    var i := 0;
    while i < |row|
      invariant 0 <= i <= |row|
      invariant qty == RowQty(row[..i])
    {
      var before: string;
      var found := Find(row[i], PackSuffix);
      if found.Some? {
        before := Keep(Trim(row[i][..found.value]), IsNotComma);
        if before != [] {
          var parsed := ParseInt(before);
          if parsed.Some? {
            qty := qty + parsed.value;
          }
        }
      }
      assert row[..i + 1][..i] == row[..i];
      i := i + 1;
    }
    assert row[..|row|] == row;
  }

  /** The quantity of a row is additive over any split of the row. */
  lemma {:induction false} RowQtyAppend(a: TokenRow, b: TokenRow)
    ensures RowQty(a + b) == RowQty(a) + RowQty(b)
    decreases |b|
  {
    if b != [] {
      var n := |b| - 1;
      assert (a + b)[..|a + b| - 1] == a + b[..n];
      RowQtyAppend(a, b[..n]);
    } else {
      assert a + b == a;
    }
  }

  /** A row without a ".แพ็ค" token has quantity 0. */
  lemma {:induction false} RowQtyWithoutPacks(row: TokenRow)
    requires forall k :: 0 <= k < |row| ==> Find(row[k], PackSuffix).None?
    ensures RowQty(row) == 0
  {
    if row != [] {
      RowQtyWithoutPacks(row[..|row| - 1]);
    }
  }

  /** "n.แพ็ค" contributes n: the number is read back from its decimal text. */
  lemma PackTokenCounts(n: nat)
    ensures TokenQty(ToDecimal(n) + PackSuffix) == n
  {
    var d := ToDecimal(n);
    var t := d + PackSuffix;
    assert t[..|d|] == d;
    assert OccursAt(t, PackSuffix, |d|) by {
      assert t[|d|..|d| + |PackSuffix|] == PackSuffix;
    }
    forall j | 0 <= j < |d| ensures !OccursAt(t, PackSuffix, j) {
      assert IsDigit(t[j]) && t[j] != PackSuffix[0];
    }
    FindFirst(t, PackSuffix, |d|);
    DigitsHaveNoSpace(d);
    assert Keep(d, IsNotComma) == d;
    ParseIntToDecimal(n);
  }

  // ===========================================================================
  // Grouping by barcode (order_check.py:618-650)

  datatype Summary = Summary(barcode: string, sumQty: int)

  /** A row the grouping loop looks at: it has a barcode at index 2. */
  predicate Counted(row: TokenRow) { |row| >= 4 }

  predicate Distinct<T(==)>(s: seq<T>) {
    forall i, j :: 0 <= i < j < |s| ==> s[i] != s[j]
  }

  /** The barcodes of the counted rows, each once, in order of first appearance. */
  function FirstSeen(rows: seq<TokenRow>): seq<string> {
    if rows == [] then []
    else
      var n := |rows| - 1;
      var before := FirstSeen(rows[..n]);
      if Counted(rows[n]) && rows[n][2] !in before then before + [rows[n][2]] else before
  }

  /** The summary keys are distinct, and they are exactly the barcodes of
      the counted rows. */
  lemma {:induction false} FirstSeenSpec(rows: seq<TokenRow>)
    ensures Distinct(FirstSeen(rows))
    ensures forall b :: b in FirstSeen(rows) <==> exists i :: 0 <= i < |rows| && Counted(rows[i]) && rows[i][2] == b
  {
    if rows != [] {
      var n := |rows| - 1;
      FirstSeenSpec(rows[..n]);
      assert forall i :: 0 <= i < n ==> rows[..n][i] == rows[i];
    }
  }

  /** The summed quantity of the counted rows with barcode `b`. */
  function QtyOf(rows: seq<TokenRow>, b: string): int {
    if rows == [] then 0
    else
      var n := |rows| - 1;
      QtyOf(rows[..n], b) + (if Counted(rows[n]) && rows[n][2] == b then RowQty(rows[n]) else 0)
  }

  /** The summed quantity of all counted rows. */
  function TotalQty(rows: seq<TokenRow>): int {
    if rows == [] then 0
    else
      var n := |rows| - 1;
      TotalQty(rows[..n]) + (if Counted(rows[n]) then RowQty(rows[n]) else 0)
  }

  /** One summary per barcode of `bs`, with its quantity in `rows`. */
  function Summarize(bs: seq<string>, rows: seq<TokenRow>): (ss: seq<Summary>)
    ensures |ss| == |bs| && forall k :: 0 <= k < |ss| ==> ss[k].barcode == bs[k]
  {
    seq(|bs|, k requires 0 <= k < |bs| => Summary(bs[k], QtyOf(rows, bs[k])))
  }

  function TotalOf(ss: seq<Summary>): int {
    if ss == [] then 0 else TotalOf(ss[..|ss| - 1]) + ss[|ss| - 1].sumQty
  }

  /** The OrderedDict loop of SummariseByBarcode: `order` holds the keys in
      insertion order and `sums` the running sums. */
  method SummariseByBarcode(rows: seq<TokenRow>) returns (out: seq<Summary>)
    ensures out == Summarize(FirstSeen(rows), rows)
  {
    var order: seq<string> := [];
    var sums: map<string, int> := map[];
    var i := 0;
    while i < |rows|
      invariant 0 <= i <= |rows|
      invariant order == FirstSeen(rows[..i])
      invariant forall b :: b in sums <==> b in order
      invariant forall b :: b in sums ==> sums[b] == QtyOf(rows[..i], b)
    {
      var row := rows[i];
      assert rows[..i + 1][..i] == rows[..i];
      if |row| >= 4 {
        var barcode := row[2];
        if barcode !in sums {
          order := order + [barcode];
          sums := sums[barcode := 0];
          QtyOfUnseen(rows[..i], barcode);
        }
        var qty := ExtractPackQtyFromRow(row);
        sums := sums[barcode := sums[barcode] + qty];
      }
      i := i + 1;
    }
    assert rows[..|rows|] == rows;
    out := [];
    var k := 0;
    while k < |order|
      invariant 0 <= k <= |order|
      invariant out == Summarize(order[..k], rows)
    {
      out := out + [Summary(order[k], sums[order[k]])];
      k := k + 1;
    }
    assert order[..|order|] == order;
  }

  /** A barcode that has not been seen yet has no quantity so far. */
  lemma {:induction false} QtyOfUnseen(rows: seq<TokenRow>, b: string)
    requires b !in FirstSeen(rows)
    ensures QtyOf(rows, b) == 0
  {
    if rows != [] {
      var n := |rows| - 1;
      assert forall i :: 0 <= i < n ==> rows[..n][i] == rows[i];
      QtyOfUnseen(rows[..n], b);
    }
  }

  /** The barcodes seen in a prefix of the rows come first, in the same
      order: this is what "in order of first appearance" means. */
  lemma {:induction false} FirstSeenPrefix(rows: seq<TokenRow>, m: nat)
    requires m <= |rows|
    ensures FirstSeen(rows[..m]) <= FirstSeen(rows)
    decreases |rows| - m
  {
    if m < |rows| {
      FirstSeenPrefix(rows, m + 1);
      assert rows[..m + 1][..m] == rows[..m];
    } else {
      assert rows[..m] == rows;
    }
  }

  /** Adding one row to the table adds its quantity to the summary of its
      barcode, when that barcode is listed, and to nothing else. */
  lemma {:induction false} SummarizeStep(bs: seq<string>, rows: seq<TokenRow>, r: TokenRow)
    requires Distinct(bs)
    ensures TotalOf(Summarize(bs, rows + [r])) ==
            TotalOf(Summarize(bs, rows)) + (if Counted(r) && r[2] in bs then RowQty(r) else 0)
    decreases |bs|
  {
    if bs != [] {
      var n := |bs| - 1;
      assert Distinct(bs[..n]);
      SummarizeStep(bs[..n], rows, r);
      SummarizeLast(bs, rows + [r]);
      SummarizeLast(bs, rows);
      QtyOfAppend(rows, r, bs[n]);
      assert bs == bs[..n] + [bs[n]];
      assert bs[n] !in bs[..n];
    }
  }

  /** The summary of the last barcode comes last. */
  lemma SummarizeLast(bs: seq<string>, rows: seq<TokenRow>)
    requires bs != []
    ensures TotalOf(Summarize(bs, rows))
            == TotalOf(Summarize(bs[..|bs| - 1], rows)) + QtyOf(rows, bs[|bs| - 1])
  {
    assert Summarize(bs, rows)[..|bs| - 1] == Summarize(bs[..|bs| - 1], rows);
  }

  lemma QtyOfAppend(rows: seq<TokenRow>, r: TokenRow, b: string)
    ensures QtyOf(rows + [r], b) == QtyOf(rows, b) + (if Counted(r) && r[2] == b then RowQty(r) else 0)
  {
    assert (rows + [r])[..|rows|] == rows;
  }

  /** Grouping loses and invents nothing: the summed quantities of the
      summaries add up to the quantity of all counted rows. */
  lemma {:induction false} SummariesConserveQty(rows: seq<TokenRow>)
    ensures TotalOf(Summarize(FirstSeen(rows), rows)) == TotalQty(rows)
  {
    if rows != [] {
      var n := |rows| - 1;
      var prev := FirstSeen(rows[..n]);
      FirstSeenSpec(rows[..n]);
      SummariesConserveQty(rows[..n]);
      assert rows == rows[..n] + [rows[n]];
      SummarizeStep(prev, rows[..n], rows[n]);
      if Counted(rows[n]) && rows[n][2] !in prev {
        var b := rows[n][2];
        var bs := prev + [b];
        assert Summarize(bs, rows)[..|prev|] == Summarize(prev, rows);
        QtyOfUnseen(rows[..n], b);
      }
    }
  }
}
