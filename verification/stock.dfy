/** The stock side of the reconciliation (order_check.py:296-397, 652-693):
    read the stock sheet, match each summarised line item against it, each
    stock entry being used up by the first item that claims it, and label
    the bill range and bill count. */
module Stock {
  import opened Text
  import opened Cells
  import opened Express
  import opened Quantity

  // ===========================================================================
  // SafeInt (order_check.py:689-693)

  /** `int(x)`, with `None` where Python raises: a number is itself, text is
      read as an optionally signed decimal numeral, an empty cell has none. */
  function SafeInt(c: Cell): (r: Option<int>)
    ensures c.Num? ==> r == Some(c.n)
    ensures (c.Empty? || (c.Str? && AllSpace(c.text))) ==> r.None?
  {
    match c
    case Num(n) => Some(n)
    case Str(s) => TrimEmpty(s); ParseInt(s)
    case Empty => None
  }

  /** A barcode printed as text and the same barcode stored as a number
      compare equal. */
  lemma SafeIntTextAndNumber(n: nat)
    ensures SafeInt(Str(ToDecimal(n))) == SafeInt(Num(n)) == Some(n)
  {
    ParseIntToDecimal(n);
  }

  /** Leading zeros are lost: "0885" and "885" are the same barcode to the
      matcher. */
  lemma SafeIntDropsLeadingZero(s: string)
    requires IsDigits(s)
    ensures SafeInt(Str("0" + s)) == SafeInt(Str(s)) != None
  {
    ParseIntLeadingZero(s);
    DigitsHaveNoSpace(s);
  }

  // ===========================================================================
  // GetStockData (order_check.py:652-685)

  /** Columns B, C and F of a stock-sheet row: barcode, name, quantity on hand. */
  datatype StockRow = StockRow(barcode: Cell, name: Cell, onHand: Cell)

  function StockOf(row: seq<Cell>): StockRow {
    StockRow(CellAt(row, 1), CellAt(row, 2), CellAt(row, 5))
  }

  predicate IsBlankStock(s: StockRow) {
    IsBlankCell(s.barcode) && IsBlankCell(s.name) && IsBlankCell(s.onHand)
  }

  /** The stock entries of sheet rows 1 to `end - 1` (row 0 is the header),
      leaving out those whose three columns are all blank. */
  function StockRowsUpTo(sheet: seq<seq<Cell>>, end: nat): (data: seq<StockRow>)
    requires end <= |sheet|
    ensures |data| <= end
    ensures forall k :: 0 <= k < |data| ==> !IsBlankStock(data[k])
  {
    if end <= 1 then []
    else
      var s := StockOf(sheet[end - 1]);
      StockRowsUpTo(sheet, end - 1) + (if IsBlankStock(s) then [] else [s])
  }

  function StockRows(sheet: seq<seq<Cell>>): seq<StockRow> {
    StockRowsUpTo(sheet, |sheet|)
  }

  method GetStockData(sheet: seq<seq<Cell>>) returns (data: seq<StockRow>)
    ensures data == StockRows(sheet)
  {
    data := [];
    var r := 1;
    if |sheet| == 0 {
      return;
    }
    while r < |sheet|
      invariant 1 <= r <= |sheet|
      invariant data == StockRowsUpTo(sheet, r)
    {
      var rowValue := StockOf(sheet[r]);
      if !IsBlankStock(rowValue) {
        data := data + [rowValue];
      }
      r := r + 1;
    }
  }

  /** Every stock entry comes from a data row of the sheet, in sheet order. */
  lemma {:induction false} StockRowsFromSheet(sheet: seq<seq<Cell>>, end: nat)
    requires end <= |sheet|
    ensures forall k :: 0 <= k < |StockRowsUpTo(sheet, end)| ==>
              FromSheet(sheet, end, StockRowsUpTo(sheet, end)[k])
  {
    if end > 1 {
      StockRowsFromSheet(sheet, end - 1);
      var prev := StockRowsUpTo(sheet, end - 1);
      var data := StockRowsUpTo(sheet, end);
      forall k | 0 <= k < |data|
        ensures FromSheet(sheet, end, data[k])
      {
        if k < |prev| {
          assert FromSheet(sheet, end - 1, prev[k]);
          var r :| 1 <= r < end - 1 && prev[k] == StockOf(sheet[r]);
          assert data[k] == prev[k];
        } else {
          assert data[k] == StockOf(sheet[end - 1]);
        }
      }
    }
  }

  predicate FromSheet(sheet: seq<seq<Cell>>, end: nat, s: StockRow)
    requires end <= |sheet|
  {
    exists r :: 1 <= r < end && s == StockOf(sheet[r])
  }

  /** Every data row whose three columns are not all blank gives an entry. */
  lemma {:induction false} StockRowsCoverSheet(sheet: seq<seq<Cell>>, end: nat)
    requires end <= |sheet|
    ensures forall r :: 1 <= r < end && !IsBlankStock(StockOf(sheet[r])) ==>
              StockOf(sheet[r]) in StockRowsUpTo(sheet, end)
  {
    if end > 1 {
      StockRowsCoverSheet(sheet, end - 1);
      var prev := StockRowsUpTo(sheet, end - 1);
      var data := StockRowsUpTo(sheet, end);
      forall r | 1 <= r < end && !IsBlankStock(StockOf(sheet[r]))
        ensures StockOf(sheet[r]) in data
      {
        if r < end - 1 {
          var k :| 0 <= k < |prev| && prev[k] == StockOf(sheet[r]);
          assert data[k] == prev[k];
        } else {
          assert data[|data| - 1] == StockOf(sheet[r]);
        }
      }
    }
  }

  // ===========================================================================
  // The consume-once matcher of WriteMainData (order_check.py:336-397)

  /** What the output row of one line item shows: a poisoned barcode split at
      its first '_', the name and quantity on hand of the stock entry it
      claimed, or that no stock entry was found. */
  datatype MatchResult =
    | Poisoned(before: string, after: string)
    | Matched(name: Cell, onHand: Cell)
    | NotFound

  predicate Claims(code: Option<int>, s: StockRow) {
    code.Some? && SafeInt(s.barcode) == code
  }

  /** The first stock entry whose barcode reads as `code`, if any. */
  function FirstClaim(pool: seq<StockRow>, code: Option<int>): (r: Option<nat>)
    ensures r.Some? ==> r.value < |pool| && Claims(code, pool[r.value])
    ensures r.Some? ==> forall j :: 0 <= j < r.value ==> !Claims(code, pool[j])
    ensures r.None? ==> forall j :: 0 <= j < |pool| ==> !Claims(code, pool[j])
  {
    if pool == [] then None
    else if Claims(code, pool[0]) then Some(0)
    else match FirstClaim(pool[1..], code)
      case None => None
      case Some(j) => Some(j + 1)
  }

  function Remove<T>(s: seq<T>, j: nat): seq<T>
    requires j < |s|
  {
    s[..j] + s[j + 1..]
  }

  /** One line item against the stock that is left: its result and the stock
      that is left after it. */
  function MatchOne(item: Summary, pool: seq<StockRow>): (r: (seq<StockRow>, MatchResult))
    ensures r.1.Matched? ==> |r.0| + 1 == |pool|
    ensures !r.1.Matched? ==> r.0 == pool
  {
    match Find(item.barcode, "_")
    case Some(i) => (pool, Poisoned(item.barcode[..i], item.barcode[i + 1..]))
    case None =>
      match FirstClaim(pool, SafeInt(Str(item.barcode)))
      case None => (pool, NotFound)
      case Some(j) => (Remove(pool, j), Matched(pool[j].name, pool[j].onHand))
  }

  /** All line items in order, each against the stock the earlier ones left. */
  function MatchAll(items: seq<Summary>, pool: seq<StockRow>): (r: (seq<StockRow>, seq<MatchResult>))
    ensures |r.1| == |items|
  {
    if items == [] then (pool, [])
    else
      var step := MatchOne(items[0], pool);
      var tail := MatchAll(items[1..], step.0);
      (tail.0, [step.1] + tail.1)
  }

  /** The search loop of lines 374-390: the first claimable entry, if any. */
  method ClaimFirst(stockData: seq<StockRow>, barcode: string) returns (found: Option<nat>)
    ensures found == FirstClaim(stockData, SafeInt(Str(barcode)))
  {
    found := None;
    var search := 0;
    while search < |stockData|
      invariant 0 <= search <= |stockData|
      invariant FirstClaim(stockData, SafeInt(Str(barcode))) ==
                FirstClaimFrom(stockData[search..], SafeInt(Str(barcode)), search)
    {
      var barcodeBill := SafeInt(Str(barcode));
      var barcodeStock := SafeInt(stockData[search].barcode);
      if barcodeBill.Some? && barcodeStock.Some? && barcodeBill == barcodeStock {
        found := Some(search);
        return;
      }
      assert stockData[search..][1..] == stockData[search + 1..];
      search := search + 1;
    }
  }

  /** FirstClaim on a suffix that starts at index `offset` of the whole pool. */
  function FirstClaimFrom(suffix: seq<StockRow>, code: Option<int>, offset: nat): Option<nat> {
    match FirstClaim(suffix, code)
    case None => None
    case Some(j) => Some(j + offset)
  }

  /** The matching part of WriteMainData: every line item in order, with
      `del stock_data[search]` on each successful claim. */
  method WriteMainData(items: seq<Summary>, stock: seq<StockRow>)
    returns (results: seq<MatchResult>, stockData: seq<StockRow>)
    ensures (stockData, results) == MatchAll(items, stock)
  {
    stockData := stock;
    results := [];
    var row := 0;
    assert items[0..] == items;
    assert [] + MatchAll(items, stock).1 == MatchAll(items, stock).1;
    while row < |items|
      invariant 0 <= row <= |items|
      invariant MatchAll(items, stock) ==
                (MatchAll(items[row..], stockData).0, results + MatchAll(items[row..], stockData).1)
    {
      ghost var before := stockData;
      var res;
      res, stockData := MatchItem(items[row], stockData);
      MatchAllStep(items, row, before);
      assert results + ([res] + MatchAll(items[row + 1..], stockData).1) ==
             (results + [res]) + MatchAll(items[row + 1..], stockData).1;
      results := results + [res];
      row := row + 1;
    }
    assert results + [] == results;
  }

  /** The body of that loop for one line item: a poisoned barcode is split at
      its `_`; any other claims the first claimable entry, which is removed. */
  method MatchItem(item: Summary, stockData: seq<StockRow>) returns (res: MatchResult, left: seq<StockRow>)
    ensures (left, res) == MatchOne(item, stockData)
  {
    left := stockData;
    var underscore := Find(item.barcode, "_");
    if underscore.Some? {
      var i := underscore.value;
      res := Poisoned(item.barcode[..i], item.barcode[i + 1..]);
    } else {
      var search := ClaimFirst(stockData, item.barcode);
      if search.Some? {
        res := Matched(stockData[search.value].name, stockData[search.value].onHand);
        left := stockData[..search.value] + stockData[search.value + 1..];
      } else {
        res := NotFound;
      }
    }
  }

  /** MatchAll from line item `row` on is one MatchOne, then the rest. */
  lemma MatchAllStep(items: seq<Summary>, row: nat, pool: seq<StockRow>)
    requires row < |items|
    ensures MatchAll(items[row..], pool)
            == (MatchAll(items[row + 1..], MatchOne(items[row], pool).0).0,
                [MatchOne(items[row], pool).1] + MatchAll(items[row + 1..], MatchOne(items[row], pool).0).1)
  {
    assert items[row..][0] == items[row] && items[row..][1..] == items[row + 1..];
  }

  /** The stock entries that are left are the original ones, in their
      original order, less one per matched item. */
  lemma {:induction false} MatchAllConsumesOnce(items: seq<Summary>, pool: seq<StockRow>)
    ensures var (left, results) := MatchAll(items, pool);
            |left| + CountMatched(results) == |pool| && IsSubseq(left, pool)
  {
    if items != [] {
      var (rest, res) := MatchOne(items[0], pool);
      MatchAllConsumesOnce(items[1..], rest);
      var (left, results) := MatchAll(items[1..], rest);
      assert MatchAll(items, pool).1 == [res] + results;
      assert ([res] + results)[1..] == results;
      if res.Matched? {
        var j: nat :| j < |pool| && rest == Remove(pool, j);
        RemoveIsSubseq(pool, j);
        SubseqTrans(left, rest, pool);
      } else {
        assert rest == pool;
      }
    } else {
      SubseqRefl(pool);
    }
  }

  function CountMatched(results: seq<MatchResult>): nat {
    if results == [] then 0 else (if results[0].Matched? then 1 else 0) + CountMatched(results[1..])
  }

  lemma {:induction false} SubseqRefl<T>(s: seq<T>)
    ensures IsSubseq(s, s)
  {
    if s != [] {
      SubseqRefl(s[1..]);
    }
  }

  lemma {:induction false} RemoveIsSubseq<T>(s: seq<T>, j: nat)
    requires j < |s|
    ensures IsSubseq(Remove(s, j), s)
  {
    if j == 0 {
      assert Remove(s, 0) == s[1..];
      SubseqRefl(s[1..]);
    } else {
      RemoveIsSubseq(s[1..], j - 1);
      assert Remove(s, j)[0] == s[0];
      assert Remove(s, j)[1..] == Remove(s[1..], j - 1);
    }
  }

  lemma {:induction false} SubseqTrans<T>(a: seq<T>, b: seq<T>, c: seq<T>)
    requires IsSubseq(a, b) && IsSubseq(b, c)
    ensures IsSubseq(a, c)
    decreases |c|
  {
    if a != [] && c != [] {
      if b[0] == c[0] && IsSubseq(b[1..], c[1..]) {
        if a[0] == b[0] && IsSubseq(a[1..], b[1..]) {
          SubseqTrans(a[1..], b[1..], c[1..]);
        } else {
          SubseqTrans(a, b[1..], c[1..]);
        }
      } else {
        SubseqTrans(a, b, c[1..]);
      }
    }
  }

  /** A row poisoned by the repairer is reported as poisoned, split back into
      the thirteen zeros and the original text, and takes no stock. */
  lemma PoisonedBarcodeRoundTrip(t: string, qty: int, pool: seq<StockRow>)
    ensures MatchOne(Summary(PoisonPrefix + t, qty), pool) == (pool, Poisoned("0000000000000", t))
  {
    var b := PoisonPrefix + t;
    FindChar(b, '_', 13);
    assert b[..13] == "0000000000000" && b[14..] == t;
  }

  /** Two line items with the same barcode claim the first and the second
      stock entry with that barcode. */
  lemma EqualDemandsClaimSuccessiveEntries(item: Summary, pool: seq<StockRow>, j1: nat, j2: nat)
    requires Find(item.barcode, "_").None?
    requires j1 < j2 < |pool|
    requires Claims(SafeInt(Str(item.barcode)), pool[j1]) && Claims(SafeInt(Str(item.barcode)), pool[j2])
    requires forall j :: 0 <= j < j2 && j != j1 ==> !Claims(SafeInt(Str(item.barcode)), pool[j])
    ensures MatchAll([item, item], pool).1 ==
            [Matched(pool[j1].name, pool[j1].onHand), Matched(pool[j2].name, pool[j2].onHand)]
    ensures MatchAll([item, item], pool).0 == Remove(Remove(pool, j2), j1)
  {
    ClaimTwice(item, pool, j1, j2);
    MatchAllTwo(item, item, pool);
  }

  /** The two claims of two equal demands, one at a time. */
  lemma ClaimTwice(item: Summary, pool: seq<StockRow>, j1: nat, j2: nat)
    requires Find(item.barcode, "_").None?
    requires j1 < j2 < |pool|
    requires Claims(SafeInt(Str(item.barcode)), pool[j1]) && Claims(SafeInt(Str(item.barcode)), pool[j2])
    requires forall j :: 0 <= j < j2 && j != j1 ==> !Claims(SafeInt(Str(item.barcode)), pool[j])
    ensures MatchOne(item, pool) == (Remove(pool, j1), Matched(pool[j1].name, pool[j1].onHand))
    ensures MatchOne(item, Remove(pool, j1))
            == (Remove(Remove(pool, j2), j1), Matched(pool[j2].name, pool[j2].onHand))
  {
    var code := SafeInt(Str(item.barcode));
    FirstClaimIs(pool, code, j1);
    SecondClaim(pool, code, j1, j2);
    MatchOneClaims(item, pool, j1);
    MatchOneClaims(item, Remove(pool, j1), j2 - 1);
    RemoveTwice(pool, j1, j2);
  }

  lemma RemoveTwice<T>(s: seq<T>, j1: nat, j2: nat)
    requires j1 < j2 < |s|
    ensures Remove(s, j1)[j2 - 1] == s[j2]
    ensures Remove(Remove(s, j1), j2 - 1) == Remove(Remove(s, j2), j1)
  {
  }

  /** Two items are matched one after the other. */
  lemma MatchAllTwo(a: Summary, b: Summary, pool: seq<StockRow>)
    ensures MatchAll([a, b], pool) ==
            (MatchOne(b, MatchOne(a, pool).0).0, [MatchOne(a, pool).1, MatchOne(b, MatchOne(a, pool).0).1])
  {
    var first := MatchOne(a, pool);
    var second := MatchOne(b, first.0);
    assert [b][0] == b && [b][1..] == [];
    assert MatchAll([], second.0) == (second.0, []);
    assert [second.1] + [] == [second.1];
    assert MatchAll([b], first.0) == (second.0, [second.1]);
    assert [a, b][0] == a && [a, b][1..] == [b];
    assert [first.1] + [second.1] == [first.1, second.1];
  }

  lemma MatchOneClaims(item: Summary, pool: seq<StockRow>, j: nat)
    requires Find(item.barcode, "_").None?
    requires FirstClaim(pool, SafeInt(Str(item.barcode))) == Some(j)
    ensures j < |pool| && MatchOne(item, pool) == (Remove(pool, j), Matched(pool[j].name, pool[j].onHand))
  {
  }

  /** Once the first claimable entry is gone, the next one is found. */
  lemma SecondClaim(pool: seq<StockRow>, code: Option<int>, j1: nat, j2: nat)
    requires j1 < j2 < |pool| && Claims(code, pool[j2])
    requires forall j :: 0 <= j < j2 && j != j1 ==> !Claims(code, pool[j])
    ensures FirstClaim(Remove(pool, j1), code) == Some(j2 - 1)
  {
    var rest := Remove(pool, j1);
    assert rest[j2 - 1] == pool[j2];
    forall k | 0 <= k < j2 - 1 ensures !Claims(code, rest[k]) {
      if k < j1 { assert rest[k] == pool[k]; } else { assert rest[k] == pool[k + 1]; }
    }
    FirstClaimIs(rest, code, j2 - 1);
  }

  lemma FirstClaimIs(pool: seq<StockRow>, code: Option<int>, j: nat)
    requires j < |pool| && Claims(code, pool[j])
    requires forall k :: 0 <= k < j ==> !Claims(code, pool[k])
    ensures FirstClaim(pool, code) == Some(j)
  {
  }

  // ===========================================================================
  // Bill range and bill count (order_check.py:302, 318)

  /** The bill range shown in cell B2: the first and the last bill number
      joined by an en dash; no label when there are no bills (the source
      fails with an `IndexError` there). */
  function BillRange(bills: seq<string>): (r: Option<string>)
    ensures r.None? <==> bills == []
    ensures r.Some? ==> bills[0] <= r.value
    ensures r.Some? ==> |r.value| > |bills[|bills| - 1]| &&
                        r.value[|r.value| - |bills[|bills| - 1]|..] == bills[|bills| - 1]
    ensures r.Some? ==> r.value == bills[0] + " \U{2013} " + bills[|bills| - 1]
  {
    if bills == [] then None
    else Some(bills[0] + " \U{2013} " + bills[|bills| - 1])
  }

  /** The bill count shown in cell E4, `str(len(bill_numbers))`. */
  function BillCount(bills: seq<string>): (r: string)
    ensures ParseInt(r) == Some(|bills|)
  {
    ParseIntToDecimal(|bills|);
    ToDecimal(|bills|)
  }
}
