/** Barcode normalisation of the price-list checker
    (product_price_checker.py:17-45): `clean_barcode` and `is_integer_token`.
    A missing cell (pandas' NaN) is `None`. */
module Barcode {
  import opened Text

  // ===========================================================================
  // Unicode space runs (product_price_checker.py:17, 26)

  /** SPACE_CHARS: the ASCII space, the no-break space, the Ogham space mark,
      the spaces U+2000 to U+200A, the narrow no-break space, the medium
      mathematical space and the ideographic space. */
  predicate IsSpaceChar(c: char) {
    c == ' ' || c == '\U{A0}' || c == '\U{1680}' || ('\U{2000}' <= c <= '\U{200A}')
    || c == '\U{202F}' || c == '\U{205F}' || c == '\U{3000}'
  }

  predicate NotSpaceChar(c: char) { !IsSpaceChar(c) }

  /** Length of the leading run of SPACE_CHARS. */
  function SpaceRun(s: string): (n: nat)
    ensures n <= |s|
    ensures forall i :: 0 <= i < n ==> IsSpaceChar(s[i])
    ensures n == |s| || !IsSpaceChar(s[n])
  {
    if s == [] || !IsSpaceChar(s[0]) then 0 else 1 + SpaceRun(s[1..])
  }

  /** `re.sub("[SPACE_CHARS]+", " ", s)`: every run of SPACE_CHARS becomes
      one ASCII space. */
  function CollapseSpaces(s: string): string
    decreases |s|
  {
    if s == [] then []
    else if !IsSpaceChar(s[0]) then [s[0]] + CollapseSpaces(s[1..])
    else [' '] + CollapseSpaces(s[SpaceRun(s)..])
  }

  /** Text in which the only SPACE_CHAR is the ASCII space, never twice in a row. */
  predicate Collapsed(s: string) {
    (forall i :: 0 <= i < |s| && IsSpaceChar(s[i]) ==> s[i] == ' ')
    && (forall i :: 0 <= i < |s| - 1 ==> !(IsSpaceChar(s[i]) && IsSpaceChar(s[i + 1])))
  }

  /** After collapsing, no two SPACE_CHARS are adjacent and every one of them
      is the ASCII space; the other characters are kept, in order. */
  lemma CollapseSpacesSpec(s: string)
    ensures Collapsed(CollapseSpaces(s))
    ensures Keep(CollapseSpaces(s), NotSpaceChar) == Keep(s, NotSpaceChar)
    ensures s != [] ==> CollapseSpaces(s) != [] && (CollapseSpaces(s)[0] == ' ' <==> IsSpaceChar(s[0]))
  {
    CollapseSpacesCollapsed(s);
    CollapseSpacesKeeps(s);
  }

  lemma {:induction false} CollapseSpacesCollapsed(s: string)
    ensures Collapsed(CollapseSpaces(s))
    ensures s != [] ==> CollapseSpaces(s) != [] && (CollapseSpaces(s)[0] == ' ' <==> IsSpaceChar(s[0]))
    decreases |s|
  {
    if s != [] {
      var r := CollapseSpaces(s);
      if !IsSpaceChar(s[0]) {
        CollapseSpacesCollapsed(s[1..]);
        var t := CollapseSpaces(s[1..]);
        assert r == [s[0]] + t;
        forall i | 0 < i < |r| ensures r[i] == t[i - 1] { }
      } else {
        var rest := s[SpaceRun(s)..];
        CollapseSpacesCollapsed(rest);
        var t := CollapseSpaces(rest);
        assert r == [' '] + t;
        assert t != [] ==> !IsSpaceChar(t[0]);
        forall i | 0 < i < |r| ensures r[i] == t[i - 1] { }
      }
    }
  }

  lemma {:induction false} CollapseSpacesKeeps(s: string)
    ensures Keep(CollapseSpaces(s), NotSpaceChar) == Keep(s, NotSpaceChar)
    decreases |s|
  {
    if s == [] {
    } else if IsSpaceChar(s[0]) {
      CollapseSpacesKeeps(s[SpaceRun(s)..]);
      KeepsAfterRun(s);
    } else {
      CollapseSpacesKeeps(s[1..]);
      KeepsAfterChar(s);
    }
  }

  lemma KeepsAfterChar(s: string)
    requires s != [] && !IsSpaceChar(s[0])
    requires Keep(CollapseSpaces(s[1..]), NotSpaceChar) == Keep(s[1..], NotSpaceChar)
    ensures Keep(CollapseSpaces(s), NotSpaceChar) == Keep(s, NotSpaceChar)
  {
    var r := CollapseSpaces(s);
    assert r == [s[0]] + CollapseSpaces(s[1..]);
    assert r[1..] == CollapseSpaces(s[1..]);
  }

  lemma KeepsAfterRun(s: string)
    requires s != [] && IsSpaceChar(s[0])
    requires Keep(CollapseSpaces(s[SpaceRun(s)..]), NotSpaceChar) == Keep(s[SpaceRun(s)..], NotSpaceChar)
    ensures Keep(CollapseSpaces(s), NotSpaceChar) == Keep(s, NotSpaceChar)
  {
    var n := SpaceRun(s);
    assert CollapseSpaces(s) == [' '] + CollapseSpaces(s[n..]);
    KeepSpaceHead(CollapseSpaces(s[n..]));
    KeepDropPrefix(s, n, NotSpaceChar);
  }

  lemma KeepSpaceHead(t: string)
    ensures Keep([' '] + t, NotSpaceChar) == Keep(t, NotSpaceChar)
  {
    assert ([' '] + t)[1..] == t;
  }

  /** Collapsing changes nothing in text that is already collapsed; so
      collapsing twice is collapsing once. */
  lemma {:induction false} CollapseSpacesFixed(s: string)
    requires Collapsed(s)
    ensures CollapseSpaces(s) == s
    decreases |s|
  {
    if s != [] {
      assert Collapsed(s[1..]);
      CollapseSpacesFixed(s[1..]);
      if IsSpaceChar(s[0]) {
        assert SpaceRun(s) == 1 by {
          assert |s| == 1 || !IsSpaceChar(s[1]);
        }
      }
    }
  }

  lemma CollapseSpacesIdempotent(s: string)
    ensures CollapseSpaces(CollapseSpaces(s)) == CollapseSpaces(s)
  {
    CollapseSpacesSpec(s);
    CollapseSpacesFixed(CollapseSpaces(s));
  }

  /** Text without SPACE_CHARS is left as it is. */
  lemma {:induction false} CollapsePlain(w: string)
    requires forall i :: 0 <= i < |w| ==> !IsSpaceChar(w[i])
    ensures CollapseSpaces(w) == w
    decreases |w|
  {
    if w != [] {
      CollapsePlain(w[1..]);
    }
  }

  /** A maximal run of SPACE_CHARS becomes exactly one ASCII space, and the
      text on either side of it is collapsed on its own. With CollapsePlain
      this determines the substitution completely. */
  lemma CollapseRun(u: string, r: string, v: string)
    requires u == [] || !IsSpaceChar(u[|u| - 1])
    requires r != [] && forall i :: 0 <= i < |r| ==> IsSpaceChar(r[i])
    requires v == [] || !IsSpaceChar(v[0])
    ensures CollapseSpaces(u + r + v) == CollapseSpaces(u) + " " + CollapseSpaces(v)
  {
    var s := u + r + v;
    assert s[..|u|] == u && s[|u| + |r|..] == v;
    CollapseRunAt(s, |u|, |u| + |r|);
  }

  /** The same for the run `s[j..k]` of a single text. */
  lemma {:induction false} CollapseRunAt(s: string, j: nat, k: nat)
    requires j < k <= |s|
    requires j == 0 || !IsSpaceChar(s[j - 1])
    requires forall i :: j <= i < k ==> IsSpaceChar(s[i])
    requires k == |s| || !IsSpaceChar(s[k])
    ensures CollapseSpaces(s) == CollapseSpaces(s[..j]) + " " + CollapseSpaces(s[k..])
    decreases j
  {
    if j == 0 {
      SpaceRunTo(s, k);
    } else if !IsSpaceChar(s[0]) {
      CollapseRunAt(s[1..], j - 1, k - 1);
      CollapseRunAfterChar(s, j, k);
    } else {
      var n := SpaceRun(s);
      assert n < j;
      CollapseRunAt(s[n..], j - n, k - n);
      CollapseRunAfterRun(s, j, k);
    }
  }

  /** A leading run that covers `s[..k]` and stops there has length `k`. */
  lemma {:induction false} SpaceRunTo(s: string, k: nat)
    requires 0 < k <= |s| && forall i :: 0 <= i < k ==> IsSpaceChar(s[i])
    requires k == |s| || !IsSpaceChar(s[k])
    ensures SpaceRun(s) == k && CollapseSpaces(s) == CollapseSpaces(s[..0]) + " " + CollapseSpaces(s[k..])
  {
    assert SpaceRun(s) == k;
    assert s[..0] == [];
  }

  /** A leading character that is not a space is copied on both sides. */
  lemma CollapseRunAfterChar(s: string, j: nat, k: nat)
    requires 0 < j < k <= |s| && !IsSpaceChar(s[0])
    requires CollapseSpaces(s[1..]) == CollapseSpaces(s[1..][..j - 1]) + " " + CollapseSpaces(s[1..][k - 1..])
    ensures CollapseSpaces(s) == CollapseSpaces(s[..j]) + " " + CollapseSpaces(s[k..])
  {
    var p, c := s[..j], CollapseSpaces(s[k..]);
    calc {
      CollapseSpaces(s);
      == { CollapseCharHead(s); }
      [s[0]] + CollapseSpaces(s[1..]);
      == { SliceShift(s, 1, j, k); }
      [s[0]] + (CollapseSpaces(p[1..]) + " " + c);
      == { Reassociate([s[0]], CollapseSpaces(p[1..]), c); }
      ([s[0]] + CollapseSpaces(p[1..])) + " " + c;
      == { assert p[0] == s[0]; CollapseCharHead(p); }
      CollapseSpaces(p) + " " + c;
    }
  }

  /** A leading run that ends before `j` becomes one space on both sides. */
  lemma CollapseRunAfterRun(s: string, j: nat, k: nat)
    requires 0 < j < k <= |s| && IsSpaceChar(s[0]) && SpaceRun(s) < j
    requires CollapseSpaces(s[SpaceRun(s)..])
             == CollapseSpaces(s[SpaceRun(s)..][..j - SpaceRun(s)]) + " " + CollapseSpaces(s[SpaceRun(s)..][k - SpaceRun(s)..])
    ensures CollapseSpaces(s) == CollapseSpaces(s[..j]) + " " + CollapseSpaces(s[k..])
  {
    var n := SpaceRun(s);
    SliceShift(s, n, j, k);
    SpaceRunPrefix(s, j);
    CollapseRunHead(s);
    CollapseRunHead(s[..j]);
    Reassociate([' '], CollapseSpaces(s[..j][n..]), CollapseSpaces(s[k..]));
  }

  lemma SliceShift(s: string, n: nat, j: nat, k: nat)
    requires n <= j <= k <= |s|
    ensures s[n..][..j - n] == s[..j][n..] && s[n..][k - n..] == s[k..]
  {
  }

  lemma CollapseCharHead(s: string)
    requires s != [] && !IsSpaceChar(s[0])
    ensures CollapseSpaces(s) == [s[0]] + CollapseSpaces(s[1..])
  {
  }

  lemma CollapseRunHead(s: string)
    requires s != [] && IsSpaceChar(s[0])
    ensures CollapseSpaces(s) == [' '] + CollapseSpaces(s[SpaceRun(s)..])
  {
  }

  lemma Reassociate(x: string, a: string, b: string)
    ensures x + (a + " " + b) == (x + a) + " " + b
  {
  }

  /** Cutting the text after its leading run does not change the run. */
  lemma {:induction false} SpaceRunPrefix(s: string, j: nat)
    requires SpaceRun(s) < j <= |s|
    ensures SpaceRun(s[..j]) == SpaceRun(s)
    decreases j
  {
    if IsSpaceChar(s[0]) {
      assert s[..j][1..] == s[1..][..j - 1];
      SpaceRunPrefix(s[1..], j - 1);
    }
  }

  // ===========================================================================
  // Leading "No" (product_price_checker.py:31)

  predicate IsN(c: char) { c == 'n' || c == 'N' }
  predicate IsO(c: char) { c == 'o' || c == 'O' }

  predicate StartsWithNo(s: string) { |s| >= 2 && IsN(s[0]) && IsO(s[1]) }

  /** `re.sub(r"^(?:No)+", "", s, flags=re.IGNORECASE)`: the longest leading
      repetition of "no", in any letter case, is removed. */
  function StripNoPrefix(s: string): string
    decreases |s|
  {
    if StartsWithNo(s) then StripNoPrefix(s[2..]) else s
  }

  /** Text made only of "no" pairs. */
  predicate AllNo(s: string)
    decreases |s|
  {
    s == [] || (StartsWithNo(s) && AllNo(s[2..]))
  }

  /** What is removed is a repetition of "no", and what is left does not
      start with "no": the removal is greedy. */
  lemma {:induction false} StripNoPrefixSpec(s: string)
    ensures |StripNoPrefix(s)| <= |s|
    ensures s == s[..|s| - |StripNoPrefix(s)|] + StripNoPrefix(s)
    ensures AllNo(s[..|s| - |StripNoPrefix(s)|])
    ensures !StartsWithNo(StripNoPrefix(s))
    decreases |s|
  {
    if StartsWithNo(s) {
      var t := s[2..];
      StripNoPrefixSpec(t);
      var r := StripNoPrefix(t);
      assert StripNoPrefix(s) == r;
      var k := |s| - |r|;
      assert t == t[..|t| - |r|] + r;
      assert s[..k] == s[..2] + t[..|t| - |r|];
      assert s[..k][2..] == t[..|t| - |r|];
      assert s == s[..k] + r;
    } else {
      assert s[..0] == [];
      assert s == [] + s;
    }
  }

  // ===========================================================================
  // Cut at a stop character (product_price_checker.py:34-35)

  /** The characters that end a barcode: the ASCII space, '/', '+' and the
      Thai block U+0E00 to U+0E7F. */
  predicate IsStop(c: char) {
    c == ' ' || c == '/' || c == '+' || ('\U{0E00}' <= c <= '\U{0E7F}')
  }

  function StopFreeLen(s: string): (n: nat)
    ensures n <= |s|
    ensures forall i :: 0 <= i < n ==> !IsStop(s[i])
    ensures n == |s| || IsStop(s[n])
  {
    if s == [] || IsStop(s[0]) then 0 else 1 + StopFreeLen(s[1..])
  }

  /** `m = re.match(r"^[^ /+฀-๿]+", s)`, then `m.group(0) if m else s`. */
  function StopPrefix(s: string): (r: string)
    ensures r <= s
    ensures s != [] && !IsStop(s[0]) ==>
              r != [] && (forall i :: 0 <= i < |r| ==> !IsStop(r[i])) && (|r| == |s| || IsStop(s[|r|]))
    ensures (s == [] || IsStop(s[0])) ==> r == s
  {
    var n := StopFreeLen(s);
    if n > 0 then s[..n] else s
  }

  // ===========================================================================
  // clean_barcode and is_integer_token

  /** The text `clean_barcode` cuts its result from: spaces collapsed, ends
      trimmed, the leading "no"s removed and the ends trimmed again. */
  function Normalised(s: string): string {
    Trim(StripNoPrefix(Trim(CollapseSpaces(s))))
  }

  /** `clean_barcode(raw)`. */
  function CleanBarcode(raw: Option<string>): (b: string)
    ensures raw.None? ==> b == ""
    ensures raw.Some? ==> b <= Normalised(raw.value) && (b == [] <==> Normalised(raw.value) == [])
  {
    match raw
    case None => ""
    case Some(s) => StopPrefix(Normalised(s))
  }

  /** The only SPACE_CHAR in `s` is the ASCII space. */
  predicate AsciiSpacesOnly(s: string) {
    forall i :: 0 <= i < |s| && IsSpaceChar(s[i]) ==> s[i] == ' '
  }

  lemma SliceAsciiSpacesOnly(s: string, a: nat, b: nat)
    requires AsciiSpacesOnly(s) && a <= b <= |s|
    ensures AsciiSpacesOnly(s[a..b])
  {
    assert forall i :: 0 <= i < b - a ==> s[a..b][i] == s[a + i];
  }

  lemma TrimAsciiSpacesOnly(s: string)
    requires AsciiSpacesOnly(s)
    ensures AsciiSpacesOnly(Trim(s))
  {
    TrimSpec(s);
    var a := |s| - |TrimLeft(s)|;
    SliceAsciiSpacesOnly(s, a, a + |Trim(s)|);
  }

  /** The normalised text holds no SPACE_CHAR but the ASCII space. */
  lemma NormalisedAsciiSpacesOnly(s: string)
    ensures AsciiSpacesOnly(Normalised(s))
  {
    var c := CollapseSpaces(s);
    CollapseSpacesSpec(s);
    TrimAsciiSpacesOnly(c);
    var t := Trim(c);
    StripNoPrefixSpec(t);
    var p := StripNoPrefix(t);
    SliceAsciiSpacesOnly(t, |t| - |p|, |t|);
    assert t[|t| - |p|..|t|] == p;
    TrimAsciiSpacesOnly(p);
  }

  /** The cleaned barcode is a prefix of the normalised text; it is empty only
      when that text is; the only SPACE_CHAR it can hold is the ASCII space,
      and when it does not start at a stop character it holds none at all. */
  lemma CleanBarcodeSpec(s: string)
    ensures var r, m := CleanBarcode(Some(s)), Normalised(s);
            r <= m && (r == [] <==> m == [])
            && AsciiSpacesOnly(r)
            && (r != [] && !IsStop(r[0]) ==> forall i :: 0 <= i < |r| ==> !IsStop(r[i]))
  {
    var m := Normalised(s);
    NormalisedAsciiSpacesOnly(s);
    var r := StopPrefix(m);
    SliceAsciiSpacesOnly(m, 0, |r|);
    assert m[0..|r|] == r;
  }

  /** A plain numeric barcode comes out unchanged. */
  lemma CleanBarcodeDigits(d: string)
    requires IsDigits(d)
    ensures CleanBarcode(Some(d)) == d
  {
    assert forall i :: 0 <= i < |d| ==> IsDigit(d[i]);
    DigitsHaveNoSpace(d);
    calc {
      CleanBarcode(Some(d));
      { CleanPlain(d); }
      StopPrefix(Trim(StripNoPrefix(d)));
      { assert !StartsWithNo(d); }
      StopPrefix(Trim(d));
      StopPrefix(d);
      { StopPrefixPlain(d); }
      d;
    }
  }

  /** Text without any kind of space is only stripped of its "no"s and cut
      at its first stop character. */
  lemma CleanPlain(s: string)
    requires forall i :: 0 <= i < |s| ==> !IsSpaceChar(s[i]) && !IsSpace(s[i])
    ensures CleanBarcode(Some(s)) == StopPrefix(Trim(StripNoPrefix(s)))
  {
    assert Collapsed(s);
    CollapseSpacesFixed(s);
    TrimNoSpace(s);
  }

  lemma StopPrefixPlain(d: string)
    requires forall i :: 0 <= i < |d| ==> !IsStop(d[i])
    ensures StopPrefix(d) == d
  {
    if d != [] {
      assert d[..|d|] == d;
    }
  }

  /** "NoNO123" loses both "No"s. */
  lemma CleanBarcodeStripsNo()
    ensures CleanBarcode(Some("NoNO123")) == "123"
  {
    var s := "NoNO123";
    assert forall i :: 0 <= i < |s| ==> !IsSpaceChar(s[i]) && !IsSpace(s[i]);
    CleanPlain(s);
    StripNoNO123();
    Clean123();
  }

  lemma StripNoNO123()
    ensures StripNoPrefix("NoNO123") == "123"
  {
    var s := "NoNO123";
    assert s[2..] == "NO123";
    assert s[2..][2..] == "123";
    assert !StartsWithNo("123");
  }

  /** The tail "123" survives the last two stages. */
  lemma Clean123()
    ensures StopPrefix(Trim("123")) == "123"
  {
    var d := "123";
    assert forall i :: 0 <= i < |d| ==> IsDigit(d[i]) && !IsStop(d[i]);
    DigitsHaveNoSpace(d);
    StopPrefixPlain(d);
  }

  /** `clean_barcode` is not idempotent: "No No123" cleans to "No123", which
      cleans to "123". */
  lemma CleanBarcodeNotIdempotent()
    ensures CleanBarcode(Some("No No123")) == "No123"
    ensures CleanBarcode(Some(CleanBarcode(Some("No No123")))) == "123"
  {
    CleanNoSpaceNo123();
    CleanNo123();
  }

  lemma CleanNoSpaceNo123()
    ensures CleanBarcode(Some("No No123")) == "No123"
  {
    CollapsedNoSpaceNo123();
    TrimNoSpaceNo123();
    StripNoSpaceNo123();
    StopPrefixNo123();
    assert Normalised("No No123") == "No123";
  }

  lemma StripNoSpaceNo123()
    ensures StripNoPrefix("No No123") == " No123"
    ensures Trim(" No123") == "No123"
  {
    var s, u, v := "No No123", " No123", "No123";
    assert s[2..] == u;
    assert u[1..] == v;
    assert NoSpace(v);
    TrimLeadingSpace(u);
  }

  lemma StopPrefixNo123()
    ensures StopPrefix("No123") == "No123"
  {
    var v := "No123";
    assert StopFreeLen(v) == 5;
    assert v[..5] == v;
  }

  lemma CollapsedNoSpaceNo123()
    ensures CollapseSpaces("No No123") == "No No123"
  {
    var s := "No No123";
    assert Collapsed(s) by {
      assert forall i :: 0 <= i < |s| && i != 2 ==> !IsSpaceChar(s[i]);
    }
    CollapseSpacesFixed(s);
  }

  lemma TrimNoSpaceNo123()
    ensures Trim("No No123") == "No No123"
  {
    var s := "No No123";
    assert !IsSpace(s[0]) && !IsSpace(s[|s| - 1]);
    TrimEnds(s);
  }

  lemma CleanNo123()
    ensures CleanBarcode(Some("No123")) == "123"
  {
    var v := "No123";
    assert forall i :: 0 <= i < |v| ==> !IsSpaceChar(v[i]) && !IsSpace(v[i]);
    CleanPlain(v);
    StripNo123();
    Clean123();
  }

  lemma StripNo123()
    ensures StripNoPrefix("No123") == "123"
  {
    var v := "No123";
    assert v[2..] == "123";
    assert !StartsWithNo("123");
  }

  lemma TrimEnds(s: string)
    requires s != [] && !IsSpace(s[0]) && !IsSpace(s[|s| - 1])
    ensures Trim(s) == s
  {
    assert TrimLeft(s) == s;
    assert TrimRight(s) == s;
  }

  lemma TrimLeadingSpace(u: string)
    requires u != [] && u[0] == ' ' && NoSpace(u[1..])
    ensures Trim(u) == u[1..]
  {
    assert TrimLeft(u) == TrimLeft(u[1..]);
    TrimNoSpace(u[1..]);
  }

  /** `is_integer_token(tok)`: present, and its trimmed text is all digits. */
  function IsIntegerToken(tok: Option<string>): bool {
    tok.Some? && IsDigits(Trim(tok.value))
  }

  /** An integer token is exactly one that `int()` reads as a natural number
      without a sign. */
  lemma IntegerTokenParses(s: string)
    requires IsIntegerToken(Some(s))
    ensures ParseInt(s) == Some(DigitsValue(Trim(s)))
  {
  }

  /** Every printed natural number is an integer token. */
  lemma IntegerTokenDecimal(n: nat)
    ensures IsIntegerToken(Some(ToDecimal(n)))
  {
    DigitsHaveNoSpace(ToDecimal(n));
  }
}
