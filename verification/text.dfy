/** Character and string operations the two pipelines share, stated the way
    Python's `str` methods and `re` character classes behave on them:
    whitespace, `strip()`, `split()`, `isdigit()`, substring search, `int()`
    on text and character filtering. Digits are ASCII digits throughout. */
module Text {

  datatype Option<+T> = None | Some(value: T)

  /** Python's `str.isspace()`, which is also what `strip()`, `split()` and
      the regex class `\s` treat as whitespace. */
  predicate IsSpace(c: char) {
    || c == ' ' || ('\t' <= c <= '\r') || ('\U{1C}' <= c <= '\U{1F}')
    || c == '\U{85}' || c == '\U{A0}' || c == '\U{1680}'
    || ('\U{2000}' <= c <= '\U{200A}') || c == '\U{2028}' || c == '\U{2029}'
    || c == '\U{202F}' || c == '\U{205F}' || c == '\U{3000}'
  }

  predicate IsNonSpace(c: char) { !IsSpace(c) }

  predicate NoSpace(s: string) {
    forall i :: 0 <= i < |s| ==> !IsSpace(s[i])
  }

  predicate AllSpace(s: string) {
    forall i :: 0 <= i < |s| ==> IsSpace(s[i])
  }

  predicate IsDigit(c: char) { '0' <= c <= '9' }

  /** `str.isdigit()` for ASCII text: non-empty and digits only. */
  predicate IsDigits(s: string) {
    |s| > 0 && forall i :: 0 <= i < |s| ==> IsDigit(s[i])
  }

  predicate IsAsciiAlnum(c: char) {
    ('A' <= c <= 'Z') || ('a' <= c <= 'z') || ('0' <= c <= '9')
  }

  predicate IsNotComma(c: char) { c != ',' }

  // ---------------------------------------------------------------------------
  // Filtering: `re.sub(r'[^...]', '', s)` and `s.replace(",", "")`

  /** The characters of `s` that satisfy `p`, in order. */
  function Keep(s: string, p: char -> bool): (r: string)
    ensures |r| <= |s|
    ensures forall i :: 0 <= i < |r| ==> p(r[i])
    ensures (forall i :: 0 <= i < |s| ==> p(s[i])) ==> r == s
  {
    if s == [] then [] else (if p(s[0]) then [s[0]] else []) + Keep(s[1..], p)
  }

  lemma {:induction false} KeepAppend(a: string, b: string, p: char -> bool)
    ensures Keep(a + b, p) == Keep(a, p) + Keep(b, p)
    decreases |a|
  {
    if a != [] {
      assert (a + b)[1..] == a[1..] + b;
      KeepAppend(a[1..], b, p);
    } else {
      assert a + b == b;
    }
  }

  lemma KeepSplit(s: string, j: nat, p: char -> bool)
    requires j <= |s|
    ensures Keep(s, p) == Keep(s[..j], p) + Keep(s[j..], p)
  {
    assert s == s[..j] + s[j..];
    KeepAppend(s[..j], s[j..], p);
  }

  /** A prefix whose characters all fail `p` contributes nothing. */
  lemma {:induction false} KeepDropPrefix(s: string, n: nat, p: char -> bool)
    requires n <= |s| && forall i :: 0 <= i < n ==> !p(s[i])
    ensures Keep(s, p) == Keep(s[n..], p)
    decreases n
  {
    if n > 0 {
      assert s[1..][n - 1..] == s[n..];
      KeepDropPrefix(s[1..], n - 1, p);
    }
  }

  /** Filtering twice with the same predicate changes nothing the second time. */
  lemma {:induction false} KeepIdempotent(s: string, p: char -> bool)
    ensures Keep(Keep(s, p), p) == Keep(s, p)
  {
  }

  // ---------------------------------------------------------------------------
  // strip()

  function TrimLeft(s: string): string {
    if s != [] && IsSpace(s[0]) then TrimLeft(s[1..]) else s
  }

  function TrimRight(s: string): string {
    if s != [] && IsSpace(s[|s| - 1]) then TrimRight(s[..|s| - 1]) else s
  }

  /** Python's `s.strip()`. Its properties are the lemmas below rather than
      postconditions, so that the many callers that only compute with it do
      not pay for them. */
  function Trim(s: string): string {
    TrimRight(TrimLeft(s))
  }

  lemma {:induction false} TrimLeftSpec(s: string)
    ensures |TrimLeft(s)| <= |s| && TrimLeft(s) == s[|s| - |TrimLeft(s)|..]
    ensures TrimLeft(s) == [] || !IsSpace(TrimLeft(s)[0])
    ensures forall i :: 0 <= i < |s| - |TrimLeft(s)| ==> IsSpace(s[i])
  {
    if s != [] && IsSpace(s[0]) {
      var t := TrimLeft(s[1..]);
      TrimLeftSpec(s[1..]);
      assert TrimLeft(s) == t;
      assert s[1..][|s| - 1 - |t|..] == s[|s| - |t|..];
      forall i | 0 < i < |s| - |t| ensures IsSpace(s[i]) {
        assert s[i] == s[1..][i - 1];
      }
    }
  }

  lemma {:induction false} TrimRightSpec(s: string)
    ensures |TrimRight(s)| <= |s| && TrimRight(s) == s[..|TrimRight(s)|]
    ensures TrimRight(s) == [] || !IsSpace(TrimRight(s)[|TrimRight(s)| - 1])
    ensures forall i :: |TrimRight(s)| <= i < |s| ==> IsSpace(s[i])
  {
    if s != [] && IsSpace(s[|s| - 1]) {
      var t := TrimRight(s[..|s| - 1]);
      TrimRightSpec(s[..|s| - 1]);
      assert TrimRight(s) == t;
      assert s[..|s| - 1][..|t|] == s[..|t|];
      forall i | |t| <= i < |s| - 1 ensures IsSpace(s[i]) {
        assert s[i] == s[..|s| - 1][i];
      }
    }
  }

  /** `strip()` keeps a contiguous slice of its argument, loses only
      whitespace around it, and leaves no whitespace at either end. */
  lemma TrimSpec(s: string)
    ensures var t, a := Trim(s), |s| - |TrimLeft(s)|;
      && 0 <= a && a + |t| <= |s| && t == s[a..a + |t|]
      && (forall i :: 0 <= i < a ==> IsSpace(s[i]))
      && (forall i :: a + |t| <= i < |s| ==> IsSpace(s[i]))
      && (t == [] || (!IsSpace(t[0]) && !IsSpace(t[|t| - 1])))
  {
    TrimLeftSpec(s);
    TrimSlice(s);
    TrimTail(s);
    TrimHead(s);
  }

  lemma TrimSlice(s: string)
    ensures |TrimLeft(s)| <= |s|
    ensures |s| - |TrimLeft(s)| + |Trim(s)| <= |s|
    ensures Trim(s) == s[|s| - |TrimLeft(s)|..|s| - |TrimLeft(s)| + |Trim(s)|]
  {
    var l := TrimLeft(s);
    TrimLeftSpec(s);
    TrimRightSpec(l);
    var t := TrimRight(l);
    var a := |s| - |l|;
    assert t == l[..|t|];
    assert s[a..][..|t|] == s[a..a + |t|];
  }

  lemma TrimTail(s: string)
    ensures |TrimLeft(s)| <= |s|
    ensures forall i :: |s| - |TrimLeft(s)| + |Trim(s)| <= i < |s| ==> IsSpace(s[i])
  {
    var l := TrimLeft(s);
    TrimLeftSpec(s);
    TrimRightSpec(l);
    var a := |s| - |l|;
    forall i | a + |Trim(s)| <= i < |s| ensures IsSpace(s[i]) {
      assert s[i] == l[i - a];
    }
  }

  lemma TrimHead(s: string)
    ensures Trim(s) == [] || (!IsSpace(Trim(s)[0]) && !IsSpace(Trim(s)[|Trim(s)| - 1]))
  {
    var l := TrimLeft(s);
    TrimLeftSpec(s);
    TrimRightSpec(l);
    var t := TrimRight(l);
    if t != [] {
      assert t[0] == l[0];
    }
  }

  /** A string without whitespace is its own `strip()`. */
  lemma TrimNoSpace(s: string)
    requires NoSpace(s)
    ensures Trim(s) == s
  {
    assert TrimLeft(s) == s;
  }

  /** `strip()` gives the empty string exactly when the text is all whitespace. */
  lemma TrimEmpty(s: string)
    ensures Trim(s) == [] <==> AllSpace(s)
  {
    TrimSpec(s);
  }

  // ---------------------------------------------------------------------------
  // split() with no argument

  /** Length of the leading run of non-whitespace characters. */
  function WordLen(s: string): (n: nat)
    ensures n <= |s|
    ensures forall i :: 0 <= i < n ==> !IsSpace(s[i])
    ensures n == |s| || IsSpace(s[n])
  {
    if s == [] || IsSpace(s[0]) then 0 else 1 + WordLen(s[1..])
  }

  /** Python's `s.split()`: the maximal runs of non-whitespace characters. */
  function Words(s: string): (ws: seq<string>)
    ensures forall k :: 0 <= k < |ws| ==> ws[k] != [] && NoSpace(ws[k])
    ensures ws == [] <==> AllSpace(s)
    decreases |s|
  {
    if s == [] then []
    else if IsSpace(s[0]) then Words(s[1..])
    else
      var n := WordLen(s);
      [s[..n]] + Words(s[n..])
  }

  function Concat(ws: seq<string>): string {
    if ws == [] then [] else ws[0] + Concat(ws[1..])
  }

  lemma {:induction false} KeepWord(s: string, n: nat)
    requires n <= |s| && forall i :: 0 <= i < n ==> !IsSpace(s[i])
    ensures Keep(s, IsNonSpace) == s[..n] + Keep(s[n..], IsNonSpace)
  {
    assert s == s[..n] + s[n..];
    KeepAppend(s[..n], s[n..], IsNonSpace);
  }

  /** `split()` loses only whitespace: gluing the words back together gives
      the text with its whitespace removed. */
  lemma {:induction false} WordsKeepText(s: string)
    ensures Concat(Words(s)) == Keep(s, IsNonSpace)
    decreases |s|
  {
    if s == [] {
    } else if IsSpace(s[0]) {
      WordsKeepText(s[1..]);
    } else {
      var n := WordLen(s);
      WordsKeepText(s[n..]);
      KeepWord(s, n);
      var ws := Words(s);
      assert ws[0] == s[..n] && ws[1..] == Words(s[n..]);
    }
  }

  /** A text without whitespace is one word. */
  lemma WordsOfWord(w: string)
    requires w != [] && NoSpace(w)
    ensures Words(w) == [w]
  {
    assert WordLen(w) == |w|;
    assert w[..|w|] == w && w[|w|..] == [];
  }

  /** A word ends at the first whitespace character. */
  lemma {:induction false} WordLenBreak(u: string, c: char, v: string)
    requires IsSpace(c)
    ensures WordLen(u + [c] + v) == WordLen(u)
    decreases |u|
  {
    var s := u + [c] + v;
    if u != [] && !IsSpace(u[0]) {
      assert s[1..] == u[1..] + [c] + v;
      WordLenBreak(u[1..], c, v);
    }
  }

  /** `split()` breaks at every whitespace character: the words of the text
      on either side of one are the words of the whole. With WordsOfWord
      this determines `split()` completely. */
  lemma {:induction false} WordsBreak(u: string, c: char, v: string)
    requires IsSpace(c)
    ensures Words(u + [c] + v) == Words(u) + Words(v)
    decreases |u|
  {
    var s := u + [c] + v;
    if u == [] {
      assert s[1..] == v;
    } else if IsSpace(u[0]) {
      assert s[1..] == u[1..] + [c] + v;
      WordsBreak(u[1..], c, v);
    } else {
      var n := WordLen(u);
      WordLenBreak(u, c, v);
      assert s[..n] == u[..n] && s[n..] == u[n..] + [c] + v;
      WordsBreak(u[n..], c, v);
    }
  }

  // ---------------------------------------------------------------------------
  // Substring search: `pat in s`, `s.partition(pat)`, `s.split(pat)[0]`

  predicate OccursAt(s: string, pat: string, i: nat) {
    i + |pat| <= |s| && s[i..i + |pat|] == pat
  }

  function FindFrom(s: string, pat: string, i: nat): (r: Option<nat>)
    requires i <= |s|
    ensures r.Some? ==> i <= r.value && OccursAt(s, pat, r.value)
    ensures r.Some? ==> forall j :: i <= j < r.value ==> !OccursAt(s, pat, j)
    ensures r.None? ==> forall j :: i <= j <= |s| ==> !OccursAt(s, pat, j)
    decreases |s| - i
  {
    if OccursAt(s, pat, i) then Some(i)
    else if i == |s| then None
    else FindFrom(s, pat, i + 1)
  }

  /** The first position where `pat` occurs in `s`, if any. */
  function Find(s: string, pat: string): (r: Option<nat>)
    ensures r.Some? ==> OccursAt(s, pat, r.value)
    ensures r.Some? ==> forall j :: 0 <= j < r.value ==> !OccursAt(s, pat, j)
    ensures r.None? ==> forall j :: 0 <= j <= |s| ==> !OccursAt(s, pat, j)
  {
    FindFrom(s, pat, 0)
  }

  /** A separator that occurs in `s` is found at its first occurrence. */
  lemma FindFirst(s: string, pat: string, k: nat)
    requires OccursAt(s, pat, k)
    requires forall j :: 0 <= j < k ==> !OccursAt(s, pat, j)
    ensures Find(s, pat) == Some(k)
  {
  }

  /** A one-character separator is found at its first occurrence. */
  lemma FindChar(s: string, c: char, k: nat)
    requires k < |s| && s[k] == c
    requires forall j :: 0 <= j < k ==> s[j] != c
    ensures Find(s, [c]) == Some(k)
  {
    assert s[k..k + 1] == [c];
    forall j | 0 <= j < k ensures !OccursAt(s, [c], j) {
      assert s[j..j + 1] == [s[j]];
    }
    FindFirst(s, [c], k);
  }

  // ---------------------------------------------------------------------------
  // Decimal numerals: `int(text)` and `str(n)`

  function DigitValue(c: char): nat requires IsDigit(c) { (c as int - '0' as int) as nat }

  /** The value of a run of decimal digits, most significant first. */
  function DigitsValue(s: string): nat
    requires forall i :: 0 <= i < |s| ==> IsDigit(s[i])
  {
    if s == [] then 0 else DigitsValue(s[..|s| - 1]) * 10 + DigitValue(s[|s| - 1])
  }

  /** Leading zeros do not change the value of a numeral. */
  lemma {:induction false} LeadingZero(s: string)
    requires forall i :: 0 <= i < |s| ==> IsDigit(s[i])
    ensures DigitsValue("0" + s) == DigitsValue(s)
  {
    if s != [] {
      assert ("0" + s)[..|s|] == "0" + s[..|s| - 1];
      LeadingZero(s[..|s| - 1]);
    }
  }

  /** Python's `str(n)` for a natural number. */
  function ToDecimal(n: nat): (s: string)
    ensures IsDigits(s)
  {
    if n < 10 then ['0' + n as char] else ToDecimal(n / 10) + ['0' + (n % 10) as char]
  }

  lemma {:induction false} ToDecimalValue(n: nat)
    ensures DigitsValue(ToDecimal(n)) == n
  {
    if n >= 10 {
      ToDecimalValue(n / 10);
      var s := ToDecimal(n);
      assert s[..|s| - 1] == ToDecimal(n / 10);
    }
  }

  /** Python's `int(text)` for text: surrounding whitespace, an optional sign
      and ASCII digits; anything else is the `ValueError` case. */
  function ParseInt(s: string): (r: Option<int>)
    ensures r.Some? ==> Trim(s) != [] && forall i :: 1 <= i < |Trim(s)| ==> IsDigit(Trim(s)[i])
    ensures r.Some? ==> IsDigit(Trim(s)[0]) || (|Trim(s)| >= 2 && (Trim(s)[0] == '+' || Trim(s)[0] == '-'))
    ensures r.Some? && r.value < 0 ==> Trim(s)[0] == '-'
  {
    var t := Trim(s);
    if |t| > 0 && (t[0] == '+' || t[0] == '-') && IsDigits(t[1..]) then
      Some(if t[0] == '-' then -(DigitsValue(t[1..]) as int) else DigitsValue(t[1..]))
    else if IsDigits(t) then Some(DigitsValue(t))
    else None
  }

  /** `int(str(n)) == n`: printing a natural number and parsing it back. */
  lemma ParseIntToDecimal(n: nat)
    ensures ParseInt(ToDecimal(n)) == Some(n)
  {
    ToDecimalValue(n);
    var s := ToDecimal(n);
    DigitsHaveNoSpace(s);
    assert IsDigit(s[0]);
  }

  /** `int("-" + str(n)) == -n` and `int("+" + str(n)) == n`. */
  lemma ParseIntSigned(c: char, n: nat)
    requires c == '+' || c == '-'
    ensures ParseInt([c] + ToDecimal(n)) == Some(if c == '-' then -(n as int) else n as int)
  {
    ToDecimalValue(n);
    var d := ToDecimal(n);
    var s := [c] + d;
    DigitsHaveNoSpace(d);
    assert s[1..] == d;
    assert NoSpace(s) by {
      forall i | 0 <= i < |s| ensures !IsSpace(s[i]) {
        if i > 0 {
          assert s[i] == d[i - 1];
        }
      }
    }
    TrimNoSpace(s);
  }

  lemma DigitsHaveNoSpace(s: string)
    requires forall i :: 0 <= i < |s| ==> IsDigit(s[i])
    ensures NoSpace(s) && Trim(s) == s
  {
    forall i | 0 <= i < |s| ensures !IsSpace(s[i]) {
      assert IsDigit(s[i]);
    }
    TrimNoSpace(s);
  }

  /** Leading zeros do not change what `int()` reads: "0042" and "42" parse alike. */
  lemma ParseIntLeadingZero(s: string)
    requires IsDigits(s)
    ensures ParseInt("0" + s) == ParseInt(s)
  {
    var z := "0" + s;
    assert forall i :: 0 <= i < |z| ==> IsDigit(z[i]);
    DigitsHaveNoSpace(z);
    DigitsHaveNoSpace(s);
    LeadingZero(s);
    assert IsDigits(z) && z[0] == '0' && IsDigit(s[0]);
  }
}
