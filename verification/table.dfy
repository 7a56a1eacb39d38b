/**
 * The table that every stage of a sheet's pipeline works on: a sequence of
 * column names and a sequence of labelled rows, each mapping column names to
 * cells. Numbers are exact (integers in cells, reals for parsed literals and
 * means); there is no floating point.
 */
module TableModel {

  datatype Option<T> = None | Some(value: T)

  /** A cell: missing (NaN/None), a piece of text, or an integer number. */
  datatype Cell = Missing | Text(s: string) | Num(n: int)

  /** A row carries the table's index label and its cells by column name. */
  datatype Row = Row(idx: int, cells: map<string, Cell>)

  datatype Table = Table(cols: seq<string>, rows: seq<Row>)

  /** pandas' `df.empty`: no rows or no columns. */
  predicate IsEmpty(t: Table) {
    |t.rows| == 0 || |t.cols| == 0
  }

  /** The cell of row `r` in column `c`; a column the row lacks reads as missing. */
  function Get(r: Row, c: string): Cell {
    if c in r.cells then r.cells[c] else Missing
  }

  // ---------------------------------------------------------------- strings

  function DigitChar(d: nat): char
    requires d < 10
  {
    ['0', '1', '2', '3', '4', '5', '6', '7', '8', '9'][d]
  }

  predicate IsDigit(c: char) {
    '0' <= c <= '9'
  }

  predicate AllDigits(s: string) {
    forall i :: 0 <= i < |s| ==> IsDigit(s[i])
  }

  /** Decimal representation of a natural number, most significant digit first. */
  function NatToString(n: nat): (r: string)
    ensures |r| > 0 && AllDigits(r)
  {
    if n < 10 then [DigitChar(n)] else NatToString(n / 10) + [DigitChar(n % 10)]
  }

  /** Python's `str(n)` for an integer. */
  function IntToString(n: int): string {
    if n < 0 then "-" + NatToString(-n) else NatToString(n)
  }

  /** The string form pandas gives a cell with `astype(str)`. */
  function Str(c: Cell): string {
    match c
    case Missing => "nan"
    case Text(s) => s
    case Num(n) => IntToString(n)
  }

  predicate IsSpace(c: char) {
    c == ' ' || c == '\t' || c == '\n' || c == '\r' || c == 11 as char || c == 12 as char
  }

  function TrimLeft(s: string): (r: string)
    ensures |r| <= |s|
    ensures |r| == 0 || !IsSpace(r[0])
  {
    if |s| > 0 && IsSpace(s[0]) then TrimLeft(s[1..]) else s
  }

  function TrimRight(s: string): (r: string)
    ensures |r| <= |s| && r == s[..|r|]
    ensures |r| == 0 || !IsSpace(r[|r| - 1])
  {
    if |s| > 0 && IsSpace(s[|s| - 1]) then TrimRight(s[..|s| - 1]) else s
  }

  /** Python's `str.strip()` over ASCII whitespace. */
  function Strip(s: string): (r: string)
    ensures |r| <= |s|
    ensures |r| == 0 || (!IsSpace(r[0]) && !IsSpace(r[|r| - 1]))
  {
    TrimRight(TrimLeft(s))
  }

  /** `s.replace(ch, "")`. */
  function RemoveChar(s: string, ch: char): (r: string)
    ensures |r| <= |s|
    ensures forall i :: 0 <= i < |r| ==> r[i] != ch
    ensures forall i :: 0 <= i < |r| ==> r[i] in s
  {
    if |s| == 0 then ""
    else if s[0] == ch then RemoveChar(s[1..], ch)
    else [s[0]] + RemoveChar(s[1..], ch)
  }

  function LowerChar(c: char): char {
    if 'A' <= c <= 'Z' then (c as int + 32) as char else c
  }

  /** `str.lower()` over ASCII letters. */
  function Lower(s: string): (r: string)
    ensures |r| == |s|
  {
    seq(|s|, i requires 0 <= i < |s| => LowerChar(s[i]))
  }

  predicate IsPrefix(p: string, s: string) {
    |p| <= |s| && s[..|p|] == p
  }

  /** `p in s` for strings. */
  predicate IsSubstring(p: string, s: string)
    decreases |s|
  {
    IsPrefix(p, s) || (|s| > 0 && IsSubstring(p, s[1..]))
  }

  /** Python's `<` on strings: lexicographic by code point. */
  predicate LexLess(a: string, b: string)
    decreases |a|
  {
    if |b| == 0 then false
    else if |a| == 0 then true
    else if a[0] != b[0] then a[0] < b[0]
    else LexLess(a[1..], b[1..])
  }

  /** Index of the first `c` in `s`, or `|s|` when there is none. */
  function IndexOf(s: string, c: char): (k: nat)
    ensures k <= |s|
    ensures k < |s| ==> s[k] == c
    ensures forall i :: 0 <= i < k ==> s[i] != c
  {
    if |s| == 0 then 0
    else if s[0] == c then 0
    else 1 + IndexOf(s[1..], c)
  }

  /** `s.split(sep)`: always at least one piece; pieces never contain `sep`. */
  function Split(s: string, sep: char): (r: seq<string>)
    ensures |r| >= 1
    ensures forall i, j :: 0 <= i < |r| && 0 <= j < |r[i]| ==> r[i][j] != sep
    decreases |s|
  {
    var k := IndexOf(s, sep);
    if k == |s| then [s] else [s[..k]] + Split(s[k + 1..], sep)
  }

  /** Keep the stripped pieces that are not empty: `[v.strip() for v in s.split(",") if v.strip()]`. */
  function StrippedNonEmpty(pieces: seq<string>): (r: seq<string>)
    ensures forall i :: 0 <= i < |r| ==> |r[i]| > 0
  {
    if |pieces| == 0 then []
    else
      var rest := StrippedNonEmpty(pieces[1..]);
      if |Strip(pieces[0])| > 0 then [Strip(pieces[0])] + rest else rest
  }

  /** The kept names are exactly the non-blank stripped pieces. */
  lemma {:induction false} StrippedNonEmptyMembers(pieces: seq<string>, x: string)
    ensures x in StrippedNonEmpty(pieces) <==> exists i :: 0 <= i < |pieces| && x == Strip(pieces[i]) && |x| > 0
    decreases |pieces|
  {
    if |pieces| > 0 {
      var h, rest := Strip(pieces[0]), pieces[1..];
      StrippedNonEmptyMembers(rest, x);
      assert StrippedNonEmpty(pieces) == (if |h| > 0 then [h] else []) + StrippedNonEmpty(rest);
      if exists i :: 0 <= i < |pieces| && x == Strip(pieces[i]) && |x| > 0 {
        var i :| 0 <= i < |pieces| && x == Strip(pieces[i]) && |x| > 0;
        if i > 0 {
          assert rest[i - 1] == pieces[i];
        }
      }
      if x in StrippedNonEmpty(rest) {
        var i :| 0 <= i < |rest| && x == Strip(rest[i]) && |x| > 0;
        assert pieces[i + 1] == rest[i];
      }
      if x == h && |h| > 0 {
        assert 0 <= 0 < |pieces| && x == Strip(pieces[0]);
      }
    }
  }

  /** A comma-separated list of names, trimmed, blanks dropped. */
  function ParseList(s: string): seq<string> {
    StrippedNonEmpty(Split(s, ','))
  }

  // ---------------------------------------------------------------- numbers

  function DigitsValue(s: string): nat
    requires AllDigits(s)
  {
    if |s| == 0 then 0 else DigitsValue(s[..|s| - 1]) * 10 + (s[|s| - 1] as int - '0' as int)
  }

  function Pow10(k: nat): (r: nat)
    ensures r >= 1
  {
    if k == 0 then 1 else 10 * Pow10(k - 1)
  }

  /** Unsigned decimal: digits, optionally a point and more digits, at least one digit. */
  function ParseUnsigned(s: string): Option<real> {
    var k := IndexOf(s, '.');
    var whole := s[..k];
    var frac := if k < |s| then s[k + 1..] else "";
    if |whole| + |frac| == 0 || !AllDigits(whole) || !AllDigits(frac) then None
    else Some(DigitsValue(whole) as real + DigitsValue(frac) as real / Pow10(|frac|) as real)
  }

  /**
   * Number parsing (`float(...)` / `pd.to_numeric`) as a partial function:
   * an optional sign followed by an unsigned decimal; anything else does
   * not parse.
   */
  function ParseNum(s: string): Option<real> {
    if |s| > 0 && (s[0] == '-' || s[0] == '+') then
      match ParseUnsigned(s[1..])
      case None => None
      case Some(x) => Some(if s[0] == '-' then -x else x)
    else ParseUnsigned(s)
  }

  lemma {:induction false} DigitsValueOfNat(n: nat)
    ensures DigitsValue(NatToString(n)) == n
    decreases n
  {
    if n >= 10 {
      var s := NatToString(n);
      assert s[..|s| - 1] == NatToString(n / 10);
      DigitsValueOfNat(n / 10);
    }
  }

  /** The decimal form of an integer parses back to the same number. */
  lemma ParseIntToString(n: int)
    ensures ParseNum(IntToString(n)) == Some(n as real)
  {
    if n < 0 {
      ParseNegativeInt(n);
    } else {
      ParseNatToString(n);
      assert IntToString(n) == NatToString(n);
    }
  }

  lemma ParseNegativeInt(n: int)
    requires n < 0
    ensures ParseNum(IntToString(n)) == Some(n as real)
  {
    var t := NatToString(-n);
    var s := "-" + t;
    assert s[1..] == t;
    ParseUnsignedNat(-n);
    ParseNegative(s, (-n) as real);
  }

  /** A minus sign in front of an unsigned decimal negates it. */
  lemma ParseNegative(s: string, x: real)
    requires |s| > 0 && s[0] == '-' && ParseUnsigned(s[1..]) == Some(x)
    ensures ParseNum(s) == Some(-x)
  {
  }

  /** Digits alone parse to their value: no point, no fraction. */
  lemma ParseNatToString(m: nat)
    ensures ParseUnsigned(NatToString(m)) == Some(m as real)
    ensures ParseNum(NatToString(m)) == Some(m as real)
  {
    var d := NatToString(m);
    ParseUnsignedNat(m);
    assert d[0] != '-' && d[0] != '+';
  }

  lemma ParseUnsignedNat(m: nat)
    ensures ParseUnsigned(NatToString(m)) == Some(m as real)
  {
    var d := NatToString(m);
    DigitsValueOfNat(m);
    assert IndexOf(d, '.') == |d|;
    assert d[..|d|] == d;
  }

  /** Arithmetic mean of the present values; missing when none is present. */
  function Sum(xs: seq<Option<real>>): real {
    if |xs| == 0 then 0.0
    else (match xs[0] case Some(x) => x case None => 0.0) + Sum(xs[1..])
  }

  function CountPresent(xs: seq<Option<real>>): (r: nat)
    ensures r <= |xs|
  {
    if |xs| == 0 then 0 else (if xs[0].Some? then 1 else 0) + CountPresent(xs[1..])
  }

  function Mean(xs: seq<Option<real>>): (r: Option<real>)
    ensures r.None? <==> CountPresent(xs) == 0
  {
    if CountPresent(xs) == 0 then None else Some(Sum(xs) / CountPresent(xs) as real)
  }

  // ------------------------------------------------------------ row subsets

  /** `[False] * n`: a mask that keeps no row, or a list box with nothing selected. */
  function AllFalse(n: nat): (m: seq<bool>)
    ensures |m| == n && forall i :: 0 <= i < n ==> !m[i]
  {
    seq(n, i => false)
  }

  /** The rows of `xs` whose mask entry is true, in their original order: `df[mask]`. */
  function Select<T>(xs: seq<T>, mask: seq<bool>): (r: seq<T>)
    requires |mask| == |xs|
    ensures |r| <= |xs|
  {
    if |xs| == 0 then []
    else (if mask[0] then [xs[0]] else []) + Select(xs[1..], mask[1..])
  }

  /** `a` is `b` with some elements left out, the rest in the same order. */
  predicate Subseq<T(==)>(a: seq<T>, b: seq<T>)
    decreases |b|
  {
    if |a| == 0 then true
    else if |b| == 0 then false
    else (a[0] == b[0] && Subseq(a[1..], b[1..])) || Subseq(a, b[1..])
  }

  lemma {:induction false} SubseqRefl<T>(a: seq<T>)
    ensures Subseq(a, a)
    decreases |a|
  {
    if |a| > 0 {
      SubseqRefl(a[1..]);
    }
  }

  /** An ordered subsequence of an ordered subsequence is one of the whole. */
  lemma {:induction false} SubseqTrans<T>(a: seq<T>, b: seq<T>, c: seq<T>)
    requires Subseq(a, b) && Subseq(b, c)
    ensures Subseq(a, c)
    decreases |c|
  {
    if |a| > 0 {
      if b[0] == c[0] && Subseq(b[1..], c[1..]) {
        if a[0] == b[0] && Subseq(a[1..], b[1..]) {
          SubseqTrans(a[1..], b[1..], c[1..]);
        } else {
          SubseqTrans(a, b[1..], c[1..]);
        }
      } else {
        SubseqTrans(a, b, c[1..]);
      }
    }
  }

  lemma {:induction false} SelectIsSubseq<T>(xs: seq<T>, mask: seq<bool>)
    requires |mask| == |xs|
    ensures Subseq(Select(xs, mask), xs)
    decreases |xs|
  {
    if |xs| > 0 {
      var rest := Select(xs[1..], mask[1..]);
      SelectIsSubseq(xs[1..], mask[1..]);
      if mask[0] {
        assert Select(xs, mask) == [xs[0]] + rest;
        assert Select(xs, mask)[1..] == rest;
      } else {
        assert Select(xs, mask) == rest;
        if |rest| > 0 {
          assert Subseq(rest, xs[1..]);
        }
      }
    }
  }

  /** An element survives `Select` exactly when some position holding it is selected. */
  lemma {:induction false} SelectMembers<T>(xs: seq<T>, mask: seq<bool>, x: T)
    requires |mask| == |xs|
    ensures x in Select(xs, mask) <==> exists i :: 0 <= i < |xs| && mask[i] && xs[i] == x
    decreases |xs|
  {
    if |xs| > 0 {
      SelectMembers(xs[1..], mask[1..], x);
      if x in Select(xs[1..], mask[1..]) {
        var i :| 0 <= i < |xs[1..]| && mask[1..][i] && xs[1..][i] == x;
        assert mask[i + 1] && xs[i + 1] == x;
      }
      if exists i :: 0 <= i < |xs| && mask[i] && xs[i] == x {
        var i :| 0 <= i < |xs| && mask[i] && xs[i] == x;
        if i > 0 {
          assert mask[1..][i - 1] && xs[1..][i - 1] == x;
        }
      }
    }
  }

  lemma {:induction false} SelectAll<T>(xs: seq<T>, mask: seq<bool>)
    requires |mask| == |xs|
    requires forall i :: 0 <= i < |mask| ==> mask[i]
    ensures Select(xs, mask) == xs
    decreases |xs|
  {
    if |xs| > 0 {
      SelectAll(xs[1..], mask[1..]);
    }
  }
}
