/**
 * Numeric coercion of a column: each cell's string form is trimmed, every
 * percent sign and thousands separator is removed, blank and "nan" text
 * becomes missing, and what does not parse as a number becomes missing
 * rather than raising.
 */
module Utils {
  import opened TableModel

  /** The text normalisation applied before coercion: strip, then drop '%' and ','. */
  function CleanText(s: string): (r: string)
    ensures |r| <= |s|
    ensures forall i :: 0 <= i < |r| ==> r[i] != '%' && r[i] != ','
  {
    RemoveChar(RemoveChar(Strip(s), '%'), ',')
  }

  /** `clean_numeric_series` on one cell. */
  function CleanNumeric(c: Cell): Option<real> {
    var t := CleanText(Str(c));
    if t == "" || t == "nan" then None else ParseNum(t)
  }

  /** Coercion of a whole column of a table. */
  function CleanColumn(t: Table, col: string): (r: seq<Option<real>>)
    ensures |r| == |t.rows|
    ensures forall i :: 0 <= i < |r| ==> r[i] == CleanNumeric(Get(t.rows[i], col))
  {
    seq(|t.rows|, i requires 0 <= i < |t.rows| => CleanNumeric(Get(t.rows[i], col)))
  }

  lemma {:induction false} RemoveAbsentChar(s: string, ch: char)
    requires forall i :: 0 <= i < |s| ==> s[i] != ch
    ensures RemoveChar(s, ch) == s
    decreases |s|
  {
    if |s| > 0 {
      RemoveAbsentChar(s[1..], ch);
    }
  }

  lemma StripNoOuterSpace(s: string)
    requires |s| == 0 || (!IsSpace(s[0]) && !IsSpace(s[|s| - 1]))
    ensures Strip(s) == s
  {
  }

  /**
   * Cleaning is idempotent whenever the cleaned text has no outer
   * whitespace (removing a '%' or ',' can expose whitespace that a second
   * strip would remove, see `CleanTextExposesSpace`).
   */
  lemma CleanTextIdempotent(s: string)
    requires var c := CleanText(s); |c| == 0 || (!IsSpace(c[0]) && !IsSpace(c[|c| - 1]))
    ensures CleanText(CleanText(s)) == CleanText(s)
  {
    var c := CleanText(s);
    StripNoOuterSpace(c);
    RemoveAbsentChar(c, '%');
    RemoveAbsentChar(c, ',');
  }

  /** "% 5" cleans to " 5", which cleans again to "5". */
  lemma CleanTextExposesSpace()
    ensures CleanText("% 5") == " 5" && CleanText(CleanText("% 5")) == "5"
  {
    assert Strip("% 5") == "% 5";
    assert RemoveChar("% 5", '%') == " 5";
    assert RemoveChar(" 5", ',') == " 5";
    assert Strip(" 5") == "5";
  }

  /** Removing the same character twice is the same as removing it once. */
  lemma {:induction false} RemoveCharIdempotent(s: string, ch: char)
    ensures RemoveChar(RemoveChar(s, ch), ch) == RemoveChar(s, ch)
  {
    RemoveAbsentChar(RemoveChar(s, ch), ch);
  }

  lemma NoSignsInNat(n: nat)
    ensures forall i :: 0 <= i < |NatToString(n)| ==>
      (!IsSpace(NatToString(n)[i]) && NatToString(n)[i] != '%' && NatToString(n)[i] != ',')
  {
  }

  /** An integer cell coerces to its own value. */
  lemma CleanNumericOfNum(n: int)
    ensures CleanNumeric(Num(n)) == Some(n as real)
  {
    var s := IntToString(n);
    NoSignsInNat(if n < 0 then -n else n);
    assert forall i :: 0 <= i < |s| ==> s[i] != '%' && s[i] != ',' && (i > 0 || n < 0 ==> !IsSpace(s[i]));
    StripNoOuterSpace(s);
    RemoveAbsentChar(s, '%');
    RemoveAbsentChar(s, ',');
    assert CleanText(s) == s;
    ParseIntToString(n);
    assert s != "" && s != "nan" by {
      if n >= 0 {
        assert IsDigit(s[0]);
      } else {
        assert s[0] == '-';
      }
    }
  }

  /** Missing cells, blank text and text that does not parse all coerce to missing. */
  lemma CleanNumericMissing(s: string)
    ensures CleanNumeric(Missing) == None
    ensures CleanText(s) == "" ==> CleanNumeric(Text(s)) == None
    ensures ParseNum(CleanText(s)) == None ==> CleanNumeric(Text(s)) == None
  {
    assert Strip("nan") == "nan";
    RemoveAbsentChar("nan", '%');
    RemoveAbsentChar("nan", ',');
  }

  /** Text that parses after cleaning coerces to exactly that number. */
  lemma CleanNumericParses(s: string, x: real)
    requires ParseNum(CleanText(s)) == Some(x)
    ensures CleanNumeric(Text(s)) == Some(x)
  {
    assert ParseNum("nan") == None by {
      assert IndexOf("nan", '.') == 3;
      assert !IsDigit("nan"[0]);
    }
  }

  /**
   * Coercing a column: a number cell gives its value, a missing cell gives
   * missing, and a text cell gives the number its cleaned text parses as,
   * or missing when it does not parse ("nan" and blank text included).
   */
  lemma CleanColumnCells(t: Table, col: string)
    ensures var r := CleanColumn(t, col);
      forall i :: 0 <= i < |t.rows| ==>
        match Get(t.rows[i], col)
        case Num(n) => r[i] == Some(n as real)
        case Missing => r[i].None?
        case Text(s) => r[i] == ParseNum(CleanText(s))
  {
    forall i | 0 <= i < |t.rows|
      ensures match Get(t.rows[i], col)
        case Num(n) => CleanNumeric(Get(t.rows[i], col)) == Some(n as real)
        case Missing => CleanNumeric(Get(t.rows[i], col)).None?
        case Text(s) => CleanNumeric(Get(t.rows[i], col)) == ParseNum(CleanText(s))
    {
      match Get(t.rows[i], col)
      case Num(n) => CleanNumericOfNum(n);
      case Missing => CleanNumericMissing("");
      case Text(s) =>
        CleanNumericMissing(s);
        if ParseNum(CleanText(s)).Some? {
          CleanNumericParses(s, ParseNum(CleanText(s)).value);
        }
    }
  }
}
