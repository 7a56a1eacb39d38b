/**
 * The row filter of a sheet (filters.py): an editable list of filter rows,
 * each naming a column, an operator, a value or a second column, and a join
 * ("AND"/"OR") to the rows before it. Applying the list builds one boolean
 * mask per usable row and folds the masks left to right.
 */
module Filters {
  import opened TableModel
  import Utils

  datatype FilterRow = FilterRow(join: string, col: string, op: string, val: string, cmp: string)

  /** A saved filter row as a JSON object: key to string value. */
  type Preset = map<string, string>

  /** The relational operators of `OPS`. */
  const Ops: set<string> := {"==", "!=", ">", "<", ">=", "<="}

  predicate IsColumnOp(op: string) {
    op == "== Column" || op == "!= Column"
  }

  // ------------------------------------------------------------ comparisons

  /** `_clean_numeric_series` on one cell: like `Utils.CleanNumeric`, without the blank/"nan" step. */
  function FilterClean(c: Cell): Option<real> {
    ParseNum(Utils.CleanText(Str(c)))
  }

  /** Comparison of a numeric series element with a number; NaN (missing) compares unequal to everything. */
  function CmpNum(op: string, x: Option<real>, y: Option<real>): bool
    requires op in Ops
  {
    if x.None? || y.None? then op == "!="
    else
      var a, b := x.value, y.value;
      match op
      case "==" => a == b
      case "!=" => a != b
      case ">" => a > b
      case "<" => a < b
      case ">=" => a >= b
      case _ => a <= b
  }

  /** Comparison of two strings with Python's string ordering. */
  function CmpStr(op: string, a: string, b: string): bool
    requires op in Ops
  {
    match op
    case "==" => a == b
    case "!=" => a != b
    case ">" => LexLess(b, a)
    case "<" => LexLess(a, b)
    case ">=" => !LexLess(a, b)
    case _ => !LexLess(b, a)
  }

  /** `== Column` / `!= Column`: the two columns' string forms compared row by row. */
  function ColumnMask(f: FilterRow, t: Table): (r: seq<bool>)
    ensures |r| == |t.rows|
  {
    seq(|t.rows|, i requires 0 <= i < |t.rows| =>
      (Str(Get(t.rows[i], f.col)) == Str(Get(t.rows[i], f.cmp))) != IsPrefix("!=", f.op))
  }

  /** `contains`: case-insensitive substring test on each cell's string form. */
  function ContainsMask(f: FilterRow, t: Table): (r: seq<bool>)
    ensures |r| == |t.rows|
  {
    seq(|t.rows|, i requires 0 <= i < |t.rows| => IsSubstring(Lower(f.val), Lower(Str(Get(t.rows[i], f.col)))))
  }

  /** `in`: membership of each cell's string form in the comma-separated values. */
  function InMask(f: FilterRow, t: Table): (r: seq<bool>)
    ensures |r| == |t.rows|
  {
    var values := ParseList(f.val);
    seq(|t.rows|, i requires 0 <= i < |t.rows| => Str(Get(t.rows[i], f.col)) in values)
  }

  /** The column of a row's cells after `_clean_numeric_series`. */
  function CleanedColumn(t: Table, col: string): (r: seq<Option<real>>)
    ensures |r| == |t.rows|
  {
    seq(|t.rows|, i requires 0 <= i < |t.rows| => FilterClean(Get(t.rows[i], col)))
  }

  /** A relational operator against a number (the column mean or a parsed literal). */
  function NumMask(op: string, t: Table, col: string, y: Option<real>): (r: seq<bool>)
    requires op in Ops
    ensures |r| == |t.rows|
  {
    seq(|t.rows|, i requires 0 <= i < |t.rows| => CmpNum(op, FilterClean(Get(t.rows[i], col)), y))
  }

  /** A relational operator against the literal as a string. */
  function TextMask(f: FilterRow, t: Table): (r: seq<bool>)
    requires f.op in Ops
    ensures |r| == |t.rows|
  {
    seq(|t.rows|, i requires 0 <= i < |t.rows| => CmpStr(f.op, Str(Get(t.rows[i], f.col)), f.val))
  }

  /** The relational branches: the "Column Average" sentinel, a numeric literal, or a string literal. */
  function RelMask(f: FilterRow, t: Table): (r: seq<bool>)
    requires f.op in Ops
    ensures |r| == |t.rows|
  {
    if Lower(f.val) == "column average" then NumMask(f.op, t, f.col, Mean(CleanedColumn(t, f.col)))
    else
      match ParseNum(Strip(f.val))
      case Some(x) => NumMask(f.op, t, f.col, Some(x))
      case None => TextMask(f, t)
  }

  /**
   * The mask of one filter row whose column exists; `None` when building it
   * raises (an operator outside `OPS` reaching the relational branches).
   */
  function Mask(f: FilterRow, t: Table): (r: Option<seq<bool>>)
    ensures r.Some? ==> |r.value| == |t.rows|
  {
    if IsColumnOp(f.op) && f.cmp in t.cols then Some(ColumnMask(f, t))
    else if f.op == "contains" then Some(ContainsMask(f, t))
    else if f.op == "in" then Some(InMask(f, t))
    else if f.op !in Ops then None
    else Some(RelMask(f, t))
  }

  /** A row contributes no mask when its column is blank or not in the table. */
  predicate Skipped(f: FilterRow, t: Table) {
    f.col == "" || f.col !in t.cols
  }

  datatype Masks = Masks(masks: seq<seq<bool>>, joins: seq<string>)

  predicate WellFormed(m: Masks, n: nat) {
    |m.masks| == |m.joins| && forall k :: 0 <= k < |m.masks| ==> |m.masks[k]| == n
  }

  /** The masks and joins collected from the rows, in row order; `None` if a row raises. */
  function Collect(rows: seq<FilterRow>, t: Table): (r: Option<Masks>)
    ensures r.Some? ==> WellFormed(r.value, |t.rows|) && |r.value.masks| <= |rows|
    decreases |rows|
  {
    if |rows| == 0 then Some(Masks([], []))
    else
      match Collect(rows[..|rows| - 1], t)
      case None => None
      case Some(acc) =>
        var f := rows[|rows| - 1];
        if Skipped(f, t) then Some(acc)
        else
          match Mask(f, t)
          case None => None
          case Some(m) => Some(Masks(acc.masks + [m], acc.joins + [f.join]))
  }

  /** One step of the fold: OR when the join is exactly "OR", AND otherwise. */
  function Combine(a: seq<bool>, b: seq<bool>, join: string): (r: seq<bool>)
    requires |a| == |b|
    ensures |r| == |a|
  {
    seq(|a|, i requires 0 <= i < |a| => if join == "OR" then a[i] || b[i] else a[i] && b[i])
  }

  /** The left fold of the masks: the first seeds, each later one combines by its own join. */
  function Fold(m: Masks, n: nat): (r: seq<bool>)
    requires WellFormed(m, n) && |m.masks| >= 1
    ensures |r| == n
    decreases |m.masks|
  {
    if |m.masks| == 1 then m.masks[0]
    else
      var k := |m.masks| - 1;
      Combine(Fold(Masks(m.masks[..k], m.joins[..k]), n), m.masks[k], m.joins[k])
  }

  /** `apply_filters`: `None` when it raises. */
  function FilterSpec(rows: seq<FilterRow>, t: Table): Option<Table> {
    if IsEmpty(t) then Some(t)
    else
      match Collect(rows, t)
      case None => None
      case Some(m) =>
        if |m.masks| == 0 then Some(t)
        else Some(Table(t.cols, Select(t.rows, Fold(m, |t.rows|))))
  }

  // ------------------------------------------------------------------ rows

  function Lookup(p: Preset, key: string, default: string): string {
    if key in p then p[key] else default
  }

  /** The row `add_row(preset)` appends when `idx` rows are already present. */
  function NewRow(idx: nat, preset: Preset): (f: FilterRow)
    ensures |preset| == 0 ==> f.col == "" && f.op == "==" && (f.join == "AND" <==> idx > 0)
  {
    if |preset| == 0 then FilterRow(if idx > 0 then "AND" else "", "", "==", "", "")
    else
      FilterRow(Lookup(preset, "join", ""), Lookup(preset, "col", ""), Lookup(preset, "op", "=="),
                Lookup(preset, "val", ""), Lookup(preset, "cmp", ""))
  }

  /** The saved form of one row, as `get_config` writes it. */
  function RowConfig(f: FilterRow): Preset {
    map["join" := f.join, "col" := f.col, "op" := f.op, "val" := f.val, "cmp" := f.cmp]
  }

  function ConfigOf(rows: seq<FilterRow>): (r: seq<Preset>)
    ensures |r| == |rows|
    ensures forall i :: 0 <= i < |r| ==> r[i] == RowConfig(rows[i])
  {
    seq(|rows|, i requires 0 <= i < |rows| => RowConfig(rows[i]))
  }

  /** The rows `load_config` leaves: the blank row of `reset`, then one row per saved entry. */
  function LoadedRows(saved: seq<Preset>): (r: seq<FilterRow>)
    ensures |r| == |saved| + 1
  {
    [NewRow(0, map[])] + seq(|saved|, i requires 0 <= i < |saved| => NewRow(i + 1, saved[i]))
  }

  class FiltersFrame {
    var rows: seq<FilterRow>

    /** The frame starts with one blank row. */
    constructor()
      ensures rows == [NewRow(0, map[])]
    {
      rows := [NewRow(0, map[])];
    }

    /** `add_row(preset)`: appends one row; a non-empty preset sets its fields, defaulting missing keys. */
    method AddRow(preset: Preset)
      modifies this
      ensures rows == old(rows) + [NewRow(|old(rows)|, preset)]
    {
      rows := rows + [NewRow(|rows|, preset)];
    }

    /** `_remove_row`: the row at position `k` is blanked out and the list is compacted. */
    method RemoveRow(k: nat)
      modifies this
      ensures k < |old(rows)| ==> rows == old(rows)[..k] + old(rows)[k + 1..]
      ensures k >= |old(rows)| ==> rows == old(rows)
    {
      var kept: seq<FilterRow> := [];
      var i := 0;
      while i < |rows|
        invariant 0 <= i <= |rows|
        invariant kept == if i <= k then rows[..i] else rows[..k] + rows[k + 1..i]
      {
        if i != k {
          kept := kept + [rows[i]];
        }
        i := i + 1;
      }
      assert rows[..|rows|] == rows;
      rows := kept;
    }

    /** `reset`: back to a single blank row. */
    method Reset()
      modifies this
      ensures rows == [NewRow(0, map[])]
    {
      rows := [];
      AddRow(map[]);
    }

    /** `get_config`: one saved entry per row, holding all five fields. */
    function GetConfig(): (cfg: map<string, seq<Preset>>)
      reads this
      ensures "filters" in cfg && |cfg["filters"]| == |rows|
      ensures forall i :: 0 <= i < |rows| ==> NewRow(i + 1, cfg["filters"][i]) == rows[i]
    {
      var saved := ConfigOf(rows);
      assert forall i :: 0 <= i < |rows| ==> NewRow(i + 1, saved[i]) == rows[i] by {
        forall i | 0 <= i < |rows|
          ensures NewRow(i + 1, saved[i]) == rows[i]
        {
          assert "join" in saved[i];
        }
      }
      map["filters" := saved]
    }

    /** `load_config`: reset, then add one row per saved entry (none when the key is missing). */
    method LoadConfig(cfg: map<string, seq<Preset>>)
      modifies this
      ensures rows == LoadedRows(if "filters" in cfg then cfg["filters"] else [])
    {
      var saved := if "filters" in cfg then cfg["filters"] else [];
      Reset();
      var i := 0;
      while i < |saved|
        invariant 0 <= i <= |saved|
        invariant rows == LoadedRows(saved[..i])
      {
        AddRow(saved[i]);
        assert saved[..i + 1] == saved[..i] + [saved[i]];
        i := i + 1;
      }
      assert saved[..|saved|] == saved;
    }

    /** `apply_filters`: collects the masks, folds them, and keeps the selected rows. */
    method ApplyFilters(t: Table) returns (res: Option<Table>)
      ensures res == FilterSpec(rows, t)
    {
      if IsEmpty(t) {
        return Some(t);
      }
      var masks: seq<seq<bool>> := [];
      var joins: seq<string> := [];
      var i := 0;
      while i < |rows|
        invariant 0 <= i <= |rows|
        invariant Collect(rows[..i], t) == Some(Masks(masks, joins))
      {
        var f := rows[i];
        assert rows[..i + 1][..i] == rows[..i];
        if !Skipped(f, t) {
          var m := Mask(f, t);
          if m.None? {
            assert Collect(rows[..i + 1], t) == None;
            CollectNoneExtends(rows, i + 1, t);
            assert rows[..|rows|] == rows;
            return None;
          }
          masks := masks + [m.value];
          joins := joins + [f.join];
        }
        i := i + 1;
      }
      assert rows[..|rows|] == rows;
      if |masks| == 0 {
        return Some(t);
      }
      var n := |t.rows|;
      var final := masks[0];
      var k := 1;
      while k < |masks|
        invariant 1 <= k <= |masks|
        invariant |final| == n
        invariant final == Fold(Masks(masks[..k], joins[..k]), n)
      {
        assert masks[..k + 1][..k] == masks[..k];
        assert joins[..k + 1][..k] == joins[..k];
        final := Combine(final, masks[k], joins[k]);
        k := k + 1;
      }
      assert masks[..k] == masks && joins[..k] == joins;
      return Some(Table(t.cols, Select(t.rows, final)));
    }
  }

  /** Once a prefix of the rows raises, so does every longer prefix. */
  lemma {:induction false} CollectNoneExtends(rows: seq<FilterRow>, i: nat, t: Table)
    requires i <= |rows| && Collect(rows[..i], t) == None
    ensures Collect(rows, t) == None
    decreases |rows| - i
  {
    if i < |rows| {
      assert rows[..i + 1][..i] == rows[..i];
      CollectNoneExtends(rows, i + 1, t);
    } else {
      assert rows[..i] == rows;
    }
  }

  // ---------------------------------------------------------------- lemmas

  /** The result of filtering is the input's rows, some left out, the rest in order, same columns. */
  lemma FilterIsOrderedSubset(rows: seq<FilterRow>, t: Table)
    requires FilterSpec(rows, t).Some?
    ensures FilterSpec(rows, t).value.cols == t.cols
    ensures Subseq(FilterSpec(rows, t).value.rows, t.rows)
  {
    var u := FilterSpec(rows, t).value;
    if IsEmpty(t) || Collect(rows, t).value.masks == [] {
      SubseqRefl(t.rows);
    } else {
      SelectIsSubseq(t.rows, Fold(Collect(rows, t).value, |t.rows|));
    }
  }

  /** An empty table is returned as it is. */
  lemma FilterEmptyTable(rows: seq<FilterRow>, t: Table)
    requires IsEmpty(t)
    ensures FilterSpec(rows, t) == Some(t)
  {
  }

  lemma {:induction false} CollectAllSkipped(rows: seq<FilterRow>, t: Table)
    requires forall i :: 0 <= i < |rows| ==> Skipped(rows[i], t)
    ensures Collect(rows, t) == Some(Masks([], []))
    decreases |rows|
  {
    if |rows| > 0 {
      CollectAllSkipped(rows[..|rows| - 1], t);
    }
  }

  /** When no row names an existing column, no mask is built and the table is returned unchanged. */
  lemma FilterNoUsableRow(rows: seq<FilterRow>, t: Table)
    requires forall i :: 0 <= i < |rows| ==> Skipped(rows[i], t)
    ensures FilterSpec(rows, t) == Some(t)
  {
    CollectAllSkipped(rows, t);
  }

  /** With every join after the first other than "OR", a row is kept exactly when every mask keeps it. */
  lemma {:induction false} FoldAllAnd(m: Masks, n: nat, i: nat)
    requires WellFormed(m, n) && |m.masks| >= 1 && i < n
    requires forall k :: 1 <= k < |m.joins| ==> m.joins[k] != "OR"
    ensures Fold(m, n)[i] <==> forall k :: 0 <= k < |m.masks| ==> m.masks[k][i]
    decreases |m.masks|
  {
    if |m.masks| > 1 {
      var k := |m.masks| - 1;
      var prefix := Masks(m.masks[..k], m.joins[..k]);
      FoldAllAnd(prefix, n, i);
      assert forall j :: 0 <= j < k ==> prefix.masks[j] == m.masks[j];
    }
  }

  /** With every join after the first "OR", a row is kept exactly when some mask keeps it. */
  lemma {:induction false} FoldAllOr(m: Masks, n: nat, i: nat)
    requires WellFormed(m, n) && |m.masks| >= 1 && i < n
    requires forall k :: 1 <= k < |m.joins| ==> m.joins[k] == "OR"
    ensures Fold(m, n)[i] <==> exists k :: 0 <= k < |m.masks| && m.masks[k][i]
    decreases |m.masks|
  {
    if |m.masks| > 1 {
      var k := |m.masks| - 1;
      var prefix := Masks(m.masks[..k], m.joins[..k]);
      FoldAllOr(prefix, n, i);
      assert forall j :: 0 <= j < k ==> prefix.masks[j] == m.masks[j];
      if exists j :: 0 <= j < |m.masks| && m.masks[j][i] {
        var j :| 0 <= j < |m.masks| && m.masks[j][i];
        if j < k {
          assert prefix.masks[j][i];
        }
      }
    }
  }

  /** "!= Column" keeps exactly the rows "== Column" drops. */
  lemma NotEqualColumnNegates(f: FilterRow, t: Table, i: nat)
    requires f.op == "== Column" && f.cmp in t.cols && i < |t.rows|
    ensures Mask(f, t).Some? && Mask(f.(op := "!= Column"), t).Some?
    ensures Mask(f.(op := "!= Column"), t).value[i] == !Mask(f, t).value[i]
    ensures Mask(f, t).value[i] <==> Str(Get(t.rows[i], f.col)) == Str(Get(t.rows[i], f.cmp))
  {
    assert !IsPrefix("!=", f.op) by {
      assert f.op[..2] == "==";
    }
    assert IsPrefix("!=", "!= Column") by {
      assert "!= Column"[..2] == "!=";
    }
  }

  /** `in` keeps a row exactly when its string form is one of the trimmed, non-blank comma-separated values. */
  lemma InOperator(f: FilterRow, t: Table, i: nat)
    requires f.op == "in" && i < |t.rows|
    ensures Mask(f, t).Some?
    ensures var pieces := Split(f.val, ',');
      Mask(f, t).value[i] <==>
      exists k :: 0 <= k < |pieces| && Str(Get(t.rows[i], f.col)) == Strip(pieces[k]) && |Strip(pieces[k])| > 0
  {
    StrippedNonEmptyMembers(Split(f.val, ','), Str(Get(t.rows[i], f.col)));
  }

  /** `contains` ignores the case of the value: values equal up to case give the same mask. */
  lemma ContainsIgnoresCase(f: FilterRow, v: string, t: Table)
    requires f.op == "contains" && Lower(v) == Lower(f.val)
    ensures Mask(f, t).Some? && Mask(f, t) == Mask(f.(val := v), t)
  {
  }

  /** A literal that parses compares numerically: an integer cell is kept under ">" exactly when it is larger. */
  lemma NumericLiteralCompares(f: FilterRow, t: Table, i: nat, x: real, n: int)
    requires f.op == ">" && Lower(f.val) != "column average" && ParseNum(Strip(f.val)) == Some(x)
    requires i < |t.rows| && Get(t.rows[i], f.col) == Num(n)
    ensures Mask(f, t).Some? && (Mask(f, t).value[i] <==> n as real > x)
  {
    RelationalOpIsPlain(f.op);
    assert Mask(f, t) == Some(NumMask(f.op, t, f.col, Some(x)));
    Utils.CleanNumericOfNum(n);
    FilterCleanAgrees(Num(n));
  }

  /** A literal that does not parse makes the operator compare string forms instead. */
  lemma NonNumericLiteralComparesText(f: FilterRow, t: Table, i: nat)
    requires f.op in Ops && Lower(f.val) != "column average" && ParseNum(Strip(f.val)) == None
    requires i < |t.rows|
    ensures Mask(f, t).Some?
    ensures f.op == "==" ==> (Mask(f, t).value[i] <==> Str(Get(t.rows[i], f.col)) == f.val)
    ensures f.op == ">" ==> (Mask(f, t).value[i] <==> LexLess(f.val, Str(Get(t.rows[i], f.col))))
  {
  }

  lemma RelationalOpIsPlain(op: string)
    requires op in Ops
    ensures op != "contains" && op != "in" && !IsColumnOp(op)
  {
  }

  /** The filter's cleaned column equals the shared numeric coercion of that column. */
  lemma CleanedColumnAgrees(t: Table, col: string)
    ensures CleanedColumn(t, col) == Utils.CleanColumn(t, col)
  {
    var col1 := CleanedColumn(t, col);
    var col2 := Utils.CleanColumn(t, col);
    forall j | 0 <= j < |t.rows|
      ensures col1[j] == col2[j]
    {
      FilterCleanAgrees(Get(t.rows[j], col));
    }
  }

  /** "Column Average" in any case compares each cleaned cell with the mean of the cleaned column. */
  lemma ColumnAverageCompares(f: FilterRow, t: Table, i: nat)
    requires f.op in Ops && Lower(f.val) == "column average" && i < |t.rows|
    ensures Mask(f, t).Some?
    ensures Mask(f, t).value[i] == CmpNum(f.op, Utils.CleanNumeric(Get(t.rows[i], f.col)), Mean(Utils.CleanColumn(t, f.col)))
  {
    RelationalOpIsPlain(f.op);
    var avg := Mean(CleanedColumn(t, f.col));
    assert Mask(f, t) == Some(NumMask(f.op, t, f.col, avg));
    CleanedColumnAgrees(t, f.col);
    FilterCleanAgrees(Get(t.rows[i], f.col));
  }

  /** An operator outside `OPS` that reaches the relational branches makes `apply_filters` raise. */
  lemma UnknownOperatorRaises(rows: seq<FilterRow>, t: Table)
    requires !IsEmpty(t) && |rows| == 1
    requires !Skipped(rows[0], t) && rows[0].op !in Ops && rows[0].op != "contains" && rows[0].op != "in"
    requires !(IsColumnOp(rows[0].op) && rows[0].cmp in t.cols)
    ensures FilterSpec(rows, t) == None
  {
    assert rows[..0] == [];
  }

  /** The filter's own numeric cleaning agrees with `clean_numeric_series` on every cell. */
  lemma FilterCleanAgrees(c: Cell)
    ensures FilterClean(c) == Utils.CleanNumeric(c)
  {
    Utils.CleanNumericMissing(Str(c));
    var t := Utils.CleanText(Str(c));
    if t == "nan" {
      assert IndexOf(t, '.') == 3;
      assert !IsDigit(t[0]);
    }
  }

  // ----------------------------------------------------------- round trip

  /** Saving the rows and loading them back gives the blank reset row followed by the same rows. */
  lemma LoadSavedRows(rows: seq<FilterRow>)
    ensures LoadedRows(ConfigOf(rows)) == [NewRow(0, map[])] + rows
  {
    var saved := ConfigOf(rows);
    forall i | 0 <= i < |rows|
      ensures NewRow(i + 1, saved[i]) == rows[i]
    {
      assert "join" in saved[i];
    }
  }

  lemma {:induction false} CollectBlankFirst(rows: seq<FilterRow>, t: Table)
    ensures Collect([NewRow(0, map[])] + rows, t) == Collect(rows, t)
    decreases |rows|
  {
    var blank := NewRow(0, map[]);
    var all := [blank] + rows;
    assert Skipped(blank, t);
    if |rows| == 0 {
      assert all[..0] == [];
      assert Collect(all, t) == Some(Masks([], []));
    } else {
      var init := rows[..|rows| - 1];
      assert all[..|all| - 1] == [blank] + init;
      assert all[|all| - 1] == rows[|rows| - 1];
      CollectBlankFirst(init, t);
      assert Collect(all[..|all| - 1], t) == Collect(init, t);
    }
  }

  /** A `get_config` -> `load_config` round trip leaves filtering unchanged: the added blank row is skipped. */
  lemma FilterConfigRoundTrip(rows: seq<FilterRow>, t: Table)
    ensures FilterSpec(LoadedRows(ConfigOf(rows)), t) == FilterSpec(rows, t)
  {
    LoadSavedRows(rows);
    CollectBlankFirst(rows, t);
  }
}
