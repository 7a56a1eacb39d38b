/**
 * The pivot tab (pivot.py): row, column and value field selections over the
 * source table's columns, an aggregation name and a `generated` flag that
 * makes the pipeline replace the sheet's table by the pivot. The
 * aggregation itself is the pivot engine's business: its raw result (or
 * `None` when it raises) is a parameter here. What is modelled is the
 * control flow around it, the header flattening and the flag.
 */
module Pivot {
  import opened TableModel

  /** A column label of the engine's result: a plain label or a hierarchical one. */
  datatype Header = Flat(name: string) | Multi(parts: seq<string>)

  /** What the engine produces: one label per value column, and the rows after `reset_index`. */
  datatype RawPivot = RawPivot(headers: seq<Header>, body: seq<Row>)

  /** Separator of hierarchical header segments. */
  const Sep: string := " | "

  function NonBlank(parts: seq<string>): (r: seq<string>)
    ensures forall i :: 0 <= i < |r| ==> r[i] != ""
    ensures forall p :: p in r <==> p in parts && p != ""
    decreases |parts|
  {
    if |parts| == 0 then [] else (if parts[0] == "" then [] else [parts[0]]) + NonBlank(parts[1..])
  }

  function Join(ps: seq<string>, sep: string): string
    decreases |ps|
  {
    if |ps| == 0 then "" else if |ps| == 1 then ps[0] else ps[0] + sep + Join(ps[1..], sep)
  }

  /** `" | ".join(str(c) for c in col if c != "")`, or the plain label. */
  function FlattenHeader(h: Header): string {
    match h
    case Flat(l) => l
    case Multi(parts) => Join(NonBlank(parts), Sep)
  }

  /** Blank segments do not show in a flattened header. */
  lemma FlattenSkipsBlank(parts: seq<string>)
    ensures FlattenHeader(Multi(parts + [""])) == FlattenHeader(Multi(parts))
    ensures FlattenHeader(Multi([""] + parts)) == FlattenHeader(Multi(parts))
  {
    NonBlankAppend(parts, [""]);
    NonBlankAppend([""], parts);
    assert NonBlank([""]) == [] by {
      assert [""][1..] == [];
    }
    assert NonBlank(parts) + [] == NonBlank(parts);
    assert [] + NonBlank(parts) == NonBlank(parts);
  }

  lemma {:induction false} NonBlankAppend(a: seq<string>, b: seq<string>)
    ensures NonBlank(a + b) == NonBlank(a) + NonBlank(b)
    decreases |a|
  {
    if |a| == 0 {
      assert a + b == b;
    } else {
      assert (a + b)[0] == a[0];
      assert (a + b)[1..] == a[1..] + b;
      NonBlankAppend(a[1..], b);
    }
  }

  /** Two segments join with the separator; a lone segment is the label itself. */
  lemma FlattenTwo(a: string, b: string)
    ensures a != "" && b != "" ==> FlattenHeader(Multi([a, b])) == a + " | " + b
    ensures a != "" ==> FlattenHeader(Multi([a, ""])) == a
    ensures FlattenHeader(Multi(["", ""])) == ""
  {
    assert [a, b][1..] == [b];
    assert [a, ""][1..] == [""];
    assert ["", ""][1..] == [""];
    assert NonBlank([""]) == [] by {
      assert [""][1..] == [];
    }
    assert b != "" ==> NonBlank([b]) == [b] by {
      assert [b][1..] == [];
    }
    assert a != "" && b != "" ==> NonBlank([a, b]) == [a, b];
    assert a != "" ==> NonBlank([a, ""]) == [a];
    assert Join([a, b], Sep) == a + Sep + Join([b], Sep);
  }

  /**
   * `_build_pivot`: no row fields give None before the engine runs; an engine
   * error gives None; otherwise the row fields followed by the flattened value
   * headers, or a single "Count" column when no value and no column field is
   * chosen.
   */
  function BuildPivot(rows: seq<string>, cols: seq<string>, vals: seq<string>, raw: Option<RawPivot>): (r: Option<Table>)
    ensures |rows| == 0 ==> r.None?
    ensures raw.None? ==> r.None?
    ensures r.Some? ==> |r.value.cols| >= |rows| && r.value.cols[..|rows|] == rows && r.value.rows == raw.value.body
    ensures r.Some? && |vals| == 0 && |cols| == 0 ==> r.value.cols == rows + ["Count"]
    ensures r.Some? && (|vals| > 0 || |cols| > 0) ==>
      |r.value.cols| == |rows| + |raw.value.headers|
      && forall j :: 0 <= j < |raw.value.headers| ==> r.value.cols[|rows| + j] == FlattenHeader(raw.value.headers[j])
  {
    if |rows| == 0 || raw.None? then None
    else
      var heads := if |vals| == 0 && |cols| == 0 then ["Count"]
                   else seq(|raw.value.headers|, j requires 0 <= j < |raw.value.headers| => FlattenHeader(raw.value.headers[j]));
      Some(Table(rows + heads, raw.value.body))
  }

  /**
   * `_build_pivot` as written. Without value fields the engine counts rows,
   * and the count never becomes a table: with no column field the result is
   * one-dimensional, so renaming it to "Count" works but reading its column
   * labels raises; with column fields the result is two-dimensional, and
   * renaming it with a plain name raises. Either way the build gives None.
   */
  function BuildPivotAsWritten(rows: seq<string>, cols: seq<string>, vals: seq<string>, raw: Option<RawPivot>): (r: Option<Table>)
    ensures |vals| == 0 ==> r.None?
    ensures r.Some? ==> r == BuildPivot(rows, cols, vals, raw)
  {
    if |vals| == 0 then None else BuildPivot(rows, cols, vals, raw)
  }

  /**
   * Counts by one row field: the intended build has a "Count" column, or
   * one column per value of a column field; the build as written gives
   * nothing in both cases.
   */
  lemma CountPivotLost(f: string, g: string, v: string, body: seq<Row>)
    ensures BuildPivot([f], [], [], Some(RawPivot([], body))) == Some(Table([f, "Count"], body))
    ensures BuildPivotAsWritten([f], [], [], Some(RawPivot([], body))).None?
    ensures BuildPivot([f], [g], [], Some(RawPivot([Flat(v)], body))) == Some(Table([f, v], body))
    ensures BuildPivotAsWritten([f], [g], [], Some(RawPivot([Flat(v)], body))).None?
  {
    assert [f] + ["Count"] == [f, "Count"];
    var r := BuildPivot([f], [g], [], Some(RawPivot([Flat(v)], body)));
    assert r.value.cols[..1] == [f] && r.value.cols[1] == v;
    assert r.value.cols == [f, v];
  }

  /** The selection a listbox shows after names are re-selected against new items. */
  function Reselect(items: seq<string>, names: seq<string>): (m: seq<bool>)
    ensures |m| == |items|
    ensures forall i :: 0 <= i < |items| ==> m[i] == (items[i] in names)
  {
    seq(|items|, i requires 0 <= i < |items| => items[i] in names)
  }

  /** Re-selected names are exactly the old names still among the items. */
  lemma ReselectMembers(items: seq<string>, names: seq<string>, c: string)
    ensures c in Select(items, Reselect(items, names)) <==> c in items && c in names
  {
    SelectMembers(items, Reselect(items, names), c);
  }

  /** A selection that treats equal names alike. */
  predicate ByName(items: seq<string>, m: seq<bool>)
    requires |m| == |items|
  {
    forall i, j :: 0 <= i < |items| && 0 <= j < |items| && items[i] == items[j] ==> m[i] == m[j]
  }

  /** Re-selecting the names of a selection that treats equal names alike gives the selection back, even with repeated items. */
  lemma ReselectSelected(items: seq<string>, m: seq<bool>)
    requires |m| == |items| && ByName(items, m)
    ensures Reselect(items, Select(items, m)) == m
  {
    forall i | 0 <= i < |items|
      ensures Reselect(items, Select(items, m))[i] == m[i]
    {
      SelectMembers(items, m, items[i]);
    }
  }

  predicate Distinct(s: seq<string>) {
    forall i, j :: 0 <= i < j < |s| ==> s[i] != s[j]
  }

  /** With distinct items, saving the selected names and re-selecting them restores the selection. */
  lemma ReselectRoundTrip(items: seq<string>, m: seq<bool>)
    requires |m| == |items| && Distinct(items)
    ensures Reselect(items, Select(items, m)) == m
  {
    var r := Reselect(items, Select(items, m));
    forall i | 0 <= i < |items|
      ensures r[i] == m[i]
    {
      SelectMembers(items, m, items[i]);
      if items[i] in Select(items, m) {
        var j :| 0 <= j < |items| && m[j] && items[j] == items[i];
        assert j == i;
      }
    }
  }

  /** A saved pivot document, each key possibly missing; `value` is the legacy single value field. */
  datatype SavedPivot = SavedPivot(rows: Option<seq<string>>, columns: Option<seq<string>>, values: Option<seq<string>>,
                                   value: Option<string>, agg: Option<string>, generated: Option<bool>)

  function OrNames(o: Option<seq<string>>): seq<string> {
    if o.Some? then o.value else []
  }

  /** Value selection on load: the listed values, or the legacy `value` when `values` is missing. */
  function LoadValues(items: seq<string>, cfg: SavedPivot): (m: seq<bool>)
    ensures |m| == |items|
    ensures forall i :: 0 <= i < |items| ==> (m[i] ==
      (items[i] in OrNames(cfg.values) || (cfg.values.None? && items[i] == (if cfg.value.Some? then cfg.value.value else ""))))
  {
    seq(|items|, i requires 0 <= i < |items| =>
      items[i] in OrNames(cfg.values) || (cfg.values.None? && items[i] == (if cfg.value.Some? then cfg.value.value else "")))
  }

  class PivotFrame {
    var source: Option<seq<string>>
    var rowSel: seq<bool>
    var colSel: seq<bool>
    var valSel: seq<bool>
    var valueCol: string
    var agg: string
    var generated: bool

    /** The listbox items: the source table's columns. */
    function Items(): seq<string>
      reads this
    {
      if source.Some? then source.value else []
    }

    predicate Valid()
      reads this
    {
      |rowSel| == |Items()| && |colSel| == |Items()| && |valSel| == |Items()|
    }

    /** The selected field names, in listbox order. */
    function Selected(): (r: (seq<string>, seq<string>, seq<string>))
      requires Valid()
      reads this
    {
      (Select(Items(), rowSel), Select(Items(), colSel), Select(Items(), valSel))
    }

    /** Nothing selected, aggregation "sum", not generated. */
    constructor(src: Option<seq<string>>)
      ensures Valid() && source == src
      ensures rowSel == AllFalse(|Items()|) && colSel == AllFalse(|Items()|) && valSel == AllFalse(|Items()|)
      ensures valueCol == "" && agg == "sum" && !generated
    {
      source := src;
      var n := if src.Some? then |src.value| else 0;
      rowSel, colSel, valSel := AllFalse(n), AllFalse(n), AllFalse(n);
      valueCol, agg, generated := "", "sum", false;
    }

    /** `_refresh_columns`: with `keep`, re-select the old names still present, else clear the lists. */
    method RefreshColumns(keep: bool, oldItems: seq<string>, oldRows: seq<string>, oldCols: seq<string>, oldVals: seq<string>)
      requires Valid()
      modifies this
      ensures Valid() && source == old(source)
      ensures keep ==> rowSel == Reselect(Items(), oldRows) && colSel == Reselect(Items(), oldCols) && valSel == Reselect(Items(), oldVals)
      ensures keep ==> valueCol == (if old(valueCol) in Items() then old(valueCol) else "")
      ensures !keep ==> rowSel == AllFalse(|Items()|) && colSel == AllFalse(|Items()|) && valSel == AllFalse(|Items()|)
      ensures !keep ==> valueCol == old(valueCol)
      ensures agg == old(agg) && generated == old(generated)
    {
      var items := Items();
      if keep {
        rowSel, colSel, valSel := Reselect(items, oldRows), Reselect(items, oldCols), Reselect(items, oldVals);
        if valueCol !in items {
          valueCol := "";
        }
      } else {
        rowSel, colSel, valSel := AllFalse(|items|), AllFalse(|items|), AllFalse(|items|);
      }
    }

    /** `refresh_source_df`: new source, old selections kept where their names survive. */
    method RefreshSourceDf(src: Option<seq<string>>)
      requires Valid()
      modifies this
      ensures Valid() && source == src
      ensures forall c :: c in Select(Items(), rowSel) <==> c in Items() && c in old(Select(Items(), rowSel))
      ensures forall c :: c in Select(Items(), colSel) <==> c in Items() && c in old(Select(Items(), colSel))
      ensures forall c :: c in Select(Items(), valSel) <==> c in Items() && c in old(Select(Items(), valSel))
      ensures rowSel == Reselect(Items(), old(Select(Items(), rowSel))) && colSel == Reselect(Items(), old(Select(Items(), colSel)))
      ensures valSel == Reselect(Items(), old(Select(Items(), valSel)))
      ensures valueCol == (if old(valueCol) in Items() then old(valueCol) else "")
      ensures agg == old(agg) && generated == old(generated)
    {
      var sel := Selected();
      source := src;
      rowSel, colSel, valSel := AllFalse(|Items()|), AllFalse(|Items()|), AllFalse(|Items()|);
      RefreshColumns(true, Items(), sel.0, sel.1, sel.2);
      forall c
        ensures c in Select(Items(), rowSel) <==> c in Items() && c in sel.0
        ensures c in Select(Items(), colSel) <==> c in Items() && c in sel.1
        ensures c in Select(Items(), valSel) <==> c in Items() && c in sel.2
      {
        ReselectMembers(Items(), sel.0, c);
        ReselectMembers(Items(), sel.1, c);
        ReselectMembers(Items(), sel.2, c);
      }
    }

    /**
     * `_build_pivot` with the current selections, as written: it agrees
     * with the intended build whenever a value field is selected, and
     * builds nothing for a count pivot.
     */
    function Build(raw: Option<RawPivot>): (r: Option<Table>)
      requires Valid()
      reads this
      ensures |Selected().2| > 0 ==> r == BuildPivot(Selected().0, Selected().1, Selected().2, raw)
      ensures |Selected().2| == 0 ==> r.None?
    {
      var sel := Selected();
      BuildPivotAsWritten(sel.0, sel.1, sel.2, raw)
    }

    /** A count pivot with engine output: the frame builds nothing, where the intended build gives a table. */
    lemma CountPivotNotBuilt(raw: Option<RawPivot>)
      requires Valid() && |Selected().0| > 0 && |Selected().2| == 0 && raw.Some?
      ensures Build(raw).None?
      ensures BuildPivot(Selected().0, Selected().1, Selected().2, raw).Some?
    {
    }

    /** `_preview`: shows the pivot when one is built and non-empty; never touches the state. */
    method Preview(df: Option<Table>, raw: Option<RawPivot>) returns (shown: Option<Table>)
      requires Valid()
      ensures shown.Some? <==> df.Some? && Build(raw).Some? && !IsEmpty(Build(raw).value)
      ensures shown.Some? ==> shown == Build(raw)
    {
      if df.None? {
        return None;
      }
      var pt := Build(raw);
      if pt.None? || IsEmpty(pt.value) {
        return None;
      }
      return pt;
    }

    /** `_generate`: sets `generated` only once a pivot was built. */
    method Generate(df: Option<Table>, raw: Option<RawPivot>) returns (shown: Option<Table>)
      requires Valid()
      modifies this
      ensures Valid()
      ensures generated == (old(generated) || (df.Some? && old(Build(raw)).Some?))
      ensures shown == (if df.Some? then old(Build(raw)) else None)
      ensures |old(Selected()).2| == 0 ==> shown.None? && generated == old(generated)
      ensures source == old(source) && rowSel == old(rowSel) && colSel == old(colSel) && valSel == old(valSel)
      ensures valueCol == old(valueCol) && agg == old(agg)
    {
      if df.None? {
        return None;
      }
      var pt := Build(raw);
      if pt.None? {
        return None;
      }
      generated := true;
      return pt;
    }

    /** `apply_pivot_if_requested`: the pivot when generated and built, the input otherwise. */
    method ApplyPivotIfRequested(df: Table, raw: Option<RawPivot>) returns (out: Table)
      requires Valid()
      ensures !generated ==> out == df
      ensures generated && Build(raw).None? ==> out == df
      ensures generated && Build(raw).Some? ==> out == Build(raw).value
      ensures |Selected().0| == 0 || |Selected().2| == 0 ==> out == df
    {
      if !generated {
        return df;
      }
      var pt := Build(raw);
      out := if pt.Some? then pt.value else df;
    }

    /** `reset`: not generated, nothing selected, no value column, aggregation "sum". */
    method Reset()
      requires Valid()
      modifies this
      ensures Valid() && source == old(source)
      ensures !generated && valueCol == "" && agg == "sum"
      ensures rowSel == AllFalse(|Items()|) && colSel == AllFalse(|Items()|) && valSel == AllFalse(|Items()|)
    {
      var n := |Items()|;
      generated := false;
      rowSel, colSel, valSel := AllFalse(n), AllFalse(n), AllFalse(n);
      valueCol := "";
      agg := "sum";
    }

    /** `get_config`. */
    function GetConfig(): (cfg: SavedPivot)
      requires Valid()
      reads this
      ensures cfg.values.Some? && cfg.agg == Some(agg) && cfg.generated == Some(generated)
      ensures Distinct(Items()) ==>
        Reselect(Items(), OrNames(cfg.rows)) == rowSel && Reselect(Items(), OrNames(cfg.columns)) == colSel
        && LoadValues(Items(), cfg) == valSel
    {
      var sel := Selected();
      var cfg := SavedPivot(Some(sel.0), Some(sel.1), Some(sel.2), None, Some(agg), Some(generated));
      if Distinct(Items()) then
        PivotConfigRoundTrip(Items(), rowSel, colSel, valSel, agg, generated);
        cfg
      else cfg
    }

    /** `load_config`: reset, then select only saved names present among the items. */
    method LoadConfig(cfg: SavedPivot)
      requires Valid()
      modifies this
      ensures Valid() && source == old(source)
      ensures rowSel == Reselect(Items(), OrNames(cfg.rows)) && colSel == Reselect(Items(), OrNames(cfg.columns))
      ensures valSel == LoadValues(Items(), cfg)
      ensures valueCol == ""
      ensures agg == (if cfg.agg.Some? then cfg.agg.value else "sum")
      ensures generated == (cfg.generated.Some? && cfg.generated.value)
    {
      Reset();
      var items := Items();
      rowSel := Reselect(items, OrNames(cfg.rows));
      colSel := Reselect(items, OrNames(cfg.columns));
      valSel := LoadValues(items, cfg);
      agg := if cfg.agg.Some? then cfg.agg.value else "sum";
      generated := cfg.generated.Some? && cfg.generated.value;
    }
  }

  /** Loading what `get_config` saved restores all three selections, when the columns are distinct. */
  lemma PivotConfigRoundTrip(items: seq<string>, rowSel: seq<bool>, colSel: seq<bool>, valSel: seq<bool>, agg: string, generated: bool)
    requires Distinct(items) && |rowSel| == |items| && |colSel| == |items| && |valSel| == |items|
    ensures var cfg := SavedPivot(Some(Select(items, rowSel)), Some(Select(items, colSel)), Some(Select(items, valSel)),
                                  None, Some(agg), Some(generated));
      Reselect(items, OrNames(cfg.rows)) == rowSel && Reselect(items, OrNames(cfg.columns)) == colSel
      && LoadValues(items, cfg) == valSel
  {
    ReselectRoundTrip(items, rowSel);
    ReselectRoundTrip(items, colSel);
    ReselectRoundTrip(items, valSel);
    var cfg := SavedPivot(Some(Select(items, rowSel)), Some(Select(items, colSel)), Some(Select(items, valSel)),
                          None, Some(agg), Some(generated));
    assert LoadValues(items, cfg) == Reselect(items, Select(items, valSel));
  }

  /** Without a `values` key the legacy `value` name is selected, when present among the items. */
  lemma LegacyValue(items: seq<string>, v: string, agg: Option<string>)
    ensures var cfg := SavedPivot(None, None, None, Some(v), agg, None);
      forall c :: c in Select(items, LoadValues(items, cfg)) <==> c in items && c == v
  {
    var cfg := SavedPivot(None, None, None, Some(v), agg, None);
    forall c
      ensures c in Select(items, LoadValues(items, cfg)) <==> c in items && c == v
    {
      SelectMembers(items, LoadValues(items, cfg), c);
    }
  }
}
