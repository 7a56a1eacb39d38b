/**
 * Presets (presets.py): the list of saved presets, the document `save`
 * assembles from the sheets, `load` rebuilding the sheets from a document,
 * and `apply_preset_to_df`, which runs the first sheet's settings on a table.
 * Reading and writing the JSON files is not modelled: documents are values.
 */
module Presets {
  import opened TableModel
  import Sorting
  import Filters
  import Sorts
  import Columns
  import Pivot
  import VlookupSettings
  import MainApp
  import Batch

  // ------------------------------------------------------------ the list

  predicate IsJson(f: string) {
    |f| >= 5 && f[|f| - 5..] == ".json"
  }

  /** `n` is the name of the preset file `f`: `f` ends in `.json` and `n` is the rest. */
  predicate StemOf(f: string, n: string) {
    IsJson(f) && n == f[..|f| - 5]
  }

  /** `f[:-5]` of every `.json` file, in directory order. */
  function Stems(files: seq<string>): (r: seq<string>)
    ensures |r| <= |files|
    decreases |files|
  {
    if |files| == 0 then []
    else if IsJson(files[0]) then [files[0][..|files[0]| - 5]] + Stems(files[1..])
    else Stems(files[1..])
  }

  /** The stems are exactly the names of the `.json` files. */
  lemma {:induction false} StemsMembers(files: seq<string>, n: string)
    ensures n in Stems(files) <==> exists f :: f in files && StemOf(f, n)
    decreases |files|
  {
    if |files| > 0 {
      StemsMembers(files[1..], n);
      if exists f :: f in files && StemOf(f, n) {
        var f :| f in files && StemOf(f, n);
        if f != files[0] {
          assert f in files[1..];
        }
      }
      if n in Stems(files[1..]) {
        var f :| f in files[1..] && StemOf(f, n);
        assert f in files;
      }
      if StemOf(files[0], n) {
        assert files[0] in files;
      }
    }
  }

  predicate LexLe(a: string, b: string) {
    !LexLess(b, a)
  }

  predicate SortedLex(s: seq<string>) {
    forall i, j :: 0 <= i < j < |s| ==> LexLe(s[i], s[j])
  }

  /** Insert `x` after every name that does not sort after it. */
  function InsertLex(x: string, s: seq<string>): (r: seq<string>)
    ensures multiset(r) == multiset(s) + multiset{x}
    decreases |s|
  {
    if |s| == 0 || LexLe(s[|s| - 1], x) then s + [x]
    else
      var init := s[..|s| - 1];
      assert s == init + [s[|s| - 1]];
      InsertLex(x, init) + [s[|s| - 1]]
  }

  /** `sorted(...)` on names: a stable insertion sort by code points. */
  function SortLex(xs: seq<string>): (r: seq<string>)
    ensures multiset(r) == multiset(xs)
    decreases |xs|
  {
    if |xs| == 0 then []
    else
      var init := xs[..|xs| - 1];
      assert xs == init + [xs[|xs| - 1]];
      InsertLex(xs[|xs| - 1], SortLex(init))
  }

  lemma LexLeTotal(a: string, b: string)
    ensures LexLe(a, b) || LexLe(b, a)
  {
    Sorting.LexAsym(a, b);
  }

  lemma LexLeTrans(a: string, b: string, c: string)
    requires LexLe(a, b) && LexLe(b, c)
    ensures LexLe(a, c)
  {
    Sorting.LexTotal(a, b);
    Sorting.LexTotal(b, c);
    if LexLess(c, a) {
      if a == b {
      } else if b == c {
      } else {
        Sorting.LexTrans(c, a, b);
      }
    }
  }

  lemma {:induction false} InsertLexSorted(x: string, s: seq<string>)
    requires SortedLex(s)
    ensures SortedLex(InsertLex(x, s))
    decreases |s|
  {
    var r := InsertLex(x, s);
    if |s| == 0 || LexLe(s[|s| - 1], x) {
      forall i, j | 0 <= i < j < |r|
        ensures LexLe(r[i], r[j])
      {
        if j == |s| && i < |s| - 1 {
          LexLeTrans(s[i], s[|s| - 1], x);
        }
      }
    } else {
      var init, l := s[..|s| - 1], s[|s| - 1];
      InsertLexSorted(x, init);
      var r0 := InsertLex(x, init);
      assert r == r0 + [l];
      LexLeTotal(l, x);
      forall i | 0 <= i < |r0|
        ensures LexLe(r0[i], l)
      {
        assert r0[i] in multiset(init) + multiset{x};
        if r0[i] != x {
          assert r0[i] in multiset(init);
          var m :| 0 <= m < |init| && init[m] == r0[i];
          assert s[m] == r0[i];
        }
      }
    }
  }

  lemma {:induction false} SortLexSorted(xs: seq<string>)
    ensures SortedLex(SortLex(xs))
    decreases |xs|
  {
    if |xs| > 0 {
      SortLexSorted(xs[..|xs| - 1]);
      InsertLexSorted(xs[|xs| - 1], SortLex(xs[..|xs| - 1]));
    }
  }

  /** `list_presets` over the names in the preset directory. */
  function ListPresets(files: seq<string>): seq<string> {
    SortLex(Stems(files))
  }

  /** The presets are the `.json` file names without their suffix, each as often as listed, in sorted order. */
  lemma ListPresetsFacts(files: seq<string>)
    ensures SortedLex(ListPresets(files))
    ensures multiset(ListPresets(files)) == multiset(Stems(files))
    ensures forall n :: n in ListPresets(files) <==> exists f :: f in files && StemOf(f, n)
  {
    SortLexSorted(Stems(files));
    forall n
      ensures n in ListPresets(files) <==> exists f :: f in files && StemOf(f, n)
    {
      assert n in ListPresets(files) <==> n in multiset(ListPresets(files));
      assert n in Stems(files) <==> n in multiset(Stems(files));
      StemsMembers(files, n);
    }
  }

  // ----------------------------------------------------------- documents

  /** One saved sheet; every key may be missing from a document read back. */
  datatype SheetEntry = SheetEntry(name: Option<string>, filters: Option<map<string, seq<Filters.Preset>>>,
                                   sorts: Option<map<string, seq<seq<string>>>>, columns: Option<Columns.SavedColumns>,
                                   pivot: Option<Pivot.SavedPivot>, vlookup: Option<map<string, string>>)

  /** The entry `save` writes for a sheet with these settings. */
  function EntryOf(name: string, frows: seq<Filters.FilterRow>, srows: seq<Sorts.SortRow>, cc: Columns.ColumnsConfig,
                   pv: Pivot.SavedPivot, vl: map<string, string>): SheetEntry {
    SheetEntry(Some(name), Some(map["filters" := Filters.ConfigOf(frows)]),
               Some(map["sorts" := Sorts.Tuples(Sorts.ConfigOf(srows))]), Some(Columns.Save(cc)), Some(pv), Some(vl))
  }

  /** The `get_config` of each of a sheet's frames, under the sheet's name. */
  function Entry(s: MainApp.Sheet): (e: SheetEntry)
    requires s.sorts.Valid() && s.pivot.Valid()
    reads s.filters, s.sorts, s.columns, s.pivot, s.vlookup
    ensures e.filters == Some(s.filters.GetConfig()) && e.columns == Some(s.columns.GetConfig())
    ensures e.sorts == Some(map["sorts" := Sorts.Tuples(s.sorts.GetConfig())])
  {
    EntryOf(s.name, s.filters.rows, s.sorts.rows, s.columns.Config(), s.pivot.GetConfig(), s.vlookup.GetConfig())
  }

  predicate Saveable(sheets: seq<MainApp.Sheet>)
    reads set k | 0 <= k < |sheets| :: sheets[k].sorts
    reads set k | 0 <= k < |sheets| :: sheets[k].pivot
  {
    forall k :: 0 <= k < |sheets| ==> sheets[k].sorts.Valid() && sheets[k].pivot.Valid()
  }

  /**
   * `save`: nothing without sheets or without a preset name; otherwise a
   * document with one entry per sheet, in order.
   */
  method Save(app: MainApp.App, name: string) returns (doc: Option<seq<SheetEntry>>)
    requires Saveable(app.sheets)
    ensures doc.Some? <==> |app.sheets| > 0 && name != ""
    ensures doc.Some? ==> |doc.value| == |app.sheets|
    ensures doc.Some? ==> forall k :: 0 <= k < |app.sheets| ==> doc.value[k] == Entry(app.sheets[k])
  {
    if |app.sheets| == 0 || name == "" {
      return None;
    }
    var sheets := app.sheets;
    var entries: seq<SheetEntry> := [];
    var i := 0;
    while i < |sheets|
      invariant 0 <= i <= |sheets| && |entries| == i
      invariant forall k :: 0 <= k < i ==> entries[k] == Entry(sheets[k])
    {
      entries := entries + [Entry(sheets[i])];
      i := i + 1;
    }
    return Some(entries);
  }

  // ---------------------------------------------------------------- load

  /** `sheet_cfg.get("name", "Sheet")`. */
  function NameOf(e: SheetEntry): string {
    if e.name.Some? then e.name.value else "Sheet"
  }

  function FilterData(e: SheetEntry): seq<Filters.Preset> {
    if e.filters.Some? && "filters" in e.filters.value then e.filters.value["filters"] else []
  }

  function SortData(e: SheetEntry): seq<seq<string>> {
    if e.sorts.Some? && "sorts" in e.sorts.value then e.sorts.value["sorts"] else []
  }

  function ColumnsData(e: SheetEntry): Columns.SavedColumns {
    if e.columns.Some? then e.columns.value else Columns.SavedColumns(None, None, None)
  }

  function PivotData(e: SheetEntry): Pivot.SavedPivot {
    if e.pivot.Some? then e.pivot.value else Pivot.SavedPivot(None, None, None, None, None, None)
  }

  function VlookupData(e: SheetEntry): map<string, string> {
    if e.vlookup.Some? then e.vlookup.value else map[]
  }

  /** One VLOOKUP field of the entry, "" when missing. */
  function VlookupField(e: SheetEntry, k: string): string {
    VlookupSettings.GetOr(VlookupData(e), k)
  }

  /** Whether the entry's sort rows all unpack. */
  predicate SortsUnpack(e: SheetEntry) {
    Sorts.AllParse(SortData(e))
  }

  /**
   * The column settings of a sheet created over a table with columns `cols`,
   * loaded from `saved`, then reconciled with the same columns.
   */
  function LoadedColumns(cols: seq<string>, saved: Columns.SavedColumns): (c: Columns.ColumnsConfig)
    ensures forall x :: x in c.order <==> x in cols
  {
    var r := Columns.Restore(Columns.ColumnsConfig(cols, Columns.AllVisible(cols), false, ""), saved);
    var order := Columns.ReconciledOrder(r.order, cols);
    Columns.ReconciledColumns(r.order, r.visible, cols);
    Columns.ColumnsConfig(order, Columns.ReconciledVisible(r.order, r.visible, cols), r.enabled,
                          if r.column in order then r.column else "")
  }

  /** Everything a sheet's frames hold, as values. */
  datatype SheetState = SheetState(name: string, filterRows: seq<Filters.FilterRow>, sortRows: seq<Sorts.SortRow>,
                                   columns: Columns.ColumnsConfig, columnsSource: Option<Table>,
                                   pivotSource: Option<seq<string>>, rowSel: seq<bool>, colSel: seq<bool>, valSel: seq<bool>,
                                   valueCol: string, agg: string, generated: bool,
                                   mainKeys: string, lookupKeys: string, values: string, prefix: string, defaultFill: string,
                                   vlookupColumns: seq<string>)

  function State(s: MainApp.Sheet): SheetState
    reads s.filters, s.sorts, s.columns, s.pivot, s.vlookup
  {
    SheetState(s.name, s.filters.rows, s.sorts.rows, Columns.ColumnsConfig(s.columns.order, s.columns.visible, s.columns.enabled, s.columns.column), s.columns.source,
               s.pivot.source, s.pivot.rowSel, s.pivot.colSel, s.pivot.valSel, s.pivot.valueCol, s.pivot.agg, s.pivot.generated,
               s.vlookup.mainKeys, s.vlookup.lookupKeys, s.vlookup.values, s.vlookup.prefix, s.vlookup.defaultFill, s.vlookup.columns)
  }

  /**
   * The sheet `load` builds from entry `e` over the table `df`: named by the
   * entry ("Sheet" when missing); the saved filter and sort rows after the
   * blank first row; the saved column settings reconciled with the table's
   * columns; the saved pivot names selected among those columns, no value
   * column, "sum" and not generated by default; the five VLOOKUP fields.
   */
  function Expected(e: SheetEntry, df: Table): (st: SheetState)
    ensures |st.filterRows| == |FilterData(e)| + 1
    ensures forall x :: x in st.columns.order <==> x in df.cols
    ensures |st.rowSel| == |df.cols| && |st.colSel| == |df.cols| && |st.valSel| == |df.cols|
  {
    var p := PivotData(e);
    SheetState(NameOf(e), Filters.LoadedRows(FilterData(e)), Sorts.LoadSpec(SortData(e), [Sorts.NewSortRow(0, None)]).0,
               LoadedColumns(df.cols, ColumnsData(e)), Some(df),
               Some(df.cols), Pivot.Reselect(df.cols, Pivot.OrNames(p.rows)), Pivot.Reselect(df.cols, Pivot.OrNames(p.columns)),
               Pivot.LoadValues(df.cols, p), "", if p.agg.Some? then p.agg.value else "sum", p.generated.Some? && p.generated.value,
               VlookupField(e, "main_keys"), VlookupField(e, "lookup_keys"), VlookupField(e, "values"),
               VlookupField(e, "prefix"), VlookupField(e, "default_fill"), [])
  }

  /** A sheet `load` rebuilt from entry `e` over the table `df`. */
  predicate LoadedSheet(s: MainApp.Sheet, e: SheetEntry, df: Table)
    reads s.filters, s.sorts, s.columns, s.pivot, s.vlookup
  {
    State(s) == Expected(e, df)
  }

  /** Restores one freshly added sheet from its entry, then wires the data into its columns and pivot frames. */
  method LoadEntry(s: MainApp.Sheet, e: SheetEntry, df: Table) returns (ok: bool)
    requires MainApp.FreshSheet(s, NameOf(e), df)
    modifies s.filters, s.sorts, s.columns, s.pivot, s.vlookup
    ensures ok == SortsUnpack(e)
    ensures ok ==> LoadedSheet(s, e, df)
  {
    s.filters.LoadConfig(if e.filters.Some? then e.filters.value else map[]);
    ok := s.sorts.LoadConfig(if e.sorts.Some? then e.sorts.value else map[]);
    Sorts.LoadSpecOk(SortData(e), [Sorts.NewSortRow(0, None)]);
    if ok {
      LoadRest(s, e, df);
    }
  }

  /** The columns, pivot and VLOOKUP part of restoring a sheet, once its sort rows unpacked. */
  method LoadRest(s: MainApp.Sheet, e: SheetEntry, df: Table)
    requires s.columns.Config() == Columns.ColumnsConfig(df.cols, Columns.AllVisible(df.cols), false, "")
    requires s.pivot.Valid() && s.pivot.source == Some(df.cols) && s.vlookup.columns == []
    modifies s.columns, s.pivot, s.vlookup
    ensures var x := Expected(e, df);
      s.columns.Config() == x.columns && s.columns.source == x.columnsSource
      && s.pivot.source == x.pivotSource && s.pivot.rowSel == x.rowSel && s.pivot.colSel == x.colSel && s.pivot.valSel == x.valSel
      && s.pivot.valueCol == x.valueCol && s.pivot.agg == x.agg && s.pivot.generated == x.generated
      && s.vlookup.mainKeys == x.mainKeys && s.vlookup.lookupKeys == x.lookupKeys && s.vlookup.values == x.values
      && s.vlookup.prefix == x.prefix && s.vlookup.defaultFill == x.defaultFill && s.vlookup.columns == x.vlookupColumns
  {
    s.columns.LoadConfig(ColumnsData(e));
    s.pivot.LoadConfig(PivotData(e));
    s.vlookup.LoadConfig(VlookupData(e));
    s.columns.RefreshSourceDf(Some(df));
    Pivot.ReselectSelected(s.pivot.Items(), s.pivot.rowSel);
    Pivot.ReselectSelected(s.pivot.Items(), s.pivot.colSel);
    Pivot.ReselectSelected(s.pivot.Items(), s.pivot.valSel);
    s.pivot.RefreshSourceDf(Some(df.cols));
  }

  /**
   * Whether `exp` lists what each entry restores to over `df`. The trigger
   * keeps `load`'s loop from unfolding `Expected`: only a step that restores
   * a sheet mentions it.
   */
  ghost predicate ExpectedAll(entries: seq<SheetEntry>, df: Table, exp: seq<SheetState>) {
    |exp| == |entries| && forall k {:trigger Expected(entries[k], df)} :: 0 <= k < |entries| ==> exp[k] == Expected(entries[k], df)
  }

  /** `add_sheet` as `load` calls it: the new sheet shares no tab with the sheets already there, which stay as they were. */
  method AddFresh(app: MainApp.App, name: string, df: Table) returns (s: MainApp.Sheet)
    requires app.df == Some(df)
    modifies app
    ensures app.df == old(app.df) && |app.sheets| == |old(app.sheets)| + 1 && s == app.sheets[|app.sheets| - 1]
    ensures MainApp.FreshSheet(s, name, df)
    ensures fresh(s.filters) && fresh(s.sorts) && fresh(s.columns) && fresh(s.pivot) && fresh(s.vlookup)
    ensures forall k :: 0 <= k < |old(app.sheets)| ==> app.sheets[k] == old(app.sheets[k]) && MainApp.Apart(app.sheets[k], s)
    ensures forall k :: 0 <= k < |old(app.sheets)| ==> State(app.sheets[k]) == old(State(app.sheets[k]))
  {
    app.AddSheet(name);
    s := app.sheets[|app.sheets| - 1];
  }

  /**
   * `LoadEntry` for entry `i` of a document whose expected states are `exp`;
   * the sheets in `others` share no tab with `s` and stay as they were.
   */
  method RestoreInto(s: MainApp.Sheet, entries: seq<SheetEntry>, i: nat, df: Table, ghost exp: seq<SheetState>,
                     ghost others: seq<MainApp.Sheet>) returns (ok: bool)
    requires i < |entries| && ExpectedAll(entries, df, exp) && MainApp.FreshSheet(s, NameOf(entries[i]), df)
    requires forall k :: 0 <= k < |others| ==> MainApp.Apart(others[k], s)
    modifies s.filters, s.sorts, s.columns, s.pivot, s.vlookup
    ensures ok == SortsUnpack(entries[i])
    ensures ok ==> State(s) == exp[i]
    ensures forall k :: 0 <= k < |others| ==> State(others[k]) == old(State(others[k]))
  {
    ok := LoadEntry(s, entries[i], df);
  }

  /**
   * One round of `load`'s loop: adds a sheet named after the next entry and
   * restores it over `df`; the sheets restored before stay as they were.
   */
  method LoadStep(app: MainApp.App, entries: seq<SheetEntry>, df: Table, ghost exp: seq<SheetState>) returns (ok: bool)
    requires app.df == Some(df) && |app.sheets| < |entries| && ExpectedAll(entries, df, exp)
    requires forall k :: 0 <= k < |app.sheets| ==> app.sheets[k].name == NameOf(entries[k]) && State(app.sheets[k]) == exp[k]
    modifies app
    ensures app.df == old(app.df) && |app.sheets| == |old(app.sheets)| + 1
    ensures ok == SortsUnpack(entries[|app.sheets| - 1])
    ensures app.sheets[|app.sheets| - 1].name == NameOf(entries[|app.sheets| - 1])
    ensures forall k :: 0 <= k < |app.sheets| - 1 ==> app.sheets[k].name == NameOf(entries[k]) && State(app.sheets[k]) == exp[k]
    ensures ok ==> forall k :: 0 <= k < |app.sheets| ==> app.sheets[k].name == NameOf(entries[k]) && State(app.sheets[k]) == exp[k]
  {
    var i := |app.sheets|;
    var s := AddFresh(app, NameOf(entries[i]), df);
    ok := RestoreInto(s, entries, i, df, exp, app.sheets[..i]);
  }

  /**
   * `load`: every sheet is discarded, then one sheet per entry is added and
   * restored. Without data no sheet can be added, so a non-empty document
   * fails at its first entry; an entry whose sort rows do not unpack stops
   * the load there (`ok` false), after adding that entry's sheet.
   */
  method Load(app: MainApp.App, entries: seq<SheetEntry>) returns (ok: bool)
    modifies app
    ensures app.df == old(app.df)
    ensures ok <==> |entries| == 0 || (app.df.Some? && forall k :: 0 <= k < |entries| ==> SortsUnpack(entries[k]))
    ensures ok ==> |app.sheets| == |entries|
    ensures |app.sheets| <= |entries|
    ensures app.df.None? ==> app.sheets == []
    ensures app.df.Some? ==> forall k :: 0 <= k < |app.sheets| && (ok || k < |app.sheets| - 1) ==>
      LoadedSheet(app.sheets[k], entries[k], app.df.value)
    ensures forall k :: 0 <= k < |app.sheets| ==> app.sheets[k].name == NameOf(entries[k])
  {
    app.sheets := [];
    if app.df.None? {
      return |entries| == 0;
    }
    var df := app.df.value;
    ghost var exp := seq(|entries|, k requires 0 <= k < |entries| => Expected(entries[k], df));
    ok := LoadAll(app, entries, df, exp);
  }

  /** `load`'s loop over the entries, once the sheets are discarded and data is present. */
  method LoadAll(app: MainApp.App, entries: seq<SheetEntry>, df: Table, ghost exp: seq<SheetState>) returns (ok: bool)
    requires app.df == Some(df) && app.sheets == [] && ExpectedAll(entries, df, exp)
    modifies app
    ensures app.df == old(app.df)
    ensures ok <==> forall k :: 0 <= k < |entries| ==> SortsUnpack(entries[k])
    ensures ok ==> |app.sheets| == |entries|
    ensures |app.sheets| <= |entries|
    ensures forall k :: 0 <= k < |app.sheets| && (ok || k < |app.sheets| - 1) ==> State(app.sheets[k]) == exp[k]
    ensures forall k :: 0 <= k < |app.sheets| ==> app.sheets[k].name == NameOf(entries[k])
  {
    var i := 0;
    while i < |entries|
      invariant 0 <= i <= |entries| && |app.sheets| == i
      invariant app.df == Some(df)
      invariant forall k :: 0 <= k < i ==> SortsUnpack(entries[k])
      invariant forall k :: 0 <= k < |app.sheets| ==> app.sheets[k].name == NameOf(entries[k]) && State(app.sheets[k]) == exp[k]
    {
      ok := LoadStep(app, entries, df, exp);
      if !ok {
        return;
      }
      i := i + 1;
    }
    return true;
  }

  // --------------------------------------------------------- round trips

  /** `VisibleList` over a reconciled order and its flags equals the list over the old order and flags. */
  lemma {:induction false} VisibleListKeepIn(order: seq<string>, v1: map<string, bool>, v2: map<string, bool>, cols: seq<string>)
    requires forall c :: c in order && c in cols ==> Columns.IsVisible(v1, c) == Columns.IsVisible(v2, c)
    ensures Columns.VisibleList(Columns.KeepIn(order, cols), v2, cols) == Columns.VisibleList(order, v1, cols)
    decreases |order|
  {
    if |order| > 0 {
      VisibleListKeepIn(order[1..], v1, v2, cols);
      if order[0] in cols {
        assert Columns.KeepIn(order, cols) == [order[0]] + Columns.KeepIn(order[1..], cols);
        assert Columns.KeepIn(order, cols)[1..] == Columns.KeepIn(order[1..], cols);
      } else {
        assert Columns.KeepIn(order, cols) == Columns.KeepIn(order[1..], cols);
      }
    }
  }

  /** Reloading saved column settings over a table whose columns they all list applies alike. */
  lemma ColumnsReload(cc: Columns.ColumnsConfig, t: Table)
    requires forall c :: c in t.cols ==> c in cc.order
    ensures Columns.Apply(LoadedColumns(t.cols, Columns.Save(cc)), t) == Columns.Apply(cc, t)
  {
    var init := Columns.ColumnsConfig(t.cols, Columns.AllVisible(t.cols), false, "");
    Columns.RestoreSaved(init, cc);
    var l := LoadedColumns(t.cols, Columns.Save(cc));
    assert Columns.AppendMissing(cc.order, t.cols) == cc.order;
    assert l.order == Columns.KeepIn(cc.order, t.cols);
    forall c | c in cc.order && c in t.cols
      ensures Columns.IsVisible(cc.visible, c) == Columns.IsVisible(l.visible, c)
    {
      assert c in l.order;
    }
    VisibleListKeepIn(cc.order, cc.visible, l.visible, t.cols);
    assert Columns.DedupeApplies(l, t) == Columns.DedupeApplies(cc, t);
  }

  /**
   * Saving a sheet's settings and loading the entry back over the same data
   * gives a sheet whose base pipeline produces the same table, when the
   * column order lists every column of the data (as it does for any sheet
   * created over it).
   */
  lemma ReloadSameOutput(df: Table, name: string, frows: seq<Filters.FilterRow>, srows: seq<Sorts.SortRow>,
                         cc: Columns.ColumnsConfig, pv: Pivot.SavedPivot, vl: map<string, string>)
    requires Sorts.RowsValid(srows)
    requires forall c :: c in df.cols ==> c in cc.order
    ensures var e := EntryOf(name, frows, srows, cc, pv, vl);
      SortsUnpack(e)
      && MainApp.BaseSpec(df, Filters.LoadedRows(FilterData(e)), Sorts.LoadSpec(SortData(e), [Sorts.NewSortRow(0, None)]).0,
                          LoadedColumns(df.cols, ColumnsData(e)))
         == MainApp.BaseSpec(df, frows, srows, cc)
  {
    var e := EntryOf(name, frows, srows, cc, pv, vl);
    Filters.FilterConfigRoundTrip(frows, df);
    Sorts.SortConfigRoundTrip(srows, Keep(df, frows));
    Sorts.SortConfigReload(srows);
    Sorts.LoadSpecOk(SortData(e), [Sorts.NewSortRow(0, None)]);
    var f := MainApp.Keep(df, Filters.FilterSpec(frows, df));
    if Filters.FilterSpec(frows, df).Some? {
      Filters.FilterIsOrderedSubset(frows, df);
    }
    var s := MainApp.Keep(f, Sorts.SortSpec(srows, f));
    Sorts.SortsPermutesAndOrders(srows, f);
    ColumnsReload(cc, s);
  }

  function Keep(df: Table, frows: seq<Filters.FilterRow>): Table {
    MainApp.Keep(df, Filters.FilterSpec(frows, df))
  }

  // ------------------------------------------------------ apply to a table

  /** `df[df[col].astype(str) == str(val)]` when `col` is a column; the table otherwise. */
  function EqualityFilter(t: Table, col: string, val: string): (r: Table)
    ensures r.cols == t.cols
  {
    if col in t.cols then Table(t.cols, Select(t.rows, seq(|t.rows|, i requires 0 <= i < |t.rows| => Str(Get(t.rows[i], col)) == val)))
    else t
  }

  /** The extra filters, one after the other. */
  function ExtraFilters(t: Table, extra: seq<(string, string)>): (r: Table)
    ensures r.cols == t.cols
    decreases |extra|
  {
    if |extra| == 0 then t else ExtraFilters(EqualityFilter(t, extra[0].0, extra[0].1), extra[1..])
  }

  /**
   * `apply_preset_to_df` on a document's `sheets` list: the table itself
   * without sheets; otherwise the first sheet's filters, the extra equality
   * filters, its sorts and its columns, each stage only when its key is
   * present. A filter or sort stage that raises, or a saved sort entry that
   * does not unpack, makes the whole call raise (None).
   */
  function PresetSpec(df: Table, sheets: Option<seq<SheetEntry>>, extra: seq<(string, string)>): Option<Table> {
    if sheets.None? || |sheets.value| == 0 then Some(df)
    else
      var e := sheets.value[0];
      var f := if e.filters.Some? then Filters.FilterSpec(Filters.LoadedRows(FilterData(e)), df) else Some(df);
      if f.None? then None
      else
        var x := ExtraFilters(f.value, extra);
        var loaded := Sorts.LoadSpec(SortData(e), [Sorts.NewSortRow(0, None)]);
        if e.sorts.Some? && !loaded.1 then None
        else
          var so := if e.sorts.Some? then Sorts.SortSpec(loaded.0, x) else Some(x);
          if so.None? then None
          else
            var s := so.value;
            if e.columns.Some? then
              Some(Columns.Apply(Columns.Restore(Columns.ColumnsConfig(s.cols, Columns.AllVisible(s.cols), false, ""), e.columns.value), s))
            else Some(s)
  }

  /** The stages of `apply_preset_to_df`, each on a frame made for the purpose. */
  method ApplyPresetToDf(df: Table, sheets: Option<seq<SheetEntry>>, extra: seq<(string, string)>) returns (res: Option<Table>)
    ensures res == PresetSpec(df, sheets, extra)
  {
    if sheets.None? || |sheets.value| == 0 {
      return Some(df);
    }
    var e := sheets.value[0];
    var cur := df;
    if e.filters.Some? {
      var f := new Filters.FiltersFrame();
      f.LoadConfig(e.filters.value);
      var r := f.ApplyFilters(cur);
      if r.None? {
        return None;
      }
      cur := r.value;
    }
    var i := 0;
    while i < |extra|
      invariant 0 <= i <= |extra|
      invariant ExtraFilters(cur, extra[i..]) == ExtraFilters(FilterStage(df, e), extra)
    {
      assert extra[i..][1..] == extra[i + 1..];
      var (col, val) := extra[i];
      if col in cur.cols {
        cur := EqualityFilter(cur, col, val);
      }
      i := i + 1;
    }
    if e.sorts.Some? {
      var s := new Sorts.SortsFrame();
      var ok := s.LoadConfig(e.sorts.value);
      if !ok {
        return None;
      }
      var sorted := s.ApplySorts(cur);
      if sorted.None? {
        return None;
      }
      cur := sorted.value;
    }
    if e.columns.Some? {
      var c := new Columns.ColumnsManager(Some(cur));
      c.LoadConfig(e.columns.value);
      cur := Columns.Apply(c.Config(), cur);
    }
    return Some(cur);
  }

  /** The table after the filter stage, when it does not raise. */
  function FilterStage(df: Table, e: SheetEntry): Table {
    if e.filters.Some? && Filters.FilterSpec(Filters.LoadedRows(FilterData(e)), df).Some?
    then Filters.FilterSpec(Filters.LoadedRows(FilterData(e)), df).value
    else df
  }

  /** Every extra filter naming a column holds on the row. */
  predicate PassesExtra(x: Row, extra: seq<(string, string)>, cols: seq<string>) {
    forall p :: p in extra && p.0 in cols ==> Str(Get(x, p.0)) == p.1
  }

  /**
   * The extra filters keep exactly the input rows on which every filter
   * naming a column holds, in their input order.
   */
  lemma {:induction false} ExtraFiltersRows(t: Table, extra: seq<(string, string)>)
    ensures forall x :: x in ExtraFilters(t, extra).rows ==> x in t.rows && PassesExtra(x, extra, t.cols)
    ensures forall x :: x in t.rows && PassesExtra(x, extra, t.cols) ==> x in ExtraFilters(t, extra).rows
    ensures Subseq(ExtraFilters(t, extra).rows, t.rows)
    decreases |extra|
  {
    ExtraFiltersKeeps(t, extra);
    if |extra| > 0 {
      var u := EqualityFilter(t, extra[0].0, extra[0].1);
      ExtraFiltersRows(u, extra[1..]);
      forall x | x in ExtraFilters(t, extra).rows
        ensures x in t.rows && PassesExtra(x, extra, t.cols)
      {
        if extra[0].0 in t.cols {
          var m := seq(|t.rows|, i requires 0 <= i < |t.rows| => Str(Get(t.rows[i], extra[0].0)) == extra[0].1);
          SelectMembers(t.rows, m, x);
        }
        forall p | p in extra && p.0 in t.cols
          ensures Str(Get(x, p.0)) == p.1
        {
          if p != extra[0] {
            assert p in extra[1..];
          } else {
            var m := seq(|t.rows|, i requires 0 <= i < |t.rows| => Str(Get(t.rows[i], extra[0].0)) == extra[0].1);
            SelectMembers(t.rows, m, x);
          }
        }
      }
    }
  }

  /** Every input row passing the extra filters survives them, and the survivors keep their order. */
  lemma {:induction false} ExtraFiltersKeeps(t: Table, extra: seq<(string, string)>)
    ensures forall x :: x in t.rows && PassesExtra(x, extra, t.cols) ==> x in ExtraFilters(t, extra).rows
    ensures Subseq(ExtraFilters(t, extra).rows, t.rows)
    decreases |extra|
  {
    if |extra| == 0 {
      SubseqRefl(t.rows);
    } else {
      var (col, val) := extra[0];
      var u := EqualityFilter(t, col, val);
      ExtraFiltersKeeps(u, extra[1..]);
      var m := seq(|t.rows|, i requires 0 <= i < |t.rows| => Str(Get(t.rows[i], col)) == val);
      if col in t.cols {
        SelectIsSubseq(t.rows, m);
      } else {
        SubseqRefl(t.rows);
      }
      SubseqTrans(ExtraFilters(u, extra[1..]).rows, u.rows, t.rows);
      forall x | x in t.rows && PassesExtra(x, extra, t.cols)
        ensures x in ExtraFilters(t, extra).rows
      {
        if col in t.cols {
          var i :| 0 <= i < |t.rows| && t.rows[i] == x;
          assert m[i];
          SelectMembers(t.rows, m, x);
        }
        assert PassesExtra(x, extra[1..], u.cols);
      }
    }
  }

  /** `r` shows, in `cols`, a row of `df` on which every extra filter naming a column of `df` holds. */
  predicate FromRow(r: Row, df: Table, extra: seq<(string, string)>, cols: seq<string>) {
    exists y :: y in df.rows && PassesExtra(y, extra, df.cols) && Batch.Origin(r, y, cols)
  }

  /** Every row of `t` is a row of `df` on which every extra filter naming a column of `df` holds. */
  predicate FromData(t: Table, df: Table, extra: seq<(string, string)>) {
    |t.rows| <= |df.rows| && forall y :: y in t.rows ==> y in df.rows && PassesExtra(y, extra, df.cols)
  }

  lemma FilterStageRows(df: Table, e: SheetEntry)
    ensures FilterStage(df, e).cols == df.cols && FromData(FilterStage(df, e), df, [])
  {
    var f := FilterStage(df, e);
    if e.filters.Some? && Filters.FilterSpec(Filters.LoadedRows(FilterData(e)), df).Some? {
      Filters.FilterIsOrderedSubset(Filters.LoadedRows(FilterData(e)), df);
      MainApp.SubseqLength(f.rows, df.rows);
      forall x | x in f.rows
        ensures x in df.rows
      {
        Batch.SubseqMembers(f.rows, df.rows, x);
      }
    }
  }

  lemma ExtraStageRows(df: Table, f: Table, extra: seq<(string, string)>)
    requires f.cols == df.cols && FromData(f, df, [])
    ensures FromData(ExtraFilters(f, extra), df, extra)
  {
    ExtraFiltersRows(f, extra);
    ExtraFiltersLength(f, extra);
  }

  lemma SortStageRows(df: Table, x: Table, srows: seq<Sorts.SortRow>, extra: seq<(string, string)>)
    requires x.cols == df.cols && FromData(x, df, extra)
    ensures Sorts.SortedTable(srows, x).cols == df.cols && FromData(Sorts.SortedTable(srows, x), df, extra)
  {
    var s := Sorts.SortedTable(srows, x);
    Sorts.SortsPermutesAndOrders(srows, x);
    assert |s.rows| == |multiset(s.rows)| == |multiset(x.rows)| == |x.rows|;
    forall y | y in s.rows
      ensures y in x.rows
    {
      assert y in multiset(s.rows);
    }
  }

  lemma ColumnsStageRows(df: Table, s: Table, cc: Columns.ColumnsConfig, extra: seq<(string, string)>)
    requires s.cols == df.cols && FromData(s, df, extra)
    ensures var r := Columns.Apply(cc, s);
      |r.rows| <= |df.rows|
      && forall j :: 0 <= j < |r.rows| ==> FromRow(r.rows[j], df, extra, r.cols)
  {
    var r := Columns.Apply(cc, s);
    MainApp.ApplyOrigin(cc, s);
    forall j | 0 <= j < |r.rows|
      ensures FromRow(r.rows[j], df, extra, r.cols)
    {
      assert MainApp.RowFrom(r.rows[j], s.rows, r.cols);
      var y :| y in s.rows && Batch.Origin(r.rows[j], y, r.cols);
      assert y in df.rows && PassesExtra(y, extra, df.cols);
    }
  }

  lemma SameRows(df: Table, s: Table, extra: seq<(string, string)>)
    requires FromData(s, df, extra)
    ensures |s.rows| <= |df.rows|
    ensures forall j :: 0 <= j < |s.rows| ==> FromRow(s.rows[j], df, extra, s.cols)
  {
    forall j | 0 <= j < |s.rows|
      ensures FromRow(s.rows[j], df, extra, s.cols)
    {
      assert s.rows[j] in s.rows;
      assert Batch.Origin(s.rows[j], s.rows[j], s.cols);
    }
  }

  /**
   * When the document has a sheet, every row `apply_preset_to_df` returns
   * is a row of the input table, keeping its label and its values in the
   * result's columns, and every extra filter on an input column holds on
   * it. (Without sheets the table comes back as it is, extra filters
   * unapplied.)
   */
  lemma PresetRowsFromData(df: Table, sheets: Option<seq<SheetEntry>>, extra: seq<(string, string)>)
    requires sheets.Some? && |sheets.value| > 0
    requires PresetSpec(df, sheets, extra).Some?
    ensures var r := PresetSpec(df, sheets, extra).value;
      |r.rows| <= |df.rows|
      && forall j :: 0 <= j < |r.rows| ==> FromRow(r.rows[j], df, extra, r.cols)
  {
    var e := sheets.value[0];
    var f := FilterStage(df, e);
      FilterStageRows(df, e);
    var x := ExtraFilters(f, extra);
    ExtraStageRows(df, f, extra);
    var loaded := Sorts.LoadSpec(SortData(e), [Sorts.NewSortRow(0, None)]);
    var s := if e.sorts.Some? then Sorts.SortedTable(loaded.0, x) else x;
    if e.sorts.Some? {
      SortStageRows(df, x, loaded.0, extra);
    }
    if e.columns.Some? {
      var cc := Columns.Restore(Columns.ColumnsConfig(s.cols, Columns.AllVisible(s.cols), false, ""), e.columns.value);
      ColumnsStageRows(df, s, cc, extra);
    } else {
      SameRows(df, s, extra);
    }
  }

  lemma {:induction false} ExtraFiltersLength(t: Table, extra: seq<(string, string)>)
    ensures |ExtraFilters(t, extra).rows| <= |t.rows|
    decreases |extra|
  {
    if |extra| > 0 {
      ExtraFiltersLength(EqualityFilter(t, extra[0].0, extra[0].1), extra[1..]);
    }
  }
}
