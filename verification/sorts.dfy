/**
 * The multi-level sort of a sheet (sorts.py): a list of sort rows, each
 * naming a column, an order and (except the first) a join. Rows are split
 * into groups at each "OR"; the groups are applied last to first, each with
 * a stable sort, so that the first group has the highest precedence.
 */
module Sorts {
  import opened TableModel
  import opened Sorting

  /** A sort row; the first row has no join selector (`None`). */
  datatype SortRow = SortRow(join: Option<string>, col: string, order: string)

  /** A saved row `(join, col, order)`. */
  datatype SortPreset = SortPreset(join: string, col: string, order: string)

  predicate IsJoin(j: string) {
    j == "AND" || j == "OR"
  }

  predicate IsOrder(o: string) {
    o == "Ascending" || o == "Descending"
  }

  /** The row list as the frame keeps it: only the first row lacks a join, joins are AND/OR, orders are valid. */
  predicate RowsValid(rows: seq<SortRow>) {
    (|rows| > 0 ==> rows[0].join.None?)
    && (forall i :: 0 < i < |rows| ==> rows[i].join.Some? && IsJoin(rows[i].join.value))
    && (forall i :: 0 <= i < |rows| ==> IsOrder(rows[i].order))
  }

  /** The row `add_row(preset)` appends when `idx` rows are alive. */
  function NewSortRow(idx: nat, preset: Option<SortPreset>): (r: SortRow)
    ensures r.join.None? <==> idx == 0
    ensures r.join.Some? ==> IsJoin(r.join.value)
    ensures IsOrder(r.order)
    ensures preset.Some? && idx > 0 && IsJoin(preset.value.join) ==> r.join == Some(preset.value.join)
    ensures preset.Some? && IsOrder(preset.value.order) ==> r.order == preset.value.order
    ensures preset.Some? && preset.value.col != "" ==> r.col == preset.value.col
  {
    var join := if idx == 0 then None
                else if preset.Some? && IsJoin(preset.value.join) then Some(preset.value.join)
                else Some("AND");
    var col := if preset.Some? && preset.value.col != "" then preset.value.col else "";
    var order := if preset.Some? && IsOrder(preset.value.order) then preset.value.order else "Ascending";
    SortRow(join, col, order)
  }

  /** `_regrid_rows` on the alive rows: the first loses its join, a later one without a join gets "AND". */
  function Regrid(alive: seq<SortRow>): (r: seq<SortRow>)
    ensures |r| == |alive|
    ensures forall i :: 0 <= i < |r| ==> r[i].col == alive[i].col && r[i].order == alive[i].order
  {
    seq(|alive|, i requires 0 <= i < |alive| =>
      if i == 0 then alive[i].(join := None)
      else if alive[i].join.None? then alive[i].(join := Some("AND"))
      else alive[i])
  }

  /** The alive rows once the row at `k` is destroyed. */
  function Without(rows: seq<SortRow>, k: nat): (r: seq<SortRow>)
    ensures k < |rows| ==> |r| == |rows| - 1
    ensures k >= |rows| ==> r == rows
  {
    if k < |rows| then rows[..k] + rows[k + 1..] else rows
  }

  /** Removing a row keeps every other row, in order. */
  lemma WithoutKeepsRows(rows: seq<SortRow>, k: nat)
    requires k < |rows|
    ensures forall j :: 0 <= j < k ==> Without(rows, k)[j] == rows[j]
    ensures forall j :: k <= j < |rows| - 1 ==> Without(rows, k)[j] == rows[j + 1]
  {
  }

  lemma WithoutWellFormed(rows: seq<SortRow>, k: nat)
    requires RowsValid(rows)
    ensures forall j :: 0 <= j < |Without(rows, k)| ==> IsOrder(Without(rows, k)[j].order)
    ensures forall j :: 0 <= j < |Without(rows, k)| ==>
      (Without(rows, k)[j].join.Some? ==> IsJoin(Without(rows, k)[j].join.value))
  {
    if k < |rows| {
      WithoutKeepsRows(rows, k);
    }
  }

  /** Regridding restores the frame's invariant on any rows whose joins and orders are well formed. */
  lemma RegridValid(alive: seq<SortRow>)
    requires forall j :: 0 <= j < |alive| ==> IsOrder(alive[j].order)
    requires forall j :: 0 <= j < |alive| ==> alive[j].join.Some? ==> IsJoin(alive[j].join.value)
    ensures RowsValid(Regrid(alive))
  {
  }

  // ---------------------------------------------------------------- grouping

  function JoinOf(r: SortRow): string {
    if r.join.Some? then r.join.value else "AND"
  }

  predicate Usable(r: SortRow, cols: seq<string>) {
    r.col != "" && r.col in cols
  }

  function KeyOf(r: SortRow): SortKey {
    SortKey(r.col, r.order != "Descending")
  }

  /** The keys of the usable rows, in row order. */
  function ValidKeys(rows: seq<SortRow>, cols: seq<string>): seq<SortKey>
    decreases |rows|
  {
    if |rows| == 0 then []
    else
      ValidKeys(rows[..|rows| - 1], cols)
      + (if Usable(rows[|rows| - 1], cols) then [KeyOf(rows[|rows| - 1])] else [])
  }

  datatype GState = GState(groups: seq<seq<SortKey>>, current: seq<SortKey>)

  /** The state of the grouping loop after the given rows. */
  function GroupState(rows: seq<SortRow>, cols: seq<string>): GState
    decreases |rows|
  {
    if |rows| == 0 then GState([], [])
    else
      var st := GroupState(rows[..|rows| - 1], cols);
      var r := rows[|rows| - 1];
      if !Usable(r, cols) then st
      else if |rows| - 1 == 0 then GState(st.groups, st.current + [KeyOf(r)])
      else if JoinOf(r) == "OR" then
        GState(if |st.current| > 0 then st.groups + [st.current] else st.groups, [KeyOf(r)])
      else GState(st.groups, st.current + [KeyOf(r)])
  }

  function Groups(rows: seq<SortRow>, cols: seq<string>): seq<seq<SortKey>> {
    var st := GroupState(rows, cols);
    if |st.current| > 0 then st.groups + [st.current] else st.groups
  }

  function Flatten(gs: seq<seq<SortKey>>): seq<SortKey>
    decreases |gs|
  {
    if |gs| == 0 then [] else gs[0] + Flatten(gs[1..])
  }

  /** Apply the groups last to first: the last group sorts first, the first group sorts last. */
  function ApplyGroups(gs: seq<seq<SortKey>>, xs: seq<Row>): seq<Row>
    decreases |gs|
  {
    if |gs| == 0 then xs else Sort(gs[0], ApplyGroups(gs[1..], xs))
  }

  /** The table `apply_sorts` returns when no stage raises. */
  function SortedTable(rows: seq<SortRow>, t: Table): Table {
    if IsEmpty(t) then t
    else
      var gs := Groups(rows, t.cols);
      if |gs| == 0 then t else Table(t.cols, ApplyGroups(gs, t.rows))
  }

  /** Some stage raises: a group of a single key whose column mixes numbers and text. */
  predicate SortFails(rows: seq<SortRow>, t: Table) {
    !IsEmpty(t) && AnyRaises(Groups(rows, t.cols), t.rows)
  }

  /** `apply_sorts`: the sorted table, or None when a stage raises. */
  function SortSpec(rows: seq<SortRow>, t: Table): Option<Table> {
    if SortFails(rows, t) then None else Some(SortedTable(rows, t))
  }

  // ---------------------------------------------------------------- config

  function PresetOf(r: SortRow): SortPreset {
    SortPreset(if r.join.Some? then r.join.value else "", r.col, r.order)
  }

  /** `get_config` on a row list. */
  function ConfigOf(rows: seq<SortRow>): (cfg: seq<SortPreset>)
    ensures |cfg| == |rows|
    ensures forall i :: 0 <= i < |rows| ==> cfg[i] == PresetOf(rows[i])
  {
    seq(|rows|, i requires 0 <= i < |rows| => PresetOf(rows[i]))
  }

  /** Saved rows as the lists they become in the JSON document. */
  function Tuples(cfg: seq<SortPreset>): (r: seq<seq<string>>)
    ensures |r| == |cfg|
    decreases |cfg|
  {
    if |cfg| == 0 then [] else [[cfg[0].join, cfg[0].col, cfg[0].order]] + Tuples(cfg[1..])
  }

  /** A saved entry: a 2-tuple is a legacy `(col, order)` with join "AND"; other lengths than 2 and 3 raise. */
  function ParseEntry(tup: seq<string>): Option<SortPreset> {
    if |tup| == 2 then Some(SortPreset("AND", tup[0], tup[1]))
    else if |tup| == 3 then Some(SortPreset(tup[0], tup[1], tup[2]))
    else None
  }

  /** Rows after adding the saved entries to `rows`, and whether every entry could be unpacked. */
  function LoadSpec(data: seq<seq<string>>, rows: seq<SortRow>): (seq<SortRow>, bool)
    decreases |data|
  {
    if |data| == 0 then (rows, true)
    else
      match ParseEntry(data[0])
      case None => (rows, false)
      case Some(p) => LoadSpec(data[1..], rows + [NewSortRow(|rows|, Some(p))])
  }

  /** Whether every saved entry parses. */
  predicate AllParse(data: seq<seq<string>>) {
    forall j :: 0 <= j < |data| ==> ParseEntry(data[j]).Some?
  }

  /** Loading succeeds exactly when every saved entry parses, whatever rows it starts from. */
  lemma {:induction false} LoadSpecOk(data: seq<seq<string>>, rows: seq<SortRow>)
    ensures LoadSpec(data, rows).1 == AllParse(data)
    decreases |data|
  {
    if |data| > 0 {
      match ParseEntry(data[0])
      case None =>
      case Some(p) =>
        LoadSpecOk(data[1..], rows + [NewSortRow(|rows|, Some(p))]);
        assert forall j :: 0 <= j < |data| - 1 ==> data[1..][j] == data[j + 1];
    }
  }

  class SortsFrame {
    var rows: seq<SortRow>

    predicate Valid()
      reads this
    {
      RowsValid(rows)
    }

    /** The frame starts with no row; only `reset` adds the blank one. */
    constructor()
      ensures Valid() && rows == []
    {
      rows := [];
    }

    /** `add_row(preset)`: appends one row; the first row never gets a join. */
    method AddRow(preset: Option<SortPreset>)
      requires Valid()
      modifies this
      ensures Valid()
      ensures rows == old(rows) + [NewSortRow(|old(rows)|, preset)]
    {
      rows := rows + [NewSortRow(|rows|, preset)];
    }

    /** `_remove_row` then `_regrid_rows`: the row at `k` goes, and the joins are rebuilt. */
    method RemoveRow(k: nat)
      requires Valid()
      modifies this
      ensures Valid()
      ensures rows == Regrid(Without(old(rows), k))
    {
      var alive: seq<SortRow> := [];
      var i := 0;
      while i < |rows|
        invariant 0 <= i <= |rows|
        invariant alive == if i <= k then rows[..i] else rows[..k] + rows[k + 1..i]
      {
        if i != k {
          alive := alive + [rows[i]];
        }
        i := i + 1;
      }
      assert rows[..|rows|] == rows;
      assert alive == Without(rows, k);
      var rebuilt: seq<SortRow> := [];
      i := 0;
      while i < |alive|
        invariant 0 <= i <= |alive|
        invariant rebuilt == Regrid(alive)[..i]
      {
        var r := alive[i];
        if i == 0 {
          r := r.(join := None);
        } else if r.join.None? {
          r := r.(join := Some("AND"));
        }
        rebuilt := rebuilt + [r];
        i := i + 1;
      }
      assert Regrid(alive)[..|alive|] == Regrid(alive);
      WithoutWellFormed(rows, k);
      RegridValid(alive);
      rows := rebuilt;
    }

    /** `reset`: back to a single blank row. */
    method Reset()
      modifies this
      ensures Valid() && rows == [NewSortRow(0, None)]
    {
      rows := [];
      AddRow(None);
    }

    /** `get_config`: `(join, col, order)` per row, with "" for the first row's join. */
    function GetConfig(): (cfg: seq<SortPreset>)
      requires Valid()
      reads this
      ensures |cfg| == |rows|
      ensures |cfg| > 0 ==> cfg[0].join == ""
      ensures forall i :: 0 < i < |cfg| ==> rows[i].join.Some? && cfg[i].join == rows[i].join.value && IsJoin(cfg[i].join)
      ensures forall i :: 0 <= i < |cfg| ==> cfg[i].col == rows[i].col && cfg[i].order == rows[i].order
    {
      ConfigOf(rows)
    }

    /** `load_config`: reset, then add one row per saved entry; stops (`ok` false) at an entry that does not unpack. */
    method LoadConfig(cfg: map<string, seq<seq<string>>>) returns (ok: bool)
      modifies this
      ensures Valid()
      ensures (rows, ok) == LoadSpec(if "sorts" in cfg then cfg["sorts"] else [], [NewSortRow(0, None)])
    {
      var data := if "sorts" in cfg then cfg["sorts"] else [];
      Reset();
      var i := 0;
      while i < |data|
        invariant 0 <= i <= |data|
        invariant Valid()
        invariant LoadSpec(data, [NewSortRow(0, None)]) == LoadSpec(data[i..], rows)
      {
        assert data[i..][1..] == data[i + 1..];
        var p := ParseEntry(data[i]);
        if p.None? {
          return false;
        }
        AddRow(p);
        i := i + 1;
      }
      return true;
    }

    /** `apply_sorts`: build the OR-separated groups, then sort by each group, last group first. */
    method ApplySorts(t: Table) returns (res: Option<Table>)
      ensures res == SortSpec(rows, t)
    {
      if IsEmpty(t) {
        return Some(t);
      }
      var groups: seq<seq<SortKey>> := [];
      var current: seq<SortKey> := [];
      var i := 0;
      while i < |rows|
        invariant 0 <= i <= |rows|
        invariant GState(groups, current) == GroupState(rows[..i], t.cols)
      {
        var r := rows[i];
        assert rows[..i + 1][..i] == rows[..i];
        if Usable(r, t.cols) {
          var key := KeyOf(r);
          if i == 0 {
            current := current + [key];
          } else {
            var join := if r.join.Some? then r.join.value else "AND";
            if join == "OR" {
              if |current| > 0 {
                groups := groups + [current];
              }
              current := [key];
            } else {
              current := current + [key];
            }
          }
        }
        i := i + 1;
      }
      assert rows[..|rows|] == rows;
      if |current| > 0 {
        groups := groups + [current];
      }
      if |groups| == 0 {
        return Some(t);
      }
      var out := SortByGroups(groups, t.rows);
      return if out.Some? then Some(Table(t.cols, out.value)) else None;
    }
  }

  /** Whether some group's sort raises on the rows. */
  predicate AnyRaises(gs: seq<seq<SortKey>>, xs: seq<Row>) {
    exists g :: g in gs && SortRaises(g, xs)
  }

  /** The stage loop of `apply_sorts`: each group sorts in turn, last group first, until one raises. */
  method SortByGroups(gs: seq<seq<SortKey>>, xs: seq<Row>) returns (out: Option<seq<Row>>)
    ensures out == if AnyRaises(gs, xs) then None else Some(ApplyGroups(gs, xs))
  {
    var cur := xs;
    var k := |gs|;
    while k > 0
      invariant 0 <= k <= |gs|
      invariant cur == ApplyGroups(gs[k..], xs)
      invariant multiset(cur) == multiset(xs)
      invariant forall j :: k <= j < |gs| ==> !SortRaises(gs[j], xs)
    {
      k := k - 1;
      assert gs[k..][1..] == gs[k + 1..];
      RaisesPerm(gs[k], cur, xs);
      if SortRaises(gs[k], cur) {
        assert gs[k] in gs;
        return None;
      }
      SortPerm(gs[k], cur);
      cur := Sort(gs[k], cur);
    }
    assert !AnyRaises(gs, xs) by {
      forall g | g in gs
        ensures !SortRaises(g, xs)
      {
        var j :| 0 <= j < |gs| && gs[j] == g;
      }
    }
    return Some(cur);
  }

  // ---------------------------------------------------------------- lemmas

  lemma {:induction false} FlattenAppend(gs: seq<seq<SortKey>>, g: seq<SortKey>)
    ensures Flatten(gs + [g]) == Flatten(gs) + g
    decreases |gs|
  {
    if |gs| == 0 {
      assert Flatten([g]) == g + Flatten([]);
    } else {
      assert (gs + [g])[1..] == gs[1..] + [g];
      FlattenAppend(gs[1..], g);
    }
  }

  /** The grouping loop never emits an empty group, and loses or reorders no usable key. */
  lemma {:induction false} GroupStateKeys(rows: seq<SortRow>, cols: seq<string>)
    ensures var st := GroupState(rows, cols);
      Flatten(st.groups) + st.current == ValidKeys(rows, cols)
      && forall g :: g in st.groups ==> |g| > 0
    decreases |rows|
  {
    if |rows| > 0 {
      var init := rows[..|rows| - 1];
      GroupStateKeys(init, cols);
      var st := GroupState(init, cols);
      var r := rows[|rows| - 1];
      if Usable(r, cols) && |rows| > 1 && JoinOf(r) == "OR" && |st.current| > 0 {
        FlattenAppend(st.groups, st.current);
      }
    }
  }

  /** The groups are non-empty and, concatenated, are the usable keys in row order. */
  lemma GroupsKeys(rows: seq<SortRow>, cols: seq<string>)
    ensures Flatten(Groups(rows, cols)) == ValidKeys(rows, cols)
    ensures forall g :: g in Groups(rows, cols) ==> |g| > 0
    ensures |Groups(rows, cols)| == 0 <==> |ValidKeys(rows, cols)| == 0
  {
    GroupStateKeys(rows, cols);
    var st := GroupState(rows, cols);
    if |st.current| > 0 {
      FlattenAppend(st.groups, st.current);
    } else {
      assert st.current == [];
      assert Flatten(st.groups) == ValidKeys(rows, cols);
    }
    var gs := Groups(rows, cols);
    if |gs| > 0 {
      assert gs[0] in gs;
      assert Flatten(gs) == gs[0] + Flatten(gs[1..]);
    }
  }

  /** Applying the groups last to first is one stable sort by all their keys in order. */
  lemma {:induction false} ApplyGroupsIsOneSort(gs: seq<seq<SortKey>>, xs: seq<Row>)
    requires |gs| > 0
    ensures ApplyGroups(gs, xs) == Sort(Flatten(gs), xs)
    decreases |gs|
  {
    if |gs| == 1 {
      assert Flatten(gs) == gs[0] + Flatten([]);
      assert gs[0] + [] == gs[0];
    } else {
      ApplyGroupsIsOneSort(gs[1..], xs);
      SortTwice(gs[0], Flatten(gs[1..]), xs);
    }
  }

  /**
   * When no stage raises, `apply_sorts` is one stable sort by the usable
   * keys in row order, missing values last; the table is unchanged when it
   * is empty or no row is usable.
   */
  lemma SortsIsOneSort(rows: seq<SortRow>, t: Table)
    ensures SortedTable(rows, t) ==
      if IsEmpty(t) || |ValidKeys(rows, t.cols)| == 0 then t
      else Table(t.cols, Sort(ValidKeys(rows, t.cols), t.rows))
  {
    if !IsEmpty(t) {
      GroupsKeys(rows, t.cols);
      var gs := Groups(rows, t.cols);
      if |gs| > 0 {
        ApplyGroupsIsOneSort(gs, t.rows);
      }
    }
  }

  /** The result is a permutation of the input rows, ordered by the usable keys, and stable. */
  lemma SortsPermutesAndOrders(rows: seq<SortRow>, t: Table)
    ensures SortedTable(rows, t).cols == t.cols
    ensures multiset(SortedTable(rows, t).rows) == multiset(t.rows)
    ensures Sorted(ValidKeys(rows, t.cols), SortedTable(rows, t).rows)
    ensures Stable(ValidKeys(rows, t.cols), SortedTable(rows, t).rows, t.rows)
  {
    SortsIsOneSort(rows, t);
    var ks := ValidKeys(rows, t.cols);
    if |t.cols| == 0 {
      ValidKeysNoColumns(rows);
    }
    if !IsEmpty(t) && |ks| > 0 {
      SortFacts(ks, t.rows);
    }
  }

  lemma {:induction false} FlattenMembers(gs: seq<seq<SortKey>>, g: seq<SortKey>, k: SortKey)
    requires g in gs && k in g
    ensures k in Flatten(gs)
    decreases |gs|
  {
    if gs[0] != g {
      assert g in gs[1..];
      FlattenMembers(gs[1..], g, k);
    }
  }

  /**
   * `apply_sorts` raises only for a usable row whose column mixes numbers
   * and text, and it does raise when that row is the only usable one.
   */
  lemma SortFailsExactly(rows: seq<SortRow>, t: Table)
    ensures SortFails(rows, t) ==> exists k :: k in ValidKeys(rows, t.cols) && MixedColumn(k.col, t.rows)
    ensures !IsEmpty(t) && |ValidKeys(rows, t.cols)| == 1 && MixedColumn(ValidKeys(rows, t.cols)[0].col, t.rows)
      ==> SortFails(rows, t)
  {
    GroupsKeys(rows, t.cols);
    var gs := Groups(rows, t.cols);
    if SortFails(rows, t) {
      var g :| g in gs && SortRaises(g, t.rows);
      assert g[0] in g;
      FlattenMembers(gs, g, g[0]);
    }
    var ks := ValidKeys(rows, t.cols);
    if !IsEmpty(t) && |ks| == 1 && MixedColumn(ks[0].col, t.rows) {
      assert gs[0] in gs;
      assert Flatten(gs) == gs[0] + Flatten(gs[1..]);
      assert gs[0] == ks;
      assert SortRaises(gs[0], t.rows);
    }
  }

  lemma {:induction false} ValidKeysNoColumns(rows: seq<SortRow>)
    ensures ValidKeys(rows, []) == []
    decreases |rows|
  {
    if |rows| > 0 {
      ValidKeysNoColumns(rows[..|rows| - 1]);
    }
  }

  lemma {:induction false} ValidKeysUsable(rows: seq<SortRow>, cols: seq<string>)
    ensures forall k :: k in ValidKeys(rows, cols) ==> k.col in cols && k.col != ""
    decreases |rows|
  {
    if |rows| > 0 {
      ValidKeysUsable(rows[..|rows| - 1], cols);
    }
  }

  /** Joins do not change the order: two row lists with the same columns and orders sort alike when neither raises. */
  lemma JoinsDoNotMatter(rows1: seq<SortRow>, rows2: seq<SortRow>, t: Table)
    requires |rows1| == |rows2|
    requires forall i :: 0 <= i < |rows1| ==> rows1[i].col == rows2[i].col && rows1[i].order == rows2[i].order
    ensures SortedTable(rows1, t) == SortedTable(rows2, t)
  {
    SameKeys(rows1, rows2, t.cols);
    SortsIsOneSort(rows1, t);
    SortsIsOneSort(rows2, t);
  }

  lemma {:induction false} SameKeys(rows1: seq<SortRow>, rows2: seq<SortRow>, cols: seq<string>)
    requires |rows1| == |rows2|
    requires forall i :: 0 <= i < |rows1| ==> rows1[i].col == rows2[i].col && rows1[i].order == rows2[i].order
    ensures ValidKeys(rows1, cols) == ValidKeys(rows2, cols)
    decreases |rows1|
  {
    if |rows1| > 0 {
      SameKeys(rows1[..|rows1| - 1], rows2[..|rows2| - 1], cols);
    }
  }

  /** A key is ascending unless its order is exactly "Descending". */
  lemma KeyDirection(r: SortRow)
    ensures KeyOf(r).asc <==> r.order != "Descending"
    ensures KeyOf(r).col == r.col
  {
  }

  /** "OR" closes a non-empty current group and starts a new one; "AND" or a missing join extends it. */
  lemma GroupStep(rows: seq<SortRow>, cols: seq<string>, r: SortRow)
    requires |rows| > 0 && Usable(r, cols)
    ensures var st := GroupState(rows, cols); var st2 := GroupState(rows + [r], cols);
      if JoinOf(r) == "OR" then
        st2.current == [KeyOf(r)] && st2.groups == (if |st.current| > 0 then st.groups + [st.current] else st.groups)
      else st2.groups == st.groups && st2.current == st.current + [KeyOf(r)]
  {
    assert (rows + [r])[..|rows|] == rows;
  }

  // ------------------------------------------------------------ round trip

  /** Loading well-formed saved rows adds one row per entry, each built as `add_row` builds it. */
  lemma {:induction false} LoadSpecAll(cfg: seq<SortPreset>, rows: seq<SortRow>)
    ensures var (loaded, ok) := LoadSpec(Tuples(cfg), rows);
      ok && |loaded| == |rows| + |cfg| && loaded[..|rows|] == rows
      && forall i :: 0 <= i < |cfg| ==> loaded[|rows| + i] == NewSortRow(|rows| + i, Some(cfg[i]))
    decreases |cfg|
  {
    if |cfg| > 0 {
      var rows1 := rows + [NewSortRow(|rows|, Some(cfg[0]))];
      assert Tuples(cfg)[1..] == Tuples(cfg[1..]);
      assert ParseEntry(Tuples(cfg)[0]) == Some(cfg[0]);
      assert LoadSpec(Tuples(cfg), rows) == LoadSpec(Tuples(cfg[1..]), rows1);
      LoadSpecAll(cfg[1..], rows1);
      var loaded := LoadSpec(Tuples(cfg[1..]), rows1).0;
      assert loaded[..|rows|] == loaded[..|rows1|][..|rows|];
      forall i | 0 <= i < |cfg|
        ensures loaded[|rows| + i] == NewSortRow(|rows| + i, Some(cfg[i]))
      {
        if i == 0 {
          assert loaded[|rows|] == loaded[..|rows1|][|rows|];
        } else {
          assert cfg[1..][i - 1] == cfg[i];
          assert loaded[|rows1| + (i - 1)] == NewSortRow(|rows1| + (i - 1), Some(cfg[1..][i - 1]));
        }
      }
    }
  }

  /**
   * Saving and loading gives the blank reset row, then the saved rows with
   * the same columns and orders; the first saved row comes back joined by
   * "AND", every later one with its own join.
   */
  lemma SortConfigReload(rows: seq<SortRow>)
    requires RowsValid(rows)
    ensures var (loaded, ok) := LoadSpec(Tuples(ConfigOf(rows)), [NewSortRow(0, None)]);
      ok && |loaded| == |rows| + 1
      && loaded[0] == NewSortRow(0, None)
      && (forall i :: 0 <= i < |rows| ==> loaded[i + 1].col == rows[i].col && loaded[i + 1].order == rows[i].order)
      && (|rows| > 0 ==> loaded[1].join == Some("AND"))
      && forall i :: 0 < i < |rows| ==> loaded[i + 1].join == rows[i].join
  {
    var cfg := ConfigOf(rows);
    LoadSpecAll(cfg, [NewSortRow(0, None)]);
    var loaded := LoadSpec(Tuples(cfg), [NewSortRow(0, None)]).0;
    assert loaded[0] == loaded[..1][0];
    forall i | 0 <= i < |rows|
      ensures loaded[i + 1].col == rows[i].col && loaded[i + 1].order == rows[i].order
    {
      assert loaded[1 + i] == NewSortRow(1 + i, Some(cfg[i]));
      assert IsOrder(rows[i].order);
    }
    forall i | 0 <= i < |rows|
      ensures i == 0 ==> loaded[i + 1].join == Some("AND")
      ensures i > 0 ==> loaded[i + 1].join == rows[i].join
    {
      assert loaded[1 + i] == NewSortRow(1 + i, Some(cfg[i]));
    }
  }

  /** A `get_config` -> `load_config` round trip leaves sorting unchanged, failure included. */
  lemma SortConfigRoundTrip(rows: seq<SortRow>, t: Table)
    requires RowsValid(rows)
    ensures SortSpec(LoadSpec(Tuples(ConfigOf(rows)), [NewSortRow(0, None)]).0, t) == SortSpec(rows, t)
  {
    var loaded := LoadSpec(Tuples(ConfigOf(rows)), [NewSortRow(0, None)]).0;
    ReloadSorted(rows, t);
    ReloadGroups(rows, t.cols);
    assert SortFails(loaded, t) == SortFails(rows, t);
  }

  lemma ReloadSorted(rows: seq<SortRow>, t: Table)
    requires RowsValid(rows)
    ensures SortedTable(LoadSpec(Tuples(ConfigOf(rows)), [NewSortRow(0, None)]).0, t) == SortedTable(rows, t)
  {
    SortConfigReload(rows);
    var loaded := LoadSpec(Tuples(ConfigOf(rows)), [NewSortRow(0, None)]).0;
    BlankFirstKeys(loaded, rows, t.cols);
    SortsIsOneSort(loaded, t);
    SortsIsOneSort(rows, t);
  }

  lemma ReloadGroups(rows: seq<SortRow>, cols: seq<string>)
    requires RowsValid(rows)
    ensures Groups(LoadSpec(Tuples(ConfigOf(rows)), [NewSortRow(0, None)]).0, cols) == Groups(rows, cols)
  {
    SortConfigReload(rows);
    var loaded := LoadSpec(Tuples(ConfigOf(rows)), [NewSortRow(0, None)]).0;
    ReloadGroupState(loaded, rows, cols, |rows|);
    assert loaded[..|rows| + 1] == loaded && rows[..|rows|] == rows;
  }

  /** The reloaded rows (a blank row, then the saved rows) form the same groups as the saved rows. */
  lemma {:induction false} ReloadGroupState(loaded: seq<SortRow>, rows: seq<SortRow>, cols: seq<string>, n: nat)
    requires n <= |rows| && |loaded| == |rows| + 1 && loaded[0].col == ""
    requires forall i :: 0 <= i < |rows| ==> loaded[i + 1].col == rows[i].col && loaded[i + 1].order == rows[i].order
    requires |rows| > 0 ==> JoinOf(loaded[1]) != "OR"
    requires forall i :: 0 < i < |rows| ==> loaded[i + 1].join == rows[i].join
    ensures GroupState(loaded[..n + 1], cols) == GroupState(rows[..n], cols)
    decreases n
  {
    if n == 0 {
      assert loaded[..1][..0] == [] && rows[..0] == [];
    } else {
      ReloadGroupState(loaded, rows, cols, n - 1);
      assert loaded[..n + 1][..n] == loaded[..n];
      assert rows[..n][..n - 1] == rows[..n - 1];
    }
  }

  lemma {:induction false} BlankFirstKeys(loaded: seq<SortRow>, rows: seq<SortRow>, cols: seq<string>)
    requires |loaded| == |rows| + 1 && loaded[0].col == ""
    requires forall i :: 0 <= i < |rows| ==> loaded[i + 1].col == rows[i].col && loaded[i + 1].order == rows[i].order
    ensures ValidKeys(loaded, cols) == ValidKeys(rows, cols)
    decreases |rows|
  {
    if |rows| == 0 {
      assert loaded[..0] == [];
    } else {
      BlankFirstKeys(loaded[..|loaded| - 1], rows[..|rows| - 1], cols);
    }
  }
}
