/**
 * The columns manager of a sheet (columns_manager.py): a column order, a
 * visibility flag per column and an optional de-duplication column. It
 * projects a table onto the visible columns in the chosen order, after
 * keeping only the first row for each value of the de-duplication column.
 */
module Columns {
  import opened TableModel

  /** A column counts as visible unless its flag says otherwise. */
  predicate IsVisible(visible: map<string, bool>, c: string) {
    c !in visible || visible[c]
  }

  /** What `get_config` returns: order, visibility and the dedupe settings. */
  datatype ColumnsConfig = ColumnsConfig(order: seq<string>, visible: map<string, bool>, enabled: bool, column: string)

  /** A saved document, in which every key may be missing. */
  datatype SavedDedupe = SavedDedupe(enabled: Option<bool>, column: Option<string>)
  datatype SavedColumns = SavedColumns(order: Option<seq<string>>, visible: Option<map<string, bool>>, dedupe: Option<SavedDedupe>)

  function AllVisible(order: seq<string>): (v: map<string, bool>)
    ensures v.Keys == set c | c in order
    ensures forall c :: c in v ==> v[c]
  {
    map c | c in order :: true
  }

  // ------------------------------------------------------------- reordering

  /** Swap the entries at `i` and `i + 1`. */
  function SwapNext(s: seq<string>, i: nat): (r: seq<string>)
    requires i + 1 < |s|
    ensures |r| == |s| && r[i] == s[i + 1] && r[i + 1] == s[i]
    ensures forall j :: 0 <= j < |s| && j != i && j != i + 1 ==> r[j] == s[j]
  {
    s[i := s[i + 1]][i + 1 := s[i]]
  }

  /** A swap keeps the order a permutation of the same names. */
  lemma SwapNextPermutes(s: seq<string>, i: nat)
    requires i + 1 < |s|
    ensures multiset(SwapNext(s, i)) == multiset(s)
  {
    var r := SwapNext(s, i);
    assert s == s[..i] + [s[i], s[i + 1]] + s[i + 2..];
    assert r == s[..i] + [s[i + 1], s[i]] + s[i + 2..];
  }

  /** Moving an entry up and then back down restores the order. */
  lemma SwapNextInvolution(s: seq<string>, i: nat)
    requires i + 1 < |s|
    ensures SwapNext(SwapNext(s, i), i) == s
  {
  }

  /** `_toggle_visibility` on column `c`. */
  function Toggled(visible: map<string, bool>, c: string): (v: map<string, bool>)
    ensures c in v && v[c] == !IsVisible(visible, c)
    ensures forall d :: d != c ==> (d in v <==> d in visible) && (d in v ==> v[d] == visible[d])
  {
    visible[c := !IsVisible(visible, c)]
  }

  /** Toggling a column twice restores the visibility of every column. */
  lemma ToggleTwice(visible: map<string, bool>, c: string, d: string)
    ensures IsVisible(Toggled(Toggled(visible, c), c), d) == IsVisible(visible, d)
  {
  }

  // ------------------------------------------------------------- projection

  /** The columns of `order` that are visible and present in `cols`, in `order`'s sequence. */
  function VisibleList(order: seq<string>, visible: map<string, bool>, cols: seq<string>): (r: seq<string>)
    ensures forall c {:trigger c in r} :: c in r <==> c in order && IsVisible(visible, c) && c in cols
    decreases |order|
  {
    if |order| == 0 then []
    else
      (if IsVisible(visible, order[0]) && order[0] in cols then [order[0]] else [])
      + VisibleList(order[1..], visible, cols)
  }

  lemma {:induction false} VisibleListSubseq(order: seq<string>, visible: map<string, bool>, cols: seq<string>)
    ensures Subseq(VisibleList(order, visible, cols), order)
    decreases |order|
  {
    if |order| > 0 {
      var rest := VisibleList(order[1..], visible, cols);
      VisibleListSubseq(order[1..], visible, cols);
      if IsVisible(visible, order[0]) && order[0] in cols {
        assert VisibleList(order, visible, cols)[1..] == rest;
      } else if |rest| > 0 {
        assert VisibleList(order, visible, cols) == rest;
        assert Subseq(rest, order[1..]);
      }
    }
  }

  /** Filtering again by the list itself changes nothing. */
  lemma {:induction false} VisibleListStable(order: seq<string>, visible: map<string, bool>, cols: seq<string>)
    ensures VisibleList(order, visible, VisibleList(order, visible, cols)) == VisibleList(order, visible, cols)
  {
    VisibleListAgree(order, visible, cols, VisibleList(order, visible, cols));
  }

  lemma {:induction false} VisibleListAgree(order: seq<string>, visible: map<string, bool>, cols1: seq<string>, cols2: seq<string>)
    requires forall c :: c in order && IsVisible(visible, c) ==> (c in cols1 <==> c in cols2)
    ensures VisibleList(order, visible, cols1) == VisibleList(order, visible, cols2)
    decreases |order|
  {
    if |order| > 0 {
      VisibleListAgree(order[1..], visible, cols1, cols2);
    }
  }

  /** One row restricted to the given columns. */
  function RestrictRow(r: Row, cols: seq<string>): (p: Row)
    ensures p.idx == r.idx
    ensures forall c :: c in cols ==> Get(p, c) == Get(r, c)
  {
    Row(r.idx, map c | c in r.cells && c in cols :: r.cells[c])
  }

  /** `df[cols]`: every row kept, only the given columns. */
  function Project(t: Table, cols: seq<string>): (r: Table)
    ensures r.cols == cols && |r.rows| == |t.rows|
    ensures forall i :: 0 <= i < |t.rows| ==> r.rows[i] == RestrictRow(t.rows[i], cols)
  {
    Table(cols, seq(|t.rows|, i requires 0 <= i < |t.rows| => RestrictRow(t.rows[i], cols)))
  }

  lemma ProjectTwice(t: Table, cols: seq<string>)
    ensures Project(Project(t, cols), cols) == Project(t, cols)
  {
    var p := Project(t, cols);
    forall i | 0 <= i < |t.rows|
      ensures RestrictRow(p.rows[i], cols) == p.rows[i]
    {
      assert RestrictRow(p.rows[i], cols).cells == p.rows[i].cells;
    }
  }

  // ---------------------------------------------------------- de-duplication

  /** Rows whose `col` value is neither in `seen` nor taken by an earlier row. */
  function DedupeFrom(rows: seq<Row>, col: string, seen: set<Cell>): (r: seq<Row>)
    ensures |r| <= |rows|
    decreases |rows|
  {
    if |rows| == 0 then []
    else if Get(rows[0], col) in seen then DedupeFrom(rows[1..], col, seen)
    else [rows[0]] + DedupeFrom(rows[1..], col, seen + {Get(rows[0], col)})
  }

  /** `drop_duplicates(subset=[col], keep="first")`. */
  function Dedupe(t: Table, col: string): Table {
    Table(t.cols, DedupeFrom(t.rows, col, {}))
  }

  function ValuesOf(rows: seq<Row>, col: string): set<Cell> {
    set x | x in rows :: Get(x, col)
  }

  /** The first-occurrence mask: row `i` is kept iff no earlier row has its value. */
  function FirstMask(rows: seq<Row>, col: string, seen: set<Cell>): (m: seq<bool>)
    ensures |m| == |rows|
  {
    seq(|rows|, i requires 0 <= i < |rows| =>
      Get(rows[i], col) !in seen && forall j :: 0 <= j < i ==> Get(rows[j], col) != Get(rows[i], col))
  }

  /** De-duplication selects exactly the first row of each value, in order. */
  lemma {:induction false} DedupeIsFirstOccurrence(rows: seq<Row>, col: string, seen: set<Cell>)
    ensures DedupeFrom(rows, col, seen) == Select(rows, FirstMask(rows, col, seen))
    decreases |rows|
  {
    if |rows| > 0 {
      var v := Get(rows[0], col);
      var seen2 := if v in seen then seen else seen + {v};
      DedupeIsFirstOccurrence(rows[1..], col, seen2);
      var m := FirstMask(rows, col, seen);
      var m2 := FirstMask(rows[1..], col, seen2);
      forall i | 0 <= i < |m2|
        ensures m2[i] == m[i + 1]
      {
        if m[i + 1] {
          assert Get(rows[0], col) != Get(rows[i + 1], col);
          forall j | 0 <= j < i
            ensures Get(rows[1..][j], col) != Get(rows[1..][i], col)
          {
            assert Get(rows[j + 1], col) != Get(rows[i + 1], col);
          }
        }
        if m2[i] {
          forall j | 0 <= j < i + 1
            ensures Get(rows[j], col) != Get(rows[i + 1], col)
          {
            if j > 0 {
              assert Get(rows[1..][j - 1], col) != Get(rows[1..][i], col);
            }
          }
        }
      }
      assert m[1..] == m2;
      assert m[0] == (v !in seen);
    }
  }

  /** The rows have pairwise different values in `col`, none of them in `seen`. */
  predicate DistinctUnseen(r: seq<Row>, col: string, seen: set<Cell>) {
    (forall i :: 0 <= i < |r| ==> Get(r[i], col) !in seen)
    && forall i, j :: 0 <= i < j < |r| ==> Get(r[i], col) != Get(r[j], col)
  }

  /** The kept rows have pairwise different values, none of them already seen. */
  lemma {:induction false} DedupeDistinct(rows: seq<Row>, col: string, seen: set<Cell>)
    ensures DistinctUnseen(DedupeFrom(rows, col, seen), col, seen)
    decreases |rows|
  {
    if |rows| > 0 {
      var v := Get(rows[0], col);
      if v in seen {
        DedupeDistinct(rows[1..], col, seen);
        assert DedupeFrom(rows, col, seen) == DedupeFrom(rows[1..], col, seen);
      } else {
        DedupeDistinct(rows[1..], col, seen + {v});
        var rest := DedupeFrom(rows[1..], col, seen + {v});
        var r := [rows[0]] + rest;
        assert r == DedupeFrom(rows, col, seen);
        forall i | 0 <= i < |r|
          ensures Get(r[i], col) !in seen
        {
          if i > 0 {
            assert r[i] == rest[i - 1];
            assert Get(rest[i - 1], col) !in seen + {v};
          }
        }
        forall i, j | 0 <= i < j < |r|
          ensures Get(r[i], col) != Get(r[j], col)
        {
          assert r[j] == rest[j - 1];
          if i > 0 {
            assert r[i] == rest[i - 1];
          } else {
            assert Get(rest[j - 1], col) !in seen + {v};
          }
        }
      }
    }
  }

  /** Every value of the column survives de-duplication, except those already seen. */
  lemma {:induction false} DedupeKeepsValues(rows: seq<Row>, col: string, seen: set<Cell>)
    ensures ValuesOf(DedupeFrom(rows, col, seen), col) == ValuesOf(rows, col) - seen
    decreases |rows|
  {
    if |rows| > 0 {
      var v := Get(rows[0], col);
      assert ValuesOf(rows, col) == {v} + ValuesOf(rows[1..], col) by {
        assert forall x :: x in rows <==> x == rows[0] || x in rows[1..];
      }
      if v in seen {
        DedupeKeepsValues(rows[1..], col, seen);
      } else {
        DedupeKeepsValues(rows[1..], col, seen + {v});
        var rest := DedupeFrom(rows[1..], col, seen + {v});
        assert ValuesOf([rows[0]] + rest, col) == {v} + ValuesOf(rest, col) by {
          assert forall x :: x in [rows[0]] + rest <==> x == rows[0] || x in rest;
        }
      }
    }
  }

  /** Rows whose values are already distinct and unseen are all kept. */
  lemma {:induction false} DedupeDistinctRows(rows: seq<Row>, col: string, seen: set<Cell>)
    requires forall i :: 0 <= i < |rows| ==> Get(rows[i], col) !in seen
    requires forall i, j :: 0 <= i < j < |rows| ==> Get(rows[i], col) != Get(rows[j], col)
    ensures DedupeFrom(rows, col, seen) == rows
    decreases |rows|
  {
    if |rows| > 0 {
      var v := Get(rows[0], col);
      forall i | 0 <= i < |rows[1..]|
        ensures Get(rows[1..][i], col) !in seen + {v}
      {
        assert Get(rows[0], col) != Get(rows[i + 1], col);
      }
      DedupeDistinctRows(rows[1..], col, seen + {v});
    }
  }

  lemma DedupeNonEmpty(rows: seq<Row>, col: string)
    requires |rows| > 0
    ensures |DedupeFrom(rows, col, {})| > 0
  {
  }

  // --------------------------------------------------------------- apply

  predicate DedupeApplies(c: ColumnsConfig, t: Table) {
    c.enabled && c.column != "" && c.column in t.cols
  }

  /** `apply_columns`: de-duplicate, then project onto the visible list when it is non-empty. */
  function Apply(c: ColumnsConfig, t: Table): (r: Table)
    ensures IsEmpty(t) ==> r == t
    ensures !IsEmpty(t) ==>
      r.cols == (if |VisibleList(c.order, c.visible, t.cols)| > 0 then VisibleList(c.order, c.visible, t.cols) else t.cols)
    ensures |r.rows| <= |t.rows|
  {
    if IsEmpty(t) then t
    else
      var t1 := if DedupeApplies(c, t) then Dedupe(t, c.column) else t;
      var vis := VisibleList(c.order, c.visible, t1.cols);
      if |vis| > 0 then Project(t1, vis) else t1
  }

  /** Without de-duplication, every row is kept in order, restricted to the visible columns. */
  lemma ApplyKeepsRows(c: ColumnsConfig, t: Table)
    requires !IsEmpty(t) && !DedupeApplies(c, t)
    requires |VisibleList(c.order, c.visible, t.cols)| > 0
    ensures forall i :: 0 <= i < |t.rows| ==>
      Apply(c, t).rows[i] == RestrictRow(t.rows[i], VisibleList(c.order, c.visible, t.cols))
  {
  }

  /** With no visible listed column present, all columns are kept. */
  lemma ApplyNoneVisible(c: ColumnsConfig, t: Table)
    requires !IsEmpty(t) && |VisibleList(c.order, c.visible, t.cols)| == 0
    ensures Apply(c, t).cols == t.cols
    ensures Apply(c, t).rows == (if DedupeApplies(c, t) then DedupeFrom(t.rows, c.column, {}) else t.rows)
  {
  }

  /** Applying the same configuration twice is the same as applying it once. */
  lemma ApplyIdempotent(c: ColumnsConfig, t: Table)
    ensures Apply(c, Apply(c, t)) == Apply(c, t)
  {
    if !IsEmpty(t) {
      var t1 := if DedupeApplies(c, t) then Dedupe(t, c.column) else t;
      var vis := VisibleList(c.order, c.visible, t.cols);
      var r := Apply(c, t);
      if DedupeApplies(c, t) {
        DedupeNonEmpty(t.rows, c.column);
        DedupeDistinct(t.rows, c.column, {});
        assert DistinctUnseen(t1.rows, c.column, {});
      }
      assert !IsEmpty(r);
      if |vis| > 0 {
        assert r == Project(t1, vis);
        VisibleListStable(c.order, c.visible, t.cols);
        if DedupeApplies(c, r) {
          assert c.column in vis;
          assert DedupeApplies(c, t);
          forall i | 0 <= i < |r.rows|
            ensures Get(r.rows[i], c.column) == Get(t1.rows[i], c.column)
          {
          }
          DedupeDistinctRows(r.rows, c.column, {});
        }
        ProjectTwice(t1, vis);
      } else {
        assert r == t1;
        if DedupeApplies(c, t) {
          DedupeDistinctRows(t1.rows, c.column, {});
        }
      }
    }
  }

  // ----------------------------------------------------------- reconcile

  /** `order` with the columns of `cols` it lacks appended, each once, in table order. */
  function AppendMissing(order: seq<string>, cols: seq<string>): (r: seq<string>)
    ensures |r| >= |order| && r[..|order|] == order
    ensures forall c {:trigger c in r} :: c in r <==> c in order || c in cols
    ensures (forall c :: c in cols ==> c in order) ==> r == order
    ensures forall i :: |order| <= i < |r| ==> r[i] !in order && r[i] in cols
    decreases |cols|
  {
    if |cols| == 0 then order
    else
      var o := AppendMissing(order, cols[..|cols| - 1]);
      var c := cols[|cols| - 1];
      assert forall x :: x in cols <==> x in cols[..|cols| - 1] || x == c;
      if c in o then o else o + [c]
  }

  /** The names of `s` that are in `cols`, in `s`'s order. */
  function KeepIn(s: seq<string>, cols: seq<string>): (r: seq<string>)
    ensures forall c {:trigger c in r} :: c in r <==> c in s && c in cols
    decreases |s|
  {
    if |s| == 0 then []
    else (if s[0] in cols then [s[0]] else []) + KeepIn(s[1..], cols)
  }

  /** The order after `refresh_source_df`. */
  function ReconciledOrder(order: seq<string>, cols: seq<string>): seq<string> {
    KeepIn(AppendMissing(order, cols), cols)
  }

  /** The visibility after `refresh_source_df`: old flags for old columns, new columns visible. */
  function ReconciledVisible(order: seq<string>, visible: map<string, bool>, cols: seq<string>): map<string, bool> {
    var order2 := ReconciledOrder(order, cols);
    map c | c in order2 :: if c in order then IsVisible(visible, c) else true
  }

  /** Flags of the columns appended to `order`. */
  function NewFlags(o: seq<string>, order: seq<string>): map<string, bool> {
    map c | c in o && c !in order :: true
  }

  /** The flags `refresh_source_df` builds in place agree with `ReconciledVisible`. */
  lemma AppendedFlags(order: seq<string>, visible: map<string, bool>, cols: seq<string>)
    ensures var v := visible + NewFlags(AppendMissing(order, cols), order);
      (map c | c in ReconciledOrder(order, cols) :: if c in v then v[c] else true)
        == ReconciledVisible(order, visible, cols)
  {
    var o := AppendMissing(order, cols);
    var nf := NewFlags(o, order);
    var v := visible + nf;
    var k := ReconciledOrder(order, cols);
    var m1 := map c | c in k :: if c in v then v[c] else true;
    var m2 := ReconciledVisible(order, visible, cols);
    forall c | c in k
      ensures m1[c] == m2[c]
    {
      if c in order {
        assert c !in nf;
      } else {
        assert c in o;
        assert c in nf;
      }
    }
    assert m1.Keys == m2.Keys;
  }

  lemma NewFlagsStep(o: seq<string>, order: seq<string>, visible: map<string, bool>, c: string)
    requires c !in order
    ensures (visible + NewFlags(o, order))[c := true] == visible + NewFlags(o + [c], order)
  {
    var a := (visible + NewFlags(o, order))[c := true];
    var b := visible + NewFlags(o + [c], order);
    assert forall d :: d in o + [c] <==> d in o || d == c;
    assert a.Keys == b.Keys;
  }

  /** After reconciliation the order lists exactly the table's columns. */
  lemma ReconciledColumns(order: seq<string>, visible: map<string, bool>, cols: seq<string>)
    ensures forall c :: c in ReconciledOrder(order, cols) <==> c in cols
    ensures ReconciledVisible(order, visible, cols).Keys == set c | c in cols
    ensures forall c :: c in cols && c in order ==> IsVisible(ReconciledVisible(order, visible, cols), c) == IsVisible(visible, c)
    ensures forall c :: c in cols && c !in order ==> IsVisible(ReconciledVisible(order, visible, cols), c)
  {
  }

  /** Old columns keep their relative order and come before the new ones. */
  lemma ReconciledKeepsOrder(order: seq<string>, cols: seq<string>)
    ensures ReconciledOrder(order, cols) == KeepIn(order, cols) + KeepIn(AppendMissing(order, cols)[|order|..], cols)
  {
    var a := AppendMissing(order, cols);
    assert a == order + a[|order|..];
    KeepInConcat(order, a[|order|..], cols);
  }

  lemma {:induction false} KeepInConcat(s1: seq<string>, s2: seq<string>, cols: seq<string>)
    ensures KeepIn(s1 + s2, cols) == KeepIn(s1, cols) + KeepIn(s2, cols)
    decreases |s1|
  {
    if |s1| > 0 {
      assert (s1 + s2)[0] == s1[0];
      assert (s1 + s2)[1..] == s1[1..] + s2;
      KeepInConcat(s1[1..], s2, cols);
    } else {
      assert s1 + s2 == s2;
    }
  }

  /** Reconciling against unchanged columns, when order already lists exactly them, changes nothing. */
  lemma {:induction false} KeepInAll(s: seq<string>, cols: seq<string>)
    requires forall c :: c in s ==> c in cols
    ensures KeepIn(s, cols) == s
    decreases |s|
  {
    if |s| > 0 {
      KeepInAll(s[1..], cols);
    }
  }

  lemma ReconcileSameColumns(order: seq<string>, cols: seq<string>)
    requires forall c :: c in order <==> c in cols
    ensures ReconciledOrder(order, cols) == order
  {
    KeepInAll(order, cols);
  }

  // ------------------------------------------------------------ config

  function Save(c: ColumnsConfig): SavedColumns {
    SavedColumns(Some(c.order), Some(c.visible), Some(SavedDedupe(Some(c.enabled), Some(c.column))))
  }

  /** `load_config`: missing order or visibility keep the current ones; missing dedupe keys turn dedupe off. */
  function Restore(cur: ColumnsConfig, saved: SavedColumns): (c: ColumnsConfig)
    ensures saved.dedupe.None? ==> !c.enabled && c.column == ""
  {
    var d := if saved.dedupe.Some? then saved.dedupe.value else SavedDedupe(None, None);
    ColumnsConfig(
      if saved.order.Some? then saved.order.value else cur.order,
      if saved.visible.Some? then saved.visible.value else cur.visible,
      if d.enabled.Some? then d.enabled.value else false,
      if d.column.Some? then d.column.value else "")
  }

  /** Loading a saved configuration restores it, whatever the current state. */
  lemma RestoreSaved(cur: ColumnsConfig, c: ColumnsConfig)
    ensures Restore(cur, Save(c)) == c
  {
  }

  /** An empty document keeps order and visibility and turns dedupe off. */
  lemma RestoreEmpty(cur: ColumnsConfig)
    ensures Restore(cur, SavedColumns(None, None, None)) == ColumnsConfig(cur.order, cur.visible, false, "")
  {
  }

  /** The append loop of `refresh_source_df`: each table column not yet listed is appended and marked visible. */
  method AppendColumns(order: seq<string>, visible: map<string, bool>, cols: seq<string>)
    returns (o: seq<string>, v: map<string, bool>)
    ensures o == AppendMissing(order, cols)
    ensures v == visible + NewFlags(o, order)
  {
    o := order;
    v := visible;
    var i := 0;
    while i < |cols|
      invariant 0 <= i <= |cols|
      invariant o == AppendMissing(order, cols[..i])
      invariant v == visible + NewFlags(o, order)
    {
      assert cols[..i + 1][..i] == cols[..i];
      if cols[i] !in o {
        NewFlagsStep(o, order, visible, cols[i]);
        o := o + [cols[i]];
        v := v[cols[i] := true];
      }
      i := i + 1;
    }
    assert cols[..|cols|] == cols;
  }

  // ------------------------------------------------------------ the frame

  class ColumnsManager {
    var order: seq<string>
    var visible: map<string, bool>
    var enabled: bool
    var column: string
    var source: Option<Table>

    function Config(): ColumnsConfig
      reads this
    {
      ColumnsConfig(order, visible, enabled, column)
    }

    /** All columns of the source table, in its order, all visible; dedupe off. */
    constructor(df: Option<Table>)
      ensures source == df
      ensures order == (if df.Some? then df.value.cols else [])
      ensures visible == AllVisible(order)
      ensures !enabled && column == ""
    {
      source := df;
      order := if df.Some? then df.value.cols else [];
      visible := AllVisible(if df.Some? then df.value.cols else []);
      enabled := false;
      column := "";
    }

    /** `_move_up`: swap the selected entry with the one above; nothing at the top or with no selection. */
    method MoveUp(sel: Option<nat>)
      requires sel.Some? ==> sel.value < |order|
      modifies this
      ensures order == if sel.None? || sel.value == 0 then old(order) else SwapNext(old(order), sel.value - 1)
      ensures multiset(order) == multiset(old(order))
      ensures visible == old(visible) && enabled == old(enabled) && column == old(column) && source == old(source)
    {
      if sel.None? || sel.value == 0 {
        return;
      }
      var idx := sel.value;
      SwapNextPermutes(order, idx - 1);
      order := order[idx - 1 := order[idx]][idx := order[idx - 1]];
    }

    /** `_move_down`: swap the selected entry with the one below; nothing at the bottom or with no selection. */
    method MoveDown(sel: Option<nat>)
      requires sel.Some? ==> sel.value < |order|
      modifies this
      ensures order == if sel.None? || sel.value >= |old(order)| - 1 then old(order) else SwapNext(old(order), sel.value)
      ensures multiset(order) == multiset(old(order))
      ensures visible == old(visible) && enabled == old(enabled) && column == old(column) && source == old(source)
    {
      if sel.None? || sel.value >= |order| - 1 {
        return;
      }
      var idx := sel.value;
      SwapNextPermutes(order, idx);
      order := order[idx + 1 := order[idx]][idx := order[idx + 1]];
    }

    /** `_toggle_visibility`: flip the selected column's flag, nothing else. */
    method ToggleVisibility(sel: Option<nat>)
      requires sel.Some? ==> sel.value < |order|
      modifies this
      ensures visible == if sel.None? then old(visible) else Toggled(old(visible), old(order)[sel.value])
      ensures order == old(order) && enabled == old(enabled) && column == old(column) && source == old(source)
    {
      if sel.None? {
        return;
      }
      var c := order[sel.value];
      visible := visible[c := !IsVisible(visible, c)];
    }

    /** `_show_all`: every known flag becomes true. */
    method ShowAll()
      modifies this
      ensures visible.Keys == old(visible).Keys
      ensures forall c :: IsVisible(visible, c)
      ensures order == old(order) && enabled == old(enabled) && column == old(column) && source == old(source)
    {
      visible := map c | c in visible :: true;
    }

    /** `get_config`. */
    function GetConfig(): (saved: SavedColumns)
      reads this
      ensures Restore(Config(), saved) == Config()
    {
      RestoreSaved(Config(), Config());
      Save(Config())
    }

    /** `load_config`. */
    method LoadConfig(saved: SavedColumns)
      modifies this
      ensures Config() == Restore(old(Config()), saved)
      ensures source == old(source)
    {
      var c := Restore(Config(), saved);
      order, visible, enabled, column := c.order, c.visible, c.enabled, c.column;
    }

    /** `reset`: with a source table, back to its columns, all visible, dedupe off; otherwise nothing. */
    method Reset()
      modifies this
      ensures old(source).None? ==> Config() == old(Config())
      ensures old(source).Some? ==>
        Config() == ColumnsConfig(old(source).value.cols, AllVisible(old(source).value.cols), false, "")
      ensures source == old(source)
    {
      if source.None? {
        return;
      }
      order := source.value.cols;
      visible := AllVisible(order);
      enabled := false;
      column := "";
    }

    /** `refresh_source_df`: append new columns as visible, drop stale ones, clear a stale dedupe column. */
    method RefreshSourceDf(df: Option<Table>)
      modifies this
      ensures source == df
      ensures df.None? ==> Config() == old(Config())
      ensures df.Some? ==> order == ReconciledOrder(old(order), df.value.cols)
      ensures df.Some? ==> visible == ReconciledVisible(old(order), old(visible), df.value.cols)
      ensures df.Some? ==> column == (if old(column) in order then old(column) else "")
      ensures enabled == old(enabled)
    {
      source := df;
      if df.None? {
        return;
      }
      var cols := df.value.cols;
      var o, v := AppendColumns(order, visible, cols);
      var kept := KeepIn(o, cols);
      var v2 := map c | c in kept :: if c in v then v[c] else true;
      AppendedFlags(order, visible, cols);
      order := kept;
      visible := v2;
      if column !in order {
        column := "";
      }
    }
  }
}
