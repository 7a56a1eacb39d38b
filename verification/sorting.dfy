/**
 * A stable multi-key sort of table rows with missing values placed last, as
 * `sort_values(by=..., ascending=..., na_position="last", kind="mergesort")`
 * does it, and the facts about it that the sort stages rely on: it is
 * sorted, a permutation, stable, determined by those three properties, and
 * two stable sorts in a row equal one sort by the concatenated keys.
 */
module Sorting {
  import opened TableModel

  datatype SortKey = SortKey(col: string, asc: bool)

  // ------------------------------------------------------------ comparison

  /** Order of two cells: numbers before text, text by code point, missing last. */
  function CellCmp(a: Cell, b: Cell): int {
    match (a, b)
    case (Missing, Missing) => 0
    case (Missing, _) => 1
    case (_, Missing) => -1
    case (Num(x), Num(y)) => if x < y then -1 else if x > y then 1 else 0
    case (Text(s), Text(u)) => if LexLess(s, u) then -1 else if LexLess(u, s) then 1 else 0
    case (Num(_), Text(_)) => -1
    case (Text(_), Num(_)) => 1
  }

  /** One key: descending reverses the order of present values; missing stays last either way. */
  function KeyCmp(k: SortKey, x: Row, y: Row): int {
    var a, b := Get(x, k.col), Get(y, k.col);
    if a.Missing? || b.Missing? || k.asc then CellCmp(a, b) else -CellCmp(a, b)
  }

  /** Lexicographic comparison by the keys in order. */
  function RowCmp(ks: seq<SortKey>, x: Row, y: Row): int
    decreases |ks|
  {
    if |ks| == 0 then 0
    else
      var c := KeyCmp(ks[0], x, y);
      if c != 0 then c else RowCmp(ks[1..], x, y)
  }

  predicate Sorted(ks: seq<SortKey>, s: seq<Row>) {
    forall i, j :: 0 <= i < j < |s| ==> RowCmp(ks, s[i], s[j]) <= 0
  }

  // ------------------------------------------------------------------ sort

  /** Insert `x` after every element that does not compare greater than it. */
  function Insert(ks: seq<SortKey>, x: Row, s: seq<Row>): (r: seq<Row>)
    ensures |r| == |s| + 1
    decreases |s|
  {
    if |s| == 0 || RowCmp(ks, s[|s| - 1], x) <= 0 then s + [x]
    else Insert(ks, x, s[..|s| - 1]) + [s[|s| - 1]]
  }

  /** The stable sort (insertion sort: later rows go after equal earlier ones). */
  function Sort(ks: seq<SortKey>, xs: seq<Row>): (r: seq<Row>)
    ensures |r| == |xs|
    decreases |xs|
  {
    if |xs| == 0 then [] else Insert(ks, xs[|xs| - 1], Sort(ks, xs[..|xs| - 1]))
  }

  /** The rows of `s` that compare equal to `e` under `ks`, in order. */
  function Cls(ks: seq<SortKey>, e: Row, s: seq<Row>): (r: seq<Row>)
    ensures |r| <= |s|
    decreases |s|
  {
    if |s| == 0 then []
    else (if RowCmp(ks, s[0], e) == 0 then [s[0]] else []) + Cls(ks, e, s[1..])
  }

  /** Stability: within every class of equal keys, the order is the input's. */
  ghost predicate Stable(ks: seq<SortKey>, ys: seq<Row>, xs: seq<Row>) {
    forall e :: Cls(ks, e, ys) == Cls(ks, e, xs)
  }

  // ---------------------------------------------------------- failure

  /** The column holds a number in one row and text in another. */
  predicate MixedColumn(c: string, xs: seq<Row>) {
    (exists x :: x in xs && Get(x, c).Num?) && (exists y :: y in xs && Get(y, c).Text?)
  }

  /**
   * Whether `sort_values` raises. By one key it compares the present values
   * of the column with each other, and a number never compares with text;
   * by several keys it first ranks each column through its sorted distinct
   * values, which puts numbers before text, and does not raise.
   */
  predicate SortRaises(ks: seq<SortKey>, xs: seq<Row>) {
    |ks| == 1 && MixedColumn(ks[0].col, xs)
  }

  /** Whether a sort raises depends only on which rows there are, not on their order. */
  lemma RaisesPerm(ks: seq<SortKey>, xs: seq<Row>, ys: seq<Row>)
    requires multiset(xs) == multiset(ys)
    ensures SortRaises(ks, xs) <==> SortRaises(ks, ys)
  {
    assert forall x :: x in xs <==> x in multiset(ys);
  }

  // ---------------------------------------------- string order lemmas

  lemma {:induction false} LexIrrefl(a: string)
    ensures !LexLess(a, a)
    decreases |a|
  {
    if |a| > 0 {
      LexIrrefl(a[1..]);
    }
  }

  lemma {:induction false} LexAsym(a: string, b: string)
    ensures LexLess(a, b) ==> !LexLess(b, a)
    decreases |a|
  {
    if |a| > 0 && |b| > 0 && a[0] == b[0] {
      LexAsym(a[1..], b[1..]);
    }
  }

  lemma {:induction false} LexTrans(a: string, b: string, c: string)
    requires LexLess(a, b) && LexLess(b, c)
    ensures LexLess(a, c)
    decreases |a|
  {
    if |a| > 0 && a[0] == b[0] && b[0] == c[0] {
      LexTrans(a[1..], b[1..], c[1..]);
    }
  }

  lemma {:induction false} LexTotal(a: string, b: string)
    ensures a == b || LexLess(a, b) || LexLess(b, a)
    decreases |a|
  {
    if |a| > 0 && |b| > 0 && a[0] == b[0] {
      LexTotal(a[1..], b[1..]);
      if a[1..] == b[1..] {
        assert a == [a[0]] + a[1..] && b == [b[0]] + b[1..];
      }
    }
  }

  // ---------------------------------------------- comparison lemmas

  lemma CellCmpProps(a: Cell, b: Cell)
    ensures CellCmp(a, b) == -CellCmp(b, a)
    ensures CellCmp(a, b) == 0 <==> a == b
    ensures -1 <= CellCmp(a, b) <= 1
  {
    if a.Text? && b.Text? {
      LexAsym(a.s, b.s);
      LexTotal(a.s, b.s);
      LexIrrefl(a.s);
    }
  }

  lemma CellCmpTrans(a: Cell, b: Cell, c: Cell)
    requires CellCmp(a, b) <= 0 && CellCmp(b, c) <= 0
    ensures CellCmp(a, c) <= 0
  {
    CellCmpProps(a, b);
    CellCmpProps(b, c);
    CellCmpProps(a, c);
    if a.Text? && b.Text? && c.Text? {
      if LexLess(a.s, b.s) && LexLess(b.s, c.s) {
        LexTrans(a.s, b.s, c.s);
      }
    }
  }

  lemma KeyCmpProps(k: SortKey, x: Row, y: Row)
    ensures KeyCmp(k, x, y) == -KeyCmp(k, y, x)
    ensures KeyCmp(k, x, y) == 0 <==> Get(x, k.col) == Get(y, k.col)
  {
    CellCmpProps(Get(x, k.col), Get(y, k.col));
  }

  lemma KeyCmpTrans(k: SortKey, x: Row, y: Row, z: Row)
    requires KeyCmp(k, x, y) <= 0 && KeyCmp(k, y, z) <= 0
    ensures KeyCmp(k, x, z) <= 0
  {
    var a, b, c := Get(x, k.col), Get(y, k.col), Get(z, k.col);
    CellCmpProps(a, b);
    CellCmpProps(b, c);
    CellCmpProps(a, c);
    if k.asc {
      CellCmpTrans(a, b, c);
    } else if !a.Missing? && !b.Missing? && !c.Missing? {
      CellCmpTrans(c, b, a);
    }
  }

  lemma {:induction false} RowCmpProps(ks: seq<SortKey>, x: Row, y: Row)
    ensures RowCmp(ks, x, y) == -RowCmp(ks, y, x)
    ensures RowCmp(ks, x, y) == 0 <==> forall k :: k in ks ==> Get(x, k.col) == Get(y, k.col)
    decreases |ks|
  {
    if |ks| > 0 {
      KeyCmpProps(ks[0], x, y);
      RowCmpProps(ks[1..], x, y);
      assert forall k :: k in ks <==> k == ks[0] || k in ks[1..];
    }
  }

  lemma {:induction false} RowCmpTrans(ks: seq<SortKey>, x: Row, y: Row, z: Row)
    requires RowCmp(ks, x, y) <= 0 && RowCmp(ks, y, z) <= 0
    ensures RowCmp(ks, x, z) <= 0
    decreases |ks|
  {
    if |ks| > 0 {
      var k := ks[0];
      KeyCmpProps(k, x, y);
      KeyCmpProps(k, y, z);
      KeyCmpProps(k, x, z);
      KeyCmpTrans(k, x, y, z);
      if KeyCmp(k, x, y) == 0 && KeyCmp(k, y, z) == 0 {
        RowCmpTrans(ks[1..], x, y, z);
      } else if KeyCmp(k, x, z) == 0 {
        // x and z agree on k, so x <= y <= z forces y to agree with them too
        KeyCmpTrans(k, y, z, x);
        KeyCmpTrans(k, z, x, y);
      }
    }
  }

  lemma {:induction false} RowCmpRefl(ks: seq<SortKey>, x: Row)
    ensures RowCmp(ks, x, x) == 0
    decreases |ks|
  {
    if |ks| > 0 {
      KeyCmpProps(ks[0], x, x);
      RowCmpRefl(ks[1..], x);
    }
  }

  /** Equal to `e` and strictly above `x`, which is equal to `e`, is impossible. */
  lemma AboveClassIsOutside(ks: seq<SortKey>, l: Row, x: Row, e: Row)
    requires RowCmp(ks, l, x) > 0 && RowCmp(ks, x, e) == 0
    ensures RowCmp(ks, l, e) != 0
  {
    RowCmpProps(ks, x, e);
    RowCmpProps(ks, l, x);
    if RowCmp(ks, l, e) == 0 {
      RowCmpProps(ks, l, e);
      RowCmpTrans(ks, l, e, x);
    }
  }

  /** Comparing by `k1 + k2` compares by `k1`, and by `k2` only to break ties. */
  lemma {:induction false} RowCmpConcat(k1: seq<SortKey>, k2: seq<SortKey>, x: Row, y: Row)
    ensures RowCmp(k1 + k2, x, y) == if RowCmp(k1, x, y) != 0 then RowCmp(k1, x, y) else RowCmp(k2, x, y)
    decreases |k1|
  {
    if |k1| > 0 {
      assert (k1 + k2)[0] == k1[0];
      assert (k1 + k2)[1..] == k1[1..] + k2;
      RowCmpConcat(k1[1..], k2, x, y);
    } else {
      assert k1 + k2 == k2;
    }
  }

  // ---------------------------------------------------- class filter lemmas

  lemma {:induction false} ClsAppend(ks: seq<SortKey>, e: Row, a: seq<Row>, b: seq<Row>)
    ensures Cls(ks, e, a + b) == Cls(ks, e, a) + Cls(ks, e, b)
    decreases |a|
  {
    if |a| == 0 {
      assert a + b == b;
    } else {
      assert (a + b)[1..] == a[1..] + b;
      ClsAppend(ks, e, a[1..], b);
    }
  }

  lemma ClsSingle(ks: seq<SortKey>, e: Row, x: Row)
    ensures Cls(ks, e, [x]) == if RowCmp(ks, x, e) == 0 then [x] else []
  {
    assert [x][1..] == [];
  }

  /** Members of a class all compare equal to its representative. */
  lemma {:induction false} ClsMembers(ks: seq<SortKey>, e: Row, s: seq<Row>)
    ensures forall i :: 0 <= i < |Cls(ks, e, s)| ==> RowCmp(ks, Cls(ks, e, s)[i], e) == 0
    ensures multiset(Cls(ks, e, s)) <= multiset(s)
    decreases |s|
  {
    if |s| > 0 {
      ClsMembers(ks, e, s[1..]);
      assert s == [s[0]] + s[1..];
    }
  }

  /** The class of a sorted sequence is sorted by any other keys the sequence is sorted by. */
  lemma {:induction false} ClsSorted(ks: seq<SortKey>, ks2: seq<SortKey>, e: Row, s: seq<Row>)
    requires Sorted(ks2, s)
    ensures Sorted(ks2, Cls(ks, e, s))
    decreases |s|
  {
    if |s| > 0 {
      ClsSorted(ks, ks2, e, s[1..]);
      var rest := Cls(ks, e, s[1..]);
      ClsMembers(ks, e, s[1..]);
      forall j | 0 <= j < |rest|
        ensures RowCmp(ks2, s[0], rest[j]) <= 0
      {
        assert rest[j] in multiset(s[1..]);
        var m :| 0 <= m < |s[1..]| && s[1..][m] == rest[j];
        assert s[m + 1] == rest[j];
      }
    }
  }

  /** Two class members in order in `s` appear in the same order in the class. */
  lemma {:induction false} ClsOrder(ks: seq<SortKey>, e: Row, s: seq<Row>, i: nat, j: nat)
    requires i < j < |s| && RowCmp(ks, s[i], e) == 0 && RowCmp(ks, s[j], e) == 0
    ensures exists p, q :: 0 <= p < q < |Cls(ks, e, s)| && Cls(ks, e, s)[p] == s[i] && Cls(ks, e, s)[q] == s[j]
    decreases |s|
  {
    var c := Cls(ks, e, s);
    if i == 0 {
      ClsPosition(ks, e, s[1..], j - 1);
      var q :| 0 <= q < |Cls(ks, e, s[1..])| && Cls(ks, e, s[1..])[q] == s[1..][j - 1];
      assert c[0] == s[0] && c[q + 1] == s[j];
    } else {
      ClsOrder(ks, e, s[1..], i - 1, j - 1);
      var p, q :| 0 <= p < q < |Cls(ks, e, s[1..])| && Cls(ks, e, s[1..])[p] == s[1..][i - 1]
        && Cls(ks, e, s[1..])[q] == s[1..][j - 1];
      var off := if RowCmp(ks, s[0], e) == 0 then 1 else 0;
      assert c[p + off] == s[i] && c[q + off] == s[j];
    }
  }

  lemma {:induction false} ClsPosition(ks: seq<SortKey>, e: Row, s: seq<Row>, j: nat)
    requires j < |s| && RowCmp(ks, s[j], e) == 0
    ensures exists q :: 0 <= q < |Cls(ks, e, s)| && Cls(ks, e, s)[q] == s[j]
    decreases |s|
  {
    var c := Cls(ks, e, s);
    if j == 0 {
      assert c[0] == s[0];
    } else {
      ClsPosition(ks, e, s[1..], j - 1);
      var q :| 0 <= q < |Cls(ks, e, s[1..])| && Cls(ks, e, s[1..])[q] == s[1..][j - 1];
      var off := if RowCmp(ks, s[0], e) == 0 then 1 else 0;
      assert c[q + off] == s[j];
    }
  }

  /** The class under `k1 + k2` is the `k2`-class of the `k1`-class, and the other way round. */
  lemma {:induction false} ClsConcatKeys(k1: seq<SortKey>, k2: seq<SortKey>, e: Row, s: seq<Row>)
    ensures Cls(k1 + k2, e, s) == Cls(k2, e, Cls(k1, e, s))
    ensures Cls(k1 + k2, e, s) == Cls(k1, e, Cls(k2, e, s))
    decreases |s|
  {
    if |s| > 0 {
      ClsConcatKeys(k1, k2, e, s[1..]);
      RowCmpConcat(k1, k2, s[0], e);
      var x := s[0];
      ClsAppend(k2, e, Cls(k1, e, [x]), Cls(k1, e, s[1..]));
      ClsAppend(k1, e, Cls(k2, e, [x]), Cls(k2, e, s[1..]));
      ClsSingle(k1, e, x);
      ClsSingle(k2, e, x);
      assert Cls(k1, e, s) == Cls(k1, e, [x]) + Cls(k1, e, s[1..]);
      assert Cls(k2, e, s) == Cls(k2, e, [x]) + Cls(k2, e, s[1..]);
      assert Cls(k2, e, []) == [] && Cls(k1, e, []) == [];
    }
  }

  // ----------------------------------------------------- the sort's facts

  lemma {:induction false} InsertPerm(ks: seq<SortKey>, x: Row, s: seq<Row>)
    ensures multiset(Insert(ks, x, s)) == multiset(s) + multiset{x}
    decreases |s|
  {
    if !(|s| == 0 || RowCmp(ks, s[|s| - 1], x) <= 0) {
      var init := s[..|s| - 1];
      assert s == init + [s[|s| - 1]];
      InsertPerm(ks, x, init);
    }
  }

  lemma {:induction false} InsertSorted(ks: seq<SortKey>, x: Row, s: seq<Row>)
    requires Sorted(ks, s)
    ensures Sorted(ks, Insert(ks, x, s))
    decreases |s|
  {
    var r := Insert(ks, x, s);
    if |s| == 0 || RowCmp(ks, s[|s| - 1], x) <= 0 {
      forall i, j | 0 <= i < j < |r|
        ensures RowCmp(ks, r[i], r[j]) <= 0
      {
        if j == |s| && i < |s| - 1 {
          RowCmpTrans(ks, s[i], s[|s| - 1], x);
        }
      }
    } else {
      var init, l := s[..|s| - 1], s[|s| - 1];
      InsertSorted(ks, x, init);
      InsertPerm(ks, x, init);
      var r0 := Insert(ks, x, init);
      assert r == r0 + [l];
      RowCmpProps(ks, l, x);
      forall i | 0 <= i < |r0|
        ensures RowCmp(ks, r0[i], l) <= 0
      {
        assert r0[i] in multiset(init) + multiset{x};
        if r0[i] != x {
          assert r0[i] in multiset(init);
          var m :| 0 <= m < |init| && init[m] == r0[i];
          assert s[m] == r0[i];
        }
      }
    }
  }

  lemma {:induction false} InsertCls(ks: seq<SortKey>, x: Row, s: seq<Row>, e: Row)
    ensures Cls(ks, e, Insert(ks, x, s)) == Cls(ks, e, s) + Cls(ks, e, [x])
    decreases |s|
  {
    if |s| == 0 || RowCmp(ks, s[|s| - 1], x) <= 0 {
      ClsAppend(ks, e, s, [x]);
    } else {
      var init, l := s[..|s| - 1], s[|s| - 1];
      assert s == init + [l];
      InsertCls(ks, x, init, e);
      var r0 := Insert(ks, x, init);
      var cx, cl := Cls(ks, e, [x]), Cls(ks, e, [l]);
      ClassesCommute(ks, l, x, e);
      calc {
        Cls(ks, e, Insert(ks, x, s));
        { assert Insert(ks, x, s) == r0 + [l]; }
        Cls(ks, e, r0 + [l]);
        { ClsAppend(ks, e, r0, [l]); }
        Cls(ks, e, r0) + cl;
        { InsertCls(ks, x, init, e); }
        (Cls(ks, e, init) + cx) + cl;
        { var a := Cls(ks, e, init);
          assert (a + cx) + cl == a + (cx + cl);
          assert (a + cl) + cx == a + (cl + cx); }
        (Cls(ks, e, init) + cl) + cx;
        { ClsAppend(ks, e, init, [l]); }
        Cls(ks, e, s) + cx;
      }
    }
  }

  /** A row sorted after `x` is never in the same class as `x`, so their one-row classes commute. */
  lemma ClassesCommute(ks: seq<SortKey>, l: Row, x: Row, e: Row)
    requires RowCmp(ks, l, x) > 0
    ensures Cls(ks, e, [x]) + Cls(ks, e, [l]) == Cls(ks, e, [l]) + Cls(ks, e, [x])
  {
    ClsSingle(ks, e, l);
    ClsSingle(ks, e, x);
    if RowCmp(ks, x, e) == 0 {
      AboveClassIsOutside(ks, l, x, e);
    }
  }

  lemma {:induction false} SortPerm(ks: seq<SortKey>, xs: seq<Row>)
    ensures multiset(Sort(ks, xs)) == multiset(xs)
    decreases |xs|
  {
    if |xs| > 0 {
      var init, x := xs[..|xs| - 1], xs[|xs| - 1];
      assert xs == init + [x];
      SortPerm(ks, init);
      InsertPerm(ks, x, Sort(ks, init));
    }
  }

  lemma {:induction false} SortSorted(ks: seq<SortKey>, xs: seq<Row>)
    ensures Sorted(ks, Sort(ks, xs))
    decreases |xs|
  {
    if |xs| > 0 {
      SortSorted(ks, xs[..|xs| - 1]);
      InsertSorted(ks, xs[|xs| - 1], Sort(ks, xs[..|xs| - 1]));
    }
  }

  lemma {:induction false} SortStableAt(ks: seq<SortKey>, xs: seq<Row>, e: Row)
    ensures Cls(ks, e, Sort(ks, xs)) == Cls(ks, e, xs)
    decreases |xs|
  {
    if |xs| > 0 {
      var init, x := xs[..|xs| - 1], xs[|xs| - 1];
      assert xs == init + [x];
      SortStableAt(ks, init, e);
      InsertCls(ks, x, Sort(ks, init), e);
      ClsAppend(ks, e, init, [x]);
    }
  }

  /** The stable sort is sorted, a permutation of its input, and stable. */
  lemma SortFacts(ks: seq<SortKey>, xs: seq<Row>)
    ensures multiset(Sort(ks, xs)) == multiset(xs)
    ensures Sorted(ks, Sort(ks, xs))
    ensures Stable(ks, Sort(ks, xs), xs)
  {
    SortPerm(ks, xs);
    SortSorted(ks, xs);
    forall e
      ensures Cls(ks, e, Sort(ks, xs)) == Cls(ks, e, xs)
    {
      SortStableAt(ks, xs, e);
    }
  }

  /** The first element of a sorted sequence is at or below every element of it. */
  lemma HeadIsLeast(ks: seq<SortKey>, s: seq<Row>, x: Row)
    requires Sorted(ks, s) && x in multiset(s)
    ensures |s| > 0 && RowCmp(ks, s[0], x) <= 0
  {
    var i :| 0 <= i < |s| && s[i] == x;
    if i == 0 {
      RowCmpRefl(ks, x);
    }
  }

  lemma ClsHead(ks: seq<SortKey>, e: Row, s: seq<Row>)
    requires |s| > 0 && RowCmp(ks, s[0], e) == 0
    ensures |Cls(ks, e, s)| > 0 && Cls(ks, e, s)[0] == s[0]
  {
  }

  /** Two sorted permutations of each other whose classes agree on their first element start alike. */
  lemma HeadsEqual(ks: seq<SortKey>, ys: seq<Row>, zs: seq<Row>)
    requires Sorted(ks, ys) && Sorted(ks, zs) && |ys| > 0
    requires multiset(ys) == multiset(zs)
    requires Cls(ks, ys[0], ys) == Cls(ks, ys[0], zs)
    ensures |zs| > 0 && ys[0] == zs[0]
  {
    var a := ys[0];
    assert a in multiset(ys);
    HeadIsLeast(ks, zs, a);
    var b := zs[0];
    assert b in multiset(zs);
    HeadIsLeast(ks, ys, b);
    RowCmpProps(ks, a, b);
    RowCmpRefl(ks, a);
    ClsHead(ks, a, ys);
    ClsHead(ks, a, zs);
  }

  lemma TailClassAgrees(ks: seq<SortKey>, ys: seq<Row>, zs: seq<Row>, e: Row)
    requires |ys| > 0 && |zs| > 0 && ys[0] == zs[0]
    requires Cls(ks, e, ys) == Cls(ks, e, zs)
    ensures Cls(ks, e, ys[1..]) == Cls(ks, e, zs[1..])
  {
    assert ys == [ys[0]] + ys[1..] && zs == [zs[0]] + zs[1..];
    ClsAppend(ks, e, [ys[0]], ys[1..]);
    ClsAppend(ks, e, [zs[0]], zs[1..]);
  }

  lemma TailMultiset(ys: seq<Row>, zs: seq<Row>)
    requires |ys| > 0 && |zs| > 0 && ys[0] == zs[0]
    requires multiset(ys) == multiset(zs)
    ensures multiset(ys[1..]) == multiset(zs[1..])
  {
    assert ys == [ys[0]] + ys[1..] && zs == [zs[0]] + zs[1..];
    assert multiset(ys[1..]) == multiset(ys) - multiset{ys[0]};
    assert multiset(zs[1..]) == multiset(zs) - multiset{zs[0]};
  }

  /** Sorted, permutation and stable determine the result: at most one sequence has all three. */
  lemma {:induction false} SortUnique(ks: seq<SortKey>, ys: seq<Row>, zs: seq<Row>)
    requires Sorted(ks, ys) && Sorted(ks, zs)
    requires multiset(ys) == multiset(zs)
    requires forall e :: Cls(ks, e, ys) == Cls(ks, e, zs)
    ensures ys == zs
    decreases |ys|
  {
    if |ys| == 0 {
      assert |multiset(zs)| == 0;
    } else {
      HeadsEqual(ks, ys, zs);
      TailMultiset(ys, zs);
      forall e
        ensures Cls(ks, e, ys[1..]) == Cls(ks, e, zs[1..])
      {
        TailClassAgrees(ks, ys, zs, e);
      }
      SortUnique(ks, ys[1..], zs[1..]);
      assert ys == [ys[0]] + ys[1..] && zs == [zs[0]] + zs[1..];
    }
  }

  /** Two `k1`-equal rows in order in `ys` are in `k2` order when their `k1`-class is `k2`-sorted. */
  lemma StablePairOrdered(k1: seq<SortKey>, k2: seq<SortKey>, ys: seq<Row>, i: nat, j: nat)
    requires i < j < |ys|
    requires RowCmp(k1, ys[i], ys[j]) <= 0
    requires Sorted(k2, Cls(k1, ys[i], ys))
    ensures RowCmp(k1 + k2, ys[i], ys[j]) <= 0
  {
    RowCmpConcat(k1, k2, ys[i], ys[j]);
    if RowCmp(k1, ys[i], ys[j]) == 0 {
      var e := ys[i];
      RowCmpRefl(k1, e);
      ClsOrder(k1, e, ys, i, j);
      var c := Cls(k1, e, ys);
      var p, q :| 0 <= p < q < |c| && c[p] == ys[i] && c[q] == ys[j];
      assert RowCmp(k2, c[p], c[q]) <= 0;
    }
  }

  lemma SortTwicePair(k1: seq<SortKey>, k2: seq<SortKey>, xs: seq<Row>, i: nat, j: nat)
    requires i < j < |xs|
    ensures RowCmp(k1 + k2, Sort(k1, Sort(k2, xs))[i], Sort(k1, Sort(k2, xs))[j]) <= 0
  {
    var s2 := Sort(k2, xs);
    var ys := Sort(k1, s2);
    assert RowCmp(k1, ys[i], ys[j]) <= 0 by {
      SortSorted(k1, s2);
    }
    assert Sorted(k2, Cls(k1, ys[i], ys)) by {
      SortSorted(k2, xs);
      ClsSorted(k1, k2, ys[i], s2);
      SortStableAt(k1, s2, ys[i]);
    }
    StablePairOrdered(k1, k2, ys, i, j);
  }

  lemma SortTwiceSorted(k1: seq<SortKey>, k2: seq<SortKey>, xs: seq<Row>)
    ensures Sorted(k1 + k2, Sort(k1, Sort(k2, xs)))
  {
    forall i, j | 0 <= i < j < |xs|
      ensures RowCmp(k1 + k2, Sort(k1, Sort(k2, xs))[i], Sort(k1, Sort(k2, xs))[j]) <= 0
    {
      SortTwicePair(k1, k2, xs, i, j);
    }
  }

  lemma SortTwiceStable(k1: seq<SortKey>, k2: seq<SortKey>, xs: seq<Row>, e: Row)
    ensures Cls(k1 + k2, e, Sort(k1, Sort(k2, xs))) == Cls(k1 + k2, e, xs)
  {
    var s2 := Sort(k2, xs);
    var ys := Sort(k1, s2);
    ClsConcatKeys(k1, k2, e, ys);
    ClsConcatKeys(k1, k2, e, s2);
    ClsConcatKeys(k1, k2, e, xs);
    SortStableAt(k1, s2, e);
    SortStableAt(k2, xs, e);
  }

  /** Sorting by `k2` and then stably by `k1` is one sort by `k1 + k2`: `k1` takes precedence. */
  lemma SortTwice(k1: seq<SortKey>, k2: seq<SortKey>, xs: seq<Row>)
    ensures Sort(k1, Sort(k2, xs)) == Sort(k1 + k2, xs)
  {
    var ys := Sort(k1, Sort(k2, xs));
    var zs := Sort(k1 + k2, xs);
    SortPerm(k2, xs);
    SortPerm(k1, Sort(k2, xs));
    SortPerm(k1 + k2, xs);
    SortSorted(k1 + k2, xs);
    SortTwiceSorted(k1, k2, xs);
    forall e
      ensures Cls(k1 + k2, e, ys) == Cls(k1 + k2, e, zs)
    {
      SortTwiceStable(k1, k2, xs, e);
      SortStableAt(k1 + k2, xs, e);
    }
    SortUnique(k1 + k2, ys, zs);
  }
}
