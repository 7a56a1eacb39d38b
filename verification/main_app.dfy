/**
 * The main window (main.py): the list of sheets, fresh sheet names, the CSV
 * delimiter guess, the per-sheet stage pipeline, the preview selector, the
 * preview's row ids and the deletion of the rows picked there.
 */
module MainApp {
  import opened TableModel
  import Filters
  import Sorts
  import Columns
  import Pivot
  import VlookupSettings
  import Batch

  /** One sheet tab: its name and the five settings frames. */
  datatype Sheet = Sheet(name: string, filters: Filters.FiltersFrame, sorts: Sorts.SortsFrame,
                         columns: Columns.ColumnsManager, pivot: Pivot.PivotFrame,
                         vlookup: VlookupSettings.VlookupFrame)

  function Names(sheets: seq<Sheet>): (r: seq<string>)
    ensures |r| == |sheets|
    ensures forall k :: 0 <= k < |sheets| ==> r[k] == sheets[k].name
  {
    seq(|sheets|, k requires 0 <= k < |sheets| => sheets[k].name)
  }

  // ------------------------------------------------------------ sheet names

  /** The `i`-th default name: `Sheet{i}`. */
  function SheetName(i: nat): string {
    "Sheet" + NatToString(i)
  }

  lemma SheetNameInjective(i: nat, j: nat)
    ensures SheetName(i) == SheetName(j) ==> i == j
  {
    if SheetName(i) == SheetName(j) {
      assert SheetName(i)[5..] == NatToString(i);
      assert SheetName(j)[5..] == NatToString(j);
      DigitsValueOfNat(i);
      DigitsValueOfNat(j);
    }
  }

  // ------------------------------------------------------- CSV delimiters

  /** The delimiters tried, in order of preference. */
  const Candidates: seq<char> := [',', ';', '\t', '|']

  /** `str.count` for one character. */
  function CountChar(s: string, c: char): nat {
    if |s| == 0 then 0 else (if s[|s| - 1] == c then 1 else 0) + CountChar(s[..|s| - 1], c)
  }

  function HeaderLine(lines: seq<string>): string {
    if |lines| > 0 then lines[0] else ""
  }

  /** `max(counts, key=counts.get)`: the position of the first candidate with the largest count. */
  function FirstMax(h: string, cs: seq<char>): (k: nat)
    requires |cs| > 0
    ensures k < |cs|
    ensures forall j :: 0 <= j < |cs| ==> CountChar(h, cs[j]) <= CountChar(h, cs[k])
    ensures forall j :: 0 <= j < k ==> CountChar(h, cs[j]) < CountChar(h, cs[k])
  {
    if |cs| == 1 then 0
    else
      var k := FirstMax(h, cs[..|cs| - 1]);
      if CountChar(h, cs[|cs| - 1]) > CountChar(h, cs[k]) then |cs| - 1 else k
  }

  predicate Ascending(s: seq<nat>) {
    forall i, j :: 0 <= i < j < |s| ==> s[i] <= s[j]
  }

  function InsertNat(x: nat, s: seq<nat>): (r: seq<nat>)
    requires Ascending(s)
    ensures Ascending(r) && multiset(r) == multiset(s) + multiset{x} && |r| == |s| + 1
    ensures r[0] == x || (|s| > 0 && r[0] == s[0])
  {
    if |s| == 0 then [x]
    else if x <= s[0] then [x] + s
    else
      assert s == [s[0]] + s[1..];
      [s[0]] + InsertNat(x, s[1..])
  }

  /** `counts.sort()`. */
  function SortNats(s: seq<nat>): (r: seq<nat>)
    ensures Ascending(r) && multiset(r) == multiset(s) && |r| == |s|
  {
    if |s| == 0 then []
    else
      assert s == [s[0]] + s[1..];
      InsertNat(s[0], SortNats(s[1..]))
  }

  /** Sum of squared deviations from `m`, as a real. */
  function SqDev(cs: seq<nat>, m: int): real {
    if |cs| == 0 then 0.0 else ((cs[0] - m) * (cs[0] - m)) as real + SqDev(cs[1..], m)
  }

  /** The element at position `len // 2` of the sorted field counts. */
  function Median(cs: seq<nat>): nat
    requires |cs| > 0
  {
    SortNats(cs)[|cs| / 2]
  }

  /** Mean squared deviation from the median. */
  function Variance(cs: seq<nat>): real
    requires |cs| > 0
  {
    SqDev(SortNats(cs), Median(cs)) / |cs| as real
  }

  /**
   * The running `best` tuple: delimiter, median and variance, where a
   * missing variance stands for infinity.
   */
  datatype Best = Best(delim: Option<char>, median: int, variance: Option<real>)

  const Initial: Best := Best(None, 1, None)

  /** A delimiter whose reader raised (no entry) or read no row is skipped. */
  predicate Usable(counts: map<char, seq<nat>>, d: char) {
    d in counts && |counts[d]| > 0
  }

  /** A larger median wins; an equal median wins with a strictly smaller variance. */
  predicate Better(m: int, v: real, b: Best) {
    m > b.median || (m == b.median && (b.variance.None? || v < b.variance.value))
  }

  function Step(b: Best, d: char, counts: map<char, seq<nat>>): Best {
    if !Usable(counts, d) then b
    else if Better(Median(counts[d]), Variance(counts[d]), b) then Best(Some(d), Median(counts[d]), Some(Variance(counts[d])))
    else b
  }

  function FitFrom(b: Best, ds: seq<char>, counts: map<char, seq<nat>>): Best
    decreases |ds|
  {
    if |ds| == 0 then b else FitFrom(Step(b, ds[0], counts), ds[1..], counts)
  }

  /** `_detect_csv_delimiter`, with the per-delimiter field counts of the non-empty sample rows given. */
  function DetectSpec(lines: seq<string>, counts: map<char, seq<nat>>): Option<char> {
    var h := HeaderLine(lines);
    var k := FirstMax(h, Candidates);
    if CountChar(h, Candidates[k]) > 0 then Some(Candidates[k])
    else
      var b := FitFrom(Initial, Candidates, counts);
      if b.delim.None? || b.median <= 1 then None else b.delim
  }

  /** The detection loop over the candidates, keeping the best (median, variance) so far. */
  method DetectCsvDelimiter(lines: seq<string>, counts: map<char, seq<nat>>) returns (d: Option<char>)
    ensures d == DetectSpec(lines, counts)
  {
    var h := HeaderLine(lines);
    var k := FirstMax(h, Candidates);
    if CountChar(h, Candidates[k]) > 0 {
      return Some(Candidates[k]);
    }
    var best := Initial;
    var i := 0;
    while i < |Candidates|
      invariant 0 <= i <= |Candidates|
      invariant FitFrom(best, Candidates[i..], counts) == FitFrom(Initial, Candidates, counts)
    {
      assert Candidates[i..][1..] == Candidates[i + 1..];
      var delim := Candidates[i];
      if delim in counts && |counts[delim]| > 0 {
        var cs := SortNats(counts[delim]);
        var median := cs[|cs| / 2];
        var variance := SqDev(cs, median) / |cs| as real;
        if median > best.median || (median == best.median && (best.variance.None? || variance < best.variance.value)) {
          best := Best(Some(delim), median, Some(variance));
        }
      }
      i := i + 1;
    }
    if best.delim.None? || best.median <= 1 {
      return None;
    }
    return best.delim;
  }

  /** When a candidate occurs in the header line, the most frequent one wins, the earliest on ties. */
  lemma HeaderDecides(lines: seq<string>, counts: map<char, seq<nat>>, c: char)
    requires c in Candidates && CountChar(HeaderLine(lines), c) > 0
    ensures DetectSpec(lines, counts).Some?
    ensures var d := DetectSpec(lines, counts).value;
      d in Candidates
      && (forall j :: 0 <= j < |Candidates| ==> CountChar(HeaderLine(lines), Candidates[j]) <= CountChar(HeaderLine(lines), d))
      && (forall j :: (0 <= j < |Candidates| && Candidates[j] != d
            && CountChar(HeaderLine(lines), Candidates[j]) == CountChar(HeaderLine(lines), d)) ==> d in Candidates[..j])
  {
    var h := HeaderLine(lines);
    var k := FirstMax(h, Candidates);
    assert CountChar(h, Candidates[k]) > 0;
    forall j | 0 <= j < |Candidates| && Candidates[j] != Candidates[k]
        && CountChar(h, Candidates[j]) == CountChar(h, Candidates[k])
      ensures Candidates[k] in Candidates[..j]
    {
      assert k < j;
      assert Candidates[..j][k] == Candidates[k];
    }
  }

  /** `b` beats a candidate with median `m` and variance `v`, or ties it with no larger variance. */
  predicate Dominates(b: Best, m: int, v: real) {
    b.median > m || (b.median == m && b.variance.Some? && b.variance.value <= v)
  }

  /** `r` is at least as good as `b`. */
  predicate NoWorse(r: Best, b: Best) {
    r.median > b.median || (r.median == b.median && (b.variance.None? || (r.variance.Some? && r.variance.value <= b.variance.value)))
  }

  /** The best so far is the initial tuple, or the fit of a usable candidate. */
  predicate Sane(b: Best, counts: map<char, seq<nat>>) {
    (b.delim.None? ==> b == Initial)
    && (b.delim.Some? ==> Usable(counts, b.delim.value) && b.median == Median(counts[b.delim.value])
                          && b.variance == Some(Variance(counts[b.delim.value])))
  }

  lemma {:induction false} FitFromFacts(b: Best, ds: seq<char>, counts: map<char, seq<nat>>)
    requires Sane(b, counts)
    ensures Sane(FitFrom(b, ds, counts), counts)
    ensures NoWorse(FitFrom(b, ds, counts), b)
    ensures forall d :: d in ds && Usable(counts, d) ==>
      Dominates(FitFrom(b, ds, counts), Median(counts[d]), Variance(counts[d]))
    decreases |ds|
  {
    if |ds| > 0 {
      var b1 := Step(b, ds[0], counts);
      FitFromFacts(b1, ds[1..], counts);
      var r := FitFrom(b, ds, counts);
      assert r == FitFrom(b1, ds[1..], counts);
      forall d | d in ds && Usable(counts, d)
        ensures Dominates(r, Median(counts[d]), Variance(counts[d]))
      {
        if d !in ds[1..] {
          assert d == ds[0];
          assert Dominates(b1, Median(counts[d]), Variance(counts[d]));
        }
      }
    }
  }

  /**
   * When no candidate occurs in the header line: the choice has the largest
   * median among the usable candidates, the smallest variance among those
   * with that median, and a median above 1; there is no choice exactly when
   * every usable candidate has median at most 1.
   */
  lemma FitDecides(lines: seq<string>, counts: map<char, seq<nat>>)
    requires forall c :: c in Candidates ==> CountChar(HeaderLine(lines), c) == 0
    ensures DetectSpec(lines, counts).Some? ==>
      var d := DetectSpec(lines, counts).value;
      d in Candidates && Usable(counts, d) && Median(counts[d]) > 1
      && forall c :: c in Candidates && Usable(counts, c) ==>
           Median(counts[c]) < Median(counts[d])
           || (Median(counts[c]) == Median(counts[d]) && Variance(counts[d]) <= Variance(counts[c]))
    ensures DetectSpec(lines, counts).None? <==>
      forall c :: c in Candidates && Usable(counts, c) ==> Median(counts[c]) <= 1
  {
    var h := HeaderLine(lines);
    var k := FirstMax(h, Candidates);
    assert CountChar(h, Candidates[k]) == 0;
    FitFromFacts(Initial, Candidates, counts);
    var b := FitFrom(Initial, Candidates, counts);
    if b.delim.Some? {
      FitFromDelim(Initial, Candidates, counts);
    }
  }

  lemma {:induction false} FitFromDelim(b: Best, ds: seq<char>, counts: map<char, seq<nat>>)
    requires b.delim.Some? ==> b.delim.value in ds
    ensures FitFrom(b, ds, counts).delim.Some? ==> FitFrom(b, ds, counts).delim.value in ds
    decreases |ds|
  {
    if |ds| > 0 {
      var b1 := Step(b, ds[0], counts);
      if b1.delim.Some? && b1.delim.value in ds[1..] {
        FitFromDelim(b1, ds[1..], counts);
      } else {
        FitFromStays(b1, ds[1..], counts, ds);
      }
    }
  }

  lemma {:induction false} FitFromStays(b: Best, ds: seq<char>, counts: map<char, seq<nat>>, all: seq<char>)
    requires b.delim.Some? ==> b.delim.value in all
    requires forall d :: d in ds ==> d in all
    ensures FitFrom(b, ds, counts).delim.Some? ==> FitFrom(b, ds, counts).delim.value in all
    decreases |ds|
  {
    if |ds| > 0 {
      FitFromStays(Step(b, ds[0], counts), ds[1..], counts, all);
    }
  }

  // ------------------------------------------------------------ pipeline

  /** A stage that raised (None) leaves the previous table. */
  function Keep(prev: Table, r: Option<Table>): Table {
    if r.Some? then r.value else prev
  }

  /** `_generate_base_df`: filters, then sorts, then columns on a copy of the data; a stage that raises is skipped. */
  function BaseSpec(df: Table, frows: seq<Filters.FilterRow>, srows: seq<Sorts.SortRow>, cc: Columns.ColumnsConfig): Table {
    var f := Keep(df, Filters.FilterSpec(frows, df));
    Columns.Apply(cc, Keep(f, Sorts.SortSpec(srows, f)))
  }

  /** `r` is some row of `src` with the same label and the same values in `cols`. */
  predicate RowFrom(r: Row, src: seq<Row>, cols: seq<string>) {
    exists x :: x in src && Batch.Origin(r, x, cols)
  }

  /** Every row of `Apply(c, t)` is a row of `t` restricted to the result's columns. */
  lemma ApplyOrigin(c: Columns.ColumnsConfig, t: Table)
    ensures var r := Columns.Apply(c, t);
      forall j :: 0 <= j < |r.rows| ==> RowFrom(r.rows[j], t.rows, r.cols)
  {
    var r := Columns.Apply(c, t);
    if !IsEmpty(t) {
      var t1 := if Columns.DedupeApplies(c, t) then Columns.Dedupe(t, c.column) else t;
      var vis := Columns.VisibleList(c.order, c.visible, t1.cols);
      forall j | 0 <= j < |t1.rows|
        ensures t1.rows[j] in t.rows
      {
        if Columns.DedupeApplies(c, t) {
          Columns.DedupeIsFirstOccurrence(t.rows, c.column, {});
          SelectMembers(t.rows, Columns.FirstMask(t.rows, c.column, {}), t1.rows[j]);
        }
      }
      assert r == (if |vis| > 0 then Columns.Project(t1, vis) else t1);
      forall j | 0 <= j < |r.rows|
        ensures RowFrom(r.rows[j], t.rows, r.cols)
      {
        assert t1.rows[j] in t.rows;
        assert Batch.Origin(r.rows[j], t1.rows[j], r.cols);
      }
    } else {
      forall j | 0 <= j < |r.rows|
        ensures RowFrom(r.rows[j], t.rows, r.cols)
      {
        assert Batch.Origin(r.rows[j], t.rows[j], r.cols);
      }
    }
  }

  /**
   * Whatever the settings, every row the base pipeline produces is a row of
   * the data, keeping its label and its values in the result's columns; there
   * are never more rows than in the data.
   */
  lemma BaseRowsFromData(df: Table, frows: seq<Filters.FilterRow>, srows: seq<Sorts.SortRow>, cc: Columns.ColumnsConfig)
    ensures var r := BaseSpec(df, frows, srows, cc);
      |r.rows| <= |df.rows|
      && forall j :: 0 <= j < |r.rows| ==> RowFrom(r.rows[j], df.rows, r.cols)
  {
    var f := Keep(df, Filters.FilterSpec(frows, df));
    var s := Keep(f, Sorts.SortSpec(srows, f));
    var r := BaseSpec(df, frows, srows, cc);
    forall x | x in f.rows
      ensures x in df.rows
    {
      if Filters.FilterSpec(frows, df).Some? {
        Filters.FilterIsOrderedSubset(frows, df);
        Batch.SubseqMembers(f.rows, df.rows, x);
      }
    }
    if Filters.FilterSpec(frows, df).Some? {
      Filters.FilterIsOrderedSubset(frows, df);
      SubseqLength(f.rows, df.rows);
    }
    Sorts.SortsPermutesAndOrders(srows, f);
    assert s == f || s == Sorts.SortedTable(srows, f);
    assert |s.rows| == |f.rows| by {
      assert |multiset(s.rows)| == |multiset(f.rows)|;
    }
    forall x | x in s.rows
      ensures x in df.rows
    {
      assert x in multiset(s.rows);
    }
    ApplyOrigin(cc, s);
  }

  lemma {:induction false} SubseqLength<T>(a: seq<T>, b: seq<T>)
    requires Subseq(a, b)
    ensures |a| <= |b|
    decreases |b|
  {
    if |a| > 0 {
      if a[0] == b[0] && Subseq(a[1..], b[1..]) {
        SubseqLength(a[1..], b[1..]);
      } else {
        SubseqLength(a, b[1..]);
      }
    }
  }

  /** When the filter stage raises, the pipeline goes on from the unfiltered data. */
  lemma FailedFilterKeepsData(df: Table, frows: seq<Filters.FilterRow>, srows: seq<Sorts.SortRow>, cc: Columns.ColumnsConfig)
    requires Filters.FilterSpec(frows, df).None?
    ensures BaseSpec(df, frows, srows, cc) == Columns.Apply(cc, Keep(df, Sorts.SortSpec(srows, df)))
  {
  }

  /**
   * When the sort stage raises (a single-key group over a column mixing
   * numbers and text), the columns stage works on the filtered table in
   * its filtered order.
   */
  lemma FailedSortKeepsOrder(df: Table, frows: seq<Filters.FilterRow>, srows: seq<Sorts.SortRow>, cc: Columns.ColumnsConfig)
    requires Sorts.SortFails(srows, Keep(df, Filters.FilterSpec(frows, df)))
    ensures BaseSpec(df, frows, srows, cc) == Columns.Apply(cc, Keep(df, Filters.FilterSpec(frows, df)))
  {
  }

  // ------------------------------------------------------- preview selector

  /** `_refresh_preview_selector`: the raw data first, then the sheet names. */
  function PreviewItems(names: seq<string>): (items: seq<string>)
    ensures |items| == |names| + 1 && items[0] == "Raw Data" && items[1..] == names
  {
    ["Raw Data"] + names
  }

  /** The current choice when still listed, otherwise the raw data. */
  function SelectorChoice(cur: string, names: seq<string>): (r: string)
    ensures r in PreviewItems(names)
    ensures cur in PreviewItems(names) <==> r == cur
  {
    if cur in PreviewItems(names) then cur else "Raw Data"
  }

  /** Refreshing twice with the same sheets changes nothing more. */
  lemma SelectorStable(cur: string, names: seq<string>)
    ensures SelectorChoice(SelectorChoice(cur, names), names) == SelectorChoice(cur, names)
  {
  }

  // --------------------------------------------------------------- row ids

  /** `f"{label}-{i}"`: the id given to a repeated label at position `i`. */
  function Suffixed(lab: int, i: nat): string {
    IntToString(lab) + "-" + NatToString(i)
  }

  lemma NoDashInDigits(s: string)
    requires AllDigits(s)
    ensures forall p :: 0 <= p < |s| ==> s[p] != '-'
  {
  }

  /** A label's plain id has no '-' after its first character. */
  lemma PlainNoDash(lab: int)
    ensures |IntToString(lab)| > 0
    ensures forall p :: 1 <= p < |IntToString(lab)| ==> IntToString(lab)[p] != '-'
  {
    var m: nat := if lab < 0 then -lab else lab;
    NoDashInDigits(NatToString(m));
    if lab < 0 {
      assert IntToString(lab) == "-" + NatToString(m);
      forall p | 1 <= p < |IntToString(lab)|
        ensures IntToString(lab)[p] != '-'
      {
        assert IntToString(lab)[p] == NatToString(m)[p - 1];
      }
    }
  }

  /** Plain ids and suffixed ids never meet, and suffixed ids differ by position. */
  lemma IdsDiffer(a: int, b: int, i: nat, j: nat)
    ensures IntToString(a) != Suffixed(b, i)
    ensures Suffixed(a, i) == Suffixed(b, j) ==> i == j
  {
    PlainNoDash(a);
    PlainNoDash(b);
    var x, y := IntToString(a), IntToString(b);
    var sa, sb := Suffixed(a, i), Suffixed(b, j);
    assert sa[|x|] == '-';
    assert sb[|y|] == '-';
    assert Suffixed(b, i)[|y|] == '-';
    if sa == sb && |x| == |y| {
      assert sa[|x| + 1..] == NatToString(i);
      assert sb[|y| + 1..] == NatToString(j);
      DigitsValueOfNat(i);
      DigitsValueOfNat(j);
    }
  }

  /** How many rows the preview shows: all with "Show full", else at most 1000. */
  function ShownCount(n: nat, showAll: bool): (k: nat)
    ensures k <= n && (showAll ==> k == n) && (!showAll ==> k <= 1000)
  {
    if showAll then n else if n < 1000 then n else 1000
  }

  // ------------------------------------------------------------ deletion

  /** The ids that resolve through the map, as row labels, in selection order. */
  function Resolve(index: map<string, int>, selected: seq<string>): (r: seq<int>)
    ensures forall l :: l in r <==> exists s :: s in selected && s in index && index[s] == l
  {
    if |selected| == 0 then []
    else
      var rest := Resolve(index, selected[1..]);
      assert forall s :: s in selected[1..] ==> s in selected;
      if selected[0] in index then [index[selected[0]]] + rest else rest
  }

  /** `drop(index=labels)`: every row carrying one of the labels goes; the rest stay in order. */
  function DropLabels(rows: seq<Row>, labels: seq<int>): (r: seq<Row>)
    ensures forall x :: x in r <==> x in rows && x.idx !in labels
  {
    if |rows| == 0 then []
    else
      var rest := DropLabels(rows[1..], labels);
      assert forall x :: x in rows <==> x == rows[0] || x in rows[1..];
      if rows[0].idx in labels then rest else [rows[0]] + rest
  }

  /** `reset_index(drop=True)`: labels become the positions 0..n-1. */
  function Reindex(rows: seq<Row>): (r: seq<Row>)
    ensures |r| == |rows|
    ensures forall k :: 0 <= k < |rows| ==> r[k] == Row(k, rows[k].cells)
  {
    seq(|rows|, k requires 0 <= k < |rows| => Row(k, rows[k].cells))
  }

  /** The rows kept by a drop keep their relative order. */
  lemma {:induction false} DropLabelsSubseq(rows: seq<Row>, labels: seq<int>)
    ensures Subseq(DropLabels(rows, labels), rows)
    decreases |rows|
  {
    if |rows| > 0 {
      DropLabelsSubseq(rows[1..], labels);
      var rest := DropLabels(rows[1..], labels);
      if rows[0].idx !in labels {
        assert DropLabels(rows, labels)[1..] == rest;
      } else {
        if |rest| > 0 {
          assert DropLabels(rows, labels) == rest;
        }
      }
    }
  }

  // ----------------------------------------------------------------- app

  class App {
    var df: Option<Table>
    var sheets: seq<Sheet>
    var selector: string
    var previewIds: seq<string>
    var previewMap: map<string, int>
    var deletable: bool

    /** No data, no sheets, an empty preview. */
    constructor()
      ensures df.None? && sheets == [] && selector == ""
      ensures previewIds == [] && previewMap == map[] && !deletable
    {
      df := None;
      sheets := [];
      selector := "";
      previewIds := [];
      previewMap := map[];
      deletable := false;
    }

    /** `_next_sheet_name`: the least `Sheet{i}`, i >= 1, not already a sheet name. */
    method NextSheetName() returns (name: string)
      ensures name !in Names(sheets)
      ensures exists i :: (i >= 1 && name == SheetName(i) && forall j :: 1 <= j < i ==> SheetName(j) in Names(sheets))
    {
      var existing := Names(sheets);
      var i := 1;
      name := SheetName(1);
      ghost var tried: set<string> := {};
      while name in existing
        invariant i >= 1 && name == SheetName(i)
        invariant forall j :: 1 <= j < i ==> SheetName(j) in existing
        invariant forall x :: x in tried ==> x in existing
        invariant forall x :: x in tried <==> exists j :: 1 <= j < i && x == SheetName(j)
        decreases (set c | c in existing) - tried
      {
        forall j | 1 <= j < i
          ensures SheetName(j) != name
        {
          SheetNameInjective(j, i);
        }
        assert name !in tried;
        tried := tried + {name};
        i := i + 1;
        name := SheetName(i);
      }
    }

    /** `_refresh_preview_selector`. */
    method RefreshPreviewSelector()
      modifies this
      ensures selector == SelectorChoice(old(selector), Names(sheets))
      ensures df == old(df) && sheets == old(sheets) && previewIds == old(previewIds)
      ensures previewMap == old(previewMap) && deletable == old(deletable)
    {
      var items := PreviewItems(Names(sheets));
      if selector !in items {
        selector := items[0];
      }
    }

    /**
     * `add_sheet`: without data nothing happens; otherwise a sheet with fresh
     * frames over the data is appended and the selector refreshed.
     */
    method AddSheet(name: string)
      modifies this
      ensures df == old(df)
      ensures old(df).None? ==> sheets == old(sheets) && selector == old(selector)
      ensures old(df).Some? ==> |sheets| == |old(sheets)| + 1 && sheets[..|old(sheets)|] == old(sheets)
      ensures old(df).Some? ==> FreshSheet(sheets[|sheets| - 1], name, df.value)
      ensures old(df).Some? ==> var s := sheets[|sheets| - 1];
        fresh(s.filters) && fresh(s.sorts) && fresh(s.columns) && fresh(s.pivot) && fresh(s.vlookup)
      ensures old(df).Some? ==> forall k :: 0 <= k < |old(sheets)| ==> Apart(sheets[k], sheets[|sheets| - 1])
      ensures old(df).Some? ==> selector == SelectorChoice(old(selector), Names(sheets))
      ensures previewIds == old(previewIds) && previewMap == old(previewMap) && deletable == old(deletable)
    {
      if df.None? {
        return;
      }
      var f := new Filters.FiltersFrame();
      var s := new Sorts.SortsFrame();
      var c := new Columns.ColumnsManager(df);
      var p := new Pivot.PivotFrame(Some(df.value.cols));
      var v := new VlookupSettings.VlookupFrame(None);
      sheets := sheets + [Sheet(name, f, s, c, p, v)];
      RefreshPreviewSelector();
    }

    /** `rename_sheet`: an empty new name is ignored; otherwise only the chosen sheet's name changes. */
    method RenameSheet(idx: Option<nat>, newName: string)
      requires idx.Some? ==> idx.value < |sheets|
      modifies this
      ensures idx.None? || newName == "" ==> sheets == old(sheets) && selector == old(selector)
      ensures idx.Some? && newName != "" ==>
        sheets == old(sheets)[idx.value := old(sheets)[idx.value].(name := newName)]
      ensures idx.Some? && newName != "" ==> selector == SelectorChoice(old(selector), Names(sheets))
      ensures df == old(df) && previewIds == old(previewIds) && previewMap == old(previewMap) && deletable == old(deletable)
    {
      if idx.None? || newName == "" {
        return;
      }
      var i := idx.value;
      sheets := sheets[i := sheets[i].(name := newName)];
      RefreshPreviewSelector();
    }

    /** `close_sheet`: removes exactly the chosen sheet. */
    method CloseSheet(idx: Option<nat>)
      requires idx.Some? ==> idx.value < |sheets|
      modifies this
      ensures idx.None? ==> sheets == old(sheets) && selector == old(selector)
      ensures idx.Some? ==> sheets == old(sheets)[..idx.value] + old(sheets)[idx.value + 1..]
      ensures idx.Some? ==> selector == SelectorChoice(old(selector), Names(sheets))
      ensures df == old(df) && previewIds == old(previewIds) && previewMap == old(previewMap) && deletable == old(deletable)
    {
      if idx.None? {
        return;
      }
      var i := idx.value;
      sheets := sheets[..i] + sheets[i + 1..];
      RefreshPreviewSelector();
    }

    /** `_generate_base_df` for one sheet; a filter or sort stage that raises is skipped. */
    method GenerateBaseDf(sheet: Sheet) returns (out: Table)
      requires df.Some?
      ensures out == BaseSpec(df.value, sheet.filters.rows, sheet.sorts.rows, sheet.columns.Config())
    {
      var cur := df.value;
      var filtered := sheet.filters.ApplyFilters(cur);
      if filtered.Some? {
        cur := filtered.value;
      }
      var sorted := sheet.sorts.ApplySorts(cur);
      if sorted.Some? {
        cur := sorted.value;
      }
      cur := Columns.Apply(sheet.columns.Config(), cur);
      return cur;
    }

    /**
     * `_generate_filtered_df`: the base pipeline, then the pivot when one was
     * generated and builds; `raw` is the grouped table the pivot is read from.
     */
    method GenerateFilteredDf(sheet: Sheet, raw: Option<Pivot.RawPivot>) returns (out: Table)
      requires df.Some? && sheet.pivot.Valid()
      ensures sheet.pivot.generated && sheet.pivot.Build(raw).Some? ==> out == sheet.pivot.Build(raw).value
      ensures !(sheet.pivot.generated && sheet.pivot.Build(raw).Some?) ==>
        out == BaseSpec(df.value, sheet.filters.rows, sheet.sorts.rows, sheet.columns.Config())
    {
      var base := GenerateBaseDf(sheet);
      out := sheet.pivot.ApplyPivotIfRequested(base, raw);
    }

    /**
     * The id logic of `_render_df_into_tree`: nothing deletable for no or an
     * empty table; otherwise one distinct id per shown row, its label as
     * text, or `label-position` when that text is already taken, each id
     * mapping back to its row's label.
     */
    method RenderDfIntoTree(t: Option<Table>, showAll: bool)
      modifies this
      ensures t.None? || IsEmpty(t.value) ==> previewIds == [] && previewMap == map[] && !deletable
      ensures t.Some? && !IsEmpty(t.value) ==> deletable && |previewIds| == ShownCount(|t.value.rows|, showAll)
      ensures t.Some? && !IsEmpty(t.value) ==> IdsFor(previewIds, previewMap, t.value.rows)
      ensures df == old(df) && sheets == old(sheets) && selector == old(selector)
    {
      if t.None? || IsEmpty(t.value) {
        previewMap := map[];
        previewIds := [];
        deletable := false;
        return;
      }
      previewIds, previewMap := AssignIds(t.value.rows, ShownCount(|t.value.rows|, showAll));
      deletable := true;
    }

    /**
     * `delete_selected_rows`: refused without data, without an open preview,
     * when the preview is not deletable, with nothing selected, when no id
     * resolves, or when not confirmed; otherwise every row carrying a
     * resolved label is removed and the rest are relabelled 0..n-1.
     */
    method DeleteSelectedRows(previewOpen: bool, selected: seq<string>, confirmed: bool)
      modifies this
      ensures var labels := Resolve(old(previewMap), selected);
        old(df).Some? && previewOpen && old(deletable) && |selected| > 0 && |labels| > 0 && confirmed
        ==> df == Some(Table(old(df).value.cols, Reindex(DropLabels(old(df).value.rows, labels))))
      ensures var labels := Resolve(old(previewMap), selected);
        !(old(df).Some? && previewOpen && old(deletable) && |selected| > 0 && |labels| > 0 && confirmed)
        ==> df == old(df)
      ensures sheets == old(sheets) && selector == old(selector)
      ensures previewIds == old(previewIds) && previewMap == old(previewMap) && deletable == old(deletable)
    {
      if df.None? || !previewOpen || !deletable || |selected| == 0 {
        return;
      }
      var labels := Resolve(previewMap, selected);
      if |labels| == 0 || !confirmed {
        return;
      }
      var kept := DropLabels(df.value.rows, labels);
      df := Some(Table(df.value.cols, Reindex(kept)));
    }
  }

  /** The id of each shown row is its label's text, or `label-position` when an earlier id took that text. */
  predicate RowIds(ids: seq<string>, rows: seq<Row>) {
    |ids| <= |rows|
    && forall k :: 0 <= k < |ids| ==>
      ids[k] == (if IntToString(rows[k].idx) in ids[..k] then Suffixed(rows[k].idx, k) else IntToString(rows[k].idx))
  }

  /** Distinct ids following `RowIds`, each mapped back to its row's label, and nothing else mapped. */
  ghost predicate IdsFor(ids: seq<string>, index: map<string, int>, rows: seq<Row>) {
    RowIds(ids, rows)
    && Batch.NoDuplicates(ids)
    && (forall x :: x in index <==> x in ids)
    && forall k :: 0 <= k < |ids| ==> index[ids[k]] == rows[k].idx
  }

  /** A label whose text is taken gets a suffixed id no earlier row has. */
  lemma NextIdFresh(ids: seq<string>, rows: seq<Row>, i: nat)
    requires RowIds(ids, rows) && |ids| == i < |rows|
    ensures Suffixed(rows[i].idx, i) !in ids
  {
    forall k | 0 <= k < i
      ensures ids[k] != Suffixed(rows[i].idx, i)
    {
      IdsDiffer(rows[k].idx, rows[i].idx, i, 0);
      IdsDiffer(rows[k].idx, rows[i].idx, k, i);
    }
  }

  /** The id loop of `_render_df_into_tree` over the first `n` rows. */
  method AssignIds(rows: seq<Row>, n: nat) returns (ids: seq<string>, index: map<string, int>)
    requires n <= |rows|
    ensures |ids| == n && IdsFor(ids, index, rows)
  {
    ids, index := [], map[];
    var i := 0;
    while i < n
      invariant 0 <= i <= n && |ids| == i
      invariant IdsFor(ids, index, rows)
    {
      var lab := rows[i].idx;
      var iid := IntToString(lab);
      if iid in index {
        NextIdFresh(ids, rows, i);
        iid := Suffixed(lab, i);
      }
      assert (ids + [iid])[..i] == ids;
      assert forall k :: 0 <= k < i ==> (ids + [iid])[..k] == ids[..k];
      index := index[iid := lab];
      ids := ids + [iid];
      i := i + 1;
    }
  }

  /** Two sheets share none of their tabs. */
  predicate Apart(t: Sheet, s: Sheet) {
    t.filters != s.filters && t.sorts != s.sorts && t.columns != s.columns && t.pivot != s.pivot && t.vlookup != s.vlookup
  }

  /** A sheet just created over `df`: one blank filter row, no sort row, all columns visible, no pivot. */
  predicate FreshSheet(s: Sheet, name: string, df: Table)
    reads s.filters, s.sorts, s.columns, s.pivot, s.vlookup
  {
    s.name == name
    && s.filters.rows == [Filters.NewRow(0, map[])]
    && s.sorts.rows == []
    && s.columns.Config() == Columns.ColumnsConfig(df.cols, Columns.AllVisible(df.cols), false, "")
    && s.columns.source == Some(df)
    && s.pivot.Valid() && s.pivot.source == Some(df.cols) && !s.pivot.generated
    && s.vlookup.mainKeys == "" && s.vlookup.lookupKeys == "" && s.vlookup.values == ""
    && s.vlookup.prefix == "" && s.vlookup.defaultFill == "" && s.vlookup.columns == []
  }

  /** The rows left by a deletion are the old rows without the resolved labels, in order, relabelled. */
  lemma DeletionKeepsOthers(rows: seq<Row>, labels: seq<int>)
    ensures var r := Reindex(DropLabels(rows, labels));
      (forall k :: 0 <= k < |r| ==> r[k].idx == k)
      && Subseq(DropLabels(rows, labels), rows)
      && forall k :: 0 <= k < |r| ==> exists x :: x in rows && x.idx !in labels && r[k].cells == x.cells
  {
    DropLabelsSubseq(rows, labels);
    var d := DropLabels(rows, labels);
    var r := Reindex(d);
    forall k | 0 <= k < |r|
      ensures exists x :: x in rows && x.idx !in labels && r[k].cells == x.cells
    {
      assert d[k] in d;
    }
  }
}
