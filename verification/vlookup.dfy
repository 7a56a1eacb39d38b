/**
 * VLOOKUP (vlookup_helper.py): a left join of the sheet's current table with
 * a lookup table on one or more key columns. It brings in chosen value
 * columns, drops lookup key columns named differently from their main key,
 * renames each added column (prefix, then a `_lkN` suffix against
 * collisions) and fills its missing cells with an optional default. Dialog
 * answers are parameters; a cancelled dialog is `None`.
 */
module Vlookup {
  import opened TableModel

  // ------------------------------------------------------------ choices

  /** `_ask_choice`: no options or a cancelled dialog give None; the trimmed answer must be one of the options. */
  function AskChoice(options: seq<string>, answer: Option<string>): (r: Option<string>)
    ensures r.Some? ==> answer.Some? && r.value in options && r.value == Strip(answer.value)
  {
    if |options| == 0 || answer.None? then None
    else
      var v := Strip(answer.value);
      if v !in options then None else Some(v)
  }

  /** An answer is accepted exactly when its trimmed text is an available option. */
  lemma AskChoiceExact(options: seq<string>, answer: Option<string>)
    ensures AskChoice(options, answer).Some? <==>
      (|options| > 0 && answer.Some? && Strip(answer.value) in options)
  {
  }

  /** Key columns: one chosen name, or a comma list whose every entry must be an exact column name. */
  function Keys(multi: bool, answer: Option<string>, options: seq<string>): (r: Option<seq<string>>)
    ensures r.Some? ==> forall k :: k in r.value ==> k in options && k != ""
    ensures r.Some? && !multi ==> |r.value| == 1
  {
    if !multi then
      var k := AskChoice(options, answer);
      if k.None? || k.value == "" then None else Some([k.value])
    else if answer.None? || answer.value == "" then None
    else
      var ks := ParseList(answer.value);
      if exists k :: k in ks && k !in options then None else Some(ks)
  }

  /** The dialog answers, in the order they are asked. */
  datatype Answers = Answers(keyMain: Option<string>, keyLookup: Option<string>, vals: Option<string>,
                             prefix: Option<string>, fill: Option<string>)

  /** A validated request. */
  datatype Request = Request(keysMain: seq<string>, keysLookup: seq<string>, vals: seq<string>,
                             prefix: string, fill: Option<string>)

  /** Every check of `perform_vlookup` before the merge; `None` is an abort. */
  function Validate(main: Option<Table>, lookup: Option<Table>, multi: bool, a: Answers): (r: Option<Request>)
    ensures r.Some? ==> main.Some? && !IsEmpty(main.value) && lookup.Some? && !IsEmpty(lookup.value)
    ensures r.Some? ==> forall k :: k in r.value.keysMain ==> k in main.value.cols
    ensures r.Some? ==> forall k :: k in r.value.keysLookup ==> k in lookup.value.cols
    ensures r.Some? ==> forall v :: v in r.value.vals ==> v in lookup.value.cols
    ensures r.Some? ==> |r.value.keysMain| == |r.value.keysLookup|
    ensures r.Some? ==> a.prefix.Some? && r.value.prefix == Strip(a.prefix.value) && r.value.fill != Some("")
  {
    if main.None? || IsEmpty(main.value) || lookup.None? || IsEmpty(lookup.value) then None
    else
      var km := Keys(multi, a.keyMain, main.value.cols);
      var kl := Keys(multi, a.keyLookup, lookup.value.cols);
      if km.None? || kl.None? || |km.value| != |kl.value| then None
      else if a.vals.None? || a.vals.value == "" then None
      else
        var vs := ParseList(a.vals.value);
        if exists v :: v in vs && v !in lookup.value.cols then None
        else if a.prefix.None? || a.fill.None? then None
        else Some(Request(km.value, kl.value, vs, Strip(a.prefix.value),
                          if a.fill.value == "" then None else Some(a.fill.value)))
  }

  /** An empty main or lookup table aborts before any question is answered. */
  lemma EmptyTablesAbort(main: Option<Table>, lookup: Option<Table>, multi: bool, a: Answers)
    requires main.None? || IsEmpty(main.value) || lookup.None? || IsEmpty(lookup.value)
    ensures Validate(main, lookup, multi, a) == None
  {
  }

  /** A multi-key request with a name that is not an exact main column aborts. */
  lemma UnknownMainKeyAborts(main: Table, lookup: Table, a: Answers, k: string)
    requires a.keyMain.Some? && k in ParseList(a.keyMain.value) && k !in main.cols
    ensures Validate(Some(main), Some(lookup), true, a) == None
  {
  }

  /** Key lists of different lengths abort. */
  lemma KeyCountMismatchAborts(main: Table, lookup: Table, a: Answers)
    requires a.keyMain.Some? && a.keyLookup.Some? && a.keyMain.value != "" && a.keyLookup.value != ""
    requires |ParseList(a.keyMain.value)| != |ParseList(a.keyLookup.value)|
    ensures Validate(Some(main), Some(lookup), true, a) == None
  {
  }

  // ------------------------------------------------------------ left join

  /** Lookup columns the merge adds: selected names not already in the main table, first occurrence only. */
  function AddedCols(mainCols: seq<string>, sel: seq<string>): (r: seq<string>)
    ensures forall c :: c in r <==> c in sel && c !in mainCols
    decreases |sel|
  {
    if |sel| == 0 then []
    else
      var rest := AddedCols(mainCols + [sel[0]], sel[1..]);
      if sel[0] in mainCols then rest else [sel[0]] + rest
  }

  predicate KeysMatch(m: Row, l: Row, km: seq<string>, kl: seq<string>)
    requires |km| == |kl|
  {
    forall k :: 0 <= k < |km| ==> Get(m, km[k]) == Get(l, kl[k])
  }

  /** Which lookup rows carry the main row's key values. */
  function MatchMask(m: Row, lookup: seq<Row>, km: seq<string>, kl: seq<string>): (mask: seq<bool>)
    requires |km| == |kl|
    ensures |mask| == |lookup|
    ensures forall i :: 0 <= i < |lookup| ==> mask[i] == KeysMatch(m, lookup[i], km, kl)
  {
    seq(|lookup|, i requires 0 <= i < |lookup| => KeysMatch(m, lookup[i], km, kl))
  }

  /** The lookup rows whose keys equal the main row's keys, in lookup order. */
  function Matches(m: Row, lookup: seq<Row>, km: seq<string>, kl: seq<string>): (r: seq<Row>)
    requires |km| == |kl|
    ensures r == Select(lookup, MatchMask(m, lookup, km, kl))
    ensures forall l :: l in r <==> l in lookup && KeysMatch(m, l, km, kl)
    decreases |lookup|
  {
    if |lookup| == 0 then []
    else
      assert MatchMask(m, lookup, km, kl)[1..] == MatchMask(m, lookup[1..], km, kl);
      (if KeysMatch(m, lookup[0], km, kl) then [lookup[0]] else []) + Matches(m, lookup[1..], km, kl)
  }

  /** The matches keep the lookup table's order. */
  lemma MatchesInOrder(m: Row, lookup: seq<Row>, km: seq<string>, kl: seq<string>)
    requires |km| == |kl|
    ensures Subseq(Matches(m, lookup, km, kl), lookup)
  {
    SelectIsSubseq(lookup, MatchMask(m, lookup, km, kl));
  }

  /** A main row extended with the added columns of a lookup row, or with missing cells. */
  function Extend(m: Row, l: Option<Row>, added: seq<string>): (r: Row)
    ensures r.idx == m.idx
    ensures forall c :: c !in added ==> Get(r, c) == Get(m, c)
    ensures forall c :: c in added ==> Get(r, c) == (if l.Some? then Get(l.value, c) else Missing)
  {
    Row(m.idx, map c | c in m.cells.Keys + (set a | a in added) ::
      if c in added then (if l.Some? then Get(l.value, c) else Missing) else m.cells[c])
  }

  /** The rows one main row contributes: one per match, in lookup order, or one unmatched row. */
  function JoinOne(m: Row, lookup: seq<Row>, km: seq<string>, kl: seq<string>, added: seq<string>): (r: seq<Row>)
    requires |km| == |kl|
    ensures var ms := Matches(m, lookup, km, kl);
      (|ms| == 0 ==> r == [Extend(m, None, added)])
      && (|ms| > 0 ==> |r| == |ms| && forall j :: 0 <= j < |ms| ==> r[j] == Extend(m, Some(ms[j]), added))
    ensures |r| >= 1
    ensures forall i, c :: 0 <= i < |r| && c !in added ==> Get(r[i], c) == Get(m, c)
  {
    var ms := Matches(m, lookup, km, kl);
    if |ms| == 0 then [Extend(m, None, added)]
    else seq(|ms|, j requires 0 <= j < |ms| => Extend(m, Some(ms[j]), added))
  }

  /** The blocks, one after the other. */
  function Concat(blocks: seq<seq<Row>>): seq<Row>
    decreases |blocks|
  {
    if |blocks| == 0 then [] else blocks[0] + Concat(blocks[1..])
  }

  /** The left join: the block of each main row, in main order. */
  function JoinRows(main: seq<Row>, lookup: seq<Row>, km: seq<string>, kl: seq<string>, added: seq<string>): (r: seq<Row>)
    requires |km| == |kl|
    ensures |r| >= |main|
    decreases |main|
  {
    if |main| == 0 then []
    else JoinOne(main[0], lookup, km, kl, added) + JoinRows(main[1..], lookup, km, kl, added)
  }

  /** The blocks of the main rows. */
  function Blocks(main: seq<Row>, lookup: seq<Row>, km: seq<string>, kl: seq<string>, added: seq<string>): (bs: seq<seq<Row>>)
    requires |km| == |kl|
    ensures |bs| == |main|
    ensures forall i :: 0 <= i < |main| ==> bs[i] == JoinOne(main[i], lookup, km, kl, added)
  {
    seq(|main|, i requires 0 <= i < |main| => JoinOne(main[i], lookup, km, kl, added))
  }

  /** The join is the concatenation, in main order, of what each main row contributes. */
  lemma {:induction false} JoinRowsIsConcat(main: seq<Row>, lookup: seq<Row>, km: seq<string>, kl: seq<string>, added: seq<string>)
    requires |km| == |kl|
    ensures JoinRows(main, lookup, km, kl, added) == Concat(Blocks(main, lookup, km, kl, added))
    decreases |main|
  {
    if |main| > 0 {
      JoinRowsIsConcat(main[1..], lookup, km, kl, added);
      assert Blocks(main, lookup, km, kl, added)[1..] == Blocks(main[1..], lookup, km, kl, added);
    }
  }

  /** `y` pairs main row `m` with one of its matches, or with nothing when `m` has no match. */
  predicate JoinedFrom(y: Row, m: Row, lookup: seq<Row>, km: seq<string>, kl: seq<string>, added: seq<string>)
    requires |km| == |kl|
  {
    (|Matches(m, lookup, km, kl)| == 0 && y == Extend(m, None, added))
    || exists l :: l in lookup && KeysMatch(m, l, km, kl) && y == Extend(m, Some(l), added)
  }

  /**
   * The left join holds exactly the pairs of a main row with each lookup
   * row that matches it, and each main row without a match paired with
   * nothing.
   */
  lemma {:induction false} JoinRowsPairs(main: seq<Row>, lookup: seq<Row>, km: seq<string>, kl: seq<string>, added: seq<string>)
    requires |km| == |kl|
    ensures forall y :: y in JoinRows(main, lookup, km, kl, added) ==>
      exists i :: 0 <= i < |main| && JoinedFrom(y, main[i], lookup, km, kl, added)
    ensures forall i, l :: 0 <= i < |main| && l in lookup && KeysMatch(main[i], l, km, kl) ==>
      Extend(main[i], Some(l), added) in JoinRows(main, lookup, km, kl, added)
    ensures forall i :: 0 <= i < |main| && |Matches(main[i], lookup, km, kl)| == 0 ==>
      Extend(main[i], None, added) in JoinRows(main, lookup, km, kl, added)
    decreases |main|
  {
    if |main| > 0 {
      JoinRowsPairs(main[1..], lookup, km, kl, added);
      var m := main[0];
      var head := JoinOne(m, lookup, km, kl, added);
      var rest := JoinRows(main[1..], lookup, km, kl, added);
      var ms := Matches(m, lookup, km, kl);
      forall y | y in head + rest
        ensures exists i :: 0 <= i < |main| && JoinedFrom(y, main[i], lookup, km, kl, added)
      {
        if y in head {
          var j :| 0 <= j < |head| && head[j] == y;
          if |ms| > 0 {
            assert ms[j] in ms;
          }
          assert JoinedFrom(y, main[0], lookup, km, kl, added);
        } else {
          var i :| 0 <= i < |main[1..]| && JoinedFrom(y, main[1..][i], lookup, km, kl, added);
          assert main[1..][i] == main[i + 1];
        }
      }
      forall i, l | 0 <= i < |main| && l in lookup && KeysMatch(main[i], l, km, kl)
        ensures Extend(main[i], Some(l), added) in head + rest
      {
        if i == 0 {
          assert l in ms;
          var j :| 0 <= j < |ms| && ms[j] == l;
          assert head[j] == Extend(m, Some(l), added);
        } else {
          assert main[1..][i - 1] == main[i];
        }
      }
      forall i | 0 <= i < |main| && |Matches(main[i], lookup, km, kl)| == 0
        ensures Extend(main[i], None, added) in head + rest
      {
        if i == 0 {
          assert head[0] == Extend(m, None, added);
        } else {
          assert main[1..][i - 1] == main[i];
        }
      }
    }
  }

  /** Labels 0..n-1, as `merge` gives its result. */
  function Reindex(rows: seq<Row>): (r: seq<Row>)
    ensures |r| == |rows|
    ensures forall i :: 0 <= i < |r| ==> r[i].idx == i && r[i].cells == rows[i].cells
  {
    seq(|rows|, i requires 0 <= i < |rows| => rows[i].(idx := i))
  }

  /**
   * `main_df.merge(lookup_df[keys + values], how="left", ...)`: the main
   * columns followed by the added lookup columns, and the joined rows
   * relabelled 0..n-1.
   */
  function LeftJoin(main: Table, lookup: Table, req: Request): (r: Table)
    requires |req.keysMain| == |req.keysLookup|
    ensures var added := AddedCols(main.cols, req.keysLookup + req.vals);
      var joined := JoinRows(main.rows, lookup.rows, req.keysMain, req.keysLookup, added);
      r.cols == main.cols + added
      && |r.rows| == |joined|
      && forall i :: 0 <= i < |r.rows| ==> r.rows[i].idx == i && r.rows[i].cells == joined[i].cells
    ensures |r.rows| >= |main.rows|
    ensures forall c :: c in r.cols <==> c in main.cols || c in req.keysLookup + req.vals
  {
    var added := AddedCols(main.cols, req.keysLookup + req.vals);
    Table(main.cols + added, Reindex(JoinRows(main.rows, lookup.rows, req.keysMain, req.keysLookup, added)))
  }

  /** The single match of a main row, if it has one. */
  function OnlyMatch(m: Row, lookup: seq<Row>, km: seq<string>, kl: seq<string>): Option<Row>
    requires |km| == |kl|
  {
    var ms := Matches(m, lookup, km, kl);
    if |ms| == 0 then None else Some(ms[0])
  }

  lemma JoinOneSingle(m: Row, lookup: seq<Row>, km: seq<string>, kl: seq<string>, added: seq<string>)
    requires |km| == |kl| && |Matches(m, lookup, km, kl)| <= 1
    ensures JoinOne(m, lookup, km, kl, added) == [Extend(m, OnlyMatch(m, lookup, km, kl), added)]
  {
    var r := JoinOne(m, lookup, km, kl, added);
    if |Matches(m, lookup, km, kl)| == 1 {
      assert r[0] == Extend(m, OnlyMatch(m, lookup, km, kl), added);
    }
  }

  /** Each main row extended with its only match, or with missing cells. */
  function Singles(main: seq<Row>, lookup: seq<Row>, km: seq<string>, kl: seq<string>, added: seq<string>): (r: seq<Row>)
    requires |km| == |kl|
    ensures |r| == |main|
    decreases |main|
  {
    if |main| == 0 then []
    else [Extend(main[0], OnlyMatch(main[0], lookup, km, kl), added)] + Singles(main[1..], lookup, km, kl, added)
  }

  lemma {:induction false} SinglesAt(main: seq<Row>, lookup: seq<Row>, km: seq<string>, kl: seq<string>, added: seq<string>, i: nat)
    requires |km| == |kl| && i < |main|
    ensures Singles(main, lookup, km, kl, added)[i] == Extend(main[i], OnlyMatch(main[i], lookup, km, kl), added)
    decreases i
  {
    if i > 0 {
      SinglesAt(main[1..], lookup, km, kl, added, i - 1);
      assert main[1..][i - 1] == main[i];
    }
  }

  /** With at most one match per main row, the join is the main rows' singles. */
  lemma {:induction false} JoinIsSingles(main: seq<Row>, lookup: seq<Row>, km: seq<string>, kl: seq<string>, added: seq<string>)
    requires |km| == |kl|
    requires forall i :: 0 <= i < |main| ==> |Matches(main[i], lookup, km, kl)| <= 1
    ensures JoinRows(main, lookup, km, kl, added) == Singles(main, lookup, km, kl, added)
    decreases |main|
  {
    if |main| > 0 {
      var tail := main[1..];
      forall i | 0 <= i < |tail|
        ensures |Matches(tail[i], lookup, km, kl)| <= 1
      {
        assert tail[i] == main[i + 1];
      }
      JoinIsSingles(tail, lookup, km, kl, added);
      JoinOneSingle(main[0], lookup, km, kl, added);
    }
  }

  /**
   * When each main row matches at most one lookup row, the join keeps every
   * main row once, in order, extended with its match or with missing cells,
   * and with its own values outside the added columns.
   */
  lemma JoinKeepsMainRows(main: seq<Row>, lookup: seq<Row>, km: seq<string>, kl: seq<string>, added: seq<string>)
    requires |km| == |kl|
    requires forall i :: 0 <= i < |main| ==> |Matches(main[i], lookup, km, kl)| <= 1
    ensures |JoinRows(main, lookup, km, kl, added)| == |main|
    ensures forall i :: 0 <= i < |main| ==>
      JoinRows(main, lookup, km, kl, added)[i] == Extend(main[i], OnlyMatch(main[i], lookup, km, kl), added)
  {
    JoinIsSingles(main, lookup, km, kl, added);
    forall i | 0 <= i < |main|
      ensures Singles(main, lookup, km, kl, added)[i] == Extend(main[i], OnlyMatch(main[i], lookup, km, kl), added)
    {
      SinglesAt(main, lookup, km, kl, added, i);
    }
  }

  /** With at most one match per main row, row `i` of the join keeps main row `i`'s values outside the added columns. */
  lemma JoinKeepsMainValues(main: seq<Row>, lookup: seq<Row>, km: seq<string>, kl: seq<string>, added: seq<string>)
    requires |km| == |kl|
    requires forall i :: 0 <= i < |main| ==> |Matches(main[i], lookup, km, kl)| <= 1
    ensures |JoinRows(main, lookup, km, kl, added)| == |main|
    ensures forall i, c :: 0 <= i < |main| && c !in added ==> Get(JoinRows(main, lookup, km, kl, added)[i], c) == Get(main[i], c)
  {
    JoinKeepsMainRows(main, lookup, km, kl, added);
    var r := JoinRows(main, lookup, km, kl, added);
    forall i, c | 0 <= i < |main| && c !in added
      ensures Get(r[i], c) == Get(main[i], c)
    {
      assert r[i] == Extend(main[i], OnlyMatch(main[i], lookup, km, kl), added);
    }
  }

  /** A main row with exactly one match carries that row's values; one without a match carries missing cells. */
  lemma JoinOneValues(m: Row, lookup: seq<Row>, km: seq<string>, kl: seq<string>, added: seq<string>, c: string)
    requires |km| == |kl| && c in added
    ensures var ms := Matches(m, lookup, km, kl);
      (|ms| == 0 ==> JoinOne(m, lookup, km, kl, added) == [Extend(m, None, added)] && Get(JoinOne(m, lookup, km, kl, added)[0], c) == Missing)
      && (|ms| == 1 ==> Get(JoinOne(m, lookup, km, kl, added)[0], c) == Get(ms[0], c))
  {
  }

  // ------------------------------------------------------------ post-processing

  /** `merged.drop(columns=[c])`. */
  function DropColumn(t: Table, c: string): (r: Table)
    ensures c !in r.cols && |r.rows| == |t.rows|
    ensures forall d :: d in r.cols <==> d in t.cols && d != c
    ensures forall i, d :: 0 <= i < |r.rows| && d != c ==> Get(r.rows[i], d) == Get(t.rows[i], d)
  {
    Table(KeepOthers(t.cols, c),
          seq(|t.rows|, i requires 0 <= i < |t.rows| => t.rows[i].(cells := t.rows[i].cells - {c})))
  }

  function KeepOthers(cols: seq<string>, c: string): (r: seq<string>)
    ensures forall d :: d in r <==> d in cols && d != c
    decreases |cols|
  {
    if |cols| == 0 then [] else (if cols[0] == c then [] else [cols[0]]) + KeepOthers(cols[1..], c)
  }

  /** `merged.rename(columns={v: n})`. */
  function RenameColumn(t: Table, v: string, n: string): (r: Table)
    ensures |r.rows| == |t.rows| && |r.cols| == |t.cols|
    ensures forall j :: 0 <= j < |t.cols| ==> r.cols[j] == (if t.cols[j] == v then n else t.cols[j])
    ensures forall i :: 0 <= i < |r.rows| ==> Get(r.rows[i], n) == Get(t.rows[i], v)
    ensures forall i, d :: 0 <= i < |r.rows| && d != v && d != n ==> Get(r.rows[i], d) == Get(t.rows[i], d)
  {
    Table(seq(|t.cols|, j requires 0 <= j < |t.cols| => if t.cols[j] == v then n else t.cols[j]),
          seq(|t.rows|, i requires 0 <= i < |t.rows| =>
            t.rows[i].(cells := (t.rows[i].cells - {v})[n := Get(t.rows[i], v)])))
  }

  /** `merged[c].fillna(f)`: missing cells of column `c` become the text `f`; nothing else changes. */
  function FillColumn(t: Table, c: string, f: string): (r: Table)
    ensures r.cols == t.cols && |r.rows| == |t.rows|
    ensures forall i :: 0 <= i < |r.rows| ==> Get(r.rows[i], c) == (if Get(t.rows[i], c) == Missing then Text(f) else Get(t.rows[i], c))
    ensures forall i, d :: 0 <= i < |r.rows| && d != c ==> Get(r.rows[i], d) == Get(t.rows[i], d)
  {
    Table(t.cols, seq(|t.rows|, i requires 0 <= i < |t.rows| =>
      if Get(t.rows[i], c) == Missing then t.rows[i].(cells := t.rows[i].cells[c := Text(f)]) else t.rows[i]))
  }

  /** The `n`-th collision candidate: `base_lkN`. */
  function Candidate(base: string, n: nat): string {
    base + "_lk" + NatToString(n)
  }

  /** Different suffix numbers give different candidates, and no candidate is the base itself. */
  lemma CandidateInjective(base: string, j: nat, k: nat)
    ensures Candidate(base, j) != base
    ensures Candidate(base, j) == Candidate(base, k) ==> j == k
  {
    if Candidate(base, j) == Candidate(base, k) {
      var p := |base| + 3;
      assert Candidate(base, j)[p..] == NatToString(j);
      assert Candidate(base, k)[p..] == NatToString(k);
      DigitsValueOfNat(j);
      DigitsValueOfNat(k);
    }
  }

  /** Different candidates taken: there are at least as many taken names. */
  lemma {:induction false} CandidatesTaken(base: string, taken: set<string>, n: nat)
    requires forall j :: 1 <= j <= n ==> Candidate(base, j) in taken
    ensures n <= |taken|
    decreases n
  {
    if n > 0 {
      var c := Candidate(base, n);
      forall j | 1 <= j <= n - 1
        ensures Candidate(base, j) in taken - {c}
      {
        CandidateInjective(base, j, n);
      }
      CandidatesTaken(base, taken - {c}, n - 1);
    }
  }

  /** The first `base_lkN`, N >= i, that is not taken. */
  function NextFree(base: string, taken: set<string>, i: nat): (r: string)
    requires i >= 1
    requires forall j :: 1 <= j < i ==> Candidate(base, j) in taken
    ensures r !in taken
    decreases |taken| - (i - 1)
  {
    CandidatesTaken(base, taken, i - 1);
    if Candidate(base, i) !in taken then Candidate(base, i)
    else
      CandidatesTaken(base, taken, i);
      NextFree(base, taken, i + 1)
  }

  /** `NextFree` is the first candidate from `base_lkI` on that is not taken. */
  lemma {:induction false} NextFreeFirst(base: string, taken: set<string>, i: nat)
    requires i >= 1
    requires forall j :: 1 <= j < i ==> Candidate(base, j) in taken
    ensures exists k :: (k >= i && NextFree(base, taken, i) == Candidate(base, k)
      && forall j :: 1 <= j < k ==> Candidate(base, j) in taken)
    decreases |taken| - (i - 1)
  {
    CandidatesTaken(base, taken, i - 1);
    if Candidate(base, i) !in taken {
      assert NextFree(base, taken, i) == Candidate(base, i);
    } else {
      CandidatesTaken(base, taken, i);
      NextFreeFirst(base, taken, i + 1);
    }
  }

  /** The name the collision loop settles on: `base` when free, else the first free `base_lkN`. */
  function FreshNameSpec(base: string, cols: seq<string>): (r: string)
    ensures r !in cols
  {
    if base !in cols then base else NextFree(base, set c | c in cols, 1)
  }

  /** The settled name is the base when free, otherwise the first `base_lkN` that is not a column. */
  lemma FreshNameFirst(base: string, cols: seq<string>)
    ensures base !in cols ==> FreshNameSpec(base, cols) == base
    ensures base in cols ==> exists k :: (k >= 1 && FreshNameSpec(base, cols) == Candidate(base, k)
      && forall j :: 1 <= j < k ==> Candidate(base, j) in cols)
  {
    if base in cols {
      NextFreeFirst(base, set c | c in cols, 1);
    }
  }

  /** The base and `n` candidates all taken: more than `n` names are taken. */
  lemma BaseAndCandidatesTaken(base: string, taken: set<string>, n: nat)
    requires base in taken
    requires forall j :: 1 <= j <= n ==> Candidate(base, j) in taken
    ensures n < |taken|
  {
    forall j | 1 <= j <= n
      ensures Candidate(base, j) in taken - {base}
    {
      CandidateInjective(base, j, j);
    }
    CandidatesTaken(base, taken - {base}, n);
  }

  /**
   * The collision loop: keep `base` if it is free, otherwise try `base_lk1`,
   * `base_lk2`, ... and take the first that is not a column. It always
   * terminates, since only finitely many names are taken.
   */
  method FreshName(base: string, cols: seq<string>) returns (name: string)
    ensures name == FreshNameSpec(base, cols)
  {
    ghost var taken := set c | c in cols;
    name := base;
    var i := 1;
    while name in cols
      invariant i >= 1
      invariant name == if i == 1 then base else Candidate(base, i - 1)
      invariant forall j :: 1 <= j < i - 1 ==> Candidate(base, j) in taken
      invariant i > 1 ==> base in cols && NextFree(base, taken, 1) == NextFree(base, taken, i - 1)
      decreases |taken| - (i - 1)
    {
      BaseAndCandidatesTaken(base, taken, i - 1);
      if i > 1 {
        assert NextFree(base, taken, i - 1) == NextFree(base, taken, i);
      }
      name := Candidate(base, i);
      i := i + 1;
    }
    if i > 1 {
      assert NextFree(base, taken, i - 1) == name;
    }
  }

  /** Lookup key `d` is paired with a differently named main key among the first `n` pairs. */
  predicate DroppedKey(km: seq<string>, kl: seq<string>, d: string, n: nat) {
    exists k :: 0 <= k < n && k < |km| && k < |kl| && kl[k] == d && kl[k] != km[k]
  }

  /** One pass of the drop loop: lookup key `rk` goes when it differs from main key `lk` and is a column. */
  function DropPair(t: Table, lk: string, rk: string): Table {
    if rk != lk && rk in t.cols then DropColumn(t, rk) else t
  }

  /** The table after the first `n` passes of the drop loop. */
  function DropUpTo(t: Table, km: seq<string>, kl: seq<string>, n: nat): Table
    requires n <= |km| && n <= |kl|
  {
    if n == 0 then t else DropPair(DropUpTo(t, km, kl, n - 1), km[n - 1], kl[n - 1])
  }

  /** How many key pairs `zip` forms. */
  function Pairs(km: seq<string>, kl: seq<string>): nat {
    if |km| < |kl| then |km| else |kl|
  }

  /** The drop loop removes exactly the lookup keys named differently from their main key; every other column keeps its values. */
  lemma {:induction false} DropUpToFacts(t: Table, km: seq<string>, kl: seq<string>, n: nat)
    requires n <= |km| && n <= |kl|
    ensures var r := DropUpTo(t, km, kl, n);
      |r.rows| == |t.rows|
      && (forall d :: d in r.cols <==> d in t.cols && !DroppedKey(km, kl, d, n))
      && forall i, d :: 0 <= i < |r.rows| && !DroppedKey(km, kl, d, n) ==> Get(r.rows[i], d) == Get(t.rows[i], d)
    decreases n
  {
    if n > 0 {
      DropUpToFacts(t, km, kl, n - 1);
      forall d
        ensures DroppedKey(km, kl, d, n) <==> DroppedKey(km, kl, d, n - 1) || (kl[n - 1] == d && km[n - 1] != d)
      {
        if DroppedKey(km, kl, d, n) {
          var k :| 0 <= k < n && k < |km| && k < |kl| && kl[k] == d && kl[k] != km[k];
          if k < n - 1 {
            assert DroppedKey(km, kl, d, n - 1);
          }
        }
        if DroppedKey(km, kl, d, n - 1) {
          DroppedGrows(km, kl, d, n - 1, n);
        }
        if kl[n - 1] == d && km[n - 1] != d {
          assert 0 <= n - 1 < n && kl[n - 1] == d && kl[n - 1] != km[n - 1];
        }
      }
    }
  }

  lemma DroppedGrows(km: seq<string>, kl: seq<string>, d: string, n: nat, m: nat)
    requires n <= m
    ensures DroppedKey(km, kl, d, n) ==> DroppedKey(km, kl, d, m)
  {
    if DroppedKey(km, kl, d, n) {
      var j :| 0 <= j < n && j < |km| && j < |kl| && kl[j] == d && kl[j] != km[j];
      assert j < m;
    }
  }

  /** The drop loop over the key pairs `zip(right_on, left_on)`. */
  method DropKeys(t: Table, km: seq<string>, kl: seq<string>) returns (out: Table)
    ensures out == DropUpTo(t, km, kl, Pairs(km, kl))
  {
    out := t;
    var k := 0;
    while k < |kl| && k < |km|
      invariant 0 <= k <= |kl| && k <= |km|
      invariant out == DropUpTo(t, km, kl, k)
    {
      var rk := kl[k];
      if rk != km[k] && rk in out.cols {
        out := DropColumn(out, rk);
      }
      k := k + 1;
    }
  }

  /** The name value column `v` is renamed to: the prefixed name, or a fresh `_lkN` name when that is a main column. */
  function NewName(v: string, prefix: string, mainCols: seq<string>, cols: seq<string>): (n: string)
    ensures n in mainCols ==> n !in cols
    ensures Prefixed(prefix, v) !in mainCols ==> n == Prefixed(prefix, v)
  {
    var n := Prefixed(prefix, v);
    if n in mainCols then FreshNameSpec(n, cols) else n
  }

  /** A value column's name with the prefix in front, when one is given. */
  function Prefixed(prefix: string, v: string): string {
    if prefix != "" then prefix + v else v
  }

  /** One pass of the rename loop: a value column still present is renamed, then filled. */
  function RenameStep(t: Table, mainCols: seq<string>, req: Request, v: string): Table {
    if v in t.cols then
      var name := NewName(v, req.prefix, mainCols, t.cols);
      var r := RenameColumn(t, v, name);
      if req.fill.Some? then FillColumn(r, name, req.fill.value) else r
    else t
  }

  /** The table after the first `n` passes of the rename loop. */
  function RenameUpTo(t: Table, mainCols: seq<string>, req: Request, n: nat): Table
    requires n <= |req.vals|
  {
    if n == 0 then t else RenameStep(RenameUpTo(t, mainCols, req, n - 1), mainCols, req, req.vals[n - 1])
  }

  /**
   * Renaming and filling keep the number of rows and columns, and a main
   * column that is not a value column keeps its place in the column list
   * and all its values.
   */
  lemma {:induction false} RenameUpToKeeps(t: Table, mainCols: seq<string>, req: Request, n: nat, c: string)
    requires n <= |req.vals|
    requires c in t.cols && c in mainCols && c !in req.vals
    ensures var r := RenameUpTo(t, mainCols, req, n);
      |r.rows| == |t.rows| && |r.cols| == |t.cols| && c in r.cols
      && forall i :: 0 <= i < |r.rows| ==> Get(r.rows[i], c) == Get(t.rows[i], c)
    decreases n
  {
    if n > 0 {
      RenameUpToKeeps(t, mainCols, req, n - 1, c);
      var prev := RenameUpTo(t, mainCols, req, n - 1);
      var v := req.vals[n - 1];
      assert v != c;
      if v in prev.cols {
        var name := NewName(v, req.prefix, mainCols, prev.cols);
        assert name != c;
        var j :| 0 <= j < |prev.cols| && prev.cols[j] == c;
        assert RenameColumn(prev, v, name).cols[j] == c;
      }
    }
  }

  /** The name value column `vals[k]` is given by pass `k` of the rename loop. */
  function RenamedTo(t: Table, mainCols: seq<string>, req: Request, k: nat): string
    requires k < |req.vals|
  {
    NewName(req.vals[k], req.prefix, mainCols, RenameUpTo(t, mainCols, req, k).cols)
  }

  /** A cell after `fillna(fill)`, when a default is given. */
  function Filled(c: Cell, fill: Option<string>): Cell {
    if fill.Some? && c == Missing then Text(fill.value) else c
  }

  /**
   * No other pass of the rename loop touches value column `vals[k]` or the
   * name it is given: no other value column has its name, the new name, or
   * a prefixed name equal to either.
   */
  predicate RenameClashFree(t: Table, mainCols: seq<string>, req: Request, k: nat)
    requires k < |req.vals|
  {
    var v := req.vals[k];
    var n := RenamedTo(t, mainCols, req, k);
    forall j :: 0 <= j < |req.vals| && j != k ==>
      req.vals[j] != v && req.vals[j] != n
      && Prefixed(req.prefix, req.vals[j]) != v && Prefixed(req.prefix, req.vals[j]) != n
  }

  /** The passes before pass `k` leave value column `vals[k]` in place with its values. */
  lemma {:induction false} RenameBefore(t: Table, mainCols: seq<string>, req: Request, k: nat, m: nat)
    requires m <= k < |req.vals|
    requires req.vals[k] in t.cols
    requires forall j :: 0 <= j < k ==> req.vals[j] != req.vals[k] && Prefixed(req.prefix, req.vals[j]) != req.vals[k]
    ensures var r := RenameUpTo(t, mainCols, req, m);
      |r.rows| == |t.rows| && req.vals[k] in r.cols
      && forall i :: 0 <= i < |r.rows| ==> Get(r.rows[i], req.vals[k]) == Get(t.rows[i], req.vals[k])
    decreases m
  {
    if m > 0 {
      RenameBefore(t, mainCols, req, k, m - 1);
      var prev := RenameUpTo(t, mainCols, req, m - 1);
      var w := req.vals[m - 1];
      var v := req.vals[k];
      if w in prev.cols {
        var name := NewName(w, req.prefix, mainCols, prev.cols);
        assert name != v;
        var p :| 0 <= p < |prev.cols| && prev.cols[p] == v;
        assert RenameColumn(prev, w, name).cols[p] == v;
      }
    }
  }

  /** Pass `k` renames value column `vals[k]` and fills its missing cells. */
  lemma RenamePass(t: Table, mainCols: seq<string>, req: Request, k: nat)
    requires k < |req.vals|
    requires req.vals[k] in RenameUpTo(t, mainCols, req, k).cols
    ensures var prev := RenameUpTo(t, mainCols, req, k);
      var r := RenameUpTo(t, mainCols, req, k + 1);
      var n := RenamedTo(t, mainCols, req, k);
      |r.rows| == |prev.rows| && n in r.cols
      && forall i :: 0 <= i < |r.rows| ==> Get(r.rows[i], n) == Filled(Get(prev.rows[i], req.vals[k]), req.fill)
  {
    var prev := RenameUpTo(t, mainCols, req, k);
    var v := req.vals[k];
    var n := RenamedTo(t, mainCols, req, k);
    var p :| 0 <= p < |prev.cols| && prev.cols[p] == v;
    assert RenameColumn(prev, v, n).cols[p] == n;
  }

  /** The passes after pass `k` leave the new name of `vals[k]` in place with its values. */
  lemma {:induction false} RenameAfter(t: Table, mainCols: seq<string>, req: Request, k: nat, m: nat)
    requires k < m <= |req.vals|
    requires RenamedTo(t, mainCols, req, k) in RenameUpTo(t, mainCols, req, k + 1).cols
    requires forall j :: k < j < |req.vals| ==>
      req.vals[j] != RenamedTo(t, mainCols, req, k) && Prefixed(req.prefix, req.vals[j]) != RenamedTo(t, mainCols, req, k)
    ensures var n := RenamedTo(t, mainCols, req, k);
      var s := RenameUpTo(t, mainCols, req, k + 1);
      var r := RenameUpTo(t, mainCols, req, m);
      |r.rows| == |s.rows| && n in r.cols
      && forall i :: 0 <= i < |r.rows| ==> Get(r.rows[i], n) == Get(s.rows[i], n)
    decreases m
  {
    if m > k + 1 {
      RenameAfter(t, mainCols, req, k, m - 1);
      var prev := RenameUpTo(t, mainCols, req, m - 1);
      var w := req.vals[m - 1];
      var n := RenamedTo(t, mainCols, req, k);
      if w in prev.cols {
        var name := NewName(w, req.prefix, mainCols, prev.cols);
        assert name != n;
        var p :| 0 <= p < |prev.cols| && prev.cols[p] == n;
        assert RenameColumn(prev, w, name).cols[p] == n;
      }
    }
  }

  /**
   * What an added value column holds after the rename loop: value column
   * `vals[k]`, present in the merged table, ends up under its new name (the
   * prefixed name when that is not a main column) with its own values,
   * a missing one replaced by the fill value when one is given.
   */
  lemma RenameUpToAdded(t: Table, mainCols: seq<string>, req: Request, k: nat)
    requires k < |req.vals|
    requires req.vals[k] in t.cols
    requires RenameClashFree(t, mainCols, req, k)
    ensures var r := RenameUpTo(t, mainCols, req, |req.vals|);
      var n := RenamedTo(t, mainCols, req, k);
      |r.rows| == |t.rows| && n in r.cols
      && (Prefixed(req.prefix, req.vals[k]) !in mainCols ==> n == Prefixed(req.prefix, req.vals[k]))
      && forall i :: 0 <= i < |r.rows| ==> Get(r.rows[i], n) == Filled(Get(t.rows[i], req.vals[k]), req.fill)
  {
    RenameBefore(t, mainCols, req, k, k);
    RenamePass(t, mainCols, req, k);
    RenameAfter(t, mainCols, req, k, |req.vals|);
  }

  /** The rename loop: each value column still present is renamed (prefix, then `_lkN` on collision) and filled. */
  method RenameValues(merged: Table, main: Table, req: Request) returns (out: Table)
    ensures out == RenameUpTo(merged, main.cols, req, |req.vals|)
  {
    out := merged;
    var i := 0;
    while i < |req.vals|
      invariant 0 <= i <= |req.vals|
      invariant out == RenameUpTo(merged, main.cols, req, i)
    {
      var v := req.vals[i];
      if v in out.cols {
        var name := if req.prefix != "" then req.prefix + v else v;
        if name in main.cols {
          name := FreshName(name, out.cols);
        }
        out := RenameColumn(out, v, name);
        if req.fill.Some? {
          out := FillColumn(out, name, req.fill.value);
        }
      }
      i := i + 1;
    }
  }

  /** A lookup key that `lookup_df.loc[:, keys + values]` repeats; the merge refuses a key label that is not unique. */
  predicate RepeatedKeyLabel(kl: seq<string>, vals: seq<string>) {
    exists i, j :: 0 <= i < j < |kl + vals| && (kl + vals)[i] == (kl + vals)[j] && (kl + vals)[i] in kl
  }

  /**
   * `perform_vlookup`: None on any failed check or when the merge raises
   * (no key, a repeated key label, or key columns whose types the merge
   * refuses, `typesOk` false); otherwise the left join, then the key drop,
   * then the renames and fills.
   */
  function VlookupSpec(main: Option<Table>, lookup: Option<Table>, multi: bool, a: Answers, typesOk: bool): Option<Table> {
    var req := Validate(main, lookup, multi, a);
    if req.None? || |req.value.keysMain| == 0 || RepeatedKeyLabel(req.value.keysLookup, req.value.vals) || !typesOk then None
    else Some(MergeResult(main.value, lookup.value, req.value))
  }

  /** The merged table after the key-drop loop. */
  function Dropped(main: Table, lookup: Table, r: Request): Table
    requires |r.keysMain| == |r.keysLookup|
  {
    DropUpTo(LeftJoin(main, lookup, r), r.keysMain, r.keysLookup, |r.keysLookup|)
  }

  /** The table `perform_vlookup` returns once the merge has succeeded. */
  function MergeResult(main: Table, lookup: Table, r: Request): Table
    requires |r.keysMain| == |r.keysLookup|
  {
    RenameUpTo(Dropped(main, lookup, r), main.cols, r, |r.vals|)
  }

  /**
   * `perform_vlookup`. The merge's own refusal of the key columns' types is
   * `typesOk`: pandas' type inference is not part of this model.
   */
  method PerformVlookup(main: Option<Table>, lookup: Option<Table>, multi: bool, a: Answers, typesOk: bool)
    returns (res: Option<Table>)
    ensures res == VlookupSpec(main, lookup, multi, a, typesOk)
  {
    var req := Validate(main, lookup, multi, a);
    if req.None? {
      return None;
    }
    var r := req.value;
    if |r.keysMain| == 0 || RepeatedKeyLabel(r.keysLookup, r.vals) || !typesOk {
      return None;
    }
    var merged := LeftJoin(main.value, lookup.value, r);
    var dropped := DropKeys(merged, r.keysMain, r.keysLookup);
    var out := RenameValues(dropped, main.value, r);
    return Some(out);
  }

  /**
   * A VLOOKUP succeeds exactly when every check passes with at least one
   * key, no lookup key label repeats and the merge accepts the key types;
   * the result has one row per joined row, never fewer than the main
   * table, and a main column that is neither a value column nor a lookup
   * key dropped for its pair keeps the joined values; when no main row
   * matches twice, that is main row `i`'s own value in row `i`.
   */
  lemma VlookupKeepsMainColumns(main: Option<Table>, lookup: Option<Table>, multi: bool, a: Answers, typesOk: bool, c: string)
    ensures var req := Validate(main, lookup, multi, a);
      VlookupSpec(main, lookup, multi, a, typesOk).Some? <==>
        req.Some? && |req.value.keysMain| > 0 && !RepeatedKeyLabel(req.value.keysLookup, req.value.vals) && typesOk
    ensures var req := Validate(main, lookup, multi, a);
      var res := VlookupSpec(main, lookup, multi, a, typesOk);
      res.Some? ==>
        var r := req.value;
        var joined := JoinRows(main.value.rows, lookup.value.rows, r.keysMain, r.keysLookup,
                               AddedCols(main.value.cols, r.keysLookup + r.vals));
        |res.value.rows| == |joined| >= |main.value.rows|
        && (c in main.value.cols && c !in r.vals && !DroppedKey(r.keysMain, r.keysLookup, c, |r.keysLookup|) ==>
              c in res.value.cols && forall i :: 0 <= i < |joined| ==> Get(res.value.rows[i], c) == Get(joined[i], c))
        && (c in main.value.cols && c !in r.vals && !DroppedKey(r.keysMain, r.keysLookup, c, |r.keysLookup|)
            && (forall i :: 0 <= i < |main.value.rows| ==> |Matches(main.value.rows[i], lookup.value.rows, r.keysMain, r.keysLookup)| <= 1)
            ==> forall i :: 0 <= i < |main.value.rows| ==> Get(res.value.rows[i], c) == Get(main.value.rows[i], c))
  {
    var req := Validate(main, lookup, multi, a);
    var res := VlookupSpec(main, lookup, multi, a, typesOk);
    if res.Some? {
      var r := req.value;
      var added := AddedCols(main.value.cols, r.keysLookup + r.vals);
      var joined := JoinRows(main.value.rows, lookup.value.rows, r.keysMain, r.keysLookup, added);
      var merged := LeftJoin(main.value, lookup.value, r);
      var dropped := DropUpTo(merged, r.keysMain, r.keysLookup, |r.keysLookup|);
      DropUpToFacts(merged, r.keysMain, r.keysLookup, |r.keysLookup|);
      if c in main.value.cols && c !in r.vals && !DroppedKey(r.keysMain, r.keysLookup, c, |r.keysLookup|) {
        assert c in merged.cols;
        RenameUpToKeeps(dropped, main.value.cols, r, |r.vals|, c);
        assert c !in added;
        forall i | 0 <= i < |joined|
          ensures Get(res.value.rows[i], c) == Get(joined[i], c)
        {
          assert Get(merged.rows[i], c) == Get(joined[i], c);
        }
        if forall i :: 0 <= i < |main.value.rows| ==> |Matches(main.value.rows[i], lookup.value.rows, r.keysMain, r.keysLookup)| <= 1 {
          JoinKeepsMainValues(main.value.rows, lookup.value.rows, r.keysMain, r.keysLookup, added);
        }
      } else {
        RenameUpToShape(dropped, main.value.cols, r, |r.vals|);
      }
    }
  }

  /**
   * What the merge, key drop and rename loop put in an added value column.
   * Value column `vals[k]` is neither a main column nor a lookup key, and
   * no other value column touches it or its new name. Then every result row
   * holds the joined row's value of `vals[k]` under the new name, with a
   * missing one filled.
   */
  lemma MergeAddedValues(main: Table, lookup: Table, r: Request, k: nat)
    requires |r.keysMain| == |r.keysLookup| && k < |r.vals|
    requires r.vals[k] !in main.cols && r.vals[k] !in r.keysLookup
    requires RenameClashFree(Dropped(main, lookup, r), main.cols, r, k)
    ensures var v := r.vals[k];
      var res := MergeResult(main, lookup, r);
      var n := RenamedTo(Dropped(main, lookup, r), main.cols, r, k);
      var joined := JoinRows(main.rows, lookup.rows, r.keysMain, r.keysLookup, AddedCols(main.cols, r.keysLookup + r.vals));
      n in res.cols && |res.rows| == |joined|
      && (Prefixed(r.prefix, v) !in main.cols ==> n == Prefixed(r.prefix, v))
      && forall i :: 0 <= i < |joined| ==> Get(res.rows[i], n) == Filled(Get(joined[i], v), r.fill)
  {
    var v := r.vals[k];
    var sel := r.keysLookup + r.vals;
    var added := AddedCols(main.cols, sel);
    var joined := JoinRows(main.rows, lookup.rows, r.keysMain, r.keysLookup, added);
    var merged := LeftJoin(main, lookup, r);
    var dropped := Dropped(main, lookup, r);
    var res := MergeResult(main, lookup, r);
    var n := RenamedTo(dropped, main.cols, r, k);
    assert sel[|r.keysLookup| + k] == v;
    assert v in merged.cols;
    assert !DroppedKey(r.keysMain, r.keysLookup, v, |r.keysLookup|);
    DropUpToFacts(merged, r.keysMain, r.keysLookup, |r.keysLookup|);
    RenameUpToAdded(dropped, main.cols, r, k);
    forall i | 0 <= i < |joined|
      ensures Get(res.rows[i], n) == Filled(Get(joined[i], v), r.fill)
    {
      assert Get(merged.rows[i], v) == Get(joined[i], v);
    }
  }

  /**
   * With at most one match per main row, result row `i` of the merge holds,
   * under the new name of an added value column, main row `i`'s single
   * match's value, or the fill (else missing) when it has no match.
   */
  lemma MergeAddedSingle(main: Table, lookup: Table, r: Request, k: nat)
    requires |r.keysMain| == |r.keysLookup| && k < |r.vals|
    requires r.vals[k] !in main.cols && r.vals[k] !in r.keysLookup
    requires RenameClashFree(Dropped(main, lookup, r), main.cols, r, k)
    requires forall i :: 0 <= i < |main.rows| ==> |Matches(main.rows[i], lookup.rows, r.keysMain, r.keysLookup)| <= 1
    ensures var res := MergeResult(main, lookup, r);
      var n := RenamedTo(Dropped(main, lookup, r), main.cols, r, k);
      |res.rows| == |main.rows|
      && forall i :: 0 <= i < |main.rows| ==>
        var l := OnlyMatch(main.rows[i], lookup.rows, r.keysMain, r.keysLookup);
        Get(res.rows[i], n) == Filled(if l.Some? then Get(l.value, r.vals[k]) else Missing, r.fill)
  {
    var sel := r.keysLookup + r.vals;
    var added := AddedCols(main.cols, sel);
    var joined := JoinRows(main.rows, lookup.rows, r.keysMain, r.keysLookup, added);
    var res := MergeResult(main, lookup, r);
    var n := RenamedTo(Dropped(main, lookup, r), main.cols, r, k);
    assert sel[|r.keysLookup| + k] == r.vals[k];
    assert r.vals[k] in added;
    MergeAddedValues(main, lookup, r, k);
    JoinKeepsMainRows(main.rows, lookup.rows, r.keysMain, r.keysLookup, added);
    forall i | 0 <= i < |main.rows|
      ensures var l := OnlyMatch(main.rows[i], lookup.rows, r.keysMain, r.keysLookup);
        Get(res.rows[i], n) == Filled(if l.Some? then Get(l.value, r.vals[k]) else Missing, r.fill)
    {
      assert Get(res.rows[i], n) == Filled(Get(joined[i], r.vals[k]), r.fill);
    }
  }

  /** A value column of a request whose lookup keys do not repeat is not a lookup key. */
  lemma ValueNotKey(kl: seq<string>, vals: seq<string>, k: nat)
    requires !RepeatedKeyLabel(kl, vals) && k < |vals|
    ensures vals[k] !in kl
  {
    var sel := kl + vals;
    assert sel[|kl| + k] == vals[k];
    forall q | 0 <= q < |kl|
      ensures kl[q] != vals[k]
    {
      assert sel[q] == kl[q];
    }
  }

  /**
   * `perform_vlookup` succeeds with the merge's result, and a value column
   * that passes validation is never a lookup key, so the two lemmas above
   * apply to every added value column whose names do not clash.
   */
  lemma VlookupIsMerge(main: Option<Table>, lookup: Option<Table>, multi: bool, a: Answers, typesOk: bool)
    requires VlookupSpec(main, lookup, multi, a, typesOk).Some?
    ensures var r := Validate(main, lookup, multi, a).value;
      VlookupSpec(main, lookup, multi, a, typesOk) == Some(MergeResult(main.value, lookup.value, r))
      && forall k :: 0 <= k < |r.vals| ==> r.vals[k] !in r.keysLookup
  {
    var r := Validate(main, lookup, multi, a).value;
    forall k | 0 <= k < |r.vals|
      ensures r.vals[k] !in r.keysLookup
    {
      ValueNotKey(r.keysLookup, r.vals, k);
    }
  }

  lemma {:induction false} RenameUpToShape(t: Table, mainCols: seq<string>, req: Request, n: nat)
    requires n <= |req.vals|
    ensures |RenameUpTo(t, mainCols, req, n).rows| == |t.rows|
    decreases n
  {
    if n > 0 {
      RenameUpToShape(t, mainCols, req, n - 1);
    }
  }
}
