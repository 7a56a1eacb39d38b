/**
 * The command-line batch variant (excelops_batch.py): the distinct users of
 * a table, the selection of some of them from a typed answer, and one sheet
 * per user cut by the user column and an activity filter and then edited by
 * a shared configuration of filters (one global AND/OR), one multi-key sort
 * and a keep/reorder projection.
 */
module Batch {
  import opened TableModel
  import Utils
  import Sorting
  import Filters
  import Columns

  predicate NoDuplicates(s: seq<string>) {
    forall i, j :: 0 <= i < j < |s| ==> s[i] != s[j]
  }

  // ------------------------------------------------------- distinct values

  /** The first occurrence of every name, in order of first appearance: `unique()`. */
  function Uniq(xs: seq<string>): (r: seq<string>)
    ensures forall x :: x in r <==> x in xs
    ensures NoDuplicates(r)
    decreases |xs|
  {
    if |xs| == 0 then []
    else
      var init, x := xs[..|xs| - 1], xs[|xs| - 1];
      assert xs == init + [x];
      var u := Uniq(init);
      if x in u then u else u + [x]
  }

  /** Position `i` holds the first occurrence of its name. */
  function FirstSeen(xs: seq<string>): (m: seq<bool>)
    ensures |m| == |xs|
    ensures forall i :: 0 <= i < |xs| ==> (m[i] <==> xs[i] !in xs[..i])
  {
    seq(|xs|, i requires 0 <= i < |xs| => xs[i] !in xs[..i])
  }

  lemma {:induction false} SelectSnoc<T>(xs: seq<T>, m: seq<bool>, x: T, b: bool)
    requires |m| == |xs|
    ensures Select(xs + [x], m + [b]) == Select(xs, m) + (if b then [x] else [])
    decreases |xs|
  {
    if |xs| > 0 {
      assert (xs + [x])[1..] == xs[1..] + [x];
      assert (m + [b])[1..] == m[1..] + [b];
      SelectSnoc(xs[1..], m[1..], x, b);
    }
  }

  /** `Uniq` keeps exactly the positions holding a first occurrence. */
  lemma {:induction false} UniqIsFirstOccurrence(xs: seq<string>)
    ensures Uniq(xs) == Select(xs, FirstSeen(xs))
    decreases |xs|
  {
    if |xs| > 0 {
      var init, x := xs[..|xs| - 1], xs[|xs| - 1];
      assert xs == init + [x];
      UniqIsFirstOccurrence(init);
      assert FirstSeen(xs) == FirstSeen(init) + [x !in init];
      SelectSnoc(init, FirstSeen(init), x, x !in init);
    }
  }

  /** Case-insensitive order of names: by their lower-case forms. */
  predicate LowerLe(a: string, b: string) {
    !LexLess(Lower(b), Lower(a))
  }

  predicate SortedByLower(s: seq<string>) {
    forall i, j :: 0 <= i < j < |s| ==> LowerLe(s[i], s[j])
  }

  /** Insert `x` after every name that does not sort after it. */
  function InsertByLower(x: string, s: seq<string>): (r: seq<string>)
    ensures multiset(r) == multiset(s) + multiset{x}
    decreases |s|
  {
    if |s| == 0 || LowerLe(s[|s| - 1], x) then s + [x]
    else
      var init := s[..|s| - 1];
      assert s == init + [s[|s| - 1]];
      InsertByLower(x, init) + [s[|s| - 1]]
  }

  /** `sorted(vals, key=str.lower)`: a stable sort by the lower-case forms. */
  function SortByLower(xs: seq<string>): (r: seq<string>)
    ensures multiset(r) == multiset(xs)
    decreases |xs|
  {
    if |xs| == 0 then []
    else
      var init := xs[..|xs| - 1];
      assert xs == init + [xs[|xs| - 1]];
      InsertByLower(xs[|xs| - 1], SortByLower(init))
  }

  lemma LowerLeTotal(a: string, b: string)
    ensures LowerLe(a, b) || LowerLe(b, a)
  {
    Sorting.LexAsym(Lower(a), Lower(b));
  }

  lemma LowerLeTrans(a: string, b: string, c: string)
    requires LowerLe(a, b) && LowerLe(b, c)
    ensures LowerLe(a, c)
  {
    Sorting.LexTotal(Lower(a), Lower(b));
    Sorting.LexTotal(Lower(b), Lower(c));
    if LexLess(Lower(c), Lower(a)) {
      if Lower(a) == Lower(b) {
      } else if Lower(b) == Lower(c) {
      } else {
        Sorting.LexTrans(Lower(c), Lower(a), Lower(b));
      }
    }
  }

  lemma {:induction false} InsertByLowerSorted(x: string, s: seq<string>)
    requires SortedByLower(s)
    ensures SortedByLower(InsertByLower(x, s))
    decreases |s|
  {
    var r := InsertByLower(x, s);
    if |s| == 0 || LowerLe(s[|s| - 1], x) {
      forall i, j | 0 <= i < j < |r|
        ensures LowerLe(r[i], r[j])
      {
        if j == |s| && i < |s| - 1 {
          LowerLeTrans(s[i], s[|s| - 1], x);
        }
      }
    } else {
      var init, l := s[..|s| - 1], s[|s| - 1];
      InsertByLowerSorted(x, init);
      var r0 := InsertByLower(x, init);
      assert r == r0 + [l];
      LowerLeTotal(l, x);
      forall i | 0 <= i < |r0|
        ensures LowerLe(r0[i], l)
      {
        assert r0[i] in multiset(init) + multiset{x};
        if r0[i] != x {
          assert r0[i] in multiset(init);
          var m :| 0 <= m < |init| && init[m] == r0[i];
          assert s[m] == r0[i];
        }
      }
    }
  }

  lemma {:induction false} SortByLowerSorted(xs: seq<string>)
    ensures SortedByLower(SortByLower(xs))
    decreases |xs|
  {
    if |xs| > 0 {
      SortByLowerSorted(xs[..|xs| - 1]);
      InsertByLowerSorted(xs[|xs| - 1], SortByLower(xs[..|xs| - 1]));
    }
  }

  lemma {:induction false} InsertByLowerNoDuplicates(x: string, s: seq<string>)
    requires NoDuplicates(s) && x !in s
    ensures NoDuplicates(InsertByLower(x, s))
    decreases |s|
  {
    if !(|s| == 0 || LowerLe(s[|s| - 1], x)) {
      var init, l := s[..|s| - 1], s[|s| - 1];
      assert s == init + [l];
      InsertByLowerNoDuplicates(x, init);
      var r0 := InsertByLower(x, init);
      assert forall m :: 0 <= m < |init| ==> init[m] != l by {
        forall m | 0 <= m < |init|
          ensures init[m] != l
        {
          assert init[m] == s[m];
        }
      }
      assert l !in multiset(init) + multiset{x};
      assert l !in multiset(r0);
    }
  }

  lemma {:induction false} SortByLowerNoDuplicates(xs: seq<string>)
    requires NoDuplicates(xs)
    ensures NoDuplicates(SortByLower(xs))
    decreases |xs|
  {
    if |xs| > 0 {
      var init, x := xs[..|xs| - 1], xs[|xs| - 1];
      SortByLowerNoDuplicates(init);
      assert forall m :: 0 <= m < |init| ==> init[m] != x by {
        forall m | 0 <= m < |init|
          ensures init[m] != x
        {
          assert init[m] == xs[m];
        }
      }
      assert x !in multiset(SortByLower(init));
      InsertByLowerNoDuplicates(x, SortByLower(init));
    }
  }

  /** The string forms of the non-missing cells of a column, in row order. */
  function PresentStrings(t: Table, col: string): (r: seq<string>)
    ensures forall x :: x in r <==> exists i :: 0 <= i < |t.rows| && Get(t.rows[i], col) != Missing && Str(Get(t.rows[i], col)) == x
  {
    var strs := seq(|t.rows|, i requires 0 <= i < |t.rows| => Str(Get(t.rows[i], col)));
    var present := seq(|t.rows|, i requires 0 <= i < |t.rows| => Get(t.rows[i], col) != Missing);
    forall x
      ensures x in Select(strs, present) <==>
        exists i :: 0 <= i < |t.rows| && Get(t.rows[i], col) != Missing && Str(Get(t.rows[i], col)) == x
    {
      SelectMembers(strs, present, x);
      if x in Select(strs, present) {
        var i :| 0 <= i < |strs| && present[i] && strs[i] == x;
        assert Get(t.rows[i], col) != Missing && Str(Get(t.rows[i], col)) == x;
      }
      if exists i :: 0 <= i < |t.rows| && Get(t.rows[i], col) != Missing && Str(Get(t.rows[i], col)) == x {
        var i :| 0 <= i < |t.rows| && Get(t.rows[i], col) != Missing && Str(Get(t.rows[i], col)) == x;
        assert present[i] && strs[i] == x;
      }
    }
    Select(strs, present)
  }

  /**
   * `list_unique_values`: no names for a column the table lacks; otherwise
   * the distinct string forms of its non-missing cells, sorted
   * case-insensitively.
   */
  function ListUniqueValues(t: Table, col: string): (r: seq<string>)
    ensures col !in t.cols ==> r == []
    ensures forall x :: x in r <==>
      (col in t.cols && exists i :: 0 <= i < |t.rows| && Get(t.rows[i], col) != Missing && Str(Get(t.rows[i], col)) == x)
    ensures NoDuplicates(r)
    ensures SortedByLower(r)
  {
    if col !in t.cols then []
    else
      var u := Uniq(PresentStrings(t, col));
      SortByLowerSorted(u);
      SortByLowerNoDuplicates(u);
      assert forall x :: x in SortByLower(u) <==> x in u by {
        forall x
          ensures x in SortByLower(u) <==> x in u
        {
          assert x in SortByLower(u) <==> x in multiset(SortByLower(u));
        }
      }
      SortByLower(u)
  }

  // -------------------------------------------------------- user selection

  /** How a name token matches a user: equal ignoring case, or contained ignoring case. */
  predicate NameMatches(u: string, part: string, exact: bool) {
    if exact then Lower(u) == Lower(part) else IsSubstring(Lower(part), Lower(u))
  }

  /** The users the token matches, in list order. */
  function Matching(users: seq<string>, part: string, exact: bool): (r: seq<string>)
    ensures forall u :: u in r <==> u in users && NameMatches(u, part, exact)
    decreases |users|
  {
    if |users| == 0 then []
    else
      assert forall u :: u in users <==> u == users[0] || u in users[1..];
      (if NameMatches(users[0], part, exact) then [users[0]] else []) + Matching(users[1..], part, exact)
  }

  /** The first match is the first matching user in list order. */
  lemma {:induction false} MatchingFirst(users: seq<string>, part: string, exact: bool, k: nat)
    requires k < |users| && NameMatches(users[k], part, exact)
    requires forall j :: 0 <= j < k ==> !NameMatches(users[j], part, exact)
    ensures |Matching(users, part, exact)| > 0 && Matching(users, part, exact)[0] == users[k]
    decreases k
  {
    if k > 0 {
      MatchingFirst(users[1..], part, exact, k - 1);
    }
  }

  /** Two matching positions give at least two matches. */
  lemma {:induction false} MatchingTwo(users: seq<string>, part: string, exact: bool, i: nat, j: nat)
    requires i < j < |users| && NameMatches(users[i], part, exact) && NameMatches(users[j], part, exact)
    ensures |Matching(users, part, exact)| >= 2
    decreases i
  {
    if i == 0 {
      assert users[j] == users[1..][j - 1];
    } else {
      MatchingTwo(users[1..], part, exact, i - 1, j - 1);
    }
  }

  /** A token made only of ASCII digits: `part.isdigit()`. */
  predicate IsIndexToken(part: string) {
    |part| > 0 && AllDigits(part)
  }

  /**
   * The user one token picks: a number is a 1-based position; a name picks
   * the first user equal to it ignoring case, else the only user containing
   * it ignoring case. Out-of-range, ambiguous and unmatched tokens pick none.
   */
  function Pick(users: seq<string>, part: string): (r: Option<string>)
    ensures r.Some? ==> r.value in users
  {
    if IsIndexToken(part) then
      var k := DigitsValue(part) - 1;
      if 0 <= k < |users| then Some(users[k]) else None
    else
      var exact := Matching(users, part, true);
      if |exact| > 0 then Some(exact[0])
      else
        var subs := Matching(users, part, false);
        if |subs| == 1 then Some(subs[0]) else None
  }

  /** The users picked by the tokens, in token order, duplicates included. */
  function Picks(users: seq<string>, parts: seq<string>): (r: seq<string>)
    ensures forall x :: x in r <==> exists k :: 0 <= k < |parts| && Pick(users, parts[k]) == Some(x)
    decreases |parts|
  {
    if |parts| == 0 then []
    else
      var init := parts[..|parts| - 1];
      var p := Pick(users, parts[|parts| - 1]);
      assert forall x :: (exists k :: 0 <= k < |parts| && Pick(users, parts[k]) == Some(x)) <==>
        ((exists k :: 0 <= k < |init| && Pick(users, init[k]) == Some(x)) || p == Some(x)) by {
        forall x
          ensures (exists k :: 0 <= k < |parts| && Pick(users, parts[k]) == Some(x)) ==>
            ((exists k :: 0 <= k < |init| && Pick(users, init[k]) == Some(x)) || p == Some(x))
        {
          if exists k :: 0 <= k < |parts| && Pick(users, parts[k]) == Some(x) {
            var k :| 0 <= k < |parts| && Pick(users, parts[k]) == Some(x);
            if k < |init| {
              assert init[k] == parts[k];
            }
          }
        }
      }
      Picks(users, init) + (if p.Some? then [p.value] else [])
  }

  /** The selection a typed answer makes from the users. */
  function ChooseSpec(users: seq<string>, sel: string): seq<string> {
    if |users| == 0 then []
    else
      var s := Strip(sel);
      if |s| == 0 then []
      else if Lower(s) == "all" then users
      else Uniq(Picks(users, ParseList(s)))
  }

  /**
   * The selection part of `prompt_choose_users`: the users are the column's
   * distinct values; the answer is the typed line.
   */
  method ChooseUsers(t: Table, userCol: string, sel: string) returns (out: seq<string>)
    ensures out == ChooseSpec(ListUniqueValues(t, userCol), sel)
  {
    var users := ListUniqueValues(t, userCol);
    if |users| == 0 {
      return [];
    }
    var s := Strip(sel);
    if |s| == 0 {
      return [];
    }
    if Lower(s) == "all" {
      return users;
    }
    var chosen := PickAll(users, ParseList(s));
    out := FirstOccurrences(chosen);
  }

  /** The token loop of `prompt_choose_users`: each token's pick, if any, is appended. */
  method PickAll(users: seq<string>, parts: seq<string>) returns (chosen: seq<string>)
    ensures chosen == Picks(users, parts)
  {
    chosen := [];
    var i := 0;
    while i < |parts|
      invariant 0 <= i <= |parts|
      invariant chosen == Picks(users, parts[..i])
    {
      assert parts[..i + 1][..i] == parts[..i];
      var part := parts[i];
      if IsIndexToken(part) {
        var idx := DigitsValue(part) - 1;
        if 0 <= idx < |users| {
          chosen := chosen + [users[idx]];
        }
      } else {
        var matches := Matching(users, part, true);
        if |matches| > 0 {
          chosen := chosen + [matches[0]];
        } else {
          var subs := Matching(users, part, false);
          if |subs| == 1 {
            chosen := chosen + [subs[0]];
          }
        }
      }
      i := i + 1;
    }
    assert parts[..|parts|] == parts;
  }

  /** The de-duplication loop of `prompt_choose_users`: a name already seen is skipped. */
  method FirstOccurrences(chosen: seq<string>) returns (out: seq<string>)
    ensures out == Uniq(chosen)
  {
    var seen: set<string> := {};
    out := [];
    var j := 0;
    while j < |chosen|
      invariant 0 <= j <= |chosen|
      invariant out == Uniq(chosen[..j])
      invariant seen == set x | x in out
    {
      assert chosen[..j + 1][..j] == chosen[..j];
      var x := chosen[j];
      if x !in seen {
        out := out + [x];
        seen := seen + {x};
      }
      j := j + 1;
    }
    assert chosen[..|chosen|] == chosen;
  }

  /** Every chosen name is a user, none twice; "all" (any case) chooses every user. */
  lemma ChosenAreUsers(users: seq<string>, sel: string)
    ensures forall x :: x in ChooseSpec(users, sel) ==> x in users
    ensures NoDuplicates(users) ==> NoDuplicates(ChooseSpec(users, sel))
    ensures Lower(Strip(sel)) == "all" ==> ChooseSpec(users, sel) == users
  {
  }

  /** Outside "all", a name is chosen exactly when some token picks it. */
  lemma ChosenByToken(users: seq<string>, sel: string, x: string)
    requires |users| > 0 && |Strip(sel)| > 0 && Lower(Strip(sel)) != "all"
    ensures x in ChooseSpec(users, sel) <==>
      exists k :: 0 <= k < |ParseList(Strip(sel))| && Pick(users, ParseList(Strip(sel))[k]) == Some(x)
  {
  }

  /** A number token picks the user at that 1-based position, or nobody when out of range. */
  lemma PickByIndex(users: seq<string>, part: string)
    requires IsIndexToken(part)
    ensures 1 <= DigitsValue(part) <= |users| ==> Pick(users, part) == Some(users[DigitsValue(part) - 1])
    ensures !(1 <= DigitsValue(part) <= |users|) ==> Pick(users, part).None?
  {
  }

  /** A name equal to some user ignoring case picks the first such user. */
  lemma PickExactFirst(users: seq<string>, part: string, k: nat)
    requires !IsIndexToken(part)
    requires k < |users| && Lower(users[k]) == Lower(part)
    requires forall j :: 0 <= j < k ==> Lower(users[j]) != Lower(part)
    ensures Pick(users, part) == Some(users[k])
  {
    MatchingFirst(users, part, true, k);
  }

  /** Without an exact match, a name contained in two listed users is ambiguous and picks nobody. */
  lemma PickAmbiguous(users: seq<string>, part: string, i: nat, j: nat)
    requires !IsIndexToken(part)
    requires forall u :: u in users ==> Lower(u) != Lower(part)
    requires i < j < |users| && IsSubstring(Lower(part), Lower(users[i])) && IsSubstring(Lower(part), Lower(users[j]))
    ensures Pick(users, part).None?
  {
    MatchingTwo(users, part, false, i, j);
    assert |Matching(users, part, true)| == 0 by {
      if |Matching(users, part, true)| > 0 {
        assert Matching(users, part, true)[0] in Matching(users, part, true);
      }
    }
  }

  /** Without an exact match, a name contained in exactly one listed user picks it. */
  lemma PickUniqueSubstring(users: seq<string>, part: string, k: nat)
    requires !IsIndexToken(part)
    requires forall u :: u in users ==> Lower(u) != Lower(part)
    requires k < |users| && IsSubstring(Lower(part), Lower(users[k]))
    requires forall j :: 0 <= j < |users| && j != k ==> !IsSubstring(Lower(part), Lower(users[j]))
    ensures Pick(users, part) == Some(users[k])
  {
    MatchingOne(users, part, k);
    assert |Matching(users, part, true)| == 0 by {
      if |Matching(users, part, true)| > 0 {
        assert Matching(users, part, true)[0] in Matching(users, part, true);
      }
    }
  }

  lemma {:induction false} MatchingOne(users: seq<string>, part: string, k: nat)
    requires k < |users| && NameMatches(users[k], part, false)
    requires forall j :: 0 <= j < |users| && j != k ==> !NameMatches(users[j], part, false)
    ensures Matching(users, part, false) == [users[k]]
    decreases |users|
  {
    if k == 0 {
      MatchingNone(users[1..], part);
    } else {
      assert !NameMatches(users[0], part, false);
      MatchingOne(users[1..], part, k - 1);
    }
  }

  lemma {:induction false} MatchingNone(users: seq<string>, part: string)
    requires forall j :: 0 <= j < |users| ==> !NameMatches(users[j], part, false)
    ensures Matching(users, part, false) == []
    decreases |users|
  {
    if |users| > 0 {
      MatchingNone(users[1..], part);
    }
  }

  // --------------------------------------------------------------- filters

  /** One configured filter; a missing "col" is `None`. */
  datatype BatchFilter = BatchFilter(col: Option<string>, op: string, valueType: string, value: string)

  /** A filter read from its JSON object: `op` defaults to "==", `value_type` to "value", `value` to "". */
  function FilterOf(m: map<string, string>): BatchFilter {
    BatchFilter(
      if "col" in m then Some(m["col"]) else None,
      if "op" in m then m["op"] else "==",
      if "value_type" in m then m["value_type"] else "value",
      if "value" in m then m["value"] else "")
  }

  /** The keys of `OPS`: the relational operators and "contains". */
  predicate KnownOp(op: string) {
    op in Filters.Ops || op == "contains"
  }

  /** A filter contributes a mask when its column is in the table and its operator is known. */
  predicate Usable(f: BatchFilter, t: Table) {
    f.col.Some? && f.col.value in t.cols && KnownOp(f.op)
  }

  /** `float(str(val).replace("%", "").replace(",", ""))`; `float` ignores surrounding whitespace. */
  function LiteralNumber(v: string): Option<real> {
    ParseNum(Strip(RemoveChar(RemoveChar(v, '%'), ',')))
  }

  /** A relational operator between each cleaned cell and a number; a missing cell satisfies only "!=". */
  function CompareToNumber(op: string, t: Table, col: string, y: real): (m: seq<bool>)
    requires op in Filters.Ops
    ensures |m| == |t.rows|
  {
    seq(|t.rows|, i requires 0 <= i < |t.rows| => Filters.CmpNum(op, Utils.CleanNumeric(Get(t.rows[i], col)), Some(y)))
  }

  /**
   * The mask of one usable filter. "column_average" compares with the mean
   * of the cleaned column of `base`; otherwise "contains" is a
   * case-insensitive substring test, a numeric literal compares
   * numerically, and a text literal supports only "==" and "!=".
   */
  function MaskOf(f: BatchFilter, t: Table, base: Table): (m: seq<bool>)
    requires Usable(f, t)
    ensures |m| == |t.rows|
  {
    var col := f.col.value;
    if f.valueType == "column_average" then
      if col !in base.cols then AllFalse(|t.rows|)
      else
        match Mean(Utils.CleanColumn(base, col))
        case None => AllFalse(|t.rows|)
        case Some(avg) => if f.op == "contains" then AllFalse(|t.rows|) else CompareToNumber(f.op, t, col, avg)
    else if f.op == "contains" then
      seq(|t.rows|, i requires 0 <= i < |t.rows| => IsSubstring(Lower(f.value), Lower(Str(Get(t.rows[i], col)))))
    else
      match LiteralNumber(f.value)
      case Some(v) => CompareToNumber(f.op, t, col, v)
      case None =>
        if f.op == "==" || f.op == "!=" then
          seq(|t.rows|, i requires 0 <= i < |t.rows| => (Str(Get(t.rows[i], col)) == f.value) == (f.op == "=="))
        else AllFalse(|t.rows|)
  }

  /** The usable filters, in filter order. */
  function UsableFilters(filters: seq<BatchFilter>, t: Table): (us: seq<BatchFilter>)
    ensures forall f :: f in us <==> f in filters && Usable(f, t)
    decreases |filters|
  {
    if |filters| == 0 then []
    else
      var init, f := filters[..|filters| - 1], filters[|filters| - 1];
      assert filters == init + [f];
      if Usable(f, t) then UsableFilters(init, t) + [f] else UsableFilters(init, t)
  }

  /** One mask per usable filter. */
  function MasksOf(us: seq<BatchFilter>, t: Table, base: Table): (ms: seq<seq<bool>>)
    requires forall f :: f in us ==> Usable(f, t)
    ensures |ms| == |us|
    ensures forall k :: 0 <= k < |ms| ==> ms[k] == MaskOf(us[k], t, base) && |ms[k]| == |t.rows|
  {
    seq(|us|, k requires 0 <= k < |us| => MaskOf(us[k], t, base))
  }

  /** `logic.upper() == "AND"`, over ASCII letters. */
  predicate IsAnd(logic: string) {
    Lower(logic) == "and"
  }

  /** `final = masks[0]`, then `&=` (or `|=`) with each later mask. */
  function FoldMasks(ms: seq<seq<bool>>, and: bool, n: nat): (m: seq<bool>)
    requires |ms| >= 1 && forall k :: 0 <= k < |ms| ==> |ms[k]| == n
    ensures |m| == n
    decreases |ms|
  {
    if |ms| == 1 then ms[0]
    else
      var prev, last := FoldMasks(ms[..|ms| - 1], and, n), ms[|ms| - 1];
      seq(n, i requires 0 <= i < n => if and then prev[i] && last[i] else prev[i] || last[i])
  }

  /** `apply_config_filters`; `base` is the table column averages are taken from (the input when absent). */
  function ConfigFiltersSpec(t: Table, filters: seq<BatchFilter>, logic: string, base: Option<Table>): Table {
    if IsEmpty(t) || |filters| == 0 then t
    else
      var ms := MasksOf(UsableFilters(filters, t), t, if base.Some? then base.value else t);
      if |ms| == 0 then t
      else Table(t.cols, Select(t.rows, FoldMasks(ms, IsAnd(logic), |t.rows|)))
  }

  /** `apply_config_filters`: one mask per usable filter, then a single AND or OR over them. */
  method ApplyConfigFilters(t: Table, filters: seq<BatchFilter>, logic: string, base: Option<Table>) returns (res: Table)
    ensures res == ConfigFiltersSpec(t, filters, logic, base)
  {
    if IsEmpty(t) || |filters| == 0 {
      return t;
    }
    var masks := CollectMasks(t, filters, if base.Some? then base.value else t);
    if |masks| == 0 {
      return t;
    }
    var final := CombineMasks(masks, IsAnd(logic), |t.rows|);
    return Table(t.cols, Select(t.rows, final));
  }

  /** The mask of each usable filter, in filter order. */
  method CollectMasks(t: Table, filters: seq<BatchFilter>, b: Table) returns (masks: seq<seq<bool>>)
    ensures masks == MasksOf(UsableFilters(filters, t), t, b)
  {
    masks := [];
    var i := 0;
    while i < |filters|
      invariant 0 <= i <= |filters|
      invariant masks == MasksOf(UsableFilters(filters[..i], t), t, b)
    {
      assert filters[..i + 1][..i] == filters[..i];
      var f := filters[i];
      if Usable(f, t) {
        masks := masks + [MaskOf(f, t, b)];
      }
      i := i + 1;
    }
    assert filters[..|filters|] == filters;
  }

  /** `final = masks[0]`, then `&=` (or `|=`) with each later mask, in place. */
  method CombineMasks(masks: seq<seq<bool>>, and: bool, n: nat) returns (final: seq<bool>)
    requires |masks| >= 1 && forall k :: 0 <= k < |masks| ==> |masks[k]| == n
    ensures final == FoldMasks(masks, and, n)
  {
    final := masks[0];
    var k := 1;
    while k < |masks|
      invariant 1 <= k <= |masks|
      invariant final == FoldMasks(masks[..k], and, n)
    {
      assert masks[..k + 1][..k] == masks[..k];
      var m := masks[k];
      var prev := final;
      final := seq(n, j requires 0 <= j < n => if and then prev[j] && m[j] else prev[j] || m[j]);
      k := k + 1;
    }
    assert masks[..k] == masks;
  }

  /** A row passes the folded mask when every mask (AND) or some mask (OR) passes it. */
  lemma {:induction false} FoldMasksMeaning(ms: seq<seq<bool>>, and: bool, n: nat, i: nat)
    requires |ms| >= 1 && forall k :: 0 <= k < |ms| ==> |ms[k]| == n
    requires i < n
    ensures and ==> (FoldMasks(ms, and, n)[i] <==> forall k :: 0 <= k < |ms| ==> ms[k][i])
    ensures !and ==> (FoldMasks(ms, and, n)[i] <==> exists k :: 0 <= k < |ms| && ms[k][i])
    decreases |ms|
  {
    if |ms| > 1 {
      var init := ms[..|ms| - 1];
      FoldMasksMeaning(init, and, n, i);
      assert forall k :: 0 <= k < |init| ==> init[k] == ms[k];
    }
  }

  /**
   * Once some filter is usable on a non-empty table, a row is kept exactly
   * when every usable filter's mask keeps it (logic "AND" in any case) or
   * some usable filter's mask keeps it (any other logic).
   */
  lemma ConfigFiltersRowRule(t: Table, filters: seq<BatchFilter>, logic: string, base: Table, i: nat)
    requires !IsEmpty(t) && i < |t.rows|
    requires exists f :: f in filters && Usable(f, t)
    ensures |UsableFilters(filters, t)| > 0
    ensures IsAnd(logic) ==> (FoldMasks(MasksOf(UsableFilters(filters, t), t, base), true, |t.rows|)[i] <==>
      forall f :: f in filters && Usable(f, t) ==> MaskOf(f, t, base)[i])
    ensures !IsAnd(logic) ==> (FoldMasks(MasksOf(UsableFilters(filters, t), t, base), false, |t.rows|)[i] <==>
      exists f :: f in filters && Usable(f, t) && MaskOf(f, t, base)[i])
  {
    var f0 :| f0 in filters && Usable(f0, t);
    assert f0 in UsableFilters(filters, t);
    if IsAnd(logic) {
      AllMasksKeep(t, filters, base, i);
    } else {
      SomeMaskKeeps(t, filters, base, i);
    }
  }

  /** Under AND, a row is kept exactly when every usable filter's mask keeps it. */
  lemma AllMasksKeep(t: Table, filters: seq<BatchFilter>, base: Table, i: nat)
    requires i < |t.rows| && |UsableFilters(filters, t)| > 0
    ensures FoldMasks(MasksOf(UsableFilters(filters, t), t, base), true, |t.rows|)[i] <==>
      forall f :: f in filters && Usable(f, t) ==> MaskOf(f, t, base)[i]
  {
    var us := UsableFilters(filters, t);
    var ms := MasksOf(us, t, base);
    FoldMasksMeaning(ms, true, |t.rows|, i);
    if forall f :: f in filters && Usable(f, t) ==> MaskOf(f, t, base)[i] {
      forall k | 0 <= k < |ms|
        ensures ms[k][i]
      {
        assert us[k] in us;
      }
    }
  }

  /** Under OR, a row is kept exactly when some usable filter's mask keeps it. */
  lemma SomeMaskKeeps(t: Table, filters: seq<BatchFilter>, base: Table, i: nat)
    requires i < |t.rows| && |UsableFilters(filters, t)| > 0
    ensures FoldMasks(MasksOf(UsableFilters(filters, t), t, base), false, |t.rows|)[i] <==>
      exists f :: f in filters && Usable(f, t) && MaskOf(f, t, base)[i]
  {
    var us := UsableFilters(filters, t);
    var ms := MasksOf(us, t, base);
    FoldMasksMeaning(ms, false, |t.rows|, i);
    if exists f :: f in filters && Usable(f, t) && MaskOf(f, t, base)[i] {
      var f :| f in filters && Usable(f, t) && MaskOf(f, t, base)[i];
      assert f in us;
      var k :| 0 <= k < |us| && us[k] == f;
      assert ms[k][i];
    }
  }

  /** The result keeps the columns and is the input's rows, some left out, the rest in order. */
  lemma ConfigFiltersSubset(t: Table, filters: seq<BatchFilter>, logic: string, base: Option<Table>)
    ensures ConfigFiltersSpec(t, filters, logic, base).cols == t.cols
    ensures Subseq(ConfigFiltersSpec(t, filters, logic, base).rows, t.rows)
  {
    var r := ConfigFiltersSpec(t, filters, logic, base);
    if r == t {
      SubseqRefl(t.rows);
    } else {
      var ms := MasksOf(UsableFilters(filters, t), t, if base.Some? then base.value else t);
      SelectIsSubseq(t.rows, FoldMasks(ms, IsAnd(logic), |t.rows|));
    }
  }

  /** With no usable filter (absent columns, unknown operators) the table is returned unchanged. */
  lemma ConfigFiltersNoUsable(t: Table, filters: seq<BatchFilter>, logic: string, base: Option<Table>)
    requires forall j :: 0 <= j < |filters| ==> !Usable(filters[j], t)
    ensures ConfigFiltersSpec(t, filters, logic, base) == t
  {
    NoUsableFilter(filters, t);
  }

  lemma {:induction false} NoUsableFilter(filters: seq<BatchFilter>, t: Table)
    requires forall j :: 0 <= j < |filters| ==> !Usable(filters[j], t)
    ensures UsableFilters(filters, t) == []
    decreases |filters|
  {
    if |filters| > 0 {
      NoUsableFilter(filters[..|filters| - 1], t);
    }
  }

  /** A column average over a column the base table lacks, or with no numeric value in it, keeps no row. */
  lemma ColumnAverageUnavailable(f: BatchFilter, t: Table, base: Table)
    requires Usable(f, t) && f.valueType == "column_average"
    requires f.col.value !in base.cols || CountPresent(Utils.CleanColumn(base, f.col.value)) == 0
    ensures forall i :: 0 <= i < |t.rows| ==> !MaskOf(f, t, base)[i]
  {
  }

  /** A literal that is numeric once '%' and ',' are removed compares numerically with the cleaned cells. */
  lemma NumericLiteralCompares(f: BatchFilter, t: Table, base: Table, i: nat, n: int)
    requires Usable(f, t) && f.valueType != "column_average" && f.op in Filters.Ops
    requires LiteralNumber(f.value).Some? && i < |t.rows| && Get(t.rows[i], f.col.value) == Num(n)
    ensures f.op == ">" ==> (MaskOf(f, t, base)[i] <==> n as real > LiteralNumber(f.value).value)
    ensures f.op == "==" ==> (MaskOf(f, t, base)[i] <==> n as real == LiteralNumber(f.value).value)
  {
    Utils.CleanNumericOfNum(n);
  }

  /** A text literal supports only equality: "!=" is the negation of "==", and ordering keeps no row. */
  lemma TextLiteralEqualityOnly(f: BatchFilter, t: Table, base: Table, i: nat)
    requires Usable(f, t) && f.valueType != "column_average" && f.op != "contains"
    requires LiteralNumber(f.value).None? && i < |t.rows|
    ensures f.op == "==" ==> (MaskOf(f, t, base)[i] <==> Str(Get(t.rows[i], f.col.value)) == f.value)
    ensures f.op == "!=" ==> (MaskOf(f, t, base)[i] <==> Str(Get(t.rows[i], f.col.value)) != f.value)
    ensures f.op != "==" && f.op != "!=" ==> !MaskOf(f, t, base)[i]
  {
  }

  // ----------------------------------------------------------------- sorts

  /** One configured sort key; a missing "col" is `None`, a missing "ascending" is true. */
  datatype BatchSort = BatchSort(col: Option<string>, ascending: bool)

  /** The keys of the configured sorts whose column is in the table, in configuration order. */
  function ConfigKeys(sorts: seq<BatchSort>, cols: seq<string>): (ks: seq<Sorting.SortKey>)
    ensures |ks| <= |sorts|
    ensures forall k :: k in ks ==> k.col in cols
    ensures forall j :: 0 <= j < |sorts| && sorts[j].col.Some? && sorts[j].col.value in cols ==>
      Sorting.SortKey(sorts[j].col.value, sorts[j].ascending) in ks
    decreases |sorts|
  {
    if |sorts| == 0 then []
    else
      var init, s := sorts[..|sorts| - 1], sorts[|sorts| - 1];
      var ks := ConfigKeys(init, cols);
      assert forall j :: 0 <= j < |init| ==> init[j] == sorts[j];
      if s.col.Some? && s.col.value in cols then ks + [Sorting.SortKey(s.col.value, s.ascending)] else ks
  }

  /**
   * `apply_config_sorts`: one sort by all present keys, missing values last;
   * a sort that raises (one key over a column mixing numbers and text)
   * leaves the table as it is.
   */
  function ConfigSortsSpec(t: Table, sorts: seq<BatchSort>): Table {
    if IsEmpty(t) || |sorts| == 0 then t
    else
      var ks := ConfigKeys(sorts, t.cols);
      if |ks| == 0 || Sorting.SortRaises(ks, t.rows) then t else Table(t.cols, Sorting.Sort(ks, t.rows))
  }

  /** `apply_config_sorts`: collects the present columns and their directions, then sorts once. */
  method ApplyConfigSorts(t: Table, sorts: seq<BatchSort>) returns (res: Table)
    ensures res == ConfigSortsSpec(t, sorts)
  {
    if IsEmpty(t) || |sorts| == 0 {
      return t;
    }
    var keys: seq<Sorting.SortKey> := [];
    var i := 0;
    while i < |sorts|
      invariant 0 <= i <= |sorts|
      invariant keys == ConfigKeys(sorts[..i], t.cols)
    {
      assert sorts[..i + 1][..i] == sorts[..i];
      var s := sorts[i];
      if s.col.Some? && s.col.value in t.cols {
        keys := keys + [Sorting.SortKey(s.col.value, s.ascending)];
      }
      i := i + 1;
    }
    assert sorts[..|sorts|] == sorts;
    if |keys| == 0 || Sorting.SortRaises(keys, t.rows) {
      return t;
    }
    return Table(t.cols, Sorting.Sort(keys, t.rows));
  }

  /**
   * The result has the same columns and is a permutation of the rows; when
   * some key applies and the sort does not raise it is ordered by the keys
   * lexicographically, and rows equal on every key keep their order; when
   * it raises the rows keep their order.
   */
  lemma ConfigSortsFacts(t: Table, sorts: seq<BatchSort>)
    ensures ConfigSortsSpec(t, sorts).cols == t.cols
    ensures multiset(ConfigSortsSpec(t, sorts).rows) == multiset(t.rows)
    ensures !IsEmpty(t) && |sorts| > 0 && !Sorting.SortRaises(ConfigKeys(sorts, t.cols), t.rows) ==>
      Sorting.Sorted(ConfigKeys(sorts, t.cols), ConfigSortsSpec(t, sorts).rows)
    ensures !IsEmpty(t) && |sorts| > 0 && !Sorting.SortRaises(ConfigKeys(sorts, t.cols), t.rows) ==>
      Sorting.Stable(ConfigKeys(sorts, t.cols), ConfigSortsSpec(t, sorts).rows, t.rows)
    ensures Sorting.SortRaises(ConfigKeys(sorts, t.cols), t.rows) ==> ConfigSortsSpec(t, sorts).rows == t.rows
  {
    if !IsEmpty(t) && |sorts| > 0 {
      var ks := ConfigKeys(sorts, t.cols);
      if |ks| > 0 && !Sorting.SortRaises(ks, t.rows) {
        Sorting.SortFacts(ks, t.rows);
      }
    }
  }

  // --------------------------------------------------------------- columns

  /**
   * `apply_config_columns`: "keep" (when given) keeps the listed columns in
   * table order; then "reorder" projects onto its listed columns that
   * remain, in its order, unless none remains.
   */
  function ConfigColumnsSpec(t: Table, keep: seq<string>, reorder: seq<string>): (r: Table)
    ensures IsEmpty(t) ==> r == t
    ensures |r.rows| == |t.rows|
    ensures forall i :: 0 <= i < |t.rows| ==> r.rows[i].idx == t.rows[i].idx
    ensures forall i, c :: 0 <= i < |t.rows| && c in r.cols ==> Get(r.rows[i], c) == Get(t.rows[i], c)
    ensures !IsEmpty(t) ==> forall c :: c in r.cols ==> c in t.cols && (|keep| > 0 ==> c in keep)
  {
    if IsEmpty(t) then t
    else
      var t1 := if |keep| > 0 then Columns.Project(t, Columns.KeepIn(t.cols, keep)) else t;
      var newcols := Columns.KeepIn(reorder, t1.cols);
      if |newcols| > 0 then Columns.Project(t1, newcols) else t1
  }

  /** Which columns survive: the reorder list's surviving columns in its order, else the kept ones in table order. */
  lemma ConfigColumnsOrder(t: Table, keep: seq<string>, reorder: seq<string>)
    requires !IsEmpty(t)
    ensures var kept := if |keep| > 0 then Columns.KeepIn(t.cols, keep) else t.cols;
      ConfigColumnsSpec(t, keep, reorder).cols ==
        (if exists c :: c in reorder && c in kept then Columns.KeepIn(reorder, kept) else kept)
  {
    var kept := if |keep| > 0 then Columns.KeepIn(t.cols, keep) else t.cols;
    var nc := Columns.KeepIn(reorder, kept);
    if exists c :: c in reorder && c in kept {
      var c :| c in reorder && c in kept;
      assert c in nc;
    } else {
      KeepInNone(reorder, kept);
    }
  }

  lemma {:induction false} KeepInNone(s: seq<string>, cols: seq<string>)
    requires forall c :: c in s ==> c !in cols
    ensures Columns.KeepIn(s, cols) == []
    decreases |s|
  {
    if |s| > 0 {
      KeepInNone(s[1..], cols);
    }
  }

  /** `KeepIn` only depends on which of the names are in the second list. */
  lemma {:induction false} KeepInAgree(s: seq<string>, a: seq<string>, b: seq<string>)
    requires forall c :: c in s ==> (c in a <==> c in b)
    ensures Columns.KeepIn(s, a) == Columns.KeepIn(s, b)
    decreases |s|
  {
    if |s| > 0 {
      KeepInAgree(s[1..], a, b);
    }
  }

  /** Applying the same keep/reorder configuration twice is the same as once. */
  lemma ConfigColumnsIdempotent(t: Table, keep: seq<string>, reorder: seq<string>)
    ensures ConfigColumnsSpec(ConfigColumnsSpec(t, keep, reorder), keep, reorder) == ConfigColumnsSpec(t, keep, reorder)
  {
    if !IsEmpty(t) {
      var r := ConfigColumnsSpec(t, keep, reorder);
      if !IsEmpty(r) {
        var t1 := if |keep| > 0 then Columns.Project(t, Columns.KeepIn(t.cols, keep)) else t;
        var nc := Columns.KeepIn(reorder, t1.cols);
        // the second pass keeps every column of `r`
        var r1 := if |keep| > 0 then Columns.Project(r, Columns.KeepIn(r.cols, keep)) else r;
        if |keep| > 0 {
          Columns.KeepInAll(r.cols, keep);
          if |nc| > 0 {
            Columns.ProjectTwice(t1, nc);
          } else {
            Columns.ProjectTwice(t, Columns.KeepIn(t.cols, keep));
          }
        }
        assert r1 == r;
        // and the reorder list picks out the same columns again
        if |nc| > 0 {
          KeepInAgree(reorder, r.cols, t1.cols);
          Columns.ProjectTwice(t1, nc);
        } else {
          assert r.cols == t1.cols;
        }
      }
    }
  }

  // ------------------------------------------------------------ sheet names

  /** The characters Excel refuses in a sheet name. */
  predicate BadChar(c: char) {
    c == '[' || c == ']' || c == ':' || c == '*' || c == '?' || c == '/' || c == '\\'
  }

  function WithoutBadChars(s: string): (r: string)
    ensures |r| <= |s|
    ensures forall i :: 0 <= i < |r| ==> !BadChar(r[i])
    ensures (forall i :: 0 <= i < |s| ==> !BadChar(s[i])) ==> r == s
    decreases |s|
  {
    if |s| == 0 then ""
    else if BadChar(s[0]) then WithoutBadChars(s[1..])
    else [s[0]] + WithoutBadChars(s[1..])
  }

  /** `sanitize_sheet_name`: drop every forbidden character, then keep at most 31. */
  function SanitizeSheetName(name: string): (r: string)
    ensures |r| <= 31
    ensures forall i :: 0 <= i < |r| ==> !BadChar(r[i])
    ensures IsPrefix(r, WithoutBadChars(name))
    ensures |WithoutBadChars(name)| <= 31 ==> r == WithoutBadChars(name)
  {
    var s := WithoutBadChars(name);
    if |s| <= 31 then s else s[..31]
  }

  /** A name that is already acceptable is kept, so sanitising twice equals sanitising once. */
  lemma SanitizeIdempotent(name: string)
    ensures (forall i :: 0 <= i < |name| ==> !BadChar(name[i])) && |name| <= 31 ==> SanitizeSheetName(name) == name
    ensures SanitizeSheetName(SanitizeSheetName(name)) == SanitizeSheetName(name)
  {
  }

  // ---------------------------------------------------------- per-user run

  /** The shared edits of a batch configuration file. */
  datatype BatchConfig = BatchConfig(filters: seq<BatchFilter>, logic: string, sorts: seq<BatchSort>,
                                     keep: seq<string>, reorder: seq<string>)

  /** The lower-cased, trimmed activity contains one of the confirmation kinds. */
  predicate ActivityMatches(v: string) {
    IsSubstring("trade cnfm", v) || IsSubstring("cxnc cnfm", v) || IsSubstring("modf confirmation", v)
  }

  /** The activity text of a row: trimmed and lower-cased, "" when the table has no such column. */
  function ActivityText(r: Row, cols: seq<string>, activityCol: string): string {
    if activityCol in cols then Lower(Strip(Str(Get(r, activityCol)))) else ""
  }

  function UserMask(t: Table, userCol: string, user: string): (m: seq<bool>)
    ensures |m| == |t.rows|
  {
    seq(|t.rows|, i requires 0 <= i < |t.rows| => Str(Get(t.rows[i], userCol)) == user)
  }

  function ActivityMask(t: Table, activityCol: string): (m: seq<bool>)
    ensures |m| == |t.rows|
  {
    seq(|t.rows|, i requires 0 <= i < |t.rows| => ActivityMatches(ActivityText(t.rows[i], t.cols, activityCol)))
  }

  /** The sheet of one user: their rows, the activity filter, then the shared filters, sort and columns. */
  function UserSheet(t: Table, user: string, cfg: BatchConfig, userCol: string, activityCol: string): Table {
    var sub := Table(t.cols, Select(t.rows, UserMask(t, userCol, user)));
    if IsEmpty(sub) then Table(t.cols, [])
    else
      var act := Table(sub.cols, Select(sub.rows, ActivityMask(sub, activityCol)));
      var f := ConfigFiltersSpec(act, cfg.filters, cfg.logic, Some(t));
      ConfigColumnsSpec(ConfigSortsSpec(f, cfg.sorts), cfg.keep, cfg.reorder)
  }

  /**
   * `process_for_users`: one sheet per listed user; `None` when there is a
   * user to process and the user column is missing (the lookup raises).
   */
  method ProcessForUsers(t: Table, users: seq<string>, cfg: BatchConfig, userCol: string, activityCol: string)
    returns (res: Option<map<string, Table>>)
    ensures res.None? <==> |users| > 0 && userCol !in t.cols
    ensures res.Some? ==> res.value.Keys == set u | u in users
    ensures res.Some? ==> forall u :: u in users ==> res.value[u] == UserSheet(t, u, cfg, userCol, activityCol)
  {
    if |users| > 0 && userCol !in t.cols {
      return None;
    }
    var out: map<string, Table> := map[];
    var i := 0;
    while i < |users|
      invariant 0 <= i <= |users|
      invariant out.Keys == set u | u in users[..i]
      invariant forall u :: u in users[..i] ==> out[u] == UserSheet(t, u, cfg, userCol, activityCol)
    {
      var user := users[i];
      assert users[..i + 1] == users[..i] + [user];
      var sub := Table(t.cols, Select(t.rows, UserMask(t, userCol, user)));
      if IsEmpty(sub) {
        out := out[user := Table(t.cols, [])];
      } else {
        var act := Table(sub.cols, Select(sub.rows, ActivityMask(sub, activityCol)));
        var f := ApplyConfigFilters(act, cfg.filters, cfg.logic, Some(t));
        var s := ApplyConfigSorts(f, cfg.sorts);
        out := out[user := ConfigColumnsSpec(s, cfg.keep, cfg.reorder)];
      }
      i := i + 1;
    }
    assert users[..|users|] == users;
    return Some(out);
  }

  /** `r` comes from `src`: same label, same cells on `cols`. */
  predicate Origin(r: Row, src: Row, cols: seq<string>) {
    r.idx == src.idx && forall c :: c in cols ==> Get(r, c) == Get(src, c)
  }

  lemma {:induction false} SubseqMembers<T>(a: seq<T>, b: seq<T>, x: T)
    requires Subseq(a, b) && x in a
    ensures x in b
    decreases |b|
  {
    if a[0] == b[0] && Subseq(a[1..], b[1..]) {
      if x != a[0] {
        SubseqMembers(a[1..], b[1..], x);
      }
    } else {
      SubseqMembers(a, b[1..], x);
    }
  }

  /** A row of `t` whose user cell reads as `user` and whose activity is a confirmation. */
  predicate UserRow(x: Row, t: Table, user: string, userCol: string, activityCol: string) {
    x in t.rows && Str(Get(x, userCol)) == user && ActivityMatches(ActivityText(x, t.cols, activityCol))
  }

  /** The rows left after the user and activity masks are user rows. */
  lemma ActivityRows(t: Table, user: string, userCol: string, activityCol: string, x: Row)
    requires x in Select(Select(t.rows, UserMask(t, userCol, user)),
                         ActivityMask(Table(t.cols, Select(t.rows, UserMask(t, userCol, user))), activityCol))
    ensures UserRow(x, t, user, userCol, activityCol)
  {
    var um := UserMask(t, userCol, user);
    var sub := Table(t.cols, Select(t.rows, um));
    var am := ActivityMask(sub, activityCol);
    SelectMembers(sub.rows, am, x);
    var k :| 0 <= k < |sub.rows| && am[k] && sub.rows[k] == x;
    assert ActivityMatches(ActivityText(x, t.cols, activityCol));
    SelectMembers(t.rows, um, x);
    var j :| 0 <= j < |t.rows| && um[j] && t.rows[j] == x;
    assert Str(Get(x, userCol)) == user;
  }

  /**
   * Every row of a user's sheet comes from a row of the input table whose
   * user cell reads as that user and whose activity is a confirmation.
   */
  lemma UserSheetRows(t: Table, user: string, cfg: BatchConfig, userCol: string, activityCol: string)
    ensures var r := UserSheet(t, user, cfg, userCol, activityCol);
      forall j :: 0 <= j < |r.rows| ==>
        exists x :: UserRow(x, t, user, userCol, activityCol) && Origin(r.rows[j], x, r.cols)
  {
    var sub := Table(t.cols, Select(t.rows, UserMask(t, userCol, user)));
    if !IsEmpty(sub) {
      var act := Table(sub.cols, Select(sub.rows, ActivityMask(sub, activityCol)));
      var f := ConfigFiltersSpec(act, cfg.filters, cfg.logic, Some(t));
      var s := ConfigSortsSpec(f, cfg.sorts);
      var r := ConfigColumnsSpec(s, cfg.keep, cfg.reorder);
      ConfigFiltersSubset(act, cfg.filters, cfg.logic, Some(t));
      ConfigSortsFacts(f, cfg.sorts);
      forall j | 0 <= j < |r.rows|
        ensures exists x :: UserRow(x, t, user, userCol, activityCol) && Origin(r.rows[j], x, r.cols)
      {
        var x := s.rows[j];
        assert x in multiset(s.rows);
        SubseqMembers(f.rows, act.rows, x);
        ActivityRows(t, user, userCol, activityCol, x);
        assert Origin(r.rows[j], x, r.cols);
      }
    }
  }

  /** Without an activity column no row is a confirmation, so every user's sheet is empty. */
  lemma NoActivityColumn(t: Table, user: string, cfg: BatchConfig, userCol: string, activityCol: string)
    requires activityCol !in t.cols
    ensures |UserSheet(t, user, cfg, userCol, activityCol).rows| == 0
  {
    var sub := Table(t.cols, Select(t.rows, UserMask(t, userCol, user)));
    assert forall i :: 0 <= i < |sub.rows| ==> !ActivityMask(sub, activityCol)[i];
    NoneSelected(sub.rows, ActivityMask(sub, activityCol));
  }

  lemma {:induction false} NoneSelected<T>(xs: seq<T>, m: seq<bool>)
    requires |m| == |xs| && forall i :: 0 <= i < |m| ==> !m[i]
    ensures Select(xs, m) == []
    decreases |xs|
  {
    if |xs| > 0 {
      NoneSelected(xs[1..], m[1..]);
    }
  }
}
