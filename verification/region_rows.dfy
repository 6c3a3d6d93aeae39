/** The target and desired region tables of the MCS dialog: the check that
    runs over every row before a computation, and the grouping of the rows
    into one system of relations per region number. */
module RegionRows {
  import opened Wrappers
  import opened RegionTokens
  import opened RegionRules

  /** One row of a region table: the region number, the left-hand side, the
      relation shown in the combo box ("≤" or "≥") and the bound. */
  datatype RegionRow = RegionRow(regionNo: string, lhs: string, relation: string, rhs: string)

  const RightErrorHead: string := "ERROR in "
  const RightErrorTail: string := ":\nRight equation must be a number\n"

  /** The right-hand side must be a number, that is, `float()` must accept it. */
  function CheckRightMcsEquation(equation: string, isNumber: string -> bool): (error: string)
    ensures error == "" <==> isNumber(equation)
    ensures error != "" ==> RightErrorHead <= error && equation <= error[|RightErrorHead|..]
  {
    if isNumber(equation) then "" else RightErrorHead + equation + RightErrorTail
  }

  // ---------------------------------------------------------------------
  // Checking the tables

  /** A target row is always checked on both sides. */
  function TargetRowErrors(row: RegionRow, modelIds: seq<string>, isNumber: string -> bool): string {
    LeftErrorText(row.lhs, modelIds, isNumber) + CheckRightMcsEquation(row.rhs, isNumber)
  }

  /** A desired row is checked only on the sides that are filled in. */
  function DesiredRowErrors(row: RegionRow, modelIds: seq<string>, isNumber: string -> bool): string {
    (if |row.lhs| > 0 then LeftErrorText(row.lhs, modelIds, isNumber) else "")
    + (if |row.rhs| > 0 then CheckRightMcsEquation(row.rhs, isNumber) else "")
  }

  /** The reports of a sequence of rows, one after the other. */
  function Concat<T>(xs: seq<T>, render: T -> string): string
    decreases |xs|
  {
    if xs == [] then "" else Concat(xs[..|xs| - 1], render) + render(xs[|xs| - 1])
  }

  function TargetErrors(rows: seq<RegionRow>, modelIds: seq<string>, isNumber: string -> bool): string {
    Concat(rows, row => TargetRowErrors(row, modelIds, isNumber))
  }

  function DesiredErrors(rows: seq<RegionRow>, modelIds: seq<string>, isNumber: string -> bool): string {
    Concat(rows, row => DesiredRowErrors(row, modelIds, isNumber))
  }

  /** The whole report: the target rows in table order, then the desired rows. */
  function McsEquationErrors(targets: seq<RegionRow>, desired: seq<RegionRow>, modelIds: seq<string>,
                             isNumber: string -> bool): string {
    TargetErrors(targets, modelIds, isNumber) + DesiredErrors(desired, modelIds, isNumber)
  }

  predicate TargetRowValid(row: RegionRow, modelIds: seq<string>, isNumber: string -> bool) {
    ValidLeft(row.lhs, modelIds, isNumber) && isNumber(row.rhs)
  }

  predicate DesiredRowValid(row: RegionRow, modelIds: seq<string>, isNumber: string -> bool) {
    && (|row.lhs| > 0 ==> ValidLeft(row.lhs, modelIds, isNumber))
    && (|row.rhs| > 0 ==> isNumber(row.rhs))
  }

  lemma TargetRowErrorsEmptyIff(row: RegionRow, modelIds: seq<string>, isNumber: string -> bool)
    ensures TargetRowErrors(row, modelIds, isNumber) == "" <==> TargetRowValid(row, modelIds, isNumber)
  {
    LeftErrorTextEmptyIff(row.lhs, modelIds, isNumber);
  }

  lemma DesiredRowErrorsEmptyIff(row: RegionRow, modelIds: seq<string>, isNumber: string -> bool)
    ensures DesiredRowErrors(row, modelIds, isNumber) == "" <==> DesiredRowValid(row, modelIds, isNumber)
  {
    LeftErrorTextEmptyIff(row.lhs, modelIds, isNumber);
  }

  lemma {:induction false} ConcatEmptyIff<T>(xs: seq<T>, render: T -> string)
    ensures Concat(xs, render) == "" <==> forall i :: 0 <= i < |xs| ==> render(xs[i]) == ""
    decreases |xs|
  {
    if xs != [] {
      var init := xs[..|xs| - 1];
      ConcatEmptyIff(init, render);
      assert forall i :: 0 <= i < |init| ==> init[i] == xs[i];
    }
  }

  /** The report of a table is the reports of its parts, in order. */
  lemma {:induction false} ConcatAppend<T>(a: seq<T>, b: seq<T>, render: T -> string)
    ensures Concat(a + b, render) == Concat(a, render) + Concat(b, render)
    decreases |b|
  {
    if b != [] {
      var init := b[..|b| - 1];
      assert (a + b)[..|a + b| - 1] == a + init;
      ConcatAppend(a, init, render);
    } else {
      assert a + b == a;
    }
  }

  /** The target report is empty exactly when every target row is valid. */
  lemma TargetErrorsEmptyIff(rows: seq<RegionRow>, modelIds: seq<string>, isNumber: string -> bool)
    ensures TargetErrors(rows, modelIds, isNumber) == ""
            <==> forall i :: 0 <= i < |rows| ==> TargetRowValid(rows[i], modelIds, isNumber)
  {
    ConcatEmptyIff(rows, row => TargetRowErrors(row, modelIds, isNumber));
    forall i | 0 <= i < |rows|
      ensures TargetRowErrors(rows[i], modelIds, isNumber) == "" <==> TargetRowValid(rows[i], modelIds, isNumber)
    {
      TargetRowErrorsEmptyIff(rows[i], modelIds, isNumber);
    }
  }

  /** The desired report is empty exactly when every desired row is valid. */
  lemma DesiredErrorsEmptyIff(rows: seq<RegionRow>, modelIds: seq<string>, isNumber: string -> bool)
    ensures DesiredErrors(rows, modelIds, isNumber) == ""
            <==> forall i :: 0 <= i < |rows| ==> DesiredRowValid(rows[i], modelIds, isNumber)
  {
    ConcatEmptyIff(rows, row => DesiredRowErrors(row, modelIds, isNumber));
    forall i | 0 <= i < |rows|
      ensures DesiredRowErrors(rows[i], modelIds, isNumber) == "" <==> DesiredRowValid(rows[i], modelIds, isNumber)
    {
      DesiredRowErrorsEmptyIff(rows[i], modelIds, isNumber);
    }
  }

  /** A computation may start exactly when every target row is valid and
      every filled-in side of every desired row is valid. */
  lemma McsEquationErrorsEmptyIff(targets: seq<RegionRow>, desired: seq<RegionRow>, modelIds: seq<string>,
                                  isNumber: string -> bool)
    ensures McsEquationErrors(targets, desired, modelIds, isNumber) == ""
            <==> && (forall i :: 0 <= i < |targets| ==> TargetRowValid(targets[i], modelIds, isNumber))
                 && (forall i :: 0 <= i < |desired| ==> DesiredRowValid(desired[i], modelIds, isNumber))
  {
    TargetErrorsEmptyIff(targets, modelIds, isNumber);
    DesiredErrorsEmptyIff(desired, modelIds, isNumber);
  }

  lemma ConcatStep<T>(xs: seq<T>, i: nat, render: T -> string)
    requires i < |xs|
    ensures Concat(xs[..i + 1], render) == Concat(xs[..i], render) + render(xs[i])
  {
    assert xs[..i + 1][..i] == xs[..i];
  }

  lemma ConcatSingle<T>(x: T, render: T -> string)
    ensures Concat([x], render) == render(x)
  {
    assert [x][..0] == [];
  }

  /** A desired row's report is its left part followed by its right part. */
  lemma DesiredRowParts(row: RegionRow, left: string, right: string, modelIds: seq<string>, isNumber: string -> bool)
    requires left == if |row.lhs| > 0 then LeftErrorText(row.lhs, modelIds, isNumber) else ""
    requires right == if |row.rhs| > 0 then CheckRightMcsEquation(row.rhs, isNumber) else ""
    ensures left + right == DesiredRowErrors(row, modelIds, isNumber)
  {
  }

  /** The dialog's check over both tables, row by row. */
  method CheckForMcsEquationErrors(targets: seq<RegionRow>, desired: seq<RegionRow>, modelIds: seq<string>,
                                   isNumber: string -> bool)
    returns (errors: string)
    ensures errors == McsEquationErrors(targets, desired, modelIds, isNumber)
  {
    var targetErrors := CheckTargetRows(targets, modelIds, isNumber);
    var desiredErrors := CheckDesiredRows(desired, modelIds, isNumber);
    errors := targetErrors + desiredErrors;
  }

  /** The first loop of the check: both sides of every target row. */
  method CheckTargetRows(rows: seq<RegionRow>, modelIds: seq<string>, isNumber: string -> bool)
    returns (errors: string)
    ensures errors == TargetErrors(rows, modelIds, isNumber)
  {
    errors := "";
    for i := 0 to |rows|
      invariant errors == TargetErrors(rows[..i], modelIds, isNumber)
    {
      ConcatStep(rows, i, row => TargetRowErrors(row, modelIds, isNumber));
      var left := CheckLeftMcsEquation(rows[i].lhs, modelIds, isNumber);
      var right := CheckRightMcsEquation(rows[i].rhs, isNumber);
      errors := errors + (left + right);
    }
    assert rows[..|rows|] == rows;
  }

  /** The second loop of the check: the filled-in sides of every desired row. */
  method CheckDesiredRows(rows: seq<RegionRow>, modelIds: seq<string>, isNumber: string -> bool)
    returns (errors: string)
    ensures errors == DesiredErrors(rows, modelIds, isNumber)
  {
    errors := "";
    for i := 0 to |rows|
      invariant errors == DesiredErrors(rows[..i], modelIds, isNumber)
    {
      ConcatStep(rows, i, row => DesiredRowErrors(row, modelIds, isNumber));
      var left, right := "", "";
      if |rows[i].lhs| > 0 {
        left := CheckLeftMcsEquation(rows[i].lhs, modelIds, isNumber);
      }
      if |rows[i].rhs| > 0 {
        right := CheckRightMcsEquation(rows[i].rhs, isNumber);
      }
      DesiredRowParts(rows[i], left, right, modelIds, isNumber);
      errors := errors + (left + right);
    }
    assert rows[..|rows|] == rows;
  }

  // ---------------------------------------------------------------------
  // Grouping rows into regions

  /** One relation handed to the inequality parser: left-hand side, "<=" or
      ">=", and the bound as `float()` returned it. */
  datatype Relation<N> = Relation(lhs: string, op: string, bound: N)

  /** A relation labelled with the region number of its row. */
  datatype Entry<N> = Entry(regionNo: string, relation: Relation<N>)

  const LessOrEqual: string := "≤"

  /** "≤" in the combo box becomes "<="; anything else becomes ">=". */
  function RelationOp(relation: string): (op: string)
    ensures op == "<=" || op == ">="
    ensures op == "<=" <==> relation == LessOrEqual
  {
    if relation == LessOrEqual then "<=" else ">="
  }

  /** The rows that take part in a region: region number and left-hand side
      both filled in. With `skipBlankBounds` a row also needs a bound; the
      dialog as written does not ask for one. */
  predicate Kept(row: RegionRow, skipBlankBounds: bool) {
    |row.regionNo| > 0 && |row.lhs| > 0 && (skipBlankBounds ==> |row.rhs| > 0)
  }

  function EntryOf<N>(row: RegionRow, bound: N): Entry<N> {
    Entry(row.regionNo, Relation(row.lhs, RelationOp(row.relation), bound))
  }

  /** The kept rows as relations, in table order; `None` when the bound of a
      kept row is not a number (the `ValueError` of `float()`). */
  function Entries<N>(rows: seq<RegionRow>, parse: string -> Option<N>, skipBlankBounds: bool): Option<seq<Entry<N>>>
    decreases |rows|
  {
    if rows == [] then Some([])
    else
      var row := rows[|rows| - 1];
      match Entries(rows[..|rows| - 1], parse, skipBlankBounds)
      case None => None
      case Some(es) =>
        if !Kept(row, skipBlankBounds) then Some(es)
        else match parse(row.rhs)
          case None => None
          case Some(bound) => Some(es + [EntryOf(row, bound)])
  }

  /** The region numbers in the order of their first appearance, each once:
      the keys of the dictionary the dialog fills with `setdefault`. */
  function RegionNumbers<N>(es: seq<Entry<N>>): (keys: seq<string>)
    ensures forall k :: k in keys <==> exists e :: e in es && e.regionNo == k
    ensures forall i, j :: 0 <= i < j < |keys| ==> keys[i] != keys[j]
    decreases |es|
  {
    if es == [] then []
    else
      var keys := RegionNumbers(es[..|es| - 1]);
      var e := es[|es| - 1];
      assert es == es[..|es| - 1] + [e];
      if e.regionNo in keys then keys else keys + [e.regionNo]
  }

  /** The relations of one region, in table order. */
  function Group<N>(es: seq<Entry<N>>, regionNo: string): seq<Relation<N>>
    decreases |es|
  {
    if es == [] then []
    else
      var e := es[|es| - 1];
      Group(es[..|es| - 1], regionNo) + (if e.regionNo == regionNo then [e.relation] else [])
  }

  function GroupsOf<N>(es: seq<Entry<N>>, keys: seq<string>): seq<seq<Relation<N>>>
    decreases |keys|
  {
    if keys == [] then [] else GroupsOf(es, keys[..|keys| - 1]) + [Group(es, keys[|keys| - 1])]
  }

  /** What the dialog hands on for one table: the groups in the order of the
      dictionary's values, or `None` when `float()` raised. */
  function GroupRegions<N>(rows: seq<RegionRow>, parse: string -> Option<N>, skipBlankBounds: bool)
    : Option<seq<seq<Relation<N>>>>
  {
    match Entries(rows, parse, skipBlankBounds)
    case None => None
    case Some(es) => Some(GroupsOf(es, RegionNumbers(es)))
  }

  function Flatten<T>(groups: seq<seq<T>>): seq<T>
    decreases |groups|
  {
    if groups == [] then [] else Flatten(groups[..|groups| - 1]) + groups[|groups| - 1]
  }

  function RelationsOf<N>(es: seq<Entry<N>>): seq<Relation<N>>
    decreases |es|
  {
    if es == [] then [] else RelationsOf(es[..|es| - 1]) + [es[|es| - 1].relation]
  }

  // ---------------------------------------------------------------------
  // Properties of the grouping

  /** Grouping fails exactly when some kept row has a bound that is not a number. */
  lemma {:induction false} EntriesFailIff<N>(rows: seq<RegionRow>, parse: string -> Option<N>, skipBlankBounds: bool)
    ensures Entries(rows, parse, skipBlankBounds).None?
            <==> exists i :: 0 <= i < |rows| && Kept(rows[i], skipBlankBounds) && parse(rows[i].rhs).None?
    decreases |rows|
  {
    if rows != [] {
      var init := rows[..|rows| - 1];
      EntriesFailIff(init, parse, skipBlankBounds);
      assert forall i :: 0 <= i < |init| ==> init[i] == rows[i];
    }
  }

  /** A relation is in a region's group exactly when a kept row of that
      region produced it. */
  lemma {:induction false} GroupMembers<N>(es: seq<Entry<N>>, regionNo: string, r: Relation<N>)
    ensures r in Group(es, regionNo) <==> Entry(regionNo, r) in es
    decreases |es|
  {
    if es != [] {
      var init := es[..|es| - 1];
      GroupMembers(init, regionNo, r);
      assert es == init + [es[|es| - 1]];
    }
  }

  /** A region's group is non-empty exactly when its number is a key. */
  lemma {:induction false} GroupNonEmptyIff<N>(es: seq<Entry<N>>, regionNo: string)
    ensures |Group(es, regionNo)| > 0 <==> regionNo in RegionNumbers(es)
    decreases |es|
  {
    if es != [] {
      var init := es[..|es| - 1];
      GroupNonEmptyIff(init, regionNo);
      assert es == init + [es[|es| - 1]];
    }
  }

  lemma {:induction false} GroupsOfShape<N>(es: seq<Entry<N>>, keys: seq<string>)
    ensures |GroupsOf(es, keys)| == |keys|
    ensures forall j :: 0 <= j < |keys| ==> GroupsOf(es, keys)[j] == Group(es, keys[j])
    decreases |keys|
  {
    if keys != [] {
      GroupsOfShape(es, keys[..|keys| - 1]);
    }
  }

  /** Every region handed on has at least one relation, and region j holds
      exactly the relations of the j-th region number. */
  lemma GroupsNonEmpty<N>(es: seq<Entry<N>>)
    ensures |GroupsOf(es, RegionNumbers(es))| == |RegionNumbers(es)|
    ensures forall j :: 0 <= j < |RegionNumbers(es)| ==> |GroupsOf(es, RegionNumbers(es))[j]| > 0
  {
    var keys := RegionNumbers(es);
    GroupsOfShape(es, keys);
    forall j | 0 <= j < |keys|
      ensures |GroupsOf(es, keys)[j]| > 0
    {
      GroupNonEmptyIff(es, keys[j]);
    }
  }

  /** The region numbers of a prefix are a prefix of the region numbers:
      a region keeps the place of its first row. */
  lemma {:induction false} RegionNumbersPrefix<N>(es: seq<Entry<N>>, m: nat)
    requires m <= |es|
    ensures RegionNumbers(es[..m]) <= RegionNumbers(es)
    decreases |es|
  {
    if m < |es| {
      var init := es[..|es| - 1];
      assert init[..m] == es[..m];
      RegionNumbersPrefix(init, m);
    } else {
      assert es[..m] == es;
    }
  }

  lemma {:induction false} GroupsOfExtended<N>(es: seq<Entry<N>>, keys: seq<string>, e: Entry<N>)
    requires forall i, j :: 0 <= i < j < |keys| ==> keys[i] != keys[j]
    ensures multiset(Flatten(GroupsOf(es + [e], keys)))
            == multiset(Flatten(GroupsOf(es, keys))) + (if e.regionNo in keys then multiset{e.relation} else multiset{})
    decreases |keys|
  {
    if keys != [] {
      var init, k := keys[..|keys| - 1], keys[|keys| - 1];
      assert keys == init + [k];
      GroupsOfExtended(es, init, e);
      GroupSnoc(es, e, k);
      FlattenSnoc(GroupsOf(es + [e], init), Group(es + [e], k));
      FlattenSnoc(GroupsOf(es, init), Group(es, k));
      var after, before := multiset(Flatten(GroupsOf(es + [e], init))), multiset(Flatten(GroupsOf(es, init)));
      var groupAfter, groupBefore := multiset(Group(es + [e], k)), multiset(Group(es, k));
      assert multiset(Flatten(GroupsOf(es + [e], keys))) == after + groupAfter;
      assert multiset(Flatten(GroupsOf(es, keys))) == before + groupBefore;
      if e.regionNo == k {
        assert e.regionNo !in init;
        assert after == before && groupAfter == groupBefore + multiset{e.relation};
      } else if e.regionNo in init {
        assert after == before + multiset{e.relation} && groupAfter == groupBefore;
      } else {
        assert after == before && groupAfter == groupBefore;
      }
    }
  }

  lemma GroupSnoc<N>(es: seq<Entry<N>>, e: Entry<N>, regionNo: string)
    ensures Group(es + [e], regionNo) == Group(es, regionNo) + (if e.regionNo == regionNo then [e.relation] else [])
  {
    assert (es + [e])[..|es|] == es;
  }

  lemma FlattenSnoc<T>(groups: seq<seq<T>>, g: seq<T>)
    ensures Flatten(groups + [g]) == Flatten(groups) + g
  {
    assert (groups + [g])[..|groups|] == groups;
  }

  /** Grouping neither drops nor duplicates a relation: the groups together
      are a permutation of the kept rows' relations. */
  lemma {:induction false} GroupingKeepsRelations<N>(es: seq<Entry<N>>)
    ensures multiset(Flatten(GroupsOf(es, RegionNumbers(es)))) == multiset(RelationsOf(es))
    decreases |es|
  {
    if es != [] {
      var init, e := es[..|es| - 1], es[|es| - 1];
      assert es == init + [e];
      var keys := RegionNumbers(init);
      GroupingKeepsRelations(init);
      GroupsOfExtended(init, keys, e);
      if e.regionNo !in keys {
        GroupNonEmptyIff(init, e.regionNo);
        assert keys + [e.regionNo] == RegionNumbers(es);
        assert (keys + [e.regionNo])[..|keys|] == keys;
      }
    }
  }

  /** The dialog's loop: `setdefault(p1, []).append((p2, p3, p4))` over the
      rows, then the dictionary's values in insertion order. */
  method GroupRegionRows<N>(rows: seq<RegionRow>, parse: string -> Option<N>, skipBlankBounds: bool)
    returns (groups: Option<seq<seq<Relation<N>>>>)
    ensures groups == GroupRegions(rows, parse, skipBlankBounds)
  {
    var keys: seq<string> := [];
    var table: map<string, seq<Relation<N>>> := map[];
    ghost var es: seq<Entry<N>> := [];
    for i := 0 to |rows|
      invariant Entries(rows[..i], parse, skipBlankBounds) == Some(es)
      invariant keys == RegionNumbers(es)
      invariant forall k :: k in table <==> k in keys
      invariant forall k :: k in table ==> table[k] == Group(es, k)
    {
      EntriesStep(rows, i, parse, skipBlankBounds);
      var row := rows[i];
      if |row.regionNo| > 0 && |row.lhs| > 0 && (skipBlankBounds ==> |row.rhs| > 0) {
        var op := RelationOp(row.relation);
        var bound := parse(row.rhs);
        if bound.None? {
          EntriesFailIff(rows[..i + 1], parse, skipBlankBounds);
          EntriesFailIff(rows, parse, skipBlankBounds);
          return None;
        }
        var relation := Relation(row.lhs, op, bound.value);
        keys, table := SetDefaultAppend(keys, table, es, row.regionNo, relation);
        es := es + [Entry(row.regionNo, relation)];
      }
    }
    assert rows[..|rows|] == rows;
    var values := RegionValues(keys, table, es);
    groups := Some(values);
  }

  lemma EntriesStep<N>(rows: seq<RegionRow>, i: nat, parse: string -> Option<N>, skipBlankBounds: bool)
    requires i < |rows|
    ensures Entries(rows[..i + 1], parse, skipBlankBounds)
            == match Entries(rows[..i], parse, skipBlankBounds)
               case None => None
               case Some(es) =>
                 if !Kept(rows[i], skipBlankBounds) then Some(es)
                 else match parse(rows[i].rhs)
                   case None => None
                   case Some(bound) => Some(es + [EntryOf(rows[i], bound)])
  {
    assert rows[..i + 1][..i] == rows[..i];
  }

  /** `d.setdefault(regionNo, []).append(relation)`, with the dictionary's
      key order kept beside it. */
  method SetDefaultAppend<N>(keys: seq<string>, table: map<string, seq<Relation<N>>>, ghost es: seq<Entry<N>>,
                             regionNo: string, relation: Relation<N>)
    returns (keys': seq<string>, table': map<string, seq<Relation<N>>>)
    requires keys == RegionNumbers(es)
    requires forall k :: k in table <==> k in keys
    requires forall k :: k in table ==> table[k] == Group(es, k)
    ensures keys' == RegionNumbers(es + [Entry(regionNo, relation)])
    ensures forall k :: k in table' <==> k in keys'
    ensures forall k :: k in table' ==> table'[k] == Group(es + [Entry(regionNo, relation)], k)
  {
    var group := if regionNo in table then table[regionNo] else [];
    GroupNonEmptyIff(es, regionNo);
    table' := table[regionNo := group + [relation]];
    keys' := if regionNo in keys then keys else keys + [regionNo];
    assert (es + [Entry(regionNo, relation)])[..|es|] == es;
    forall k | k in table'
      ensures table'[k] == Group(es + [Entry(regionNo, relation)], k)
    {
      GroupSnoc(es, Entry(regionNo, relation), k);
    }
  }

  /** `list(d.values())`: the groups in the order their keys were inserted. */
  method RegionValues<N>(keys: seq<string>, table: map<string, seq<Relation<N>>>, ghost es: seq<Entry<N>>)
    returns (values: seq<seq<Relation<N>>>)
    requires forall k :: k in keys ==> k in table && table[k] == Group(es, k)
    ensures values == GroupsOf(es, keys)
  {
    values := [];
    for j := 0 to |keys|
      invariant values == GroupsOf(es, keys[..j])
    {
      assert keys[..j + 1][..j] == keys[..j];
      values := values + [table[keys[j]]];
    }
    assert keys[..|keys|] == keys;
  }

  // ---------------------------------------------------------------------
  // From the check to the grouping

  /** The one `float()` both steps use: the check asks whether it accepts a
      text, the grouping takes the value it returns. */
  function Accepts<N>(parse: string -> Option<N>): string -> bool {
    s => parse(s).Some?
  }

  /** As written, the check skips an empty desired bound but the grouping
      keeps the row and calls `float("")`, which raises: a desired row with a
      region number and a left-hand side but no bound passes the check and
      then aborts the computation. */
  lemma BlankDesiredBoundPassesCheckThenRaises<N>(modelIds: seq<string>, parse: string -> Option<N>)
    requires "R1" in modelIds
    requires parse("").None? && parse("R1").None?
    ensures var row := RegionRow("1", "R1", LessOrEqual, "");
            && McsEquationErrors([], [row], modelIds, Accepts(parse)) == ""
            && GroupRegions([row], parse, false) == None
  {
    var row := RegionRow("1", "R1", LessOrEqual, "");
    assert IsWord("R1");
    BlankBoundRowPassesCheck(row, modelIds, Accepts(parse));
    BlankBoundRowRaises(row, parse);
  }

  /** A desired row whose left side is one known reaction and whose bound is
      blank raises no report. */
  lemma BlankBoundRowPassesCheck(row: RegionRow, modelIds: seq<string>, isNumber: string -> bool)
    requires row.lhs != [] && IsWord(row.lhs) && row.lhs in modelIds && !isNumber(row.lhs)
    requires row.rhs == ""
    ensures McsEquationErrors([], [row], modelIds, isNumber) == ""
  {
    SingleReactionAccepted(row.lhs, modelIds, isNumber);
    DesiredRowParts(row, "", "", modelIds, isNumber);
    ConcatSingle(row, r => DesiredRowErrors(r, modelIds, isNumber));
    assert TargetErrors([], modelIds, isNumber) == "";
  }

  /** The same row stops the grouping that keeps blank bounds. */
  lemma BlankBoundRowRaises<N>(row: RegionRow, parse: string -> Option<N>)
    requires row.regionNo != [] && row.lhs != [] && parse(row.rhs).None?
    ensures GroupRegions([row], parse, false) == None
  {
    EntriesFailIff([row], parse, false);
    assert Kept([row][0], false);
  }

  /** Corrected: once blank bounds are skipped in the desired table, every
      pair of tables that passes the check groups without error. */
  lemma CheckedRegionsGroup<N>(targets: seq<RegionRow>, desired: seq<RegionRow>, modelIds: seq<string>,
                               parse: string -> Option<N>)
    requires McsEquationErrors(targets, desired, modelIds, Accepts(parse)) == ""
    ensures GroupRegions(targets, parse, false).Some?
    ensures GroupRegions(desired, parse, true).Some?
  {
    McsEquationErrorsEmptyIff(targets, desired, modelIds, Accepts(parse));
    EntriesFailIff(targets, parse, false);
    EntriesFailIff(desired, parse, true);
  }

  const RegionErrorIntro: string :=
    "Cannot perform MCS calculation due to the following error(s) in the given target and/or desired regions:\n"

  /** What pressing "Compute" leads to: the warning with the report, or the
      grouped target and desired regions handed on to the enumeration. */
  datatype Submission<N> =
    | RegionError(message: string)
    | Regions(targets: seq<seq<Relation<N>>>, desired: seq<seq<Relation<N>>>)

  /** `compute` and the grouping steps of `compute_optlang`, with the
      desired table grouped as corrected: a submission that passes the check
      always reaches the enumeration. */
  method Compute<N>(targets: seq<RegionRow>, desired: seq<RegionRow>, modelIds: seq<string>,
                    parse: string -> Option<N>)
    returns (s: Submission<N>)
    ensures s.RegionError? <==> McsEquationErrors(targets, desired, modelIds, Accepts(parse)) != ""
    ensures s.RegionError? ==> s.message == RegionErrorIntro + McsEquationErrors(targets, desired, modelIds, Accepts(parse))
    ensures s.Regions? ==> && GroupRegions(targets, parse, false) == Some(s.targets)
                           && GroupRegions(desired, parse, true) == Some(s.desired)
  {
    var errors := CheckForMcsEquationErrors(targets, desired, modelIds, Accepts(parse));
    if errors != "" {
      return RegionError(RegionErrorIntro + errors);
    }
    CheckedRegionsGroup(targets, desired, modelIds, parse);
    var targetRegions := GroupRegionRows(targets, parse, false);
    var desiredRegions := GroupRegionRows(desired, parse, true);
    return Regions(targetRegions.value, desiredRegions.value);
  }

  /** Target rows are checked even when left blank; desired rows are not. */
  lemma BlankRowsChecked(modelIds: seq<string>, isNumber: string -> bool)
    requires !isNumber("")
    ensures TargetErrors([RegionRow("", "", LessOrEqual, "")], modelIds, isNumber) != ""
    ensures DesiredErrors([RegionRow("", "", LessOrEqual, "")], modelIds, isNumber) == ""
  {
    var row := RegionRow("", "", LessOrEqual, "");
    TargetErrorsEmptyIff([row], modelIds, isNumber);
    DesiredErrorsEmptyIff([row], modelIds, isNumber);
  }
}
