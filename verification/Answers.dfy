/** What a client observes: each command's answer, and what later commands see of its
    effect, told through the members of the stored rows alone. */
module Answers {
  import opened Options
  import opened Text
  import opened Json
  import opened Conditions
  import opened Rows
  import opened Ordering
  import opened Query
  import opened Parsers
  import opened Storage
  import opened Commands

  // ---------- the rows a WHERE picks ----------

  predicate Picks(row: Json, conds: seq<Condition>) { conds == [] || Loop(row, conds) == Some(true) }

  function Picked(rows: seq<Json>, conds: seq<Condition>): seq<Json> { Filter(rows, row => Picks(row, conds)) }

  lemma SelectedIsPicked(rows: seq<Json>, conds: seq<Condition>)
    ensures Selected(rows, conds) == Picked(rows, conds)
  {
    hide Loop;
    if conds == [] {
      FilterAll(rows, row => Picks(row, conds));
    } else {
      FilterAgree(rows, Matches(conds), row => Picks(row, conds));
    }
  }

  // ---------- GET ----------

  /** LIMIT, when it is positive. */
  function FirstRows(rows: seq<Json>, limit: int): seq<Json> {
    if 0 < limit < |rows| then rows[..limit] else rows
  }

  /** Field f of the rows that have it, in order; `*` stands for the row itself. */
  predicate ColumnOf(u: seq<Json>, rows: seq<Json>, f: string) {
    if f == "*" then u == rows
    else
      var having := Filter(rows, row => Field(row, f).Some?);
      |u| == |having| && forall i | 0 <= i < |u| :: Field(having[i], f) == Some(u[i])
  }

  /** An alias makes every element the one member of an object. */
  predicate AliasedAs(t: seq<Json>, u: seq<Json>, alias: string) {
    && |t| == |u|
    && forall i | 0 <= i < |t| :: if alias == "" then t[i] == u[i] else t[i].Obj? && t[i].members == [Member(alias, u[i])]
  }

  /** A table answered from rows already filtered and sorted. */
  ghost predicate Lists(t: seq<Json>, rows: seq<Json>, p: GetParams) {
    exists u :: ColumnOf(u, FirstRows(rows, p.limit), p.fields) && AliasedAs(t, u, p.alias)
  }

  lemma FinishedLists(rows: seq<Json>, p: GetParams)
    ensures Lists(Finished(rows, p), rows, p)
  {
    var limited := FirstRows(rows, p.limit);
    var projected := if p.fields == "*" then limited else Projected(limited, p.fields);
    ProjectionIsColumn(limited, p.fields);
    FilterAgree(limited, HasField(p.fields), row => Field(row, p.fields).Some?);
    assert ColumnOf(projected, limited, p.fields);
    assert AliasedAs(Finished(rows, p), projected, p.alias);
  }

  predicate NoClause(p: GetParams) {
    p.conditions == [] && p.groupByKey == "" && p.orderByKey == "" && p.limit == -1 && p.alias == ""
  }

  /** GET answers with a body unless a row meets an unknown connective; the body is
      bare exactly when the query has no clause at all. */
  lemma GetIsAnswered(store: Store, p: GetParams, r: Response)
    requires AllTables(store) && p.dataset in store && Reply(store, Get(p), r)
    ensures r.code == 3 || r.code == 0
    ensures r.code == 3 <==> store[p.dataset] != [] && !ValidLogic(p.conditions)
    ensures r.code == 0 ==> r.payload.Found? && (r.payload.body.Bare? <==> NoClause(p))
  {
    hide Selected, Finished, GroupsOf, IsSortOf, HasKey;
  }

  /** Without GROUP BY and ORDER BY: the picked rows in table order, cut by a positive
      limit, then the column, then the alias. */
  lemma GetLists(store: Store, p: GetParams, r: Response)
    requires AllTables(store) && p.dataset in store && Reply(store, Get(p), r) && r.code == 0
    requires p.groupByKey == "" && p.orderByKey == ""
    ensures r.payload.Found? && r.payload.body.answer.Table?
    ensures Lists(r.payload.body.answer.rows, Picked(store[p.dataset], p.conditions), p)
    ensures r.payload.body.Wrapped? ==> r.payload.body.ignored == 0
  {
    hide Selected, Finished, Lists, Picked;
    SelectedIsPicked(store[p.dataset], p.conditions);
    FinishedLists(Picked(store[p.dataset], p.conditions), p);
  }

  /** Rows in the order their keys' values ask for. */
  ghost predicate SortedByValue(rows: seq<Json>, key: string, desc: bool) {
    forall i, j, a, b | 0 <= i < j < |rows| && Shows(rows[i], key, a) && Shows(rows[j], key, b) ::
      !Precedes(desc, b, a)
  }

  lemma OrderedByValue(rows: seq<Json>, key: string, desc: bool)
    requires Ordered(rows, key, desc)
    ensures SortedByValue(rows, key, desc)
  {
    hide RowLess, Shows, Precedes;
    forall i, j, a, b | 0 <= i < j < |rows| && Shows(rows[i], key, a) && Shows(rows[j], key, b)
      ensures !Precedes(desc, b, a)
    {
      RowsCompareByValue(key, desc, rows[j], rows[i], b, a);
    }
  }

  /** With ORDER BY: of the picked rows those whose key shows a value, sorted by it;
      the others are counted as ignored. */
  lemma GetSorts(store: Store, p: GetParams, r: Response)
    requires AllTables(store) && p.dataset in store && Reply(store, Get(p), r) && r.code == 0
    requires p.groupByKey == "" && p.orderByKey != ""
    ensures r.payload.Found? && r.payload.body.Wrapped? && r.payload.body.answer.Table?
    ensures var picked := Picked(store[p.dataset], p.conditions);
      exists sorted ::
        && Lists(r.payload.body.answer.rows, sorted, p)
        && (forall row :: multiset(sorted)[row] == if Keyed(row, p.orderByKey) then multiset(picked)[row] else 0)
        && SortedByValue(sorted, p.orderByKey, p.orderDesc)
        && r.payload.body.ignored + |sorted| == |picked|
  {
    hide Selected, Finished, Lists, Picked, IsSortOf, SortedByValue, Keyed, HasKey;
    SelectedIsPicked(store[p.dataset], p.conditions);
    var picked := Picked(store[p.dataset], p.conditions);
    var keyed := Filter(picked, HasKey(p.orderByKey));
    var sorted :|
      && IsSortOf(sorted, keyed, p.orderByKey, p.orderDesc)
      && |keyed| <= |picked|
      && r.payload.body == Wrap(p, Table(Finished(sorted, p)), |picked| - |keyed|);
    FinishedLists(sorted, p);
    SortFacts(sorted, keyed, p.orderByKey, p.orderDesc);
    forall row ensures multiset(sorted)[row] == if Keyed(row, p.orderByKey) then multiset(picked)[row] else 0 {
      SortKeepsKeyed(sorted, picked, p.orderByKey, p.orderDesc, row);
    }
  }

  lemma SortFacts(sorted: seq<Json>, keyed: seq<Json>, key: string, desc: bool)
    requires IsSortOf(sorted, keyed, key, desc)
    ensures |sorted| == |keyed| && SortedByValue(sorted, key, desc)
  {
    hide Ordered, SortedByValue;
    assert |multiset(sorted)| == |multiset(keyed)|;
    OrderedByValue(sorted, key, desc);
  }

  /** With GROUP BY: the groups of the picked rows; every other clause but WHERE is
      without effect on them. */
  lemma GetGroups(store: Store, p: GetParams, r: Response)
    requires AllTables(store) && p.dataset in store && Reply(store, Get(p), r) && r.code == 0
    requires p.groupByKey != ""
    ensures r.payload == Found(Wrapped(Grouped(GroupsOf(Picked(store[p.dataset], p.conditions), p.groupByKey)), 0))
  {
    hide Selected, GroupsOf, Picked;
    SelectedIsPicked(store[p.dataset], p.conditions);
  }

  function All(dataset: string): GetParams { NO_PARAMS.(fields := "*", dataset := dataset) }

  /** GET * shows the stored rows. */
  lemma GetShowsTable(store: Store, dataset: string, r: Response)
    requires AllTables(store) && dataset in store && Reply(store, Get(All(dataset)), r)
    ensures r == Response(0, Found(Bare(Table(store[dataset]))))
  {
    assert Finished(store[dataset], All(dataset)) == store[dataset];
  }

  // ---------- REMOVE ----------

  /** REMOVE leaves exactly the rows its conditions do not pick: what GET returned
      before and what is stored after merge back to the old table, and the count
      reported is what is gone. */
  lemma RemoveLeavesTheRest(store: Store, p: RemoveParams, r: Response)
    requires AllTables(store) && p.dataset in store && p.conditions != [] && ValidLogic(p.conditions)
    requires Reply(store, Remove(p), r)
    ensures p.dataset in Update(store, Remove(p))
    ensures var before, after := store[p.dataset], Update(store, Remove(p))[p.dataset];
      && Interleave(Flags(before, row => Picks(row, p.conditions)), Picked(before, p.conditions), after) == before
      && (forall row :: row in after <==> row in before && Loop(row, p.conditions) != Some(true))
      && (forall row :: multiset(after)[row] == if Loop(row, p.conditions) == Some(true) then 0 else multiset(before)[row])
      && r.code == 0 && r.payload.Removed? && r.payload.n + |after| == |before|
  {
    var before, conds := store[p.dataset], p.conditions;
    var pick: Json -> bool := row => Picks(row, conds);
    SelectedIsPicked(before, conds);
    FilterAgree(before, Not(Matches(conds)), Not(pick));
    DeletionSplits(before, pick);
    FilterMembers(before, Not(pick));
    forall row ensures multiset(Filter(before, Not(pick)))[row] ==
      if Loop(row, conds) == Some(true) then 0 else multiset(before)[row]
    {
      FilterCounts(before, Not(pick), row);
    }
    hide Loop;
  }

  /** A connective that is neither AND nor OR: nothing is removed. */
  lemma RefusedRemove(store: Store, p: RemoveParams, r: Response)
    requires AllTables(store) && p.dataset in store && store[p.dataset] != [] && !ValidLogic(p.conditions)
    requires Reply(store, Remove(p), r)
    ensures Update(store, Remove(p)) == store && r == Response(3, Nothing)
  {}

  // ---------- ADD and EMPTY ----------

  ghost predicate Stored(rows: seq<Json>, field: string, v: Json) {
    exists i | 0 <= i < |rows| :: Field(rows[i], field) == Some(v)
  }

  /** An ADD is inserted exactly if its block is an object, its dataset exists and the
      UNIQUE field, when there is one, has a value no stored row has; a value already
      there is code 10, a row without the field 12, a block that does not parse 11. */
  lemma AddIsAnswered(store: Store, a: AddParts, r: Response)
    requires AllTables(store) && Reply(store, Add(a), r)
    ensures r.code == 11 <==> a.row.None?
    ensures r.code == 12 <==> a.row.Some? && a.unique != "" && Field(a.row.value, a.unique) == None
    ensures r.code == 10 <==>
      && a.dataset in store && a.unique != "" && a.row.Some?
      && exists v :: Field(a.row.value, a.unique) == Some(v) && Stored(store[a.dataset], a.unique, v)
    ensures r.code == 2 <==>
      && a.dataset in store && a.row.Some?
      && (a.unique == "" ||
          exists v :: Field(a.row.value, a.unique) == Some(v) && !Stored(store[a.dataset], a.unique, v))
    ensures r.code in {1, 2, 10, 11, 12}
  {
    if a.row.Some? && Field(a.row.value, a.unique).Some? && a.dataset in store {
      var v := Field(a.row.value, a.unique).value;
      assert HasValue(store[a.dataset], a.unique, Some(v)) <==> Stored(store[a.dataset], a.unique, v);
    }
  }

  /** Inserted, the row is the last of the table; otherwise nothing changes. */
  lemma AddThenGet(store: Store, a: AddParts, r: Response, r': Response)
    requires AllTables(store) && a.dataset in store && Reply(store, Add(a), r)
    requires Reply(Update(store, Add(a)), Get(All(a.dataset)), r')
    ensures r.code != 2 ==> Update(store, Add(a)) == store
    ensures r.code == 2 ==>
      a.row.Some? && r' == Response(0, Found(Bare(Table(store[a.dataset] + [a.row.value]))))
  {
    GetShowsTable(Update(store, Add(a)), a.dataset, r');
  }

  lemma EmptyThenGet(store: Store, dataset: string, r: Response)
    requires AllTables(store) && dataset in store
    requires Reply(Update(store, Empty(dataset)), Get(All(dataset)), r)
    ensures r == Response(0, Found(Bare(Table([]))))
    ensures Reply(Update(store, Empty(dataset)), Count(dataset, ""), Response(0, Counted(0)))
  {
    GetShowsTable(Update(store, Empty(dataset)), dataset, r);
  }

  /** Created, a dataset is there and empty; dropped, it is unknown. */
  lemma CreateThenGet(store: Store, dataset: string, r: Response)
    requires AllTables(store) && dataset !in store
    requires Reply(Update(store, Create(dataset)), Get(All(dataset)), r)
    ensures r == Response(0, Found(Bare(Table([]))))
    ensures Update(Update(store, Create(dataset)), Drop(dataset)) == store
  {
    GetShowsTable(Update(store, Create(dataset)), dataset, r);
  }

  // ---------- CHANGE ----------

  /** CHANGE keeps the rows in number and order, gives the field its text in those its
      conditions pick, or in all without conditions, leaves every other field and row
      as it was, and reports how many it picked. */
  lemma ChangeThenGet(store: Store, p: ChangeParams, r: Response, r': Response)
    requires AllTables(store) && p.dataset in store && ValidLogic(p.conditions)
    requires Reply(store, Change(p), r) && Reply(Update(store, Change(p)), Get(All(p.dataset)), r')
    ensures r == Response(0, ChangedRows(|Picked(store[p.dataset], p.conditions)|))
    ensures r'.payload.Found? && r'.payload.body.answer.Table?
    ensures var before, after := store[p.dataset], r'.payload.body.answer.rows;
      && |after| == |before|
      && forall i, f | 0 <= i < |before| ::
           Field(after[i], f) ==
             if f == p.field && Picks(before[i], p.conditions) then Some(Str(p.newValue)) else Field(before[i], f)
  {
    hide Loop, Field;
    GetShowsTable(Update(store, Change(p)), p.dataset, r');
    SelectedIsPicked(store[p.dataset], p.conditions);
    var before := store[p.dataset];
    forall i, f | 0 <= i < |before|
      ensures Field(ChangedRow(before[i], p.conditions, p.field, p.newValue), f) ==
        if f == p.field && Picks(before[i], p.conditions) then Some(Str(p.newValue)) else Field(before[i], f)
    {
      ChangeTouchesOneField(before[i], p.conditions, p.field, p.newValue, f);
    }
    hide ChangedRow, Picked, Selected;
  }

  // ---------- COUNT ----------

  /** A field's text: a string itself, anything else as it is dumped. */
  predicate HasText(row: Json, key: string, value: string) {
    match Field(row, key)
    case Some(v) => (v.Str? && v.s == value) || (!v.Str? && Dump(v) == value)
    case None => false
  }

  /** `COUNT ds key:value`: what stands before the first colon names the field, what
      stands behind it is the text to find. */
  lemma CountIsAnswered(store: Store, dataset: string, key: string, value: string, r: Response)
    requires AllTables(store) && dataset in store
    requires (forall i | 0 <= i < |key| :: key[i] != ':') && Trim(key) == key && Trim(value) == value
    requires Reply(store, Count(dataset, key + ":" + value), r)
    ensures r == Response(0, Counted(|Filter(store[dataset], row => HasText(row, key, value))|))
  {
    hide Dump;
    var condition := key + ":" + value;
    IndexOfIs(condition, ':', |key|);
    assert condition[..|key|] == key && condition[|key| + 1..] == value;
    FilterAgree(store[dataset], CountedBy(key, value), row => HasText(row, key, value));
    hide Trim, CountedBy, HasText;
  }

  /** Without a condition COUNT is the number of rows; without a colon it is refused. */
  lemma CountOfAll(store: Store, dataset: string, condition: string, r: Response)
    requires AllTables(store) && dataset in store && Reply(store, Count(dataset, condition), r)
    ensures condition == "" ==> r == Response(0, Counted(|store[dataset]|))
    ensures condition != "" && (forall i | 0 <= i < |condition| :: condition[i] != ':') ==> r == Response(423, Nothing)
  {
    hide Trim, Filter;
    if forall i | 0 <= i < |condition| :: condition[i] != ':' { IndexOfIs(condition, ':', |condition|); }
  }

  // ---------- datasets that are not there ----------

  /** A command on an unknown dataset changes nothing but by creating it, and is
      answered 1, a drop 567, an ADD possibly for its row first. */
  lemma UnknownDataset(store: Store, cmd: Command, r: Response)
    requires AllTables(store) && Target(cmd).Some? && Target(cmd).value !in store && !cmd.Create?
    requires Reply(store, cmd, r)
    ensures Update(store, cmd) == store
    ensures r.payload == Nothing
    ensures cmd.Drop? ==> r.code == 567
    ensures cmd.Add? ==> r.code in {1, 11, 12}
    ensures !cmd.Drop? && !cmd.Add? ==> r.code == 1
  {}
}
