/** What the handlers compute over a table's rows: GET with WHERE, GROUP BY,
    ORDER BY, LIMIT, projection and alias; REMOVE; CHANGE; COUNT; ADD .. UNIQUE. */
module Query {
  import opened Options
  import opened Text
  import opened Json
  import opened Conditions
  import opened Rows
  import opened Ordering
  import JsonReader

  predicate AllObjects(rows: seq<Json>) { forall i | 0 <= i < |rows| :: rows[i].Obj? }

  // ---------- WHERE ----------

  function Matches(conds: seq<Condition>): Json -> bool { row => Match(row, conds) }

  function Selected(rows: seq<Json>, conds: seq<Condition>): seq<Json> {
    if conds == [] then rows else Filter(rows, Matches(conds))
  }

  /** The filter loop of GET; it fails as soon as a row meets an unknown connective. */
  method ApplyWhere(rows: seq<Json>, conds: seq<Condition>) returns (ok: bool, filtered: seq<Json>)
    ensures ok <==> rows == [] || ValidLogic(conds)
    ensures ok ==> filtered == Selected(rows, conds)
  {
    if conds == [] { return true, rows; }
    filtered := [];
    for i := 0 to |rows|
      invariant filtered == Filter(rows[..i], Matches(conds))
      invariant i > 0 ==> ValidLogic(conds)
    {
      LoopSucceeds(rows[i], conds);
      var known, cond := EvaluateConditions(rows[i], conds, false);
      if !known { return false, []; }
      FilterSnoc(rows, i, Matches(conds));
      if cond { filtered := filtered + [rows[i]]; }
    }
    assert rows[..|rows|] == rows;
    return true, filtered;
  }

  /** The rows the conditions are meant to select. */
  function Intended(conds: seq<Condition>): Json -> bool { row => conds != [] && Fold(row, conds) }

  /** GET never misses an intended row. */
  lemma SelectedContainsIntended(rows: seq<Json>, conds: seq<Condition>)
    requires conds != [] && ValidLogic(conds)
    ensures forall row | row in Filter(rows, Intended(conds)) :: row in Selected(rows, conds)
    ensures |Filter(rows, Intended(conds))| <= |Selected(rows, conds)|
  {
    hide Fold, Loop;
    forall row | row in rows && Intended(conds)(row) ensures Match(row, conds) { FoldImpliesLoop(row, conds); }
    FilterMembers(rows, Intended(conds));
    FilterMembers(rows, Matches(conds));
    FilterMonotone(rows, Intended(conds), Matches(conds));
  }

  /** On a table, GET returns just the intended rows exactly when every row is
      decided by the conditions from the last AND on. */
  lemma SelectedIsIntended(rows: seq<Json>, conds: seq<Condition>)
    requires conds != [] && ValidLogic(conds)
    ensures Selected(rows, conds) == Filter(rows, Intended(conds)) <==>
      forall row | row in rows :: Decided(row, conds)
  {
    hide Fold, Loop, Decided;
    forall row | row in rows
      ensures Decided(row, conds) <==> (Match(row, conds) <==> Fold(row, conds))
    {
      LoopSucceeds(row, conds);
      LoopAgreesWithFold(row, conds);
      var found := Loop(row, conds).value;
      assert Match(row, conds) <==> found;
    }
    if forall row | row in rows :: Decided(row, conds) {
      FilterAgree(rows, Matches(conds), Intended(conds));
    } else {
      var row :| row in rows && !Decided(row, conds);
      FilterMembers(rows, Intended(conds));
      FilterMembers(rows, Matches(conds));
    }
  }

  // ---------- GROUP BY ----------

  /** A row is grouped by its field, by "undefined" when a plain key is missing,
      by null when a dotted path is. */
  function GroupKey(row: Json, key: string): Json {
    if HasDot(key) then GetNested(row, key)
    else match Field(row, key) case Some(v) => v case None => Str("undefined")
  }

  function GroupText(row: Json, key: string): string { Dump(GroupKey(row, key)) }

  function InGroup(key: string, group: string): Json -> bool { row => GroupText(row, key) == group }

  function GroupTexts(rows: seq<Json>, key: string): set<string> {
    set row | row in rows :: GroupText(row, key)
  }

  function GroupsOf(rows: seq<Json>, key: string): map<string, seq<Json>> {
    map group | group in GroupTexts(rows, key) :: Filter(rows, InGroup(key, group))
  }

  function Push(groups: map<string, seq<Json>>, group: string, row: Json): map<string, seq<Json>> {
    groups[group := (if group in groups then groups[group] else []) + [row]]
  }

  method GroupBy(data: seq<Json>, groupKey: string) returns (groups: map<string, seq<Json>>)
    ensures groups == GroupsOf(data, groupKey)
  {
    hide GetNested, Dump, HasDot, Field;
    groups := map[];
    GroupsOfNone(groupKey);
    hide GroupsOf;
    for i := 0 to |data|
      invariant groups == GroupsOf(data[..i], groupKey)
    {
      GroupsSnoc(data[..i], data[i], groupKey);
      assert data[..i + 1] == data[..i] + [data[i]];
      var groupValue := Str("undefined");
      if HasDot(groupKey) {
        groupValue := GetNestedValue(data[i], groupKey);
      } else {
        match Field(data[i], groupKey) {
          case Some(v) => groupValue := v;
          case None =>
        }
      }
      var groupStr := Dump(groupValue);
      assert groupStr == GroupText(data[i], groupKey);
      if groupStr !in groups { groups := groups[groupStr := []]; }
      groups := groups[groupStr := groups[groupStr] + [data[i]]];
    }
    assert data[..|data|] == data;
  }

  lemma GroupsOfNone(key: string)
    ensures GroupsOf([], key) == map[]
  {}

  lemma GroupsSnoc(rows: seq<Json>, row: Json, key: string)
    ensures GroupsOf(rows + [row], key) == Push(GroupsOf(rows, key), GroupText(row, key), row)
  {
    hide GroupText, GroupTexts;
    var g := GroupText(row, key);
    var old', new' := GroupsOf(rows, key), GroupsOf(rows + [row], key);
    GroupTextsSnoc(rows, row, key);
    forall group | group in new' ensures new'[group] == Push(old', g, row)[group] {
      GroupSnoc(rows, row, key, group);
    }
  }

  lemma GroupTextsSnoc(rows: seq<Json>, row: Json, key: string)
    ensures GroupTexts(rows + [row], key) == GroupTexts(rows, key) + {GroupText(row, key)}
  {
    hide GroupText;
    assert row in rows + [row];
    assert forall r | r in rows :: r in rows + [row];
  }

  lemma GroupSnoc(rows: seq<Json>, row: Json, key: string, group: string)
    ensures Filter(rows + [row], InGroup(key, group)) ==
      Filter(rows, InGroup(key, group)) + if GroupText(row, key) == group then [row] else []
    ensures group !in GroupTexts(rows, key) ==> Filter(rows, InGroup(key, group)) == []
  {
    hide GroupText;
    FilterAppend(rows, [row], InGroup(key, group));
    assert [row][1..] == [];
    if group !in GroupTexts(rows, key) { FilterNone(rows, InGroup(key, group)); }
  }

  /** Rows counted over all groups. */
  ghost function Total(groups: map<string, seq<Json>>): nat
    decreases |groups|
  {
    if groups == map[] then 0
    else
      var group :| group in groups;
      |groups[group]| + Total(groups - {group})
  }

  lemma {:induction false} TotalAt(groups: map<string, seq<Json>>, group: string)
    requires group in groups
    ensures Total(groups) == |groups[group]| + Total(groups - {group})
    decreases |groups|
  {
    var first :| first in groups && Total(groups) == |groups[first]| + Total(groups - {first});
    if first != group {
      TotalAt(groups - {first}, group);
      TotalAt(groups - {group}, first);
      assert groups - {first} - {group} == groups - {group} - {first};
    }
  }

  lemma TotalPush(groups: map<string, seq<Json>>, group: string, row: Json)
    ensures Total(Push(groups, group, row)) == Total(groups) + 1
  {
    var pushed := Push(groups, group, row);
    TotalAt(pushed, group);
    if group in groups {
      TotalAt(groups, group);
      assert pushed - {group} == groups - {group};
    } else {
      assert pushed - {group} == groups;
    }
  }

  lemma {:induction false} GroupSizes(rows: seq<Json>, key: string)
    ensures Total(GroupsOf(rows, key)) == |rows|
  {
    if rows == [] {
      assert GroupsOf(rows, key) == map[];
    } else {
      var n := |rows| - 1;
      assert rows == rows[..n] + [rows[n]];
      GroupSizes(rows[..n], key);
      GroupsSnoc(rows[..n], rows[n], key);
      TotalPush(GroupsOf(rows[..n], key), GroupText(rows[n], key), rows[n]);
    }
  }

  /** GROUP BY is a partition: sizes add up, no group is empty, a row is in the
      group of its own key and in no other, and rows share a group exactly when
      their key values are equal. */
  lemma GroupsPartition(rows: seq<Json>, key: string)
    ensures Total(GroupsOf(rows, key)) == |rows|
    ensures forall group | group in GroupsOf(rows, key) :: GroupsOf(rows, key)[group] != []
    ensures forall row, group | row in rows && group in GroupsOf(rows, key) ::
      row in GroupsOf(rows, key)[group] <==> group == GroupText(row, key)
    ensures forall row | row in rows :: GroupText(row, key) in GroupsOf(rows, key)
    ensures forall r, s | r in rows && s in rows ::
      GroupText(r, key) == GroupText(s, key) <==> GroupKey(r, key) == GroupKey(s, key)
  {
    hide GroupKey;
    GroupSizes(rows, key);
    forall group | group in GroupsOf(rows, key) ensures GroupsOf(rows, key)[group] != [] {
      FilterMembers(rows, InGroup(key, group));
      var row :| row in rows && GroupText(row, key) == group;
      assert row in Filter(rows, InGroup(key, group));
    }
    forall row, group | row in rows && group in GroupsOf(rows, key)
      ensures row in GroupsOf(rows, key)[group] <==> group == GroupText(row, key)
    {
      FilterMembers(rows, InGroup(key, group));
    }
    forall r, s | r in rows && s in rows
      ensures GroupText(r, key) == GroupText(s, key) <==> GroupKey(r, key) == GroupKey(s, key)
    {
      JsonReader.DumpInjective(GroupKey(r, key), GroupKey(s, key));
    }
  }

  /** A row is in the group of the text of what its key shows and in no other, each
      group keeps the order of the table, and two rows that show a value share a
      group exactly when they show the same. */
  lemma GroupsByValue(rows: seq<Json>, key: string)
    ensures forall row, v, group | row in rows && Shows(row, key, v) && group in GroupsOf(rows, key) ::
      row in GroupsOf(rows, key)[group] <==> group == Dump(v)
    ensures forall row, v | row in rows && Shows(row, key, v) :: Dump(v) in GroupsOf(rows, key)
    ensures forall group | group in GroupsOf(rows, key) ::
      GroupsOf(rows, key)[group] == Filter(rows, row => row in GroupsOf(rows, key)[group])
    ensures forall r, s, v, w | r in rows && s in rows && Shows(r, key, v) && Shows(s, key, w) ::
      (exists group | group in GroupsOf(rows, key) ::
         r in GroupsOf(rows, key)[group] && s in GroupsOf(rows, key)[group]) <==> v == w
  {
    GroupsPartition(rows, key);
    hide GroupText, Shows, Dump;
    forall row, v | row in rows && Shows(row, key, v) ensures GroupText(row, key) == Dump(v) {
      GroupIsShown(row, key, v);
    }
    forall group | group in GroupsOf(rows, key)
      ensures GroupsOf(rows, key)[group] == Filter(rows, row => row in GroupsOf(rows, key)[group])
    {
      FilterAgree(rows, InGroup(key, group), row => row in GroupsOf(rows, key)[group]);
    }
    hide GroupsOf;
    forall r, s, v, w | r in rows && s in rows && Shows(r, key, v) && Shows(s, key, w)
      ensures (exists group | group in GroupsOf(rows, key) ::
        r in GroupsOf(rows, key)[group] && s in GroupsOf(rows, key)[group]) <==> v == w
    {
      JsonReader.DumpInjective(v, w);
    }
  }

  lemma GroupIsShown(row: Json, key: string, v: Json)
    requires Shows(row, key, v)
    ensures GroupText(row, key) == Dump(v)
  {
    hide Dump;
  }

  /** Where rows without the key end up. */
  lemma GroupOfMissingKey(rows: seq<Json>, row: Json, key: string)
    requires row in rows
    requires if HasDot(key) then GetNested(row, key) == Null else Field(row, key) == None
    ensures var group := if HasDot(key) then "null" else "\"undefined\"";
      group in GroupsOf(rows, key) && row in GroupsOf(rows, key)[group]
  {
    UndefinedText();
    GroupsPartition(rows, key);
    hide GetNested, Quote, GroupsOf;
    assert GroupText(row, key) == if HasDot(key) then "null" else "\"undefined\"";
  }

  lemma UndefinedText()
    ensures Quote("undefined") == "\"undefined\""
  {
    hide Quote, Escaped;
    QuotedAsIs("undefined");
  }

  // ---------- projection and alias ----------

  function Projected(data: seq<Json>, fields: string): seq<Json> {
    if data == [] then []
    else match Field(data[0], fields)
      case Some(v) => [v] + Projected(data[1..], fields)
      case None => Projected(data[1..], fields)
  }

  lemma {:induction false} ProjectedSnoc(data: seq<Json>, row: Json, fields: string)
    ensures Projected(data + [row], fields) ==
      Projected(data, fields) + match Field(row, fields) case Some(v) => [v] case None => []
  {
    if data != [] {
      assert (data + [row])[1..] == data[1..] + [row];
      ProjectedSnoc(data[1..], row, fields);
    } else {
      assert data + [row] == [row] && [row][1..] == [];
    }
  }

  function HasField(fields: string): Json -> bool { row => Contains(row, fields) }

  /** The projection is the column of the rows that have it, in order. */
  lemma {:induction false} ProjectionIsColumn(data: seq<Json>, fields: string)
    ensures var having := Filter(data, HasField(fields));
            && |Projected(data, fields)| == |having|
            && forall i | 0 <= i < |having| :: Field(having[i], fields) == Some(Projected(data, fields)[i])
  {
    if data != [] { ProjectionIsColumn(data[1..], fields); }
  }

  method ApplyProjection(data: seq<Json>, fields: string) returns (projected: seq<Json>)
    ensures projected == if fields == "*" then data else Projected(data, fields)
  {
    if fields == "*" { return data; }
    projected := [];
    for i := 0 to |data|
      invariant projected == Projected(data[..i], fields)
    {
      ProjectedSnoc(data[..i], data[i], fields);
      assert data[..i + 1] == data[..i] + [data[i]];
      match Field(data[i], fields) {
        case Some(v) => projected := projected + [v];
        case None =>
      }
    }
    assert data[..|data|] == data;
  }

  function Aliased(data: seq<Json>, alias: string): (r: seq<Json>)
    ensures |r| == |data| && forall i | 0 <= i < |r| :: r[i] == Obj([Member(alias, data[i])])
  {
    if data == [] then [] else [Obj([Member(alias, data[0])])] + Aliased(data[1..], alias)
  }

  method ApplyAlias(data: seq<Json>, alias: string) returns (aliased: seq<Json>)
    ensures aliased == Aliased(data, alias)
  {
    aliased := [];
    for i := 0 to |data|
      invariant |aliased| == i
      invariant forall k | 0 <= k < i :: aliased[k] == Obj([Member(alias, data[k])])
    {
      aliased := aliased + [Obj([Member(alias, data[i])])];
    }
  }

  // ---------- GET ----------

  datatype GetParams = GetParams(
    fields: string, alias: string, dataset: string, conditions: seq<Condition>,
    groupByKey: string, orderByKey: string, orderDesc: bool, limit: int)

  datatype Answer = Table(rows: seq<Json>) | Grouped(groups: map<string, seq<Json>>)

  /** `responseObj`: the bare result, or an object with "result" and, when some
      rows had no sort key, "ignored". */
  datatype Body = Bare(answer: Answer) | Wrapped(answer: Answer, ignored: nat)

  predicate ExtraClauseUsed(p: GetParams) {
    p.conditions != [] || p.groupByKey != "" || p.orderByKey != "" || p.limit != -1 || p.alias != ""
  }

  function Wrap(p: GetParams, answer: Answer, ignored: nat): Body {
    if ExtraClauseUsed(p) then Wrapped(answer, ignored) else Bare(answer)
  }

  /** LIMIT (only when positive), then the projection, then the alias. */
  function Finished(rows: seq<Json>, p: GetParams): seq<Json> {
    var limited := if p.limit > 0 then Limited(rows, p.limit) else rows;
    var projected := if p.fields == "*" then limited else Projected(limited, p.fields);
    if p.alias == "" then projected else Aliased(projected, p.alias)
  }

  /** The responses GET may give; only the order of tied rows is left open. */
  ghost predicate IsGetBody(rows: seq<Json>, p: GetParams, body: Body) {
    var selected := Selected(rows, p.conditions);
    if p.groupByKey != "" then body == Wrap(p, Grouped(GroupsOf(selected, p.groupByKey)), 0)
    else if p.orderByKey != "" then
      var keyed := Filter(selected, HasKey(p.orderByKey));
      exists sorted ::
        && IsSortOf(sorted, keyed, p.orderByKey, p.orderDesc)
        && |keyed| <= |selected|
        && body == Wrap(p, Table(Finished(sorted, p)), |selected| - |keyed|)
    else body == Wrap(p, Table(Finished(selected, p)), 0)
  }

  /** LIMIT cuts before the projection drops rows: at most k elements, and the
      column is that of the first k rows. */
  lemma LimitBeforeProjection(rows: seq<Json>, p: GetParams)
    requires p.limit > 0
    ensures |Finished(rows, p)| <= p.limit
    ensures p.fields != "*" && p.alias == "" && |rows| > p.limit ==>
      |Finished(rows, p)| == |Filter(rows[..p.limit], HasField(p.fields))|
  {
    var limited := Limited(rows, p.limit);
    ProjectionIsColumn(limited, p.fields);
    FilterMembers(limited, HasField(p.fields));
  }

  method AnswerGet(rows: seq<Json>, p: GetParams) returns (ok: bool, body: Body)
    ensures ok <==> rows == [] || ValidLogic(p.conditions)
    ensures ok ==> IsGetBody(rows, p, body)
  {
    hide Finished;
    var selected;
    ok, selected := ApplyWhere(rows, p.conditions);
    body := Bare(Table([]));
    if !ok { return; }
    var result, ignoredCount := Table(selected), 0;
    if p.groupByKey != "" {
      var groups := GroupBy(selected, p.groupByKey);
      result := Grouped(groups);
    } else if p.orderByKey != "" {
      var sorted;
      sorted, ignoredCount := OrderBy(selected, p.orderByKey, p.orderDesc);
      assert |multiset(sorted)| == |multiset(Filter(selected, HasKey(p.orderByKey)))|;
      var finished := Finish(sorted, p);
      result := Table(finished);
    } else {
      var finished := Finish(selected, p);
      result := Table(finished);
    }
    var extraClauseUsed := p.conditions != [] || p.groupByKey != "" || p.orderByKey != "" || p.limit != -1 || p.alias != "";
    body := if extraClauseUsed then Wrapped(result, ignoredCount) else Bare(result);
  }

  method Finish(rows: seq<Json>, p: GetParams) returns (result: seq<Json>)
    ensures result == Finished(rows, p)
  {
    result := rows;
    if p.limit > 0 { result := ApplyLimit(result, p.limit); }
    if p.fields != "*" { result := ApplyProjection(result, p.fields); }
    if p.alias != "" { result := ApplyAlias(result, p.alias); }
  }

  // ---------- REMOVE ----------

  method RemoveRows(fullData: seq<Json>, conds: seq<Condition>)
    returns (ok: bool, newData: seq<Json>, removedCount: nat)
    requires conds != []
    ensures ok <==> fullData == [] || ValidLogic(conds)
    ensures ok ==> newData == Filter(fullData, Not(Matches(conds)))
    ensures ok ==> removedCount == |Selected(fullData, conds)|
  {
    newData, removedCount := [], 0;
    for i := 0 to |fullData|
      invariant newData == Filter(fullData[..i], Not(Matches(conds)))
      invariant removedCount == |Filter(fullData[..i], Matches(conds))|
      invariant i > 0 ==> ValidLogic(conds)
    {
      LoopSucceeds(fullData[i], conds);
      var known, cond := EvaluateConditions(fullData[i], conds, false);
      if !known { return false, [], 0; }
      FilterSnoc(fullData, i, Matches(conds));
      FilterSnoc(fullData, i, Not(Matches(conds)));
      if cond {
        removedCount := removedCount + 1;
      } else {
        newData := newData + [fullData[i]];
      }
    }
    assert fullData[..|fullData|] == fullData;
    return true, newData, removedCount;
  }

  /** Deleting by any predicate: what goes and what stays merge back to the table in
      order, and deleting again finds and changes nothing. */
  lemma {:induction false} DeletionSplits(rows: seq<Json>, p: Json -> bool)
    ensures var gone, kept := Filter(rows, p), Filter(rows, Not(p));
            && |gone| + |kept| == |rows|
            && Interleave(Flags(rows, p), gone, kept) == rows
            && Filter(kept, p) == []
            && Filter(kept, Not(p)) == kept
  {
    var kept := Filter(rows, Not(p));
    FilterSplits(rows, p);
    FilterMembers(rows, Not(p));
    FilterNone(kept, p);
    FilterAll(kept, Not(p));
  }

  /** REMOVE deletes exactly the rows GET with the same conditions returned before:
      the two sides merge back to the table in order, a GET afterwards returns
      nothing, and a second REMOVE changes nothing.  With the conditions read as
      intended the same would hold. */
  lemma {:induction false} RemoveSplitsTable(rows: seq<Json>, conds: seq<Condition>)
    requires conds != []
    ensures var gone, kept := Selected(rows, conds), Filter(rows, Not(Matches(conds)));
            && |gone| + |kept| == |rows|
            && Interleave(Flags(rows, Matches(conds)), gone, kept) == rows
            && Selected(kept, conds) == []
            && Filter(kept, Not(Matches(conds))) == kept
    ensures var p := Intended(conds);
            var gone, kept := Filter(rows, p), Filter(rows, Not(p));
            && |gone| + |kept| == |rows| && Interleave(Flags(rows, p), gone, kept) == rows
            && Filter(kept, p) == [] && Filter(kept, Not(p)) == kept
  {
    hide Match, Fold;
    DeletionSplits(rows, Matches(conds));
    DeletionSplits(rows, Intended(conds));
  }

  // ---------- CHANGE ----------

  predicate Chosen(row: Json, conds: seq<Condition>) { conds == [] || Match(row, conds) }

  function ChangedRow(row: Json, conds: seq<Condition>, field: string, value: string): (r: Json)
    requires row.Obj?
    ensures r.Obj?
  {
    ChangedRowBy(row, ChosenBy(conds), field, value)
  }

  function ChosenBy(conds: seq<Condition>): Json -> bool { row => Chosen(row, conds) }

  /** The rows CHANGE is meant to pick. */
  function MeantBy(conds: seq<Condition>): Json -> bool { row => conds == [] || Fold(row, conds) }

  /** A row changed if any predicate picks it. */
  function ChangedRowBy(row: Json, p: Json -> bool, field: string, value: string): (r: Json)
    requires row.Obj?
    ensures r.Obj?
  {
    if p(row) then SetField(row, field, Str(value)) else row
  }

  function Changed(rows: seq<Json>, conds: seq<Condition>, field: string, value: string): (r: seq<Json>)
    requires AllObjects(rows)
    ensures |r| == |rows| && AllObjects(r)
    ensures forall i | 0 <= i < |r| :: r[i] == ChangedRow(rows[i], conds, field, value)
  {
    ChangedBy(rows, ChosenBy(conds), field, value)
  }

  function ChangedBy(rows: seq<Json>, p: Json -> bool, field: string, value: string): (r: seq<Json>)
    requires AllObjects(rows)
    ensures |r| == |rows| && AllObjects(r)
    ensures forall i | 0 <= i < |r| :: r[i] == ChangedRowBy(rows[i], p, field, value)
  {
    if rows == [] then []
    else [ChangedRowBy(rows[0], p, field, value)] + ChangedBy(rows[1..], p, field, value)
  }

  /** The in-place update loop of CHANGE. */
  method ChangeRows(rows: seq<Json>, conds: seq<Condition>, field: string, value: string)
    returns (ok: bool, data: seq<Json>, changedCount: nat)
    requires AllObjects(rows)
    ensures ok <==> rows == [] || ValidLogic(conds)
    ensures ok ==> data == Changed(rows, conds, field, value)
    ensures ok ==> changedCount == |Selected(rows, conds)|
  {
    hide SetField, Match, Loop;
    data, changedCount := rows, 0;
    for i := 0 to |rows|
      invariant |data| == |rows|
      invariant forall k | 0 <= k < i :: data[k] == ChangedRow(rows[k], conds, field, value)
      invariant forall k | i <= k < |rows| :: data[k] == rows[k]
      invariant changedCount == |Selected(rows[..i], conds)|
      invariant i > 0 ==> ValidLogic(conds)
    {
      if conds != [] { LoopSucceeds(rows[i], conds); }
      var known, cond := EvaluateConditions(data[i], conds, false);
      if !known { return false, [], 0; }
      var chosen := if conds == [] then true else cond;
      ChosenIs(rows[i], conds, chosen);
      FilterSnoc(rows, i, Matches(conds));
      if chosen {
        data := data[i := SetField(data[i], field, Str(value))];
        changedCount := changedCount + 1;
      }
    }
    assert rows[..|rows|] == rows;
    return true, data, changedCount;
  }

  lemma ChosenIs(row: Json, conds: seq<Condition>, chosen: bool)
    requires if conds == [] then chosen else Loop(row, conds) == Some(chosen)
    ensures chosen <==> Chosen(row, conds)
    ensures conds != [] ==> (chosen <==> Match(row, conds))
  {}

  /** CHANGE leaves every other field and every unmatched row alone, and gives
      the field its new text in every matched row. */
  lemma ChangeTouchesOneField(row: Json, conds: seq<Condition>, field: string, value: string, other: string)
    requires row.Obj?
    ensures Field(ChangedRow(row, conds, field, value), other) ==
      if Chosen(row, conds) && other == field then Some(Str(value)) else Field(row, other)
  {
    FieldAfterSet(row, field, Str(value), other);
  }

  /** Changing twice is changing once, whatever picks the rows and even if the change
      itself decides it. */
  lemma ChangedTwice(rows: seq<Json>, p: Json -> bool, field: string, value: string)
    requires AllObjects(rows)
    ensures ChangedBy(ChangedBy(rows, p, field, value), p, field, value) == ChangedBy(rows, p, field, value)
  {
    var once := ChangedBy(rows, p, field, value);
    var twice := ChangedBy(once, p, field, value);
    forall i | 0 <= i < |rows| ensures twice[i] == once[i] {
      InsertTwice(rows[i].members, field, Str(value), Str(value));
    }
  }

  /** Applying the same CHANGE twice is applying it once, also when the field it
      writes decides which rows it picks.  With the conditions read as intended the
      same would hold. */
  lemma ChangeIsIdempotent(rows: seq<Json>, conds: seq<Condition>, field: string, value: string)
    requires AllObjects(rows)
    ensures Changed(Changed(rows, conds, field, value), conds, field, value) == Changed(rows, conds, field, value)
    ensures var once := ChangedBy(rows, MeantBy(conds), field, value);
            ChangedBy(once, MeantBy(conds), field, value) == once
  {
    hide Chosen, Fold;
    ChangedTwice(rows, ChosenBy(conds), field, value);
    ChangedTwice(rows, MeantBy(conds), field, value);
  }

  /** For a field without a dot, a changed row satisfies `field == value`. */
  lemma ChangeIsVisible(row: Json, conds: seq<Condition>, field: string, value: string)
    requires row.Obj? && Chosen(row, conds) && !HasDot(field)
    ensures True(ChangedRow(row, conds, field, value), Condition(field, "==", value, ""))
  {
    FieldAfterSet(row, field, Str(value), field);
  }

  /** With a dot, CHANGE writes a member no condition can see. */
  lemma DottedChangeIsInvisible(row: Json, conds: seq<Condition>, field: string, value: string, c: Condition)
    requires row.Obj? && HasDot(field)
    ensures Evaluate(ChangedRow(row, conds, field, value), c) == Evaluate(row, c)
  {
    hide Chosen, SetField, EvaluateValue;
    var r := ChangedRow(row, conds, field, value);
    if HasDot(c.field) {
      FirstPieceHasNoDot(c.field);
      ChangeTouchesOneField(row, conds, field, value, Dots(c.field)[0]);
      assert GetNested(r, c.field) == GetNested(row, c.field);
    } else {
      ChangeTouchesOneField(row, conds, field, value, c.field);
    }
  }

  lemma FirstPieceHasNoDot(s: string)
    requires HasDot(s)
    ensures Dots(s) != [] && !HasDot(Dots(s)[0])
  {
    var piece := s[..DotIndex(s)];
    assert forall i | 0 <= i < |piece| :: piece[i] == s[i];
    assert s != "" && Dots(s)[0] == piece;
  }

  lemma FirstPieceIsShorter(s: string)
    requires HasDot(s)
    ensures s != "" && DotIndex(s) < |s| && Dots(s) != [] && Dots(s)[0] == s[..DotIndex(s)] != s
  {}

  // ---------- COUNT ----------

  /** COUNT key:value compares the field's text. */
  predicate Counts(row: Json, key: string, value: string) {
    match Field(row, key)
    case Some(v) => Plain(v) == value
    case None => false
  }

  function CountedBy(key: string, value: string): Json -> bool { row => Counts(row, key, value) }

  function EqualBy(key: string, value: string): Json -> bool {
    row => True(row, Condition(key, "==", value, ""))
  }

  method CountRows(data: seq<Json>, key: string, value: string) returns (count: nat)
    ensures count == |Filter(data, CountedBy(key, value))|
  {
    count := 0;
    for i := 0 to |data|
      invariant count == |Filter(data[..i], CountedBy(key, value))|
    {
      FilterSnoc(data, i, CountedBy(key, value));
      match Field(data[i], key) {
        case Some(cell) =>
          if cell.Str? {
            if cell.s == value { count := count + 1; }
          } else if Dump(cell) == value {
            count := count + 1;
          }
        case None =>
      }
    }
    assert data[..|data|] == data;
  }

  /** Under a key without a dot a counted row satisfies `key == value`, unless its
      field is null. */
  lemma CountedIsEqual(row: Json, key: string, value: string)
    requires !HasDot(key) && Counts(row, key, value)
    ensures True(row, Condition(key, "==", value, "")) <==> Field(row, key) != Some(Null)
  {
    hide Stod, InRange, IntText;
    match Field(row, key)
    case Some(v) => if v.Int? { StodOfIntText(v.n); }
  }

  /** The one row that shows COUNT exceeding equality: COUNT takes a dot for part of
      the name, a condition for a path. */
  lemma OverCounted(key: string, value: string)
    requires HasDot(key) || value == "null"
    ensures exists row :: Counts(row, key, value) && !True(row, Condition(key, "==", value, ""))
  {
    hide Stod;
    var cell := if value == "null" then Null else Str(value);
    var row := Obj([Member(key, cell)]);
    FindOne(Member(key, cell), key);
    if HasDot(key) { DottedKeyIsHidden(key, cell); }
    assert Counts(row, key, value) && !True(row, Condition(key, "==", value, ""));
  }

  lemma DottedKeyIsHidden(key: string, cell: Json)
    requires HasDot(key)
    ensures GetNested(Obj([Member(key, cell)]), key) == Null
  {
    FirstPieceIsShorter(key);
    FindOne(Member(key, cell), Dots(key)[0]);
  }

  /** COUNT reports no more rows than satisfy the equality, on every table, exactly
      for keys without a dot and values other than null. */
  lemma CountWithinEquality(key: string, value: string)
    ensures !HasDot(key) && value != "null" <==>
      forall rows: seq<Json> :: |Filter(rows, CountedBy(key, value))| <= |Filter(rows, EqualBy(key, value))|
  {
    hide Counts, True;
    if !HasDot(key) && value != "null" {
      forall rows: seq<Json>
        ensures |Filter(rows, CountedBy(key, value))| <= |Filter(rows, EqualBy(key, value))|
      {
        forall row | row in rows && Counts(row, key, value)
          ensures True(row, Condition(key, "==", value, ""))
        {
          CountedIsEqual(row, key, value);
          NullIsCountedAsNull(row, key, value);
        }
        FilterMonotone(rows, CountedBy(key, value), EqualBy(key, value));
      }
    } else {
      OverCounted(key, value);
      var row :| Counts(row, key, value) && !True(row, Condition(key, "==", value, ""));
      OneRowDiffers(row, key, value);
    }
  }

  lemma NullIsCountedAsNull(row: Json, key: string, value: string)
    ensures Counts(row, key, value) && Field(row, key) == Some(Null) ==> value == "null"
  {}

  lemma OneRowDiffers(row: Json, key: string, value: string)
    ensures |Filter([row], CountedBy(key, value))| == if Counts(row, key, value) then 1 else 0
    ensures |Filter([row], EqualBy(key, value))| == if True(row, Condition(key, "==", value, "")) then 1 else 0
  {
    hide Counts, True;
    assert [row][1..] == [];
  }

  /** A value COUNT and `==` read alike: not the text of null, and not the text of
      a whole number in any but its printed form. */
  predicate Canonical(value: string) {
    && value != "null"
    && (match Stod(value)
        case Some(Finite(r)) => r == r.Floor as real ==> value == IntText(r.Floor)
        case _ => true)
  }

  lemma EqualIsCounted(row: Json, key: string, value: string)
    requires !HasDot(key) && Canonical(value)
    ensures True(row, Condition(key, "==", value, "")) <==> Counts(row, key, value)
  {
    hide Stod, InRange, IntText;
    if Counts(row, key, value) {
      CountedIsEqual(row, key, value);
    }
  }

  /** COUNT equals the number of rows satisfying `key == value` on every table
      exactly when the key has no dot and the value is canonical. */
  lemma CountIsEqualityWhenCanonical(key: string, value: string)
    ensures !HasDot(key) && Canonical(value) <==>
      forall rows: seq<Json> :: |Filter(rows, CountedBy(key, value))| == |Filter(rows, EqualBy(key, value))|
  {
    hide Counts, True, Canonical;
    if !HasDot(key) && Canonical(value) {
      forall rows: seq<Json>
        ensures |Filter(rows, CountedBy(key, value))| == |Filter(rows, EqualBy(key, value))|
      {
        forall row | row in rows ensures CountedBy(key, value)(row) <==> EqualBy(key, value)(row) {
          EqualIsCounted(row, key, value);
        }
        FilterAgree(rows, CountedBy(key, value), EqualBy(key, value));
      }
    } else {
      Miscounted(key, value);
      var row :| Counts(row, key, value) != True(row, Condition(key, "==", value, ""));
      OneRowDiffers(row, key, value);
    }
  }

  lemma Miscounted(key: string, value: string)
    requires HasDot(key) || !Canonical(value)
    ensures exists row :: Counts(row, key, value) != True(row, Condition(key, "==", value, ""))
  {
    hide Stod, IntText;
    if HasDot(key) || value == "null" {
      OverCounted(key, value);
    } else {
      var cell := Int(Stod(value).value.value.Floor);
      var row := Obj([Member(key, cell)]);
      FindOne(Member(key, cell), key);
      assert Field(row, key) == Some(cell);
      assert Counts(row, key, value) != True(row, Condition(key, "==", value, ""));
    }
  }

  /** COUNT k:1.5e1 misses the rows with k equal to 15, which `k == 1.5e1` finds. */
  lemma ExponentIsNotCanonical()
    ensures Stod("1.5e1") == Some(Finite(15.0)) && !Canonical("1.5e1")
  {
    assert IntText(15)[1] == '5';
    assert Pow(2, 4) == 16;
    hide Stod, InRange, IntText, Pow;
    FifteenTenths();
    IntegersInRange(15, 4);
  }

  lemma FifteenTenths()
    ensures Stod("1.5e1") == Ranged(1, 15.0)
  {
    hide Pointed, Scale, Exponent, Stod, Ranged, NatText, NatValue, Pow, SignOf;
    DigitsOfExample();
    TenTimes();
    PointedText(1, "5");
    assert "" + ("1" + "." + "5" + "e1") == "1.5e1";
    StodOfDecimal("", 1, "5", "e1", 15.0);
  }

  lemma DigitsOfExample()
    ensures NatText(1) == "1" && NatValue("5") == 5 && Pow(10, 1) == 10 && SignOf("") == 1
  {
    assert "5"[..0] == "";
  }

  lemma TenTimes()
    ensures Scale(10, Exponent("e1", 'e')) == 10.0
  {
    assert IntText(1) + "" == "1" && ['e'] + "1" == "e1";
    ExponentReads('e', 'e', 1, "");
    DigitsOfExample();
    hide Exponent, Pow;
    assert Scale(10, 1) == Pow(10, 1) as real;
  }

  // ---------- ADD .. UNIQUE ----------

  /** Every row has the field and no two rows agree on it. */
  predicate UniqueOn(rows: seq<Json>, field: string) {
    && (forall i | 0 <= i < |rows| :: Contains(rows[i], field))
    && (forall i, j | 0 <= i < j < |rows| :: Field(rows[i], field) != Field(rows[j], field))
  }

  method AlreadyExists(existingData: seq<Json>, field: string, value: Json) returns (found: bool)
    ensures found <==> exists i | 0 <= i < |existingData| :: Field(existingData[i], field) == Some(value)
  {
    for i := 0 to |existingData|
      invariant forall k | 0 <= k < i :: Field(existingData[k], field) != Some(value)
    {
      if Field(existingData[i], field) == Some(value) { return true; }
    }
    return false;
  }
}
