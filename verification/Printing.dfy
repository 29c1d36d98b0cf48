/** The command language as text: which words each clause prints, and what the
    parsers make of them (connectors/php/src/RoktClient.php against the handlers). */
module Printing {
  import opened Options
  import opened Text
  import opened Conditions
  import opened Query
  import opened Parsers

  // ---------- lines of words ----------

  function Line(ws: seq<string>): string {
    if ws == [] then ""
    else if |ws| == 1 then ws[0]
    else Line(ws[..|ws| - 1]) + " " + ws[|ws| - 1]
  }

  predicate Words(ws: seq<string>) { forall i | 0 <= i < |ws| :: Word(ws[i]) }

  /** Words a client may pass: no blanks, no final ';', no final NUL (which
      PHP's rtrim would strip). */
  predicate IsToken(w: string) { Clean(w) && w[|w| - 1] != '\0' }

  predicate AllTokens(ws: seq<string>) { forall i | 0 <= i < |ws| :: IsToken(ws[i]) }

  lemma LineSnoc(ws: seq<string>, w: string)
    requires ws != []
    ensures Line(ws + [w]) == Line(ws) + " " + w
  {
    assert (ws + [w])[..|ws|] == ws;
  }

  lemma {:induction false} LineAppend(a: seq<string>, b: seq<string>)
    requires a != [] && b != []
    ensures Line(a + b) == Line(a) + " " + Line(b)
    decreases |b|
  {
    var n := |b| - 1;
    if n == 0 {
      assert b == [b[0]];
      LineSnoc(a, b[0]);
    } else {
      assert a + b == (a + b[..n]) + [b[n]];
      LineSnoc(a + b[..n], b[n]);
      LineAppend(a, b[..n]);
    }
  }

  lemma {:induction false} TokensOfLine(ws: seq<string>)
    requires Words(ws)
    ensures Tokens(Line(ws)) == ws
  {
    var n := |ws| - 1;
    if n < 0 {
      assert Tokens("") == [];
    } else if n == 0 {
      TokensOfWord(ws[0]);
    } else {
      TokensOfLine(ws[..n]);
      TokensOfWord(ws[n]);
      TokensJoin(Line(ws[..n]), ws[n]);
    }
  }

  /** The text of a command: its words and the terminator. */
  function CommandText(ws: seq<string>): string { Line(ws) + ";" }

  /** Splitting and trimming a command gives back the words it was printed from. */
  lemma CommandTokens(ws: seq<string>)
    requires ws != [] && AllTokens(ws)
    ensures Trimmed(Tokens(CommandText(ws))) == ws
    ensures |ws| > 1 ==> Tokens(CommandText(ws))[0] == ws[0]
  {
    hide Trim, Tokens;
    var n := |ws| - 1;
    TrimClean(ws[n]);
    var ended := ws[..n] + [ws[n] + ";"];
    assert Line(ended) == CommandText(ws) by {
      if n > 0 { LineSnoc(ws[..n], ws[n] + ";"); }
    }
    TokensOfLine(ended);
    forall i | 0 <= i <= n ensures Trim(ended[i]) == ws[i] { TrimClean(ws[i]); }
  }

  // ---------- conditions ----------

  function ConditionWords(keyword: string, c: Condition): seq<string> {
    [keyword, c.field, c.op, c.value]
  }

  function MoreWords(conds: seq<Condition>): seq<string> {
    if conds == [] then [] else ConditionWords(conds[0].logic, conds[0]) + MoreWords(conds[1..])
  }

  /** `keyword` opens the first condition, each further one its own connective. */
  function WhereWords(keyword: string, conds: seq<Condition>): seq<string> {
    if conds == [] then [] else ConditionWords(keyword, conds[0]) + MoreWords(conds[1..])
  }

  /** IS and NOT rewritten; None when an operator is not accepted. */
  function Normal(conds: seq<Condition>): Option<seq<Condition>> {
    if conds == [] then Some([])
    else match (NormalOp(conds[0].op), Normal(conds[1..]))
      case (Some(op), Some(rest)) => Some([conds[0].(op := op)] + rest)
      case _ => None
  }

  /** As the parsers store a list: no connective on the first condition. */
  function NormalList(conds: seq<Condition>): Option<seq<Condition>> {
    if conds == [] then Some([]) else Normal([conds[0].(logic := "")] + conds[1..])
  }

  predicate ValidOp(op: string) { op in {"IS", "NOT", "==", "!=", "HAS"} }

  /** The accepted operators, as a caller can check them. */
  predicate ValidOps(conds: seq<Condition>) {
    forall i | 0 <= i < |conds| :: ValidOp(conds[i].op)
  }

  lemma {:induction false} NormalSucceeds(conds: seq<Condition>)
    ensures Normal(conds).Some? <==> ValidOps(conds)
  {
    if conds != [] {
      NormalSucceeds(conds[1..]);
      assert forall i | 1 <= i < |conds| :: conds[i] == conds[1..][i - 1];
    }
  }

  predicate NoConnective(rest: seq<string>) { rest == [] || !KnownLogic(rest[0]) }

  lemma {:induction false} ReadMoreWords(conds: seq<Condition>, rest: seq<string>)
    requires ValidLogicAll(conds) && NoConnective(rest)
    ensures ReadConditions(MoreWords(conds) + rest) ==
      match Normal(conds) case None => None case Some(cs) => Some(ConditionsRead(cs, rest))
  {
    if conds == [] {
      assert MoreWords(conds) + rest == rest;
    } else {
      hide ReadConditions;
      var c, more := conds[0], MoreWords(conds[1..]) + rest;
      assert MoreWords(conds) + rest == ConditionWords(c.logic, c) + more;
      ReadMoreWords(conds[1..], rest);
      ReadOneMore(c, more);
    }
  }

  lemma ReadOneMore(c: Condition, more: seq<string>)
    requires KnownLogic(c.logic)
    ensures ReadConditions(ConditionWords(c.logic, c) + more) ==
      match (NormalOp(c.op), ReadConditions(more))
      case (Some(op), Some(r)) => Some(ConditionsRead([c.(op := op)] + r.conds, r.rest))
      case _ => None
  {
    var ts := ConditionWords(c.logic, c) + more;
    assert ts[0] == c.logic && ts[4..] == more;
    assert ts[1..][0] == c.field && ts[1..][1] == c.op && ts[1..][2] == c.value;
  }

  predicate ValidLogicAll(conds: seq<Condition>) {
    forall i | 0 <= i < |conds| :: KnownLogic(conds[i].logic)
  }

  lemma ReadWhereWords(conds: seq<Condition>, rest: seq<string>)
    requires conds != [] && ValidLogic(conds) && NoConnective(rest)
    ensures ReadWhere(WhereWords("WHERE", conds)[1..] + rest) ==
      match NormalList(conds) case None => None case Some(cs) => Some(ConditionsRead(cs, rest))
  {
    hide Normal, ReadConditions, MoreWords;
    var c, more := conds[0], MoreWords(conds[1..]) + rest;
    var ts := WhereWords("WHERE", conds)[1..] + rest;
    assert ts == [c.field, c.op, c.value] + more;
    assert ts[3..] == more;
    ReadMoreWords(conds[1..], rest);
    NormalCons(c.(logic := ""), conds[1..]);
  }

  lemma NormalCons(c: Condition, conds: seq<Condition>)
    ensures Normal([c] + conds) ==
      match (NormalOp(c.op), Normal(conds))
      case (Some(op), Some(rest)) => Some([c.(op := op)] + rest)
      case _ => None
  {
    assert ([c] + conds)[1..] == conds;
  }

  // ---------- REMOVE and CHANGE ----------

  /** `REMOVE WHERE ... IN dataset;` reads back as printed. */
  lemma RemoveRoundTrip(conds: seq<Condition>, dataset: string)
    requires conds != [] && ValidLogic(conds)
    requires AllTokens(["REMOVE"] + WhereWords("WHERE", conds) + ["IN", dataset])
    ensures ParseRemove(CommandText(["REMOVE"] + WhereWords("WHERE", conds) + ["IN", dataset])) ==
      match NormalList(conds) case None => None case Some(cs) => Some(RemoveParams(cs, dataset))
  {
    hide Trim, Tokens, ReadWhere, NormalList;
    var where := WhereWords("WHERE", conds);
    var ws := ["REMOVE"] + where + ["IN", dataset];
    CommandTokens(ws);
    assert ws[0] == "REMOVE" && ws[1] == "WHERE" && ws[2..] == where[1..] + ["IN", dataset];
    TrimClean("IN");
    ReadWhereWords(conds, ["IN", dataset]);
  }

  /** `REMOVE value IN dataset;` compares the field "name". */
  lemma RemoveValueRoundTrip(value: string, dataset: string)
    requires IsToken(value) && IsToken(dataset) && value != "WHERE"
    ensures ParseRemove(CommandText(["REMOVE", value, "IN", dataset])) ==
      Some(RemoveParams([Condition("name", "==", value, "")], dataset))
  {
    hide Trim, Tokens;
    var ws := ["REMOVE", value, "IN", dataset];
    CommandTokens(ws);
  }

  /** `CHANGE field = value [WHERE ...] IN dataset;` reads back as printed. */
  lemma ChangeRoundTrip(field: string, value: string, conds: seq<Condition>, dataset: string)
    requires ValidLogic(conds)
    requires AllTokens(["CHANGE", field, "=", value] + WhereWords("WHERE", conds) + ["IN", dataset])
    ensures ParseChange(CommandText(["CHANGE", field, "=", value] + WhereWords("WHERE", conds) + ["IN", dataset])) ==
      match NormalList(conds) case None => None case Some(cs) => Some(ChangeParams(field, value, cs, dataset))
  {
    hide Trim, Tokens, ReadWhere, Normal;
    var where := WhereWords("WHERE", conds);
    var ws := ["CHANGE", field, "=", value] + where + ["IN", dataset];
    CommandTokens(ws);
    var raw := Tokens(CommandText(ws));
    TrimmedTail(raw, 1);
    var ts := ws[1..];
    assert Trimmed(raw[1..]) == ts;
    assert ts[0] == field && ts[1] == "=" && ts[2] == value;
    TrimClean("IN");
    if conds == [] {
      assert ts[3] == "IN" && ts[4] == dataset;
    } else {
      assert ts[3] == "WHERE" && ts[4..] == where[1..] + ["IN", dataset];
      ReadWhereWords(conds, ["IN", dataset]);
    }
  }

  /** Opened with AND, the conditions of a CHANGE are refused with the command. */
  lemma MisopenedChangeIsRefused(field: string, value: string, conds: seq<Condition>, dataset: string)
    requires conds != []
    requires AllTokens(["CHANGE", field, "=", value] + WhereWords("AND", conds) + ["IN", dataset])
    ensures ParseChange(CommandText(["CHANGE", field, "=", value] + WhereWords("AND", conds) + ["IN", dataset])) == None
  {
    hide Trim, Tokens, ReadWhere;
    var ws := ["CHANGE", field, "=", value] + WhereWords("AND", conds) + ["IN", dataset];
    assert ["CHANGE"] + ws[1..] == ws && ws[1..][3] == "AND";
    ParseChangeWords(ws[1..]);
  }

  /** The words of a CHANGE with a second assignment, which the builder prints after
      a comma. */
  function TwoAssignments(field: string, value: string, field2: string, value2: string): seq<string> {
    ["CHANGE", field, "=", value + ",", field2, "=", value2]
  }

  /** Conditions that, read one word late, lead up to an IN. */
  predicate ReadLate(conds: seq<Condition>) {
    && conds != []
    && (conds[0].field == "IN" || (KnownLogic(conds[0].field) && ValidOp(conds[0].value) && ReadLate(conds[1..])))
  }

  /** The server accepts a second assignment exactly when its field is named IN, which
      it takes for the dataset to be named "=", or is named WHERE and the words behind
      it happen to form conditions. */
  lemma SecondAssignment(field: string, value: string, field2: string, value2: string,
                         keyword: string, conds: seq<Condition>, dataset: string)
    requires field2 == "WHERE" ==> keyword == "AND"
    requires forall i | 1 <= i < |conds| :: conds[i].logic == "AND"
    requires AllTokens(TwoAssignments(field, value, field2, value2) + WhereWords(keyword, conds) + ["IN", dataset])
    ensures var ws := TwoAssignments(field, value, field2, value2) + WhereWords(keyword, conds) + ["IN", dataset];
      && (ParseChange(CommandText(ws)).Some? <==>
          field2 == "IN" || (field2 == "WHERE" && ValidOp(value2) && ReadLate(conds)))
      && (field2 == "IN" ==> ParseChange(CommandText(ws)) == Some(ChangeParams(field, value + ",", [], "=")))
  {
    hide AllTokens, ParseChange, ReadChange, WhereWords, ReadLate, CommandText, EndsAtIn, ReadWhere, ValidOp;
    hide TwoAssignments;
    var where := WhereWords(keyword, conds);
    var more := ["=", value2] + (where + ["IN", dataset]);
    SecondAssignmentWords(field, value, field2, value2, where + ["IN", dataset]);
    Reassociate(TwoAssignments(field, value, field2, value2), where, ["IN", dataset]);
    ParseChangeWords([field, "=", value + ",", field2] + more);
    ReadChangeStep(field, value + ",", field2, more);
    if field2 == "WHERE" { ReadWhereLate(value2, conds, dataset); }
  }

  lemma Reassociate(a: seq<string>, b: seq<string>, c: seq<string>)
    ensures a + b + c == a + (b + c)
  {}

  lemma SecondAssignmentWords(field: string, value: string, field2: string, value2: string, rest: seq<string>)
    ensures var ws, more := TwoAssignments(field, value, field2, value2) + rest, ["=", value2] + rest;
      && ws == ["CHANGE"] + ([field, "=", value + ",", field2] + more)
      && [field, "=", value + ",", field2] + more != []
      && (AllTokens(ws) ==> AllTokens(more))
  {
    TailTokens(["CHANGE", field, "=", value + ",", field2], ["=", value2] + rest);
    assert TwoAssignments(field, value, field2, value2) + rest ==
      ["CHANGE", field, "=", value + ",", field2] + (["=", value2] + rest);
  }

  lemma TailTokens(a: seq<string>, b: seq<string>)
    ensures AllTokens(a + b) ==> AllTokens(b)
  {
    assert forall i | 0 <= i < |b| :: b[i] == (a + b)[|a| + i];
  }

  lemma ParseChangeWords(tail: seq<string>)
    requires AllTokens(["CHANGE"] + tail) && tail != []
    ensures ParseChange(CommandText(["CHANGE"] + tail)) == ReadChange(tail)
  {
    hide Tokens, ReadChange, CommandText;
    CommandTokens(["CHANGE"] + tail);
    TrimmedTail(Tokens(CommandText(["CHANGE"] + tail)), 1);
  }

  lemma ReadChangeStep(field: string, value: string, word: string, more: seq<string>)
    requires AllTokens(more) && more != []
    ensures var r := ReadChange([field, "=", value, word] + more);
      && (r.Some? <==> word == "IN" || (word == "WHERE" && EndsAtIn(ReadWhere(more))))
      && (word == "IN" ==> r == Some(ChangeParams(field, value, [], more[0])))
  {
    hide Trim, ReadWhere;
    var ts := [field, "=", value, word] + more;
    assert ts[0] == field && ts[1] == "=" && ts[2] == value && ts[3] == word && ts[4..] == more;
    LateTokens(more);
  }

  /** The words ReadWhere leaves are among those it was given, so trimming once more
      changes nothing. */
  lemma LateTokens(ts: seq<string>)
    requires AllTokens(ts)
    ensures ReadWhere(ts).Some? ==> AllTokens(ReadWhere(ts).value.rest)
    ensures ReadWhere(ts).Some? && ReadWhere(ts).value.rest != [] ==>
      Trim(ReadWhere(ts).value.rest[0]) == ReadWhere(ts).value.rest[0]
  {
    hide Trim, ReadConditions;
    if |ts| >= 3 { ReadConditionsTokens(ts[3..]); }
    if ReadWhere(ts).Some? && ReadWhere(ts).value.rest != [] { TrimClean(ReadWhere(ts).value.rest[0]); }
  }

  lemma {:induction false} ReadConditionsTokens(ts: seq<string>)
    requires AllTokens(ts)
    ensures ReadConditions(ts).Some? ==> AllTokens(ReadConditions(ts).value.rest)
    decreases |ts|
  {
    if ts != [] && KnownLogic(ts[0]) && |ts| >= 4 { ReadConditionsTokens(ts[4..]); }
  }

  predicate EndsAtIn(read: Option<ConditionsRead>) {
    read.Some? && |read.value.rest| >= 2 && read.value.rest[0] == "IN"
  }

  lemma ReadWhereLate(op: string, conds: seq<Condition>, dataset: string)
    requires forall i | 1 <= i < |conds| :: conds[i].logic == "AND"
    ensures EndsAtIn(ReadWhere(["=", op] + (WhereWords("AND", conds) + ["IN", dataset]))) <==>
      ValidOp(op) && ReadLate(conds)
  {
    hide ReadConditions, MoreWords, ReadLate, ReadWhere, LateWords, EndsAtIn, WhereWords;
    if conds == [] {
      WhereNoWords("AND");
      assert ["=", op] + (WhereWords("AND", conds) + ["IN", dataset]) == ["=", op, "IN"] + [dataset];
      ReadWhereOn("=", op, "IN", [dataset]);
      ReadOneLeft(dataset);
      NothingReadLate();
    } else {
      WhereWordsLate(op, conds, dataset);
      ReadWhereOn("=", op, "AND", LateWords(conds, dataset));
      ReadConditionsLate(conds, dataset);
    }
  }

  lemma WhereNoWords(keyword: string)
    ensures WhereWords(keyword, []) == []
  {}

  lemma ReadWhereOn(field: string, op: string, value: string, more: seq<string>)
    ensures EndsAtIn(ReadWhere([field, op, value] + more)) <==> ValidOp(op) && EndsAtIn(ReadConditions(more))
  {
    hide ReadConditions;
    assert ([field, op, value] + more)[3..] == more;
  }

  lemma WhereWordsLate(op: string, conds: seq<Condition>, dataset: string)
    requires conds != []
    ensures ["=", op] + (WhereWords("AND", conds) + ["IN", dataset]) == ["=", op, "AND"] + LateWords(conds, dataset)
  {
    hide MoreWords;
  }

  lemma NothingReadLate()
    ensures !ReadLate([])
  {}

  lemma ReadOneLeft(w: string)
    ensures !EndsAtIn(ReadConditions([w]))
  {}

  /** The conditions without the connective in front, and the end of the command. */
  function LateWords(conds: seq<Condition>, dataset: string): seq<string>
    requires conds != []
  {
    [conds[0].field, conds[0].op, conds[0].value] + MoreWords(conds[1..]) + ["IN", dataset]
  }

  lemma {:induction false} ReadConditionsLate(conds: seq<Condition>, dataset: string)
    requires conds != [] && forall i | 1 <= i < |conds| :: conds[i].logic == "AND"
    ensures EndsAtIn(ReadConditions(LateWords(conds, dataset))) <==> ReadLate(conds)
  {
    hide MoreWords;
    var c, more, ts := conds[0], conds[1..], LateWords(conds, dataset);
    assert ts[0] == c.field && ts[1] == c.op && ts[2] == c.value && |ts| >= 5;
    if KnownLogic(c.field) {
      assert ts[1..][1] == c.value;
      if more == [] {
        MoreWordsOfNone();
        assert ts[4..] == [dataset];
        ReadOneLeft(dataset);
        NothingReadLate();
      } else {
        MoreWordsStart(more);
        assert ts[4..] == LateWords(more, dataset);
        ReadConditionsLate(more, dataset);
      }
    }
  }

  lemma MoreWordsOfNone()
    ensures MoreWords([]) == []
  {}

  lemma MoreWordsStart(conds: seq<Condition>)
    requires conds != []
    ensures MoreWords(conds) ==
      [conds[0].logic] + ([conds[0].field, conds[0].op, conds[0].value] + MoreWords(conds[1..]))
  {}

  // ---------- GET ----------

  datatype Clause = ByGroup(key: string) | ByOrder(key: string, order: string) | AtMost(n: int)

  /** PHP's strtoupper on ASCII. */
  function Upper(s: string): (u: string)
    ensures |u| == |s|
  {
    seq(|s|, i requires 0 <= i < |s| => if 'a' <= s[i] <= 'z' then (s[i] as int - 32) as char else s[i])
  }

  function ClauseWords(c: Clause): seq<string> {
    match c
    case ByGroup(key) => ["GROUP", "BY", key]
    case ByOrder(key, order) => ["ORDER", "BY", key, Upper(order)]
    case AtMost(n) => ["LIMIT", IntText(n)]
  }

  function ClausesWords(cs: seq<Clause>): seq<string> {
    if cs == [] then [] else ClauseWords(cs[0]) + ClausesWords(cs[1..])
  }

  /** A query as a chain of builder calls: clauses before and after `where`. */
  datatype GetQuery = GetQuery(
    fields: string, alias: string, dataset: string,
    before: seq<Clause>, conds: seq<Condition>, after: seq<Clause>)

  function HeadWords(q: GetQuery): seq<string> {
    ["GET", q.fields] + (if q.alias == "" then [] else ["AS", q.alias]) + ["IN", q.dataset]
  }

  function GetWords(q: GetQuery, keyword: string): seq<string> {
    HeadWords(q) + ClausesWords(q.before) + WhereWords(keyword, q.conds) + ClausesWords(q.after)
  }

  /** What a clause asks for; None for a limit beyond 32 bits. */
  function Apply(c: Clause, p: GetParams): Option<GetParams> {
    match c
    case ByGroup(key) => Some(p.(groupByKey := key))
    case ByOrder(key, order) => Some(p.(orderByKey := key, orderDesc := Direction(Upper(order), p.orderDesc)))
    case AtMost(n) => if INT_MIN <= n <= INT_MAX then Some(p.(limit := n)) else None
  }

  /** Whatever the case of its letters, desc descends and asc ascends; any other
      direction leaves the one there was. */
  lemma DirectionIgnoresCase(key: string, order: string, p: GetParams)
    ensures Apply(ByOrder(key, order), p).value.orderDesc ==
      if |order| == 4 && Spelled(order, "desc") then true
      else if |order| == 3 && Spelled(order, "asc") then false
      else p.orderDesc
  {
    UpperSpells(order, "desc", "DESC");
    UpperSpells(order, "asc", "ASC");
    hide Upper, Spelled;
  }

  lemma UpperSpells(s: string, lower: string, upper: string)
    requires lower in {"desc", "asc"} && upper == Upper(lower)
    ensures Upper(s) == upper <==> |s| == |lower| && Spelled(s, lower)
  {
    if |s| == |lower| {
      forall i | 0 <= i < |s| ensures Upper(s)[i] == upper[i] <==> Lower(s[i]) == lower[i] {
        assert 'a' <= lower[i] <= 'z';
      }
    }
  }

  function ApplyAll(cs: seq<Clause>, p: Option<GetParams>): Option<GetParams> {
    if cs == [] || p.None? then p else ApplyAll(cs[1..], Apply(cs[0], p.value))
  }

  function WithConditions(p: Option<GetParams>, conds: seq<Condition>): Option<GetParams> {
    match (p, NormalList(conds))
    case (Some(v), Some(cs)) => Some(v.(conditions := v.conditions + cs))
    case _ => None
  }

  /** The query the caller wrote. */
  function Meaning(q: GetQuery): Option<GetParams> {
    var head := NO_PARAMS.(fields := q.fields, alias := q.alias, dataset := q.dataset);
    ApplyAll(q.after, WithConditions(ApplyAll(q.before, Some(head)), q.conds))
  }

  /** The query the parser sees: the first clause after WHERE is gone. */
  function Received(q: GetQuery): GetQuery {
    if q.conds == [] || q.after == [] then q else q.(after := q.after[1..])
  }

  predicate ClauseKeyword(w: string) { w == "WHERE" || w == "GROUP" || w == "ORDER" || w == "LIMIT" }

  predicate NoKeywords(ws: seq<string>) { forall i | 0 <= i < |ws| :: !ClauseKeyword(ws[i]) }

  lemma {:induction false} SkipWords(ws: seq<string>, rest: seq<string>, p: GetParams)
    requires NoKeywords(ws)
    ensures ReadClauses(ws + rest, p) == ReadClauses(rest, p)
  {
    if ws == [] {
      assert ws + rest == rest;
    } else {
      assert (ws + rest)[1..] == ws[1..] + rest;
      SkipWords(ws[1..], rest, p);
    }
  }

  lemma ReadClauseWords(c: Clause, rest: seq<string>, p: GetParams)
    ensures ReadClauses(ClauseWords(c) + rest, p) ==
      match Apply(c, p) case None => None case Some(p') => ReadClauses(rest, p')
  {
    hide Stoi, IntText, Upper;
    var ts := ClauseWords(c) + rest;
    match c
    case ByGroup(_) => assert ts[3..] == rest;
    case ByOrder(_, _) => assert ts[4..] == rest;
    case AtMost(n) =>
      StoiOfIntText(n);
      assert ts[2..] == rest;
  }

  lemma {:induction false} ReadClausesWords(cs: seq<Clause>, rest: seq<string>, p: GetParams)
    ensures ReadClauses(ClausesWords(cs) + rest, p) ==
      match ApplyAll(cs, Some(p)) case None => None case Some(p') => ReadClauses(rest, p')
  {
    hide ReadClauses, Apply, ClauseWords;
    if cs == [] {
      assert ClausesWords(cs) + rest == rest;
    } else {
      var more := ClausesWords(cs[1..]) + rest;
      assert ClausesWords(cs) + rest == ClauseWords(cs[0]) + more;
      ReadClauseWords(cs[0], more, p);
      if Apply(cs[0], p).Some? { ReadClausesWords(cs[1..], rest, Apply(cs[0], p).value); }
    }
  }

  lemma ReadAllClauses(cs: seq<Clause>, p: GetParams)
    ensures ReadClauses(ClausesWords(cs), p) == ApplyAll(cs, Some(p))
  {
    assert ClausesWords(cs) + [] == ClausesWords(cs);
    ReadClausesWords(cs, [], p);
  }

  /** The WHERE clause and everything behind it. */
  lemma ReadFromWhere(conds: seq<Condition>, after: seq<Clause>, p: GetParams)
    requires conds != [] && ValidLogic(conds)
    requires after != [] ==> NoKeywords(ClauseWords(after[0])[1..])
    ensures ReadClauses(WhereWords("WHERE", conds) + ClausesWords(after), p) ==
      ApplyAll(if after == [] then [] else after[1..], WithConditions(Some(p), conds))
  {
    hide ReadWhere, NormalList, Apply, ApplyAll, ReadClauses, WhereWords, ClausesWords;
    var rest := ClausesWords(after);
    WhereWordsStart(conds, rest);
    ClausesStart(after);
    ReadWhereWords(conds, rest);
    ReadWhereStep(WhereWords("WHERE", conds) + rest, p);
    match NormalList(conds)
    case None => ApplyNone(if after == [] then [] else after[1..]);
    case Some(cs) => ReadSwallowed(after, p.(conditions := p.conditions + cs));
  }

  lemma WhereWordsStart(conds: seq<Condition>, rest: seq<string>)
    requires conds != []
    ensures var ts := WhereWords("WHERE", conds) + rest;
            ts != [] && ts[0] == "WHERE" && ts[1..] == WhereWords("WHERE", conds)[1..] + rest
  {}

  lemma ClausesStart(cs: seq<Clause>)
    ensures NoConnective(ClausesWords(cs))
    ensures cs != [] ==> ClausesWords(cs) != [] && ClausesWords(cs)[1..] == ClauseWords(cs[0])[1..] + ClausesWords(cs[1..])
    ensures cs == [] ==> ClausesWords(cs) == []
  {
    hide ClauseWords;
    if cs != [] { ClauseStart(cs[0]); }
  }

  lemma ClauseStart(c: Clause)
    ensures ClauseWords(c) != [] && !KnownLogic(ClauseWords(c)[0])
  {}

  lemma ReadWhereStep(ts: seq<string>, p: GetParams)
    requires ts != [] && ts[0] == "WHERE"
    ensures ReadClauses(ts, p) ==
      match ReadWhere(ts[1..])
      case None => None
      case Some(r) => ReadClauses(if r.rest == [] then [] else r.rest[1..], p.(conditions := p.conditions + r.conds))
  {}

  /** After WHERE the first word of the next clause is dropped and the others are
      unknown to the parser. */
  lemma ReadSwallowed(after: seq<Clause>, p: GetParams)
    requires after != [] ==> NoKeywords(ClauseWords(after[0])[1..])
    ensures var rest := ClausesWords(after);
            ReadClauses(if rest == [] then [] else rest[1..], p) ==
            ApplyAll(if after == [] then [] else after[1..], Some(p))
  {
    hide ReadClauses, Apply, ApplyAll, ClausesWords;
    ClausesStart(after);
    if after == [] {
      ClausesStart([]);
      ReadAllClauses([], p);
    } else {
      SkipWords(ClauseWords(after[0])[1..], ClausesWords(after[1..]), p);
      ReadAllClauses(after[1..], p);
    }
  }

  lemma ApplyNone(cs: seq<Clause>)
    ensures ApplyAll(cs, None) == None
  {}

  predicate Printable(q: GetQuery) {
    && AllTokens(GetWords(q, "WHERE"))
    && ValidLogic(q.conds)
    && (q.conds != [] && q.after != [] ==> NoKeywords(ClauseWords(q.after[0])[1..]))
  }

  lemma ReadBody(q: GetQuery, p: GetParams)
    requires Printable(q)
    ensures ReadClauses(WhereWords("WHERE", q.conds) + ClausesWords(q.after), p) ==
      ApplyAll(Received(q).after, WithConditions(Some(p), q.conds))
  {
    hide ReadClauses, ApplyAll, NormalList, ClausesWords;
    if q.conds == [] {
      assert WhereWords("WHERE", q.conds) + ClausesWords(q.after) == ClausesWords(q.after);
      ReadAllClauses(q.after, p);
      NormalOfNone();
      assert p.conditions + [] == p.conditions;
    } else {
      ReadFromWhere(q.conds, q.after, p);
    }
  }

  /** Printing a query and parsing the text yields the query without the first
      clause after WHERE; it fails when an operator is refused or a limit that is
      still there does not fit 32 bits. */
  lemma GetRoundTrip(q: GetQuery)
    requires Printable(q)
    ensures ParseGet(CommandText(GetWords(q, "WHERE"))) == Meaning(Received(q))
  {
    hide Trim, Tokens, ReadClauses, ApplyAll, NormalList, HeadWords, ClausesWords, WhereWords, Received;
    var ws := GetWords(q, "WHERE");
    var body := WhereWords("WHERE", q.conds) + ClausesWords(q.after);
    var head := NO_PARAMS.(fields := q.fields, alias := q.alias, dataset := q.dataset);
    HeadNotEmpty(q);
    CommandTokens(ws);
    assert ws == HeadWords(q) + (ClausesWords(q.before) + body);
    ReadHead(q, ClausesWords(q.before) + body);
    ReadClausesWords(q.before, body, head);
    ReceivedKeeps(q);
    match ApplyAll(q.before, Some(head))
    case None => ApplyNone(Received(q).after);
    case Some(p) => ReadBody(q, p);
  }

  lemma HeadNotEmpty(q: GetQuery)
    ensures HeadWords(q) != []
  {}

  lemma ReceivedKeeps(q: GetQuery)
    ensures Received(q) == q.(after := Received(q).after)
  {}

  lemma NormalOfNone()
    ensures NormalList([]) == Some([])
  {}

  lemma ReadHead(q: GetQuery, rest: seq<string>)
    ensures ReadGet(HeadWords(q) + rest) ==
      ReadClauses(rest, NO_PARAMS.(fields := q.fields, alias := q.alias, dataset := q.dataset))
  {
    hide ReadClauses;
    var ts := HeadWords(q) + rest;
    if q.alias == "" {
      assert ts[0] == "GET" && ts[2] == "IN" && ts[4..] == rest;
    } else {
      assert ts[0] == "GET" && ts[2] == "AS" && ts[4] == "IN" && ts[6..] == rest;
    }
  }

  lemma {:induction false} ApplyAllSucceeds(cs: seq<Clause>, p: GetParams)
    ensures ApplyAll(cs, Some(p)).Some? <==> LimitsFit(cs)
  {
    if cs == [] {
    } else if Apply(cs[0], p).None? {
      assert ApplyAll(cs, Some(p)) == ApplyAll(cs[1..], None);
    } else {
      ApplyAllSucceeds(cs[1..], Apply(cs[0], p).value);
      assert forall i | 0 <= i < |cs[1..]| :: cs[1..][i] == cs[i + 1];
      assert forall i | 1 <= i < |cs| :: cs[i] == cs[1..][i - 1];
    }
  }

  lemma NormalListSucceeds(conds: seq<Condition>)
    ensures NormalList(conds).Some? <==> ValidOps(conds)
  {
    if conds != [] {
      var list := [conds[0].(logic := "")] + conds[1..];
      NormalSucceeds(list);
      assert forall i | 0 <= i < |conds| :: list[i].op == conds[i].op;
    }
  }

  /** A printed query is accepted exactly when every operator is one of IS, NOT, ==,
      != and HAS and every limit the parser sees fits 32 bits.  The comparisons the
      client documents, such as `<`, are refused. */
  lemma GetAccepted(q: GetQuery)
    requires Printable(q)
    ensures ParseGet(CommandText(GetWords(q, "WHERE"))).Some? <==>
      ValidOps(q.conds) && LimitsFit(q.before) && LimitsFit(Received(q).after)
  {
    hide Printable, GetWords, ParseGet, CommandText, ApplyAll, NormalList, LimitsFit, ValidOps;
    GetRoundTrip(q);
    var head := NO_PARAMS.(fields := q.fields, alias := q.alias, dataset := q.dataset);
    ApplyAllSucceeds(q.before, head);
    NormalListSucceeds(q.conds);
    ReceivedKeeps(q);
    match WithConditions(ApplyAll(q.before, Some(head)), q.conds)
    case Some(p) => ApplyAllSucceeds(Received(q).after, p);
    case None => ApplyNone(Received(q).after);
  }

  // ---------- when the text says what was meant ----------

  function KindOf(c: Clause): nat {
    match c case ByGroup(_) => 0 case ByOrder(_, _) => 1 case AtMost(_) => 2
  }

  predicate OncePerKind(cs: seq<Clause>) {
    forall i, j | 0 <= i < j < |cs| :: KindOf(cs[i]) != KindOf(cs[j])
  }

  predicate LimitsFit(cs: seq<Clause>) {
    forall i | 0 <= i < |cs| && cs[i].AtMost? :: INT_MIN <= cs[i].n <= INT_MAX
  }

  /** Clauses change only the setting of their own kind. */
  lemma {:induction false} ApplyKeeps(cs: seq<Clause>, p: GetParams)
    requires LimitsFit(cs)
    ensures ApplyAll(cs, Some(p)).Some?
    ensures var r := ApplyAll(cs, Some(p)).value;
            && ((forall i | 0 <= i < |cs| :: KindOf(cs[i]) != 0) ==> r.groupByKey == p.groupByKey)
            && ((forall i | 0 <= i < |cs| :: KindOf(cs[i]) != 1) ==> r.orderByKey == p.orderByKey)
            && ((forall i | 0 <= i < |cs| :: KindOf(cs[i]) != 2) ==> r.limit == p.limit)
  {
    if cs != [] { ApplyKeeps(cs[1..], Apply(cs[0], p).value); }
  }

  predicate SetLater(cs: seq<Clause>, kind: nat) { exists i | 0 <= i < |cs| :: KindOf(cs[i]) == kind }

  /** A later ORDER BY with a direction the server knows. */
  predicate DirectedLater(cs: seq<Clause>) {
    exists i | 0 <= i < |cs| && cs[i].ByOrder? :: Upper(cs[i].order) in {"ASC", "DESC"}
  }

  /** What a clause asks for is overridden by a later one, or already so. */
  predicate Overridden(c: Clause, later: seq<Clause>, p: GetParams) {
    match c
    case ByGroup(key) => SetLater(later, 0) || p.groupByKey == key
    case ByOrder(key, order) =>
      && (SetLater(later, 1) || p.orderByKey == key)
      && (DirectedLater(later) || Direction(Upper(order), p.orderDesc) == p.orderDesc)
    case AtMost(n) => SetLater(later, 2) || p.limit == n
  }

  /** Clauses make two queries equal exactly if every difference is overridden. */
  lemma {:induction false} ClausesLevel(cs: seq<Clause>, p: GetParams, r: GetParams)
    requires LimitsFit(cs)
    requires r == p.(groupByKey := r.groupByKey, orderByKey := r.orderByKey, orderDesc := r.orderDesc, limit := r.limit)
    ensures ApplyAll(cs, Some(p)) == ApplyAll(cs, Some(r)) <==>
      && (SetLater(cs, 0) || p.groupByKey == r.groupByKey)
      && (SetLater(cs, 1) || p.orderByKey == r.orderByKey)
      && (DirectedLater(cs) || p.orderDesc == r.orderDesc)
      && (SetLater(cs, 2) || p.limit == r.limit)
  {
    if cs == [] {
      assert ApplyAll(cs, Some(p)) == Some(p) && ApplyAll(cs, Some(r)) == Some(r);
    } else {
      var c, rest := cs[0], cs[1..];
      LaterCons(cs);
      ClausesLevel(rest, Apply(c, p).value, Apply(c, r).value);
      hide SetLater, DirectedLater, Upper;
    }
  }

  lemma LaterCons(cs: seq<Clause>)
    requires cs != [] && LimitsFit(cs)
    ensures LimitsFit(cs[1..]) && (cs[0].AtMost? ==> INT_MIN <= cs[0].n <= INT_MAX)
    ensures forall kind :: SetLater(cs, kind) <==> KindOf(cs[0]) == kind || SetLater(cs[1..], kind)
    ensures DirectedLater(cs) <==> (cs[0].ByOrder? && Upper(cs[0].order) in {"ASC", "DESC"}) || DirectedLater(cs[1..])
  {
    hide Upper;
    assert forall i | 0 <= i < |cs[1..]| :: cs[1..][i] == cs[i + 1];
    assert forall i | 1 <= i < |cs| :: cs[i] == cs[1..][i - 1];
  }

  lemma OverriddenIsIdle(c: Clause, later: seq<Clause>, p: GetParams)
    requires LimitsFit([c] + later)
    ensures ApplyAll([c] + later, Some(p)) == ApplyAll(later, Some(p)) <==> Overridden(c, later, p)
  {
    LaterCons([c] + later);
    assert ([c] + later)[1..] == later;
    hide SetLater, DirectedLater, Upper;
    ClausesLevel(later, Apply(c, p).value, p);
  }

  /** The query up to its conditions. */
  function Prefix(q: GetQuery): Option<GetParams> {
    ApplyAll(q.before, Some(NO_PARAMS.(fields := q.fields, alias := q.alias, dataset := q.dataset)))
  }

  /** The server sees the query as written exactly when no clause follows WHERE, or
      the first to follow is overridden by a later one or asks for what is so. */
  lemma GetSeesWhatWasWritten(q: GetQuery)
    requires Printable(q) && ValidOps(q.conds) && LimitsFit(q.before + q.after)
    ensures Prefix(q).Some?
    ensures ParseGet(CommandText(GetWords(q, "WHERE"))) == Meaning(q) <==>
      q.conds == [] || q.after == [] || Overridden(q.after[0], q.after[1..], Prefix(q).value)
  {
    hide Printable, GetWords, ParseGet, CommandText, ApplyAll, NormalList, LimitsFit, Overridden;
    GetRoundTrip(q);
    var head := NO_PARAMS.(fields := q.fields, alias := q.alias, dataset := q.dataset);
    SplitLimits(q.before, q.after);
    ApplyAllSucceeds(q.before, head);
    if q.conds != [] && q.after != [] {
      NormalListSucceeds(q.conds);
      assert [q.after[0]] + q.after[1..] == q.after;
      OverriddenIsIdle(q.after[0], q.after[1..], WithConditions(Prefix(q), q.conds).value);
      SameSettings(q.after[0], q.after[1..], Prefix(q).value, WithConditions(Prefix(q), q.conds).value);
    }
  }

  lemma SameSettings(c: Clause, later: seq<Clause>, p: GetParams, r: GetParams)
    requires r == p.(conditions := r.conditions)
    ensures Overridden(c, later, p) <==> Overridden(c, later, r)
  {
    hide SetLater, DirectedLater, Upper;
  }

  lemma SplitLimits(before: seq<Clause>, after: seq<Clause>)
    requires LimitsFit(before + after)
    ensures LimitsFit(before) && LimitsFit(after)
  {
    var all := before + after;
    assert forall i | 0 <= i < |before| :: before[i] == all[i];
    assert forall i | 0 <= i < |after| :: after[i] == all[|before| + i];
  }

  lemma SplitKinds(before: seq<Clause>, after: seq<Clause>)
    requires OncePerKind(before + after) && after != []
    ensures OncePerKind(after)
    ensures forall i | 0 <= i < |before| :: KindOf(before[i]) != KindOf(after[0])
    ensures forall i | 1 <= i < |after| :: KindOf(after[i]) != KindOf(after[0])
  {
    var all := before + after;
    assert forall i | 0 <= i < |before| :: before[i] == all[i];
    assert forall i | 0 <= i < |after| :: after[i] == all[|before| + i];
  }

  lemma KeyIsToken(q: GetQuery)
    requires AllTokens(GetWords(q, "WHERE")) && q.after != []
    ensures q.after[0].ByGroup? || q.after[0].ByOrder? ==> q.after[0].key != ""
  {
    var ws := GetWords(q, "WHERE");
    var n := |HeadWords(q) + ClausesWords(q.before) + WhereWords("WHERE", q.conds)|;
    if !q.after[0].AtMost? {
      assert ClausesWords(q.after)[2] == q.after[0].key;
      assert ws[n + 2] == q.after[0].key;
    }
  }

  /** If the text before `where` happens to contain "WHERE", the builder opens the
      conditions with AND and the server drops them all. */
  lemma ConditionsAreLost(q: GetQuery)
    requires AllTokens(GetWords(q, "AND"))
    requires NoKeywords(WhereWords("AND", q.conds))
    ensures ParseGet(CommandText(GetWords(q, "AND"))) == Meaning(q.(conds := []))
  {
    hide Trim, Tokens, ReadClauses, ApplyAll, HeadWords, ClausesWords, WhereWords;
    var ws := GetWords(q, "AND");
    var where := WhereWords("AND", q.conds);
    var after := ClausesWords(q.after);
    var head := NO_PARAMS.(fields := q.fields, alias := q.alias, dataset := q.dataset);
    HeadNotEmpty(q);
    CommandTokens(ws);
    assert ws == HeadWords(q) + (ClausesWords(q.before) + (where + after));
    ReadHead(q, ClausesWords(q.before) + (where + after));
    ReadClausesWords(q.before, where + after, head);
    match ApplyAll(q.before, Some(head))
    case None => ApplyNone(q.after);
    case Some(p) =>
      SkipWords(where, after, p);
      ReadAllClauses(q.after, p);
      assert p.conditions + [] == p.conditions;
  }
}
