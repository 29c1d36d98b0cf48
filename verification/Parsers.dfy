/** The command parsers of the GET, REMOVE and CHANGE handlers.  Commands are read
    as whitespace-separated tokens, each trimmed of one trailing ';'. */
module Parsers {
  import opened Options
  import opened Text
  import opened Conditions
  import opened Json
  import opened Query

  function Trimmed(raw: seq<string>): (ts: seq<string>)
    ensures |ts| == |raw| && forall i | 0 <= i < |ts| :: ts[i] == Trim(raw[i])
  {
    seq(|raw|, i requires 0 <= i < |raw| => Trim(raw[i]))
  }

  lemma TrimmedTail(raw: seq<string>, n: nat)
    requires n <= |raw|
    ensures Trimmed(raw[n..]) == Trimmed(raw)[n..]
  {}

  // ---------- conditions ----------

  /** IS and NOT are rewritten; <, <=, >, >= are refused. */
  function NormalOp(op: string): Option<string> {
    if op == "IS" then Some("==")
    else if op == "NOT" then Some("!=")
    else if op == "==" || op == "!=" || op == "HAS" then Some(op)
    else None
  }

  /** What the accepted operators stand for once rewritten. */
  lemma {:induction false} OperatorsMeanWhatTheySay(item: Json, field: string, v: Json, value: string)
    requires Shows(item, field, v) && v != Null
    ensures NormalOp("IS").Some? && NormalOp("NOT").Some?
    ensures True(item, Cond(field, NormalOp("IS").value, value)) <==> !True(item, Cond(field, NormalOp("NOT").value, value))
    ensures True(item, Cond(field, NormalOp("IS").value, value)) <==>
      if v.Int? && Stod(value).Some? then Stod(value).value == Finite(v.n as real)
      else (if v.Str? then v.s else Dump(v)) == value
    ensures forall op :: NormalOp(op).Some? <==> op in {"IS", "NOT", "==", "!=", "HAS"}
  {
    OperatorsCohere(item, field, v, value);
    ConditionMeaning(item, field, v, value);
  }

  function ReadCondition(ts: seq<string>, logic: string): Option<Condition> {
    if |ts| < 3 then None
    else match NormalOp(ts[1])
      case Some(op) => Some(Condition(ts[0], op, ts[2], logic))
      case None => None
  }

  datatype ConditionsRead = ConditionsRead(conds: seq<Condition>, rest: seq<string>)

  /** The `AND|OR field op value` loop; `rest` starts at the token that ends it. */
  function ReadConditions(ts: seq<string>): Option<ConditionsRead> {
    if ts == [] || !KnownLogic(ts[0]) then Some(ConditionsRead([], ts))
    else match ReadCondition(ts[1..], ts[0])
      case None => None
      case Some(c) =>
        match ReadConditions(ts[4..])
        case None => None
        case Some(r) => Some(ConditionsRead([c] + r.conds, r.rest))
  }

  /** A whole WHERE clause, past the keyword. */
  function ReadWhere(ts: seq<string>): Option<ConditionsRead> {
    match ReadCondition(ts, "")
    case None => None
    case Some(c) =>
      match ReadConditions(ts[3..])
      case None => None
      case Some(r) => Some(ConditionsRead([c] + r.conds, r.rest))
  }

  /** WHERE lists hold AND/OR between conditions. */
  lemma {:induction false} ReadConditionsLogic(ts: seq<string>)
    ensures ReadConditions(ts).Some? ==>
      forall i | 0 <= i < |ReadConditions(ts).value.conds| :: KnownLogic(ReadConditions(ts).value.conds[i].logic)
    ensures ReadConditions(ts).Some? ==> |ReadConditions(ts).value.rest| <= |ts|
    decreases |ts|
  {
    if ts != [] && KnownLogic(ts[0]) && |ts| >= 4 { ReadConditionsLogic(ts[4..]); }
  }

  lemma ReadWhereLogic(ts: seq<string>)
    ensures ReadWhere(ts).Some? ==>
      && ReadWhere(ts).value.conds != [] && ValidLogic(ReadWhere(ts).value.conds)
      && |ReadWhere(ts).value.rest| <= |ts| - 3
  {
    if |ts| >= 3 { ReadConditionsLogic(ts[3..]); }
  }

  /** Three reads and the rewriting of the operator. */
  method ReadOneCondition(raw: seq<string>, logic: string) returns (cond: Option<Condition>)
    requires |raw| >= 3
    ensures cond == ReadCondition(Trimmed(raw), logic)
  {
    hide Trim;
    var field, op, value := Trim(raw[0]), Trim(raw[1]), Trim(raw[2]);
    if op == "IS" {
      op := "==";
    } else if op == "NOT" {
      op := "!=";
    } else if op != "==" && op != "!=" && op != "HAS" {
      return None;
    }
    return Some(Condition(field, op, value, logic));
  }

  /** The loop the three parsers share. */
  method ReadWhereClause(raw: seq<string>) returns (read: Option<ConditionsRead>, rest: seq<string>)
    ensures read == ReadWhere(Trimmed(raw))
    ensures read.Some? ==> |rest| <= |raw| - 3 && read.value.rest == Trimmed(rest)
  {
    rest := raw;
    if |rest| < 3 { return None, rest; }
    var first := ReadOneCondition(rest, "");
    if first.None? { return None, rest; }
    var conds := [first.value];
    rest := rest[3..];
    TrimmedTail(raw, 3);
    while rest != []
      invariant |rest| <= |raw| - 3
      invariant conds != []
      invariant ReadWhere(Trimmed(raw)) == Prepend(conds, ReadConditions(Trimmed(rest)))
      decreases |rest|
    {
      var token := Trim(rest[0]);
      if token != "AND" && token != "OR" { break; }
      if |rest| < 4 { return None, rest; }
      TrimmedTail(rest, 1);
      TrimmedTail(rest, 4);
      var next := ReadOneCondition(rest[1..], token);
      if next.None? { return None, rest; }
      PrependStep(conds, next.value, ReadConditions(Trimmed(rest[4..])));
      conds := conds + [next.value];
      rest := rest[4..];
    }
    read := Some(ConditionsRead(conds, Trimmed(rest)));
    assert conds + [] == conds;
  }

  function Prepend(conds: seq<Condition>, r: Option<ConditionsRead>): Option<ConditionsRead> {
    match r case None => None case Some(v) => Some(ConditionsRead(conds + v.conds, v.rest))
  }

  lemma PrependStep(conds: seq<Condition>, c: Condition, r: Option<ConditionsRead>)
    ensures Prepend(conds, Prepend([c], r)) == Prepend(conds + [c], r)
  {
    if r.Some? { assert conds + ([c] + r.value.conds) == conds + [c] + r.value.conds; }
  }

  // ---------- GET ----------

  const NO_PARAMS := GetParams("", "", "", [], "", "", false, -1)

  function Direction(option: string, current: bool): bool {
    if option == "DESC" then true else if option == "ASC" then false else current
  }

  /** The optional clauses.  The token that ends a WHERE clause is dropped, and
      unknown tokens are skipped. */
  function ReadClauses(ts: seq<string>, p: GetParams): Option<GetParams>
    decreases |ts|
  {
    if ts == [] then Some(p)
    else if ts[0] == "WHERE" then
      ReadWhereLogic(ts[1..]);
      match ReadWhere(ts[1..])
      case None => None
      case Some(r) =>
        ReadClauses(if r.rest == [] then [] else r.rest[1..], p.(conditions := p.conditions + r.conds))
    else if ts[0] == "GROUP" then
      if |ts| < 3 || ts[1] != "BY" then None
      else ReadClauses(ts[3..], p.(groupByKey := ts[2]))
    else if ts[0] == "ORDER" then
      if |ts| < 3 || ts[1] != "BY" then None
      else if |ts| == 3 then Some(p.(orderByKey := ts[2]))
      else ReadClauses(ts[4..], p.(orderByKey := ts[2], orderDesc := Direction(ts[3], p.orderDesc)))
    else if ts[0] == "LIMIT" then
      if |ts| < 2 || Stoi(ts[1]).None? then None
      else ReadClauses(ts[2..], p.(limit := Stoi(ts[1]).value))
    else ReadClauses(ts[1..], p)
  }

  function ReadGet(ts: seq<string>): Option<GetParams> {
    if |ts| < 4 || ts[0] != "GET" then None
    else if ts[2] == "IN" then
      ReadClauses(ts[4..], NO_PARAMS.(fields := ts[1], dataset := ts[3]))
    else if ts[2] == "AS" && |ts| >= 6 && ts[4] == "IN" then
      ReadClauses(ts[6..], NO_PARAMS.(fields := ts[1], alias := ts[3], dataset := ts[5]))
    else None
  }

  function ParseGet(command: string): Option<GetParams> { ReadGet(Trimmed(Tokens(command))) }

  method ParseGetCommand(command: string) returns (params: Option<GetParams>)
    ensures params == ParseGet(command)
  {
    hide ReadWhere, Trim, Tokens, Stoi;
    var iss := Tokens(command);
    ghost var ts := Trimmed(iss);
    if |iss| < 4 || Trim(iss[0]) != "GET" { return None; }
    var p := GetParams(Trim(iss[1]), "", "", [], "", "", false, -1);
    var token := Trim(iss[2]);
    if token == "AS" {
      if |iss| < 6 || Trim(iss[4]) != "IN" { return None; }
      p := p.(alias := Trim(iss[3]), dataset := Trim(iss[5]));
      TrimmedTail(iss, 6);
      iss := iss[6..];
    } else if token == "IN" {
      p := p.(dataset := Trim(iss[3]));
      TrimmedTail(iss, 4);
      iss := iss[4..];
    } else {
      return None;
    }
    while iss != []
      invariant ReadGet(ts) == ReadClauses(Trimmed(iss), p)
      decreases |iss|
    {
      var more, p' := ParseClause(iss, p);
      if more.None? { return None; }
      iss, p := more.value, p';
    }
    return Some(p);
  }

  /** One turn of the clause loop. */
  method ParseClause(iss: seq<string>, p: GetParams) returns (more: Option<seq<string>>, p': GetParams)
    requires iss != []
    ensures more.None? ==> ReadClauses(Trimmed(iss), p) == None
    ensures more.Some? ==> |more.value| < |iss|
    ensures more.Some? ==> ReadClauses(Trimmed(iss), p) == ReadClauses(Trimmed(more.value), p')
  {
    hide ReadWhere, Trim;
    p' := p;
    var n := |iss|;
    var token := Trim(iss[0]);
    TrimmedTail(iss, 1);
    if token == "WHERE" {
      ReadWhereLogic(Trimmed(iss[1..]));
      var read, rest := ReadWhereClause(iss[1..]);
      if read.None? { return None, p; }
      p' := p.(conditions := p.conditions + read.value.conds);
      if rest != [] { TrimmedTail(rest, 1); }
      more := Some(if rest == [] then [] else rest[1..]);
    } else if token == "GROUP" {
      if n < 3 || Trim(iss[1]) != "BY" { return None, p; }
      p' := p.(groupByKey := Trim(iss[2]));
      TrimmedTail(iss, 3);
      more := Some(iss[3..]);
    } else if token == "ORDER" {
      if n < 3 || Trim(iss[1]) != "BY" { return None, p; }
      p' := p.(orderByKey := Trim(iss[2]));
      if n == 3 { return Some([]), p'; }
      var orderOpt := Trim(iss[3]);
      if orderOpt == "DESC" {
        p' := p'.(orderDesc := true);
      } else if orderOpt == "ASC" {
        p' := p'.(orderDesc := false);
      }
      TrimmedTail(iss, 4);
      more := Some(iss[4..]);
    } else if token == "LIMIT" {
      if n < 2 { return None, p; }
      var limit := Stoi(Trim(iss[1]));
      if limit.None? { return None, p; }
      p' := p.(limit := limit.value);
      TrimmedTail(iss, 2);
      more := Some(iss[2..]);
    } else {
      more := Some(iss[1..]);
    }
  }

  // ---------- REMOVE ----------

  datatype RemoveParams = RemoveParams(conditions: seq<Condition>, dataset: string)

  function ReadRemove(ts: seq<string>): Option<RemoveParams> {
    if |ts| < 4 || ts[0] != "REMOVE" then None
    else if ts[1] == "WHERE" then
      match ReadWhere(ts[2..])
      case None => None
      case Some(r) =>
        if |r.rest| < 2 || Trim(r.rest[0]) != "IN" then None
        else Some(RemoveParams(r.conds, r.rest[1]))
    else if ts[2] != "IN" then None
    else Some(RemoveParams([Condition("name", "==", ts[1], "")], ts[3]))
  }

  function ParseRemove(command: string): Option<RemoveParams> { ReadRemove(Trimmed(Tokens(command))) }

  method ParseRemoveCommand(command: string) returns (params: Option<RemoveParams>)
    ensures params == ParseRemove(command)
  {
    hide Trim, Tokens, ReadWhere;
    var iss := Tokens(command);
    if |iss| < 2 || Trim(iss[0]) != "REMOVE" { return None; }
    var token := Trim(iss[1]);
    if token == "WHERE" {
      TrimmedTail(iss, 2);
      ReadWhereLogic(Trimmed(iss[2..]));
      var read, rest := ReadWhereClause(iss[2..]);
      if read.None? || rest == [] || Trim(Trim(rest[0])) != "IN" || |rest| < 2 { return None; }
      return Some(RemoveParams(read.value.conds, Trim(rest[1])));
    }
    if |iss| < 4 || Trim(iss[2]) != "IN" { return None; }
    return Some(RemoveParams([Condition("name", "==", token, "")], Trim(iss[3])));
  }

  // ---------- CHANGE ----------

  datatype ChangeParams = ChangeParams(field: string, newValue: string, conditions: seq<Condition>, dataset: string)

  /** Tokens past the keyword, which CHANGE alone compares untrimmed. */
  function ReadChange(ts: seq<string>): Option<ChangeParams> {
    if |ts| < 5 || ts[1] != "=" then None
    else if ts[3] == "WHERE" then
      match ReadWhere(ts[4..])
      case None => None
      case Some(r) =>
        if |r.rest| < 2 || Trim(r.rest[0]) != "IN" then None
        else Some(ChangeParams(ts[0], ts[2], r.conds, r.rest[1]))
    else if ts[3] != "IN" then None
    else Some(ChangeParams(ts[0], ts[2], [], ts[4]))
  }

  function ParseChange(command: string): Option<ChangeParams> {
    var raw := Tokens(command);
    if raw == [] || raw[0] != "CHANGE" then None else ReadChange(Trimmed(raw[1..]))
  }

  method ParseChangeCommand(command: string) returns (params: Option<ChangeParams>)
    ensures params == ParseChange(command)
  {
    hide Trim, Tokens, ReadWhere;
    var iss := Tokens(command);
    if iss == [] || iss[0] != "CHANGE" { return None; }
    iss := iss[1..];
    if |iss| < 4 || Trim(iss[1]) != "=" { return None; }
    var field, newValue, token := Trim(iss[0]), Trim(iss[2]), Trim(iss[3]);
    if token == "WHERE" {
      TrimmedTail(iss, 4);
      ReadWhereLogic(Trimmed(iss[4..]));
      var read, rest := ReadWhereClause(iss[4..]);
      if read.None? || rest == [] || Trim(Trim(rest[0])) != "IN" || |rest| < 2 { return None; }
      return Some(ChangeParams(field, newValue, read.value.conds, Trim(rest[1])));
    }
    if token != "IN" || |iss| < 5 { return None; }
    return Some(ChangeParams(field, newValue, [], Trim(iss[4])));
  }

  /** Whatever text REMOVE or CHANGE accepts, evaluating its conditions succeeds. */
  lemma ParsedConditionsEvaluate(command: string)
    ensures ParseRemove(command).Some? ==>
      && ParseRemove(command).value.conditions != []
      && ValidLogic(ParseRemove(command).value.conditions)
    ensures ParseChange(command).Some? ==> ValidLogic(ParseChange(command).value.conditions)
  {
    hide ReadWhere;
    var ts := Trimmed(Tokens(command));
    if |ts| >= 2 { ReadWhereLogic(ts[2..]); }
    if |ts| >= 1 {
      var us := Trimmed(Tokens(command)[1..]);
      if |us| >= 4 { ReadWhereLogic(us[4..]); }
    }
  }
}
