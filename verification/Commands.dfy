/** The commands as operations on a store of named tables, and laws of their runs
    (app/handlers; the dispatch table of app/src/main.cpp). */
module Commands {
  import opened Options
  import opened Text
  import opened Json
  import opened Conditions
  import opened Rows
  import opened Query
  import opened Parsers
  import opened Storage
  import Scheduler

  // ---------- from text to commands ----------

  type Row = j: Json | j.Obj? witness Obj([])

  /** What the pattern of ADD captures; `row` is None when the block is not JSON. */
  datatype AddParts = AddParts(row: Option<Row>, unique: string, dataset: string)

  /** The regular expression of ADD and the JSON parser behind it. */
  type AddPattern = string -> Option<AddParts>

  datatype Command =
    | Create(dataset: string)
    | Drop(dataset: string)
    | Empty(dataset: string)
    | Add(parts: AddParts)
    | Get(get: GetParams)
    | Remove(remove: RemoveParams)
    | Change(change: ChangeParams)
    | Count(dataset: string, condition: string)
    | Refused(code: int)

  /** Token i, trimmed; a failed read leaves an empty string. */
  function Token(request: string, i: nat): string {
    var ts := Tokens(request);
    if i < |ts| then Trim(ts[i]) else ""
  }

  /** Dispatch on the text before the first blank, then the handler's own parser. */
  function Decode(request: string, pattern: AddPattern): Command {
    var word := request[..IndexOf(request, ' ')];
    if word == "CREATE" then
      if "CREATE TABLE" <= request then Create(Token(request, 2)) else Refused(423)
    else if word == "DELETE" then Drop(Token(request, 1))
    else if word == "EMPTY" then Empty(Token(request, 1))
    else if word == "ADD" then
      match pattern(request) case Some(parts) => Add(parts) case None => Refused(423)
    else if word == "GET" then
      match ParseGet(request) case Some(p) => Get(p) case None => Refused(423)
    else if word == "REMOVE" then
      match ParseRemove(request) case Some(p) => Remove(p) case None => Refused(423)
    else if word == "CHANGE" then
      match ParseChange(request) case Some(p) => Change(p) case None => Refused(423)
    else if word == "COUNT" then
      if |Tokens(request)| >= 2 then Count(Token(request, 1), Token(request, 2)) else Refused(423)
    else Refused(1)
  }

  /** Scheduling priority and dispatch look at the same word: creating and dropping
      come before writing, writing before reading, and all before refusals. */
  lemma PriorityOfCommand(request: string, pattern: AddPattern)
    ensures var cmd, p := Decode(request, pattern), Scheduler.Priority(request);
            && (cmd.Create? || cmd.Drop? ==> p == 10)
            && (cmd.Add? || cmd.Remove? || cmd.Change? ==> p == 5)
            && (cmd.Get? || cmd.Count? || cmd.Empty? ==> p == 1)
            && (cmd == Refused(1) ==> p == 0)
  {
    hide Tokens, ParseGet, ParseRemove, ParseChange, Trim;
  }

  /** The word before the first blank decides: eight are known, and those whose text
      their handler cannot read are refused with 423. */
  lemma DispatchIsByWord(request: string, pattern: AddPattern)
    ensures var word, cmd := request[..IndexOf(request, ' ')], Decode(request, pattern);
      && (cmd == Refused(1) <==> word !in {"CREATE", "DELETE", "EMPTY", "ADD", "GET", "REMOVE", "CHANGE", "COUNT"})
      && (cmd.Refused? ==> cmd.code == 1 || cmd.code == 423)
      && (cmd.Add? <==> word == "ADD" && pattern(request).Some?)
      && (cmd.Add? ==> pattern(request) == Some(cmd.parts))
      && (cmd.Get? <==> word == "GET" && ParseGet(request).Some?)
      && (cmd.Remove? <==> word == "REMOVE" && ParseRemove(request).Some?)
      && (cmd.Change? <==> word == "CHANGE" && ParseChange(request).Some?)
  {
    hide Tokens, ParseGet, ParseRemove, ParseChange, Trim;
  }

  /** A CREATE TABLE without a name asks for the dataset with the empty one. */
  lemma EmptyNameArrives(pattern: AddPattern)
    ensures Decode("CREATE TABLE ;", pattern) == Create("")
    ensures Decode("DELETE ;", pattern) == Drop("")
  {
    TrimTerminator();
    NamelessCreate();
    NamelessDelete();
    hide Decode, Tokens, Trim, IndexOf;
    assert "CREATE TABLE ;"[..12] == "CREATE TABLE";
    DecodeNamed("CREATE TABLE ;", pattern);
    DecodeNamed("DELETE ;", pattern);
  }

  lemma NamelessCreate()
    ensures "CREATE TABLE ;"[..IndexOf("CREATE TABLE ;", ' ')] == "CREATE"
    ensures Tokens("CREATE TABLE ;") == ["CREATE", "TABLE", ";"]
  {
    hide Tokens, IndexOf;
    TokensOfWord("CREATE");
    TokensOfWord("TABLE");
    TokensJoin("CREATE", "TABLE");
    assert "CREATE" + " " + "TABLE" == "CREATE" + " TABLE";
    WordsAndTerminator("CREATE", " TABLE", ["CREATE", "TABLE"]);
    assert "CREATE" + " TABLE" + " ;" == "CREATE TABLE ;";
  }

  lemma NamelessDelete()
    ensures "DELETE ;"[..IndexOf("DELETE ;", ' ')] == "DELETE" && Tokens("DELETE ;") == ["DELETE", ";"]
  {
    hide Tokens, IndexOf;
    TokensOfWord("DELETE");
    assert "DELETE" + "" == "DELETE";
    WordsAndTerminator("DELETE", "", ["DELETE"]);
    assert "DELETE" + "" + " ;" == "DELETE ;";
  }

  lemma DecodeNamed(text: string, pattern: AddPattern)
    ensures text[..IndexOf(text, ' ')] == "CREATE" && "CREATE TABLE" <= text ==>
      Decode(text, pattern) == Create(Token(text, 2))
    ensures text[..IndexOf(text, ' ')] == "DELETE" ==> Decode(text, pattern) == Drop(Token(text, 1))
  {
    hide ParseGet, ParseRemove, ParseChange, Tokens, Trim, Token;
  }

  lemma WordsAndTerminator(word: string, more: string, ws: seq<string>)
    requires (forall k | 0 <= k < |word| :: word[k] != ' ') && (more == "" || more[0] == ' ')
    requires Tokens(word + more) == ws
    ensures var s := word + more + " ;";
            s[..IndexOf(s, ' ')] == word && Tokens(s) == ws + [";"]
  {
    hide Tokens;
    var s := word + more + " ;";
    assert s == word + more + " " + ";";
    TokensJoin(word + more, ";");
    TokensOfWord(";");
    IndexOfIs(s, ' ', |word|);
  }

  lemma TrimTerminator()
    ensures Trim(";") == ""
  {}

  // ---------- effects ----------

  predicate AllTables(store: Store) { forall name | name in store :: AllObjects(store[name]) }

  predicate HasValue(rows: seq<Json>, field: string, value: Option<Json>) {
    exists i | 0 <= i < |rows| :: Field(rows[i], field) == value
  }

  /** Status of ADD: 11 bad JSON, 12 unique field absent, 1 no such dataset,
      10 value already there, 2 inserted. */
  function AddCode(store: Store, a: AddParts): int {
    if a.row.None? then 11
    else if a.unique != "" && !Contains(a.row.value, a.unique) then 12
    else if a.dataset !in store then 1
    else if a.unique != "" && HasValue(store[a.dataset], a.unique, Field(a.row.value, a.unique)) then 10
    else 2
  }

  /** A WHERE list is only examined when there is a row to examine it on. */
  predicate Evaluates(rows: seq<Json>, conds: seq<Condition>) { rows == [] || ValidLogic(conds) }

  function Update(store: Store, cmd: Command): (r: Store)
    requires AllTables(store)
    ensures AllTables(r)
  {
    match cmd
    case Create(ds) => if ds in store then store else store[ds := []]
    case Drop(ds) => store - {ds}
    case Empty(ds) => if ds in store then store[ds := []] else store
    case Add(a) =>
      if AddCode(store, a) == 2 then store[a.dataset := store[a.dataset] + [a.row.value]] else store
    case Remove(p) =>
      if p.dataset in store && Evaluates(store[p.dataset], p.conditions) then
        KeptObjects(store[p.dataset], p.conditions);
        store[p.dataset := Filter(store[p.dataset], Not(Matches(p.conditions)))]
      else store
    case Change(p) =>
      if p.dataset in store && Evaluates(store[p.dataset], p.conditions) then
        store[p.dataset := Changed(store[p.dataset], p.conditions, p.field, p.newValue)]
      else store
    case _ => store
  }

  lemma KeptObjects(rows: seq<Json>, conds: seq<Condition>)
    requires AllObjects(rows)
    ensures AllObjects(Filter(rows, Not(Matches(conds))))
  {
    var kept := Filter(rows, Not(Matches(conds)));
    FilterMembers(rows, Not(Matches(conds)));
    forall i | 0 <= i < |kept| ensures kept[i].Obj? { assert kept[i] in rows; }
  }

  datatype Payload = Nothing | Removed(n: nat) | ChangedRows(n: nat) | Counted(n: nat) | Found(body: Body)

  datatype Response = Response(code: int, payload: Payload)

  function CountReply(rows: seq<Json>, condition: string): Response {
    var pos := IndexOf(condition, ':');
    if condition == "" then Response(0, Counted(|rows|))
    else if pos == |condition| then Response(423, Nothing)
    else
      var key, value := Trim(condition[..pos]), Trim(condition[pos + 1..]);
      Response(0, Counted(|Filter(rows, CountedBy(key, value))|))
  }

  /** The responses a command may give; only GET's order of ties is left open. */
  ghost predicate Reply(store: Store, cmd: Command, r: Response) {
    match cmd
    case Create(ds) => r == Response(if ds in store then 10 else 0, Nothing)
    case Drop(ds) => r == Response(if ds in store then 0 else 567, Nothing)
    case Empty(ds) => r == Response(if ds in store then 0 else 1, Nothing)
    case Add(a) => r == Response(AddCode(store, a), Nothing)
    case Get(p) =>
      if p.dataset !in store then r == Response(1, Nothing)
      else if !Evaluates(store[p.dataset], p.conditions) then r == Response(3, Nothing)
      else r.code == 0 && r.payload.Found? && IsGetBody(store[p.dataset], p, r.payload.body)
    case Remove(p) =>
      if p.dataset !in store then r == Response(1, Nothing)
      else if !Evaluates(store[p.dataset], p.conditions) then r == Response(3, Nothing)
      else r == Response(0, Removed(|Selected(store[p.dataset], p.conditions)|))
    case Change(p) =>
      if p.dataset !in store then r == Response(1, Nothing)
      else if !Evaluates(store[p.dataset], p.conditions) then r == Response(3, Nothing)
      else r == Response(0, ChangedRows(|Selected(store[p.dataset], p.conditions)|))
    case Count(ds, condition) =>
      if ds !in store then r == Response(1, Nothing) else r == CountReply(store[ds], condition)
    case Refused(code) => r == Response(code, Nothing)
  }

  // ---------- laws of single commands ----------

  /** The dataset a command names. */
  function Target(cmd: Command): Option<string> {
    match cmd
    case Add(a) => Some(a.dataset)
    case Get(p) => Some(p.dataset)
    case Remove(p) => Some(p.dataset)
    case Change(p) => Some(p.dataset)
    case Refused(_) => None
    case _ => Some(cmd.dataset)
  }

  /** A command never touches a dataset it does not name. */
  lemma {:induction false} UpdateIsLocal(store: Store, cmd: Command, other: string)
    requires AllTables(store) && Target(cmd) != Some(other)
    ensures other in Update(store, cmd) <==> other in store
    ensures other in store ==> Update(store, cmd)[other] == store[other]
  {}

  /** After REMOVE, GET with the same conditions answers with no row, and a second
      REMOVE reports none and changes nothing. */
  lemma RemoveThenGet(store: Store, p: RemoveParams, g: GetParams, r: Response)
    requires AllTables(store) && p.dataset in store
    requires p.conditions != [] && ValidLogic(p.conditions)
    requires g == NO_PARAMS.(fields := "*", dataset := p.dataset, conditions := p.conditions)
    requires Reply(Update(store, Remove(p)), Get(g), r)
    ensures r == Response(0, Found(Wrapped(Table([]), 0)))
    ensures Update(Update(store, Remove(p)), Remove(p)) == Update(store, Remove(p))
    ensures Reply(Update(store, Remove(p)), Remove(p), Response(0, Removed(0)))
  {
    RemoveSplitsTable(store[p.dataset], p.conditions);
    assert Finished([], g) == [];
  }

  /** CHANGE twice is CHANGE once. */
  lemma ChangeTwice(store: Store, p: ChangeParams)
    requires AllTables(store)
    ensures Update(Update(store, Change(p)), Change(p)) == Update(store, Change(p))
  {
    if p.dataset in store && Evaluates(store[p.dataset], p.conditions) {
      ChangeIsIdempotent(store[p.dataset], p.conditions, p.field, p.newValue);
    }
  }

  // ---------- runs ----------

  function Run(store: Store, cmds: seq<Command>): (r: Store)
    requires AllTables(store)
    ensures AllTables(r)
    decreases |cmds|
  {
    if cmds == [] then store else Update(Run(store, cmds[..|cmds| - 1]), cmds[|cmds| - 1])
  }

  /** Commands that may share a dataset with `ADD .. UNIQUE field`. */
  predicate RespectsUnique(cmd: Command, dataset: string, field: string) {
    match cmd
    case Add(a) => a.dataset == dataset ==> a.unique == field
    case Change(p) => p.dataset == dataset ==> p.field != field
    case _ => true
  }

  predicate UniqueIn(store: Store, dataset: string, field: string) {
    dataset in store ==> UniqueOn(store[dataset], field)
  }

  lemma FilterKeepsUnique(rows: seq<Json>, p: Json -> bool, field: string)
    requires UniqueOn(rows, field)
    ensures UniqueOn(Filter(rows, p), field)
  {
    if rows != [] {
      var rest := Filter(rows[1..], p);
      FilterKeepsUnique(rows[1..], p, field);
      FilterMembers(rows[1..], p);
      forall i | 0 <= i < |rest| ensures Field(rest[i], field) != Field(rows[0], field) {
        assert rest[i] in rest;
        var k :| 0 <= k < |rows[1..]| && rows[1..][k] == rest[i];
        assert rows[k + 1] == rest[i];
      }
    }
  }

  lemma ChangeKeepsUnique(rows: seq<Json>, p: ChangeParams, field: string)
    requires AllObjects(rows) && UniqueOn(rows, field) && p.field != field
    ensures UniqueOn(Changed(rows, p.conditions, p.field, p.newValue), field)
  {
    var r := Changed(rows, p.conditions, p.field, p.newValue);
    forall i | 0 <= i < |r| ensures Field(r[i], field) == Field(rows[i], field) {
      ChangeTouchesOneField(rows[i], p.conditions, p.field, p.newValue, field);
    }
  }

  lemma UniqueStep(store: Store, cmd: Command, dataset: string, field: string)
    requires AllTables(store) && UniqueIn(store, dataset, field)
    requires field != "" && RespectsUnique(cmd, dataset, field)
    ensures UniqueIn(Update(store, cmd), dataset, field)
  {
    if Target(cmd) != Some(dataset) {
      UpdateIsLocal(store, cmd, dataset);
    } else {
      match cmd
      case Remove(p) =>
        if dataset in store { FilterKeepsUnique(store[dataset], Not(Matches(p.conditions)), field); }
      case Change(p) =>
        if dataset in store { ChangeKeepsUnique(store[dataset], p, field); }
      case _ =>
    }
  }

  /** In every run where a dataset is filled by ADD .. UNIQUE field only, and its
      field is never the one CHANGE writes, the stored rows all have the field and
      are pairwise different in it. */
  lemma {:induction false} UniqueThroughoutRun(store: Store, cmds: seq<Command>, dataset: string, field: string)
    requires AllTables(store) && UniqueIn(store, dataset, field) && field != ""
    requires forall i | 0 <= i < |cmds| :: RespectsUnique(cmds[i], dataset, field)
    ensures UniqueIn(Run(store, cmds), dataset, field)
    decreases |cmds|
  {
    if cmds != [] {
      var n := |cmds| - 1;
      UniqueThroughoutRun(store, cmds[..n], dataset, field);
      UniqueStep(Run(store, cmds[..n]), cmds[n], dataset, field);
    }
  }
}
