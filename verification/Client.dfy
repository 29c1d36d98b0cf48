/** From the client's calls to the server's commands: what each text the builder
    sends is dispatched as. */
module Client {
  import opened Options
  import opened Text
  import opened Conditions
  import opened Parsers
  import opened Printing
  import opened QueryBuilder
  import opened WhereClauses
  import opened Commands
  import opened Query

  lemma FirstWord(ws: seq<string>, rest: string)
    requires |ws| > 1 && Word(ws[0])
    ensures (Line(ws) + rest)[..IndexOf(Line(ws) + rest, ' ')] == ws[0]
  {
    assert ws == [ws[0]] + ws[1..];
    LineAppend([ws[0]], ws[1..]);
    assert Line([ws[0]]) == ws[0];
    assert Line(ws) + rest == ws[0] + (" " + Line(ws[1..]) + rest);
    IndexOfIs(Line(ws) + rest, ' ', |ws[0]|);
  }

  predicate WhereMentioned(q: GetQuery) { !NoneMentions(HeadWords(q) + ClausesWords(q.before), "WHERE") }

  /** What the server makes of a query sent by the builder: the conditions are gone
      when a word before them mentions WHERE; otherwise the clause after them is. */
  function Heard(q: GetQuery): GetQuery {
    if WhereMentioned(q) then q.(conds := []) else Received(q)
  }

  /** A query sent by the builder is dispatched as the GET that means what the server
      heard. */
  lemma SentGet(q: GetQuery, pattern: AddPattern)
    requires Printable(q)
    requires WhereMentioned(q) ==> NoKeywords(WhereWords("AND", q.conds))
    ensures var opening := Opening(HeadWords(q) + ClausesWords(q.before));
            Decode(CommandText(GetWords(q, opening)), pattern) ==
              match Meaning(Heard(q)) case Some(p) => Commands.Get(p) case None => Refused(423)
  {
    hide Meaning, Received, ParseGet, Opening, ParseRemove, ParseChange, NoneMentions, ClausesWords, WhereWords;
    HeadNotEmpty(q);
    OpeningIsWhere(HeadWords(q) + ClausesWords(q.before));
    var opening := Opening(HeadWords(q) + ClausesWords(q.before));
    if WhereMentioned(q) {
      LastToken(q, "AND");
      ConditionsAreLost(q);
    } else {
      GetRoundTrip(q);
    }
    var ws := GetWords(q, opening);
    LastToken(q, opening);
    assert |ws| > 1 && ws[0] == "GET" by { HeadStarts(q); }
    FirstWord(ws, ";");
  }

  lemma HeadStarts(q: GetQuery)
    ensures |HeadWords(q)| > 1 && HeadWords(q)[0] == "GET"
  {}

  /** The conditions the builder printed are those the server reads, from any text it
      accepts, exactly when there are none or no word before them mentions WHERE. */
  lemma ConditionsArrive(q: GetQuery)
    requires AllTokens(GetWords(q, "WHERE")) && ValidLogic(q.conds)
    ensures var text := CommandText(GetWords(q, Opening(HeadWords(q) + ClausesWords(q.before))));
      ParseGet(text).Some? ==>
        (NormalList(q.conds) == Some(ParseGet(text).value.conditions) <==> q.conds == [] || !WhereMentioned(q))
  {
    hide ParseGet, GetWords, CommandText, AllTokens, Opening, NoneMentions, NormalList, ValidLogic;
    var before := HeadWords(q) + ClausesWords(q.before);
    HeadNotEmpty(q);
    OpeningIsWhere(before);
    LastToken(q, Opening(before));
    ConditionsReceived(q, Opening(before));
  }

  lemma SentRemove(conds: seq<Condition>, dataset: string, pattern: AddPattern)
    requires conds != [] && forall i | 1 <= i < |conds| :: conds[i].logic == "AND"
    requires AllTokens(["REMOVE"] + WhereWords("WHERE", conds) + ["IN", dataset])
    ensures Decode(CommandText(["REMOVE"] + WhereWords("WHERE", conds) + ["IN", dataset]), pattern) ==
      match NormalList(conds)
      case Some(cs) => Commands.Remove(RemoveParams(cs, dataset))
      case None => Refused(423)
  {
    hide ParseGet, ParseRemove, ParseChange, WhereWords, NormalList;
    RemoveRoundTrip(conds, dataset);
    FirstWord(["REMOVE"] + WhereWords("WHERE", conds) + ["IN", dataset], ";");
  }

  /** `REMOVE value IN dataset;` removes by name. */
  lemma SentRemoveValue(value: string, dataset: string, pattern: AddPattern)
    requires IsToken(value) && IsToken(dataset) && value != "WHERE"
    ensures Decode(CommandText(["REMOVE", value, "IN", dataset]), pattern) ==
      Commands.Remove(RemoveParams([Condition("name", "==", value, "")], dataset))
  {
    hide ParseGet, ParseRemove, ParseChange;
    RemoveValueRoundTrip(value, dataset);
    FirstWord(["REMOVE", value, "IN", dataset], ";");
  }

  lemma SentChange(field: string, value: string, conds: seq<Condition>, dataset: string, pattern: AddPattern)
    requires forall i | 1 <= i < |conds| :: conds[i].logic == "AND"
    requires AllTokens(["CHANGE", field, "=", value] + WhereWords("WHERE", conds) + ["IN", dataset])
    ensures var head := ["CHANGE", field, "=", value];
            Decode(CommandText(head + WhereWords(Opening(head), conds) + ["IN", dataset]), pattern) ==
              if conds != [] && !NoneMentions(head, "WHERE") then Refused(423)
              else match NormalList(conds)
                case Some(cs) => Commands.Change(ChangeParams(field, value, cs, dataset))
                case None => Refused(423)
  {
    hide ParseGet, ParseRemove, ParseChange, WhereWords, NormalList, Opening, NoneMentions, AllTokens;
    var head := ["CHANGE", field, "=", value];
    OpeningIsWhere(head);
    ReopenedTokens(head, conds, ["IN", dataset]);
    if conds == [] {
      WhereNoWords("WHERE");
      WhereNoWords("AND");
    } else if !NoneMentions(head, "WHERE") {
      MisopenedChangeIsRefused(field, value, conds, dataset);
    }
    ChangeRoundTrip(field, value, conds, dataset);
    CommandWord(head, WhereWords(Opening(head), conds), ["IN", dataset]);
  }

  /** Another keyword in front of the conditions leaves tokens tokens. */
  lemma ReopenedTokens(head: seq<string>, conds: seq<Condition>, end: seq<string>)
    ensures AllTokens(head + WhereWords("WHERE", conds) + end) ==> AllTokens(head + WhereWords("AND", conds) + end)
  {
    var a, b := head + WhereWords("WHERE", conds) + end, head + WhereWords("AND", conds) + end;
    assert |a| == |b|;
    assert forall i | 0 <= i < |b| :: b[i] == a[i] || b[i] == "AND";
    assert IsToken("AND");
  }

  lemma CommandWord(head: seq<string>, middle: seq<string>, end: seq<string>)
    requires |head| > 1 && AllTokens(head + middle + end)
    ensures var text := CommandText(head + middle + end);
            text[..IndexOf(text, ' ')] == head[0]
  {
    hide Line;
    assert (head + middle + end)[0] == head[0];
    FirstWord(head + middle + end, ";");
  }

  /** A CHANGE with two assignments is refused, except for the two field names that
      the server takes for its own words. */
  lemma SentChangeTwice(field: string, value: string, field2: string, value2: string,
                        conds: seq<Condition>, dataset: string, pattern: AddPattern)
    requires forall i | 1 <= i < |conds| :: conds[i].logic == "AND"
    requires AllTokens(TwoAssignments(field, value, field2, value2) + WhereWords("WHERE", conds) + ["IN", dataset])
    ensures var head := TwoAssignments(field, value, field2, value2);
            var cmd := Decode(CommandText(head + WhereWords(Opening(head), conds) + ["IN", dataset]), pattern);
            && (cmd != Refused(423) <==> field2 == "IN" || (field2 == "WHERE" && ValidOp(value2) && ReadLate(conds)))
            && (field2 == "IN" ==> cmd == Commands.Change(ChangeParams(field, value + ",", [], "=")))
  {
    var head := TwoAssignments(field, value, field2, value2);
    hide Decode, WhereWords, Opening, NoneMentions, AllTokens, ReadLate, ValidOp, Mentions, CommandText;
    OpeningIsWhere(head);
    if field2 == "WHERE" { MentionsItself(head, 4); }
    ReopenedTokens(head, conds, ["IN", dataset]);
    DecodeTwoAssignments(field, value, field2, value2, Opening(head), conds, dataset, pattern);
  }

  lemma DecodeTwoAssignments(field: string, value: string, field2: string, value2: string,
                             keyword: string, conds: seq<Condition>, dataset: string, pattern: AddPattern)
    requires field2 == "WHERE" ==> keyword == "AND"
    requires forall i | 1 <= i < |conds| :: conds[i].logic == "AND"
    requires AllTokens(TwoAssignments(field, value, field2, value2) + WhereWords(keyword, conds) + ["IN", dataset])
    ensures var head := TwoAssignments(field, value, field2, value2);
            var cmd := Decode(CommandText(head + WhereWords(keyword, conds) + ["IN", dataset]), pattern);
            && (cmd != Refused(423) <==> field2 == "IN" || (field2 == "WHERE" && ValidOp(value2) && ReadLate(conds)))
            && (field2 == "IN" ==> cmd == Commands.Change(ChangeParams(field, value + ",", [], "=")))
  {
    var head, where := TwoAssignments(field, value, field2, value2), WhereWords(keyword, conds);
    assert |head| == 7 && head[0] == "CHANGE";
    hide Decode, TwoAssignments, ParseChange, WhereWords, AllTokens, ReadLate, ValidOp, CommandText;
    SecondAssignment(field, value, field2, value2, keyword, conds, dataset);
    CommandWord(head, where, ["IN", dataset]);
    DecodeChange(CommandText(head + where + ["IN", dataset]), pattern);
  }

  lemma DecodeChange(text: string, pattern: AddPattern)
    requires text[..IndexOf(text, ' ')] == "CHANGE"
    ensures Decode(text, pattern) ==
      match ParseChange(text) case Some(p) => Commands.Change(p) case None => Refused(423)
  {
    hide ParseChange, ParseGet, ParseRemove, Tokens;
  }

  lemma MentionsItself(ws: seq<string>, i: nat)
    requires i < |ws| && ws[i] == "WHERE"
    ensures !NoneMentions(ws, "WHERE")
  {
    assert At("WHERE", "WHERE", 0);
    assert Mentions(ws[i], "WHERE");
  }

  /** Tokens of a line sent without a terminator. */
  lemma PlainLine(ws: seq<string>)
    requires |ws| > 1 && AllTokens(ws)
    ensures Rtrim(Line(ws)) == Line(ws)
    ensures Tokens(Line(ws)) == ws
    ensures forall i | 0 <= i < |ws| :: Token(Line(ws), i) == ws[i]
    ensures Line(ws)[..IndexOf(Line(ws), ' ')] == ws[0]
  {
    hide Trim, Tokens;
    RtrimLine(ws);
    TokensOfLine(ws);
    forall i | 0 <= i < |ws| ensures Trim(ws[i]) == ws[i] { TrimClean(ws[i]); }
    FirstWord(ws, "");
    assert Line(ws) + "" == Line(ws);
  }

  /** Dispatch of a line sent without a terminator. */
  lemma DecodeLine(ws: seq<string>, pattern: AddPattern)
    requires 1 < |ws| && AllTokens(ws)
    ensures ws[0] == "EMPTY" ==> Decode(Line(ws), pattern) == Commands.Empty(ws[1])
    ensures ws[0] == "DELETE" ==> Decode(Line(ws), pattern) == Drop(ws[1])
    ensures ws[0] == "COUNT" ==>
      Decode(Line(ws), pattern) == Commands.Count(ws[1], if |ws| > 2 then ws[2] else "")
  {
    PlainLine(ws);
    var word := Line(ws)[..IndexOf(Line(ws), ' ')];
    hide Line, Trim, Tokens, ParseGet, ParseRemove, ParseChange;
    assert |ws| == 2 ==> Token(Line(ws), 2) == "";
  }

  /** The commands sent without conditions. */
  lemma SentOthers(dataset: string, pattern: AddPattern)
    requires IsToken(dataset)
    ensures Decode(Rtrim("EMPTY " + dataset), pattern) == Commands.Empty(dataset)
    ensures Decode(Rtrim("DELETE " + dataset), pattern) == Drop(dataset)
    ensures Decode(Rtrim("COUNT " + dataset), pattern) == Commands.Count(dataset, "")
  {
    hide Decode, Rtrim, Line;
    forall word | word in {"EMPTY", "DELETE", "COUNT"}
      ensures Rtrim(word + " " + dataset) == Line([word, dataset])
    {
      LineOf([word, dataset]);
      PlainLine([word, dataset]);
    }
    DecodeLine(["EMPTY", dataset], pattern);
    DecodeLine(["DELETE", dataset], pattern);
    DecodeLine(["COUNT", dataset], pattern);
    assert "EMPTY" + " " == "EMPTY " && "DELETE" + " " == "DELETE " && "COUNT" + " " == "COUNT ";
  }

  lemma SentCount(dataset: string, condition: string, pattern: AddPattern)
    requires IsToken(dataset) && IsToken(condition)
    ensures Decode(Rtrim("COUNT " + dataset + " " + condition), pattern) == Commands.Count(dataset, condition)
  {
    hide Decode, Rtrim, Line;
    var ws := ["COUNT", dataset, condition];
    ThreeWords("COUNT", dataset, condition);
    PlainLine(ws);
    DecodeLine(ws, pattern);
    assert "COUNT" + " " == "COUNT ";
  }

  lemma ThreeWords(a: string, b: string, c: string)
    ensures Line([a, b, c]) == a + " " + b + " " + c
  {
    assert [a, b, c] == [a, b] + [c];
    LineSnoc([a, b], c);
    LineOf([a, b]);
  }

  lemma SentCreate(table: string, pattern: AddPattern)
    requires IsToken(table)
    ensures Decode(Rtrim("CREATE TABLE " + table) + ";", pattern) == Commands.Create(table)
  {
    hide Rtrim, Line, Decode, Tokens, Trim;
    var ws := ["CREATE", "TABLE", table];
    ThreeWords("CREATE", "TABLE", table);
    assert "CREATE" + " " + "TABLE" + " " == "CREATE TABLE ";
    PlainLine(ws);
    DecodeCreate(table, pattern);
  }

  lemma DecodeCreate(table: string, pattern: AddPattern)
    requires IsToken(table)
    ensures Decode(CommandText(["CREATE", "TABLE", table]), pattern) == Commands.Create(table)
  {
    hide Tokens, Trim, Line, ParseGet, ParseRemove, ParseChange;
    var ws := ["CREATE", "TABLE", table];
    CommandTokens(ws);
    FirstWord(ws, ";");
    ThreeWords("CREATE", "TABLE", table);
    var text := CommandText(ws);
    assert text[..12] == "CREATE TABLE";
    assert Trimmed(Tokens(text))[2] == table;
  }
}
