/** The fluent client (connectors/php/src/RoktClient.php): an object that appends
    to its command text, and what the chains of calls it documents print. */
module QueryBuilder {
  import opened Options
  import opened Text
  import opened Conditions
  import opened Parsers
  import opened Printing
  import Query

  // ---------- strpos and rtrim ----------

  predicate At(s: string, w: string, i: nat) { i + |w| <= |s| && s[i..i + |w|] == w }

  /** `strpos(s, w) !== false`. */
  predicate Mentions(s: string, w: string) { exists i | 0 <= i <= |s| :: At(s, w, i) }

  /** PHP's rtrim: blank, tab, newline, return, NUL, vertical tab. */
  function Rtrim(s: string): string {
    if s != "" && s[|s| - 1] in {' ', '\t', '\n', '\r', '\0', 11 as char} then Rtrim(s[..|s| - 1]) else s
  }

  /** rtrim removes exactly the white space and NULs at the end. */
  lemma {:induction false} RtrimMeaning(core: string, post: string)
    requires core == "" || core[|core| - 1] !in {' ', '\t', '\n', '\r', '\0', 11 as char}
    requires forall i | 0 <= i < |post| :: post[i] in {' ', '\t', '\n', '\r', '\0', 11 as char}
    ensures Rtrim(core + post) == core
    decreases |post|
  {
    if post == "" {
      assert core + post == core;
    } else {
      var n := |post| - 1;
      assert (core + post)[..|core + post| - 1] == core + post[..n];
      RtrimMeaning(core, post[..n]);
    }
  }

  /** A word cannot straddle the blank between two texts. */
  lemma MentionsJoin(a: string, b: string, w: string)
    requires Word(w)
    ensures Mentions(a + " " + b, w) <==> Mentions(a, w) || Mentions(b, w)
  {
    var s := a + " " + b;
    if Mentions(s, w) {
      var i :| 0 <= i <= |s| && At(s, w, i);
      var m := |a| - i;
      assert forall p | i <= p < i + |w| :: !IsSpace(s[p]) by {
        forall p | i <= p < i + |w| ensures !IsSpace(s[p]) { assert s[p] == w[p - i]; }
      }
      assert IsSpace(s[|a|]);
      if 0 <= m < |w| {
        assert false;
      } else if m >= |w| {
        assert a[i..i + |w|] == w;
        assert At(a, w, i);
      } else {
        assert b[i - |a| - 1..i - |a| - 1 + |w|] == w;
        assert At(b, w, i - |a| - 1);
      }
    }
    if Mentions(a, w) {
      var i :| 0 <= i <= |a| && At(a, w, i);
      assert s[i..i + |w|] == a[i..i + |w|];
      assert At(s, w, i);
    }
    if Mentions(b, w) {
      var i :| 0 <= i <= |b| && At(b, w, i);
      assert s[|a| + 1..] == b;
      assert s[|a| + 1 + i..|a| + 1 + i + |w|] == s[|a| + 1..][i..i + |w|];
      assert At(s, w, |a| + 1 + i);
    }
  }

  /** The text of some words mentions a word when one of them does. */
  lemma {:induction false} MentionsLine(ws: seq<string>, w: string)
    requires Word(w) && ws != []
    ensures Mentions(Line(ws), w) <==> exists i | 0 <= i < |ws| :: Mentions(ws[i], w)
  {
    hide Mentions;
    var n := |ws| - 1;
    if n > 0 {
      MentionsLine(ws[..n], w);
      MentionsJoin(Line(ws[..n]), ws[n], w);
      assert forall i | 0 <= i < n :: ws[..n][i] == ws[i];
    }
  }

  predicate NoneMentions(ws: seq<string>, w: string) {
    forall i | 0 <= i < |ws| :: !Mentions(ws[i], w)
  }

  lemma LineEnds(ws: seq<string>)
    requires ws != [] && ws[|ws| - 1] != ""
    ensures var last := ws[|ws| - 1];
            Line(ws) != "" && Line(ws)[|Line(ws)| - 1] == last[|last| - 1]
  {}

  lemma RtrimLine(ws: seq<string>)
    requires ws != [] && IsToken(ws[|ws| - 1])
    ensures Rtrim(Line(ws)) == Line(ws)
  {
    var last := ws[|ws| - 1];
    LineEnds(ws);
    hide Line;
    assert !IsSpace(last[|last| - 1]);
  }

  // ---------- the builder ----------

  class Builder {
    var command: string

    constructor ()
      ensures command == ""
    {
      command := "";
    }

    method Create(table: string)
      modifies this
      ensures command == "CREATE TABLE " + table
    {
      command := "CREATE TABLE " + table;
    }

    /** Sent at once, without a terminator. */
    method Empty(dataset: string) returns (cmd: string)
      ensures cmd == Rtrim("EMPTY " + dataset)
    {
      cmd := Rtrim("EMPTY " + dataset);
    }

    method Delete(dataset: string) returns (cmd: string)
      ensures cmd == Rtrim("DELETE " + dataset)
    {
      cmd := Rtrim("DELETE " + dataset);
    }

    method Count(dataset: string, condition: string) returns (cmd: string)
      ensures cmd == if condition == "" then Rtrim("COUNT " + dataset) else Rtrim("COUNT " + dataset + " " + condition)
    {
      cmd := "COUNT " + dataset;
      if condition != "" { cmd := cmd + " " + condition; }
      cmd := Rtrim(cmd);
    }

    method Select(fields: string)
      modifies this
      ensures command == "GET " + fields
    {
      command := "GET " + fields;
    }

    method From(dataset: string)
      modifies this
      ensures command == old(command) + " IN " + dataset
    {
      command := command + " IN " + dataset;
    }

    method Where(field: string, op: string, value: string)
      modifies this
      ensures command == old(command)
        + (if Mentions(old(command), "WHERE") then " AND " else " WHERE ") + field + " " + op + " " + value
    {
      if !Mentions(command, "WHERE") {
        command := command + " WHERE " + field + " " + op + " " + value;
      } else {
        command := command + " AND " + field + " " + op + " " + value;
      }
    }

    method GroupBy(field: string)
      modifies this
      ensures command == old(command) + " GROUP BY " + field
    {
      command := command + " GROUP BY " + field;
    }

    method OrderBy(field: string, order: string)
      modifies this
      ensures command == old(command) + " ORDER BY " + field + " " + Upper(order)
    {
      command := command + " ORDER BY " + field + " " + Upper(order);
    }

    method Limit(n: int)
      modifies this
      ensures command == old(command) + " LIMIT " + IntText(n)
    {
      command := command + " LIMIT " + IntText(n);
    }

    method As(alias: string)
      modifies this
      ensures command == old(command) + " AS " + alias
    {
      command := command + " AS " + alias;
    }

    method Change(table: string)
      modifies this
      ensures command == "CHANGE"
    {
      command := "CHANGE";
    }

    method Set(field: string, value: string)
      modifies this
      ensures command == old(command)
        + (if Mentions(old(command), "=") then ", " else " ") + field + " = " + value
    {
      if !Mentions(command, "=") {
        command := command + " " + field + " = " + value;
      } else {
        command := command + ", " + field + " = " + value;
      }
    }

    method Remove()
      modifies this
      ensures command == "REMOVE"
    {
      command := "REMOVE";
    }

    method Value(val: string)
      modifies this
      ensures command == old(command) + " " + val
    {
      command := command + " " + val;
    }

    /** The command as sent; the builder starts afresh. */
    method Get() returns (cmd: string)
      modifies this
      ensures cmd == Rtrim(old(command)) + ";" && command == ""
    {
      cmd := Rtrim(command) + ";";
      command := "";
    }

    method Clauses(clauses: seq<Clause>, ghost ws: seq<string>)
      requires ws != [] && command == Line(ws)
      modifies this
      ensures command == Line(ws + ClausesWords(clauses))
    {
      hide Line, ClauseWords;
      assert ws + [] == ws;
      for k := 0 to |clauses|
        invariant command == Line(ws + ClausesWords(clauses[..k]))
      {
        ClausesSnoc(clauses, k);
        var next := ws + ClausesWords(clauses[..k]);
        assert ws + ClausesWords(clauses[..k + 1]) == next + ClauseWords(clauses[k]);
        LineClause(next, clauses[k]);
        match clauses[k] {
          case ByGroup(key) => GroupBy(key);
          case ByOrder(key, order) => OrderBy(key, order);
          case AtMost(n) => Limit(n);
        }
      }
      assert clauses[..|clauses|] == clauses;
    }

    method Wheres(conds: seq<Condition>, ghost ws: seq<string>)
      requires ws != [] && command == Line(ws)
      requires forall i | 1 <= i < |conds| :: conds[i].logic == "AND"
      modifies this
      ensures command == Line(ws + WhereWords(Opening(ws), conds))
    {
      hide Line, Mentions, WhereWords, ConditionWords;
      WhereNothing(Opening(ws), conds);
      assert ws + [] == ws;
      for k := 0 to |conds|
        invariant command == Line(ws + WhereWords(Opening(ws), conds[..k]))
        invariant k > 0 ==> Mentions(command, "WHERE")
      {
        var next := ws + WhereWords(Opening(ws), conds[..k]);
        var keyword := if Mentions(command, "WHERE") then "AND" else "WHERE";
        WhereSnoc(Opening(ws), conds, k);
        assert ws + WhereWords(Opening(ws), conds[..k + 1]) == next + ConditionWords(keyword, conds[k]);
        LineCondition(next, keyword, conds[k]);
        MentionsGrows(next, keyword, conds[k]);
        Where(conds[k].field, conds[k].op, conds[k].value);
      }
      assert conds[..|conds|] == conds;
    }

    method BuildHead(q: GetQuery)
      modifies this
      ensures command == Line(HeadWords(q))
    {
      hide HeadWords, Line;
      Select(q.fields);
      LineOf(["GET", q.fields]);
      if q.alias != "" {
        As(q.alias);
        LineOf(["GET", q.fields, "AS", q.alias]);
      }
      From(q.dataset);
      LineHead(q);
    }

    /** select, as, clauses, where, more clauses, get. */
    method BuildGet(q: GetQuery) returns (cmd: string)
      requires AllTokens(GetWords(q, "WHERE"))
      requires forall i | 1 <= i < |q.conds| :: q.conds[i].logic == "AND"
      modifies this
      ensures cmd == CommandText(GetWords(q, Opening(HeadWords(q) + ClausesWords(q.before))))
    {
      hide Mentions, ClausesWords, WhereWords, HeadWords, Line;
      BuildHead(q);
      HeadNotEmpty(q);
      Clauses(q.before, HeadWords(q));
      ghost var before := HeadWords(q) + ClausesWords(q.before);
      Wheres(q.conds, before);
      ghost var middle := before + WhereWords(Opening(before), q.conds);
      Clauses(q.after, middle);
      ghost var ws := GetWords(q, Opening(before));
      assert ws == middle + ClausesWords(q.after);
      LastToken(q, Opening(before));
      RtrimLine(ws);
      cmd := Get();
    }

    /** remove, where .., from, get. */
    method BuildRemove(conds: seq<Condition>, dataset: string) returns (cmd: string)
      requires IsToken(dataset)
      requires forall i | 1 <= i < |conds| :: conds[i].logic == "AND"
      modifies this
      ensures cmd == CommandText(["REMOVE"] + WhereWords("WHERE", conds) + ["IN", dataset])
    {
      hide WhereWords;
      Remove();
      assert Line(["REMOVE"]) == "REMOVE";
      NotMentioned("REMOVE");
      Wheres(conds, ["REMOVE"]);
      ghost var ws := ["REMOVE"] + WhereWords("WHERE", conds);
      From(dataset);
      LineIn(ws, dataset);
      RtrimLine(ws + ["IN", dataset]);
      cmd := Get();
    }

    /** remove, value, from, get. */
    method BuildRemoveValue(value: string, dataset: string) returns (cmd: string)
      requires IsToken(dataset)
      modifies this
      ensures cmd == CommandText(["REMOVE", value, "IN", dataset])
    {
      Remove();
      Value(value);
      LineOf(["REMOVE", value]);
      From(dataset);
      LineIn(["REMOVE", value], dataset);
      assert ["REMOVE", value] + ["IN", dataset] == ["REMOVE", value, "IN", dataset];
      RtrimLine(["REMOVE", value, "IN", dataset]);
      cmd := Get();
    }

    /** change, set, where .., from, get. */
    method BuildChange(field: string, value: string, conds: seq<Condition>, dataset: string) returns (cmd: string)
      requires IsToken(dataset)
      requires forall i | 1 <= i < |conds| :: conds[i].logic == "AND"
      modifies this
      ensures var head := ["CHANGE", field, "=", value];
              cmd == CommandText(head + WhereWords(Opening(head), conds) + ["IN", dataset])
    {
      hide WhereWords, Opening;
      Change("");
      NotMentioned("CHANGE");
      Set(field, value);
      ghost var head := ["CHANGE", field, "=", value];
      LineOf(head);
      Wheres(conds, head);
      ghost var ws := head + WhereWords(Opening(head), conds);
      From(dataset);
      LineIn(ws, dataset);
      RtrimLine(ws + ["IN", dataset]);
      cmd := Get();
    }

    /** change, set, set, where .., from, get. */
    method BuildChangeTwice(field: string, value: string, field2: string, value2: string,
                            conds: seq<Condition>, dataset: string) returns (cmd: string)
      requires IsToken(dataset)
      requires forall i | 1 <= i < |conds| :: conds[i].logic == "AND"
      modifies this
      ensures var head := TwoAssignments(field, value, field2, value2);
              cmd == CommandText(head + WhereWords(Opening(head), conds) + ["IN", dataset])
    {
      hide WhereWords, Opening, Mentions, TwoAssignments;
      Change("");
      NotMentioned("CHANGE");
      Set(field, value);
      LineOf(["CHANGE", field, "=", value]);
      assert " = " == " " + "=" + " ";
      assert command == Line(["CHANGE", field, "=", value]);
      EqualsMentioned(field, value);
      Set(field2, value2);
      ghost var head := TwoAssignments(field, value, field2, value2);
      LineTwoAssignments(field, value, field2, value2);
      Wheres(conds, head);
      ghost var ws := head + WhereWords(Opening(head), conds);
      From(dataset);
      LineIn(ws, dataset);
      RtrimLine(ws + ["IN", dataset]);
      cmd := Get();
    }
  }

  lemma EqualsMentioned(field: string, value: string)
    ensures Mentions(Line(["CHANGE", field, "=", value]), "=")
  {
    hide Line;
    MentionsLine(["CHANGE", field, "=", value], "=");
    assert At("=", "=", 0);
    assert ["CHANGE", field, "=", value][2] == "=";
  }

  lemma LineTwoAssignments(field: string, value: string, field2: string, value2: string)
    ensures TwoAssignments(field, value, field2, value2) != []
    ensures Line(TwoAssignments(field, value, field2, value2)) ==
      Line(["CHANGE", field, "=", value]) + ", " + field2 + " = " + value2
  {
    hide Line;
    var first, second := ["CHANGE", field, "=", value + ","], [field2, "=", value2];
    assert TwoAssignments(field, value, field2, value2) == first + second;
    LineAppend(first, second);
    LineOf(first);
    LineOf(["CHANGE", field, "=", value]);
    assert second == [field2, "="] + [value2];
    LineSnoc([field2, "="], value2);
    LineOf([field2, "="]);
  }

  /** The keyword the first `where` will print after the given words. */
  function Opening(ws: seq<string>): (k: string)
    ensures k == "WHERE" || k == "AND"
  {
    if Mentions(Line(ws), "WHERE") then "AND" else "WHERE"
  }

  lemma NotMentioned(s: string)
    requires s == "REMOVE" || s == "CHANGE"
    ensures !Mentions(s, "WHERE") && !Mentions(s, "=")
    ensures Opening([s]) == "WHERE"
  {
    assert forall i | 0 <= i <= |s| :: !At(s, "WHERE", i) by {
      forall i | 0 <= i <= |s| && i + 5 <= |s| ensures !At(s, "WHERE", i) {
        assert s[i..i + 5][0] == s[i];
      }
    }
    forall i | 0 <= i <= |s| && i + 1 <= |s| ensures !At(s, "=", i) { assert s[i..i + 1][0] == s[i]; }
  }

  lemma LineOf(ws: seq<string>)
    requires 2 <= |ws| <= 4
    ensures |ws| == 2 ==> Line(ws) == ws[0] + " " + ws[1]
    ensures |ws| == 4 ==> Line(ws) == ws[0] + " " + ws[1] + " " + ws[2] + " " + ws[3]
  {
    hide Line;
    LineOfTwo(ws[0], ws[1]);
    if |ws| == 2 {
      assert ws == [ws[0], ws[1]];
    } else if |ws| == 4 {
      assert ws == [ws[0], ws[1], ws[2]] + [ws[3]];
      LineSnoc([ws[0], ws[1], ws[2]], ws[3]);
      assert [ws[0], ws[1], ws[2]] == [ws[0], ws[1]] + [ws[2]];
      LineSnoc([ws[0], ws[1]], ws[2]);
    }
  }

  lemma LineOfTwo(a: string, b: string)
    ensures Line([a, b]) == a + " " + b
  {
    assert [a, b] == [a] + [b];
    LineSnoc([a], b);
  }

  lemma LineIn(ws: seq<string>, dataset: string)
    requires ws != []
    ensures Line(ws + ["IN", dataset]) == Line(ws) + " IN " + dataset
  {
    LineAppend(ws, ["IN", dataset]);
    LineOf(["IN", dataset]);
  }

  lemma LineHead(q: GetQuery)
    ensures var base := if q.alias == "" then ["GET", q.fields] else ["GET", q.fields, "AS", q.alias];
            Line(HeadWords(q)) == Line(base) + " IN " + q.dataset
  {
    var base := if q.alias == "" then ["GET", q.fields] else ["GET", q.fields, "AS", q.alias];
    LineIn(base, q.dataset);
    assert HeadWords(q) == base + ["IN", q.dataset];
  }

  lemma LineClause(ws: seq<string>, c: Clause)
    requires ws != []
    ensures Line(ws + ClauseWords(c)) ==
      match c
      case ByGroup(key) => Line(ws) + " GROUP BY " + key
      case ByOrder(key, order) => Line(ws) + " ORDER BY " + key + " " + Upper(order)
      case AtMost(n) => Line(ws) + " LIMIT " + IntText(n)
  {
    hide Line, Upper, IntText;
    LineAppend(ws, ClauseWords(c));
    match c
    case ByGroup(key) =>
      LineOfGroup(key);
    case ByOrder(key, order) => LineOf(["ORDER", "BY", key, Upper(order)]);
    case AtMost(n) => LineOf(["LIMIT", IntText(n)]);
  }

  lemma LineOfGroup(key: string)
    ensures Line(["GROUP", "BY", key]) == "GROUP BY " + key
  {
    hide Line;
    assert ["GROUP", "BY", key] == ["GROUP", "BY"] + [key];
    LineSnoc(["GROUP", "BY"], key);
    LineOfTwo("GROUP", "BY");
    assert "GROUP" + " " + "BY" + " " == "GROUP BY ";
  }

  lemma LineCondition(ws: seq<string>, keyword: string, c: Condition)
    requires ws != []
    requires keyword == "AND" || keyword == "WHERE"
    ensures Line(ws + ConditionWords(keyword, c)) ==
      Line(ws) + (if keyword == "AND" then " AND " else " WHERE ") + c.field + " " + c.op + " " + c.value
  {
    hide Line;
    LineAppend(ws, ConditionWords(keyword, c));
    LineOf(ConditionWords(keyword, c));
  }

  lemma WhereNothing(keyword: string, conds: seq<Condition>)
    ensures WhereWords(keyword, conds[..0]) == []
  {}

  lemma MentionsGrows(ws: seq<string>, keyword: string, c: Condition)
    requires ws != []
    ensures keyword == "WHERE" || Mentions(Line(ws), "WHERE") ==>
      Mentions(Line(ws + ConditionWords(keyword, c)), "WHERE")
  {
    var all := ws + ConditionWords(keyword, c);
    MentionsLine(ws, "WHERE");
    MentionsLine(all, "WHERE");
    if keyword == "WHERE" {
      assert "WHERE"[0..5] == "WHERE" && At("WHERE", "WHERE", 0);
      assert all[|ws|] == "WHERE";
    } else if Mentions(Line(ws), "WHERE") {
      var i :| 0 <= i < |ws| && Mentions(ws[i], "WHERE");
      assert all[i] == ws[i];
    }
  }

  lemma {:induction false} ClausesWordsAppend(a: seq<Clause>, b: seq<Clause>)
    ensures ClausesWords(a + b) == ClausesWords(a) + ClausesWords(b)
  {
    if a == [] {
      assert a + b == b;
    } else {
      assert (a + b)[1..] == a[1..] + b;
      ClausesWordsAppend(a[1..], b);
    }
  }

  lemma ClausesSnoc(cs: seq<Clause>, k: nat)
    requires k < |cs|
    ensures ClausesWords(cs[..k + 1]) == ClausesWords(cs[..k]) + ClauseWords(cs[k])
  {
    assert cs[..k + 1] == cs[..k] + [cs[k]];
    ClausesWordsAppend(cs[..k], [cs[k]]);
    assert ClausesWords([cs[k]]) == ClauseWords(cs[k]) + [];
  }

  lemma {:induction false} MoreWordsSnoc(cs: seq<Condition>, c: Condition)
    ensures MoreWords(cs + [c]) == MoreWords(cs) + ConditionWords(c.logic, c)
  {
    if cs == [] {
      assert cs + [c] == [c] && [c][1..] == [];
    } else {
      assert (cs + [c])[1..] == cs[1..] + [c];
      MoreWordsSnoc(cs[1..], c);
    }
  }

  lemma WhereSnoc(keyword: string, conds: seq<Condition>, k: nat)
    requires k < |conds|
    ensures WhereWords(keyword, conds[..k + 1]) ==
      WhereWords(keyword, conds[..k]) + ConditionWords(if k == 0 then keyword else conds[k].logic, conds[k])
  {
    if k > 0 {
      assert conds[..k + 1][1..] == conds[..k][1..] + [conds[k]];
      MoreWordsSnoc(conds[..k][1..], conds[k]);
    }
  }

  /** The last word of a query is one the caller passed, or a number. */
  lemma LastToken(q: GetQuery, keyword: string)
    requires AllTokens(GetWords(q, "WHERE")) && IsToken(keyword)
    ensures AllTokens(GetWords(q, keyword)) && GetWords(q, keyword) != []
  {
    var a, b := GetWords(q, "WHERE"), GetWords(q, keyword);
    assert |a| == |b|;
    forall i | 0 <= i < |b| ensures IsToken(b[i]) {
      assert b[i] == a[i] || b[i] == keyword;
    }
  }

  /** The builder opens with WHERE exactly when no earlier word mentions it. */
  lemma OpeningIsWhere(ws: seq<string>)
    requires ws != []
    ensures Opening(ws) == if NoneMentions(ws, "WHERE") then "WHERE" else "AND"
  {
    MentionsLine(ws, "WHERE");
  }
}
