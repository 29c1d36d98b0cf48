/** Which conditions the server reads from the text of a GET, whatever words its
    clauses and conditions hold (connectors/php/src/RoktClient.php against
    app/handlers/GetCommandHandler.h). */
module WhereClauses {
  import opened Options
  import opened Text
  import opened Conditions
  import opened Query
  import opened Parsers
  import opened Printing

  // ---------- clauses hold no conditions ----------

  /** No word WHERE is followed by conditions. */
  predicate Harmless(ts: seq<string>) {
    forall i | 0 <= i < |ts| && ts[i] == "WHERE" :: ReadWhere(ts[i + 1..]) == None
  }

  lemma HarmlessSuffix(ts: seq<string>, n: nat)
    requires Harmless(ts) && n <= |ts|
    ensures Harmless(ts[n..])
  {
    hide ReadWhere;
    var us := ts[n..];
    forall i | 0 <= i < |us| && us[i] == "WHERE" ensures ReadWhere(us[i + 1..]) == None {
      assert us[i + 1..] == ts[n + i + 1..] && ts[n + i] == "WHERE";
    }
  }

  /** Reading harmless words adds no condition. */
  lemma {:induction false} HarmlessAddNothing(ts: seq<string>, p: GetParams)
    requires Harmless(ts)
    ensures ReadClauses(ts, p).Some? ==> ReadClauses(ts, p).value.conditions == p.conditions
    decreases |ts|
  {
    hide ReadWhere, Harmless, Stoi;
    if ts == [] {
    } else if ts[0] == "WHERE" {
      FirstIsHarmless(ts);
    } else {
      var n := ClauseLength(ts);
      HarmlessSuffix(ts, n);
      match NextParams(ts, p)
      case Some(p') => HarmlessAddNothing(ts[n..], p');
      case None =>
    }
  }

  lemma FirstIsHarmless(ts: seq<string>)
    requires Harmless(ts) && ts != [] && ts[0] == "WHERE"
    ensures ReadWhere(ts[1..]) == None
  {
    hide ReadWhere;
  }

  /** How many words one turn of the parser takes outside WHERE. */
  function ClauseLength(ts: seq<string>): (n: nat)
    requires ts != []
    ensures 0 < n <= |ts|
  {
    var n := if ts[0] == "GROUP" then 3 else if ts[0] == "ORDER" then 4 else if ts[0] == "LIMIT" then 2 else 1;
    if n <= |ts| then n else |ts|
  }

  /** And what it makes of the query. */
  function NextParams(ts: seq<string>, p: GetParams): (r: Option<GetParams>)
    requires ts != [] && ts[0] != "WHERE"
    ensures r.Some? ==> r.value.conditions == p.conditions
    ensures ReadClauses(ts, p) == match r case Some(p') => ReadClauses(ts[ClauseLength(ts)..], p') case None => None
  {
    if ts[0] == "GROUP" then
      if |ts| < 3 || ts[1] != "BY" then None else Some(p.(groupByKey := ts[2]))
    else if ts[0] == "ORDER" then
      if |ts| < 3 || ts[1] != "BY" then None
      else if |ts| == 3 then Some(p.(orderByKey := ts[2]))
      else Some(p.(orderByKey := ts[2], orderDesc := Direction(ts[3], p.orderDesc)))
    else if ts[0] == "LIMIT" then
      if |ts| < 2 || Stoi(ts[1]).None? then None else Some(p.(limit := Stoi(ts[1]).value))
    else Some(p)
  }

  lemma NumbersAreNoWords(n: int)
    ensures IntText(n) != "WHERE" && !KnownLogic(IntText(n)) && NormalOp(IntText(n)) == None
  {
    var s := IntText(n);
    assert s[0] == '-' || IsDigit(s[0]);
    assert "IS"[0] == 'I' && "NOT"[0] == 'N' && "=="[0] == '=' && "!="[0] == '!' && "HAS"[0] == 'H';
    assert "WHERE"[0] == 'W' && "AND"[0] == 'A' && "OR"[0] == 'O';
  }

  /** The words of clauses: a keyword first, then BY or a number. */
  lemma ClausesBegin(cs: seq<Clause>)
    requires cs != []
    ensures var ts := ClausesWords(cs);
      && |ts| >= 2
      && (ts[0] == "GROUP" || ts[0] == "ORDER" || ts[0] == "LIMIT")
      && ts[1] != "WHERE" && !KnownLogic(ts[1]) && NormalOp(ts[1]) == None
  {
    hide ClausesWords, IntText, NormalOp, KnownLogic;
    ClausesCons(cs);
    match cs[0]
    case AtMost(n) => NumbersAreNoWords(n);
    case _ => ByIsNoWord();
  }

  lemma ByIsNoWord()
    ensures NormalOp("BY") == None && !KnownLogic("BY")
  {}

  lemma ClausesCons(cs: seq<Clause>)
    requires cs != []
    ensures ClausesWords(cs) == ClauseWords(cs[0]) + ClausesWords(cs[1..])
  {}

  lemma KeywordIsNoOp(w: string)
    requires w == "GROUP" || w == "ORDER" || w == "LIMIT"
    ensures NormalOp(w) == None && !KnownLogic(w)
  {}

  lemma NoWhereWithoutOp(ts: seq<string>)
    requires |ts| < 3 || NormalOp(ts[1]) == None
    ensures ReadWhere(ts) == None
  {
    hide ReadConditions;
  }

  /** A WHERE among the words of clauses, as a key or a direction, has no operator
      two words on. */
  lemma {:induction false} ClausesAreHarmless(cs: seq<Clause>)
    ensures Harmless(ClausesWords(cs))
  {
    hide ReadWhere, NormalOp, IntText, ClauseWords;
    if cs != [] {
      var ts, head, more := ClausesWords(cs), ClauseWords(cs[0]), ClausesWords(cs[1..]);
      ClausesCons(cs);
      ClausesAreHarmless(cs[1..]);
      hide ClausesWords;
      forall i | 0 <= i < |ts| && ts[i] == "WHERE" ensures ReadWhere(ts[i + 1..]) == None {
        if i < |head| {
          HeadIsHarmless(cs, i);
        } else {
          assert ts[i + 1..] == more[i - |head| + 1..] && more[i - |head|] == "WHERE";
        }
      }
    }
  }

  lemma HeadIsHarmless(cs: seq<Clause>, i: nat)
    requires cs != [] && i < |ClauseWords(cs[0])| && ClausesWords(cs)[i] == "WHERE"
    ensures ReadWhere(ClausesWords(cs)[i + 1..]) == None
  {
    hide ReadWhere, NormalOp, IntText, ClausesWords;
    var ts, more := ClausesWords(cs), ClausesWords(cs[1..]);
    ClausesCons(cs);
    ClausesBegin(cs);
    if cs[1..] == [] { NoClauses(); } else { ClausesBegin(cs[1..]); KeywordIsNoOp(more[0]); }
    NoWhereWithoutOp(ts[i + 1..]);
  }

  lemma NoClauses()
    ensures ClausesWords([]) == []
  {}

  /** Behind the first word of the clauses too. */
  lemma ClausesAddNothing(cs: seq<Clause>, n: nat, p: GetParams)
    requires n <= |ClausesWords(cs)|
    ensures var r := ReadClauses(ClausesWords(cs)[n..], p); r.Some? ==> r.value.conditions == p.conditions
  {
    hide ReadClauses, ClausesWords;
    ClausesAreHarmless(cs);
    HarmlessSuffix(ClausesWords(cs), n);
    HarmlessAddNothing(ClausesWords(cs)[n..], p);
  }

  // ---------- conditions opened with WHERE ----------

  lemma OpenedConditions(conds: seq<Condition>, after: seq<Clause>, p: GetParams)
    requires ValidLogic(conds)
    ensures var r := ReadClauses(WhereWords("WHERE", conds) + ClausesWords(after), p);
      r.Some? ==> NormalList(conds).Some? && r.value.conditions == p.conditions + NormalList(conds).value
  {
    hide ReadClauses, ReadWhere, NormalList, ClausesWords;
    var rest := ClausesWords(after);
    assert rest[0..] == rest;
    if conds == [] {
      NormalOfNone();
      WhereNoWords("WHERE");
      assert [] + rest == rest && p.conditions + [] == p.conditions;
      ClausesAddNothing(after, 0, p);
    } else {
      WhereWordsStart(conds, rest);
      ClausesStart(after);
      ReadWhereWords(conds, rest);
      ReadWhereStep(WhereWords("WHERE", conds) + rest, p);
      match NormalList(conds)
      case None =>
      case Some(cs) =>
        var p' := p.(conditions := p.conditions + cs);
        if rest == [] { ClausesAddNothing(after, 0, p'); } else { ClausesAddNothing(after, 1, p'); }
    }
  }

  // ---------- conditions opened with AND ----------

  /** A list no builder writes: a later condition without a connective. */
  predicate Restarts(conds: seq<Condition>) { exists i | 0 < i < |conds| :: conds[i].logic == "" }

  /** Each WHERE clause the parser reads starts a new stretch of conditions. */
  lemma {:induction false} ReadClausesAppends(ts: seq<string>, p: GetParams)
    ensures var r := ReadClauses(ts, p);
      r.Some? ==>
        && p.conditions <= r.value.conditions
        && var more := r.value.conditions[|p.conditions|..];
           more == [] || more[0].logic == ""
    decreases |ts|
  {
    hide ReadWhere, Stoi;
    if ts == [] {
    } else if ts[0] == "WHERE" {
      ReadWhereLogic(ts[1..]);
      match ReadWhere(ts[1..])
      case None =>
      case Some(r) =>
        ReadWhereBegins(ts[1..]);
        ReadClausesAppends(if r.rest == [] then [] else r.rest[1..], p.(conditions := p.conditions + r.conds));
    } else {
      match NextParams(ts, p)
      case Some(p') => ReadClausesAppends(ts[ClauseLength(ts)..], p');
      case None =>
    }
  }

  lemma ReadWhereBegins(ts: seq<string>)
    requires ReadWhere(ts).Some?
    ensures |ts| >= 3 && ReadWhere(ts).value.conds[0] == Condition(ts[0], NormalOp(ts[1]).value, ts[2], "")
  {
    hide ReadConditions;
  }

  /** The conditions still to come, read from the value of one of them on: every
      stretch of four words ends at a value, and the clauses end the last. */
  lemma {:induction false} ReadFromValue(v: string, conds: seq<Condition>, after: seq<Clause>)
    ensures var r := ReadConditions([v] + (MoreWords(conds) + ClausesWords(after)));
      r.Some? ==> |r.value.conds| <= |conds|
    decreases |conds|
  {
    hide ClausesWords, NormalOp;
    var more, rest := MoreWords(conds), ClausesWords(after);
    var ts := [v] + (more + rest);
    assert ts[1..] == more + rest;
    if KnownLogic(v) && |ts| >= 4 {
      if conds == [] {
        assert more + rest == rest;
        if after == [] { NoClauses(); } else { ClausesBegin(after); }
      } else {
        assert ts[4..] == [conds[0].value] + (MoreWords(conds[1..]) + rest);
        ReadFromValue(conds[0].value, conds[1..], after);
      }
    }
  }

  lemma ReadBehindValue(conds: seq<Condition>, after: seq<Clause>)
    ensures var r := ReadWhere(MoreWords(conds) + ClausesWords(after));
      r.Some? ==> |r.value.conds| <= |conds|
  {
    hide ClausesWords, NormalOp, ReadConditions;
    var rest := ClausesWords(after);
    var ts := MoreWords(conds) + rest;
    if conds == [] {
      assert ts == rest;
      if after == [] { NoClauses(); } else { ClausesBegin(after); }
    } else {
      assert ts[3..] == [conds[0].value] + (MoreWords(conds[1..]) + rest);
      ReadFromValue(conds[0].value, conds[1..], after);
    }
  }

  /** The same from the field of a condition on. */
  lemma {:induction false} ReadFromField(conds: seq<Condition>, after: seq<Clause>)
    requires conds != []
    ensures var r := ReadConditions(MoreWords(conds)[1..] + ClausesWords(after));
      r.Some? ==> |r.value.conds| <= |conds|
    decreases |conds|
  {
    hide ClausesWords, NormalOp, ReadConditions, MoreWords;
    var c, rest := conds[0], ClausesWords(after);
    FieldWords(conds, rest);
    var more := MoreWords(conds[1..]) + rest;
    ReadOneOf(c.field, [c.op, c.value] + more);
    if more != [] {
      assert ([c.op, c.value] + more)[3..] == more[1..];
      if conds[1..] == [] {
        NoMoreWords();
        assert more == rest;
        if after == [] { NoClauses(); } else { ClausesBegin(after); NoConnectiveReads(rest[1..]); }
      } else {
        FieldWords(conds[1..], rest);
        assert more[1..] == MoreWords(conds[1..])[1..] + rest;
        ReadFromField(conds[1..], after);
      }
    }
  }

  lemma NoMoreWords()
    ensures MoreWords([]) == []
  {}

  lemma FieldWords(conds: seq<Condition>, rest: seq<string>)
    requires conds != []
    ensures var c := conds[0];
      && |MoreWords(conds)| >= 4
      && MoreWords(conds)[1..] + rest == [c.field] + ([c.op, c.value] + (MoreWords(conds[1..]) + rest))
  {}

  /** At most one condition and what can be read behind it. */
  lemma ReadOneOf(w: string, ts: seq<string>)
    ensures var r := ReadConditions([w] + ts);
      r.Some? && r.value.conds != [] ==>
        && |ts| >= 3 && ReadConditions(ts[3..]).Some?
        && |r.value.conds| == 1 + |ReadConditions(ts[3..]).value.conds|
  {
    hide NormalOp;
    assert ([w] + ts)[1..] == ts && (|ts| >= 3 ==> ([w] + ts)[4..] == ts[3..]);
  }

  lemma ReadBehindField(op: string, value: string, conds: seq<Condition>, after: seq<Clause>)
    ensures var r := ReadWhere([op, value] + (MoreWords(conds) + ClausesWords(after)));
      r.Some? ==> |r.value.conds| <= |conds| + 1 && r.value.conds[0].field == op
  {
    hide ClausesWords, NormalOp, ReadConditions;
    var rest := ClausesWords(after);
    var ts := [op, value] + (MoreWords(conds) + rest);
    if conds == [] {
      if after == [] {
        NoClauses();
      } else {
        ClausesBegin(after);
        assert ts[3..] == rest[1..];
        NoConnectiveReads(rest[1..]);
      }
    } else {
      assert ts[3..] == MoreWords(conds)[1..] + rest;
      ReadFromField(conds, after);
    }
  }

  lemma NoConnectiveReads(ts: seq<string>)
    requires NoConnective(ts)
    ensures ReadConditions(ts) == Some(ConditionsRead([], ts))
  {}

  /** What the server can make of conditions that do not open with WHERE: none, too
      few, a list that starts anew, or one beginning with an operator for a field. */
  predicate Mangled(read: seq<Condition>, conds: seq<Condition>) {
    || read == [] || Restarts(read) || |read| < |conds|
    || (|read| == |conds| && conds[0].field == "WHERE" && read[0].field == conds[0].op)
  }

  /** A stretch of conditions and what a later WHERE may add. */
  lemma Stretch(ts: seq<string>, p: GetParams)
    requires ts != [] && ts[0] == "WHERE" && ReadClauses(ts, p).Some?
    ensures ReadWhere(ts[1..]).Some?
    ensures var r, all := ReadWhere(ts[1..]).value.conds, ReadClauses(ts, p).value.conditions;
      && r != [] && p.conditions + r <= all
      && (all == p.conditions + r || Restarts(all[|p.conditions|..]))
  {
    hide ReadWhere;
    ReadWhereLogic(ts[1..]);
    var read := ReadWhere(ts[1..]).value;
    var p' := p.(conditions := p.conditions + read.conds);
    var rest := if read.rest == [] then [] else read.rest[1..];
    ReadClausesAppends(rest, p');
    var all := ReadClauses(ts, p).value.conditions;
    assert all == ReadClauses(rest, p').value.conditions;
    if all != p.conditions + read.conds {
      assert all[|p.conditions|..][|read.conds|] == all[|p'.conditions|..][0];
    }
  }

  lemma SkipWord(w: string, ts: seq<string>, p: GetParams)
    requires !ClauseKeyword(w)
    ensures ReadClauses([w] + ts, p) == ReadClauses(ts, p)
  {
    assert ([w] + ts)[1..] == ts;
  }

  /** A word that is neither BY nor a number. */
  predicate Blocks(w: string) { w != "BY" && Stoi(w).None? }

  /** GROUP, ORDER and LIMIT are refused in front of such a word. */
  lemma BlockedWord(w: string, ts: seq<string>, p: GetParams)
    requires w != "WHERE" && (ts == [] || Blocks(ts[0]))
    ensures ReadClauses([w] + ts, p) == if ClauseKeyword(w) then None else ReadClauses(ts, p)
  {
    hide Stoi;
    assert ([w] + ts)[1..] == ts;
  }

  lemma WordsBlock(w: string)
    requires ValidOp(w) || KnownLogic(w) || w == "GROUP" || w == "ORDER" || w == "LIMIT"
    ensures Blocks(w) && w != "WHERE"
    ensures ValidOp(w) || KnownLogic(w) ==> !ClauseKeyword(w)
  {
    assert w != "" && !IsSpace(w[0]) && !IsDigit(w[0]) && w[0] != '-' && w[0] != '+';
  }

  lemma BehindConditionBlocks(conds: seq<Condition>, after: seq<Clause>)
    requires forall i | 0 <= i < |conds| :: KnownLogic(conds[i].logic)
    ensures var ts := MoreWords(conds) + ClausesWords(after); ts == [] || Blocks(ts[0])
  {
    hide ClausesWords, Blocks;
    if conds != [] {
      WordsBlock(conds[0].logic);
    } else if after == [] {
      NoClauses();
    } else {
      ClausesBegin(after);
      WordsBlock(ClausesWords(after)[0]);
      assert MoreWords(conds) + ClausesWords(after) == ClausesWords(after);
    }
  }

  /** A condition whose field is WHERE. */
  lemma OpensAtField(c: Condition, conds: seq<Condition>, after: seq<Clause>, p: GetParams)
    ensures var r := ReadClauses(["WHERE"] + ([c.op, c.value] + (MoreWords(conds) + ClausesWords(after))), p);
      r.Some? ==>
        && |p.conditions| < |r.value.conditions|
        && r.value.conditions[|p.conditions|].field == c.op
        && (Restarts(r.value.conditions[|p.conditions|..]) || |r.value.conditions[|p.conditions|..]| <= |conds| + 1)
  {
    hide ReadClauses, ReadWhere, ClausesWords, MoreWords, Restarts;
    var more := [c.op, c.value] + (MoreWords(conds) + ClausesWords(after));
    var ts := ["WHERE"] + more;
    assert ts[1..] == more;
    ReadBehindField(c.op, c.value, conds, after);
    if ReadClauses(ts, p).Some? { Stretch(ts, p); }
  }

  /** A condition whose value is WHERE. */
  lemma OpensAtValue(conds: seq<Condition>, after: seq<Clause>, p: GetParams)
    ensures var r := ReadClauses(["WHERE"] + (MoreWords(conds) + ClausesWords(after)), p);
      r.Some? ==>
        && p.conditions <= r.value.conditions
        && var read := r.value.conditions[|p.conditions|..]; Restarts(read) || |read| <= |conds|
  {
    hide ReadClauses, ReadWhere, ClausesWords, MoreWords, Restarts;
    var more := MoreWords(conds) + ClausesWords(after);
    var ts := ["WHERE"] + more;
    assert ts[1..] == more;
    ReadBehindValue(conds, after);
    if ReadClauses(ts, p).Some? { Stretch(ts, p); }
  }

  lemma WordsOfCondition(keyword: string, conds: seq<Condition>, rest: seq<string>)
    requires conds != []
    ensures var c, more := conds[0], MoreWords(conds[1..]) + rest;
      WhereWords(keyword, conds) + rest == [keyword] + ([c.field] + ([c.op] + ([c.value] + more)))
      && [c.op] + ([c.value] + more) == [c.op, c.value] + more
  {
    hide MoreWords;
  }

  lemma MoreIsWhere(conds: seq<Condition>)
    requires conds != []
    ensures MoreWords(conds) == WhereWords(conds[0].logic, conds)
  {}

  /** Conditions that do not open with WHERE are mangled. */
  lemma {:induction false} MisopenedConditions(keyword: string, conds: seq<Condition>, after: seq<Clause>, p: GetParams)
    requires KnownLogic(keyword) && ValidLogic(conds) && ValidOps(conds)
    ensures var r := ReadClauses(WhereWords(keyword, conds) + ClausesWords(after), p);
      r.Some? ==> p.conditions <= r.value.conditions && Mangled(r.value.conditions[|p.conditions|..], conds)
    decreases |conds|
  {
    hide ReadClauses, ClausesWords, Restarts, ClauseKeyword, KnownLogic, ValidOp, MoreWords;
    var rest := ClausesWords(after);
    if conds == [] {
      WhereNoWords(keyword);
      assert [] + rest == rest[0..];
      ClausesAddNothing(after, 0, p);
    } else {
      hide WhereWords;
      var c, more := conds[0], MoreWords(conds[1..]) + rest;
      WordsOfCondition(keyword, conds, rest);
      WordsBlock(keyword);
      WordsBlock(c.op);
      SkipWord(keyword, [c.field] + ([c.op] + ([c.value] + more)), p);
      ReadClausesAppends(WhereWords(keyword, conds) + rest, p);
      if c.field == "WHERE" {
        OpensAtField(c, conds[1..], after, p);
      } else {
        BlockedWord(c.field, [c.op] + ([c.value] + more), p);
        SkipWord(c.op, [c.value] + more, p);
        if c.value == "WHERE" {
          OpensAtValue(conds[1..], after, p);
        } else {
          BehindConditionBlocks(conds[1..], after);
          BlockedWord(c.value, more, p);
          if |conds| == 1 {
            NoMoreWords();
            assert more == rest[0..];
            ClausesAddNothing(after, 0, p);
          } else {
            MoreIsWhere(conds[1..]);
            MisopenedConditions(conds[1].logic, conds[1..], after, p);
          }
        }
      }
    }
  }

  /** So they never arrive as written. */
  lemma MangledIsWrong(read: seq<Condition>, conds: seq<Condition>)
    requires conds != [] && ValidLogic(conds) && ValidOps(conds) && Mangled(read, conds)
    ensures NormalList(conds) != Some(read)
  {
    var list := [conds[0].(logic := "")] + conds[1..];
    NormalKeepsShape(list);
  }

  /** Normalising rewrites operators and nothing else. */
  lemma {:induction false} NormalKeepsShape(conds: seq<Condition>)
    ensures Normal(conds).Some? ==>
      && |Normal(conds).value| == |conds|
      && forall i | 0 <= i < |conds| ::
           Normal(conds).value[i].field == conds[i].field && Normal(conds).value[i].logic == conds[i].logic
  {
    if conds != [] {
      NormalKeepsShape(conds[1..]);
      assert forall i | 1 <= i < |conds| :: conds[i] == conds[1..][i - 1];
    }
  }

  // ---------- whole queries ----------

  /** Reading a printed query up to the opening of its conditions. */
  lemma ReadUpTo(q: GetQuery, keyword: string)
    requires AllTokens(GetWords(q, keyword))
    ensures var head := NO_PARAMS.(fields := q.fields, alias := q.alias, dataset := q.dataset);
      ParseGet(CommandText(GetWords(q, keyword))) ==
        match ApplyAll(q.before, Some(head))
        case None => None
        case Some(p) => ReadClauses(WhereWords(keyword, q.conds) + ClausesWords(q.after), p)
  {
    hide Trim, Tokens, ReadClauses, ApplyAll, HeadWords, ClausesWords, WhereWords;
    var ws := GetWords(q, keyword);
    var body := WhereWords(keyword, q.conds) + ClausesWords(q.after);
    var head := NO_PARAMS.(fields := q.fields, alias := q.alias, dataset := q.dataset);
    HeadNotEmpty(q);
    CommandTokens(ws);
    assert ws == HeadWords(q) + (ClausesWords(q.before) + body);
    ReadHead(q, ClausesWords(q.before) + body);
    ReadClausesWords(q.before, body, head);
  }

  lemma {:induction false} ClausesKeepConditions(cs: seq<Clause>, p: GetParams)
    ensures ApplyAll(cs, Some(p)).Some? ==> ApplyAll(cs, Some(p)).value.conditions == p.conditions
  {
    if cs != [] {
      match Apply(cs[0], p)
      case Some(p') => ClausesKeepConditions(cs[1..], p');
      case None => ApplyNone(cs[1..]);
    }
  }

  /** Opened with WHERE, the conditions of an accepted query arrive as written;
      opened with AND, they do so only if there are none. */
  lemma ConditionsReceived(q: GetQuery, keyword: string)
    requires AllTokens(GetWords(q, keyword)) && ValidLogic(q.conds)
    requires keyword == "WHERE" || keyword == "AND"
    ensures var r := ParseGet(CommandText(GetWords(q, keyword)));
      r.Some? ==> (NormalList(q.conds) == Some(r.value.conditions) <==> q.conds == [] || keyword == "WHERE")
  {
    hide ParseGet, CommandText, GetWords, NormalList, ApplyAll, ReadClauses, WhereWords, Mangled, ValidOps;
    var head := NO_PARAMS.(fields := q.fields, alias := q.alias, dataset := q.dataset);
    ReadUpTo(q, keyword);
    ClausesKeepConditions(q.before, head);
    match ApplyAll(q.before, Some(head))
    case None =>
    case Some(p) =>
      if keyword == "WHERE" || q.conds == [] {
        if q.conds == [] { WhereNoWords("WHERE"); WhereNoWords(keyword); }
        OpenedConditions(q.conds, q.after, p);
        assert forall cs: seq<Condition> :: [] + cs == cs;
      } else {
        NormalListSucceeds(q.conds);
        if ValidOps(q.conds) {
          MisopenedConditions("AND", q.conds, q.after, p);
          var r := ReadClauses(WhereWords(keyword, q.conds) + ClausesWords(q.after), p);
          if r.Some? {
            assert r.value.conditions[|p.conditions|..] == r.value.conditions;
            MangledIsWrong(r.value.conditions, q.conds);
          }
        }
      }
  }

  // ---------- commands the builder does not print ----------

  /** A clause cut short, without BY, or with a limit that is no number. */
  predicate Malformed(tail: seq<string>) {
    && tail != []
    && (|| ((tail[0] == "GROUP" || tail[0] == "ORDER") && (|tail| < 3 || tail[1] != "BY"))
        || (tail[0] == "LIMIT" && (|tail| < 2 || Stoi(tail[1]).None?))
        || (tail[0] == "WHERE" && (|tail| < 4 || !ValidOp(tail[2]))))
  }

  /** Behind well-formed clauses, a malformed one has the whole query refused, and an
      ORDER BY at the very end sorts by its key in the direction there was. */
  lemma ReadTail(q: GetQuery, tail: seq<string>)
    requires q.conds == [] && q.after == []
    requires tail != [] && AllTokens(GetWords(q, "WHERE") + tail)
    ensures Malformed(tail) ==> ParseGet(CommandText(GetWords(q, "WHERE") + tail)) == None
    ensures |tail| == 3 && tail[0] == "ORDER" && tail[1] == "BY" ==>
      ParseGet(CommandText(GetWords(q, "WHERE") + tail)) ==
        match Meaning(q) case Some(p) => Some(p.(orderByKey := tail[2])) case None => None
  {
    hide Trim, Tokens, HeadWords, ClausesWords, Meaning, ReadClauses, Malformed, Prefix;
    var head := NO_PARAMS.(fields := q.fields, alias := q.alias, dataset := q.dataset);
    NoClauses();
    WhereNoWords("WHERE");
    HeadNotEmpty(q);
    var ws := GetWords(q, "WHERE") + tail;
    assert ws == HeadWords(q) + (ClausesWords(q.before) + tail);
    CommandTokens(ws);
    ReadHead(q, ClausesWords(q.before) + tail);
    ReadClausesWords(q.before, tail, head);
    MeaningOfPrefix(q);
    match ApplyAll(q.before, Some(head))
    case None =>
    case Some(p) => ReadOneTail(tail, p);
  }

  /** Without clauses a query asks for everything: all rows, no grouping, no sort key,
      ascending, no limit. */
  lemma PlainGetIsRead(fields: string, alias: string, dataset: string)
    requires AllTokens(["GET", fields, "AS", alias, "IN", dataset])
    ensures ParseGet(CommandText(["GET", fields, "IN", dataset])) ==
      Some(GetParams(fields, "", dataset, [], "", "", false, -1))
    ensures ParseGet(CommandText(["GET", fields, "AS", alias, "IN", dataset])) ==
      Some(GetParams(fields, alias, dataset, [], "", "", false, -1))
  {
    hide Trim, Tokens, CommandText;
    var ws, us := ["GET", fields, "IN", dataset], ["GET", fields, "AS", alias, "IN", dataset];
    assert us[0] == "GET" && us[1] == fields && us[4] == "IN" && us[5] == dataset;
    CommandTokens(ws);
    CommandTokens(us);
    assert ws[4..] == [] && us[6..] == [];
  }

  lemma MeaningOfPrefix(q: GetQuery)
    requires q.conds == [] && q.after == []
    ensures Meaning(q) == ApplyAll(q.before, Some(NO_PARAMS.(fields := q.fields, alias := q.alias, dataset := q.dataset)))
  {
    NormalOfNone();
    var before := ApplyAll(q.before, Some(NO_PARAMS.(fields := q.fields, alias := q.alias, dataset := q.dataset)));
    if before.Some? { assert before.value.conditions + [] == before.value.conditions; }
    hide NormalList;
  }

  lemma ReadOneTail(tail: seq<string>, p: GetParams)
    requires tail != []
    ensures Malformed(tail) ==> ReadClauses(tail, p) == None
    ensures |tail| == 3 && tail[0] == "ORDER" && tail[1] == "BY" ==> ReadClauses(tail, p) == Some(p.(orderByKey := tail[2]))
  {
    hide Stoi;
    if tail[0] == "WHERE" && Malformed(tail) { NoWhereWithoutOp(tail[1..]); }
  }

  /** The short form of REMOVE needs its IN. */
  lemma RemoveShortForm(ws: seq<string>)
    requires |ws| >= 2 && AllTokens(ws) && ws[0] == "REMOVE" && ws[1] != "WHERE"
    ensures ParseRemove(CommandText(ws)) ==
      if |ws| >= 4 && ws[2] == "IN" then Some(RemoveParams([Condition("name", "==", ws[1], "")], ws[3])) else None
  {
    hide Trim, Tokens;
    CommandTokens(ws);
  }

  /** And the conditions of a REMOVE or a CHANGE must be followed by IN and a name. */
  lemma RemoveNeedsDataset(conds: seq<Condition>, tail: seq<string>)
    requires conds != [] && ValidLogic(conds) && NoConnective(tail) && (|tail| < 2 || tail[0] != "IN")
    requires AllTokens(["REMOVE"] + (WhereWords("WHERE", conds) + tail))
    ensures ParseRemove(CommandText(["REMOVE"] + (WhereWords("WHERE", conds) + tail))) == None
  {
    hide Tokens, Trim, ReadWhere, WhereWords, CommandText, IsToken;
    var more := WhereWords("WHERE", conds) + tail;
    WhereWordsStart(conds, tail);
    CommandTokens(["REMOVE"] + more);
    assert (["REMOVE"] + more)[2..] == more[1..];
    TailTokens(["REMOVE"] + WhereWords("WHERE", conds), tail);
    assert ["REMOVE"] + WhereWords("WHERE", conds) + tail == ["REMOVE"] + more;
    NothingToName(conds, tail);
  }

  lemma NothingToName(conds: seq<Condition>, tail: seq<string>)
    requires conds != [] && ValidLogic(conds) && NoConnective(tail) && (|tail| < 2 || tail[0] != "IN")
    requires AllTokens(tail)
    ensures var r := ReadWhere(WhereWords("WHERE", conds)[1..] + tail);
      r.Some? ==> |r.value.rest| < 2 || Trim(r.value.rest[0]) != "IN"
  {
    hide Trim, ReadWhere, NormalList, WhereWords;
    ReadWhereWords(conds, tail);
    if tail != [] { TrimClean(tail[0]); }
  }

  lemma ChangeNeedsDataset(field: string, value: string, conds: seq<Condition>, tail: seq<string>)
    requires conds != [] && ValidLogic(conds) && NoConnective(tail) && (|tail| < 2 || tail[0] != "IN")
    requires AllTokens(["CHANGE"] + ([field, "=", value] + (WhereWords("WHERE", conds) + tail)))
    ensures ParseChange(CommandText(["CHANGE"] + ([field, "=", value] + (WhereWords("WHERE", conds) + tail)))) == None
  {
    hide ParseChange, ReadWhere, WhereWords, CommandText;
    var more := WhereWords("WHERE", conds) + tail;
    var us := [field, "=", value] + more;
    WhereWordsStart(conds, tail);
    ParseChangeWords(us);
    assert us[3] == "WHERE" && us[4..] == more[1..];
    TailTokens(["CHANGE"] + [field, "=", value] + WhereWords("WHERE", conds), tail);
    assert ["CHANGE"] + [field, "=", value] + WhereWords("WHERE", conds) + tail == ["CHANGE"] + us;
    NothingToName(conds, tail);
  }

  /** CHANGE needs its equals sign and, without conditions, its IN. */
  lemma ChangeShortForm(ws: seq<string>)
    requires AllTokens(["CHANGE"] + ws) && ws != [] && (|ws| > 3 ==> ws[3] != "WHERE")
    ensures ParseChange(CommandText(["CHANGE"] + ws)) ==
      if |ws| >= 5 && ws[1] == "=" && ws[3] == "IN" then Some(ChangeParams(ws[0], ws[2], [], ws[4])) else None
  {
    ParseChangeWords(ws);
  }

  // ---------- each clause at most once ----------

  /** No ORDER in front of BY. */
  predicate OrderFree(ts: seq<string>) { forall i | 0 <= i < |ts| - 1 && ts[i] == "ORDER" :: ts[i + 1] != "BY" }

  lemma {:induction false} OrderFreeKeepsKey(ts: seq<string>, p: GetParams)
    requires OrderFree(ts) && Harmless(ts)
    ensures ReadClauses(ts, p).Some? ==> ReadClauses(ts, p).value.orderByKey == p.orderByKey
    decreases |ts|
  {
    hide ReadWhere, Harmless, Stoi;
    if ts == [] {
    } else if ts[0] == "WHERE" {
      FirstIsHarmless(ts);
    } else {
      HarmlessSuffix(ts, ClauseLength(ts));
      match NextParams(ts, p)
      case Some(p') => OrderFreeKeepsKey(ts[ClauseLength(ts)..], p');
      case None =>
    }
  }

  predicate NoOrders(cs: seq<Clause>) { forall i | 0 <= i < |cs| :: !cs[i].ByOrder? }

  lemma {:induction false} ClausesAreOrderFree(cs: seq<Clause>)
    requires NoOrders(cs)
    ensures OrderFree(ClausesWords(cs))
    ensures cs != [] ==> ClausesWords(cs)[0] != "ORDER"
  {
    hide IntText;
    if cs != [] {
      assert forall i | 0 <= i < |cs[1..]| :: cs[1..][i] == cs[i + 1];
      ClausesAreOrderFree(cs[1..]);
      var ts, head, more := ClausesWords(cs), ClauseWords(cs[0]), ClausesWords(cs[1..]);
      if cs[1..] != [] { ClausesBegin(cs[1..]); } else { NoClauses(); }
      if cs[0].AtMost? { NumberIsNoOrder(cs[0].n); }
      hide ClausesWords;
      forall i | 0 <= i < |ts| - 1 && ts[i] == "ORDER" ensures ts[i + 1] != "BY" {
        if i >= |head| { assert more[i - |head|] == "ORDER" && more[i - |head| + 1] == ts[i + 1]; }
      }
    }
  }

  lemma NumberIsNoOrder(n: int)
    ensures IntText(n) != "ORDER"
  {
    var s := IntText(n);
    assert s[0] == '-' || IsDigit(s[0]);
    assert "ORDER"[0] == 'O';
  }

  /** The words of clauses without ORDER BY, from any of them on, set no sort key. */
  lemma NoOrdersKeepKey(cs: seq<Clause>, n: nat, p: GetParams)
    requires NoOrders(cs) && n <= |ClausesWords(cs)|
    ensures var r := ReadClauses(ClausesWords(cs)[n..], p); r.Some? ==> r.value.orderByKey == p.orderByKey
  {
    hide ReadClauses, ClausesWords;
    var ts := ClausesWords(cs);
    ClausesAreOrderFree(cs);
    ClausesAreHarmless(cs);
    HarmlessSuffix(ts, n);
    assert forall i | 0 <= i < |ts[n..]| :: ts[n..][i] == ts[n + i];
    OrderFreeKeepsKey(ts[n..], p);
  }

  lemma FirstWordBlocks(cs: seq<Clause>)
    ensures var ts := ClausesWords(cs); ts == [] || (Blocks(ts[0]) && ts[0] != "WHERE")
  {
    hide ClausesWords, Blocks;
    if cs == [] {
      NoClauses();
    } else {
      ClausesBegin(cs);
      WordsBlock(ClausesWords(cs)[0]);
    }
  }

  /** A keyword for a key or a direction, in front of further clauses, is refused. */
  lemma KeywordInFront(w: string, cs: seq<Clause>, p: GetParams)
    requires ClauseKeyword(w)
    ensures ReadClauses([w] + ClausesWords(cs), p) == None
  {
    hide ReadWhere, ClausesWords;
    var ts := [w] + ClausesWords(cs);
    FirstWordBlocks(cs);
    if w == "WHERE" {
      assert ts[1..] == ClausesWords(cs);
      ClausesStayClosed(cs);
    } else {
      hide Blocks;
      BlockedWord(w, ClausesWords(cs), p);
    }
  }

  lemma ClausesStayClosed(cs: seq<Clause>)
    ensures ReadWhere(ClausesWords(cs)) == None
    ensures forall w: string :: ReadWhere([w] + ClausesWords(cs)) == None
  {
    hide ReadWhere, ClausesWords, NormalOp;
    if cs == [] {
      NoClauses();
    } else {
      ClausesBegin(cs);
      KeywordIsNoOp(ClausesWords(cs)[0]);
    }
    NoWhereWithoutOp(ClausesWords(cs));
    forall w: string ensures ReadWhere([w] + ClausesWords(cs)) == None { NoWhereWithoutOp([w] + ClausesWords(cs)); }
  }

  lemma NumberIsNoKeyword(n: int)
    ensures NoKeywords(ClauseWords(AtMost(n))[1..])
  {
    var s := IntText(n);
    assert s[0] == '-' || IsDigit(s[0]);
    assert "WHERE"[0] == 'W' && "GROUP"[0] == 'G' && "ORDER"[0] == 'O' && "LIMIT"[0] == 'L';
  }

  /** Behind WHERE, a GROUP BY whose key is a keyword is refused. */
  lemma KeywordBehindGroup(key: string, later: seq<Clause>, p: GetParams)
    requires !NoKeywords(ClauseWords(ByGroup(key))[1..])
    ensures ReadClauses((ClauseWords(ByGroup(key)) + ClausesWords(later))[1..], p) == None
  {
    hide ReadClauses, ClausesWords;
    var rest := ClausesWords(later);
    assert (ClauseWords(ByGroup(key)) + rest)[1..] == ["BY"] + ([key] + rest);
    SkipWord("BY", [key] + rest, p);
    KeywordInFront(key, later, p);
  }

  /** An ORDER BY with a keyword among its words is refused or read as sorting by
      something else. */
  lemma KeywordBehindOrder(key: string, order: string, later: seq<Clause>, p: GetParams)
    requires !NoKeywords(ClauseWords(ByOrder(key, order))[1..]) && NoOrders(later) && p.orderByKey != key
    ensures var r := ReadClauses((ClauseWords(ByOrder(key, order)) + ClausesWords(later))[1..], p);
      r.Some? ==> r.value.orderByKey != key
  {
    hide ReadClauses, ClausesWords, Upper;
    var rest, u := ClausesWords(later), Upper(order);
    assert (ClauseWords(ByOrder(key, order)) + rest)[1..] == ["BY"] + ([key] + ([u] + rest));
    SkipWord("BY", [key] + ([u] + rest), p);
    if !ClauseKeyword(key) {
      SkipWord(key, [u] + rest, p);
      KeywordInFront(u, later, p);
    } else {
      KeywordKey(key, u, later, p);
    }
  }

  lemma KeywordKey(key: string, u: string, later: seq<Clause>, p: GetParams)
    requires ClauseKeyword(key) && NoOrders(later) && p.orderByKey != key
    ensures var r := ReadClauses([key] + ([u] + ClausesWords(later)), p);
      r.Some? ==> r.value.orderByKey != key
  {
    hide ClausesWords, ReadWhere, Stoi;
    var rest := ClausesWords(later);
    var ts := [key] + ([u] + rest);
    assert rest[0..] == rest && ts[2..] == rest;
    if key == "WHERE" {
      ClausesStayClosed(later);
      assert ts[1..] == [u] + rest;
    } else if key == "LIMIT" {
      if Stoi(u).Some? { NoOrdersKeepKey(later, 0, p.(limit := Stoi(u).value)); }
    } else if later == [] {
      NoClauses();
    } else {
      ClausesBegin(later);
      ClausesAreOrderFree(later);
      if key == "GROUP" {
        assert ts[3..] == rest[1..];
        NoOrdersKeepKey(later, 1, p.(groupByKey := rest[0]));
      } else {
        assert ts[4..] == rest[2..];
        NoOrdersKeepKey(later, 2, p.(orderByKey := rest[0], orderDesc := Direction(rest[1], p.orderDesc)));
      }
    }
  }

  /** A chain that uses each clause at most once is seen as written exactly when no
      effective clause directly follows WHERE, whatever its words. */
  lemma SeenWhenUsedOnce(q: GetQuery)
    requires AllTokens(GetWords(q, "WHERE")) && ValidLogic(q.conds) && ValidOps(q.conds)
    requires OncePerKind(q.before + q.after) && LimitsFit(q.before + q.after)
    ensures ParseGet(CommandText(GetWords(q, "WHERE"))) == Meaning(q) <==>
      q.conds == [] || q.after == [] || q.after[0] == AtMost(-1)
  {
    hide GetWords, ParseGet, CommandText, AllTokens, LimitsFit, ValidLogic, ValidOps, Meaning, Overridden, NoKeywords;
    if q.conds == [] || q.after == [] || NoKeywords(ClauseWords(q.after[0])[1..]) {
      GetSeesWhatWasWritten(q);
      if q.conds != [] && q.after != [] { UsedOnceIsEffective(q); }
    } else {
      UnseenKeyword(q);
    }
  }

  lemma UsedOnceIsEffective(q: GetQuery)
    requires AllTokens(GetWords(q, "WHERE")) && q.after != []
    requires OncePerKind(q.before + q.after) && LimitsFit(q.before + q.after)
    ensures Prefix(q).Some?
    ensures Overridden(q.after[0], q.after[1..], Prefix(q).value) <==> q.after[0] == AtMost(-1)
  {
    hide GetWords, AllTokens, ApplyAll, OncePerKind, LimitsFit, DirectedLater, Upper;
    SplitKinds(q.before, q.after);
    SplitLimits(q.before, q.after);
    KeyIsToken(q);
    ApplyKeeps(q.before, NO_PARAMS.(fields := q.fields, alias := q.alias, dataset := q.dataset));
    assert forall i | 0 <= i < |q.after[1..]| :: q.after[1..][i] == q.after[i + 1];
  }

  /** The conditions read, the parser goes on behind the next word. */
  lemma ReadPastWhere(conds: seq<Condition>, after: seq<Clause>, p: GetParams)
    requires conds != [] && ValidLogic(conds) && ValidOps(conds) && after != []
    ensures WithConditions(Some(p), conds).Some? && ClausesWords(after) != []
    ensures ReadClauses(WhereWords("WHERE", conds) + ClausesWords(after), p) ==
      ReadClauses(ClausesWords(after)[1..], WithConditions(Some(p), conds).value)
  {
    hide ReadClauses, ReadWhere, NormalList, ClausesWords, WhereWords, ValidOps;
    var rest := ClausesWords(after);
    NormalListSucceeds(conds);
    WhereWordsStart(conds, rest);
    ClausesStart(after);
    ClausesBegin(after);
    ReadWhereWords(conds, rest);
    ReadWhereStep(WhereWords("WHERE", conds) + rest, p);
  }

  lemma UnseenKeyword(q: GetQuery)
    requires AllTokens(GetWords(q, "WHERE")) && ValidLogic(q.conds) && ValidOps(q.conds)
    requires q.conds != [] && q.after != [] && !NoKeywords(ClauseWords(q.after[0])[1..])
    requires OncePerKind(q.before + q.after) && LimitsFit(q.before + q.after)
    ensures ParseGet(CommandText(GetWords(q, "WHERE"))) != Meaning(q) && !q.after[0].AtMost?
  {
    hide GetWords, ParseGet, CommandText, ApplyAll, OncePerKind, LimitsFit, ReadClauses, NormalList, NoKeywords,
      ClauseWords, ClausesWords, WhereWords, ValidOps, ValidLogic;
    var c, later := q.after[0], q.after[1..];
    KeyIsToken(q);
    hide AllTokens;
    SplitKinds(q.before, q.after);
    SplitLimits(q.before, q.after);
    ApplyKeeps(q.before, NO_PARAMS.(fields := q.fields, alias := q.alias, dataset := q.dataset));
    var p := Prefix(q).value;
    ReadUpTo(q, "WHERE");
    ReadPastWhere(q.conds, q.after, p);
    var p' := WithConditions(Some(p), q.conds).value;
    ClausesCons(q.after);
    ApplyKeeps(q.after, p');
    match c
    case AtMost(n) => NumberIsNoKeyword(n);
    case ByGroup(key) => KeywordBehindGroup(key, later, p');
    case ByOrder(key, order) =>
      assert forall i | 0 <= i < |later| :: later[i] == q.after[i + 1];
      KeywordBehindOrder(key, order, later, p');
      assert [c] + later == q.after;
      SortedByFirst(key, order, later, p');
  }

  lemma SortedByFirst(key: string, order: string, later: seq<Clause>, p: GetParams)
    requires NoOrders(later) && LimitsFit([ByOrder(key, order)] + later)
    ensures var r := ApplyAll([ByOrder(key, order)] + later, Some(p)); r.Some? && r.value.orderByKey == key
  {
    hide Upper;
    var cs := [ByOrder(key, order)] + later;
    assert cs[1..] == later && forall i | 0 <= i < |later| :: later[i] == cs[i + 1];
    ApplyKeeps(later, Apply(cs[0], p).value);
  }
}
