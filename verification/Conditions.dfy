/** Row predicates (app/lib/ConditionUtils.h): dotted lookup, one condition, and
    the condition list, both as the loop computes it and as AND/OR read. */
module Conditions {
  import opened Options
  import opened Text
  import opened Json

  // ---------- dotted lookup ----------

  function DotIndex(s: string): (i: nat)
    ensures i <= |s| && (i < |s| ==> s[i] == '.')
    ensures forall k | 0 <= k < i :: s[k] != '.'
  {
    IndexOf(s, '.')
  }

  function AfterDot(s: string): string {
    if DotIndex(s) == |s| then "" else s[DotIndex(s) + 1..]
  }

  /** The pieces `std::getline(iss, token, '.')` yields; a final dot adds none. */
  function Dots(key: string): seq<string>
    decreases |key|
  {
    if key == "" then [] else [key[..DotIndex(key)]] + Dots(AfterDot(key))
  }

  function Walk(j: Json, path: seq<string>): Json
    decreases |path|
  {
    if path == [] then j
    else match Field(j, path[0])
      case Some(v) => Walk(v, path[1..])
      case None => Null
  }

  function GetNested(j: Json, key: string): Json { Walk(j, Dots(key)) }

  method GetNestedValue(j: Json, compoundKey: string) returns (current: Json)
    ensures current == GetNested(j, compoundKey)
  {
    var iss := compoundKey;
    current := j;
    while iss != ""
      invariant GetNested(j, compoundKey) == Walk(current, Dots(iss))
      decreases |iss|
    {
      var token := iss[..DotIndex(iss)];
      iss := AfterDot(iss);
      match Field(current, token) {
        case Some(v) => current := v;
        case None => return Null;
      }
    }
  }

  predicate HasDot(s: string) { exists i | 0 <= i < |s| :: s[i] == '.' }

  lemma DotIndexIs(s: string, i: nat)
    requires i <= |s| && (i < |s| ==> s[i] == '.')
    requires forall k | 0 <= k < i :: s[k] != '.'
    ensures DotIndex(s) == i
  {
    IndexOfIs(s, '.', i);
  }

  /** Splitting at an inner dot: the pieces of both halves, unless the first half
      is empty or already ends in a dot, when one more empty piece appears. */
  lemma {:induction false} DotsConcat(p: string, q: string)
    ensures Dots(p + "." + q) ==
      if p == "" || p[|p| - 1] == '.' then Dots(p) + [""] + Dots(q) else Dots(p) + Dots(q)
    decreases |p|
  {
    hide Dots;
    var s := p + "." + q;
    var i := DotIndex(p);
    assert forall k | 0 <= k < i :: s[k] == p[k];
    DotIndexIs(s, i);
    assert s[..i] == p[..i];
    DotsAt(s, i);
    if i < |p| {
      var rest := p[i + 1..];
      assert s[i + 1..] == rest + "." + q;
      DotsConcat(rest, q);
      DotsAt(p, i);
      assert p[|p| - 1] == if rest == "" then '.' else rest[|rest| - 1];
      Regroup([p[..i]], Dots(rest), [""], Dots(q));
      if rest == "" { DotsOfEmpty(); }
    } else {
      assert s[i + 1..] == q;
      DotsUndotted(p);
      assert p[..i] == p;
    }
  }

  lemma Regroup(a: seq<string>, b: seq<string>, c: seq<string>, d: seq<string>)
    ensures a + (b + c + d) == (a + b) + c + d && a + (b + d) == (a + b) + d
  {}

  lemma DotsAt(s: string, i: nat)
    requires i < |s| && DotIndex(s) == i
    ensures Dots(s) == [s[..i]] + Dots(s[i + 1..])
  {}

  lemma DotsOfEmpty()
    ensures Dots("") == []
  {}

  lemma DotsUndotted(s: string)
    requires DotIndex(s) == |s|
    ensures Dots(s) == if s == "" then [] else [s]
  {
    assert s[..|s|] == s;
    DotsOfEmpty();
  }

  lemma {:induction false} WalkConcat(j: Json, p: seq<string>, q: seq<string>)
    ensures Walk(j, p + q) == Walk(Walk(j, p), q)
    decreases |p|
  {
    if p == [] {
      assert p + q == q;
    } else {
      assert (p + q)[1..] == p[1..] + q;
      match Field(j, p[0])
      case Some(v) => WalkConcat(v, p[1..], q);
      case None => WalkNull(q);
    }
  }

  lemma WalkNull(path: seq<string>)
    ensures Walk(Null, path) == Null
  {}

  /** `get(j, p.q) == get(get(j, p), q)`. */
  lemma NestedComposes(j: Json, p: string, q: string)
    requires p != "" && p[|p| - 1] != '.'
    ensures GetNested(j, p + "." + q) == GetNested(GetNested(j, p), q)
  {
    DotsConcat(p, q);
    WalkConcat(j, Dots(p), Dots(q));
  }

  /** Outside that premise the law is lost: the extra empty piece looks up "". */
  lemma NestedComposesOnlyThen(p: string, q: string)
    requires p == "" || p[|p| - 1] == '.'
    ensures exists j :: GetNested(j, p + "." + q) != GetNested(GetNested(j, p), q)
  {
    hide Dots, Walk, Nest;
    var inner := Nest(Dots(q), Bool(true));
    var j := Nest(Dots(p), inner);
    DotsConcat(p, q);
    BrokenAt(Dots(p), Dots(q));
    assert GetNested(j, p + "." + q) != GetNested(GetNested(j, p), q);
  }

  lemma BrokenAt(p: seq<string>, q: seq<string>)
    ensures var j := Nest(p, Nest(q, Bool(true)));
            Walk(j, p + [""] + q) != Walk(Walk(j, p), q)
  {
    hide Walk, Nest;
    var inner := Nest(q, Bool(true));
    WalkNest(p, inner);
    WalkNest(q, Bool(true));
    assert p + [""] + q == p + ([""] + q);
    WalkConcat(Nest(p, inner), p, [""] + q);
    WalkPastNest(q, [""] + q);
  }

  /** An object reachable along exactly the given path. */
  function Nest(path: seq<string>, j: Json): Json {
    if path == [] then j else Obj([Member(path[0], Nest(path[1..], j))])
  }

  lemma WalkNest(path: seq<string>, j: Json)
    ensures Walk(Nest(path, j), path) == j
  {}

  lemma {:induction false} WalkPastNest(path: seq<string>, longer: seq<string>)
    requires |longer| > |path|
    ensures Walk(Nest(path, Bool(true)), longer) != Bool(true)
  {
    if path != [] {
      FindOne(Member(path[0], Nest(path[1..], Bool(true))), longer[0]);
      WalkPastNest(path[1..], longer[1..]);
    }
  }

  // ---------- what a key shows ----------

  /** A value is found under a key: as a member, or for a dotted key further down. */
  predicate Shows(row: Json, key: string, v: Json) {
    if HasDot(key) then GetNested(row, key) == v else Field(row, key) == Some(v)
  }

  /** The members on a path lead from one value to another. */
  ghost predicate Leads(j: Json, path: seq<string>, v: Json)
    decreases |path|
  {
    if path == [] then j == v else exists u :: Field(j, path[0]) == Some(u) && Leads(u, path[1..], v)
  }

  /** Names without dots, the last not empty. */
  predicate IsPath(path: seq<string>) {
    path != [] && path[|path| - 1] != "" && forall i | 0 <= i < |path| :: !HasDot(path[i])
  }

  function PathText(path: seq<string>): string
    requires path != []
  {
    if |path| == 1 then path[0] else path[0] + "." + PathText(path[1..])
  }

  /** One name and the rest. */
  lemma DotsCons(p: string, q: string)
    requires !HasDot(p)
    ensures Dots(p + "." + q) == [p] + Dots(q) && HasDot(p + "." + q)
  {
    DotsConcat(p, q);
    assert DotIndex(p) == |p|;
    DotsUndotted(p);
    DotsOfEmpty();
    assert (p + "." + q)[|p|] == '.';
  }

  lemma {:induction false} DotsOfPath(path: seq<string>)
    requires IsPath(path)
    ensures Dots(PathText(path)) == path
    decreases |path|
  {
    hide Dots;
    if |path| == 1 {
      assert DotIndex(path[0]) == |path[0]|;
      DotsUndotted(path[0]);
    } else {
      DotsCons(path[0], PathText(path[1..]));
      DotsOfPath(path[1..]);
    }
  }

  lemma {:induction false} WalkLeads(j: Json, path: seq<string>, v: Json)
    requires Leads(j, path, v)
    ensures Walk(j, path) == v
    decreases |path|
  {
    if path != [] {
      var u :| Field(j, path[0]) == Some(u) && Leads(u, path[1..], v);
      WalkLeads(u, path[1..], v);
    }
  }

  /** A path of members is followed, under a key with a dot and without. */
  lemma PathShows(j: Json, path: seq<string>, v: Json)
    requires IsPath(path) && Leads(j, path, v)
    ensures Shows(j, PathText(path), v) && GetNested(j, PathText(path)) == v
  {
    hide Dots;
    DotsOfPath(path);
    WalkLeads(j, path, v);
    if |path| == 1 {
      var u :| Field(j, path[0]) == Some(u) && Leads(u, path[1..], v);
    } else {
      DotsCons(path[0], PathText(path[1..]));
    }
  }

  // ---------- one condition ----------

  datatype Condition = Condition(field: string, op: string, value: string, logic: string)

  /** Outcome of one condition: the source returns "evaluable" and stores the truth. */
  datatype Verdict = NotEvaluable | Verdict(truth: bool)

  /** The field a condition looks at; missing and null fields are not evaluable. */
  function FieldValue(item: Json, field: string): (r: Option<Json>)
    ensures r.Some? ==> !r.value.Null?
  {
    var v := if HasDot(field) then Some(GetNested(item, field)) else Field(item, field);
    if v == Some(Null) then None else v
  }

  predicate Less(a: real, b: Number) {
    match b case Finite(r) => a < r case Infinite(negative) => !negative case NotANumber => false
  }

  predicate Greater(a: real, b: Number) {
    match b case Finite(r) => a > r case Infinite(negative) => negative case NotANumber => false
  }

  /** The operand may be infinite, or no number, which compares with nothing. */
  function CompareNumbers(a: real, b: Number, op: string): Verdict {
    if op == "==" then Verdict(b == Finite(a))
    else if op == "!=" then Verdict(b != Finite(a))
    else if op == "<" then Verdict(Less(a, b))
    else if op == "<=" then Verdict(Less(a, b) || b == Finite(a))
    else if op == ">" then Verdict(Greater(a, b))
    else if op == ">=" then Verdict(Greater(a, b) || b == Finite(a))
    else NotEvaluable
  }

  function CompareTexts(a: string, b: string, op: string): Verdict {
    if op == "==" then Verdict(a == b)
    else if op == "!=" then Verdict(a != b)
    else if op == "<" then Verdict(Before(a, b))
    else if op == "<=" then Verdict(!Before(b, a))
    else if op == ">" then Verdict(Before(b, a))
    else if op == ">=" then Verdict(!Before(a, b))
    else NotEvaluable
  }

  function Plain(v: Json): string { if v.Str? then v.s else Dump(v) }

  function EvaluateValue(v: Json, c: Condition): Verdict {
    if v.Int? && Stod(c.value).Some? then CompareNumbers(v.n as real, Stod(c.value).value, c.op)
    else if c.op == "HAS" then Verdict(v.Arr? && Str(c.value) in v.items)
    else CompareTexts(Plain(v), c.value, c.op)
  }

  function Evaluate(item: Json, c: Condition): Verdict {
    match FieldValue(item, c.field)
    case None => NotEvaluable
    case Some(v) => EvaluateValue(v, c)
  }

  predicate Evaluable(item: Json, c: Condition) { Evaluate(item, c).Verdict? }

  predicate True(item: Json, c: Condition) { Evaluate(item, c) == Verdict(true) }

  /** `res` is the caller's variable: it is left alone when the answer is false. */
  method EvaluateCondition(item: Json, cond: Condition, res: bool) returns (evaluable: bool, res': bool)
    ensures evaluable == Evaluable(item, cond)
    ensures res' == if evaluable then True(item, cond) else res
  {
    hide CompareNumbers, CompareTexts, Stod, GetNested, HasDot;
    res' := res;
    var fieldValue := Null;
    if HasDot(cond.field) {
      fieldValue := GetNestedValue(item, cond.field);
    } else {
      match Field(item, cond.field) {
        case Some(v) => fieldValue := v;
        case None => return false, res;
      }
    }
    if fieldValue.Null? { return false, res; }
    var number := Stod(cond.value);
    if number.Some? && fieldValue.Int? {
      var verdict := CompareNumbers(fieldValue.n as real, number.value, cond.op);
      return verdict.Verdict?, if verdict.Verdict? then verdict.truth else res;
    }
    if cond.op == "HAS" {
      if !fieldValue.Arr? { return true, false; }
      for i := 0 to |fieldValue.items|
        invariant Str(cond.value) !in fieldValue.items[..i]
      {
        if fieldValue.items[i] == Str(cond.value) { return true, true; }
      }
      return true, false;
    }
    var verdict := CompareTexts(Plain(fieldValue), cond.value, cond.op);
    return verdict.Verdict?, if verdict.Verdict? then verdict.truth else res;
  }

  lemma TrueIsEvaluable(item: Json, c: Condition)
    ensures True(item, c) ==> Evaluable(item, c)
  {}

  function Cond(field: string, op: string, value: string): Condition { Condition(field, op, value, "") }

  /** A number compared with an operand that spells NaN. */
  predicate Unordered(v: Json, value: string) { v.Int? && Stod(value) == Some(NotANumber) }

  /** The six comparisons on one evaluable field are one comparison: at most one of
      <, == and > holds, one does exactly unless the operand spells NaN, and the
      others are their combinations. */
  lemma OperatorsCohere(item: Json, field: string, v: Json, value: string)
    requires Shows(item, field, v) && v != Null
    ensures var lt := True(item, Cond(field, "<", value));
            var eq := True(item, Cond(field, "==", value));
            var gt := True(item, Cond(field, ">", value));
            && !(lt && eq) && !(lt && gt) && !(eq && gt)
            && ((lt || eq || gt) <==> !Unordered(v, value))
            && (True(item, Cond(field, "<=", value)) <==> lt || eq)
            && (True(item, Cond(field, ">=", value)) <==> gt || eq)
            && (True(item, Cond(field, "!=", value)) <==> !eq)
  {
    ShownIsSeen(item, field, v);
    hide CompareNumbers, CompareTexts, Stod, FieldValue, Less, Greater;
    CompareTextsCohere(Plain(v), value);
    if Stod(value).Some? && v.Int? { CompareNumbersCohere(v.n as real, Stod(value).value); }
  }

  lemma CompareNumbersCohere(a: real, b: Number)
    ensures CompareNumbers(a, b, "<") == Verdict(Less(a, b)) && CompareNumbers(a, b, ">") == Verdict(Greater(a, b))
    ensures CompareNumbers(a, b, "<=") == Verdict(Less(a, b) || b == Finite(a))
    ensures CompareNumbers(a, b, ">=") == Verdict(Greater(a, b) || b == Finite(a))
    ensures CompareNumbers(a, b, "==") == Verdict(b == Finite(a)) && CompareNumbers(a, b, "!=") == Verdict(b != Finite(a))
    ensures Less(a, Infinite(false)) && Greater(a, Infinite(true))
    ensures !(Less(a, b) && Greater(a, b)) && (b == Finite(a) ==> !Less(a, b) && !Greater(a, b))
    ensures (Less(a, b) || b == Finite(a) || Greater(a, b)) <==> b != NotANumber
  {}

  lemma CompareTextsCohere(a: string, b: string)
    ensures CompareTexts(a, b, "<") == Verdict(Before(a, b)) && CompareTexts(a, b, ">") == Verdict(Before(b, a))
    ensures CompareTexts(a, b, "<=") == Verdict(!Before(b, a)) && CompareTexts(a, b, ">=") == Verdict(!Before(a, b))
    ensures CompareTexts(a, b, "==") == Verdict(a == b) && CompareTexts(a, b, "!=") == Verdict(a != b)
    ensures (Before(a, b) || a == b || Before(b, a)) && !(Before(a, b) && Before(b, a)) && !Before(a, a)
  {
    BeforeIsTotal(a, b);
    BeforeIsStrict(a, b);
    BeforeIsStrict(a, a);
  }

  /** An integer field is compared by value; operands beyond the doubles, where
      `stod` throws, by equality only. */
  lemma IntegersCompareByValue(item: Json, field: string, m: int, n: int)
    requires Shows(item, field, Int(m))
    ensures True(item, Cond(field, "==", IntText(n))) <==> m == n
    ensures InRange(Abs(n) as real) ==> (True(item, Cond(field, "<", IntText(n))) <==> m < n)
  {
    ShownIsSeen(item, field, Int(m));
    hide Stod, InRange, IntText, Before, FieldValue;
    StodOfIntText(n);
    IntTextInjective(m, n);
  }

  /** The value a condition looks at is the one its key shows, unless that is null. */
  lemma ShownIsSeen(item: Json, field: string, v: Json)
    requires Shows(item, field, v)
    ensures FieldValue(item, field) == if v == Null then None else Some(v)
  {}

  /** What a condition says of the value its key shows: numbers are compared with an
      operand that reads as a number, all else as text; HAS looks into arrays. */
  lemma ConditionMeaning(item: Json, field: string, v: Json, value: string)
    requires Shows(item, field, v) && v != Null
    ensures var x, text := Stod(value), if v.Str? then v.s else Dump(v);
            var lt, eq, gt := True(item, Cond(field, "<", value)), True(item, Cond(field, "==", value)),
                              True(item, Cond(field, ">", value));
            if v.Int? && x.Some? then
              && (lt <==> Less(v.n as real, x.value))
              && (eq <==> x.value == Finite(v.n as real))
              && (gt <==> Greater(v.n as real, x.value))
              && !Evaluable(item, Cond(field, "HAS", value))
            else
              && (lt <==> Before(text, value))
              && (eq <==> text == value)
              && (gt <==> Before(value, text))
              && Evaluable(item, Cond(field, "HAS", value))
              && (True(item, Cond(field, "HAS", value)) <==> v.Arr? && Str(value) in v.items)
  {
    ShownIsSeen(item, field, v);
    hide FieldValue, Stod, Before, Dump, Less, Greater;
  }

  /** A missing or null value cannot be evaluated, whatever is asked of it. */
  lemma NothingShown(item: Json, c: Condition)
    requires forall v :: Shows(item, c.field, v) ==> v == Null
    ensures !Evaluable(item, c)
  {
    if HasDot(c.field) {
      assert Shows(item, c.field, GetNested(item, c.field));
    } else if Field(item, c.field).Some? {
      assert Shows(item, c.field, Field(item, c.field).value);
    }
  }

  /** A condition on `p.q` asks of a row what one on `q` asks of the member p, and
      cannot be evaluated without that member. */
  lemma ConditionDescends(item: Json, p: string, q: string, op: string, value: string)
    requires !HasDot(p) && q != ""
    ensures Evaluate(item, Cond(p + "." + q, op, value)) ==
      match Field(item, p)
      case Some(v) => Evaluate(v, Cond(q, op, value))
      case None => NotEvaluable
  {
    hide Dots, EvaluateValue;
    DotsCons(p, q);
    match Field(item, p)
    case None =>
    case Some(v) =>
      assert ([p] + Dots(q))[1..] == Dots(q);
      assert GetNested(item, p + "." + q) == GetNested(v, q);
      SameQuestion(GetNested(v, q), p + "." + q, q, op, value);
      if !HasDot(q) {
        assert DotIndex(q) == |q|;
        DotsUndotted(q);
        WalkOne(v, q);
      }
  }

  lemma WalkOne(j: Json, name: string)
    ensures Walk(j, [name]) == match Field(j, name) case Some(v) => v case None => Null
  {
    assert [name][1..] == [];
  }

  /** A condition on a path through nested members asks of the row what it would ask
      of the value at the end, were that a member of the row. */
  lemma ConditionFollowsPath(item: Json, path: seq<string>, v: Json, op: string, value: string)
    requires IsPath(path) && Leads(item, path, v)
    ensures Evaluate(item, Cond(PathText(path), op, value)) ==
      Evaluate(Obj([Member("value", v)]), Cond("value", op, value))
  {
    var flat := Obj([Member("value", v)]);
    FindOne(Member("value", v), "value");
    assert !HasDot("value") && Field(flat, "value") == Some(v);
    PathShows(item, path, v);
    ShownIsSeen(item, PathText(path), v);
    ShownIsSeen(flat, "value", v);
    hide FieldValue, EvaluateValue;
    SameQuestion(v, PathText(path), "value", op, value);
  }

  lemma SameQuestion(v: Json, f: string, g: string, op: string, value: string)
    ensures EvaluateValue(v, Cond(f, op, value)) == EvaluateValue(v, Cond(g, op, value))
  {}

  // ---------- condition lists ----------

  predicate KnownLogic(logic: string) { logic == "AND" || logic == "OR" }

  predicate ValidLogic(conds: seq<Condition>) {
    forall i | 1 <= i < |conds| :: KnownLogic(conds[i].logic)
  }

  /** What the loop of the program leaves in `*result`; None when it gives up. */
  function Loop(item: Json, conds: seq<Condition>): Option<bool>
    requires conds != []
    decreases |conds|
  {
    var n := |conds| - 1;
    var last := conds[n];
    if n == 0 then Some(Evaluable(item, last))
    else match Loop(item, conds[..n])
      case None => None
      case Some(acc) =>
        if last.logic == "AND" then Some(True(item, last))
        else if last.logic == "OR" then Some(Evaluable(item, last) || acc)
        else None
  }

  /** The reading the query language suggests: a left fold of truth values. */
  predicate Fold(item: Json, conds: seq<Condition>)
    requires conds != []
    decreases |conds|
  {
    var n := |conds| - 1;
    var last := conds[n];
    if n == 0 then True(item, last)
    else if last.logic == "AND" then Fold(item, conds[..n]) && True(item, last)
    else Fold(item, conds[..n]) || True(item, last)
  }

  method EvaluateConditions(item: Json, conds: seq<Condition>, result: bool) returns (ok: bool, result': bool)
    ensures conds == [] ==> ok && result' == result
    ensures conds != [] ==> ok == Loop(item, conds).Some?
    ensures conds != [] && ok ==> Loop(item, conds) == Some(result')
  {
    hide Evaluable, True;
    result' := result;
    if conds == [] { return true, result; }
    var current;
    current, result' := EvaluateCondition(item, conds[0], result');
    result' := current;
    var i := 1;
    assert conds[..1] == [conds[0]];
    while i < |conds|
      invariant 1 <= i <= |conds|
      invariant Loop(item, conds[..i]) == Some(result')
    {
      var logic := conds[i].logic;
      assert conds[..i + 1][..i] == conds[..i];
      current, result' := EvaluateCondition(item, conds[i], result');
      TrueIsEvaluable(item, conds[i]);
      if logic == "AND" {
        result' := result' && current;
      } else if logic == "OR" {
        result' := result' || current;
      } else {
        LoopGivesUp(item, conds, i + 1);
        return false, result';
      }
      i := i + 1;
    }
    assert conds[..i] == conds;
    return true, result';
  }

  lemma {:induction false} LoopGivesUp(item: Json, conds: seq<Condition>, k: nat)
    requires 1 <= k <= |conds| && Loop(item, conds[..k]) == None
    ensures Loop(item, conds) == None
    decreases |conds| - k
  {
    hide Evaluable, True;
    if k == |conds| {
      assert conds[..k] == conds;
    } else {
      assert conds[..k + 1][..k] == conds[..k];
      LoopGivesUp(item, conds, k + 1);
    }
  }

  /** The loop succeeds exactly on lists joined by AND and OR. */
  lemma {:induction false} LoopSucceeds(item: Json, conds: seq<Condition>)
    requires conds != []
    ensures Loop(item, conds).Some? <==> ValidLogic(conds)
    decreases |conds|
  {
    hide Evaluable, True;
    var n := |conds| - 1;
    if n > 0 {
      LoopSucceeds(item, conds[..n]);
      assert forall i | 1 <= i < n :: conds[..n][i] == conds[i];
    }
  }

  /** Index of the last AND, 0 when there is none. */
  function LastAnd(conds: seq<Condition>): (k: nat)
    requires conds != []
    ensures k < |conds|
    ensures k > 0 ==> conds[k].logic == "AND"
    ensures forall i | k < i < |conds| :: conds[i].logic != "AND"
  {
    var n := |conds| - 1;
    if n == 0 || conds[n].logic == "AND" then n else LastAnd(conds[..n])
  }

  predicate AnyEvaluable(item: Json, conds: seq<Condition>, k: nat) {
    exists i | k < i < |conds| :: Evaluable(item, conds[i])
  }

  predicate AnyTrue(item: Json, conds: seq<Condition>, k: nat) {
    exists i | k < i < |conds| :: True(item, conds[i])
  }

  /** What the last AND, or the first condition, contributes to the loop. */
  predicate Base(item: Json, conds: seq<Condition>)
    requires conds != []
  {
    var k := LastAnd(conds);
    if k == 0 then Evaluable(item, conds[0]) else True(item, conds[k])
  }

  lemma {:induction false} LastAndPrefix(conds: seq<Condition>)
    requires |conds| > 1 && conds[|conds| - 1].logic != "AND"
    ensures LastAnd(conds) == LastAnd(conds[..|conds| - 1])
  {}

  /** Closed form of the loop: everything before the last AND is forgotten, and
      behind it one evaluable condition is enough. */
  lemma {:induction false} LoopClosedForm(item: Json, conds: seq<Condition>)
    requires conds != [] && ValidLogic(conds)
    ensures Loop(item, conds) == Some(Base(item, conds) || AnyEvaluable(item, conds, LastAnd(conds)))
    decreases |conds|
  {
    hide Evaluable, True;
    var n := |conds| - 1;
    if n > 0 && conds[n].logic != "AND" {
      var before := conds[..n];
      LastAndPrefix(conds);
      assert forall i | 0 <= i < n :: before[i] == conds[i];
      LoopClosedForm(item, before);
    } else if n > 0 {
      LoopSucceeds(item, conds);
    }
  }

  /** Closed form of the intended reading. */
  lemma {:induction false} FoldClosedForm(item: Json, conds: seq<Condition>)
    requires conds != [] && ValidLogic(conds)
    ensures var k := LastAnd(conds);
            Fold(item, conds) <==> Fold(item, conds[..k + 1]) || AnyTrue(item, conds, k)
    decreases |conds|
  {
    hide True;
    var n := |conds| - 1;
    var k := LastAnd(conds);
    if k == n {
      assert conds[..n + 1] == conds;
    } else {
      hide Fold, LastAnd;
      var before := conds[..n];
      LastAndPrefix(conds);
      FoldClosedForm(item, before);
      assert before[..k + 1] == conds[..k + 1];
      AnyTrueGrows(item, conds, k);
      FoldUnfolds(item, conds);
    }
  }

  lemma AnyTrueGrows(item: Json, conds: seq<Condition>, k: nat)
    requires k < |conds| - 1
    ensures AnyTrue(item, conds, k) <==> AnyTrue(item, conds[..|conds| - 1], k) || True(item, conds[|conds| - 1])
  {
    hide True;
    var before := conds[..|conds| - 1];
    assert forall i | 0 <= i < |before| :: before[i] == conds[i];
  }

  lemma FoldUnfolds(item: Json, conds: seq<Condition>)
    requires |conds| > 1 && conds[|conds| - 1].logic != "AND"
    ensures Fold(item, conds) <==> Fold(item, conds[..|conds| - 1]) || True(item, conds[|conds| - 1])
  {}

  /** No intended row is missed by the loop. */
  lemma {:induction false} FoldImpliesLoop(item: Json, conds: seq<Condition>)
    requires conds != [] && ValidLogic(conds) && Fold(item, conds)
    ensures Loop(item, conds) == Some(true)
    decreases |conds|
  {
    var n := |conds| - 1;
    LoopSucceeds(item, conds);
    if n > 0 && conds[n].logic == "OR" && Fold(item, conds[..n]) {
      FoldImpliesLoop(item, conds[..n]);
    }
  }

  /** Something from the last AND on makes the list true, or its base fails and no
      later condition can even be evaluated. */
  predicate Decided(item: Json, conds: seq<Condition>)
    requires conds != []
  {
    var k := LastAnd(conds);
    || AnyTrue(item, conds, k)
    || Fold(item, conds[..k + 1])
    || (!Base(item, conds) && !AnyEvaluable(item, conds, k))
  }

  /** The rows on which the two readings agree. */
  lemma LoopAgreesWithFold(item: Json, conds: seq<Condition>)
    requires conds != [] && ValidLogic(conds)
    ensures Loop(item, conds) == Some(Fold(item, conds)) <==> Decided(item, conds)
  {
    hide Loop, Fold, LastAnd, Base, AnyEvaluable, AnyTrue, ValidLogic;
    LoopClosedForm(item, conds);
    FoldClosedForm(item, conds);
    if Fold(item, conds) { FoldImpliesLoop(item, conds); }
  }

  /** One WHERE condition: the loop only asks whether it can be evaluated. */
  lemma SingleCondition(item: Json, c: Condition)
    ensures Loop(item, [c]) == Some(Evaluable(item, c))
    ensures c.op == "==" || c.op == "!=" ==> (Evaluable(item, c) <==> FieldValue(item, c.field).Some?)
    ensures Loop(item, [c]) == Some(Fold(item, [c])) <==> !(Evaluable(item, c) && !True(item, c))
  {}

  /** A conjunction: the loop keeps the last condition only. */
  lemma {:induction false} ConjunctionKeepsLast(item: Json, conds: seq<Condition>)
    requires |conds| > 1 && forall i | 1 <= i < |conds| :: conds[i].logic == "AND"
    ensures var n := |conds| - 1;
            && Loop(item, conds) == Some(True(item, conds[n]))
            && (Loop(item, conds) == Some(Fold(item, conds)) <==>
                !True(item, conds[n]) || Fold(item, conds[..n]))
  {
    LoopSucceeds(item, conds);
  }

  /** `WHERE id IS 1` accepts the row {"id":2}. */
  lemma WhereIgnoresTheValue()
    ensures var row := Obj([Member("id", Int(2))]);
            var conds := [Condition("id", "==", "1", "")];
            Loop(row, conds) == Some(true) && !Fold(row, conds)
  {
    var row := Obj([Member("id", Int(2))]);
    assert IntText(1) == "1";
    assert !HasDot("id");
    assert Field(row, "id") == Some(Int(2));
    hide FieldValue, Stod;
    IntegersCompareByValue(row, "id", 2, 1);
  }

  /** The predicate the handlers filter by. */
  predicate Match(item: Json, conds: seq<Condition>) {
    conds != [] && Loop(item, conds) == Some(true)
  }
}
