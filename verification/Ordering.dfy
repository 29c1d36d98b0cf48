/** ORDER BY and LIMIT (app/handlers/GetCommandHandler.h): the mixed-type
    comparator, sorting by it, and cutting the result. */
module Ordering {
  import opened Options
  import opened Hex
  import opened Text
  import opened Json
  import opened Conditions
  import opened Rows
  import JsonReader

  /** The value a row is sorted by; null when the key is missing. */
  function OrderKey(row: Json, key: string): Json {
    if HasDot(key) then GetNested(row, key)
    else match Field(row, key) case Some(v) => v case None => Null
  }

  /** Numeric on two numbers, otherwise lexicographic on the dumps. */
  predicate KeyLess(a: Json, b: Json) {
    if a.Int? && b.Int? then a.n < b.n else Before(Dump(a), Dump(b))
  }

  /** Some value other than null is found under the key. */
  ghost predicate Keyed(row: Json, key: string) { exists v :: v != Null && Shows(row, key, v) }

  lemma KeyIsShown(row: Json, key: string)
    ensures forall v :: Shows(row, key, v) ==> OrderKey(row, key) == v
    ensures Keyed(row, key) <==> OrderKey(row, key) != Null
    ensures Keyed(row, key) ==> Shows(row, key, OrderKey(row, key))
  {
    if HasDot(key) {
      assert Shows(row, key, GetNested(row, key));
    } else if Field(row, key).Some? {
      assert Shows(row, key, Field(row, key).value);
    }
  }

  predicate RowLess(key: string, desc: bool, x: Json, y: Json) {
    if desc then KeyLess(OrderKey(y, key), OrderKey(x, key))
    else KeyLess(OrderKey(x, key), OrderKey(y, key))
  }

  /** One value goes before another in the direction asked for. */
  predicate Precedes(desc: bool, a: Json, b: Json) { if desc then KeyLess(b, a) else KeyLess(a, b) }

  /** Rows are compared by what their keys show. */
  lemma RowsCompareByValue(key: string, desc: bool, x: Json, y: Json, a: Json, b: Json)
    requires Shows(x, key, a) && Shows(y, key, b)
    ensures RowLess(key, desc, x, y) <==> Precedes(desc, a, b)
  {
    hide KeyLess;
    KeyIsShown(x, key);
    KeyIsShown(y, key);
  }

  predicate Tied(key: string, desc: bool, x: Json, y: Json) {
    !RowLess(key, desc, x, y) && !RowLess(key, desc, y, x)
  }

  /** Dumps of different kinds differ in their first character, in this order. */
  function Kind(j: Json): nat {
    match j
    case Str(_) => 0
    case Int(_) => 1
    case Arr(_) => 2
    case Bool(b) => if b then 5 else 3
    case Null => 4
    case Obj(_) => 6
  }

  lemma DumpHead(j: Json)
    ensures var c := Dump(j)[0];
      match j
      case Str(_) => c == '"'
      case Int(_) => c == '-' || '0' <= c <= '9'
      case Arr(_) => c == '['
      case Bool(b) => c == if b then 't' else 'f'
      case Null => c == 'n'
      case Obj(_) => c == '{'
  {}

  lemma KindDecides(a: Json, b: Json)
    requires Kind(a) != Kind(b)
    ensures KeyLess(a, b) <==> Kind(a) < Kind(b)
  {
    hide Dump;
    DumpHead(a);
    DumpHead(b);
  }

  lemma SameKind(a: Json, b: Json)
    requires Kind(a) == Kind(b)
    ensures KeyLess(a, b) <==> if a.Int? then a.n < b.n else Before(Dump(a), Dump(b))
  {}

  /** The comparator is a strict total order on values: irreflexive, transitive,
      and two values neither of which precedes the other are equal. */
  lemma KeyLessIsStrict(a: Json, b: Json)
    ensures KeyLess(a, b) ==> !KeyLess(b, a)
    ensures !KeyLess(a, a)
  {
    BeforeIsStrict(Dump(a), Dump(b));
    BeforeIsStrict(Dump(a), Dump(a));
  }

  lemma KeyLessIsTransitive(a: Json, b: Json, c: Json)
    requires KeyLess(a, b) && KeyLess(b, c)
    ensures KeyLess(a, c)
  {
    hide KeyLess;
    if Kind(a) != Kind(b) { KindDecides(a, b); } else { SameKind(a, b); }
    if Kind(b) != Kind(c) { KindDecides(b, c); } else { SameKind(b, c); }
    if Kind(a) != Kind(c) {
      KindDecides(a, c);
    } else {
      SameKind(a, c);
      if !a.Int? { BeforeIsTransitive(Dump(a), Dump(b), Dump(c)); }
    }
  }

  lemma KeyLessIsTotal(a: Json, b: Json)
    ensures KeyLess(a, b) || a == b || KeyLess(b, a)
  {
    BeforeIsTotal(Dump(a), Dump(b));
    JsonReader.DumpInjective(a, b);
  }

  /** What `std::sort` demands of the lambda: a strict weak ordering of rows. */
  lemma RowLessIsStrictWeak(key: string, desc: bool, x: Json, y: Json, z: Json)
    ensures !RowLess(key, desc, x, x)
    ensures RowLess(key, desc, x, y) && RowLess(key, desc, y, z) ==> RowLess(key, desc, x, z)
    ensures Tied(key, desc, x, y) && Tied(key, desc, y, z) ==> Tied(key, desc, x, z)
    ensures Tied(key, desc, x, y) <==> OrderKey(x, key) == OrderKey(y, key)
    ensures RowLess(key, true, x, y) <==> RowLess(key, false, y, x)
  {
    hide KeyLess, OrderKey;
    var a, b, c := OrderKey(x, key), OrderKey(y, key), OrderKey(z, key);
    KeyLessIsStrict(a, b);
    KeyLessIsStrict(b, a);
    KeyLessIsTotal(a, b);
    KeyLessIsTotal(b, c);
    if KeyLess(a, b) && KeyLess(b, c) { KeyLessIsTransitive(a, b, c); }
    if KeyLess(c, b) && KeyLess(b, a) { KeyLessIsTransitive(c, b, a); }
  }

  /** Rows are tied exactly when their keys show the same. */
  lemma TiesShowTheSame(key: string, desc: bool, x: Json, y: Json, a: Json, b: Json)
    requires Shows(x, key, a) && Shows(y, key, b)
    ensures Tied(key, desc, x, y) <==> a == b
  {
    hide RowLess, OrderKey, Shows;
    KeyIsShown(x, key);
    KeyIsShown(y, key);
    RowLessIsStrictWeak(key, desc, x, y, x);
  }

  // ---------- texts as keys ----------

  /** Two texts sort as texts by what meets at their first difference: where one of
      them ends, the other goes on with neither a blank nor '!', which precede the
      closing quote; where both go on, escaping keeps the order of the characters. */
  predicate SortsAsText(s: string, t: string) {
    if s == "" || t == "" then LateStart(s) && LateStart(t)
    else if s[0] == t[0] then SortsAsText(s[1..], t[1..])
    else KeepsOrder(s[0], t[0])
  }

  predicate LateStart(s: string) { s == "" || (s[0] != ' ' && s[0] != '!') }

  predicate KeepsOrder(c: char, d: char) { Before(EscapeChar(c), EscapeChar(d)) <==> c < d }

  /** ORDER BY compares two texts as texts exactly when they sort as texts. */
  lemma {:induction false} TextOrderIsExact(s: string, t: string)
    ensures (KeyLess(Str(s), Str(t)) <==> Before(s, t)) <==> SortsAsText(s, t)
  {
    var a, b := Escaped(s) + "\"", Escaped(t) + "\"";
    assert Quote(s) == "\"" + a && Quote(t) == "\"" + b;
    BeforeAfterPrefix("\"", a, b);
    EscapedOrderIsExact(s, t);
  }

  lemma {:induction false} EscapedOrderIsExact(s: string, t: string)
    ensures (Before(Escaped(s) + "\"", Escaped(t) + "\"") <==> Before(s, t)) <==> SortsAsText(s, t)
  {
    hide EscapeChar;
    if s == "" || t == "" {
      QuoteAgainst(s);
      QuoteAgainst(t);
      assert Escaped("") + "\"" == "\"";
    } else {
      var e, f := EscapeChar(s[0]), EscapeChar(t[0]);
      var x, y := Escaped(s[1..]) + "\"", Escaped(t[1..]) + "\"";
      assert Escaped(s) + "\"" == e + x && Escaped(t) + "\"" == f + y;
      if s[0] == t[0] {
        hide Escaped;
        BeforeAfterPrefix(e, x, y);
        EscapedOrderIsExact(s[1..], t[1..]);
      } else {
        hide Escaped;
        EscapesDecide(s[0], t[0], x, y);
      }
    }
  }

  /** The quote that ends an empty text against the text of another. */
  lemma QuoteAgainst(s: string)
    ensures Before("\"", Escaped(s) + "\"") <==> s != "" && LateStart(s)
    ensures Before(Escaped(s) + "\"", "\"") <==> !LateStart(s)
  {
    var q := Escaped(s) + "\"";
    if s == "" {
      assert q == "\"";
    } else {
      assert q[0] == EscapeChar(s[0])[0];
    }
  }

  /** No escape is a prefix of another, so the first different characters decide. */
  lemma EscapesDecide(c: char, d: char, x: string, y: string)
    requires c != d
    ensures Before(EscapeChar(c) + x, EscapeChar(d) + y) <==> Before(EscapeChar(c), EscapeChar(d))
  {
    EscapesPart(c, d);
    FirstDifferenceDecides(EscapeChar(c), EscapeChar(d), x, y);
  }

  predicate Parts(a: string, b: string) { exists k | 0 <= k < |a| && k < |b| :: a[k] != b[k] }

  lemma EscapesPart(c: char, d: char)
    requires c != d
    ensures Parts(EscapeChar(c), EscapeChar(d))
  {
    var a, b := EscapeChar(c), EscapeChar(d);
    if a[0] == b[0] && a[1] == b[1] {
      ByteOfHexByte(c);
      ByteOfHexByte(d);
      assert a[4..] == HexByte(c) && b[4..] == HexByte(d);
      assert a[4] != b[4] || a[5] != b[5];
    } else {
      assert a[0] != b[0] || a[1] != b[1];
    }
  }

  lemma {:induction false} FirstDifferenceDecides(a: string, b: string, x: string, y: string)
    requires Parts(a, b)
    ensures Before(a + x, b + y) <==> Before(a, b)
  {
    var k :| 0 <= k < |a| && k < |b| && a[k] != b[k];
    assert (a + x)[0] == a[0] && (b + y)[0] == b[0];
    if a[0] == b[0] {
      assert a[1..][k - 1] != b[1..][k - 1];
      assert (a + x)[1..] == a[1..] + x && (b + y)[1..] == b[1..] + y;
      FirstDifferenceDecides(a[1..], b[1..], x, y);
    }
  }

  /** Texts without control characters, blanks, '!', '"' or '\\' sort as texts. */
  predicate PlainText(s: string) { forall i | 0 <= i < |s| :: s[i] > '"' && s[i] != '\\' }

  lemma {:induction false} StringsSortAsTexts(s: string, t: string)
    requires PlainText(s) && PlainText(t)
    ensures SortsAsText(s, t) && (KeyLess(Str(s), Str(t)) <==> Before(s, t))
  {
    TextOrderIsExact(s, t);
    hide KeyLess;
    if s != "" && t != "" && s[0] == t[0] { StringsSortAsTexts(s[1..], t[1..]); }
  }

  /** With a blank it is otherwise: a name followed by a blank and more sorts before
      the name alone, whatever characters they hold. */
  lemma {:induction false} BlankSortsFirst(s: string, t: string)
    ensures KeyLess(Str(s + " " + t), Str(s)) && Before(s, s + " " + t) && !SortsAsText(s, s + " " + t)
  {
    var longer := s + " " + t;
    BlankBreaksOrder(s, t);
    TextOrderIsExact(s, longer);
    KeyLessIsTotal(Str(s), Str(longer));
  }

  lemma {:induction false} BlankBreaksOrder(s: string, t: string)
    ensures Before(s, s + " " + t) && !SortsAsText(s, s + " " + t)
  {
    if s != "" {
      assert (s + " " + t)[1..] == s[1..] + " " + t;
      BlankBreaksOrder(s[1..], t);
    }
  }

  lemma {:induction false} BeforeAfterPrefix(p: string, x: string, y: string)
    ensures Before(p + x, p + y) <==> Before(x, y)
  {
    if p == "" {
      assert p + x == x && p + y == y;
    } else {
      assert (p + x)[1..] == p[1..] + x && (p + y)[1..] == p[1..] + y;
      BeforeAfterPrefix(p[1..], x, y);
    }
  }

  // ---------- sorting ----------

  /** No row strictly precedes an earlier one. */
  predicate Ordered(rows: seq<Json>, key: string, desc: bool) {
    forall i, j | 0 <= i < j < |rows| :: !RowLess(key, desc, rows[j], rows[i])
  }

  predicate InOrder(desc: bool, m: int, n: int) { if desc then m >= n else m <= n }

  lemma OrderedIntegers(rows: seq<Json>, key: string, desc: bool)
    requires forall i | 0 <= i < |rows| :: OrderKey(rows[i], key).Int?
    ensures Ordered(rows, key, desc) <==>
      forall i, j | 0 <= i < j < |rows| :: InOrder(desc, OrderKey(rows[i], key).n, OrderKey(rows[j], key).n)
  {
    hide OrderKey;
  }

  /** All that is promised of `std::sort`. */
  predicate IsSortOf(sorted: seq<Json>, rows: seq<Json>, key: string, desc: bool) {
    multiset(sorted) == multiset(rows) && Ordered(sorted, key, desc)
  }

  /** Stands for the library's sort: any result with this contract would do. */
  method Sort(rows: seq<Json>, key: string, desc: bool) returns (sorted: seq<Json>)
    ensures IsSortOf(sorted, rows, key, desc)
  {
    sorted := [];
    for n := 0 to |rows|
      invariant IsSortOf(sorted, rows[..n], key, desc)
    {
      sorted := Place(sorted, rows[n], key, desc);
      assert rows[..n + 1] == rows[..n] + [rows[n]];
    }
    assert rows[..|rows|] == rows;
  }

  method Place(sorted: seq<Json>, row: Json, key: string, desc: bool) returns (r: seq<Json>)
    requires Ordered(sorted, key, desc)
    ensures multiset(r) == multiset(sorted) + multiset{row} && Ordered(r, key, desc)
  {
    hide RowLess;
    var p := |sorted|;
    while p > 0 && RowLess(key, desc, row, sorted[p - 1])
      invariant 0 <= p <= |sorted|
      invariant forall j | p <= j < |sorted| :: RowLess(key, desc, row, sorted[j])
    {
      p := p - 1;
    }
    r := sorted[..p] + [row] + sorted[p..];
    assert sorted == sorted[..p] + sorted[p..];
    PlaceOrdered(sorted, p, row, key, desc);
  }

  lemma PlaceOrdered(sorted: seq<Json>, p: nat, row: Json, key: string, desc: bool)
    requires Ordered(sorted, key, desc) && p <= |sorted|
    requires p > 0 ==> !RowLess(key, desc, row, sorted[p - 1])
    requires forall j | p <= j < |sorted| :: RowLess(key, desc, row, sorted[j])
    ensures Ordered(sorted[..p] + [row] + sorted[p..], key, desc)
  {
    hide RowLess;
    forall i | 0 <= i < p ensures !RowLess(key, desc, row, sorted[i]) {
      if i < p - 1 && RowLess(key, desc, row, sorted[i]) {
        RowLessFits(key, desc, row, sorted[i], sorted[p - 1]);
      }
    }
    forall j | p <= j < |sorted| ensures !RowLess(key, desc, sorted[j], row) {
      RowLessIsStrictWeak(key, desc, row, sorted[j], row);
    }
  }

  /** Below one row is below every row not preceding it. */
  lemma RowLessFits(key: string, desc: bool, x: Json, y: Json, z: Json)
    requires RowLess(key, desc, x, y) && !RowLess(key, desc, z, y)
    ensures RowLess(key, desc, x, z)
  {
    hide KeyLess, OrderKey;
    var a, b, c := OrderKey(x, key), OrderKey(y, key), OrderKey(z, key);
    KeyLessIsTotal(b, c);
    if desc {
      if KeyLess(c, b) { KeyLessIsTransitive(c, b, a); }
    } else {
      if KeyLess(b, c) { KeyLessIsTransitive(a, b, c); }
    }
  }

  function Keys(rows: seq<Json>, key: string): (ks: seq<Json>)
    ensures |ks| == |rows|
  {
    seq(|rows|, i requires 0 <= i < |rows| => OrderKey(rows[i], key))
  }

  predicate KeysOrdered(ks: seq<Json>, desc: bool) {
    forall i, j | 0 <= i < j < |ks| :: !(if desc then KeyLess(ks[i], ks[j]) else KeyLess(ks[j], ks[i]))
  }

  /** Whatever the library does with ties, the sorted column of keys is fixed. */
  lemma SortedKeysAreUnique(x: seq<Json>, y: seq<Json>, key: string, desc: bool)
    requires Ordered(x, key, desc) && Ordered(y, key, desc)
    requires multiset(Keys(x, key)) == multiset(Keys(y, key))
    ensures Keys(x, key) == Keys(y, key)
  {
    hide OrderKey, KeyLess;
    forall i, j | 0 <= i < j < |x|
      ensures !(if desc then KeyLess(Keys(x, key)[i], Keys(x, key)[j]) else KeyLess(Keys(x, key)[j], Keys(x, key)[i]))
    {
      assert !RowLess(key, desc, x[j], x[i]);
    }
    forall i, j | 0 <= i < j < |y|
      ensures !(if desc then KeyLess(Keys(y, key)[i], Keys(y, key)[j]) else KeyLess(Keys(y, key)[j], Keys(y, key)[i]))
    {
      assert !RowLess(key, desc, y[j], y[i]);
    }
    OrderedKeysAreUnique(Keys(x, key), Keys(y, key), desc);
  }

  lemma TailOrdered(ks: seq<Json>, desc: bool)
    requires ks != [] && KeysOrdered(ks, desc)
    ensures KeysOrdered(ks[1..], desc)
  {}

  lemma FirstKeyAgrees(k: seq<Json>, l: seq<Json>, desc: bool)
    requires KeysOrdered(k, desc) && KeysOrdered(l, desc) && multiset(k) == multiset(l)
    ensures |k| == |l| && (k != [] ==> k[0] == l[0])
  {
    hide KeyLess;
    assert |k| == |multiset(k)| && |l| == |multiset(l)|;
    if k != [] {
      assert k[0] in multiset(l) && l[0] in multiset(k);
      KeyLessIsTotal(k[0], l[0]);
    }
  }

  lemma {:induction false} OrderedKeysAreUnique(k: seq<Json>, l: seq<Json>, desc: bool)
    requires KeysOrdered(k, desc) && KeysOrdered(l, desc) && multiset(k) == multiset(l)
    ensures k == l
  {
    FirstKeyAgrees(k, l, desc);
    if k != [] {
      assert k == [k[0]] + k[1..] && l == [l[0]] + l[1..];
      TailOrdered(k, desc);
      TailOrdered(l, desc);
      hide KeysOrdered;
      assert multiset(k[1..]) == multiset(k) - multiset{k[0]};
      OrderedKeysAreUnique(k[1..], l[1..], desc);
    }
  }

  // ---------- ORDER BY and LIMIT ----------

  function HasKey(key: string): Json -> bool { row => !OrderKey(row, key).Null? }

  method OrderBy(data: seq<Json>, key: string, desc: bool) returns (sorted: seq<Json>, ignored: nat)
    ensures IsSortOf(sorted, Filter(data, HasKey(key)), key, desc)
    ensures ignored + |sorted| == |data|
    ensures forall row :: multiset(sorted)[row] == if Keyed(row, key) then multiset(data)[row] else 0
  {
    var vec := [];
    ignored := 0;
    for i := 0 to |data|
      invariant vec == Filter(data[..i], HasKey(key))
      invariant ignored + |vec| == i
    {
      FilterSnoc(data, i, HasKey(key));
      var val := Null;
      if HasDot(key) {
        val := GetNestedValue(data[i], key);
      } else {
        match Field(data[i], key) {
          case Some(v) => val := v;
          case None =>
        }
      }
      if val.Null? {
        ignored := ignored + 1;
      } else {
        vec := vec + [data[i]];
      }
    }
    assert data[..|data|] == data;
    sorted := Sort(vec, key, desc);
    assert |multiset(sorted)| == |multiset(vec)|;
    hide Keyed, IsSortOf;
    forall row { SortKeepsKeyed(sorted, data, key, desc, row); }
  }

  function Limited(data: seq<Json>, limit: int): seq<Json> {
    if limit < 0 || |data| <= limit then data else data[..limit]
  }

  method ApplyLimit(data: seq<Json>, limit: int) returns (limited: seq<Json>)
    ensures limited == Limited(data, limit)
  {
    if limit < 0 || |data| <= limit { return data; }
    limited := [];
    for i := 0 to limit
      invariant limited == data[..i]
    {
      limited := limited + [data[i]];
    }
  }

  /** The rows LIMIT drops. */
  function Cut(data: seq<Json>, limit: int): (cut: seq<Json>)
    ensures data == Limited(data, limit) + cut
  {
    data[|Limited(data, limit)|..]
  }

  /** ORDER BY then LIMIT k: min(k, n) rows, and no row that was cut strictly
      precedes one that was returned. */
  lemma TopK(sorted: seq<Json>, rows: seq<Json>, key: string, desc: bool, k: int)
    requires IsSortOf(sorted, Filter(rows, HasKey(key)), key, desc) && k > 0
    ensures var top, cut := Limited(sorted, k), Cut(sorted, k);
            && |top| == (if k < |sorted| then k else |sorted|)
            && Ordered(top, key, desc)
            && (forall row | row in top :: row in rows && Keyed(row, key))
            && multiset(top) + multiset(cut) == multiset(Filter(rows, HasKey(key)))
            && forall r, c, a, b | r in top && c in cut && Shows(r, key, a) && Shows(c, key, b) :: !Precedes(desc, b, a)
  {
    hide RowLess, OrderKey, Shows, Keyed, Precedes;
    var top, cut := Limited(sorted, k), Cut(sorted, k);
    assert sorted == top + cut;
    SortKeepsMembers(sorted, rows, key, desc);
    forall row | row in top ensures Keyed(row, key) {
      assert row in sorted;
      KeyIsShown(row, key);
    }
    forall r, c, a, b | r in top && c in cut && Shows(r, key, a) && Shows(c, key, b) ensures !Precedes(desc, b, a) {
      var i :| 0 <= i < |top| && top[i] == r;
      var j :| 0 <= j < |cut| && cut[j] == c;
      assert sorted[i] == r && sorted[|top| + j] == c;
      RowsCompareByValue(key, desc, c, r, b, a);
    }
  }

  /** Sorting keeps every row that shows a value under the key, as often as it was
      there, and no other. */
  lemma SortKeepsKeyed(sorted: seq<Json>, rows: seq<Json>, key: string, desc: bool, row: Json)
    requires IsSortOf(sorted, Filter(rows, HasKey(key)), key, desc)
    ensures multiset(sorted)[row] == if Keyed(row, key) then multiset(rows)[row] else 0
  {
    hide OrderKey, Ordered, Shows, Keyed;
    FilterCounts(rows, HasKey(key), row);
    KeyIsShown(row, key);
  }

  /** The integers shown run upwards, or with DESC downwards. */
  ghost predicate IntegersRun(rows: seq<Json>, key: string, desc: bool) {
    forall i, j, m, n | 0 <= i < j < |rows| && Shows(rows[i], key, Int(m)) && Shows(rows[j], key, Int(n)) ::
      InOrder(desc, m, n)
  }

  ghost predicate ShowsInteger(row: Json, key: string) { exists m :: Shows(row, key, Int(m)) }

  /** On integer keys that is the k smallest in ascending order, or with DESC the k
      largest in descending order. */
  lemma TopKOfIntegers(sorted: seq<Json>, rows: seq<Json>, key: string, desc: bool, k: int)
    requires IsSortOf(sorted, Filter(rows, HasKey(key)), key, desc) && k > 0
    requires forall row, v | row in rows && Shows(row, key, v) :: v.Int? || v == Null
    ensures var top, cut := Limited(sorted, k), Cut(sorted, k);
            && (forall row | row in top || row in cut :: ShowsInteger(row, key))
            && IntegersRun(top, key, desc)
            && forall r, c, m, n | r in top && c in cut && Shows(r, key, Int(m)) && Shows(c, key, Int(n)) ::
                 InOrder(desc, m, n)
  {
    IntegersInOrder(sorted, rows, key, desc);
    var top, cut := Limited(sorted, k), Cut(sorted, k);
    assert sorted == top + cut;
    hide IsSortOf, InOrder, Limited, Cut, Shows, ShowsInteger, IntegersRun;
    RunSplits(top, cut, key, desc);
    forall r, c, m, n | r in top && c in cut && Shows(r, key, Int(m)) && Shows(c, key, Int(n))
      ensures InOrder(desc, m, n)
    {
      RunCrosses(top, cut, key, desc, r, c, m, n);
    }
  }

  lemma RunSplits(top: seq<Json>, cut: seq<Json>, key: string, desc: bool)
    requires IntegersRun(top + cut, key, desc)
    ensures IntegersRun(top, key, desc)
  {
    hide Shows, InOrder;
    assert forall i | 0 <= i < |top| :: (top + cut)[i] == top[i];
  }

  lemma RunCrosses(top: seq<Json>, cut: seq<Json>, key: string, desc: bool, r: Json, c: Json, m: int, n: int)
    requires IntegersRun(top + cut, key, desc) && r in top && c in cut
    requires Shows(r, key, Int(m)) && Shows(c, key, Int(n))
    ensures InOrder(desc, m, n)
  {
    hide Shows, InOrder;
    var i :| 0 <= i < |top| && top[i] == r;
    var j :| 0 <= j < |cut| && cut[j] == c;
    assert (top + cut)[i] == r && (top + cut)[|top| + j] == c;
  }

  lemma IntegersInOrder(sorted: seq<Json>, rows: seq<Json>, key: string, desc: bool)
    requires IsSortOf(sorted, Filter(rows, HasKey(key)), key, desc)
    requires forall row, v | row in rows && Shows(row, key, v) :: v.Int? || v == Null
    ensures forall row | row in sorted :: ShowsInteger(row, key)
    ensures IntegersRun(sorted, key, desc)
  {
    hide IsSortOf, Ordered, OrderKey, InOrder, Shows, Keyed;
    forall row | row in rows ensures OrderKey(row, key).Int? || OrderKey(row, key).Null? { KeyIsShown(row, key); }
    SortedIntegers(sorted, rows, key, desc);
    forall row | row in sorted ensures ShowsInteger(row, key) {
      KeyIsShown(row, key);
      assert Shows(row, key, Int(OrderKey(row, key).n));
    }
    forall i, j, m, n | 0 <= i < j < |sorted| && Shows(sorted[i], key, Int(m)) && Shows(sorted[j], key, Int(n))
      ensures InOrder(desc, m, n)
    {
      KeyIsShown(sorted[i], key);
      KeyIsShown(sorted[j], key);
    }
  }

  lemma SortedIntegers(sorted: seq<Json>, rows: seq<Json>, key: string, desc: bool)
    requires IsSortOf(sorted, Filter(rows, HasKey(key)), key, desc)
    requires forall row | row in rows :: OrderKey(row, key).Int? || OrderKey(row, key).Null?
    ensures forall row | row in sorted :: OrderKey(row, key).Int?
    ensures forall i, j | 0 <= i < j < |sorted| ::
      InOrder(desc, OrderKey(sorted[i], key).n, OrderKey(sorted[j], key).n)
  {
    hide OrderKey, InOrder, RowLess;
    SortKeepsMembers(sorted, rows, key, desc);
    OrderedIntegers(sorted, key, desc);
  }

  lemma SortKeepsMembers(sorted: seq<Json>, rows: seq<Json>, key: string, desc: bool)
    requires IsSortOf(sorted, Filter(rows, HasKey(key)), key, desc)
    ensures forall row :: row in sorted <==> row in rows && !OrderKey(row, key).Null?
  {
    FilterMembers(rows, HasKey(key));
    forall row ensures row in sorted <==> row in Filter(rows, HasKey(key)) {
      assert row in multiset(sorted) <==> row in multiset(Filter(rows, HasKey(key)));
    }
  }
}
