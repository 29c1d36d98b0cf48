/** JSON values as nlohmann::json holds them: objects keep their members sorted
    by key, numbers are integers, `Dump` is the compact `dump()`. */
module Json {
  import opened Options
  import opened Text
  import opened Hex

  datatype Member = Member(key: string, val: Json)

  datatype Json =
    | Null
    | Bool(b: bool)
    | Int(n: int)
    | Str(s: string)
    | Arr(items: seq<Json>)
    | Obj(members: seq<Member>)

  // ---------- members ----------

  function Find(ms: seq<Member>, key: string): Option<Json> {
    if ms == [] then None
    else if ms[0].key == key then Some(ms[0].val)
    else Find(ms[1..], key)
  }

  /** `j.contains(key)` together with `j[key]`; only objects contain keys. */
  function Field(j: Json, key: string): Option<Json> {
    if j.Obj? then Find(j.members, key) else None
  }

  predicate Contains(j: Json, key: string) { Field(j, key).Some? }

  function Insert(ms: seq<Member>, key: string, val: Json): seq<Member> {
    if ms == [] then [Member(key, val)]
    else if ms[0].key == key then [Member(key, val)] + ms[1..]
    else if Before(key, ms[0].key) then [Member(key, val)] + ms
    else [ms[0]] + Insert(ms[1..], key, val)
  }

  /** `j[key] = val` on an object. */
  function SetField(j: Json, key: string, val: Json): (r: Json)
    requires j.Obj?
    ensures r.Obj?
  {
    Obj(Insert(j.members, key, val))
  }

  function Remove(ms: seq<Member>, key: string): seq<Member> {
    if ms == [] then []
    else if ms[0].key == key then Remove(ms[1..], key)
    else [ms[0]] + Remove(ms[1..], key)
  }

  /** `j.erase(key)` on an object. */
  function EraseField(j: Json, key: string): (r: Json)
    requires j.Obj?
    ensures r.Obj?
  {
    Obj(Remove(j.members, key))
  }

  lemma FindOne(m: Member, key: string)
    ensures Find([m], key) == if m.key == key then Some(m.val) else None
  {
    assert [m][1..] == [];
  }

  lemma {:induction false} FindInsert(ms: seq<Member>, key: string, val: Json, other: string)
    ensures Find(Insert(ms, key, val), other) == if other == key then Some(val) else Find(ms, other)
  {
    if ms != [] {
      FindInsert(ms[1..], key, val, other);
      assert ([Member(key, val)] + ms[1..])[1..] == ms[1..];
      assert ([Member(key, val)] + ms)[1..] == ms;
    }
  }

  lemma {:induction false} FindRemove(ms: seq<Member>, key: string, other: string)
    ensures Find(Remove(ms, key), other) == if other == key then None else Find(ms, other)
  {
    if ms != [] { FindRemove(ms[1..], key, other); }
  }

  /** Writing a field changes that field and no other. */
  lemma FieldAfterSet(j: Json, key: string, val: Json, other: string)
    requires j.Obj?
    ensures Field(SetField(j, key, val), other) == if other == key then Some(val) else Field(j, other)
  {
    FindInsert(j.members, key, val, other);
  }

  /** Writing the same field twice keeps the last value. */
  lemma {:induction false} InsertTwice(ms: seq<Member>, key: string, v: Json, w: Json)
    ensures Insert(Insert(ms, key, v), key, w) == Insert(ms, key, w)
  {
    BeforeIsStrict(key, key);
    if ms != [] {
      InsertTwice(ms[1..], key, v, w);
      assert ([Member(key, v)] + ms[1..])[1..] == ms[1..];
      assert ([Member(key, v)] + ms)[1..] == ms;
    }
  }

  /** The order std::map keeps its keys in. */
  predicate SortedMembers(ms: seq<Member>) {
    forall i, j | 0 <= i < j < |ms| :: Before(ms[i].key, ms[j].key)
  }

  lemma {:induction false} InsertKeepsSorted(ms: seq<Member>, key: string, val: Json)
    requires SortedMembers(ms)
    ensures SortedMembers(Insert(ms, key, val))
    ensures forall i | 0 <= i < |Insert(ms, key, val)| ::
      Insert(ms, key, val)[i].key == key || exists j | 0 <= j < |ms| :: ms[j].key == Insert(ms, key, val)[i].key
  {
    if ms != [] {
      var rest := ms[1..];
      InsertKeepsSorted(rest, key, val);
      BeforeIsTotal(key, ms[0].key);
      forall j | 0 <= j < |ms| && Before(key, ms[0].key) ensures Before(key, ms[j].key) {
        if j > 0 { BeforeIsTransitive(key, ms[0].key, ms[j].key); }
      }
      assert forall j | 0 <= j < |rest| :: rest[j] == ms[j + 1];
    }
  }

  // ---------- dump ----------

  function EscapeChar(c: char): (s: string)
    ensures s != ""
  {
    if c == '"' then "\\\""
    else if c == '\\' then "\\\\"
    else if c as int == 8 then "\\b"
    else if c as int == 12 then "\\f"
    else if c == '\n' then "\\n"
    else if c == '\r' then "\\r"
    else if c == '\t' then "\\t"
    else if c as int < 32 then "\\u00" + HexByte(c)
    else [c]
  }

  function Escaped(s: string): string {
    if s == "" then "" else EscapeChar(s[0]) + Escaped(s[1..])
  }

  function Quote(s: string): string { "\"" + Escaped(s) + "\"" }

  function Dump(j: Json): (t: string)
    ensures t != ""
  {
    match j
    case Null => "null"
    case Bool(b) => if b then "true" else "false"
    case Int(n) => IntText(n)
    case Str(s) => Quote(s)
    case Arr(items) => "[" + DumpItems(items) + "]"
    case Obj(members) => "{" + DumpMembers(members) + "}"
  }

  function DumpItems(items: seq<Json>): string {
    if items == [] then ""
    else if |items| == 1 then Dump(items[0])
    else Dump(items[0]) + "," + DumpItems(items[1..])
  }

  function DumpMember(m: Member): string { Quote(m.key) + ":" + Dump(m.val) }

  function DumpMembers(ms: seq<Member>): string {
    if ms == [] then ""
    else if |ms| == 1 then DumpMember(ms[0])
    else DumpMember(ms[0]) + "," + DumpMembers(ms[1..])
  }

  /** Texts with commas between them. */
  function Joined(ts: seq<string>): string {
    if ts == [] then ""
    else if |ts| == 1 then ts[0]
    else Joined(ts[..|ts| - 1]) + "," + ts[|ts| - 1]
  }

  lemma {:induction false} JoinedCons(t: string, ts: seq<string>)
    requires ts != []
    ensures Joined([t] + ts) == t + "," + Joined(ts)
    decreases |ts|
  {
    var all, n := [t] + ts, |ts| - 1;
    assert all[..|all| - 1] == [t] + ts[..n];
    if n == 0 {
      assert [t] + ts[..0] == [t];
    } else {
      JoinedCons(t, ts[..n]);
    }
  }

  function Dumps(items: seq<Json>): seq<string> { seq(|items|, i requires 0 <= i < |items| => Dump(items[i])) }

  function MemberDumps(ms: seq<Member>): seq<string> {
    seq(|ms|, i requires 0 <= i < |ms| => Quote(ms[i].key) + ":" + Dump(ms[i].val))
  }

  /** Arrays and objects are dumped element by element, in order. */
  lemma DumpIsJoined(items: seq<Json>, ms: seq<Member>)
    ensures Dump(Arr(items)) == "[" + Joined(Dumps(items)) + "]"
    ensures Dump(Obj(ms)) == "{" + Joined(MemberDumps(ms)) + "}"
  {
    ItemsAreJoined(items);
    MembersAreJoined(ms);
  }

  lemma {:induction false} ItemsAreJoined(items: seq<Json>)
    ensures DumpItems(items) == Joined(Dumps(items))
  {
    hide Dump;
    if |items| > 1 {
      ItemsAreJoined(items[1..]);
      JoinedCons(Dump(items[0]), Dumps(items[1..]));
      assert Dumps(items) == [Dump(items[0])] + Dumps(items[1..]);
    }
  }

  lemma {:induction false} MembersAreJoined(ms: seq<Member>)
    ensures DumpMembers(ms) == Joined(MemberDumps(ms))
  {
    hide Dump, Quote;
    if |ms| > 1 {
      MembersAreJoined(ms[1..]);
      JoinedCons(Quote(ms[0].key) + ":" + Dump(ms[0].val), MemberDumps(ms[1..]));
      assert MemberDumps(ms) == [Quote(ms[0].key) + ":" + Dump(ms[0].val)] + MemberDumps(ms[1..]);
    }
  }

  /** Characters a dump leaves alone. */
  predicate NeedsNoEscape(s: string) { forall i | 0 <= i < |s| :: s[i] >= ' ' && s[i] != '"' && s[i] != '\\' }

  lemma {:induction false} DumpedAsIs(s: string)
    requires NeedsNoEscape(s)
    ensures Escaped(s) == s
  {
    if s != "" {
      assert s == [s[0]] + s[1..];
      DumpedAsIs(s[1..]);
    }
  }

  lemma QuotedAsIs(s: string)
    requires NeedsNoEscape(s)
    ensures Quote(s) == "\"" + s + "\""
  {
    DumpedAsIs(s);
  }
}
