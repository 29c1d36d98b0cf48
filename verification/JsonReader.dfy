/** A reader for dumped JSON.  It recovers every value from its dump, so dumps
    are unambiguous: distinct values have distinct texts. */
module JsonReader {
  import opened Options
  import opened Text
  import opened Hex
  import opened Json

  datatype Read<T> = Read(value: T, rest: string)

  function Unescape(c: char): Option<char> {
    if c == '"' || c == '\\' then Some(c)
    else if c == 'b' then Some(8 as char)
    else if c == 'f' then Some(12 as char)
    else if c == 'n' then Some('\n')
    else if c == 'r' then Some('\r')
    else if c == 't' then Some('\t')
    else None
  }

  /** One possibly escaped character of a string literal. */
  function ReadChar(s: string): (r: Option<Read<char>>)
    ensures r.Some? ==> |r.value.rest| < |s|
  {
    if s == "" || s[0] == '"' then None
    else if s[0] != '\\' then Some(Read(s[0], s[1..]))
    else if |s| < 2 then None
    else if Unescape(s[1]).Some? then Some(Read(Unescape(s[1]).value, s[2..]))
    else if |s| < 6 || s[..4] != "\\u00" then None
    else
      match ByteOfHex(s[4], s[5])
      case Some(c) => Some(Read(c, s[6..]))
      case None => None
  }

  /** The rest of a string literal, past its opening quote. */
  function ReadString(s: string): (r: Option<Read<string>>)
    ensures r.Some? ==> |r.value.rest| < |s|
    decreases |s|
  {
    if s == "" then None
    else if s[0] == '"' then Some(Read("", s[1..]))
    else
      match ReadChar(s)
      case None => None
      case Some(c) =>
        match ReadString(c.rest)
        case None => None
        case Some(t) => Some(Read([c.value] + t.value, t.rest))
  }

  function ReadInt(s: string): (r: Option<Read<Json>>)
    ensures r.Some? ==> |r.value.rest| < |s|
  {
    var u := if s != "" && s[0] == '-' then s[1..] else s;
    var n := DigitCount(u);
    if n == 0 then None else Some(Read(Int(SignOf(s) * NatValue(u[..n])), u[n..]))
  }

  function ReadLiteral(s: string, text: string, j: Json): (r: Option<Read<Json>>)
    requires text != ""
    ensures r.Some? ==> |r.value.rest| < |s|
  {
    if text <= s then Some(Read(j, s[|text|..])) else None
  }

  function ReadValue(s: string): (r: Option<Read<Json>>)
    ensures r.Some? ==> |r.value.rest| < |s|
    decreases |s|, 0
  {
    if s == "" then None
    else if s[0] == 'n' then ReadLiteral(s, "null", Null)
    else if s[0] == 't' then ReadLiteral(s, "true", Bool(true))
    else if s[0] == 'f' then ReadLiteral(s, "false", Bool(false))
    else if s[0] == '"' then
      match ReadString(s[1..])
      case Some(t) => Some(Read(Str(t.value), t.rest))
      case None => None
    else if s[0] == '[' then ReadArray(s[1..])
    else if s[0] == '{' then ReadObject(s[1..])
    else ReadInt(s)
  }

  /** The rest of an array, past its opening bracket. */
  function ReadArray(s: string): (r: Option<Read<Json>>)
    ensures r.Some? ==> |r.value.rest| < |s|
    decreases |s|, 3
  {
    if s != "" && s[0] == ']' then Some(Read(Arr([]), s[1..]))
    else
      match ReadItems(s)
      case Some(t) => Some(Read(Arr(t.value), t.rest))
      case None => None
  }

  /** The rest of an object, past its opening brace. */
  function ReadObject(s: string): (r: Option<Read<Json>>)
    ensures r.Some? ==> |r.value.rest| < |s|
    decreases |s|, 3
  {
    if s != "" && s[0] == '}' then Some(Read(Obj([]), s[1..]))
    else
      match ReadMembers(s)
      case Some(t) => Some(Read(Obj(t.value), t.rest))
      case None => None
  }

  /** A non-empty item list up to and including its closing bracket. */
  function ReadItems(s: string): (r: Option<Read<seq<Json>>>)
    ensures r.Some? ==> |r.value.rest| < |s|
    decreases |s|, 2
  {
    match ReadValue(s)
    case None => None
    case Some(v) =>
      if v.rest == "" then None
      else if v.rest[0] == ']' then Some(Read([v.value], v.rest[1..]))
      else if v.rest[0] != ',' then None
      else
        match ReadItems(v.rest[1..])
        case None => None
        case Some(t) => Some(Read([v.value] + t.value, t.rest))
  }

  function ReadMember(s: string): (r: Option<Read<Member>>)
    ensures r.Some? ==> |r.value.rest| < |s|
    decreases |s|, 1
  {
    if s == "" || s[0] != '"' then None
    else
      match ReadString(s[1..])
      case None => None
      case Some(k) =>
        if k.rest == "" || k.rest[0] != ':' then None
        else
          match ReadValue(k.rest[1..])
          case None => None
          case Some(v) => Some(Read(Member(k.value, v.value), v.rest))
  }

  function ReadMembers(s: string): (r: Option<Read<seq<Member>>>)
    ensures r.Some? ==> |r.value.rest| < |s|
    decreases |s|, 2
  {
    match ReadMember(s)
    case None => None
    case Some(m) =>
      if m.rest == "" then None
      else if m.rest[0] == '}' then Some(Read([m.value], m.rest[1..]))
      else if m.rest[0] != ',' then None
      else
        match ReadMembers(m.rest[1..])
        case None => None
        case Some(t) => Some(Read([m.value] + t.value, t.rest))
  }

  function Parse(s: string): Option<Json> {
    match ReadValue(s)
    case Some(r) => if r.rest == "" then Some(r.value) else None
    case None => None
  }

  // ---------- reading back a dump ----------

  /** A number's text must not run into further digits. */
  predicate Ends(rest: string) { rest == "" || !IsDigit(rest[0]) }

  lemma ReadEscapeChar(c: char, rest: string)
    ensures ReadChar(EscapeChar(c) + rest) == Some(Read(c, rest))
    ensures EscapeChar(c)[0] != '"'
  {
    var s := EscapeChar(c) + rest;
    if c as int < 32 && s[1] == 'u' {
      ByteOfHexByte(c);
      assert s[..4] == "\\u00" && s[6..] == rest;
      assert s[4] == HexByte(c)[0] && s[5] == HexByte(c)[1];
    } else if |EscapeChar(c)| == 2 {
      assert s[2..] == rest;
    } else {
      assert s[1..] == rest;
    }
  }

  lemma {:induction false} ReadEscaped(s: string, rest: string)
    ensures ReadString(Escaped(s) + "\"" + rest) == Some(Read(s, rest))
  {
    if s == "" {
      assert (Escaped(s) + "\"" + rest)[1..] == rest;
    } else {
      var tail := Escaped(s[1..]) + "\"" + rest;
      assert Escaped(s) + "\"" + rest == EscapeChar(s[0]) + tail;
      ReadEscapeChar(s[0], tail);
      ReadEscaped(s[1..], rest);
      assert [s[0]] + s[1..] == s;
    }
  }

  lemma ReadQuoted(s: string, rest: string)
    ensures (Quote(s) + rest)[0] == '"'
    ensures ReadString((Quote(s) + rest)[1..]) == Some(Read(s, rest))
  {
    assert (Quote(s) + rest)[1..] == Escaped(s) + "\"" + rest;
    ReadEscaped(s, rest);
  }

  lemma ReadIntText(n: int, rest: string)
    requires Ends(rest)
    ensures ReadInt(IntText(n) + rest) == Some(Read(Int(n), rest))
  {
    IntTextParts(n);
    var t := IntText(n);
    var s := t + rest;
    var u := Unsigned(t);
    assert t[0] != '+' && (t[0] == '-' ==> s[1..] == u + rest);
    assert (u + rest)[..|u|] == u && (u + rest)[|u|..] == rest;
    DigitCountIs(u + rest, |u|);
  }

  lemma DumpStart(j: Json)
    ensures Dump(j)[0] != ']' && Dump(j)[0] != '}'
    ensures j.Int? ==> Dump(j)[0] == '-' || IsDigit(Dump(j)[0])
  {}

  lemma MembersStart(ms: seq<Member>)
    requires ms != []
    ensures DumpMembers(ms) != "" && DumpMembers(ms)[0] == '"'
  {
    var q := Quote(ms[0].key);
    assert q[0] == '"';
    assert DumpMember(ms[0])[0] == q[0];
  }

  lemma ReadArrayText(items: seq<Json>, rest: string)
    requires items != [] ==> ReadItems(DumpItems(items) + "]" + rest) == Some(Read(items, rest))
    ensures ReadArray(DumpItems(items) + "]" + rest) == Some(Read(Arr(items), rest))
  {
    var s := DumpItems(items) + "]" + rest;
    if items == [] {
      assert s[0] == ']' && s[1..] == rest;
    } else {
      DumpStart(items[0]);
      assert s[0] == DumpItems(items)[0] == Dump(items[0])[0];
    }
  }

  lemma ReadObjectText(ms: seq<Member>, rest: string)
    requires ms != [] ==> ReadMembers(DumpMembers(ms) + "}" + rest) == Some(Read(ms, rest))
    ensures ReadObject(DumpMembers(ms) + "}" + rest) == Some(Read(Obj(ms), rest))
  {
    var s := DumpMembers(ms) + "}" + rest;
    if ms == [] {
      assert s[0] == '}' && s[1..] == rest;
    } else {
      MembersStart(ms);
      assert s[0] == '"';
    }
  }

  lemma ReadWord(rest: string)
    ensures ReadValue("null" + rest) == Some(Read(Null, rest))
    ensures ReadValue("true" + rest) == Some(Read(Bool(true), rest))
    ensures ReadValue("false" + rest) == Some(Read(Bool(false), rest))
  {
    assert ("null" + rest)[4..] == rest && ("true" + rest)[4..] == rest && ("false" + rest)[5..] == rest;
    assert "null" <= "null" + rest && "true" <= "true" + rest && "false" <= "false" + rest;
  }

  lemma ReadNumber(n: int, rest: string)
    requires Ends(rest)
    ensures ReadValue(IntText(n) + rest) == Some(Read(Int(n), rest))
  {
    hide ReadArray, ReadObject, ReadString, ReadLiteral, ReadInt;
    ReadIntText(n, rest);
    assert (IntText(n) + rest)[0] == IntText(n)[0];
  }

  lemma ReadText(t: string, rest: string)
    ensures ReadValue(Quote(t) + rest) == Some(Read(Str(t), rest))
  {
    hide ReadArray, ReadObject, ReadString, ReadLiteral, ReadInt, Escaped;
    ReadQuoted(t, rest);
  }

  lemma ReadArrayDump(items: seq<Json>, rest: string)
    requires items != [] ==> ReadItems(DumpItems(items) + "]" + rest) == Some(Read(items, rest))
    ensures ReadValue(Dump(Arr(items)) + rest) == Some(Read(Arr(items), rest))
  {
    hide ReadArray, DumpItems, ReadLiteral, ReadInt;
    var s := Dump(Arr(items)) + rest;
    ReadArrayText(items, rest);
    assert s[0] == '[' && s[1..] == DumpItems(items) + "]" + rest;
  }

  lemma ReadObjectDump(ms: seq<Member>, rest: string)
    requires ms != [] ==> ReadMembers(DumpMembers(ms) + "}" + rest) == Some(Read(ms, rest))
    ensures ReadValue(Dump(Obj(ms)) + rest) == Some(Read(Obj(ms), rest))
  {
    hide ReadObject, DumpMembers, ReadLiteral, ReadInt;
    var s := Dump(Obj(ms)) + rest;
    ReadObjectText(ms, rest);
    assert s[0] == '{' && s[1..] == DumpMembers(ms) + "}" + rest;
  }

  lemma {:induction false} ReadDump(j: Json, rest: string)
    requires Ends(rest)
    ensures ReadValue(Dump(j) + rest) == Some(Read(j, rest))
    decreases j, 0
  {
    hide ReadValue, ReadItems, ReadMembers, DumpItems, DumpMembers, Quote, IntText;
    match j
    case Arr(items) =>
      if items != [] { ReadDumpItems(items, rest); }
      ReadArrayDump(items, rest);
    case Obj(ms) =>
      if ms != [] { ReadDumpMembers(ms, rest); }
      ReadObjectDump(ms, rest);
    case Int(n) => ReadNumber(n, rest);
    case Str(t) => ReadText(t, rest);
    case _ => ReadWord(rest);
  }

  lemma ItemsStep(s: string, j: Json, more: string, js: seq<Json>, rest: string)
    ensures ReadValue(s) == Some(Read(j, "]" + rest)) ==> ReadItems(s) == Some(Read([j], rest))
    ensures ReadValue(s) == Some(Read(j, "," + more)) && ReadItems(more) == Some(Read(js, rest))
      ==> ReadItems(s) == Some(Read([j] + js, rest))
  {
    hide ReadValue;
    assert ("]" + rest)[1..] == rest && ("," + more)[1..] == more;
  }

  lemma Regroup(a: string, b: string, c: string, d: string, e: string)
    ensures a + b + c + d + e == a + (b + (c + d + e))
  {}

  lemma ItemsText(items: seq<Json>, rest: string)
    requires items != []
    ensures DumpItems(items) + "]" + rest ==
      Dump(items[0]) + if |items| == 1 then "]" + rest else "," + (DumpItems(items[1..]) + "]" + rest)
  {
    hide Dump;
    if |items| > 1 { Regroup(Dump(items[0]), ",", DumpItems(items[1..]), "]", rest); }
  }

  lemma {:induction false} ReadDumpItems(items: seq<Json>, rest: string)
    requires items != []
    ensures ReadItems(DumpItems(items) + "]" + rest) == Some(Read(items, rest))
    decreases items, 1
  {
    hide Dump, DumpItems, ReadValue, ReadItems;
    var s := DumpItems(items) + "]" + rest;
    var tail := items[1..];
    assert items == [items[0]] + tail;
    ItemsText(items, rest);
    if |items| == 1 {
      ReadDump(items[0], "]" + rest);
      ItemsStep(s, items[0], "", [], rest);
      assert items == [items[0]];
    } else {
      var more := DumpItems(tail) + "]" + rest;
      ReadDump(items[0], "," + more);
      ReadDumpItems(tail, rest);
      ItemsStep(s, items[0], more, tail, rest);
    }
  }

  lemma {:induction false} ReadDumpMember(m: Member, rest: string)
    requires Ends(rest)
    ensures ReadMember(DumpMember(m) + rest) == Some(Read(m, rest))
    decreases m, 1
  {
    hide Dump, Quote, ReadString, ReadValue;
    var tail := ":" + (Dump(m.val) + rest);
    assert DumpMember(m) + rest == Quote(m.key) + tail;
    assert Ends(tail);
    ReadQuoted(m.key, tail);
    assert tail[1..] == Dump(m.val) + rest;
    ReadDump(m.val, rest);
  }

  lemma MembersStep(s: string, m: Member, more: string, ms: seq<Member>, rest: string)
    ensures ReadMember(s) == Some(Read(m, "}" + rest)) ==> ReadMembers(s) == Some(Read([m], rest))
    ensures ReadMember(s) == Some(Read(m, "," + more)) && ReadMembers(more) == Some(Read(ms, rest))
      ==> ReadMembers(s) == Some(Read([m] + ms, rest))
  {
    hide ReadMember;
    assert ("}" + rest)[1..] == rest && ("," + more)[1..] == more;
  }

  lemma MembersText(ms: seq<Member>, rest: string)
    requires ms != []
    ensures DumpMembers(ms) + "}" + rest ==
      DumpMember(ms[0]) + if |ms| == 1 then "}" + rest else "," + (DumpMembers(ms[1..]) + "}" + rest)
  {
    hide DumpMember;
    if |ms| > 1 { Regroup(DumpMember(ms[0]), ",", DumpMembers(ms[1..]), "}", rest); }
  }

  lemma {:induction false} ReadDumpMembers(ms: seq<Member>, rest: string)
    requires ms != []
    ensures ReadMembers(DumpMembers(ms) + "}" + rest) == Some(Read(ms, rest))
    decreases ms, 2
  {
    hide DumpMember, DumpMembers, ReadMember, ReadMembers;
    var s := DumpMembers(ms) + "}" + rest;
    var tail := ms[1..];
    assert ms == [ms[0]] + tail;
    MembersText(ms, rest);
    if |ms| == 1 {
      ReadDumpMember(ms[0], "}" + rest);
      MembersStep(s, ms[0], "", [], rest);
      assert ms == [ms[0]];
    } else {
      var more := DumpMembers(tail) + "}" + rest;
      ReadDumpMember(ms[0], "," + more);
      ReadDumpMembers(tail, rest);
      MembersStep(s, ms[0], more, tail, rest);
    }
  }

  /** Every value is recovered from its dump. */
  lemma ParseDump(j: Json)
    ensures Parse(Dump(j)) == Some(j)
  {
    ReadDump(j, "");
    assert Dump(j) + "" == Dump(j);
  }

  /** Dumps identify values. */
  lemma DumpInjective(a: Json, b: Json)
    ensures Dump(a) == Dump(b) <==> a == b
  {
    ParseDump(a);
    ParseDump(b);
  }
}
