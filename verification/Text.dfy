/** Text as the command language sees it: whitespace, `trim` (app/lib/Utils.h),
    the words `std::istringstream >> token` yields, and the prefix parsers
    `std::stoi` and `std::stod`.  Each `char` stands for one byte. */
module Text {
  import opened Options
  import opened Hex

  // ---------- whitespace and trim ----------

  /** `std::isspace` in the "C" locale: space, \t, \n, \v, \f, \r. */
  predicate IsSpace(c: char) {
    c == ' ' || '\t' <= c <= '\r'
  }

  function DropSpaces(s: string): string {
    if s != "" && IsSpace(s[0]) then DropSpaces(s[1..]) else s
  }

  function DropTrailingSpaces(s: string): string {
    if s != "" && IsSpace(s[|s| - 1]) then DropTrailingSpaces(s[..|s| - 1]) else s
  }

  function Trim(s: string): string {
    var t := DropTrailingSpaces(DropSpaces(s));
    if t != "" && t[|t| - 1] == ';' then t[..|t| - 1] else t
  }

  /** The two scans and the in-place `pop_back` of the program. */
  method TrimText(s: string) returns (result: string)
    ensures result == Trim(s)
  {
    hide DropSpaces, DropTrailingSpaces, IsSpace;
    var start := 0;
    assert s[0..] == s;
    while start < |s| && IsSpace(s[start])
      invariant start <= |s|
      invariant DropSpaces(s) == DropSpaces(s[start..])
    {
      DropFirst(s[start..]);
      start := start + 1;
    }
    DropFirst(s[start..]);
    var end := |s|;
    assert s[start..end] == s[start..];
    while start < end && IsSpace(s[end - 1])
      invariant start <= end <= |s|
      invariant DropTrailingSpaces(s[start..]) == DropTrailingSpaces(s[start..end])
    {
      DropLast(s[start..end]);
      assert s[start..end][..end - start - 1] == s[start..end - 1];
      end := end - 1;
    }
    DropLast(s[start..end]);
    result := s[start..end];
    if result != "" && result[|result| - 1] == ';' {
      result := result[..|result| - 1];
    }
  }

  lemma DropFirst(s: string)
    ensures DropSpaces(s) == if s != "" && IsSpace(s[0]) then DropSpaces(s[1..]) else s
  {}

  lemma DropLast(s: string)
    ensures DropTrailingSpaces(s) ==
      if s != "" && IsSpace(s[|s| - 1]) then DropTrailingSpaces(s[..|s| - 1]) else s
  {}

  /** A whitespace-free, non-empty chunk: what `>>` can yield. */
  predicate Word(w: string) {
    w != "" && forall i | 0 <= i < |w| :: !IsSpace(w[i])
  }

  /** A word `trim` leaves alone. */
  predicate Clean(w: string) {
    Word(w) && w[|w| - 1] != ';'
  }

  predicate AllSpaces(s: string) { forall i | 0 <= i < |s| :: IsSpace(s[i]) }

  /** `trim` removes exactly the outer white space and then at most one ';'. */
  lemma TrimMeaning(pre: string, core: string, post: string)
    requires AllSpaces(pre) && AllSpaces(post)
    requires core == "" || (!IsSpace(core[0]) && !IsSpace(core[|core| - 1]))
    ensures Trim(pre + core + post) ==
      if core != "" && core[|core| - 1] == ';' then core[..|core| - 1] else core
  {
    assert pre + core + post == pre + (core + post);
    if core == "" {
      SpacesDropped(pre + post, "");
      assert pre + core + post == pre + post + "";
    } else {
      SpacesDropped(pre, core + post);
      TrailingSpacesDropped(core, post);
    }
  }

  lemma {:induction false} SpacesDropped(pre: string, s: string)
    requires AllSpaces(pre) && (s == "" || !IsSpace(s[0]))
    ensures DropSpaces(pre + s) == s
  {
    if pre == "" {
      assert pre + s == s;
    } else {
      assert (pre + s)[1..] == pre[1..] + s;
      SpacesDropped(pre[1..], s);
    }
  }

  lemma {:induction false} TrailingSpacesDropped(s: string, post: string)
    requires AllSpaces(post) && s != "" && !IsSpace(s[|s| - 1])
    ensures DropTrailingSpaces(s + post) == s
    decreases |post|
  {
    if post == "" {
      assert s + post == s;
    } else {
      var n := |post| - 1;
      assert (s + post)[..|s + post| - 1] == s + post[..n];
      TrailingSpacesDropped(s, post[..n]);
    }
  }

  /** `trim` undoes the terminator the client appends, and nothing else. */
  lemma TrimClean(w: string)
    requires Clean(w)
    ensures Trim(w) == w
    ensures Trim(w + ";") == w
    ensures Word(w + ";")
  {
    assert (w + ";")[..|w|] == w;
  }

  /** `s.find(c)`, the length when absent. */
  function IndexOf(s: string, c: char): (i: nat)
    ensures i <= |s| && (i < |s| ==> s[i] == c)
    ensures forall k | 0 <= k < i :: s[k] != c
  {
    if s == "" || s[0] == c then 0 else 1 + IndexOf(s[1..], c)
  }

  lemma IndexOfIs(s: string, c: char, i: nat)
    requires i <= |s| && (i < |s| ==> s[i] == c)
    requires forall k | 0 <= k < i :: s[k] != c
    ensures IndexOf(s, c) == i
  {}

  // ---------- words of a command ----------

  function WordLength(s: string): (n: nat)
    ensures n <= |s|
    ensures forall i | 0 <= i < n :: !IsSpace(s[i])
    ensures n < |s| ==> IsSpace(s[n])
  {
    if s == "" || IsSpace(s[0]) then 0 else 1 + WordLength(s[1..])
  }

  function Tokens(s: string): (ts: seq<string>)
    ensures forall i | 0 <= i < |ts| :: Word(ts[i])
    decreases |s|
  {
    var t := DropSpaces(s);
    DropSpacesShrinks(s);
    if t == "" then []
    else
      var n := WordLength(t);
      [t[..n]] + Tokens(t[n..])
  }

  lemma DropSpacesShrinks(s: string)
    ensures |DropSpaces(s)| <= |s|
    ensures DropSpaces(s) != "" ==> !IsSpace(DropSpaces(s)[0])
  {}

  lemma TokensSkipSpace(s: string)
    requires s != "" && IsSpace(s[0])
    ensures Tokens(s) == Tokens(s[1..])
  {}

  lemma WordLengthIs(s: string, n: nat)
    requires n <= |s| && forall i | 0 <= i < n :: !IsSpace(s[i])
    requires n < |s| ==> IsSpace(s[n])
    ensures WordLength(s) == n
  {}

  lemma TokensOfWord(w: string)
    requires Word(w)
    ensures Tokens(w) == [w]
  {
    WordLengthIs(w, |w|);
    assert w[..|w|] == w && w[|w|..] == "";
    assert Tokens("") == [];
  }

  /** Any white space character separates words, and nothing else does. */
  lemma {:induction false} TokensSplit(a: string, c: char, b: string)
    requires IsSpace(c)
    ensures Tokens(a + [c] + b) == Tokens(a) + Tokens(b)
    decreases |a|
  {
    var ab := a + [c] + b;
    if a == "" {
      assert ab[1..] == b;
      TokensSkipSpace(ab);
      assert Tokens("") == [];
    } else if IsSpace(a[0]) {
      assert ab[1..] == a[1..] + [c] + b;
      TokensSkipSpace(ab);
      TokensSkipSpace(a);
      TokensSplit(a[1..], c, b);
    } else {
      var n := WordLength(a);
      assert n > 0;
      assert forall i | 0 <= i < n :: ab[i] == a[i];
      WordLengthIs(ab, n);
      assert ab[..n] == a[..n];
      assert ab[n..] == a[n..] + [c] + b;
      TokensSplit(a[n..], c, b);
    }
  }

  lemma TokensJoin(a: string, b: string)
    ensures Tokens(a + " " + b) == Tokens(a) + Tokens(b)
  {
    TokensSplit(a, ' ', b);
  }

  // ---------- numbers ----------

  predicate IsDigit(c: char) { '0' <= c <= '9' }

  predicate IsDigitIn(c: char, hex: bool) { if hex then HexValue(c).Some? else IsDigit(c) }

  predicate AllDigits(s: string, hex: bool := false) { forall i | 0 <= i < |s| :: IsDigitIn(s[i], hex) }

  function DigitChar(d: nat): (c: char)
    requires d < 10
    ensures IsDigit(c) && c as int == '0' as int + d
  {
    ('0' as int + d) as char
  }

  /** Decimal text of a natural number, no leading zeros. */
  function NatText(n: nat): (s: string)
    ensures s != "" && AllDigits(s)
  {
    if n < 10 then [DigitChar(n)] else NatText(n / 10) + [DigitChar(n % 10)]
  }

  function IntText(n: int): (s: string)
    ensures s != "" && (s[0] == '-' || IsDigit(s[0]))
    ensures Word(s) && s[|s| - 1] != ';'
  {
    if n < 0 then "-" + NatText(-n) else NatText(n)
  }

  function NatValue(s: string, hex: bool := false): nat
    requires AllDigits(s, hex)
  {
    if s == "" then 0
    else if hex then NatValue(s[..|s| - 1], hex) * 16 + HexValue(s[|s| - 1]).value
    else NatValue(s[..|s| - 1], hex) * 10 + (s[|s| - 1] as int - '0' as int)
  }

  lemma {:induction false} NatTextValue(n: nat)
    ensures NatValue(NatText(n)) == n
  {
    var s := NatText(n);
    if n < 10 {
      assert s[..0] == "";
    } else {
      assert s[..|s| - 1] == NatText(n / 10);
      NatTextValue(n / 10);
    }
  }

  function DigitCount(s: string, hex: bool := false): (n: nat)
    ensures n <= |s| && AllDigits(s[..n], hex)
    ensures n < |s| ==> !IsDigitIn(s[n], hex)
  {
    if s == "" || !IsDigitIn(s[0], hex) then 0 else 1 + DigitCount(s[1..], hex)
  }

  lemma {:induction false} DigitCountIs(s: string, n: nat, hex: bool := false)
    requires n <= |s| && AllDigits(s[..n], hex)
    requires n < |s| ==> !IsDigitIn(s[n], hex)
    ensures DigitCount(s, hex) == n
  {
    if n > 0 {
      assert s[..n][0] == s[0];
      assert s[1..][..n - 1] == s[..n][1..];
      DigitCountIs(s[1..], n - 1, hex);
    }
  }

  /** Sign handling shared by strtol and strtod. */
  function SignOf(s: string): int { if s != "" && s[0] == '-' then -1 else 1 }

  function Unsigned(s: string): string {
    if s != "" && (s[0] == '-' || s[0] == '+') then s[1..] else s
  }

  const INT_MIN := -0x8000_0000
  const INT_MAX := 0x7FFF_FFFF

  /** `std::stoi`: longest decimal prefix, None for its two exceptions. */
  function Stoi(s: string): Option<int> {
    var t := DropSpaces(s);
    var u := Unsigned(t);
    var n := DigitCount(u);
    if n == 0 then None
    else
      var v := SignOf(t) * NatValue(u[..n]);
      if INT_MIN <= v <= INT_MAX then Some(v) else None
  }

  lemma IntTextParts(n: int)
    ensures var s := IntText(n);
            && DropSpaces(s) == s
            && AllDigits(Unsigned(s)) && Unsigned(s) != ""
            && SignOf(s) * NatValue(Unsigned(s)) == n
            && DigitCount(Unsigned(s)) == |Unsigned(s)|
  {
    var s := IntText(n);
    if n < 0 {
      NatTextValue(-n);
      assert s[1..] == NatText(-n);
    } else {
      NatTextValue(n);
    }
    var u := Unsigned(s);
    assert u[..|u|] == u;
    DigitCountIs(u, |u|);
  }

  lemma IntTextInjective(m: int, n: int)
    ensures IntText(m) == IntText(n) <==> m == n
  {
    IntTextParts(m);
    IntTextParts(n);
  }

  /** Printing a 32-bit integer and reading it back with `std::stoi`. */
  lemma StoiOfIntText(n: int)
    ensures Stoi(IntText(n)) == if INT_MIN <= n <= INT_MAX then Some(n) else None
  {
    IntTextParts(n);
    var u := Unsigned(IntText(n));
    assert u[..|u|] == u;
  }

  /** `stoi` skips white space, takes a sign, and ignores what follows the digits. */
  lemma StoiReadsPrefix(pre: string, sign: string, n: nat, rest: string)
    requires AllSpaces(pre) && sign in {"", "+", "-"} && (rest == "" || !IsDigit(rest[0]))
    ensures var v: int := if sign == "-" then -(n as int) else n;
      Stoi(pre + (sign + (NatText(n) + rest))) == if INT_MIN <= v <= INT_MAX then Some(v) else None
  {
    hide NatText, DropSpaces;
    var whole, u := NatText(n), NatText(n) + rest;
    var s := sign + u;
    assert u[0] == whole[0] && u[..|whole|] == whole;
    SpacesDropped(pre, s);
    assert Unsigned(s) == u && SignOf(s) == if sign == "-" then -1 else 1;
    NatTextValue(n);
    DigitCountIs(u, |whole|);
  }

  // ---------- std::stod ----------

  /** A double before rounding. */
  datatype Number = Finite(value: real) | Infinite(negative: bool) | NotANumber

  function Pow(base: nat, n: nat): (p: nat)
    requires base > 0
    ensures p > 0
  {
    if n == 0 then 1 else base * Pow(base, n - 1)
  }

  /** A power with an exponent of either sign. */
  function Scale(base: nat, e: int): real
    requires base > 0
  {
    if e >= 0 then Pow(base, e) as real else 1.0 / Pow(base, -e) as real
  }

  datatype Scanned = Scanned(value: real, rest: string)

  /** The digits before and behind a point. */
  function Pointed(whole: string, frac: string, hex: bool): real
    requires AllDigits(whole, hex) && AllDigits(frac, hex)
  {
    NatValue(whole, hex) as real + NatValue(frac, hex) as real / Pow(if hex then 16 else 10, |frac|) as real
  }

  /** Digits with at most one point; None without any digit. */
  function Mantissa(u: string, hex: bool): Option<Scanned> {
    var n := DigitCount(u, hex);
    var point := n < |u| && u[n] == '.';
    var frac := if point then u[n + 1..] else "";
    var m := DigitCount(frac, hex);
    if n + m == 0 then None
    else Some(Scanned(Pointed(u[..n], frac[..m], hex), if point then frac[m..] else u[n..]))
  }

  /** The exponent a text starts with; 0 when the mark or its digits are missing. */
  function Exponent(s: string, mark: char): int {
    if s == "" || Lower(s[0]) != mark then 0
    else
      var u := Unsigned(s[1..]);
      SignOf(s[1..]) * NatValue(u[..DigitCount(u)])
  }

  function Lower(c: char): char { if 'A' <= c <= 'Z' then (c as int + 32) as char else c }

  /** `u` starts with the word, in any mixture of cases. */
  predicate Spelled(u: string, word: string) {
    |word| <= |u| && forall i | 0 <= i < |word| :: Lower(u[i]) == word[i]
  }

  /** A mantissa and the exponent behind it: of ten, or of two after 0x. */
  function Scaled(value: real, hex: bool, rest: string): real {
    value * if hex then Scale(2, Exponent(rest, 'p')) else Scale(10, Exponent(rest, 'e'))
  }

  /** An unsigned number in decimal or, after 0x, in hexadecimal. */
  function Magnitude(u: string): Option<real> {
    if Spelled(u, "0x") && Mantissa(u[2..], true).Some? then
      var m := Mantissa(u[2..], true).value;
      Some(Scaled(m.value, true, m.rest))
    else match Mantissa(u, false)
      case Some(m) => Some(Scaled(m.value, false, m.rest))
      case None => None
  }

  /** Zero and the magnitudes of normal doubles; the others make `stod` throw. */
  predicate InRange(m: real) {
    m == 0.0 || 1.0 / Pow(2, 1022) as real <= m < ((Pow(2, 54) - 1) * Pow(2, 970)) as real
  }

  function Ranged(sign: int, m: real): Option<Number> {
    if InRange(m) then Some(Finite(sign as real * m)) else None
  }

  /** `std::stod`: longest numeric prefix, None for its two exceptions. */
  function Stod(s: string): Option<Number> {
    var t := DropSpaces(s);
    var u := Unsigned(t);
    if Spelled(u, "inf") then Some(Infinite(SignOf(t) < 0))
    else if Spelled(u, "nan") then Some(NotANumber)
    else match Magnitude(u)
      case Some(m) => Ranged(SignOf(t), m)
      case None => None
  }

  /** `stod` skips white space, too. */
  lemma StodSkipsSpaces(pre: string, s: string)
    requires AllSpaces(pre) && s != "" && !IsSpace(s[0])
    ensures Stod(pre + s) == Stod(s)
  {
    hide Magnitude, Ranged, Spelled;
    SpacesDropped(pre, s);
    SpacesDropped("", s);
    assert "" + s == s;
    hide DropSpaces;
  }

  /** Numbers from 2^1024 on are out of range. */
  lemma HugeIsOutOfRange(n: nat)
    requires n >= Pow(2, 1024)
    ensures !InRange(n as real)
  {
    hide Pow;
    PowOfSum(2, 54, 970);
    Distributes(Pow(2, 54), Pow(2, 970));
  }

  lemma Distributes(a: nat, b: nat)
    requires a > 0
    ensures (a - 1) * b + b == a * b
  {}

  lemma {:induction false} PowOfSum(base: nat, m: nat, n: nat)
    requires base > 0
    ensures Pow(base, m + n) == Pow(base, m) * Pow(base, n)
  {
    if m > 0 {
      PowOfSum(base, m - 1, n);
      assert base * (Pow(base, m - 1) * Pow(base, n)) == (base * Pow(base, m - 1)) * Pow(base, n);
    }
  }

  lemma {:induction false} PowGrows(base: nat, m: nat, n: nat)
    requires base > 0 && m <= n
    ensures Pow(base, m) <= Pow(base, n)
  {
    if m < n { PowGrows(base, m, n - 1); }
  }

  /** Every 64-bit integer, signed or not, is in range. */
  lemma IntegersInRange(n: nat, bits: nat)
    requires bits <= 64 && n <= Pow(2, bits)
    ensures InRange(n as real)
  {
    hide Pow;
    PowGrows(2, bits, 64);
    SmallestIsSmall();
    LargestIsLarge();
  }

  lemma SmallestIsSmall()
    ensures 1.0 / Pow(2, 1022) as real <= 1.0
  {
    SmallPowers();
    hide Pow;
    PowGrows(2, 0, 1022);
    Reciprocal(Pow(2, 1022) as real);
  }

  lemma Reciprocal(p: real)
    requires p >= 1.0
    ensures 1.0 / p <= 1.0
  {}

  lemma LargestIsLarge()
    ensures (Pow(2, 54) - 1) * Pow(2, 970) > Pow(2, 64)
  {
    SmallPowers();
    hide Pow;
    PowGrows(2, 2, 54);
    PowGrows(2, 64, 970);
    AtLeast(Pow(2, 54) - 1, Pow(2, 970));
  }

  lemma SmallPowers()
    ensures Pow(2, 0) == 1 && Pow(2, 2) == 4
  {}

  lemma AtLeast(a: nat, b: nat)
    requires a > 0
    ensures a * b >= b && (a > 1 && b > 0 ==> a * b > b)
  {}

  function Abs(n: int): nat { if n < 0 then -n else n }

  /** A sign, and what `stod` makes of the text behind it. */
  lemma StodOfSigned(sign: string, u: string)
    requires sign in {"", "+", "-"} && u != "" && !IsSpace(u[0]) && u[0] != '+' && u[0] != '-'
    ensures !Spelled(u, "inf") && !Spelled(u, "nan") && Magnitude(u).Some? ==>
      Stod(sign + u) == Ranged(SignOf(sign), Magnitude(u).value)
    ensures Spelled(u, "inf") ==> Stod(sign + u) == Some(Infinite(sign == "-"))
    ensures Spelled(u, "nan") ==> Stod(sign + u) == Some(NotANumber)
  {
    hide InRange, Magnitude;
    var s := sign + u;
    DropFirst(s);
    assert Unsigned(s) == u;
    assert SignOf(s) == SignOf(sign);
  }

  lemma DigitsSpellNothing(u: string)
    requires u != "" && IsDigit(u[0])
    ensures !Spelled(u, "inf") && !Spelled(u, "nan")
    ensures |u| == 1 || Lower(u[1]) != 'x' ==> !Spelled(u, "0x")
  {
    assert Lower(u[0]) == u[0] && "inf"[0] == 'i' && "nan"[0] == 'n' && "0x"[1] == 'x';
  }

  lemma DecimalMagnitude(u: string, m: Scanned)
    requires !Spelled(u, "0x") && Mantissa(u, false) == Some(m)
    ensures Magnitude(u) == Some(Scaled(m.value, false, m.rest))
  {
    hide Mantissa, Scaled;
  }

  lemma MantissaIs(u: string, n: nat, hex: bool)
    requires 0 < n <= |u| && AllDigits(u[..n], hex)
    requires n < |u| ==> !IsDigitIn(u[n], hex) && u[n] != '.'
    ensures Mantissa(u, hex) == Some(Scanned(NatValue(u[..n], hex) as real, u[n..]))
  {
    hide DigitCount, NatValue;
    DigitCountIs(u, n, hex);
    DigitCountIs("", 0, hex);
    PointedWhole(u[..n], hex);
  }

  lemma PointedWhole(whole: string, hex: bool)
    requires AllDigits(whole, hex)
    ensures Pointed(whole, "", hex) == NatValue(whole, hex) as real
  {
    assert NatValue("", hex) == 0;
  }

  lemma PointedMantissaIs(u: string, n: nat, m: nat, hex: bool)
    requires 0 < n < |u| && AllDigits(u[..n], hex) && u[n] == '.'
    requires n + 1 + m <= |u| && AllDigits(u[n + 1..][..m], hex)
    requires n + 1 + m < |u| ==> !IsDigitIn(u[n + 1 + m], hex)
    ensures Mantissa(u, hex) == Some(Scanned(Pointed(u[..n], u[n + 1..][..m], hex), u[n + 1 + m..]))
  {
    hide DigitCount, Pointed;
    DigitCountIs(u, n, hex);
    DigitCountIs(u[n + 1..], m, hex);
    assert u[n + 1..][m..] == u[n + 1 + m..];
  }

  /** `stod` reads the number a text begins with, exponent included: "30 years" is
      30 and "3e2x" is 300. */
  lemma StodReadsPrefix(sign: string, n: nat, rest: string, m: real)
    requires m == n as real * Scale(10, Exponent(rest, 'e'))
    requires sign in {"", "+", "-"}
    requires rest == "" || (!IsDigit(rest[0]) && rest[0] != '.')
    requires n == 0 && rest != "" ==> Lower(rest[0]) != 'x'
    ensures Stod(sign + (NatText(n) + rest)) == Ranged(SignOf(sign), m)
  {
    ScaledIs(n as real, rest);
    hide Stod, Mantissa, Scaled, NatValue, Ranged, Magnitude, Scale, Exponent;
    var whole, u := NatText(n), NatText(n) + rest;
    NatTextValue(n);
    assert u[0] == whole[0] && u[..|whole|] == whole && u[|whole|..] == rest;
    MantissaIs(u, |whole|, false);
    DigitsSpellNothing(u);
    if n != 0 { NoLeadingZero(n); }
    assert |u| > 1 ==> u[1] == if |whole| > 1 then whole[1] else rest[0];
    assert !Spelled(u, "0x") by {
      if n != 0 { assert Lower(u[0]) == u[0] != '0'; }
    }
    hide Spelled;
    DecimalMagnitude(u, Scanned(n as real, rest));
    StodOfSigned(sign, u);
  }

  lemma {:induction false} NoLeadingZero(n: nat)
    requires n > 0
    ensures NatText(n)[0] != '0'
  {
    if n >= 10 { NoLeadingZero(n / 10); }
  }

  /** A decimal fraction, with the exponent that may follow it. */
  lemma StodOfDecimal(sign: string, n: nat, digits: string, rest: string, m: real)
    requires sign in {"", "+", "-"} && AllDigits(digits) && (rest == "" || !IsDigit(rest[0]))
    requires m == Pointed(NatText(n), digits, false) * Scale(10, Exponent(rest, 'e'))
    ensures Stod(sign + (NatText(n) + "." + digits + rest)) == Ranged(SignOf(sign), m)
  {
    hide Stod, Exponent, Ranged, Pointed, Scaled, Scale;
    StodOfPointed(sign, NatText(n), digits, rest);
    ScaledIs(Pointed(NatText(n), digits, false), rest);
    assert m == Scaled(Pointed(NatText(n), digits, false), false, rest);
  }

  lemma StodOfPointed(sign: string, whole: string, digits: string, rest: string)
    requires sign in {"", "+", "-"} && whole != "" && AllDigits(whole) && AllDigits(digits)
    requires rest == "" || !IsDigit(rest[0])
    ensures Stod(sign + (whole + "." + digits + rest)) ==
      Ranged(SignOf(sign), Scaled(Pointed(whole, digits, false), false, rest))
  {
    hide Stod, Mantissa, Scaled, NatValue, Ranged, Magnitude, Pointed, Spelled;
    var u := whole + "." + digits + rest;
    DecimalMantissa(whole, digits, rest);
    DigitsSpellNothing(u);
    DecimalMagnitude(u, Scanned(Pointed(whole, digits, false), rest));
    StodOfSigned(sign, u);
  }

  lemma AroundPoint(a: string, b: string, c: string)
    requires a != ""
    ensures var u, n := a + "." + b + c, |a|;
            && u[0] == a[0] && u[1] == (if n > 1 then a[1] else '.') && u[n] == '.'
            && u[..n] == a && u[n + 1..][..|b|] == b && u[n + 1 + |b|..] == c
  {}

  lemma DecimalMantissa(whole: string, digits: string, rest: string)
    requires whole != "" && AllDigits(whole) && AllDigits(digits) && (rest == "" || !IsDigit(rest[0]))
    ensures var u := whole + "." + digits + rest;
      && Mantissa(u, false) == Some(Scanned(Pointed(whole, digits, false), rest))
      && IsDigit(u[0]) && Lower(u[1]) != 'x'
  {
    hide Mantissa, Pointed;
    AroundPoint(whole, digits, rest);
    PointedMantissaIs(whole + "." + digits + rest, |whole|, |digits|, false);
  }

  /** The value of a decimal fraction. */
  lemma PointedText(n: nat, digits: string)
    requires AllDigits(digits)
    ensures Pointed(NatText(n), digits, false) == n as real + NatValue(digits) as real / Pow(10, |digits|) as real
  {
    NatTextValue(n);
  }

  lemma ScaledIs(value: real, rest: string)
    ensures Scaled(value, false, rest) == value * Scale(10, Exponent(rest, 'e'))
    ensures Scaled(value, true, rest) == value * Scale(2, Exponent(rest, 'p'))
  {
    hide Scale, Exponent;
  }

  /** Hexadecimal text of a natural number, no leading zeros. */
  function HexText(n: nat): (s: string)
    ensures s != "" && AllDigits(s, true)
  {
    HexValueOfDigit(n % 16);
    if n < 16 then [HexDigit(n)] else HexText(n / 16) + [HexDigit(n % 16)]
  }

  lemma {:induction false} HexTextValue(n: nat)
    ensures NatValue(HexText(n), true) == n
  {
    var s := HexText(n);
    HexValueOfDigit(n % 16);
    if n < 16 {
      assert s[..0] == "";
    } else {
      assert s[..|s| - 1] == HexText(n / 16);
      HexTextValue(n / 16);
    }
  }

  /** Counting the exponent up multiplies by the base, from 1 on and below. */
  lemma ScaleSteps(base: nat, e: int)
    requires base > 0
    ensures Scale(base, e + 1) == base as real * Scale(base, e) && Scale(base, 0) == 1.0
  {
    if e < 0 {
      var p := Pow(base, -e - 1);
      assert Pow(base, -e) == base * p;
      CancelFactor(base as real, p as real);
    }
  }

  lemma CancelFactor(a: real, b: real)
    requires a > 0.0 && b > 0.0
    ensures a * b > 0.0 && 1.0 / b == a * (1.0 / (a * b))
  {
    assert a * b > 0.0;
    assert (1.0 / b - a * (1.0 / (a * b))) * (a * b) == 0.0;
  }

  /** A hexadecimal integer, with the binary exponent that may follow it. */
  lemma StodOfHexadecimal(sign: string, n: nat, rest: string, m: real)
    requires m == n as real * Scale(2, Exponent(rest, 'p'))
    requires sign in {"", "+", "-"}
    requires rest == "" || (!IsDigitIn(rest[0], true) && rest[0] != '.')
    ensures Stod(sign + ("0x" + HexText(n) + rest)) == Ranged(SignOf(sign), m)
  {
    ScaledIs(n as real, rest);
    HexTextValue(n);
    hide Stod, Mantissa, Scaled, NatValue, Ranged, Pointed, Scale, Exponent, HexText;
    var digits := HexText(n);
    var u := "0x" + digits + rest;
    var v := digits + rest;
    assert u[2..] == v && v[..|digits|] == digits && v[|digits|..] == rest;
    MantissaIs(v, |digits|, true);
    assert u[0] == '0' && u[1] == 'x' && Spelled(u, "0x");
    DigitsSpellNothing(u);
    hide Spelled;
    StodOfSigned(sign, u);
  }

  /** And a hexadecimal fraction. */
  lemma StodOfHexFraction(sign: string, n: nat, digits: string, rest: string, m: real)
    requires sign in {"", "+", "-"} && AllDigits(digits, true)
    requires rest == "" || !IsDigitIn(rest[0], true)
    requires m == Pointed(HexText(n), digits, true) * Scale(2, Exponent(rest, 'p'))
    ensures Stod(sign + ("0x" + (HexText(n) + "." + digits + rest))) == Ranged(SignOf(sign), m)
  {
    hide Stod, Exponent, Ranged, Pointed, Scaled, Scale, Mantissa, HexText, Magnitude;
    var whole := HexText(n);
    HexFractionMagnitude(whole, digits, rest);
    ScaledIs(Pointed(whole, digits, true), rest);
    var u := "0x" + (whole + "." + digits + rest);
    assert u[0] == '0';
    DigitsSpellNothing(u);
    hide Spelled;
    assert m == Scaled(Pointed(whole, digits, true), true, rest);
    StodOfSigned(sign, u);
  }

  lemma HexFractionMagnitude(whole: string, digits: string, rest: string)
    requires whole != "" && AllDigits(whole, true) && AllDigits(digits, true)
    requires rest == "" || !IsDigitIn(rest[0], true)
    ensures Magnitude("0x" + (whole + "." + digits + rest)) == Some(Scaled(Pointed(whole, digits, true), true, rest))
  {
    hide Pointed, Scaled, Mantissa;
    var v := whole + "." + digits + rest;
    var u := "0x" + v;
    AroundPoint(whole, digits, rest);
    PointedMantissaIs(v, |whole|, |digits|, true);
    assert u[2..] == v && u[0] == '0' && u[1] == 'x' && Spelled(u, "0x");
  }

  lemma PointedHexText(n: nat, digits: string)
    requires AllDigits(digits, true)
    ensures Pointed(HexText(n), digits, true) ==
      n as real + NatValue(digits, true) as real / Pow(16, |digits|) as real
  {
    HexTextValue(n);
  }

  /** An exponent counts when its mark, in either case, is followed by a number, and only then. */
  lemma ExponentReads(c: char, mark: char, e: int, rest: string)
    requires Lower(c) == mark && (rest == "" || !IsDigit(rest[0]))
    ensures Exponent([c] + (IntText(e) + rest), mark) == e
    ensures rest == "" || Lower(rest[0]) != mark ==> Exponent(rest, mark) == 0
  {
    hide DigitCount, NatValue, IntText;
    var s, v := IntText(e), IntText(e) + rest;
    IntTextParts(e);
    var u := Unsigned(s);
    assert ([c] + v)[1..] == v && v[0] == s[0];
    assert Unsigned(v) == u + rest && (u + rest)[..|u|] == u;
    DigitCountIs(u + rest, |u|);
  }

  /** `stod` undoes the decimal printer, up to the range of doubles. */
  lemma StodOfIntText(n: int)
    ensures Stod(IntText(n)) == if InRange(Abs(n) as real) then Some(Finite(n as real)) else None
  {
    hide Stod, Scaled, InRange;
    var sign := if n < 0 then "-" else "";
    assert Exponent("", 'e') == 0 && Scale(10, 0) == 1.0;
    StodReadsPrefix(sign, Abs(n), "", Abs(n) as real);
    assert NatText(Abs(n)) + "" == NatText(Abs(n));
    assert sign + NatText(Abs(n)) == IntText(n);
  }

  // ---------- lexicographic order of std::string ----------

  predicate Before(a: string, b: string) {
    b != "" && (a == "" || a[0] < b[0] || (a[0] == b[0] && Before(a[1..], b[1..])))
  }

  /** Lexicographic: at the first difference the smaller character, or the end of the
      shorter text, comes first. */
  lemma {:induction false} BeforeIsLexicographic(a: string, b: string)
    ensures Before(a, b) <==>
      exists k | 0 <= k <= |a| && k < |b| :: a[..k] == b[..k] && (k == |a| || a[k] < b[k])
  {
    if a == "" || b == "" || a[0] != b[0] {
      if Before(a, b) { assert a[..0] == b[..0]; }
      forall k | 0 < k <= |a| && k < |b| && a[..k] == b[..k] ensures a[0] == b[0] {
        assert a[..k][0] == b[..k][0];
      }
    } else {
      var x, y := a[1..], b[1..];
      BeforeIsLexicographic(x, y);
      if Before(x, y) {
        var k :| 0 <= k <= |x| && k < |y| && x[..k] == y[..k] && (k == |x| || x[k] < y[k]);
        assert a[..k + 1] == [a[0]] + x[..k] && b[..k + 1] == [b[0]] + y[..k];
      }
      forall k | 0 <= k <= |a| && k < |b| && a[..k] == b[..k] && (k == |a| || a[k] < b[k]) ensures Before(x, y) {
        assert k > 0 && x[..k - 1] == a[..k][1..] && y[..k - 1] == b[..k][1..];
      }
    }
  }

  lemma {:induction false} BeforeIsStrict(a: string, b: string)
    ensures Before(a, b) ==> !Before(b, a)
    ensures !Before(a, a)
  {
    if a != "" { BeforeIsStrict(a[1..], if b == "" then b else b[1..]); }
  }

  lemma {:induction false} BeforeIsTotal(a: string, b: string)
    ensures Before(a, b) || a == b || Before(b, a)
  {
    if a != "" && b != "" && a[0] == b[0] {
      BeforeIsTotal(a[1..], b[1..]);
      assert a == [a[0]] + a[1..] && b == [b[0]] + b[1..];
    }
  }

  lemma {:induction false} BeforeIsTransitive(a: string, b: string, c: string)
    requires Before(a, b) && Before(b, c)
    ensures Before(a, c)
  {
    if a != "" && a[0] == b[0] == c[0] {
      BeforeIsTransitive(a[1..], b[1..], c[1..]);
    }
  }
}
