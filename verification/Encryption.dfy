/** AES-CTR used as a stream cipher, and encrypted file names
    (app/lib/EncryptService.cpp).  The cipher itself is an abstract keystream: the
    service always starts from the same key and initial counter. */
module Encryption {
  import opened Options
  import opened Hex
  import opened Text

  type Byte = n: nat | n < 256

  /** Byte i of the stream every message is combined with. */
  type Keystream = nat -> Byte

  /** Exclusive or of the lowest n bits. */
  function Xor(a: nat, b: nat, n: nat): nat {
    if n == 0 then 0 else (a + b) % 2 + 2 * Xor(a / 2, b / 2, n - 1)
  }

  function TwoTo(n: nat): nat { if n == 0 then 1 else 2 * TwoTo(n - 1) }

  lemma {:induction false} XorBounded(a: nat, b: nat, n: nat)
    ensures Xor(a, b, n) < TwoTo(n)
  {
    if n > 0 { XorBounded(a / 2, b / 2, n - 1); }
  }

  function Bit(a: nat, k: nat): nat { if k == 0 then a % 2 else Bit(a / 2, k - 1) }

  /** Bit by bit: set exactly where the operands differ. */
  lemma {:induction false} XorBit(a: nat, b: nat, n: nat, k: nat)
    requires k < n
    ensures Bit(Xor(a, b, n), k) == if Bit(a, k) == Bit(b, k) then 0 else 1
  {
    XorUnfolds(a, b, n);
    hide Xor;
    LowBit(a, b, Xor(a / 2, b / 2, n - 1));
    if k > 0 { XorBit(a / 2, b / 2, n - 1, k - 1); }
  }

  lemma {:induction false} XorTwice(a: nat, b: nat, n: nat)
    requires a < TwoTo(n)
    ensures Xor(Xor(a, b, n), b, n) == a
  {
    if n > 0 {
      XorUnfolds(a, b, n);
      XorUnfolds(Xor(a, b, n), b, n);
      hide Xor;
      XorTwice(a / 2, b / 2, n - 1);
      LowBit(a, b, Xor(a / 2, b / 2, n - 1));
    }
  }

  lemma XorUnfolds(a: nat, b: nat, n: nat)
    requires n > 0
    ensures Xor(a, b, n) == (a + b) % 2 + 2 * Xor(a / 2, b / 2, n - 1)
  {}

  lemma LowBit(a: nat, b: nat, h: nat)
    ensures var r := (a + b) % 2 + 2 * h;
            r / 2 == h && (r + b) % 2 == a % 2 && a == a % 2 + 2 * (a / 2)
  {}

  /** Bytewise exclusive or; text that is not bytes does not occur. */
  function XorByte(c: char, k: Byte): (r: char)
    ensures IsByte(c) <==> IsByte(r)
  {
    XorBounded(c as int, k, 8);
    assert TwoTo(8) == 256;
    if IsByte(c) then Xor(c as int, k, 8) as char else c
  }

  lemma XorByteTwice(c: char, k: Byte)
    ensures XorByte(XorByte(c, k), k) == c
    ensures IsByte(c) <==> IsByte(XorByte(c, k))
  {
    assert TwoTo(8) == 256;
    if IsByte(c) {
      XorBounded(c as int, k, 8);
      XorTwice(c as int, k, 8);
    }
  }

  function Encrypt(ks: Keystream, plaintext: string): (c: string)
    ensures |c| == |plaintext|
  {
    seq(|plaintext|, i requires 0 <= i < |plaintext| => XorByte(plaintext[i], ks(i)))
  }

  /** Counter mode decrypts by the same operation. */
  function Decrypt(ks: Keystream, ciphertext: string): string { Encrypt(ks, ciphertext) }

  lemma DecryptEncrypt(ks: Keystream, s: string)
    ensures Decrypt(ks, Encrypt(ks, s)) == s
    ensures IsByteText(s) ==> IsByteText(Encrypt(ks, s))
  {
    hide XorByte;
    forall i | 0 <= i < |s|
      ensures Decrypt(ks, Encrypt(ks, s))[i] == s[i]
      ensures IsByte(s[i]) <==> IsByte(Encrypt(ks, s)[i])
    {
      XorByteTwice(s[i], ks(i));
    }
  }

  /** Each ciphertext bit is the plaintext bit, flipped where the keystream has a 1. */
  lemma EncryptFlipsBits(ks: Keystream, s: string, i: nat, k: nat)
    requires i < |s| && IsByte(s[i]) && k < 8
    ensures IsByte(Encrypt(ks, s)[i])
    ensures Bit(Encrypt(ks, s)[i] as int, k) ==
      if Bit(ks(i), k) == 0 then Bit(s[i] as int, k) else 1 - Bit(s[i] as int, k)
  {
    hide Xor, Bit;
    XorBounded(s[i] as int, ks(i), 8);
    assert TwoTo(8) == 256;
    XorBit(s[i] as int, ks(i), 8, k);
    BitIsBit(s[i] as int, k);
    BitIsBit(ks(i), k);
  }

  lemma BitIsBit(a: nat, k: nat)
    ensures Bit(a, k) < 2
  {}

  function ToHex(s: string): (h: string)
    requires IsByteText(s)
    ensures |h| == 2 * |s|
    ensures forall i | 0 <= i < |h| :: '0' <= h[i] <= '9' || 'a' <= h[i] <= 'f'
  {
    if s == "" then "" else HexByte(s[0]) + ToHex(s[1..])
  }

  /** `std::stoi` in base 16 on two characters, cast to a byte: white space, a sign and
      then as many digits as there are; None for its exception. */
  function PairByte(hi: char, lo: char): (r: Option<char>)
    ensures r.Some? ==> IsByte(r.value)
  {
    var t := DropSpaces([hi, lo]);
    var u := Unsigned(t);
    var n := DigitCount(u, true);
    if n == 0 then None else Some(((SignOf(t) * NatValue(u[..n], true)) % 256) as char)
  }

  /** Which pairs are read, and as what. */
  lemma PairCases(hi: char, lo: char)
    ensures PairByte(hi, lo) ==
      match (HexValue(hi), HexValue(lo))
      case (Some(h), Some(l)) => ByteOfHex(hi, lo)
      case (Some(h), None) => Some(h as char)
      case (None, Some(l)) =>
        if IsSpace(hi) || hi == '+' then Some(l as char)
        else if hi == '-' then Some(((256 - l) % 256) as char)
        else None
      case _ => None
  {
    hide PairByte;
    if HexValue(hi).Some? {
      DigitFirst(hi, lo);
    } else if IsSpace(hi) || hi == '+' || hi == '-' {
      DigitSecond(hi, lo);
    } else {
      NoDigitFirst(hi, lo);
    }
  }

  lemma DigitFirst(hi: char, lo: char)
    requires HexValue(hi).Some?
    ensures PairByte(hi, lo) == if HexValue(lo).Some? then ByteOfHex(hi, lo) else Some(HexValue(hi).value as char)
  {
    var s := [hi, lo];
    assert DropSpaces(s) == s && Unsigned(s) == s && SignOf(s) == 1;
    hide DropSpaces, DigitCount, NatValue, SignOf, Unsigned;
    DigitsOfPair(hi, lo);
    SingleValue(hi);
  }

  lemma DigitsOfPair(hi: char, lo: char)
    requires HexValue(hi).Some?
    ensures var s := [hi, lo];
      && s[..1] == [hi] && s[..2] == s
      && DigitCount(s, true) == (if HexValue(lo).Some? then 2 else 1)
      && (HexValue(lo).Some? ==>
            AllDigits(s, true) && NatValue(s, true) == 16 * HexValue(hi).value + HexValue(lo).value)
  {
    var s := [hi, lo];
    assert s[..1] == [hi] && s[..2] == s;
    hide HexValue, DigitCount;
    DigitCountIs(s, if HexValue(lo).Some? then 2 else 1, true);
    SingleValue(hi);
  }

  lemma DigitSecond(hi: char, lo: char)
    requires IsSpace(hi) || hi == '+' || hi == '-'
    ensures PairByte(hi, lo) ==
      match HexValue(lo)
      case Some(l) => Some(if hi == '-' then ((256 - l) % 256) as char else l as char)
      case None => None
  {
    var s := [hi, lo];
    assert s[1..] == [lo] && [lo][1..] == "";
    if IsSpace(hi) {
      assert DropSpaces(s) == DropSpaces([lo]) == if IsSpace(lo) then "" else [lo];
    } else {
      assert DropSpaces(s) == s && Unsigned(s) == [lo];
    }
    SingleValue(lo);
    assert [lo][..1] == [lo];
  }

  lemma NoDigitFirst(hi: char, lo: char)
    requires HexValue(hi).None? && !IsSpace(hi) && hi != '+' && hi != '-'
    ensures PairByte(hi, lo) == None
  {
    var s := [hi, lo];
    assert DropSpaces(s) == s && Unsigned(s) == s;
  }

  lemma SingleValue(c: char)
    ensures HexValue(c).Some? ==> AllDigits([c], true) && NatValue([c], true) == HexValue(c).value
    ensures DigitCount([c], true) == if HexValue(c).Some? then 1 else 0
  {
    assert [c][..0] == "" && [c][1..] == "";
  }

  /** None stands for the exception on text that is not hexadecimal. */
  function FromHex(h: string): Option<string> {
    if |h| % 2 != 0 then Some("")
    else if h == "" then Some("")
    else match (PairByte(h[0], h[1]), FromHex(h[2..]))
      case (Some(c), Some(rest)) => Some([c] + rest)
      case _ => None
  }

  method ToHexText(input: string) returns (h: string)
    requires IsByteText(input)
    ensures h == ToHex(input)
  {
    h := "";
    for i := 0 to |input|
      invariant h + ToHex(input[i..]) == ToHex(input)
    {
      assert input[i..][1..] == input[i + 1..];
      h := h + HexByte(input[i]);
    }
    assert input[|input|..] == "";
  }

  method FromHexText(hexStr: string) returns (output: Option<string>)
    ensures output == FromHex(hexStr)
  {
    hide PairByte;
    if |hexStr| % 2 != 0 { return Some(""); }
    var bytes := "";
    var i := 0;
    AfterByte("", 'a', FromHex(hexStr));
    assert hexStr[0..] == hexStr;
    while i < |hexStr|
      invariant 0 <= i <= |hexStr| && i % 2 == 0
      invariant FromHex(hexStr) == After(bytes, FromHex(hexStr[i..]))
    {
      assert hexStr[i..][2..] == hexStr[i + 2..];
      match PairByte(hexStr[i], hexStr[i + 1]) {
        case Some(b) =>
          AfterByte(bytes, b, FromHex(hexStr[i + 2..]));
          bytes := bytes + [b];
        case None => return None;
      }
      i := i + 2;
    }
    assert bytes + "" == bytes;
    return Some(bytes);
  }

  function After(bytes: string, rest: Option<string>): Option<string> {
    match rest case Some(s) => Some(bytes + s) case None => None
  }

  lemma AfterByte(bytes: string, b: char, rest: Option<string>)
    ensures After(bytes, After([b], rest)) == After(bytes + [b], rest)
    ensures After("", rest) == rest
  {
    if rest.Some? {
      assert bytes + ([b] + rest.value) == bytes + [b] + rest.value;
      assert "" + rest.value == rest.value;
    }
  }

  lemma {:induction false} FromToHex(s: string)
    requires IsByteText(s)
    ensures FromHex(ToHex(s)) == Some(s)
  {
    if s != "" {
      PairOfByte(s[0]);
      FromToHex(s[1..]);
      var pair, h := HexByte(s[0]), ToHex(s[1..]);
      assert ToHex(s) == pair + h;
      hide PairByte, HexByte, ToHex;
      FromPair(pair, h);
      assert [s[0]] + s[1..] == s;
    }
  }

  lemma FromPair(pair: string, h: string)
    requires |pair| == 2 && |h| % 2 == 0
    ensures FromHex(pair + h) ==
      match (PairByte(pair[0], pair[1]), FromHex(h))
      case (Some(c), Some(rest)) => Some([c] + rest)
      case _ => None
  {
    hide PairByte;
    assert (pair + h)[2..] == h;
  }

  lemma PairOfByte(c: char)
    requires IsByte(c)
    ensures PairByte(HexByte(c)[0], HexByte(c)[1]) == Some(c)
  {
    ByteOfHexByte(c);
    PairCases(HexByte(c)[0], HexByte(c)[1]);
    hide PairByte, HexByte;
  }

  function EncryptFilename(ks: Keystream, name: string): (h: string)
    requires IsByteText(name)
    ensures |h| == 2 * |name|
    ensures forall i | 0 <= i < |h| :: h[i] != '/'
  {
    DecryptEncrypt(ks, name);
    ToHex(Encrypt(ks, name))
  }

  function DecryptFilename(ks: Keystream, h: string): Option<string> {
    match FromHex(h) case Some(b) => Some(Decrypt(ks, b)) case None => None
  }

  /** Encrypted names decrypt to the name. */
  lemma FilenameRoundTrip(ks: Keystream, name: string)
    requires IsByteText(name)
    ensures DecryptFilename(ks, EncryptFilename(ks, name)) == Some(name)
  {
    DecryptEncrypt(ks, name);
    FromToHex(Encrypt(ks, name));
  }

  /** Different names never share a file. */
  lemma FilenamesDiffer(ks: Keystream, a: string, b: string)
    requires IsByteText(a) && IsByteText(b)
    ensures EncryptFilename(ks, a) == EncryptFilename(ks, b) <==> a == b
  {
    FilenameRoundTrip(ks, a);
    FilenameRoundTrip(ks, b);
  }
}
