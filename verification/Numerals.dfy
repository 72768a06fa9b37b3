/** The decimal and hexadecimal numerals of the text stores: what the source
    prints, and the wider set that Rust's integer parsers accept. */
module Numerals {
  import opened Common
  import opened Text

  // -------------------------------------------------------------- hexadecimal

  /** A value below 16 as a lower-case digit (section 8 of RFC 4648). */
  function HexDigit(v: nat): char
    requires v < 16
  {
    if v < 10 then ('0' as int + v) as char else ('a' as int + v - 10) as char
  }

  function HexValue(c: char): Option<nat> {
    if '0' <= c <= '9' then Some(c as int - '0' as int)
    else if 'a' <= c <= 'f' then Some(c as int - 'a' as int + 10)
    else if 'A' <= c <= 'F' then Some(c as int - 'A' as int + 10)
    else None
  }

  predicate IsHexDigit(c: char) {
    HexValue(c).Some?
  }

  /** `hex::encode`. */
  function HexEncode(bs: seq<byte>): (s: string)
    ensures |s| == 2 * |bs|
  {
    if bs == [] then "" else [HexDigit(bs[0] / 16), HexDigit(bs[0] % 16)] + HexEncode(bs[1..])
  }

  /** `u8::from_str_radix(pair, 16)` on two characters: a sign may take the place
      of the first digit. */
  function ParseHexPair(a: char, b: char): Option<byte> {
    match (HexValue(a), HexValue(b))
    case (Some(x), Some(y)) => HexPairInRange(a, b); Some(16 * x + y)
    case (None, Some(y)) => if a == '+' then HexPairInRange(b, b); Some(y) else None
    case _ => None
  }

  lemma HexPairInRange(a: char, b: char)
    requires HexValue(a).Some? && HexValue(b).Some?
    ensures HexValue(a).value < 16 && HexValue(b).value < 16
  {
  }

  function ParseHexPairs(s: string): Option<seq<byte>>
    requires |s| % 2 == 0
  {
    if s == "" then Some([])
    else
      match (ParseHexPair(s[0], s[1]), ParseHexPairs(s[2..]))
      case (Some(b), Some(rest)) => Some([b] + rest)
      case _ => None
  }

  /** `parse_hex32`, as a function of its argument. */
  function ParseHex32(text: string): Option<seq<byte>> {
    var s := Lower(Trim(text));
    if |s| != 64 then None else ParseHexPairs(s)
  }

  lemma {:induction false} ParseHexPairsLength(s: string)
    requires |s| % 2 == 0 && ParseHexPairs(s).Some?
    ensures 2 * |ParseHexPairs(s).value| == |s|
  {
    if s != "" {
      ParseHexPairsLength(s[2..]);
    }
  }

  /** The i-th pair of characters, as a byte. */
  function PairAt(s: string, i: nat): Option<byte>
    requires 2 * i + 1 < |s|
  {
    ParseHexPair(s[2 * i], s[2 * i + 1])
  }

  /** The pairs parse exactly when each one does, to those bytes in order. */
  lemma {:induction false} ParseHexPairsIff(s: string)
    requires |s| % 2 == 0
    ensures ParseHexPairs(s).Some? <==> forall i :: 0 <= i < |s| / 2 ==> PairAt(s, i).Some?
    ensures ParseHexPairs(s).Some? ==>
      && |ParseHexPairs(s).value| == |s| / 2
      && forall i :: 0 <= i < |s| / 2 ==> PairAt(s, i) == Some(ParseHexPairs(s).value[i])
  {
    if s != "" {
      var t := s[2..];
      ParseHexPairsIff(t);
      assert PairAt(s, 0) == ParseHexPair(s[0], s[1]);
      forall i | 0 <= i < |t| / 2 ensures PairAt(t, i) == PairAt(s, i + 1) {
      }
      forall i | 0 <= i < |s| / 2 ensures i > 0 ==> PairAt(s, i) == PairAt(t, i - 1) {
      }
    }
  }

  lemma PairsAre(s: string, bs: seq<byte>)
    requires |s| == 2 * |bs| && forall k :: 0 <= k < |bs| ==> PairAt(s, k) == Some(bs[k])
    ensures ParseHexPairs(s) == Some(bs)
  {
    ParseHexPairsIff(s);
    assert ParseHexPairs(s).value == bs;
  }

  /** Fills the array pair by pair, as the source's loop does. */
  method FillHex32(text: string) returns (r: Option<seq<byte>>)
    ensures r == ParseHex32(text)
    ensures r.Some? ==> |r.value| == 32
  {
    var s := Lower(Trim(text));
    if |s| != 64 {
      return None;
    }
    var out := new byte[32](_ => 0);
    for i := 0 to 32
      invariant forall k :: 0 <= k < i ==> PairAt(s, k) == Some(out[k])
    {
      var p := PairAt(s, i);
      if p.None? {
        assert ParseHexPairs(s).None? by { ParseHexPairsIff(s); }
        return None;
      }
      out[i] := p.value;
    }
    PairsAre(s, out[..]);
    return Some(out[..]);
  }

  lemma HexDigitValue(v: nat)
    requires v < 16
    ensures HexValue(HexDigit(v)) == Some(v)
    ensures LowerChar(HexDigit(v)) == HexDigit(v) && !IsSpace(HexDigit(v))
  {
  }

  lemma {:induction false} HexEncodeDigits(bs: seq<byte>)
    ensures forall c <- HexEncode(bs) :: IsHexDigit(c) && !IsSpace(c) && LowerChar(c) == c
  {
    if bs != [] {
      HexDigitValue(bs[0] / 16);
      HexDigitValue(bs[0] % 16);
      HexEncodeDigits(bs[1..]);
    }
  }

  lemma {:induction false} HexPairsRoundTrip(bs: seq<byte>)
    ensures ParseHexPairs(HexEncode(bs)) == Some(bs)
  {
    if bs != [] {
      HexDigitValue(bs[0] / 16);
      HexDigitValue(bs[0] % 16);
      HexPairsRoundTrip(bs[1..]);
      assert HexEncode(bs)[2..] == HexEncode(bs[1..]);
      assert bs == [bs[0]] + bs[1..];
    }
  }

  /** A printed fingerprint reads back as the same 32 bytes. */
  lemma Hex32RoundTrip(bs: seq<byte>)
    requires |bs| == 32
    ensures ParseHex32(HexEncode(bs)) == Some(bs)
  {
    var s := HexEncode(bs);
    HexEncodeDigits(bs);
    assert s[0] in s && s[|s| - 1] in s;
    TrimId(s);
    assert forall i :: 0 <= i < |s| ==> s[i] in s;
    assert Lower(s) == s;
    HexPairsRoundTrip(bs);
  }

  predicate Is64HexDigits(s: string) {
    |s| == 64 && forall c <- s :: IsHexDigit(c)
  }

  /** The error message promises 64 hex digits; the parser takes more than that. */
  lemma PlusAccepted()
    ensures exists s :: ParseHex32(s).Some? && !Is64HexDigits(Lower(Trim(s)))
  {
    var s := seq(64, i requires 0 <= i < 64 => if i % 2 == 0 then '+' else 'a');
    assert !IsSpace(s[0]) && !IsSpace(s[63]);
    TrimId(s);
    assert Lower(s) == s;
    ParseHexPairsIff(s);
    assert '+' == s[0] && s[0] in s;
  }

  predicate DigitPair(s: string, i: nat)
    requires 2 * i + 1 < |s|
  {
    (IsHexDigit(s[2 * i]) || s[2 * i] == '+') && IsHexDigit(s[2 * i + 1])
  }

  /** What it takes exactly: 32 pairs, each a digit after a digit or a plus sign.
      So it keeps its promise on a text exactly when that text has no plus sign. */
  lemma ParseHex32Exact(text: string)
    ensures var s := Lower(Trim(text));
      && (ParseHex32(text).Some? <==> |s| == 64 && forall i :: 0 <= i < 32 ==> DigitPair(s, i))
      && (Is64HexDigits(s) <==> ParseHex32(text).Some? && '+' !in s)
  {
    var s := Lower(Trim(text));
    if |s| == 64 {
      ParseHexPairsIff(s);
      assert forall i :: 0 <= i < 32 ==> (DigitPair(s, i) <==> PairAt(s, i).Some?);
      if ParseHex32(text).Some? && '+' !in s {
        forall c <- s ensures IsHexDigit(c) {
          var k :| 0 <= k < |s| && s[k] == c;
          assert PairAt(s, k / 2).Some?;
          assert s[2 * (k / 2)] in s;
        }
      }
      if Is64HexDigits(s) {
        forall i | 0 <= i < 32 ensures PairAt(s, i).Some? {
          assert s[2 * i] in s && s[2 * i + 1] in s;
        }
      }
    }
  }

  // ------------------------------------------------------------------ decimal

  function DecDigit(v: nat): char
    requires v < 10
  {
    ('0' as int + v) as char
  }

  predicate IsDecDigit(c: char) {
    '0' <= c <= '9'
  }

  /** Display of an unsigned integer. */
  function PrintNat(n: nat): (s: string)
    ensures s != "" && forall c <- s :: IsDecDigit(c)
  {
    if n < 10 then [DecDigit(n)] else PrintNat(n / 10) + [DecDigit(n % 10)]
  }

  function DigitsValue(s: string): nat
    requires forall c <- s :: IsDecDigit(c)
  {
    if s == "" then 0
    else
      assert IsDecDigit(s[|s| - 1]);
      10 * DigitsValue(s[..|s| - 1]) + (s[|s| - 1] as int - '0' as int)
  }

  /** `str::parse::<u16>`: one leading plus sign and leading zeros are accepted. */
  function ParseU16(text: string): Option<u16> {
    var s := if text != "" && text[0] == '+' then text[1..] else text;
    if s == "" || exists c <- s :: !IsDecDigit(c) then None
    else
      var v := DigitsValue(s);
      if v < 0x1_0000 then Some(v) else None
  }

  lemma {:induction false} DigitsRoundTrip(n: nat)
    ensures DigitsValue(PrintNat(n)) == n
  {
    if n < 10 {
      assert [DecDigit(n)][..0] == "";
    } else {
      DigitsRoundTrip(n / 10);
      var s := PrintNat(n / 10) + [DecDigit(n % 10)];
      assert s[..|s| - 1] == PrintNat(n / 10);
    }
  }

  /** Every printed port reads back as the same port. */
  lemma PortRoundTrip(port: u16)
    ensures ParseU16(PrintNat(port)) == Some(port)
  {
    var s := PrintNat(port);
    assert s[0] in s;
    DigitsRoundTrip(port);
  }

  lemma PrintNatWord(n: nat)
    ensures NoSpace(PrintNat(n)) && '\n' !in PrintNat(n)
  {
  }

  // ------------------------------------------ the texts, told on their characters

  const HEX_DIGITS: string := "0123456789abcdef"
  const DEC_DIGITS: string := "0123456789"

  lemma HexDigitIs(v: nat)
    requires v < 16
    ensures HexDigit(v) == HEX_DIGITS[v]
  {
  }

  /** Section 8 of RFC 4648: two lower-case digits an octet, the high one first. */
  lemma {:induction false} HexEncodeExact(bs: seq<byte>, i: nat)
    requires i < |bs|
    ensures HexEncode(bs)[2 * i] == HEX_DIGITS[bs[i] / 16] && HexEncode(bs)[2 * i + 1] == HEX_DIGITS[bs[i] % 16]
  {
    if i == 0 {
      HexDigitIs(bs[0] / 16);
      HexDigitIs(bs[0] % 16);
    } else {
      HexEncodeExact(bs[1..], i - 1);
      assert HexEncode(bs)[2..] == HexEncode(bs[1..]);
      assert HexEncode(bs)[2 * i] == HexEncode(bs)[2..][2 * (i - 1)];
      assert HexEncode(bs)[2 * i + 1] == HexEncode(bs)[2..][2 * (i - 1) + 1];
    }
  }

  /** The pair of characters at place `i` stands for this octet: its two digits, or a plus
      sign and the one digit of a small one. */
  predicate PairSays(s: string, i: nat, b: byte)
    requires 2 * i + 1 < |s|
  {
    && s[2 * i + 1] == HEX_DIGITS[b % 16]
    && (s[2 * i] == HEX_DIGITS[b / 16] || (s[2 * i] == '+' && b < 16))
  }

  lemma LowerHex(c: char, v: nat)
    requires LowerChar(c) == c && v < 16
    ensures HexValue(c) == Some(v) <==> c == HEX_DIGITS[v]
  {
    HexDigitIs(v);
  }

  lemma PairIs(s: string, i: nat, b: byte)
    requires 2 * i + 1 < |s| && LowerChar(s[2 * i]) == s[2 * i] && LowerChar(s[2 * i + 1]) == s[2 * i + 1]
    ensures PairAt(s, i) == Some(b) <==> PairSays(s, i, b)
  {
    LowerHex(s[2 * i], b / 16);
    LowerHex(s[2 * i + 1], b % 16);
    HexPairValue(s[2 * i], s[2 * i + 1], b);
  }

  lemma HexPairValue(x: char, y: char, b: byte)
    ensures ParseHexPair(x, y) == Some(b) <==>
      && HexValue(y) == Some(b % 16)
      && (HexValue(x) == Some(b / 16) || (x == '+' && b < 16))
  {
    if HexValue(x).Some? && HexValue(y).Some? {
      HexPairInRange(x, y);
    } else if HexValue(y).Some? {
      HexPairInRange(y, y);
    }
  }

  /** What a fingerprint text is read as: these 32 bytes exactly if the text, trimmed and
      in lower case, has 64 characters whose pairs stand for them. */
  lemma ParseHex32Value(text: string, bs: seq<byte>)
    requires |bs| == 32
    ensures var s := Lower(Trim(text));
      ParseHex32(text) == Some(bs) <==> |s| == 64 && forall i :: 0 <= i < 32 ==> PairSays(s, i, bs[i])
  {
    var s := Lower(Trim(text));
    LowerIdempotent(Trim(text));
    if |s| == 64 {
      assert forall i :: 0 <= i < 64 ==> LowerChar(s[i]) == s[i] by {
        assert Lower(s) == s;
      }
      forall i | 0 <= i < 32 ensures PairAt(s, i) == Some(bs[i]) <==> PairSays(s, i, bs[i]) {
        PairIs(s, i, bs[i]);
      }
      ParseHexPairsIff(s);
      if ParseHexPairs(s).Some? && forall i :: 0 <= i < 32 ==> PairAt(s, i) == Some(bs[i]) {
        PairsAre(s, bs);
      }
    }
  }

  /** A printed number: its last digit, and in front of it the rest of the number. */
  lemma PrintNatExact(n: nat)
    ensures n < 10 ==> PrintNat(n) == [DEC_DIGITS[n]]
    ensures n >= 10 ==> PrintNat(n) == PrintNat(n / 10) + [DEC_DIGITS[n % 10]]
  {
  }

  function Zeros(k: nat): string {
    seq(k, _ => '0')
  }

  lemma {:induction false} ZerosThen(k: nat, n: nat)
    ensures var s := Zeros(k) + PrintNat(n);
      (forall c <- s :: IsDecDigit(c)) && DigitsValue(s) == n
    decreases n
  {
    var s := Zeros(k) + PrintNat(n);
    assert forall c <- Zeros(k) :: c == '0';
    if n < 10 {
      assert s[..|s| - 1] == Zeros(k);
      ZerosValue(k);
    } else {
      assert s[..|s| - 1] == Zeros(k) + PrintNat(n / 10);
      ZerosThen(k, n / 10);
    }
  }

  lemma {:induction false} ZerosValue(k: nat)
    ensures (forall c <- Zeros(k) :: IsDecDigit(c)) && DigitsValue(Zeros(k)) == 0
  {
    assert forall c <- Zeros(k) :: c == '0';
    if k > 0 {
      assert Zeros(k)[..k - 1] == Zeros(k - 1);
      ZerosValue(k - 1);
    }
  }

  /** A text of digits is its number, printed, behind some zeros. */
  lemma {:induction false} DigitsArePrinted(s: string) returns (k: nat)
    requires s != "" && forall c <- s :: IsDecDigit(c)
    ensures s == Zeros(k) + PrintNat(DigitsValue(s))
    decreases |s|
  {
    if |s| == 1 {
      OneDigit(s);
      k := 0;
    } else {
      var t, d := s[..|s| - 1], s[|s| - 1];
      assert d in s && forall c <- t :: c in s;
      k := DigitsArePrinted(t);
      LastDigit(t, d);
      k := DigitBehind(k, DigitsValue(t), d);
      assert s == t + [d];
    }
  }

  lemma LastDigit(t: string, d: char)
    requires IsDecDigit(d) && forall c <- t :: IsDecDigit(c)
    ensures (forall c <- t + [d] :: IsDecDigit(c)) && DigitsValue(t + [d]) == 10 * DigitsValue(t) + (d as int - '0' as int)
  {
    assert (t + [d])[..|t|] == t;
  }

  lemma OneDigit(s: string)
    requires |s| == 1 && IsDecDigit(s[0])
    ensures (forall c <- s :: IsDecDigit(c)) && s == Zeros(0) + PrintNat(DigitsValue(s))
  {
    assert s[..0] == "" && Zeros(0) == "" && s == [s[0]];
  }

  lemma DigitBehind(k: nat, n: nat, d: char) returns (j: nat)
    requires IsDecDigit(d)
    ensures Zeros(k) + PrintNat(n) + [d] == Zeros(j) + PrintNat(10 * n + (d as int - '0' as int))
  {
    var v := d as int - '0' as int;
    if n == 0 {
      j := k + 1;
      assert PrintNat(0) == "0" && Zeros(k) + "0" == Zeros(j) && PrintNat(v) == [d];
    } else {
      j := k;
      assert (10 * n + v) / 10 == n && (10 * n + v) % 10 == v;
      Assoc(Zeros(k), PrintNat(n), [d]);
    }
  }

  /** A port is read exactly from its printed number, with any zeros and at most one plus
      sign in front, and only if it fits 16 bits. */
  lemma ParseU16Exact(text: string, v: nat)
    ensures (ParseU16(text).Some? && ParseU16(text).value == v) <==>
      v < 65536 && exists k: nat :: text == Zeros(k) + PrintNat(v) || text == "+" + (Zeros(k) + PrintNat(v))
  {
    var s := if text != "" && text[0] == '+' then text[1..] else text;
    if ParseU16(text).Some? {
      var k := DigitsArePrinted(s);
      assert text == s || text == "+" + s;
    }
    if k: nat :| text == Zeros(k) + PrintNat(v) {
      ZerosThen(k, v);
      assert text[0] in text;
    }
    if k: nat :| text == "+" + (Zeros(k) + PrintNat(v)) {
      ZerosThen(k, v);
      assert text[1..] == Zeros(k) + PrintNat(v);
    }
  }
}
