/** Base 64 with padding, after section 4 of RFC 4648. Like the engine the source
    uses, the decoder insists on canonical padding and on zero trailing bits. */
module Base64 {
  import opened Common

  type sextet = x: int | 0 <= x < 64

  function Symbol(v: sextet): (c: char) {
    if v < 26 then ('A' as int + v) as char
    else if v < 52 then ('a' as int + v - 26) as char
    else if v < 62 then ('0' as int + v - 52) as char
    else if v == 62 then '+' else '/'
  }

  function Value(c: char): Option<sextet> {
    if 'A' <= c <= 'Z' then Some(c as int - 'A' as int)
    else if 'a' <= c <= 'z' then Some(c as int - 'a' as int + 26)
    else if '0' <= c <= '9' then Some(c as int - '0' as int + 52)
    else if c == '+' then Some(62)
    else if c == '/' then Some(63)
    else None
  }

  /** The four sextets of a 24-bit group of three octets. */
  function Sextets(a: byte, b: byte, c: byte): seq<sextet> {
    [a / 4, a % 4 * 16 + b / 16, b % 16 * 4 + c / 64, c % 64]
  }

  function Octets(p: sextet, q: sextet, r: sextet, t: sextet): seq<byte> {
    var v: seq<int> := [p, q, r, t];
    [v[0] * 4 + v[1] / 16, v[1] % 16 * 16 + v[2] / 4, v[2] % 4 * 64 + v[3]]
  }

  function Quantum(a: byte, b: byte, c: byte): string {
    var v := Sextets(a, b, c);
    [Symbol(v[0]), Symbol(v[1]), Symbol(v[2]), Symbol(v[3])]
  }

  /** One or two octets left over, padded to a whole group. */
  function EncodeTail(bs: seq<byte>): string
    requires |bs| < 3
  {
    if bs == [] then ""
    else if |bs| == 1 then Quantum(bs[0], 0, 0)[..2] + "=="
    else Quantum(bs[0], bs[1], 0)[..3] + "="
  }

  function Encode(bs: seq<byte>): string {
    if |bs| < 3 then EncodeTail(bs) else Quantum(bs[0], bs[1], bs[2]) + Encode(bs[3..])
  }

  function DecodeFull(s: string): Option<seq<byte>>
    requires |s| == 4
  {
    match (Value(s[0]), Value(s[1]), Value(s[2]), Value(s[3]))
    case (Some(p), Some(q), Some(r), Some(t)) => Some(Octets(p, q, r, t))
    case _ => None
  }

  /** The last group, where one or two symbols may be padding. */
  function DecodeLast(s: string): Option<seq<byte>>
    requires |s| == 4
  {
    if s[3] != '=' then DecodeFull(s)
    else if s[2] == '=' then
      match (Value(s[0]), Value(s[1]))
      case (Some(p), Some(q)) => if q % 16 == 0 then Some(Octets(p, q, 0, 0)[..1]) else None
      case _ => None
    else
      match (Value(s[0]), Value(s[1]), Value(s[2]))
      case (Some(p), Some(q), Some(r)) => if r % 4 == 0 then Some(Octets(p, q, r, 0)[..2]) else None
      case _ => None
  }

  function Decode(s: string): Option<seq<byte>> {
    if s == "" then Some([])
    else if |s| < 4 then None
    else if |s| == 4 then DecodeLast(s)
    else
      match (DecodeFull(s[..4]), Decode(s[4..]))
      case (Some(head), Some(tail)) => Some(head + tail)
      case _ => None
  }

  // -------------------------------------------------------------------- lemmas

  lemma SymbolValue(v: sextet)
    ensures Value(Symbol(v)) == Some(v) && Symbol(v) != '='
  {
  }

  lemma ValueSymbol(c: char)
    requires Value(c).Some?
    ensures Symbol(Value(c).value) == c
  {
  }

  lemma OctetsSextets(a: byte, b: byte, c: byte)
    ensures var v := Sextets(a, b, c); Octets(v[0], v[1], v[2], v[3]) == [a, b, c]
  {
  }

  lemma SextetsOctets(p: sextet, q: sextet, r: sextet, t: sextet)
    ensures var o := Octets(p, q, r, t); Sextets(o[0], o[1], o[2]) == [p, q, r, t]
  {
    var a: int := p * 4 + q / 16;
    var b: int := q % 16 * 16 + r / 4;
    assert a / 4 == p && a % 4 == q / 16;
    assert b / 16 == q % 16 && b % 16 == r / 4;
  }

  lemma QuantumDecodes(a: byte, b: byte, c: byte)
    ensures DecodeFull(Quantum(a, b, c)) == Some([a, b, c])
    ensures Quantum(a, b, c)[3] != '='
  {
    var v := Sextets(a, b, c);
    SymbolValue(v[0]);
    SymbolValue(v[1]);
    SymbolValue(v[2]);
    SymbolValue(v[3]);
    OctetsSextets(a, b, c);
  }

  lemma OneDecodes(a: byte)
    ensures DecodeLast(Quantum(a, 0, 0)[..2] + "==") == Some([a])
  {
    var v := Sextets(a, 0, 0);
    SymbolValue(v[0]);
    SymbolValue(v[1]);
    OctetsSextets(a, 0, 0);
    assert v[2] == 0 && v[3] == 0;
    assert Octets(v[0], v[1], 0, 0)[..1] == [a];
  }

  lemma TwoDecodes(a: byte, b: byte)
    ensures DecodeLast(Quantum(a, b, 0)[..3] + "=") == Some([a, b])
  {
    var v := Sextets(a, b, 0);
    SymbolValue(v[0]);
    SymbolValue(v[1]);
    SymbolValue(v[2]);
    OctetsSextets(a, b, 0);
    assert v[3] == 0;
    assert Octets(v[0], v[1], v[2], 0)[..2] == [a, b];
  }

  /** A full group in front of decodable text contributes its three octets. */
  lemma QuantumThen(a: byte, b: byte, c: byte, e: string)
    requires Decode(e).Some?
    ensures Decode(Quantum(a, b, c) + e) == Some([a, b, c] + Decode(e).value)
  {
    var q := Quantum(a, b, c);
    QuantumDecodes(a, b, c);
    if e == "" {
      assert q + e == q;
      assert [a, b, c] + [] == [a, b, c];
    } else {
      assert (q + e)[..4] == q && (q + e)[4..] == e;
    }
  }

  lemma ShortDecodes(bs: seq<byte>)
    requires 1 <= |bs| <= 2
    ensures Decode(EncodeTail(bs)) == Some(bs)
  {
    if |bs| == 1 {
      OneDecodes(bs[0]);
      assert bs == [bs[0]];
    } else {
      TwoDecodes(bs[0], bs[1]);
      assert bs == [bs[0], bs[1]];
    }
  }

  lemma EncodeLong(bs: seq<byte>)
    requires |bs| >= 3
    ensures Encode(bs) == Quantum(bs[0], bs[1], bs[2]) + Encode(bs[3..])
  {
  }

  lemma SplitThree(bs: seq<byte>)
    requires |bs| >= 3
    ensures bs == [bs[0], bs[1], bs[2]] + bs[3..]
  {
  }

  /** Decoding undoes encoding, for every byte string. */
  lemma {:induction false} DecodeEncode(bs: seq<byte>)
    ensures Decode(Encode(bs)) == Some(bs)
  {
    if |bs| >= 3 {
      DecodeEncode(bs[3..]);
      EncodeLong(bs);
      SplitThree(bs);
      QuantumThen(bs[0], bs[1], bs[2], Encode(bs[3..]));
    } else if bs != [] {
      ShortDecodes(bs);
    }
  }

  lemma FullEncodes(s: string)
    requires |s| == 4 && DecodeFull(s).Some?
    ensures var d := DecodeFull(s).value; |d| == 3 && Quantum(d[0], d[1], d[2]) == s
  {
    ValueSymbol(s[0]);
    ValueSymbol(s[1]);
    ValueSymbol(s[2]);
    ValueSymbol(s[3]);
    SextetsOctets(Value(s[0]).value, Value(s[1]).value, Value(s[2]).value, Value(s[3]).value);
  }

  lemma LastEncodes(s: string)
    requires |s| == 4 && DecodeLast(s).Some?
    ensures |DecodeLast(s).value| < 3 ==> EncodeTail(DecodeLast(s).value) == s
    ensures |DecodeLast(s).value| >= 3 ==> DecodeFull(s) == DecodeLast(s)
  {
    if s[3] != '=' {
      FullEncodes(s);
    } else if s[2] == '=' {
      ValueSymbol(s[0]);
      ValueSymbol(s[1]);
      var o := Octets(Value(s[0]).value, Value(s[1]).value, 0, 0);
      SextetsOctets(Value(s[0]).value, Value(s[1]).value, 0, 0);
      assert o[1] == 0 && o[2] == 0;
    } else {
      ValueSymbol(s[0]);
      ValueSymbol(s[1]);
      ValueSymbol(s[2]);
      var o := Octets(Value(s[0]).value, Value(s[1]).value, Value(s[2]).value, 0);
      SextetsOctets(Value(s[0]).value, Value(s[1]).value, Value(s[2]).value, 0);
      assert o[2] == 0;
    }
  }

  lemma DecodeLong(s: string)
    requires |s| > 4 && Decode(s).Some?
    ensures DecodeFull(s[..4]).Some? && Decode(s[4..]).Some?
    ensures Decode(s).value == DecodeFull(s[..4]).value + Decode(s[4..]).value
  {
  }

  lemma EncodeQuantum(a: byte, b: byte, c: byte, rest: seq<byte>)
    ensures Encode([a, b, c] + rest) == Quantum(a, b, c) + Encode(rest)
  {
    var bs := [a, b, c] + rest;
    assert bs[3..] == rest;
    EncodeLong(bs);
  }

  /** Only the canonical text of a byte string decodes to it. */
  lemma {:induction false} EncodeDecode(s: string)
    requires Decode(s).Some?
    ensures Encode(Decode(s).value) == s
  {
    if |s| > 4 {
      DecodeLong(s);
      EncodeDecode(s[4..]);
      FullEncodes(s[..4]);
      var d := DecodeFull(s[..4]).value;
      assert d == [d[0], d[1], d[2]];
      EncodeQuantum(d[0], d[1], d[2], Decode(s[4..]).value);
      assert s == s[..4] + s[4..];
    } else if |s| == 4 {
      EncodeDecodeGroup(s);
    }
  }

  lemma EncodeDecodeGroup(s: string)
    requires |s| == 4 && Decode(s).Some?
    ensures Encode(Decode(s).value) == s
  {
    LastEncodes(s);
    var d := DecodeLast(s).value;
    if |d| >= 3 {
      FullEncodes(s);
      assert d == [d[0], d[1], d[2]] + [];
      EncodeQuantum(d[0], d[1], d[2], []);
    }
  }

  /** The text is padded to whole groups of four. */
  lemma {:induction false} EncodeLength(bs: seq<byte>)
    ensures |Encode(bs)| == 4 * ((|bs| + 2) / 3)
  {
    if |bs| >= 3 {
      var rest := bs[3..];
      EncodeLength(rest);
      assert |Encode(bs)| == 4 + |Encode(rest)|;
      assert (|bs| + 2) / 3 == 1 + (|rest| + 2) / 3;
    }
  }

  predicate IsText(c: char) {
    Value(c).Some? || c == '='
  }

  lemma {:induction false} EncodeText(bs: seq<byte>)
    ensures forall c <- Encode(bs) :: IsText(c)
  {
    forall v: sextet ensures IsText(Symbol(v)) {
      SymbolValue(v);
    }
    if |bs| >= 3 {
      EncodeText(bs[3..]);
    }
  }

  // ------------------------------------------------- the text, told from the octets

  /** Table 1 of RFC 4648, in four runs. */
  const UPPER: string := "ABCDEFGHIJKLMNOPQRSTUVWXYZ"
  const LOWER: string := "abcdefghijklmnopqrstuvwxyz"
  const DIGITS: string := "0123456789"
  const ALPHABET: string := UPPER + LOWER + DIGITS + "+/"

  lemma SymbolIs(v: sextet)
    ensures |ALPHABET| == 64 && Symbol(v) == ALPHABET[v]
  {
    if v < 26 {
      assert ALPHABET[v] == UPPER[v];
    } else if v < 52 {
      assert ALPHABET[v] == LOWER[v - 26];
    } else if v < 62 {
      assert ALPHABET[v] == DIGITS[v - 52];
    }
  }

  /** Three octets as a group of 24 bits. */
  function Bits(a: byte, b: byte, c: byte): nat {
    a as int * 65536 + b as int * 256 + c
  }

  /** The `i`-th of the four symbols of a group. */
  function GroupSymbol(bits: nat, i: nat): char
    requires i < 4
  {
    var v := (if i == 0 then bits / 262144 else if i == 1 then bits / 4096 else if i == 2 then bits / 64 else bits) % 64;
    assert |ALPHABET| == 64;
    ALPHABET[v]
  }

  /** The `k`-th group of octets gives the four symbols in the `k`-th place. */
  predicate GroupAt(text: string, bs: seq<byte>, k: nat)
    requires 3 * k + 2 < |bs| && 4 * k + 3 < |text|
  {
    var n := Bits(bs[3 * k], bs[3 * k + 1], bs[3 * k + 2]);
    && text[4 * k] == GroupSymbol(n, 0) && text[4 * k + 1] == GroupSymbol(n, 1)
    && text[4 * k + 2] == GroupSymbol(n, 2) && text[4 * k + 3] == GroupSymbol(n, 3)
  }

  lemma Quotient(n: int, q: int, r: int)
    requires n == q * 64 + r && 0 <= r < 64
    ensures n / 64 == q && n % 64 == r
  {
  }

  lemma BitsFirst(a: byte, b: byte, c: byte)
    ensures Bits(a, b, c) / 262144 % 64 == a / 4
  {
    var n, x, y: int := Bits(a, b, c), a, b;
    assert n == x / 4 * 262144 + (x % 4 * 65536 + y * 256 + c);
  }

  lemma BitsSecond(a: byte, b: byte, c: byte)
    ensures Bits(a, b, c) / 4096 % 64 == a as int % 4 * 16 + b as int / 16
  {
    var n, x, y: int := Bits(a, b, c), a, b;
    var r := x * 16 + y / 16;
    assert n / 4096 == r by { assert n == r * 4096 + (y % 16 * 256 + c); }
    Quotient(r, x / 4, x % 4 * 16 + y / 16);
  }

  lemma BitsThird(a: byte, b: byte, c: byte)
    ensures Bits(a, b, c) / 64 % 64 == b as int % 16 * 4 + c as int / 64
  {
    var n, x, y, z: int := Bits(a, b, c), a, b, c;
    var q := x * 1024 + y * 4 + z / 64;
    Quotient(n, q, z % 64);
    Quotient(q, x * 16 + y / 16, y % 16 * 4 + z / 64);
  }

  lemma BitsFourth(a: byte, b: byte, c: byte)
    ensures Bits(a, b, c) % 64 == c as int % 64
  {
    var n, x, y, z: int := Bits(a, b, c), a, b, c;
    Quotient(n, x * 1024 + y * 4 + z / 64, z % 64);
  }

  lemma GroupBits(a: byte, b: byte, c: byte)
    ensures var n := Bits(a, b, c); var v := Sextets(a, b, c);
      v[0] == n / 262144 % 64 && v[1] == n / 4096 % 64 && v[2] == n / 64 % 64 && v[3] == n % 64
  {
    BitsFirst(a, b, c);
    BitsSecond(a, b, c);
    BitsThird(a, b, c);
    BitsFourth(a, b, c);
  }

  lemma QuantumIs(a: byte, b: byte, c: byte)
    ensures var n := Bits(a, b, c);
      Quantum(a, b, c) == [GroupSymbol(n, 0), GroupSymbol(n, 1), GroupSymbol(n, 2), GroupSymbol(n, 3)]
  {
    GroupBits(a, b, c);
    var v := Sextets(a, b, c);
    SymbolIs(v[0]);
    SymbolIs(v[1]);
    SymbolIs(v[2]);
    SymbolIs(v[3]);
  }

  /** What one or two octets left over give: filled with zero bits, and padded. */
  function TailText(bs: seq<byte>): string
    requires |bs| < 3
  {
    if |bs| == 1 then [GroupSymbol(Bits(bs[0], 0, 0), 0), GroupSymbol(Bits(bs[0], 0, 0), 1), '=', '=']
    else if |bs| == 2 then
      var n := Bits(bs[0], bs[1], 0);
      [GroupSymbol(n, 0), GroupSymbol(n, 1), GroupSymbol(n, 2), '=']
    else []
  }

  /** The text shows the octets: group by group, and what is left over last. */
  predicate Tells(text: string, bs: seq<byte>) {
    && |text| == 4 * ((|bs| + 2) / 3)
    && (forall k: nat :: k < |bs| / 3 ==> GroupAt(text, bs, k))
    && text[4 * (|bs| / 3)..] == TailText(bs[3 * (|bs| / 3)..])
  }

  /** Section 4 of RFC 4648 on the octets: each group of three gives, at its own place, the
      four symbols of its 24 bits, and what is left over comes last, padded. */
  lemma {:induction false} EncodeExact(bs: seq<byte>)
    ensures Tells(Encode(bs), bs)
  {
    EncodeLength(bs);
    if |bs| < 3 {
      TailTells(bs);
    } else {
      EncodeExact(bs[3..]);
      GroupThen(bs, Encode(bs[3..]));
    }
  }

  lemma TailTells(bs: seq<byte>)
    requires |bs| < 3
    ensures Tells(EncodeTail(bs), bs)
  {
    if |bs| == 1 {
      QuantumIs(bs[0], 0, 0);
    } else if |bs| == 2 {
      QuantumIs(bs[0], bs[1], 0);
    }
  }

  lemma GroupThen(bs: seq<byte>, text: string)
    requires |bs| >= 3 && Tells(text, bs[3..])
    ensures Tells(Quantum(bs[0], bs[1], bs[2]) + text, bs)
  {
    var head := Quantum(bs[0], bs[1], bs[2]);
    ThirdsThen(|bs|);
    GroupFirst(bs, text);
    forall k: nat | k < |bs| / 3 ensures GroupAt(head + text, bs, k) {
      if k > 0 {
        GroupLater(head, text, bs, k - 1);
      }
    }
    TailThen(head, text, bs);
  }

  lemma ThirdsThen(n: nat)
    requires n >= 3
    ensures n / 3 == (n - 3) / 3 + 1 && (n + 2) / 3 == (n - 1) / 3 + 1
  {
  }

  lemma GroupFirst(bs: seq<byte>, text: string)
    requires |bs| >= 3
    ensures GroupAt(Quantum(bs[0], bs[1], bs[2]) + text, bs, 0)
  {
    QuantumIs(bs[0], bs[1], bs[2]);
  }

  lemma TailThen(head: string, text: string, bs: seq<byte>)
    requires |head| == 4 && |bs| >= 3 && 4 * (|bs[3..]| / 3) <= |text|
    ensures var m, n := |bs[3..]| / 3, |bs| / 3;
      n == m + 1 && (head + text)[4 * n..] == text[4 * m..] && bs[3 * n..] == bs[3..][3 * m..]
  {
  }

  lemma GroupLater(head: string, text: string, bs: seq<byte>, k: nat)
    requires |head| == 4 && |bs| >= 3 && 3 * k + 2 < |bs[3..]| && 4 * k + 3 < |text| && GroupAt(text, bs[3..], k)
    ensures GroupAt(head + text, bs, k + 1)
  {
    assert bs[3..][3 * k] == bs[3 * (k + 1)];
  }
}
