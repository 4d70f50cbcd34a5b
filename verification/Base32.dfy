/** Unpadded Base32 with the upper-case alphabet of section 6 of RFC 4648.
    Texts are defined through bit strings, most significant bit first. */
module Base32 {
  import opened Common

  function Pow2(n: nat): (r: nat)
    ensures r > 0
  {
    if n == 0 then 1 else 2 * Pow2(n - 1)
  }

  function ValueOf(bits: seq<bool>): (v: nat)
    ensures v < Pow2(|bits|)
  {
    if bits == [] then 0
    else 2 * ValueOf(bits[..|bits| - 1]) + (if bits[|bits| - 1] then 1 else 0)
  }

  function BitsOf(v: nat, width: nat): (bits: seq<bool>)
    ensures |bits| == width
  {
    if width == 0 then [] else BitsOf(v / 2, width - 1) + [v % 2 == 1]
  }

  lemma {:induction false} ValueOfBitsOf(v: nat, width: nat)
    requires v < Pow2(width)
    ensures ValueOf(BitsOf(v, width)) == v
  {
    if width > 0 {
      ValueOfBitsOf(v / 2, width - 1);
      var bits := BitsOf(v, width);
      assert bits[..|bits| - 1] == BitsOf(v / 2, width - 1);
    }
  }

  lemma {:induction false} BitsOfValueOf(bits: seq<bool>)
    ensures BitsOf(ValueOf(bits), |bits|) == bits
  {
    if bits != [] {
      BitsOfValueOf(bits[..|bits| - 1]);
      assert bits == bits[..|bits| - 1] + [bits[|bits| - 1]];
    }
  }

  /** The bits of a byte string, eight per byte. */
  function Bits(bytes: Bytes): (bits: seq<bool>)
    ensures |bits| == 8 * |bytes|
  {
    if bytes == [] then [] else BitsOf(bytes[0], 8) + Bits(bytes[1..])
  }

  function Unbits(bits: seq<bool>): (bytes: Bytes)
    requires |bits| % 8 == 0
    ensures 8 * |bytes| == |bits|
  {
    if bits == [] then []
    else
      assert Pow2(8) == 256;
      [ValueOf(bits[..8])] + Unbits(bits[8..])
  }

  type Quintet = v: int | 0 <= v < 32

  function Zeros(n: nat): seq<bool> {
    seq(n, _ => false)
  }

  /** Cuts bits into groups of five, filling the last group with zeros. */
  function Group(bits: seq<bool>): seq<Quintet>
    decreases |bits|
  {
    assert Pow2(5) == 32;
    if bits == [] then []
    else if |bits| < 5 then [ValueOf(bits + Zeros(5 - |bits|))]
    else [ValueOf(bits[..5])] + Group(bits[5..])
  }

  function Spread(values: seq<Quintet>): (bits: seq<bool>)
    ensures |bits| == 5 * |values|
  {
    if values == [] then [] else BitsOf(values[0], 5) + Spread(values[1..])
  }

  function Symbol(v: Quintet): Byte {
    if v < 26 then 65 + v else 24 + v
  }

  function SymbolValue(c: Byte): Option<Quintet> {
    if 65 <= c <= 90 then Some(c - 65)
    else if 50 <= c <= 55 then Some(c - 24)
    else None
  }

  function Symbols(values: seq<Quintet>): (text: Bytes)
    ensures |text| == |values|
  {
    seq(|values|, i requires 0 <= i < |values| => Symbol(values[i]))
  }

  function SymbolValues(text: Bytes): Option<seq<Quintet>> {
    if text == [] then Some([])
    else
      var first :- SymbolValue(text[0]);
      var rest :- SymbolValues(text[1..]);
      Some([first] + rest)
  }

  function Encode(bytes: Bytes): Bytes {
    Symbols(Group(Bits(bytes)))
  }

  /** As many bits as make whole bytes. */
  function WholeBytes(n: nat): (used: nat)
    ensures used <= n < used + 8 && used % 8 == 0
  {
    n - n % 8
  }

  /** Rejects characters outside the alphabet, lengths that leave a whole
      symbol unused, and non-zero bits after the last byte. */
  function Decode(text: Bytes): Option<Bytes> {
    var values :- SymbolValues(text);
    var bits := Spread(values);
    var used := WholeBytes(|bits|);
    if |bits| - used >= 5 || true in bits[used..] then None
    else Some(Unbits(bits[..used]))
  }

  lemma {:induction false} UnbitsBits(bytes: Bytes)
    ensures Unbits(Bits(bytes)) == bytes
  {
    if bytes != [] {
      assert Pow2(8) == 256;
      ValueOfBitsOf(bytes[0], 8);
      UnbitsBits(bytes[1..]);
      assert Bits(bytes)[..8] == BitsOf(bytes[0], 8);
      assert Bits(bytes)[8..] == Bits(bytes[1..]);
    }
  }

  lemma {:induction false} BitsUnbits(bits: seq<bool>)
    requires |bits| % 8 == 0
    ensures Bits(Unbits(bits)) == bits
  {
    if bits != [] {
      BitsOfValueOf(bits[..8]);
      BitsUnbits(bits[8..]);
      assert bits == bits[..8] + bits[8..];
      assert Unbits(bits)[1..] == Unbits(bits[8..]);
    }
  }

  lemma {:induction false} SymbolValuesOfSymbols(values: seq<Quintet>)
    ensures SymbolValues(Symbols(values)) == Some(values)
  {
    if values != [] {
      SymbolValuesOfSymbols(values[1..]);
      assert Symbols(values)[1..] == Symbols(values[1..]);
      assert SymbolValue(Symbols(values)[0]) == Some(values[0]);
      assert values == [values[0]] + values[1..];
    }
  }

  lemma {:induction false} SymbolsOfSymbolValues(text: Bytes)
    requires SymbolValues(text).Some?
    ensures Symbols(SymbolValues(text).value) == text
  {
    if text != [] {
      SymbolsOfSymbolValues(text[1..]);
      var values := SymbolValues(text).value;
      assert values == [values[0]] + values[1..];
      assert Symbols(values)[1..] == Symbols(values[1..]);
      assert text == [text[0]] + text[1..];
    }
  }

  /** Grouping only ever adds fewer than five zeros at the end. */
  lemma {:induction false} SpreadGroup(bits: seq<bool>)
    ensures |bits| <= |Spread(Group(bits))| < |bits| + 5
    ensures Spread(Group(bits)) == bits + Zeros(|Spread(Group(bits))| - |bits|)
    decreases |bits|
  {
    if bits == [] {
    } else if |bits| < 5 {
      var filled := bits + Zeros(5 - |bits|);
      BitsOfValueOf(filled);
      assert Spread(Group(bits)) == filled;
    } else {
      BitsOfValueOf(bits[..5]);
      SpreadGroup(bits[5..]);
      assert Group(bits)[1..] == Group(bits[5..]);
      assert bits == bits[..5] + bits[5..];
    }
  }

  /** The last group, of which fewer than five zeros were cut off. */
  lemma LastGroupSpread(v: Quintet, cut: nat)
    requires cut < 5 && true !in BitsOf(v, 5)[5 - cut..]
    ensures Group(BitsOf(v, 5)[..5 - cut]) == [v]
  {
    var bits := BitsOf(v, 5);
    var kept, tail := bits[..5 - cut], bits[5 - cut..];
    assert Pow2(5) == 32;
    ValueOfBitsOf(v, 5);
    forall i | 0 <= i < cut ensures !tail[i] {
      assert tail[i] in tail;
    }
    assert kept + Zeros(cut) == bits;
    if cut == 0 {
      assert kept[..5] == bits && kept[5..] == [];
    }
  }

  /** Groups of five come back when at most four trailing zeros are cut off. */
  lemma {:induction false} GroupSpread(values: seq<Quintet>, cut: nat)
    requires cut < 5 && cut <= |Spread(values)|
    requires true !in Spread(values)[|Spread(values)| - cut..]
    ensures Group(Spread(values)[..|Spread(values)| - cut]) == values
  {
    hide BitsOf, ValueOf, Pow2;
    var bits := Spread(values);
    if values != [] {
      var first, rest := BitsOf(values[0], 5), Spread(values[1..]);
      var kept := bits[..|bits| - cut];
      if |values| == 1 {
        assert bits == first;
        LastGroupSpread(values[0], cut);
      } else {
        assert bits == first + rest;
        assert rest[|rest| - cut..] == bits[|bits| - cut..];
        GroupSpread(values[1..], cut);
        WholeGroup(values[0], rest[..|rest| - cut]);
        assert kept == first + rest[..|rest| - cut];
      }
    }
  }

  lemma WholeGroup(v: Quintet, rest: seq<bool>)
    ensures Group(BitsOf(v, 5) + rest) == [v] + Group(rest)
  {
    assert Pow2(5) == 32;
    ValueOfBitsOf(v, 5);
    var bits := BitsOf(v, 5) + rest;
    assert bits[..5] == BitsOf(v, 5) && bits[5..] == rest;
  }

  lemma WholeBytesAreUnique(n: nat, k: nat)
    requires 8 * k <= n < 8 * k + 8
    ensures WholeBytes(n) == 8 * k
  {
  }

  lemma DecodeEncode(bytes: Bytes)
    ensures Decode(Encode(bytes)) == Some(bytes)
  {
    var bits := Bits(bytes);
    SymbolValuesOfSymbols(Group(bits));
    SpreadGroup(bits);
    UnbitsBits(bytes);
    hide Group, Spread, Bits, Unbits, SymbolValues, Symbols, WholeBytes;
    var spread := Spread(Group(bits));
    var used := WholeBytes(|spread|);
    WholeBytesAreUnique(|spread|, |bytes|);
    assert spread[..used] == bits;
    assert spread[used..] == Zeros(|spread| - |bits|);
  }

  lemma EncodeDecode(text: Bytes)
    requires Decode(text).Some?
    ensures Encode(Decode(text).value) == text
  {
    var values := SymbolValues(text).value;
    SymbolsOfSymbolValues(text);
    var bits := Spread(values);
    var used := WholeBytes(|bits|);
    hide Group, Spread, Bits, Unbits, SymbolValues, Symbols, WholeBytes;
    GroupSpread(values, |bits| - used);
    BitsUnbits(bits[..used]);
  }

  /** Decoding accepts exactly the texts that encoding produces: `text` decodes
      to `bytes` if and only if `text` is the encoding of `bytes`. */
  lemma DecodeIffEncode(text: Bytes, bytes: Bytes)
    ensures Decode(text) == Some(bytes) <==> Encode(bytes) == text
  {
    DecodeEncode(bytes);
    if Decode(text).Some? {
      EncodeDecode(text);
    }
  }

  lemma {:induction false} GroupLength(bits: seq<bool>)
    ensures |Group(bits)| == (|bits| + 4) / 5
    decreases |bits|
  {
    if |bits| >= 5 {
      GroupLength(bits[5..]);
    }
  }

  /** Of the eight residues, only the five lengths that RFC 4648 can produce
      are ever accepted. */
  lemma DecodableLengths(text: Bytes)
    requires Decode(text).Some?
    ensures |text| % 8 in {0, 2, 4, 5, 7}
    ensures |Decode(text).value| == |text| * 5 / 8
  {
    EncodeDecode(text);
    var bits := Bits(Decode(text).value);
    GroupLength(bits);
    QuintetCount(|Decode(text).value|);
  }

  /** Five bytes are eight symbols; the rest is one of five cases. */
  lemma QuintetCountOf(q: nat, r: nat)
    requires r < 5
    ensures var m := (8 * (5 * q + r) + 4) / 5;
      m % 8 in {0, 2, 4, 5, 7} && m * 5 / 8 == 5 * q + r
  {
    var m := (8 * (5 * q + r) + 4) / 5;
    if r == 0 {
      assert m == 8 * q;
    } else if r == 1 {
      assert m == 8 * q + 2;
    } else if r == 2 {
      assert m == 8 * q + 4;
    } else if r == 3 {
      assert m == 8 * q + 5;
    } else {
      assert m == 8 * q + 7;
    }
  }

  lemma QuintetCount(n: nat)
    ensures (8 * n + 4) / 5 % 8 in {0, 2, 4, 5, 7}
    ensures (8 * n + 4) / 5 * 5 / 8 == n
  {
    QuintetCountOf(n / 5, n % 5);
  }

  // The encoding of RFC 4648, section 6, symbol by symbol

  const ALPHABET := "ABCDEFGHIJKLMNOPQRSTUVWXYZ234567"

  /** Bit `j` of a byte string, most significant bit of each byte first; zero
      after its end. */
  function BitAt(bytes: Bytes, j: nat): nat {
    if j >= 8 * |bytes| then 0
    else
      var b, i := bytes[j / 8], j % 8;
      (if i == 0 then b / 128 else if i == 1 then b / 64 else if i == 2 then b / 32 else if i == 3 then b / 16
      else if i == 4 then b / 8 else if i == 5 then b / 4 else if i == 6 then b / 2 else b) % 2
  }

  function Halved(v: nat, n: nat): nat {
    if n == 0 then v else Halved(v / 2, n - 1)
  }

  lemma {:induction false} BitIsOddHalf(v: nat, width: nat, i: nat)
    requires i < width
    ensures BitsOf(v, width)[i] <==> Halved(v, width - 1 - i) % 2 == 1
  {
    if i < width - 1 {
      BitIsOddHalf(v / 2, width - 1, i);
    }
  }

  lemma HalvedThrice(v: nat)
    ensures Halved(v, 0) == v && Halved(v, 1) == v / 2 && Halved(v, 2) == v / 4 && Halved(v, 3) == v / 8
  {
    assert Halved(v / 2 / 2, 1) == v / 2 / 2 / 2;
    assert Halved(v / 2, 2) == Halved(v / 2 / 2, 1);
  }

  lemma ThriceMore(v: nat, n: nat)
    ensures Halved(v, n + 3) == Halved(v / 8, n)
  {
    assert Halved(v, n + 3) == Halved(v / 2, n + 2);
    assert Halved(v / 2, n + 2) == Halved(v / 2 / 2, n + 1);
    assert v / 2 / 2 / 2 == v / 8;
  }

  function PowerOfTwo(n: nat): nat
    requires n < 8
  {
    if n == 0 then 1 else if n == 1 then 2 else if n == 2 then 4 else if n == 3 then 8
    else if n == 4 then 16 else if n == 5 then 32 else if n == 6 then 64 else 128
  }

  lemma HalvedIsDivided(v: nat, n: nat)
    requires n < 8
    ensures Halved(v, n) == v / PowerOfTwo(n)
  {
    hide Halved;
    HalvedThrice(v);
    if 3 <= n < 6 {
      ThriceMore(v, n - 3);
      HalvedThrice(v / 8);
    } else if n >= 6 {
      ThriceMore(v, n - 3);
      ThriceMore(v / 8, n - 6);
      HalvedThrice(v / 64);
      assert v / 8 / 8 == v / 64;
    }
  }

  lemma ByteBits(b: Byte, i: nat)
    requires i < 8
    ensures BitsOf(b, 8)[i] <==> BitAt([b], i) == 1
  {
    hide Halved, BitsOf;
    BitIsOddHalf(b, 8, i);
    HalvedIsDivided(b, 7 - i);
  }

  lemma {:induction false} BitsAt(bytes: Bytes, j: nat)
    requires j < 8 * |bytes|
    ensures Bits(bytes)[j] <==> BitAt(bytes, j) == 1
  {
    if j < 8 {
      ByteBits(bytes[0], j);
      assert j / 8 == 0;
    } else {
      BitsAt(bytes[1..], j - 8);
      assert (j - 8) / 8 == j / 8 - 1 && (j - 8) % 8 == j % 8;
    }
  }

  function Digit(bits: seq<bool>, j: nat): nat {
    if j < |bits| && bits[j] then 1 else 0
  }

  lemma FiveBits(b: seq<bool>)
    requires |b| == 5
    ensures ValueOf(b) == 16 * Digit(b, 0) + 8 * Digit(b, 1) + 4 * Digit(b, 2) + 2 * Digit(b, 3) + Digit(b, 4)
  {
    assert b[..4][..3] == b[..3] && b[..3][..2] == b[..2] && b[..2][..1] == b[..1] && b[..1][..0] == [];
    assert ValueOf(b[..1]) == Digit(b, 0);
    assert ValueOf(b[..2]) == 2 * ValueOf(b[..1]) + Digit(b, 1);
    assert ValueOf(b[..3]) == 2 * ValueOf(b[..2]) + Digit(b, 2);
    assert ValueOf(b[..4]) == 2 * ValueOf(b[..3]) + Digit(b, 3);
  }

  function FiveDigitsAt(bits: seq<bool>, j: nat): nat {
    16 * Digit(bits, j) + 8 * Digit(bits, j + 1) + 4 * Digit(bits, j + 2) + 2 * Digit(bits, j + 3) + Digit(bits, j + 4)
  }

  lemma FirstOfGroup(bits: seq<bool>)
    requires bits != []
    ensures Group(bits) != [] && Group(bits)[0] == FiveDigitsAt(bits, 0)
  {
    FiveBits(if |bits| < 5 then bits + Zeros(5 - |bits|) else bits[..5]);
    hide ValueOf;
  }

  lemma {:induction false} GroupAt(bits: seq<bool>, k: nat)
    requires 5 * k < |bits|
    ensures k < |Group(bits)| && Group(bits)[k] == FiveDigitsAt(bits, 5 * k)
    decreases k
  {
    hide ValueOf;
    if k == 0 {
      FirstOfGroup(bits);
    } else {
      assert Group(bits)[1..] == Group(bits[5..]);
      GroupAt(bits[5..], k - 1);
      assert FiveDigitsAt(bits[5..], 5 * (k - 1)) == FiveDigitsAt(bits, 5 * k);
    }
  }

  /** The number that bits `j` to `j + 4` make. */
  function FiveBitsAt(bytes: Bytes, j: nat): nat {
    16 * BitAt(bytes, j) + 8 * BitAt(bytes, j + 1) + 4 * BitAt(bytes, j + 2) + 2 * BitAt(bytes, j + 3)
    + BitAt(bytes, j + 4)
  }

  lemma FiveDigits(bytes: Bytes, j: nat)
    ensures FiveBitsAt(bytes, j) == FiveDigitsAt(Bits(bytes), j)
  {
    hide Bits, BitAt;
    DigitIsBit(bytes, j);
    DigitIsBit(bytes, j + 1);
    DigitIsBit(bytes, j + 2);
    DigitIsBit(bytes, j + 3);
    DigitIsBit(bytes, j + 4);
  }

  /** Symbol `k` is the letter of bits 5k to 5k+4, zeros after the last byte. */
  lemma SymbolAt(bytes: Bytes, k: nat)
    requires 5 * k < 8 * |bytes|
    ensures |Encode(bytes)| == (8 * |bytes| + 4) / 5 && k < |Encode(bytes)|
    ensures FiveBitsAt(bytes, 5 * k) < 32 && Encode(bytes)[k] == ALPHABET[FiveBitsAt(bytes, 5 * k)] as int
  {
    hide Bits, Group, FiveBitsAt, FiveDigitsAt, Symbol;
    GroupLength(Bits(bytes));
    GroupAt(Bits(bytes), k);
    FiveDigits(bytes, 5 * k);
    SymbolIsLetter(Group(Bits(bytes))[k]);
  }

  lemma DigitIsBit(bytes: Bytes, j: nat)
    ensures Digit(Bits(bytes), j) == BitAt(bytes, j) <= 1
  {
    if j < 8 * |bytes| {
      BitsAt(bytes, j);
    }
  }

  lemma SymbolIsLetter(v: Quintet)
    ensures Symbol(v) == ALPHABET[v] as int
  {
  }

  function AsciiUpper(text: Bytes): (r: Bytes)
    ensures |r| == |text|
  {
    seq(|text|, i requires 0 <= i < |text| => if 97 <= text[i] <= 122 then text[i] - 32 else text[i])
  }

  function AsciiLower(text: Bytes): (r: Bytes)
    ensures |r| == |text|
  {
    seq(|text|, i requires 0 <= i < |text| => if 65 <= text[i] <= 90 then text[i] + 32 else text[i])
  }

  lemma EncodedIsUpperAscii(bytes: Bytes)
    ensures IsAscii(Encode(bytes)) && AsciiUpper(Encode(bytes)) == Encode(bytes)
    ensures IsAscii(AsciiLower(Encode(bytes)))
    ensures AsciiUpper(AsciiLower(Encode(bytes))) == Encode(bytes)
  {
  }
}
