/**
 The hand-written base64 encoder and a canonical decoder for it (section 4 of RFC 4648). Shifts and
 masks on disjoint bit fields are written as multiplication, division and remainder by powers of two.
 */
module Base64 {
  import opened Wrappers

  type Byte = x: int | 0 <= x < 256
  type Sextet = x: int | 0 <= x < 64

  const UPPER := "ABCDEFGHIJKLMNOPQRSTUVWXYZ"
  const LOWER := "abcdefghijklmnopqrstuvwxyz"
  const ALPHABET := UPPER + LOWER + "0123456789+/"

  /** The character RFC 4648 assigns to a value. */
  function Symbol(k: Sextet): char {
    if k < 26 then ('A' as int + k) as char
    else if k < 52 then ('a' as int + k - 26) as char
    else if k < 62 then ('0' as int + k - 52) as char
    else if k == 62 then '+' else '/'
  }

  /** The value of a character. */
  function SextetOf(c: char): Option<Sextet> {
    if 'A' <= c <= 'Z' then Some(c as int - 'A' as int)
    else if 'a' <= c <= 'z' then Some(c as int - 'a' as int + 26)
    else if '0' <= c <= '9' then Some(c as int - '0' as int + 52)
    else if c == '+' then Some(62)
    else if c == '/' then Some(63)
    else None
  }

  predicate InAlphabet(c: char) {
    SextetOf(c).Some?
  }

  lemma SymbolDecodes(k: Sextet)
    ensures SextetOf(Symbol(k)) == Some(k) && Symbol(k) != '='
  {
  }

  lemma SymbolOfSextet(c: char)
    requires InAlphabet(c)
    ensures Symbol(SextetOf(c).value) == c
  {
  }

  lemma UpperTable(k: nat)
    requires k < 26
    ensures |UPPER| == 26 && UPPER[k] == ('A' as int + k) as char
  {
    assert UPPER[0] == 'A' && UPPER[1] == 'B' && UPPER[2] == 'C' && UPPER[3] == 'D' && UPPER[4] == 'E'
           && UPPER[5] == 'F' && UPPER[6] == 'G';
    assert UPPER[7] == 'H' && UPPER[8] == 'I' && UPPER[9] == 'J' && UPPER[10] == 'K' && UPPER[11] == 'L'
           && UPPER[12] == 'M' && UPPER[13] == 'N';
    assert UPPER[14] == 'O' && UPPER[15] == 'P' && UPPER[16] == 'Q' && UPPER[17] == 'R' && UPPER[18] == 'S'
           && UPPER[19] == 'T' && UPPER[20] == 'U';
    assert UPPER[21] == 'V' && UPPER[22] == 'W' && UPPER[23] == 'X' && UPPER[24] == 'Y' && UPPER[25] == 'Z';
  }

  lemma LowerTable(k: nat)
    requires k < 26
    ensures |LOWER| == 26 && LOWER[k] == ('a' as int + k) as char
  {
    assert LOWER[0] == 'a' && LOWER[1] == 'b' && LOWER[2] == 'c' && LOWER[3] == 'd' && LOWER[4] == 'e'
           && LOWER[5] == 'f' && LOWER[6] == 'g';
    assert LOWER[7] == 'h' && LOWER[8] == 'i' && LOWER[9] == 'j' && LOWER[10] == 'k' && LOWER[11] == 'l'
           && LOWER[12] == 'm' && LOWER[13] == 'n';
    assert LOWER[14] == 'o' && LOWER[15] == 'p' && LOWER[16] == 'q' && LOWER[17] == 'r' && LOWER[18] == 's'
           && LOWER[19] == 't' && LOWER[20] == 'u';
    assert LOWER[21] == 'v' && LOWER[22] == 'w' && LOWER[23] == 'x' && LOWER[24] == 'y' && LOWER[25] == 'z';
  }

  /** The encoder's table holds the alphabet. */
  lemma TableIsAlphabet(k: Sextet)
    ensures |ALPHABET| == 64 && ALPHABET[k] == Symbol(k)
  {
    UpperTable(if k < 26 then k else 0);
    LowerTable(if 26 <= k < 52 then k - 26 else 0);
  }

  method Lookup(k: Sextet) returns (c: char)
    ensures c == Symbol(k)
  {
    TableIsAlphabet(k);
    c := ALPHABET[k];
  }

  // ---- One group: three bytes, four sextets ----

  /** The 24 bits of a group. */
  function Bits(a: Byte, b: Byte, c: Byte): (n: int)
    ensures 0 <= n < 0x100_0000
  {
    a * 0x1_0000 + b * 0x100 + c
  }

  function Quad(n: int): (symbols: string)
    requires 0 <= n < 0x100_0000
    ensures |symbols| == 4
  {
    [Symbol(n / 0x4_0000), Symbol(n / 0x1000 % 64), Symbol(n / 64 % 64), Symbol(n % 64)]
  }

  function Encode(data: seq<Byte>): string {
    if |data| == 0 then ""
    else if |data| == 1 then Quad(Bits(data[0], 0, 0))[..2] + "=="
    else if |data| == 2 then Quad(Bits(data[0], data[1], 0))[..3] + "="
    else Quad(Bits(data[0], data[1], data[2])) + Encode(data[3..])
  }

  method B64Encode(data: seq<Byte>) returns (out: string)
    ensures out == Encode(data)
  {
    hide Symbol, Bits, Encode;
    out := "";
    var i := 0;
    while i + 3 <= |data|
      invariant 0 <= i <= |data|
      invariant out + Encode(data[i..]) == Encode(data)
    {
      var n := Bits(data[i], data[i + 1], data[i + 2]);
      Unfold(data, i);
      var p := Lookup(n / 0x4_0000);
      var q := Lookup(n / 0x1000 % 64);
      var r := Lookup(n / 64 % 64);
      var s := Lookup(n % 64);
      out := out + [p, q, r, s];
      i := i + 3;
    }
    var rem := |data| - i;
    EncodeRemainder(data, i);
    if rem == 1 {
      var n := Bits(data[i], 0, 0);
      var p := Lookup(n / 0x4_0000);
      var q := Lookup(n / 0x1000 % 64);
      out := out + [p, q, '=', '='];
    } else if rem == 2 {
      var n := Bits(data[i], data[i + 1], 0);
      var p := Lookup(n / 0x4_0000);
      var q := Lookup(n / 0x1000 % 64);
      var r := Lookup(n / 64 % 64);
      out := out + [p, q, r, '='];
    }
  }

  lemma Unfold(data: seq<Byte>, i: nat)
    requires i + 3 <= |data|
    ensures Encode(data[i..]) == Quad(Bits(data[i], data[i + 1], data[i + 2])) + Encode(data[i + 3..])
  {
    hide Symbol, Quad;
    assert data[i..][3..] == data[i + 3..];
  }

  lemma EncodeRemainder(data: seq<Byte>, i: nat)
    requires i <= |data| < i + 3
    ensures i == |data| ==> Encode(data[i..]) == ""
    ensures i + 1 == |data| ==> Encode(data[i..]) == Quad(Bits(data[i], 0, 0))[..2] + "=="
    ensures i + 2 == |data| ==> Encode(data[i..]) == Quad(Bits(data[i], data[i + 1], 0))[..3] + "="
  {
    hide Symbol, Quad, Bits;
  }

  // ---- Decoding ----

  /** The 24 bits that four sextets spell. */
  function Join(p: Sextet, q: Sextet, r: Sextet, s: Sextet): (n: int)
    ensures 0 <= n < 0x100_0000
  {
    ((p * 64 + q) * 64 + r) * 64 + s
  }

  function Group(n: int): (bytes: seq<Byte>)
    requires 0 <= n < 0x100_0000
    ensures |bytes| == 3
  {
    [n / 0x1_0000, n / 0x100 % 256, n % 256]
  }

  /** The bytes of four symbols; padding only where it is due, and only over zero bits. */
  function DecodeQuad(p: char, q: char, r: char, s: char): Option<seq<Byte>> {
    if !InAlphabet(p) || !InAlphabet(q) then None
    else if r == '=' && s == '=' then
      var n := Join(SextetOf(p).value, SextetOf(q).value, 0, 0);
      if n % 0x1_0000 == 0 then Some(Group(n)[..1]) else None
    else if !InAlphabet(r) then None
    else if s == '=' then
      var n := Join(SextetOf(p).value, SextetOf(q).value, SextetOf(r).value, 0);
      if n % 0x100 == 0 then Some(Group(n)[..2]) else None
    else if !InAlphabet(s) then None
    else Some(Group(Join(SextetOf(p).value, SextetOf(q).value, SextetOf(r).value, SextetOf(s).value)))
  }

  function Decode(text: string): Option<seq<Byte>> {
    if text == "" then Some([])
    else if |text| < 4 then None
    else
      var group := DecodeQuad(text[0], text[1], text[2], text[3]);
      if group == None then None
      else if |group.value| < 3 then (if |text| == 4 then group else None)
      else
        var rest := Decode(text[4..]);
        if rest == None then None else Some(group.value + rest.value)
  }

  // ---- Round trips ----

  lemma JoinOfQuad(n: int)
    requires 0 <= n < 0x100_0000
    ensures n / 0x4_0000 < 64 && Join(n / 0x4_0000, n / 0x1000 % 64, n / 64 % 64, n % 64) == n
  {
    assert n / 0x4_0000 * 64 + n / 0x1000 % 64 == n / 0x1000;
    assert n / 0x1000 * 64 + n / 64 % 64 == n / 64;
  }

  lemma QuadOfJoin(p: Sextet, q: Sextet, r: Sextet, s: Sextet)
    ensures var n := Join(p, q, r, s); n / 0x4_0000 == p && n / 0x1000 % 64 == q && n / 64 % 64 == r && n % 64 == s
  {
    var n := Join(p, q, r, s);
    assert n / 64 == (p * 64 + q) * 64 + r;
    assert n / 0x1000 == p * 64 + q;
  }

  lemma BytesOfBits(a: Byte, b: Byte, c: Byte)
    ensures Bits(a, b, c) / 0x1_0000 == a
    ensures Bits(a, b, c) / 0x100 % 256 == b
    ensures Bits(a, b, c) % 256 == c
  {
    var n := Bits(a, b, c);
    assert n == (a * 256 + b) * 256 + c;
    assert n / 256 == a * 256 + b && n % 256 == c;
    assert n == a * 0x1_0000 + (b * 256 + c);
  }

  lemma GroupOfBits(a: Byte, b: Byte, c: Byte)
    ensures Group(Bits(a, b, c)) == [a, b, c]
    ensures b == c == 0 ==> Bits(a, b, c) % 0x1_0000 == 0 && Bits(a, b, c) / 64 % 64 == 0
    ensures c == 0 ==> Bits(a, b, c) % 0x100 == 0 && Bits(a, b, c) % 64 == 0
  {
    var n := Bits(a, b, c);
    BytesOfBits(a, b, c);
    assert c == 0 ==> n == (a * 1024 + b * 4) * 64;
    assert b == c == 0 ==> n == a * 0x1_0000 && n / 64 == a * 16 * 64;
  }

  lemma BitsOfGroup(n: int)
    requires 0 <= n < 0x100_0000
    ensures Bits(n / 0x1_0000, n / 0x100 % 256, n % 256) == n
    ensures n % 0x100 == 0 ==> Bits(n / 0x1_0000, n / 0x100 % 256, 0) == n
    ensures n % 0x1_0000 == 0 ==> Bits(n / 0x1_0000, 0, 0) == n
  {
  }

  lemma QuadSymbols(n: int)
    requires 0 <= n < 0x100_0000
    ensures var q := Quad(n);
            && q[0] != '=' && q[1] != '=' && q[2] != '=' && q[3] != '='
            && SextetOf(q[0]) == Some(n / 0x4_0000) && SextetOf(q[1]) == Some(n / 0x1000 % 64)
            && SextetOf(q[2]) == Some(n / 64 % 64) && SextetOf(q[3]) == Some(n % 64)
  {
    hide Symbol, SextetOf;
    SymbolDecodes(n / 0x4_0000);
    SymbolDecodes(n / 0x1000 % 64);
    SymbolDecodes(n / 64 % 64);
    SymbolDecodes(n % 64);
  }

  lemma FullQuadDecodes(a: Byte, b: Byte, c: Byte)
    ensures var q := Quad(Bits(a, b, c)); DecodeQuad(q[0], q[1], q[2], q[3]) == Some([a, b, c])
  {
    hide Quad, SextetOf, Bits, Join, Group;
    QuadSymbols(Bits(a, b, c));
    JoinOfQuad(Bits(a, b, c));
    GroupOfBits(a, b, c);
  }

  lemma TwoByteQuadDecodes(a: Byte, b: Byte)
    ensures var q := Quad(Bits(a, b, 0)); DecodeQuad(q[0], q[1], q[2], '=') == Some([a, b])
  {
    hide Quad, SextetOf, Bits, Join, Group;
    QuadSymbols(Bits(a, b, 0));
    JoinOfQuad(Bits(a, b, 0));
    GroupOfBits(a, b, 0);
    assert Group(Bits(a, b, 0))[..2] == [a, b];
  }

  lemma OneByteQuadDecodes(a: Byte)
    ensures var q := Quad(Bits(a, 0, 0)); DecodeQuad(q[0], q[1], '=', '=') == Some([a])
  {
    hide Quad, SextetOf, Bits, Join, Group;
    QuadSymbols(Bits(a, 0, 0));
    JoinOfQuad(Bits(a, 0, 0));
    GroupOfBits(a, 0, 0);
    assert Group(Bits(a, 0, 0))[..1] == [a];
  }

  lemma PadIsNoSymbol()
    ensures !InAlphabet('=') && !InAlphabet('\'')
  {
  }

  /** Decoding inverts encoding, for every byte string. */
  lemma {:induction false} DecodeEncode(data: seq<Byte>)
    ensures Decode(Encode(data)) == Some(data)
  {
    hide Quad, Bits, DecodeQuad;
    if |data| == 1 {
      OneByteQuadDecodes(data[0]);
      var q := Quad(Bits(data[0], 0, 0));
      assert Encode(data) == [q[0], q[1], '=', '='];
      assert data == [data[0]];
    } else if |data| == 2 {
      TwoByteQuadDecodes(data[0], data[1]);
      var q := Quad(Bits(data[0], data[1], 0));
      assert Encode(data) == [q[0], q[1], q[2], '='];
      assert data == [data[0], data[1]];
    } else if |data| >= 3 {
      FullQuadDecodes(data[0], data[1], data[2]);
      DecodeEncode(data[3..]);
      var q := Quad(Bits(data[0], data[1], data[2]));
      assert (q + Encode(data[3..]))[4..] == Encode(data[3..]);
      assert data == [data[0], data[1], data[2]] + data[3..];
    }
  }

  /** Distinct byte strings have distinct encodings. */
  lemma EncodeInjective(x: seq<Byte>, y: seq<Byte>)
    requires Encode(x) == Encode(y)
    ensures x == y
  {
    DecodeEncode(x);
    DecodeEncode(y);
  }

  /** A symbol's sextet, or zero for padding. */
  function SextetOrZero(c: char): Sextet
    requires c == '=' || InAlphabet(c)
  {
    if c == '=' then 0 else SextetOf(c).value
  }

  lemma QuadOfDecoded(p: char, q: char, r: char, s: char)
    requires DecodeQuad(p, q, r, s).Some?
    ensures var d := DecodeQuad(p, q, r, s).value;
            && 1 <= |d| <= 3 && Encode(d) == [p, q, r, s] && (|d| == 3 ==> Quad(Bits(d[0], d[1], d[2])) == [p, q, r, s])
  {
    hide SextetOf, Symbol, Bits, Join;
    PadIsNoSymbol();
    assert r == '=' ==> s == '=';
    var n := Join(SextetOf(p).value, SextetOf(q).value, SextetOrZero(r), SextetOrZero(s));
    QuadOfJoin(SextetOf(p).value, SextetOf(q).value, SextetOrZero(r), SextetOrZero(s));
    BitsOfGroup(n);
    SymbolOfSextet(p);
    SymbolOfSextet(q);
    if r != '=' {
      SymbolOfSextet(r);
    }
    if s != '=' {
      SymbolOfSextet(s);
    }
  }

  /**
   Every text the decoder accepts is the encoding of what it yields: encodings and byte strings correspond
   one to one.
   */
  lemma {:induction false} EncodeDecode(text: string)
    requires Decode(text).Some?
    ensures Encode(Decode(text).value) == text
  {
    hide DecodeQuad, Quad, Bits;
    if text != "" {
      QuadOfDecoded(text[0], text[1], text[2], text[3]);
      var group := DecodeQuad(text[0], text[1], text[2], text[3]).value;
      if |group| == 3 {
        EncodeDecode(text[4..]);
        var rest := Decode(text[4..]).value;
        assert (group + rest)[3..] == rest;
        assert Encode(group + rest) == Quad(Bits(group[0], group[1], group[2])) + Encode(rest);
        assert Encode(group) == Quad(Bits(group[0], group[1], group[2])) + "";
        assert text == text[..4] + text[4..];
      }
    }
  }

  /** Four characters for every three bytes begun; padding only in the last two places, and otherwise the alphabet. */
  lemma {:induction false} Shape(data: seq<Byte>)
    ensures |Encode(data)| == (|data| + 2) / 3 * 4
    ensures forall i :: 0 <= i < |Encode(data)| ==>
              if i < |Encode(data)| - (2 - (|data| + 2) % 3) then InAlphabet(Encode(data)[i])
              else Encode(data)[i] == '='
  {
    hide Bits, Quad, SextetOf;
    if |data| >= 1 {
      QuadSymbols(Bits(data[0], if |data| > 1 then data[1] else 0, if |data| > 2 then data[2] else 0));
      if |data| >= 3 {
        Shape(data[3..]);
      }
    }
  }

  /** Vectors of section 10 of RFC 4648: "f", "fo" and "foo". */
  lemma Vectors()
    ensures Encode([102]) == "Zg==" && Encode([102, 111]) == "Zm8=" && Encode([102, 111, 111]) == "Zm9v"
  {
    hide Encode;
    OneByteVector();
    TwoByteVector();
    ThreeByteVector();
  }

  lemma OneByteVector()
    ensures Encode([102]) == "Zg=="
  {
    assert Quad(Bits(102, 0, 0)) == "ZgAA";
  }

  lemma TwoByteVector()
    ensures Encode([102, 111]) == "Zm8="
  {
    assert Quad(Bits(102, 111, 0)) == "Zm8A";
  }

  lemma ThreeBytes(a: Byte, b: Byte, c: Byte)
    ensures Encode([a, b, c]) == Quad(Bits(a, b, c))
  {
    hide Quad, Bits;
    assert [a, b, c][3..] == [];
  }

  lemma ThreeByteVector()
    ensures Encode([102, 111, 111]) == "Zm9v"
  {
    hide Encode;
    ThreeBytes(102, 111, 111);
    assert Quad(Bits(102, 111, 111)) == "Zm9v";
  }
}
