/** Bytes as eight-bit vectors, and the numbers they stand for, one hexadecimal digit at a time. */
module Octets {

  function Nibble(k: nat): bv8
    requires k < 16
  {
    match k
    case 0 => 0
    case 1 => 1
    case 2 => 2
    case 3 => 3
    case 4 => 4
    case 5 => 5
    case 6 => 6
    case 7 => 7
    case 8 => 8
    case 9 => 9
    case 10 => 10
    case 11 => 11
    case 12 => 12
    case 13 => 13
    case 14 => 14
    case _ => 15
  }

  function NibbleValue(b: bv8): (k: nat)
    ensures k < 16
  {
    match b
    case 0 => 0
    case 1 => 1
    case 2 => 2
    case 3 => 3
    case 4 => 4
    case 5 => 5
    case 6 => 6
    case 7 => 7
    case 8 => 8
    case 9 => 9
    case 10 => 10
    case 11 => 11
    case 12 => 12
    case 13 => 13
    case 14 => 14
    case _ => 15
  }

  /** The byte that stands for a number. */
  function ByteOf(n: nat): bv8
    requires n < 256
  {
    (Nibble(n / 16) << 4) | Nibble(n % 16)
  }

  /** The number a byte stands for. */
  function ValueOf(b: bv8): (n: nat)
    ensures n < 256
  {
    NibbleValue(b >> 4) * 16 + NibbleValue(b & 0x0F)
  }

  lemma NibbleRoundTrip(k: nat)
    requires k < 16
    ensures NibbleValue(Nibble(k)) == k && Nibble(k) <= 15
  {
  }

  lemma Split(x: bv8, y: bv8)
    requires x <= 15 && y <= 15
    ensures ((x << 4) | y) >> 4 == x && ((x << 4) | y) & 0x0F == y
  {
  }

  lemma ByteRoundTrip(n: nat)
    requires n < 256
    ensures ValueOf(ByteOf(n)) == n
  {
    hide Nibble, NibbleValue;
    NibbleRoundTrip(n / 16);
    NibbleRoundTrip(n % 16);
    Split(Nibble(n / 16), Nibble(n % 16));
  }

  /** Numbers below 126 are the bytes that fit a short WebSocket length. */
  lemma BelowSpecialLengths(n: nat)
    requires n < 126
    ensures ByteOf(n) <= 127 && ByteOf(n) != 126 && ByteOf(n) != 127
  {
    ByteRoundTrip(n);
    assert ValueOf(126) == 126 && ValueOf(127) == 127;
    HighNibble(n / 16);
    LowSeven(Nibble(n / 16), Nibble(n % 16));
  }

  lemma HighNibble(k: nat)
    requires k < 8
    ensures Nibble(k) <= 7
  {
  }

  lemma LowSeven(x: bv8, y: bv8)
    requires x <= 7 && y <= 15
    ensures (x << 4) | y <= 127
  {
  }

  /** A byte stands for its own value. */
  lemma ValueIsNumber(b: bv8)
    ensures ValueOf(b) == b as nat
  {
  }
}
