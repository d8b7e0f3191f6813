/**
 * The integers of the bytecode interpreter: C's 32-bit int, the bytes of
 * the instruction buffer, and the operands stored in it low-order byte
 * first, unsigned for one and two bytes and two's complement for four.
 */
module BciCodec {

  newtype byte = x: int | 0 <= x < 256

  const INT32_MIN: int := -0x8000_0000
  const INT32_MAX: int := 0x7FFF_FFFF

  /** A value of C's 32-bit int. */
  predicate IsInt32(x: int)
  {
    INT32_MIN <= x <= INT32_MAX
  }

  /** C's 32-bit int. */
  newtype int32 = x: int | -0x8000_0000 <= x <= 0x7FFF_FFFF

  function Pow256(n: nat): nat
  {
    if n == 0 then 1 else 256 * Pow256(n - 1)
  }

  /** The unsigned value of bytes stored low-order byte first. */
  function LittleEndian(b: seq<byte>): (v: nat)
    ensures v < Pow256(|b|)
  {
    if b == [] then 0
    else
      var n := |b| - 1;
      var low := LittleEndian(b[..n]);
      NextDigit(low, b[n] as int, Pow256(n));
      low + (b[n] as int) * Pow256(n)
  }

  /** Appending a byte adds it as the new highest digit. */
  lemma LittleEndianSnoc(b: seq<byte>, x: byte)
    ensures LittleEndian(b + [x]) == LittleEndian(b) + x as int * Pow256(|b|)
  {
    assert (b + [x])[..|b|] == b;
  }

  /** One more base-256 digit above a value below p stays below 256 * p. */
  lemma NextDigit(low: int, digit: int, p: int)
    requires 0 <= low < p && 0 <= digit < 256
    ensures 0 <= low + digit * p < 256 * p
  {
    assert digit * p <= 255 * p;
  }

  /** The n bytes, low-order first, that store v. */
  function Encode(v: nat, n: nat): (b: seq<byte>)
    ensures |b| == n
  {
    if n == 0 then [] else [(v % 256) as byte] + Encode(v / 256, n - 1)
  }

  /** Putting a byte in front multiplies the value of the rest by 256. */
  lemma {:induction false} LittleEndianCons(x: byte, rest: seq<byte>)
    ensures LittleEndian([x] + rest) == x as int + 256 * LittleEndian(rest)
    decreases |rest|
  {
    if rest != [] {
      var n := |rest| - 1;
      var init := rest[..n];
      var d := rest[n] as int;
      assert ([x] + rest)[..n + 1] == [x] + init;
      assert LittleEndian([x] + rest) == LittleEndian([x] + init) + d * Pow256(n + 1);
      assert LittleEndian(rest) == LittleEndian(init) + d * Pow256(n);
      LittleEndianCons(x, init);
      ShiftDigit(x as int, LittleEndian(init), d, Pow256(n));
    }
  }

  /** The arithmetic step of LittleEndianCons. */
  lemma ShiftDigit(x: int, low: int, d: int, p: int)
    ensures x + 256 * low + d * (256 * p) == x + 256 * (low + d * p)
  {
  }

  /** Decoding the encoding of a value that fits in n bytes gives the value back. */
  lemma {:induction false} DecodeEncode(v: nat, n: nat)
    requires v < Pow256(n)
    ensures LittleEndian(Encode(v, n)) == v
  {
    if n > 0 {
      DecodeEncode(v / 256, n - 1);
      LittleEndianCons((v % 256) as byte, Encode(v / 256, n - 1));
    }
  }

  /** Encoding the decoded value of some bytes gives the bytes back. */
  lemma {:induction false} EncodeDecode(b: seq<byte>)
    ensures Encode(LittleEndian(b), |b|) == b
  {
    if b != [] {
      var rest := b[1..];
      assert b == [b[0]] + rest;
      LittleEndianCons(b[0], rest);
      DigitSplit(b[0] as int, LittleEndian(rest));
      EncodeDecode(rest);
    }
  }

  /** The low digit and the rest of a base-256 number. */
  lemma DigitSplit(d: int, q: int)
    requires 0 <= d < 256
    ensures (d + 256 * q) % 256 == d && (d + 256 * q) / 256 == q
  {
  }

  /** A 32-bit pattern read as a two's complement int. */
  function Signed32(u: int): int
  {
    if u >= 0x8000_0000 then u - 0x1_0000_0000 else u
  }

  /** The 32-bit pattern that stores a C int. */
  function Unsigned32(x: int): int
  {
    if x < 0 then x + 0x1_0000_0000 else x
  }

  /** Every 32-bit pattern is a C int, and every C int is stored by exactly one pattern. */
  lemma TwosComplement(u: int, x: int)
    ensures 0 <= u < 0x1_0000_0000 ==> IsInt32(Signed32(u)) && Unsigned32(Signed32(u)) == u
    ensures IsInt32(x) ==> 0 <= Unsigned32(x) < 0x1_0000_0000 && Signed32(Unsigned32(x)) == x
  {
  }
}
