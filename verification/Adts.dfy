/** ADTS frames (Annex 1.A of ISO/IEC 14496-3): a seven-byte header whose 13-bit
    frame length is spread over three bytes, followed by the payload. */
module Adts {
  import opened Bits
  import opened AacConfig

  const HEADER_SIZE := 7
  const AU_TIME := 1024

  type uint16 = x: int | 0 <= x < 65536

  predicate IsADTS(b: seq<byte>) {
    |b| >= HEADER_SIZE && b[0] == 0xFF && b[1] / 16 == 0xF && (b[1] / 2) % 4 == 0
  }

  predicate HasCRC(b: seq<byte>)
    requires |b| >= 2
  {
    b[1] % 2 == 0
  }

  function HeaderLen(b: seq<byte>): nat
    requires |b| >= 2
  {
    if HasCRC(b) then 9 else HEADER_SIZE
  }

  function ReadSize(b: seq<byte>): (r: uint16)
    requires |b| >= 6
    ensures r < 8192
  {
    var high: nat, middle: nat, low: nat := b[3] % 4, b[4], b[5] / 32;
    high * 2048 + middle * 8 + low
  }

  /** Bitwise or of two bytes. */
  function Or(a: nat, b: nat): (r: nat)
    ensures r >= a && r >= b
  {
    if a == 0 && b == 0 then 0
    else 2 * Or(a / 2, b / 2) + (if a % 2 == 1 || b % 2 == 1 then 1 else 0)
  }

  lemma {:induction false} OrBelow(a: nat, b: nat, n: nat)
    requires a < Pow2(n) && b < Pow2(n)
    ensures Or(a, b) < Pow2(n)
  {
    if n != 0 {
      OrBelow(a / 2, b / 2, n - 1);
    }
  }

  /** Or with an even number on the left. */
  lemma OrStep(a: nat, b: nat)
    ensures Or(2 * a, b) == 2 * Or(a, b / 2) + b % 2
  {
  }

  /** Without common bits, or is addition. */
  lemma {:induction false} OrDisjoint(a: nat, b: nat, n: nat)
    requires b < Pow2(n)
    ensures Or(a * Pow2(n), b) == a * Pow2(n) + b
  {
    if n == 0 {
      OrZero(a);
      assert a * Pow2(n) == a;
    } else {
      var p := Pow2(n - 1);
      assert Pow2(n) == 2 * p;
      DoubleProduct(a, p);
      OrDisjoint(a, b / 2, n - 1);
      OrStep(a * p, b);
    }
  }

  lemma DoubleProduct(a: nat, p: nat)
    ensures a * (2 * p) == 2 * (a * p)
  {
  }

  lemma {:induction false} OrZero(a: nat)
    ensures Or(a, 0) == a
  {
    if a != 0 {
      OrZero(a / 2);
    }
  }

  /** The header with a frame length or-ed in. */
  function SizeWritten(b: seq<byte>, size: uint16): (r: seq<byte>)
    requires |b| >= 6
    ensures |r| == |b|
  {
    SmallPowers();
    OrBelow(b[3], size / 2048, 8);
    OrBelow(b[5], (size * 32) % 256, 8);
    b[3 := Or(b[3], size / 2048)][4 := (size / 8) % 256][5 := Or(b[5], (size * 32) % 256)]
  }

  /** Writes the frame length into a header in place. */
  method WriteSize(b: array<byte>, size: uint16)
    requires b.Length >= 6
    modifies b
    ensures b[..] == SizeWritten(old(b[..]), size)
  {
    SmallPowers();
    OrBelow(b[3], size / 2048, 8);
    OrBelow(b[5], (size * 32) % 256, 8);
    b[3] := Or(b[3], size / 2048);
    b[4] := (size / 8) % 256;
    b[5] := Or(b[5], (size * 32) % 256);
  }

  /** A header whose frame length is still zero. */
  predicate Unsized(b: seq<byte>) {
    |b| >= HEADER_SIZE && b[3] % 4 == 0 && b[4] == 0 && b[5] < 32
  }

  lemma OrHigh(a: nat, x: nat)
    requires a % 4 == 0 && x < 4
    ensures Or(a, x) == a + x
  {
    SmallPowers();
    OrDisjoint(a / 4, x, 2);
  }

  lemma OrLow(a: nat, y: nat)
    requires a < 32
    ensures Or(a, y * 32) == a + y * 32
  {
    SmallPowers();
    OrCommutes(a, y * 32);
    OrDisjoint(y, a, 5);
  }

  lemma LowByte(size: nat)
    ensures (size * 32) % 256 == (size % 8) * 32
  {
    var q, r := size / 8, size % 8;
    assert size * 32 == 256 * q + 32 * r;
  }

  lemma SizeBytes(b: seq<byte>, size: uint16)
    requires Unsized(b) && size < 8192
    ensures var w := SizeWritten(b, size);
            w[3] == b[3] + size / 2048 && w[4] == size / 8 % 256 && w[5] == b[5] + (size % 8) * 32
  {
    var w := SizeWritten(b, size);
    LowByte(size);
    assert w[5] == Or(b[5], (size % 8) * 32);
    OrLow(b[5], size % 8);
    assert w[3] == Or(b[3], size / 2048);
    OrHigh(b[3], size / 2048);
  }

  lemma {:induction false} OrCommutes(a: nat, b: nat)
    ensures Or(a, b) == Or(b, a)
  {
    if a != 0 || b != 0 {
      OrCommutes(a / 2, b / 2);
    }
  }

  /** The three parts of a size, put beside the other bits of their bytes. */
  lemma PartsReadBack(x: nat, y: nat, size: nat)
    requires x % 4 == 0 && y < 32 && size < 8192
    ensures ((x + size / 2048) % 4) * 2048 + (size / 8 % 256) * 8 + (y + (size % 8) * 32) / 32 == size
    ensures (x + size / 2048) / 4 == x / 4 && (y + (size % 8) * 32) % 32 == y
  {
    var top, mid, low := size / 2048, size / 8 % 256, size % 8;
    assert size / 8 == 256 * top + mid;
    assert size == 2048 * top + 8 * mid + low;
    assert (x + top) % 4 == top;
  }

  /** Sizes below 8192, and only those, are read back; no other field changes. */
  lemma SizeRoundTrip(b: seq<byte>, size: uint16)
    requires Unsized(b)
    ensures ReadSize(SizeWritten(b, size)) == size <==> size < 8192
    ensures size < 8192 ==>
              var w := SizeWritten(b, size);
              && w[..3] == b[..3] && w[6..] == b[6..]
              && w[3] / 4 == b[3] / 4 && w[5] % 32 == b[5] % 32
              && IsADTS(w) == IsADTS(b) && HasCRC(w) == HasCRC(b)
  {
    if size < 8192 {
      var w := SizeWritten(b, size);
      SizeBytes(b, size);
      PartsReadBack(b[3], b[5], size);
      assert ReadSize(w) == size;
      assert w[0] == b[0] && w[1] == b[1] && w[2] == b[2];
    }
  }
}
