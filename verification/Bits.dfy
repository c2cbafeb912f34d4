/** Bit streams, most significant bit first: the writer that appends bits to a byte
    buffer, and the reader that takes them back. */
module Bits {
  type byte = x: int | 0 <= x < 256

  function Pow2(n: nat): (r: nat)
    ensures r >= 1
  {
    if n == 0 then 1 else 2 * Pow2(n - 1)
  }

  function Shr(v: nat, n: nat): nat {
    if n == 0 then v else Shr(v, n - 1) / 2
  }

  /** The low `n` bits of `v`, most significant first. */
  function ToBits(v: nat, n: nat): (r: seq<bool>)
    ensures |r| == n
  {
    if n == 0 then [] else ToBits(v / 2, n - 1) + [v % 2 == 1]
  }

  function FromBits(s: seq<bool>): nat {
    if s == [] then 0 else 2 * FromBits(s[..|s| - 1]) + (if s[|s| - 1] then 1 else 0)
  }

  /** The value of the low `n` bits of `v`. */
  function Low(v: nat, n: nat): nat {
    if n == 0 then 0 else 2 * Low(v / 2, n - 1) + v % 2
  }

  lemma {:induction false} FromToBits(v: nat, n: nat)
    ensures FromBits(ToBits(v, n)) == Low(v, n) < Pow2(n)
    ensures v < Pow2(n) ==> Low(v, n) == v
  {
    if n != 0 {
      FromToBits(v / 2, n - 1);
      assert ToBits(v, n)[..n - 1] == ToBits(v / 2, n - 1);
    }
  }

  lemma {:induction false} ToFromBits(s: seq<bool>)
    ensures ToBits(FromBits(s), |s|) == s && FromBits(s) < Pow2(|s|)
  {
    if s != [] {
      ToFromBits(s[..|s| - 1]);
    }
  }

  /** A byte as eight bits, and a buffer as the bits of its bytes. */
  function Unpack(b: seq<byte>): (r: seq<bool>)
    ensures |r| == 8 * |b|
  {
    if b == [] then [] else ToBits(b[0], 8) + Unpack(b[1..])
  }

  /** Bit `k` of a stream, which reads as zeros after its end. */
  predicate At(s: seq<bool>, k: nat) {
    k < |s| && s[k]
  }

  /** The `n` bits at `k` as a number. */
  function Field(s: seq<bool>, k: nat, n: nat): (r: nat)
    ensures r < Pow2(n)
  {
    if n == 0 then 0 else 2 * Field(s, k, n - 1) + (if At(s, k + n - 1) then 1 else 0)
  }

  /** Bits as bytes, the last one filled up with zeros. */
  function Pack(s: seq<bool>): (r: seq<byte>)
    ensures |r| == (|s| + 7) / 8
  {
    assert Pow2(8) == 256;
    seq((|s| + 7) / 8, j requires 0 <= j => Field(s, 8 * j, 8))
  }

  lemma {:induction false} FieldBits(s: seq<bool>, k: nat, n: nat, i: nat)
    requires i < n
    ensures ToBits(Field(s, k, n), n)[i] == At(s, k + i)
  {
    if i < n - 1 {
      FieldBits(s, k, n - 1, i);
    }
  }

  /** Reading back what was written gives the bits, followed by padding. */
  lemma UnpackPack(s: seq<bool>)
    ensures s <= Unpack(Pack(s))
    ensures forall i :: 0 <= i < |Unpack(Pack(s))| ==> Unpack(Pack(s))[i] == At(s, i)
  {
    var u := Unpack(Pack(s));
    forall i | 0 <= i < |u| ensures u[i] == At(s, i) {
      UnpackAt(Pack(s), i / 8);
      assert u[i] == u[8 * (i / 8)..8 * (i / 8) + 8][i % 8];
      FieldBits(s, 8 * (i / 8), 8, i % 8);
    }
    assert u[..|s|] == s;
  }

  lemma {:induction false} UnpackAt(b: seq<byte>, i: nat)
    requires i < |b|
    ensures Unpack(b)[8 * i..8 * i + 8] == ToBits(b[i], 8)
  {
    if i != 0 {
      UnpackAt(b[1..], i - 1);
      assert Unpack(b)[8 * i..8 * i + 8] == Unpack(b[1..])[8 * (i - 1)..8 * (i - 1) + 8];
    }
  }

  // ---------------------------------------------------------------------- reading

  lemma {:induction false} FieldIsFromBits(s: seq<bool>, k: nat, n: nat)
    requires k + n <= |s|
    ensures Field(s, k, n) == FromBits(s[k..k + n])
  {
    if n != 0 {
      FieldIsFromBits(s, k, n - 1);
      assert s[k..k + n][..n - 1] == s[k..k + n - 1];
    }
  }

  /** Reading a field that was written at `k` gives its low `n` bits. */
  lemma FieldWritten(s: seq<bool>, k: nat, v: nat, n: nat)
    requires k + n <= |s| && s[k..k + n] == ToBits(v, n)
    ensures Field(s, k, n) == Low(v, n)
    ensures v < Pow2(n) ==> Field(s, k, n) == v
  {
    FieldIsFromBits(s, k, n);
    FromToBits(v, n);
  }

  lemma {:induction false} FieldBeyondEnd(s: seq<bool>, k: nat, n: nat)
    requires forall i :: k <= i < |s| ==> !s[i]
    ensures Field(s, k, n) == 0
  {
    if n != 0 {
      FieldBeyondEnd(s, k, n - 1);
    }
  }

  // ------------------------------------------------------------------------- code

  /** Sets bit `i` of a byte, if asked to. */
  function SetBit(b: nat, i: nat, on: bool): nat {
    if on && Shr(b, i) % 2 == 0 then b + Pow2(i) else b
  }

  function Repeat(b: bool, n: nat): (r: seq<bool>)
    ensures |r| == n && forall i :: 0 <= i < n ==> r[i] == b
  {
    seq(n, i => b)
  }

  lemma {:induction false} ZeroBits(n: nat)
    ensures ToBits(0, n) == Repeat(false, n)
  {
    if n != 0 {
      ZeroBits(n - 1);
    }
  }

  class Writer {
    var buf: seq<byte>
    var left: nat  // bits left in the last byte
    ghost var content: seq<bool>

    ghost predicate Valid()
      reads this
    {
      left < 8 && |content| == 8 * |buf| - left && buf == Pack(content)
    }

    constructor ()
      ensures Valid() && content == []
    {
      buf, left, content := [], 0, [];
    }

    method WriteBit(b: bool)
      requires Valid()
      modifies this
      ensures Valid() && content == old(content) + [b]
    {
      if left == 0 {
        buf := buf + [0];
        left := 7;
      } else {
        left := left - 1;
      }
      PackOneMore(content, b, |buf| - 1, 7 - left);
      var last := |buf| - 1;
      buf := buf[last := SetBit(buf[last], left, b)];
      content := content + [b];
    }

    /** Writes the low `n` bits of `v`. */
    method WriteBits(v: nat, n: nat)
      requires Valid()
      modifies this
      ensures Valid() && content == old(content) + ToBits(v, n)
    {
      var i := n;
      assert content == old(content) + ToBits(Shr(v, n), 0);
      while i != 0
        invariant 0 <= i <= n && Valid()
        invariant content == old(content) + ToBits(Shr(v, i), n - i)
      {
        i := i - 1;
        assert Shr(v, i + 1) == Shr(v, i) / 2;
        WriteBit(Shr(v, i) % 2 == 1);
      }
    }

    method WriteAllBits(b: bool, n: nat)
      requires Valid()
      modifies this
      ensures Valid() && content == old(content) + Repeat(b, n)
    {
      for i := 0 to n
        invariant Valid() && content == old(content) + Repeat(b, i)
      {
        WriteBit(b);
      }
    }
  }

  /** One more bit at the end of a stream. */
  lemma {:induction false} FieldOneMore(s: seq<bool>, b: bool, k: nat, n: nat)
    ensures k + n <= |s| ==> Field(s + [b], k, n) == Field(s, k, n)
    ensures k <= |s| < k + n ==>
              Field(s + [b], k, n) == Field(s, k, n) + (if b then Pow2(k + n - 1 - |s|) else 0)
  {
    if n != 0 {
      FieldOneMore(s, b, k, n - 1);
    }
  }

  /** What one more bit does to the byte it goes to. */
  lemma LastByte(s: seq<bool>, b: bool, n: nat, r: nat)
    requires r < 8 && |s| == 8 * n + r
    ensures SetBit(Field(s, 8 * n, 8), 7 - r, b) == Field(s + [b], 8 * n, 8)
  {
    FieldBits(s, 8 * n, 8, r);
    BitOf(Field(s, 8 * n, 8), 8, r);
    FieldOneMore(s, b, 8 * n, 8);
  }

  /** What one more bit, number `r` of byte `n`, does to the buffer. */
  lemma PackOneMore(s: seq<bool>, b: bool, n: nat, r: nat)
    requires r < 8 && |s| == 8 * n + r
    ensures var was := if r == 0 then Pack(s) + [0] else Pack(s);
            && |was| == n + 1
            && SetBit(was[n], 7 - r, b) < 256
            && Pack(s + [b]) == was[n := SetBit(was[n], 7 - r, b)]
  {
    var was := if r == 0 then Pack(s) + [0] else Pack(s);
    assert |was| == n + 1;
    assert Pow2(8) == 256;
    if r == 0 {
      FieldBeyondEnd(s, 8 * n, 8);
    }
    assert was[n] == Field(s, 8 * n, 8);
    LastByte(s, b, n, r);
    forall j | 0 <= j < n ensures Pack(s + [b])[j] == was[j] {
      FieldOneMore(s, b, 8 * j, 8);
    }
    assert Pack(s + [b]) == was[n := SetBit(was[n], 7 - r, b)];
  }

  class Reader {
    const buf: seq<byte>
    var cur: byte   // current byte
    var left: nat   // bits left in the current byte
    var pos: nat    // next byte of the buffer
    var eof: bool
    ghost var begun: nat  // bytes begun
    ghost var k: nat  // bits read

    ghost predicate Valid()
      reads this
    {
      && left < 8 && k == 8 * begun - left
      && pos == (if begun <= |buf| then begun else |buf|)
      && (left > 0 ==> cur == if begun <= |buf| then buf[begun - 1] else 0)
      && (eof <==> begun > |buf|)
    }

    constructor (b: seq<byte>)
      ensures Valid() && buf == b && k == 0 && !eof
    {
      buf, cur, left, pos, eof, begun, k := b, 0, 0, 0, false, 0, 0;
    }

    /** The next bit; after the end of the buffer, zero. */
    method ReadBit() returns (b: bool)
      requires Valid()
      modifies this
      ensures Valid() && k == old(k) + 1
      ensures b == At(Unpack(buf), old(k))
    {
      if left == 0 {
        if pos >= |buf| {
          eof := true;
          cur := 0;
        } else {
          cur := buf[pos];
          pos := pos + 1;
        }
        left := 7;
        begun := begun + 1;
      } else {
        left := left - 1;
      }
      b := Shr(cur, left) % 2 == 1;
      StreamBit(buf, begun - 1, 7 - left);
      k := k + 1;
    }

    method ReadBits(n: nat) returns (v: nat)
      requires Valid()
      modifies this
      ensures Valid() && k == old(k) + n
      ensures v == Field(Unpack(buf), old(k), n)
    {
      v := 0;
      for i := 0 to n
        invariant Valid() && k == old(k) + i && v == Field(Unpack(buf), old(k), i)
      {
        var b := ReadBit();
        v := 2 * v + if b then 1 else 0;
      }
    }
  }

  lemma {:induction false} ShrZero(n: nat)
    ensures Shr(0, n) == 0
  {
    if n != 0 {
      ShrZero(n - 1);
    }
  }

  lemma {:induction false} ShrHalf(v: nat, n: nat)
    ensures Shr(v / 2, n) == Shr(v, n + 1)
  {
    if n != 0 {
      ShrHalf(v, n - 1);
    }
  }

  lemma {:induction false} BitOf(v: nat, n: nat, i: nat)
    requires i < n
    ensures ToBits(v, n)[i] == (Shr(v, n - 1 - i) % 2 == 1)
  {
    if i < n - 1 {
      BitOf(v / 2, n - 1, i);
      ShrHalf(v, n - 2 - i);
    }
  }

  /** Bit `i` of byte `j` of a buffer, as the reader computes it. */
  lemma StreamBit(b: seq<byte>, j: nat, i: nat)
    requires i < 8
    ensures At(Unpack(b), 8 * j + i) == (Shr(if j < |b| then b[j] else 0, 7 - i) % 2 == 1)
  {
    if j < |b| {
      UnpackAt(b, j);
      assert Unpack(b)[8 * j + i] == Unpack(b)[8 * j..8 * j + 8][i];
      BitOf(b[j], 8, i);
    } else {
      ShrZero(7 - i);
    }
  }
}
