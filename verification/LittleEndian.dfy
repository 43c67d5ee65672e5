/** Bytes and little-endian numbers. */
module LittleEndian {
  type byte = x: int | 0 <= x < 256
  type u32 = x: int | 0 <= x < 0x1_0000_0000

  function Value(d: seq<byte>): nat {
    if d == [] then 0 else d[0] as int + 0x100 * Value(d[1..])
  }

  function Digits(n: nat, width: nat): (d: seq<byte>)
    ensures |d| == width
  {
    if width == 0 then [] else [n % 0x100] + Digits(n / 0x100, width - 1)
  }

  function Bound(width: nat): nat {
    if width == 0 then 1 else 0x100 * Bound(width - 1)
  }

  lemma {:induction false} DigitsValue(n: nat, width: nat)
    requires n < Bound(width)
    ensures Value(Digits(n, width)) == n
  {
    if width > 0 {
      DigitsValue(n / 0x100, width - 1);
      assert Digits(n, width)[1..] == Digits(n / 0x100, width - 1);
    }
  }

  lemma {:induction false} ValueDigits(d: seq<byte>)
    ensures Digits(Value(d), |d|) == d && Value(d) < Bound(|d|)
  {
    if d != [] {
      var rest := d[1..];
      ValueDigits(rest);
      assert Value(d) % 0x100 == d[0] && Value(d) / 0x100 == Value(rest);
      assert d == [d[0]] + rest;
    }
  }

  lemma Bounds()
    ensures Bound(4) == 0x1_0000_0000 && Bound(8) == 0x1_0000_0000_0000_0000
  {
    assert Bound(2) == 0x1_0000;
    assert Bound(4) == 0x1_0000_0000;
    assert Bound(6) == 0x1_0000_0000_0000;
  }

  function U32(d: seq<byte>, o: nat): nat
    requires o + 4 <= |d|
  {
    Value(d[o..o + 4])
  }

  function U64(d: seq<byte>, o: nat): nat
    requires o + 8 <= |d|
  {
    Value(d[o..o + 8])
  }

  lemma SliceOfSlice(d: seq<byte>, e: seq<byte>, off: nat, i: nat, j: nat)
    requires i <= j <= |e| && off + |e| <= |d| && d[off..off + |e|] == e
    ensures d[off + i..off + j] == e[i..j]
  {
    forall k | i <= k < j ensures d[off + k] == e[k] {
      assert d[off..off + |e|][k] == d[off + k];
    }
  }
}
