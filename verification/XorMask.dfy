/**
 Masking of WebSocket payloads (section 5.3 of RFC 6455).

 The masker turns the payload and the repeated key into two big integers, applies one
 exclusive or and writes the result back as bytes.
 */
module XorMask {
  import opened ByteStrings
  import opened Numerals

  function Pow2(k: nat): (p: nat)
    ensures p > 0
  {
    if k == 0 then 1 else 2 * Pow2(k - 1)
  }

  /** The exclusive or of the last `k` bits of two numbers. */
  function XorBits(a: nat, b: nat, k: nat): (x: nat)
    ensures x < Pow2(k)
  {
    if k == 0 then 0
    else 2 * XorBits(a / 2, b / 2, k - 1) + if a % 2 == b % 2 then 0 else 1
  }

  function XorByte(a: byte, b: byte): byte {
    assert Pow2(8) == 256;
    XorBits(a, b, 8)
  }

  /** The exclusive or of two natural numbers of any size, bit by bit. */
  function Xor(a: nat, b: nat): nat {
    if a == 0 && b == 0 then 0
    else 2 * Xor(a / 2, b / 2) + if a % 2 == b % 2 then 0 else 1
  }

  datatype ByteOrder = Big | Little

  /** The number a little-endian byte string stands for. */
  function FromLittle(b: Bytes): nat {
    if b == [] then 0 else 256 * FromLittle(b[1..]) + b[0]
  }

  function ToLittle(n: nat, count: nat): (b: Bytes)
    ensures |b| == count
  {
    if count == 0 then [] else [n % 256] + ToLittle(n / 256, count - 1)
  }

  function Repeat(key: Bytes, times: nat): Bytes {
    if times == 0 then [] else key + Repeat(key, times - 1)
  }

  /** As many bytes of the repeated key as there are bytes of data. */
  function Pad(key: Bytes, count: nat): (pad: Bytes)
    requires |key| == 4
  {
    Repeat(key, count / 4) + key[..count % 4]
  }

  /** The big-integer masker, under either byte order of the machine. */
  function Mask(key: Bytes, data: Bytes, order: ByteOrder): Bytes
    requires |key| == 4
  {
    var pad := Pad(key, |data|);
    match order
    case Big => ToBytes(Xor(FromBytes(data), FromBytes(pad)), |data|)
    case Little => ToLittle(Xor(FromLittle(data), FromLittle(pad)), |data|)
  }

  /** What the standard asks for: octet i of the result is octet i of the data, exclusive-ored
      with octet i mod 4 of the key. */
  function BytewiseMask(key: Bytes, data: Bytes): Bytes
    requires |key| == 4
  {
    seq(|data|, i requires 0 <= i < |data| => XorByte(data[i], key[i % 4]))
  }

  // ----- exclusive or, byte by byte

  lemma {:induction false} XorBitsTwice(a: nat, b: nat, k: nat)
    requires a < Pow2(k)
    ensures XorBits(XorBits(a, b, k), b, k) == a
  {
    if k == 0 {
    } else {
      XorBitsTwice(a / 2, b / 2, k - 1);
      var x := XorBits(a, b, k);
      assert x / 2 == XorBits(a / 2, b / 2, k - 1);
    }
  }

  lemma XorByteTwice(a: byte, b: byte)
    ensures XorByte(XorByte(a, b), b) == a
  {
    assert Pow2(8) == 256;
    XorBitsTwice(a, b, 8);
  }

  lemma XorTurn(a: nat, b: nat)
    ensures Xor(a, b) == 2 * Xor(a / 2, b / 2) + if a % 2 == b % 2 then 0 else 1
  {
  }

  /** One more low bit on each side. */
  lemma XorOneMoreBit(a: nat, n: nat, x: nat, b: nat, m: nat, y: nat, k: nat, high: nat)
    requires a == 2 * n + x && b == 2 * m + y
    requires Xor(n + x / 2, m + y / 2) == high + XorBits(x / 2, y / 2, k)
    ensures Xor(a, b) == 2 * high + XorBits(x, y, k + 1)
  {
    XorTurn(a, b);
    assert a / 2 == n + x / 2 && a % 2 == x % 2;
    assert b / 2 == m + y / 2 && b % 2 == y % 2;
  }

  /** A number with `k` zero bits behind it. */
  function Shifted(n: nat, k: nat): nat {
    if k == 0 then n else 2 * Shifted(n, k - 1)
  }

  lemma HalfIsBelow(x: nat, k: nat)
    requires k > 0 && x < Pow2(k)
    ensures x / 2 < Pow2(k - 1)
  {
  }

  /** The low bits of two integers do not meet the others. */
  lemma {:induction false} XorSplits(a: nat, h: nat, x: nat, b: nat, g: nat, y: nat, k: nat)
    requires a == Shifted(h, k) + x && b == Shifted(g, k) + y && x < Pow2(k) && y < Pow2(k)
    ensures Xor(a, b) == Shifted(Xor(h, g), k) + XorBits(x, y, k)
    decreases k
  {
    if k == 0 {
      assert a == h && b == g;
    } else {
      HalfIsBelow(x, k);
      HalfIsBelow(y, k);
      var n, m := Shifted(h, k - 1), Shifted(g, k - 1);
      XorSplits(n + x / 2, h, x / 2, m + y / 2, g, y / 2, k - 1);
      XorOneMoreBit(a, n, x, b, m, y, k - 1, Shifted(Xor(h, g), k - 1));
    }
  }

  lemma ShiftedByEight(n: nat)
    ensures Shifted(n, 8) == 256 * n
  {
    assert Shifted(n, 1) == 2 * n;
    assert Shifted(n, 2) == 4 * n;
    assert Shifted(n, 3) == 8 * n;
    assert Shifted(n, 4) == 16 * n;
    assert Shifted(n, 5) == 32 * n;
    assert Shifted(n, 6) == 64 * n;
    assert Shifted(n, 7) == 128 * n;
  }

  lemma LowDigit(digit: byte, n: nat)
    ensures (256 * n + digit) % 256 == digit && (256 * n + digit) / 256 == n
  {
  }

  /** The last digits do not meet the others. */
  lemma XorOfDigits(n1: nat, high1: nat, x: byte, n2: nat, high2: nat, y: byte)
    requires n1 == 256 * high1 + x && n2 == 256 * high2 + y
    ensures Xor(n1, n2) == 256 * Xor(high1, high2) + XorByte(x, y)
  {
    assert Pow2(8) == 256;
    ShiftedByEight(high1);
    ShiftedByEight(high2);
    ShiftedByEight(Xor(high1, high2));
    XorSplits(n1, high1, x, n2, high2, y, 8);
  }

  // ----- the masker is bytewise

  function XorBytes(a: Bytes, b: Bytes): Bytes
    requires |a| == |b|
  {
    seq(|a|, i requires 0 <= i < |a| => XorByte(a[i], b[i]))
  }

  lemma XorBytesFront(a: Bytes, b: Bytes, n: nat)
    requires |a| == |b| == n + 1
    ensures XorBytes(a, b)[..n] == XorBytes(a[..n], b[..n])
  {
  }

  lemma {:induction false} XorOfBig(a: Bytes, b: Bytes)
    requires |a| == |b|
    ensures Xor(FromBytes(a), FromBytes(b)) == FromBytes(XorBytes(a, b))
  {
    if a == [] {
    } else {
      var n := |a| - 1;
      XorOfBig(a[..n], b[..n]);
      XorBytesFront(a, b, n);
      XorOfDigits(FromBytes(a), FromBytes(a[..n]), a[n], FromBytes(b), FromBytes(b[..n]), b[n]);
    }
  }

  lemma XorBytesTail(a: Bytes, b: Bytes)
    requires |a| == |b| > 0
    ensures XorBytes(a, b)[1..] == XorBytes(a[1..], b[1..])
  {
  }

  lemma {:induction false} XorOfLittle(a: Bytes, b: Bytes)
    requires |a| == |b|
    ensures Xor(FromLittle(a), FromLittle(b)) == FromLittle(XorBytes(a, b))
  {
    if a == [] {
    } else {
      XorOfLittle(a[1..], b[1..]);
      XorBytesTail(a, b);
      XorOfDigits(FromLittle(a), FromLittle(a[1..]), a[0], FromLittle(b), FromLittle(b[1..]), b[0]);
    }
  }

  lemma {:induction false} ToFromLittle(b: Bytes)
    ensures ToLittle(FromLittle(b), |b|) == b
  {
    if b == [] {
    } else {
      ToFromLittle(b[1..]);
      LowDigit(b[0], FromLittle(b[1..]));
    }
  }

  lemma {:induction false} RepeatAt(key: Bytes, times: nat, i: nat)
    requires |key| == 4 && i < 4 * times
    ensures |Repeat(key, times)| == 4 * times
    ensures Repeat(key, times)[i] == key[i % 4]
  {
    if times == 1 {
      assert Repeat(key, 0) == [];
    } else {
      RepeatAt(key, times - 1, if i >= 4 then i - 4 else 0);
    }
  }

  lemma PadAt(key: Bytes, count: nat, i: nat)
    requires |key| == 4 && i < count
    ensures |Pad(key, count)| == count && Pad(key, count)[i] == key[i % 4]
  {
    if count / 4 > 0 {
      RepeatAt(key, count / 4, if i < 4 * (count / 4) then i else 0);
    }
  }

  lemma PadIsBytewise(key: Bytes, data: Bytes)
    requires |key| == 4
    ensures |Pad(key, |data|)| == |data|
    ensures XorBytes(data, Pad(key, |data|)) == BytewiseMask(key, data)
  {
    if data != [] {
      PadAt(key, |data|, 0);
      forall i | 0 <= i < |data|
        ensures XorBytes(data, Pad(key, |data|))[i] == BytewiseMask(key, data)[i]
      {
        PadAt(key, |data|, i);
      }
    }
  }

  /** For data of any length and on either kind of machine, one exclusive or of two big
      integers does what the standard says byte by byte. */
  lemma MaskIsBytewise(key: Bytes, data: Bytes, order: ByteOrder)
    requires |key| == 4
    ensures Mask(key, data, order) == BytewiseMask(key, data)
  {
    PadIsBytewise(key, data);
    var pad := Pad(key, |data|);
    match order
    case Big =>
      XorOfBig(data, pad);
      ToFromBytes(XorBytes(data, pad));
    case Little =>
      XorOfLittle(data, pad);
      ToFromLittle(XorBytes(data, pad));
  }

  /** Masking again with the same key restores the data, even on a machine of the other byte
      order. */
  lemma MaskUndoesItself(key: Bytes, data: Bytes, order: ByteOrder, other: ByteOrder)
    requires |key| == 4
    ensures Mask(key, Mask(key, data, order), other) == data
  {
    MaskIsBytewise(key, data, order);
    var masked := BytewiseMask(key, data);
    MaskIsBytewise(key, masked, other);
    forall i | 0 <= i < |data|
      ensures BytewiseMask(key, masked)[i] == data[i]
    {
      XorByteTwice(data[i], key[i % 4]);
    }
  }
}
