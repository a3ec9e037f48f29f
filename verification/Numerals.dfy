/** Natural numbers written as bytes, as `int.to_bytes` and `int.from_bytes` do. */
module Numerals {
  import opened ByteStrings

  function Pow256(count: nat): (p: nat)
    ensures p > 0
  {
    if count == 0 then 1 else 256 * Pow256(count - 1)
  }

  /** The number a big-endian byte string stands for. */
  function FromBytes(b: Bytes): nat {
    if b == [] then 0 else 256 * FromBytes(b[..|b| - 1]) + b[|b| - 1]
  }

  /** The last `count` base-256 digits of a number, most significant first. */
  function ToBytes(n: nat, count: nat): (b: Bytes)
    ensures |b| == count
  {
    if count == 0 then [] else ToBytes(n / 256, count - 1) + [n % 256]
  }

  /** How many base-256 digits a number has; none for zero. */
  function DigitCount(n: nat): nat {
    if n == 0 then 0 else 1 + DigitCount(n / 256)
  }

  function BitLength(n: nat): nat {
    if n == 0 then 0 else 1 + BitLength(n / 2)
  }

  lemma {:induction false} FromToBytes(n: nat, count: nat)
    requires n < Pow256(count)
    ensures FromBytes(ToBytes(n, count)) == n
  {
    if count == 0 {
    } else {
      FromToBytes(n / 256, count - 1);
      assert ToBytes(n, count)[..count - 1] == ToBytes(n / 256, count - 1);
    }
  }

  lemma {:induction false} ToFromBytes(b: Bytes)
    ensures FromBytes(b) < Pow256(|b|)
    ensures ToBytes(FromBytes(b), |b|) == b
  {
    if b == [] {
    } else {
      ToFromBytes(b[..|b| - 1]);
      assert b == b[..|b| - 1] + [b[|b| - 1]];
    }
  }

  lemma {:induction false} Pow256Grows(a: nat, b: nat)
    requires a <= b
    ensures Pow256(a) <= Pow256(b)
    decreases b - a
  {
    if a == b {
    } else {
      Pow256Grows(a, b - 1);
    }
  }

  lemma {:induction false} DigitsBound(n: nat)
    ensures n < Pow256(DigitCount(n))
    ensures n > 0 ==> Pow256(DigitCount(n) - 1) <= n
  {
    if n == 0 {
    } else {
      DigitsBound(n / 256);
      if n / 256 > 0 {
        assert Pow256(DigitCount(n) - 1) == 256 * Pow256(DigitCount(n / 256) - 1);
      }
    }
  }

  /** A number below 256^count has at most `count` digits. */
  lemma {:induction false} FewDigits(n: nat, count: nat)
    requires n < Pow256(count)
    ensures DigitCount(n) <= count
  {
    if count == 0 {
    } else {
      FewDigits(n / 256, count - 1);
    }
  }

  lemma BitLengthOfByte(n: nat)
    requires 0 < n < 256
    ensures 1 <= BitLength(n) <= 8
  {
    var a := n / 2;
    var b := a / 2;
    var c := b / 2;
    var d := c / 2;
    var e := d / 2;
    assert e < 8;
    assert BitLength(e) <= 3;
    assert BitLength(d) <= 4;
    assert BitLength(c) <= 5;
    assert BitLength(b) <= 6;
    assert BitLength(a) <= 7;
  }

  lemma BitLengthShift(n: nat)
    requires n >= 256
    ensures BitLength(n) == 8 + BitLength(n / 256)
  {
    BitLengthOfSixteenth(n);
    BitLengthOfSixteenth(n / 16);
    assert n / 16 / 16 == n / 256;
  }

  lemma BitLengthOfSixteenth(n: nat)
    requires n >= 16
    ensures BitLength(n) == 4 + BitLength(n / 16)
  {
    var a := n / 2;
    var b := a / 2;
    var c := b / 2;
    var d := c / 2;
    assert d == n / 16;
    assert BitLength(n) == 1 + BitLength(a);
    assert BitLength(a) == 1 + BitLength(b);
    assert BitLength(b) == 1 + BitLength(c);
    assert BitLength(c) == 1 + BitLength(d);
  }

  /** Rounding the bit length up to whole bytes counts the base-256 digits. */
  lemma {:induction false} BytesForBits(n: nat)
    ensures (BitLength(n) + 7) / 8 == DigitCount(n)
  {
    if n == 0 {
    } else if n < 256 {
      BitLengthOfByte(n);
    } else {
      BitLengthShift(n);
      BytesForBits(n / 256);
    }
  }
}
