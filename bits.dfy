/** Integer and bit-string arithmetic that the covert channel relies on:
    powers of two (`1 << n`), fixed-width big-endian bit strings
    (`f'{v:0{w}b}'`, `int(s, 2)`) and bitwise exclusive-or (`^`) on
    non-negative integers. Bit strings are `seq<bool>`, most significant
    bit first. */
module Bits {

  /** 2^n, the value of `1 << n`. */
  function Pow2(n: nat): (r: nat)
    ensures r >= 1
  {
    if n == 0 then 1 else 2 * Pow2(n - 1)
  }

  lemma {:induction false} Pow2Monotone(m: nat, n: nat)
    requires m <= n
    ensures Pow2(m) <= Pow2(n)
  {
    if m < n {
      Pow2Monotone(m, n - 1);
    }
  }

  lemma MulSucc(k: nat, b: nat)
    ensures (k + 1) * b == k * b + b
  {
  }

  lemma MulMonotone(a: nat, b: nat, c: nat)
    requires a <= b
    ensures a * c <= b * c
  {
  }

  /** The low `w` bits of `v`, most significant first. */
  function ToBits(v: nat, w: nat): (r: seq<bool>)
    ensures |r| == w
  {
    if w == 0 then [] else ToBits(v / 2, w - 1) + [v % 2 == 1]
  }

  /** The value of a big-endian bit string, `int(s, 2)`. */
  function BitsValue(bs: seq<bool>): (r: nat)
    ensures r < Pow2(|bs|)
  {
    if bs == [] then 0
    else 2 * BitsValue(bs[..|bs| - 1]) + (if bs[|bs| - 1] then 1 else 0)
  }

  lemma {:induction false} ValueOfToBits(v: nat, w: nat)
    requires v < Pow2(w)
    ensures BitsValue(ToBits(v, w)) == v
  {
    if w > 0 {
      ValueOfToBits(v / 2, w - 1);
      var r := ToBits(v, w);
      assert r[..w - 1] == ToBits(v / 2, w - 1);
    }
  }

  lemma {:induction false} ToBitsOfValue(bs: seq<bool>)
    ensures ToBits(BitsValue(bs), |bs|) == bs
  {
    if bs != [] {
      var n := |bs|;
      var init := bs[..n - 1];
      var bit := if bs[n - 1] then 1 else 0;
      var v := BitsValue(bs);
      assert v == 2 * BitsValue(init) + bit;
      assert v / 2 == BitsValue(init) && v % 2 == bit;
      ToBitsOfValue(init);
      calc {
        ToBits(v, n);
        ToBits(v / 2, n - 1) + [v % 2 == 1];
        init + [bs[n - 1]];
        bs;
      }
    }
  }

  /** Number of digits of `bin(v)`: one for 0 and 1. */
  function NumBits(v: nat): (r: nat)
    ensures r >= 1
  {
    if v < 2 then 1 else 1 + NumBits(v / 2)
  }

  lemma {:induction false} NumBitsSuffice(v: nat)
    ensures v < Pow2(NumBits(v))
  {
    if v >= 2 {
      NumBitsSuffice(v / 2);
    }
  }

  lemma {:induction false} NumBitsAtMost(v: nat, w: nat)
    requires w >= 1 && v < Pow2(w)
    ensures NumBits(v) <= w
  {
    if v >= 2 {
      assert w >= 2;
      NumBitsAtMost(v / 2, w - 1);
    }
  }

  /** `f'{v:0{w}b}'`: the binary digits of `v`, zero-filled on the left to
      at least `w` digits. A value too wide for `w` digits keeps all of its
      digits. */
  function Format(v: nat, w: nat): (r: seq<bool>)
    ensures |r| >= w
  {
    ToBits(v, if w < NumBits(v) then NumBits(v) else w)
  }

  /** The digits `Format` writes read back as the value. */
  lemma FormatValue(v: nat, w: nat)
    ensures BitsValue(Format(v, w)) == v
  {
    var width := if w < NumBits(v) then NumBits(v) else w;
    NumBitsSuffice(v);
    Pow2Monotone(NumBits(v), width);
    ValueOfToBits(v, width);
  }

  /** A value that fits in `w >= 1` bits is formatted with exactly `w` digits. */
  lemma FormatFits(v: nat, w: nat)
    requires w >= 1 && v < Pow2(w)
    ensures Format(v, w) == ToBits(v, w)
  {
    NumBitsAtMost(v, w);
  }

  /** Python's `a ^ b` on non-negative integers. */
  function Xor(a: nat, b: nat): nat
    decreases a + b
  {
    if a == 0 && b == 0 then 0 else 2 * Xor(a / 2, b / 2) + (a + b) % 2
  }

  /** One step of `^`: the low bit is the parity of the low bits, the rest
      is the exclusive-or of the halves. */
  lemma XorStep(a: nat, b: nat)
    ensures Xor(a, b) / 2 == Xor(a / 2, b / 2) && Xor(a, b) % 2 == (a + b) % 2
  {
    if a == 0 && b == 0 {
      assert Xor(a / 2, b / 2) == 0;
    }
  }

  /** Adding `b` twice to a parity cancels it. */
  lemma ParityCancel(x: nat, a: nat, b: nat)
    requires x % 2 == (a + b) % 2
    ensures (x + b) % 2 == a % 2
  {
  }

  /** A number is determined by its half and its low bit. */
  lemma HalfAndBit(y: nat, a: nat)
    requires y / 2 == a / 2 && y % 2 == a % 2
    ensures y == a
  {
  }

  /** Masking twice with the same value restores the symbol. */
  lemma {:induction false} XorInvolution(a: nat, b: nat)
    ensures Xor(Xor(a, b), b) == a
    decreases a + b
  {
    var x := Xor(a, b);
    var y := Xor(x, b);
    XorStep(a, b);
    XorStep(x, b);
    if a != 0 || b != 0 {
      XorInvolution(a / 2, b / 2);
    }
    ParityCancel(x, a, b);
    HalfAndBit(y, a);
  }

  /** Exclusive-or of two `w`-bit values is a `w`-bit value. */
  lemma {:induction false} XorBound(a: nat, b: nat, w: nat)
    requires a < Pow2(w) && b < Pow2(w)
    ensures Xor(a, b) < Pow2(w)
  {
    if w > 0 {
      XorBound(a / 2, b / 2, w - 1);
    }
  }

  lemma {:induction false} XorZero(a: nat)
    ensures Xor(a, 0) == a
    decreases a
  {
    if a != 0 {
      XorZero(a / 2);
    }
  }
}
