/** Exclusive or on numbers and on byte strings read as little-endian numbers. */
module BitFlips {
  import opened Bytes

  function Xor(a: nat, b: nat): nat
    decreases a + b
  {
    if a == 0 && b == 0 then 0
    else (if a % 2 == b % 2 then 0 else 1) + 2 * Xor(a / 2, b / 2)
  }

  function BitAt(n: nat, k: nat): bool {
    if k == 0 then n % 2 == 1 else BitAt(n / 2, k - 1)
  }

  function ShiftLeft(n: nat, k: nat): nat {
    if k == 0 then n else 2 * ShiftLeft(n, k - 1)
  }

  /** Bit `k` of a byte string, counted from the lowest bit of its first byte. */
  function DataBit(data: bytes, k: nat): bool
    requires k < 8 * |data|
  {
    BitAt(data[k / 8], k % 8)
  }

  /** `out` is `data` with exactly the bits `start` to `start + width - 1` inverted. */
  ghost predicate BitsFlipped(data: bytes, out: bytes, start: nat, width: nat) {
    && |out| == |data| && start + width <= 8 * |data|
    && forall k {:trigger FlippedAt(data, out, start, width, k)} ::
         0 <= k < 8 * |data| ==> FlippedAt(data, out, start, width, k)
  }

  ghost predicate FlippedAt(data: bytes, out: bytes, start: nat, width: nat, k: nat)
    requires k < 8 * |data| && |out| == |data|
  {
    DataBit(out, k) == (DataBit(data, k) != (start <= k < start + width))
  }

  lemma {:induction false} XorStep(a: nat, b: nat)
    ensures Xor(a, b) % 2 == (if a % 2 == b % 2 then 0 else 1)
    ensures Xor(a, b) / 2 == Xor(a / 2, b / 2)
  {
  }

  lemma {:induction false} XorBit(a: nat, b: nat, k: nat)
    ensures BitAt(Xor(a, b), k) == (BitAt(a, k) != BitAt(b, k))
  {
    XorStep(a, b);
    if k > 0 {
      XorBit(a / 2, b / 2, k - 1);
    }
  }

  lemma {:induction false} XorTwice(a: nat, b: nat)
    ensures Xor(Xor(a, b), b) == a
    decreases a + b
  {
    if a + b > 0 {
      XorStep(a, b);
      XorStep(Xor(a, b), b);
      XorTwice(a / 2, b / 2);
    }
  }

  lemma {:induction false} XorBelow(a: nat, b: nat, n: nat)
    requires a < Power2(n) && b < Power2(n)
    ensures Xor(a, b) < Power2(n)
  {
    if n > 0 {
      XorBelow(a / 2, b / 2, n - 1);
    }
  }

  lemma {:induction false} ShiftBelow(v: nat, w: nat, n: nat, k: nat)
    requires v < Power2(w) && w + k <= n
    ensures ShiftLeft(v, k) < Power2(n)
    decreases n
  {
    if k > 0 {
      ShiftBelow(v, w, n - 1, k - 1);
    } else if w < n {
      ShiftBelow(v, w, n - 1, 0);
    }
  }

  lemma {:induction false} ShiftedBit(v: nat, n: nat, k: nat)
    ensures BitAt(ShiftLeft(v, n), k) == (k >= n && BitAt(v, k - n))
  {
    if n > 0 && k > 0 {
      ShiftedBit(v, n - 1, k - 1);
    }
  }

  lemma {:induction false} OnesBit(w: nat, k: nat)
    ensures BitAt(Power2(w) - 1, k) == (k < w)
  {
    if w == 0 {
      ZeroBit(k);
    } else if k > 0 {
      OnesBit(w - 1, k - 1);
      assert (Power2(w) - 1) / 2 == Power2(w - 1) - 1;
    }
  }

  lemma {:induction false} ZeroBit(k: nat)
    ensures !BitAt(0, k)
  {
    if k > 0 {
      ZeroBit(k - 1);
    }
  }

  /** The low `n` bits come from `low` and the others from `high`. */
  lemma {:induction false} JoinedBit(low: nat, high: nat, n: nat, k: nat)
    requires low < Power2(n)
    ensures BitAt(low + ShiftLeft(high, n), k) == if k < n then BitAt(low, k) else BitAt(high, k - n)
  {
    if n > 0 && k > 0 {
      JoinedBit(low / 2, high, n - 1, k - 1);
      assert (low + ShiftLeft(high, n)) / 2 == low / 2 + ShiftLeft(high, n - 1);
    }
  }

  lemma ShiftStep(high: nat, k: nat)
    ensures ShiftLeft(high, k + 2) == 4 * ShiftLeft(high, k)
  {
    assert ShiftLeft(high, k + 1) == 2 * ShiftLeft(high, k);
  }

  lemma {:induction false} EightBits(high: nat)
    ensures ShiftLeft(high, 8) == 256 * high && Power2(8) == 256
  {
    ShiftStep(high, 6);
    ShiftStep(high, 4);
    ShiftStep(high, 2);
    ShiftStep(high, 0);
    PowerStep(0);
  }

  /** The bits of a byte string are the bits of its little-endian value. */
  lemma {:induction false} ValueBit(data: bytes, k: nat)
    requires k < 8 * |data|
    ensures BitAt(LittleValue(data), k) == DataBit(data, k)
  {
    EightBits(LittleValue(data[1..]));
    JoinedBit(data[0], LittleValue(data[1..]), 8, k);
    if k >= 8 {
      ValueBit(data[1..], k - 8);
      assert data[1..][(k - 8) / 8] == data[k / 8];
    }
  }

  lemma {:induction false} RangeIsPower(n: nat)
    ensures Range(n) == Power2(8 * n)
  {
    if n > 0 {
      RangeIsPower(n - 1);
      PowerStep(8 * (n - 1));
    }
  }

  lemma PowerStep(n: nat)
    ensures Power2(n + 8) == 256 * Power2(n)
  {
    assert Power2(n + 2) == 4 * Power2(n);
    assert Power2(n + 4) == 16 * Power2(n);
    assert Power2(n + 6) == 64 * Power2(n);
  }

  /** The mask of `width` ones shifted to `start`. */
  function Mask(start: nat, width: nat): nat {
    ShiftLeft(Power2(width) - 1, start)
  }

  /** The byte string of the value with the masked bits inverted. */
  function FlipBits(data: bytes, start: nat, width: nat): (out: bytes)
    ensures |out| == |data|
  {
    Little(Xor(LittleValue(data), Mask(start, width)), |data|)
  }

  lemma {:induction false} MaskFits(start: nat, width: nat, n: nat)
    requires start + width <= n
    ensures Mask(start, width) < Power2(n)
  {
    ShiftBelow(Power2(width) - 1, width, n, start);
  }

  lemma {:induction false} XorFits(v: nat, m: nat, size: nat)
    requires v < Range(size) && m < Power2(8 * size)
    ensures Xor(v, m) < Range(size)
    ensures LittleValue(Little(Xor(v, m), size)) == Xor(v, m)
  {
    RangeIsPower(size);
    XorBelow(v, m, 8 * size);
    LittleRoundTrip(Xor(v, m), size);
  }

  /** The flipped value still fits into the bytes of the original. */
  lemma {:induction false} FlipFits(data: bytes, start: nat, width: nat)
    requires start + width <= 8 * |data|
    ensures Xor(LittleValue(data), Mask(start, width)) < Range(|data|)
    ensures LittleValue(FlipBits(data, start, width)) == Xor(LittleValue(data), Mask(start, width))
  {
    LittleOfValue(data);
    MaskFits(start, width, 8 * |data|);
    XorFits(LittleValue(data), Mask(start, width), |data|);
  }

  /** Exclusive or with the mask inverts exactly the masked bits of the bytes. */
  lemma FlipBitsFlips(data: bytes, start: nat, width: nat)
    requires start + width <= 8 * |data|
    ensures BitsFlipped(data, FlipBits(data, start, width), start, width)
  {
    var out := FlipBits(data, start, width);
    FlipFits(data, start, width);
    forall k | 0 <= k < 8 * |data|
      ensures FlippedAt(data, out, start, width, k)
    {
      ValueBit(out, k);
      ValueBit(data, k);
      XorBit(LittleValue(data), Mask(start, width), k);
      ShiftedBit(Power2(width) - 1, start, k);
      if k >= start {
        OnesBit(width, k - start);
      }
    }
  }

  /** Flipping the same bits again restores the bytes. */
  lemma FlipBitsTwice(data: bytes, start: nat, width: nat)
    requires start + width <= 8 * |data|
    ensures FlipBits(FlipBits(data, start, width), start, width) == data
  {
    FlipFits(data, start, width);
    XorTwice(LittleValue(data), Mask(start, width));
    LittleOfValue(data);
  }
}
