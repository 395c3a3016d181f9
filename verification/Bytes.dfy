/** Bytes and fixed-width unsigned integers in both byte orders. */
module Bytes {
  type byte = x: int | 0 <= x < 256
  type bytes = seq<byte>

  const LF: byte := 10
  const CR: byte := 13

  predicate Digit(b: byte) {
    48 <= b <= 57
  }

  /** 256 to the power of `width`. */
  function Range(width: nat): (r: nat)
    ensures r > 0
  {
    if width == 0 then 1 else 256 * Range(width - 1)
  }

  function Power2(k: nat): (r: nat)
    ensures r > 0
  {
    if k == 0 then 1 else 2 * Power2(k - 1)
  }

  function Little(n: nat, width: nat): (b: bytes)
    ensures |b| == width
  {
    if width == 0 then [] else [n % 256] + Little(n / 256, width - 1)
  }

  function LittleValue(b: bytes): nat {
    if b == [] then 0 else b[0] + 256 * LittleValue(b[1..])
  }

  function Big(n: nat, width: nat): (b: bytes)
    ensures |b| == width
  {
    if width == 0 then [] else Big(n / 256, width - 1) + [n % 256]
  }

  function BigValue(b: bytes): nat {
    if b == [] then 0 else 256 * BigValue(b[..|b| - 1]) + b[|b| - 1]
  }

  lemma {:induction false} LittleRoundTrip(n: nat, width: nat)
    requires n < Range(width)
    ensures LittleValue(Little(n, width)) == n
  {
    if width > 0 {
      LittleRoundTrip(n / 256, width - 1);
      assert Little(n, width)[1..] == Little(n / 256, width - 1);
    }
  }

  lemma {:induction false} LittleOfValue(b: bytes)
    ensures LittleValue(b) < Range(|b|) && Little(LittleValue(b), |b|) == b
  {
    if b != [] {
      LittleOfValue(b[1..]);
      assert LittleValue(b) / 256 == LittleValue(b[1..]) && LittleValue(b) % 256 == b[0];
    }
  }

  lemma {:induction false} BigRoundTrip(n: nat, width: nat)
    requires n < Range(width)
    ensures BigValue(Big(n, width)) == n
  {
    if width > 0 {
      BigRoundTrip(n / 256, width - 1);
      assert Big(n, width)[..width - 1] == Big(n / 256, width - 1);
    }
  }

  lemma {:induction false} BigOfValue(b: bytes)
    ensures BigValue(b) < Range(|b|) && Big(BigValue(b), |b|) == b
  {
    if b != [] {
      var p := b[..|b| - 1];
      BigOfValue(p);
      assert BigValue(b) / 256 == BigValue(p) && BigValue(b) % 256 == b[|b| - 1];
      assert b == p + [b[|b| - 1]];
    }
  }
}
