/** `gradient` of the map view: two packed RGB colours are split into
    channels with real (not integer) quotients, each channel is interpolated
    by `x` and rounded with `Math.round`, and the rounded channels are packed
    again with the same weights. Colours are non-negative integers. */
module Colour {
  /** JavaScript's `Math.round`: the nearest integer, halves rounded up. */
  function Round(y: real): (r: int)
    ensures y - 0.5 < r as real <= y + 0.5
  {
    (y + 0.5).Floor
  }

  /** `c1 / 65536`: the red channel with the green and blue ones as a fraction. */
  function RedPart(c: nat): real
  {
    c as real / 65536.0
  }

  /** `c1 % 65536 / 256`: the green channel with blue as a fraction. */
  function GreenPart(c: nat): real
  {
    (c % 65536) as real / 256.0
  }

  /** `c1 % 256`: the blue channel. */
  function BluePart(c: nat): int
  {
    c % 256
  }

  function Lerp(a: real, b: real, x: real): real
  {
    a + x * (b - a)
  }

  /** The rounded blue channel of `gradient(c1, c2, x)`. */
  function Blue(c1: nat, c2: nat, x: real): int
  {
    Round(Lerp(BluePart(c1) as real, BluePart(c2) as real, x))
  }

  function Gradient(c1: nat, c2: nat, x: real): int
  {
    Round(Lerp(RedPart(c1), RedPart(c2), x)) * 65536
    + Round(Lerp(GreenPart(c1), GreenPart(c2), x)) * 256
    + Blue(c1, c2, x)
  }

  /** The green and blue bytes of a packed colour. */
  function GreenByte(c: nat): int
  {
    c / 256 % 256
  }

  /** What rounding the red and green quotients adds to a colour: a carry of
      one into red when the green byte is at least 128, and one into green
      when the blue byte is. */
  function Carry(c: nat): int
  {
    (if GreenByte(c) >= 128 then 65536 else 0) + (if BluePart(c) >= 128 then 256 else 0)
  }

  /** An integer plus a fraction rounds up exactly when the fraction is at
      least one half. */
  lemma RoundWhole(n: int, f: real)
    requires 0.0 <= f < 1.0
    ensures Round(n as real + f) == if f >= 0.5 then n + 1 else n
  {
  }

  /** A real between two integers rounds to an integer between them. */
  lemma RoundBetween(lo: int, v: real, hi: int)
    requires lo as real <= v <= hi as real
    ensures lo <= Round(v) <= hi
  {
  }

  /** The quotients of a colour, unrounded, are its value and a fraction. */
  lemma SplitParts(c: nat)
    ensures RedPart(c) == (c / 65536) as real + (c % 65536) as real / 65536.0
    ensures GreenPart(c) == (c % 65536 / 256) as real + BluePart(c) as real / 256.0
    ensures c == c / 65536 * 65536 + c % 65536 / 256 * 256 + BluePart(c)
    ensures c % 65536 / 256 == GreenByte(c)
  {
    Bytes(c);
    RedSplit(c);
    GreenSplit(c);
  }

  /** The three bytes of a colour, taken from the remainder by 65536. */
  lemma Bytes(c: nat)
    ensures c % 65536 % 256 == c % 256 && c % 65536 / 256 == c / 256 % 256
    ensures c == c / 65536 * 65536 + c % 65536 / 256 * 256 + c % 256
  {
    var q, r := c / 65536, c % 65536;
    var g, b := r / 256, r % 256;
    assert r == g * 256 + b && g < 256;
    assert c == (q * 256 + g) * 256 + b;
    LowByte(q * 256 + g, b);
    LowByte(q, g);
  }

  lemma RedSplit(c: nat)
    ensures RedPart(c) == (c / 65536) as real + (c % 65536) as real / 65536.0
  {
    var q, r := c / 65536, c % 65536;
    assert c as real == q as real * 65536.0 + r as real;
  }

  lemma GreenSplit(c: nat)
    requires c % 65536 % 256 == c % 256
    ensures GreenPart(c) == (c % 65536 / 256) as real + BluePart(c) as real / 256.0
  {
    var r := c % 65536;
    assert r as real == (r / 256) as real * 256.0 + (r % 256) as real;
  }

  /** The channels of one colour, rounded as `gradient` rounds them: the
      colour itself plus its carries. */
  lemma RoundedColour(c: nat)
    ensures Round(RedPart(c)) * 65536 + Round(GreenPart(c)) * 256 + BluePart(c) == c + Carry(c)
  {
    SplitParts(c);
    var g := c % 65536 / 256;
    RoundWhole(c / 65536, (c % 65536) as real / 65536.0);
    RoundWhole(g, BluePart(c) as real / 256.0);
    assert (c % 65536) as real / 65536.0 >= 0.5 <==> GreenByte(c) >= 128;
  }

  /** `gradient(c1, c2, 0)` is `c1` plus its carries. */
  lemma AtZero(c1: nat, c2: nat)
    ensures Gradient(c1, c2, 0.0) == c1 + Carry(c1)
  {
    RoundedColour(c1);
  }

  /** `gradient(c1, c2, 1)` is `c2` plus its carries. */
  lemma AtOne(c1: nat, c2: nat)
    ensures Gradient(c1, c2, 1.0) == c2 + Carry(c2)
  {
    RoundedColour(c2);
  }

  /** `gradient(c1, c2, 0)` reproduces `c1` exactly when its green and blue
      bytes are both below 128. */
  lemma AtZeroExact(c1: nat, c2: nat)
    ensures Gradient(c1, c2, 0.0) == c1 <==> GreenByte(c1) < 128 && BluePart(c1) < 128
  {
    AtZero(c1, c2);
  }

  /** Between two equal colours the result does not depend on `x`: it is the
      colour plus its carries. */
  lemma SameColour(c: nat, x: real)
    ensures Gradient(c, c, x) == c + Carry(c)
  {
    assert Lerp(RedPart(c), RedPart(c), x) == RedPart(c);
    assert Lerp(GreenPart(c), GreenPart(c), x) == GreenPart(c);
    assert Lerp(BluePart(c) as real, BluePart(c) as real, x) == BluePart(c) as real;
    RoundedColour(c);
  }

  /** For `x` in [0, 1] the blue channel lies between the two blue bytes. */
  lemma BlueBetween(c1: nat, c2: nat, x: real)
    requires 0.0 <= x <= 1.0
    ensures BluePart(c1) <= BluePart(c2) ==> BluePart(c1) <= Blue(c1, c2, x) <= BluePart(c2)
    ensures BluePart(c2) <= BluePart(c1) ==> BluePart(c2) <= Blue(c1, c2, x) <= BluePart(c1)
  {
    var b1, b2 := BluePart(c1), BluePart(c2);
    LerpBetween(b1 as real, b2 as real, x);
    if b1 <= b2 {
      RoundBetween(b1, Lerp(b1 as real, b2 as real, x), b2);
    } else {
      RoundBetween(b2, Lerp(b1 as real, b2 as real, x), b1);
    }
  }

  /** Interpolation by `x` in [0, 1] stays between the two ends. */
  lemma LerpBetween(a: real, b: real, x: real)
    requires 0.0 <= x <= 1.0
    ensures a <= b ==> a <= Lerp(a, b, x) <= b
    ensures b <= a ==> b <= Lerp(a, b, x) <= a
  {
    if a <= b {
      Scaled(x, b - a);
    } else {
      LerpDown(a, b, x);
    }
  }

  lemma LerpDown(a: real, b: real, x: real)
    requires 0.0 <= x <= 1.0 && b <= a
    ensures b <= Lerp(a, b, x) <= a
  {
    var e := a - b;
    Scaled(x, e);
    var m := x * (b - a);
    assert m == -(x * e);
    assert -e <= m <= 0.0;
    assert Lerp(a, b, x) == a + m;
  }

  lemma Scaled(x: real, d: real)
    requires 0.0 <= x <= 1.0 && 0.0 <= d
    ensures 0.0 <= x * d <= d
  {
    assert d - x * d == (1.0 - x) * d;
  }

  lemma LowByte(hi: int, b: int)
    requires 0 <= b < 256
    ensures (hi * 256 + b) % 256 == b && (hi * 256 + b) / 256 == hi
  {
  }

  /** For `x` in [0, 1] the low byte of the result is the blue channel. */
  lemma BlueByte(c1: nat, c2: nat, x: real)
    requires 0.0 <= x <= 1.0
    ensures Gradient(c1, c2, x) % 256 == Blue(c1, c2, x)
  {
    BlueBetween(c1, c2, x);
    var r := Round(Lerp(RedPart(c1), RedPart(c2), x));
    var g := Round(Lerp(GreenPart(c1), GreenPart(c2), x));
    var b := Blue(c1, c2, x);
    assert Gradient(c1, c2, x) == (r * 256 + g) * 256 + b;
    LowByte(r * 256 + g, b);
  }

  /** The two colours of the map: the dark colour is reproduced at 0, but the
      green colour comes out one step redder at 1. */
  lemma MapColours()
    ensures Gradient(0x202020, 0x6bba3a, 0.0) == 0x202020
    ensures Gradient(0x202020, 0x6bba3a, 1.0) == 0x6cba3a
  {
    AtZero(0x202020, 0x6bba3a);
    AtOne(0x202020, 0x6bba3a);
    assert GreenByte(0x6bba3a) == 0xba;
  }

  /** White does not survive: its carries take it past 24 bits. */
  lemma WhiteOverflows(c2: nat)
    ensures Gradient(0xffffff, c2, 0.0) == 0xffffff + 0x10100
  {
    AtZero(0xffffff, c2);
    assert GreenByte(0xffffff) == 0xff;
  }
}
