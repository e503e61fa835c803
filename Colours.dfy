/** RGB colours (Colour.cs). Every operation returns a new colour, so a colour is a value. */
module Colours {
  import N = Numeric

  datatype Colour = Colour(r: real, g: real, b: real)

  const Black: Colour := Colour(0.0, 0.0, 0.0)
  const White: Colour := Colour(1.0, 1.0, 1.0)

  /** `NewColor`: 16-bit channel values scaled to [0, 1]. */
  function NewColor(r: int, g: int, b: int): (c: Colour)
    ensures c.r * 65535.0 == r as real && c.g * 65535.0 == g as real && c.b * 65535.0 == b as real
    ensures 0 <= r <= 65535 ==> 0.0 <= c.r <= 1.0
  {
    Colour(r as real / 65535.0, g as real / 65535.0, b as real / 65535.0)
  }

  /** `(x >> k) & 0xff` on a two's-complement `int`: the arithmetic shift is a division
      rounded towards minus infinity, and the mask keeps the low eight bits, which is the
      non-negative remainder modulo 256. Dafny's `/` and `%` by a positive divisor are
      exactly these. */
  function ByteAt(x: int, shift: nat): (b: int)
    ensures 0 <= b <= 255
  {
    (x / Pow2(shift)) % 256
  }

  function Pow2(k: nat): (p: nat)
    ensures p >= 1
  {
    if k == 0 then 1 else 2 * Pow2(k - 1)
  }

  /** The three bytes `HexColor` extracts: red from bits 16-23, green from 8-15, blue from 0-7. */
  function HexBytes(x: int): (rgb: (int, int, int))
    ensures 0 <= rgb.0 <= 255 && 0 <= rgb.1 <= 255 && 0 <= rgb.2 <= 255
  {
    (ByteAt(x, 16), ByteAt(x, 8), ByteAt(x, 0))
  }

  /** A 24-bit colour code is recovered from its three bytes. */
  lemma HexBytesRoundTrip(x: int)
    requires 0 <= x < 0x100_0000
    ensures var (r, g, b) := HexBytes(x); x == r * 65536 + g * 256 + b
  {
    assert Pow2(8) == 256 by { Pow2Value8(); }
    assert Pow2(16) == 65536 by { Pow2Value8(); Pow2Add(8, 8); }
    var hi := x / 65536;
    var lo := x % 65536;
    assert hi < 256;
    assert (x / 256) == hi * 256 + lo / 256;
  }

  lemma Pow2Value8()
    ensures Pow2(8) == 256
  {
  }

  lemma {:induction false} Pow2Add(a: nat, b: nat)
    ensures Pow2(a + b) == Pow2(a) * Pow2(b)
  {
    if a > 0 {
      Pow2Add(a - 1, b);
    }
  }

  /** `HexColor(x)`: each byte divided by 255, then `Pow(2.2)` (gamma), which is a parameter.
      Only the low 24 bits of `x` matter: red is their top byte, green the middle one and
      blue the low one. */
  function HexColor(x: int, pow: (real, real) -> real): (c: Colour)
    ensures var y := x % 0x100_0000;
      c == Pow(Colour((y / 0x1_0000) as real / 255.0, (y / 0x100 % 0x100) as real / 255.0,
                      (y % 0x100) as real / 255.0), 2.2, pow)
  {
    LowBytes(x);
    var (r, g, b) := HexBytes(x);
    Pow(Colour(r as real / 255.0, g as real / 255.0, b as real / 255.0), 2.2, pow)
  }

  /** The bytes `HexBytes` extracts are those of the low 24 bits. */
  lemma LowBytes(x: int)
    ensures var y := x % 0x100_0000;
      HexBytes(x) == (y / 0x1_0000, y / 0x100 % 0x100, y % 0x100)
  {
    RedByte(x);
    GreenByte(x);
    BlueByte(x);
  }

  lemma RedByte(x: int)
    ensures ByteAt(x, 16) == x % 0x100_0000 / 0x1_0000
  {
    assert Pow2(16) == 65536 by { Pow2Value8(); Pow2Add(8, 8); }
    var q := x / 0x100_0000;
    var y := x % 0x100_0000;
    SplitDiv(x, q, y, 0x1_0000, 256);
    SplitMod(q, y / 0x1_0000);
  }

  lemma GreenByte(x: int)
    ensures ByteAt(x, 8) == x % 0x100_0000 / 0x100 % 0x100
  {
    assert Pow2(8) == 256 by { Pow2Value8(); }
    var q := x / 0x100_0000;
    var y := x % 0x100_0000;
    SplitDiv(x, q, y, 0x100, 0x1_0000);
    assert q * 0x1_0000 == (q * 256) * 256;
    SplitMod(q * 256, y / 0x100);
  }

  lemma BlueByte(x: int)
    ensures ByteAt(x, 0) == x % 0x100_0000 % 0x100
  {
    assert Pow2(0) == 1;
    var q := x / 0x100_0000;
    var y := x % 0x100_0000;
    assert x == q * 0x100_0000 + y;
    assert q * 0x100_0000 == (q * 0x1_0000) * 256;
    SplitMod(q * 0x1_0000, y);
  }

  /** With `x = q 2^24 + y` and `n k = 2^24`, `x / n` is `q k + y / n`. */
  lemma SplitDiv(x: int, q: int, y: int, n: int, k: int)
    requires q == x / 0x100_0000 && y == x % 0x100_0000 && n > 0 && n * k == 0x100_0000
    ensures x / n == q * k + y / n
  {
    var a := y / n;
    var b := y % n;
    assert y == a * n + b && 0 <= b < n;
    assert x == (q * k + a) * n + b;
    DivUnique(x, n, q * k + a, b);
  }

  /** Division is determined by quotient and remainder. */
  lemma DivUnique(x: int, n: int, a: int, b: int)
    requires n > 0 && x == a * n + b && 0 <= b < n
    ensures x / n == a
  {
    var d := a - x / n;
    assert d * n == x % n - b;
    if d > 0 {
      MulAtLeast(d, n);
    } else if d < 0 {
      MulAtLeast(-d, n);
    }
  }

  lemma MulAtLeast(d: int, n: int)
    requires d >= 1 && n > 0
    ensures d * n >= n
  {
  }

  /** Adding a multiple of 256 does not change the low byte. */
  lemma SplitMod(k: int, b: int)
    ensures (k * 256 + b) % 256 == b % 256
  {
    assert k * 256 + b == (k + b / 256) * 256 + b % 256;
    DivUnique(k * 256 + b, 256, k + b / 256, b % 256);
  }

  /** `Pow(b)`: every channel raised to `b` by `Math.Pow`, which is a parameter. */
  function Pow(c: Colour, e: real, pow: (real, real) -> real): (p: Colour)
    ensures p.r == pow(c.r, e) && p.g == pow(c.g, e) && p.b == pow(c.b, e)
  {
    Colour(pow(c.r, e), pow(c.g, e), pow(c.b, e))
  }

  /** `Kelvin(K)`: the colour of a black body. The fitted logarithmic curves above the
      thresholds are computed with `log` (Math.Log, a parameter); below 6600 K red is full,
      below 1000 K green is zero and below 2000 K blue is zero; every channel is then
      divided by 255 and clamped to at most 1. */
  function Kelvin(k: real, log: real -> real): (c: Colour)
    ensures c.r <= 1.0 && c.g <= 1.0 && c.b <= 1.0
    ensures k < 6600.0 ==> c.r == 1.0
    ensures k < 1000.0 ==> c == Colour(1.0, 0.0, 0.0)
    ensures 1000.0 <= k < 2000.0 ==> c.r == 1.0 && c.b == 0.0
    ensures k >= 6600.0 ==> c.b == 1.0
  {
    var red :=
      if k >= 6600.0 then
        var x := k / 100.0 - 55.0;
        351.97690566805693 + 0.114206453784165 * x + -40.25366309332127 * log(x)
      else 255.0;
    var green :=
      if k >= 6600.0 then
        var x := k / 100.0 - 50.0;
        325.4494125711974 + 0.07943456536662342 * x + -28.0852963507957 * log(x)
      else if k >= 1000.0 then
        var x := k / 100.0 - 2.0;
        -155.25485562709179 + -0.44596950469579133 * x + 104.49216199393888 * log(x)
      else 0.0;
    var blue :=
      if k >= 6600.0 then 255.0
      else if k >= 2000.0 then
        var x := k / 100.0 - 10.0;
        -254.76935184120902 + 0.8274096064007395 * x + 115.67994401066147 * log(x)
      else 0.0;
    Colour(N.Min(1.0, red / 255.0), N.Min(1.0, green / 255.0), N.Min(1.0, blue / 255.0))
  }

  function MulScalar(a: Colour, s: real): Colour {
    Colour(a.r * s, a.g * s, a.b * s)
  }

  function Add(a: Colour, c: Colour): Colour {
    Colour(a.r + c.r, a.g + c.g, a.b + c.b)
  }

  function Sub(a: Colour, c: Colour): Colour {
    Colour(a.r - c.r, a.g - c.g, a.b - c.b)
  }

  function Mul(a: Colour, c: Colour): Colour {
    Colour(a.r * c.r, a.g * c.g, a.b * c.b)
  }

  /** Channelwise division; a zero channel (infinity or NaN in the source) is excluded. */
  function Div(a: Colour, c: Colour): Colour
    requires c.r != 0.0 && c.g != 0.0 && c.b != 0.0
  {
    Colour(a.r / c.r, a.g / c.g, a.b / c.b)
  }

  function DivScalar(a: Colour, s: real): Colour
    requires s != 0.0
  {
    Colour(a.r / s, a.g / s, a.b / s)
  }

  /** The channelwise operations undo each other. */
  lemma ArithmeticInverses(a: Colour, c: Colour, s: real)
    ensures Sub(Add(a, c), c) == a && Add(Sub(a, c), c) == a
    ensures c.r != 0.0 && c.g != 0.0 && c.b != 0.0 ==> Div(Mul(a, c), c) == a
    ensures s != 0.0 ==> DivScalar(MulScalar(a, s), s) == a
    ensures Add(a, c) == Add(c, a) && Mul(a, c) == Mul(c, a)
    ensures Add(a, Black) == a && Mul(a, White) == a && MulScalar(a, 1.0) == a
  {
  }

  /** `a.Mix(b, pct) = (1 - pct) a + pct b`. */
  function Mix(a: Colour, c: Colour, pct: real): Colour {
    Add(MulScalar(a, 1.0 - pct), MulScalar(c, pct))
  }

  /** Mixing interpolates: 0 gives the receiver, 1 the argument, a colour mixed with itself
      is unchanged, and every channel of a mix with `0 <= pct <= 1` lies between the two. */
  lemma MixProperties(a: Colour, c: Colour, pct: real)
    ensures Mix(a, c, 0.0) == a && Mix(a, c, 1.0) == c
    ensures Mix(a, a, pct) == a
    ensures 0.0 <= pct <= 1.0 ==> N.Min(a.r, c.r) <= Mix(a, c, pct).r <= N.Max(a.r, c.r)
  {
    if 0.0 <= pct <= 1.0 {
      Between(a.r, c.r, pct);
    }
  }

  /** `(1 - p) x + p y` lies between `x` and `y` for `0 <= p <= 1`. */
  lemma Between(x: real, y: real, p: real)
    requires 0.0 <= p <= 1.0
    ensures N.Min(x, y) <= x * (1.0 - p) + y * p <= N.Max(x, y)
  {
    assert x * (1.0 - p) + y * p == x + N.Product(y - x, p);
    if x <= y {
      BoundedScale(y - x, p);
    } else {
      BoundedScale(x - y, p);
      assert N.Product(y - x, p) == -N.Product(x - y, p);
    }
  }

  lemma BoundedScale(d: real, p: real)
    requires d >= 0.0 && 0.0 <= p <= 1.0
    ensures 0.0 <= N.Product(d, p) <= d
  {
    assert d * p <= d * 1.0;
  }

  function Min(a: Colour, c: Colour): (m: Colour)
    ensures m.r <= a.r && m.r <= c.r && (m.r == a.r || m.r == c.r)
    ensures m.g <= a.g && m.g <= c.g && (m.g == a.g || m.g == c.g)
    ensures m.b <= a.b && m.b <= c.b && (m.b == a.b || m.b == c.b)
  {
    Colour(N.Min(a.r, c.r), N.Min(a.g, c.g), N.Min(a.b, c.b))
  }

  function Max(a: Colour, c: Colour): (m: Colour)
    ensures m.r >= a.r && m.r >= c.r && (m.r == a.r || m.r == c.r)
    ensures m.g >= a.g && m.g >= c.g && (m.g == a.g || m.g == c.g)
    ensures m.b >= a.b && m.b >= c.b && (m.b == a.b || m.b == c.b)
  {
    Colour(N.Max(a.r, c.r), N.Max(a.g, c.g), N.Max(a.b, c.b))
  }

  function MinComponent(a: Colour): (m: real)
    ensures m <= a.r && m <= a.g && m <= a.b
    ensures m == a.r || m == a.g || m == a.b
  {
    N.Min(N.Min(a.r, a.g), a.b)
  }

  function MaxComponent(a: Colour): (m: real)
    ensures m >= a.r && m >= a.g && m >= a.b
    ensures m == a.r || m == a.g || m == a.b
  {
    N.Max(N.Max(a.r, a.g), a.b)
  }
}
