/** The tiled framebuffer address of console/console.c: a bijection between pixels and
    framebuffer words. Shifts and masks of the source are written as quotients and
    remainders of non-negative integers. */
module Tiles {

  /** `a ^ 32` */
  function Flip32(a: nat): nat {
    if a / 32 % 2 == 0 then a + 32 else a - 32
  }

  /** Start of a band of tiles, for a screen `width` pixels wide. */
  function Band(i: nat, width: nat): nat {
    i * 32 * width
  }

  /** The address formula, for a screen `tw` tiles of 32 pixels wide. */
  function Base(x: nat, y: nat, tw: nat): nat {
    var s := Band(y / 32, 32 * tw) + x / 32 * 1024 + x % 4 + y % 2 * 4 + x % 32 / 4 * 8 + y % 32 / 2 * 64;
    if y / 8 % 2 == 1 then Flip32(s) else s
  }

  // ----- Inside a tile

  /** The eighth of the row, swapped in every other group of eight lines. */
  function Turn(q: nat, y: nat): nat {
    if y / 8 % 2 == 1 then (if q < 4 then q + 4 else q - 4) else q
  }

  /** The last ten bits of the address. */
  function Inside(x: nat, y: nat): nat {
    x % 4 + 4 * (y % 2) + 8 * Turn(x % 32 / 4, y) + 64 * (y % 32 / 2)
  }

  lemma InsideDigits(x: nat, y: nat)
    ensures var r, q := Inside(x, y), Turn(x % 32 / 4, y);
      q < 8 && r < 1024 && r % 4 == x % 4 && r / 4 % 2 == y % 2 && r / 8 % 8 == q && r / 64 == y % 32 / 2
  {
    var c, d, q, p := x % 4, y % 2, Turn(x % 32 / 4, y), y % 32 / 2;
    Digits(c, d, q, p);
  }

  lemma Digits(c: nat, d: nat, q: nat, p: nat)
    requires c < 4 && d < 2 && q < 8 && p < 16
    ensures var r := c + 4 * d + 8 * q + 64 * p;
      r < 1024 && r % 4 == c && r / 4 % 2 == d && r / 8 % 8 == q && r / 64 == p
  {
    var r := c + 4 * d + 8 * q + 64 * p;
    assert r / 4 == d + 2 * q + 16 * p;
    assert r / 8 == q + 8 * p;
  }

  lemma FlipDigit(t: nat, c: nat, q: nat, p: nat)
    requires c < 8 && q < 8
    ensures Flip32(1024 * t + c + 8 * q + 64 * p) == 1024 * t + c + 8 * (if q < 4 then q + 4 else q - 4) + 64 * p
  {
    var a := 1024 * t + c + 8 * q + 64 * p;
    assert a / 32 == 32 * t + 2 * p + q / 4;
  }

  /** The formula as tile number and place in the tile. */
  lemma BaseIs(x: nat, y: nat, tw: nat)
    ensures Base(x, y, tw) == 1024 * (y / 32 * tw + x / 32) + Inside(x, y)
  {
    var t, c, q, p := y / 32 * tw + x / 32, x % 4 + y % 2 * 4, x % 32 / 4, y % 32 / 2;
    BandStart(y / 32, tw);
    SumIs(y / 32 * tw, x / 32, c, q, p);
    hide Flip32;
    FlipDigit(t, c, q, p);
  }

  lemma BandStart(i: nat, tw: nat)
    ensures i * 32 * (32 * tw) == 1024 * (i * tw)
  {
  }

  lemma SumIs(i: nat, j: nat, c: nat, q: nat, p: nat)
    ensures 1024 * i + j * 1024 + c + q * 8 + p * 64 == 1024 * (i + j) + c + 8 * q + 64 * p
  {
  }

  /** The address, field by field: the two low bits of x, the low bit of y, the next two of
      x, bit 4 of x against bit 3 of y, bits 1 to 4 of y, and the number of the tile. */
  lemma BaseFields(x: nat, y: nat, tw: nat)
    ensures var a := Base(x, y, tw);
      && a % 4 == x % 4 && a / 4 % 2 == y % 2 && a / 8 % 4 == x / 4 % 4 && a / 32 % 2 == (x / 16 + y / 8) % 2
      && a / 64 % 16 == y / 2 % 16 && a / 1024 == y / 32 * tw + x / 32
  {
    hide Base, Inside, Turn;
    BaseIs(x, y, tw);
    InsideDigits(x, y);
    TurnBits(x, y);
    LowBits(x, y);
    AddressBits(y / 32 * tw + x / 32, Inside(x, y), Turn(x % 32 / 4, y));
  }

  lemma AddressBits(t: nat, r: nat, q: nat)
    requires r < 1024 && r / 8 % 8 == q
    ensures var a := 1024 * t + r;
      && a % 4 == r % 4 && a / 4 % 2 == r / 4 % 2 && a / 8 % 4 == q % 4 && a / 32 % 2 == q / 4
      && a / 64 % 16 == r / 64 && a / 1024 == t
  {
    FieldTile(t, r);
    FieldEighth(t, r);
    FieldOdd(t, r);
    var a := 1024 * t + r;
    Chain(a);
    LowOfEighth(a / 8, q);
  }

  lemma LowOfEighth(v: nat, q: nat)
    requires v % 8 == q
    ensures v % 4 == q % 4 && v / 4 % 2 == q / 4
  {
  }

  lemma TurnBits(x: nat, y: nat)
    ensures var q := Turn(x % 32 / 4, y); q % 4 == x / 4 % 4 && q / 4 == (x / 16 + y / 8) % 2
  {
    var k := x % 32 / 4;
    assert x / 4 == 8 * (x / 32) + k && x / 16 == 2 * (x / 32) + k / 4;
  }

  lemma LowBits(x: nat, y: nat)
    ensures y % 32 / 2 == y / 2 % 16
  {
    assert y / 2 == 16 * (y / 32) + y % 32 / 2;
  }

  // ----- The inverse

  /** The fields of an address. */
  function Tile(a: nat): nat {
    a / 1024
  }

  function Lines(a: nat): nat {
    a % 1024 / 64
  }

  function Eighth(a: nat): nat {
    a / 8 % 8
  }

  function Odd(a: nat): nat {
    a / 4 % 2
  }

  function PixelY(a: nat, tw: nat): nat
    requires tw > 0
  {
    32 * (Tile(a) / tw) + 2 * Lines(a) + Odd(a)
  }

  function PixelX(a: nat, tw: nat): nat
    requires tw > 0
  {
    32 * (Tile(a) % tw) + 4 * Turn(Eighth(a), PixelY(a, tw)) + a % 4
  }

  lemma FieldTile(t: nat, r: nat)
    requires r < 1024
    ensures Tile(1024 * t + r) == t && Lines(1024 * t + r) == r / 64
  {
  }

  lemma FieldEighth(t: nat, r: nat)
    ensures Eighth(1024 * t + r) == r / 8 % 8
  {
    assert (1024 * t + r) / 8 == 128 * t + r / 8;
  }

  lemma FieldOdd(t: nat, r: nat)
    ensures Odd(1024 * t + r) == r / 4 % 2 && (1024 * t + r) % 4 == r % 4
  {
    assert (1024 * t + r) / 4 == 256 * t + r / 4;
  }

  lemma SplitY(y: nat)
    ensures y == 32 * (y / 32) + 2 * (y % 32 / 2) + y % 2
  {
    Parts(y / 32, y % 32, 16, 2);
  }

  lemma Parts(q: nat, r: nat, n: nat, d: nat)
    requires d > 0
    ensures n * d * q + r == d * (n * q + r / d) + r % d && (n * d * q + r) % d == r % d
  {
    var z := n * q + r / d;
    assert n * d * q == d * (n * q) && d * z == d * (n * q) + d * (r / d);
    Remainder(z, r % d, d);
  }

  lemma Remainder(z: nat, e: nat, d: nat)
    requires e < d
    ensures (d * z + e) % d == e
  {
    var y := d * z + e;
    if y / d != z {
      assert d * (y / d - z) == e - y % d;
      Times(1, if y / d > z then y / d - z else z - y / d, d);
      assert false;
    }
  }

  lemma SplitX(x: nat)
    ensures x == 32 * (x / 32) + 4 * (x % 32 / 4) + x % 4 && x % 32 / 4 < 8
  {
    Parts(x / 32, x % 32, 8, 4);
  }

  /** Reading the address back gives the pixel. */
  lemma PixelOfBase(x: nat, y: nat, tw: nat)
    requires x < 32 * tw
    ensures PixelX(Base(x, y, tw), tw) == x && PixelY(Base(x, y, tw), tw) == y
  {
    hide Base, Inside, Turn, Tile, Lines, Eighth, Odd;
    BaseIs(x, y, tw);
    InsideDigits(x, y);
    var t, r := y / 32 * tw + x / 32, Inside(x, y);
    FieldTile(t, r);
    FieldEighth(t, r);
    FieldOdd(t, r);
    TileParts(y / 32, x / 32, tw);
    SplitY(y);
    SplitX(x);
    TurnBack(x % 32 / 4, y);
  }

  lemma TileParts(i: nat, j: nat, tw: nat)
    requires j < tw
    ensures (i * tw + j) / tw == i && (i * tw + j) % tw == j
  {
    var q, m := (i * tw + j) / tw, (i * tw + j) % tw;
    assert i * tw + j == q * tw + m;
    if q < i {
      Gap(q, i, tw);
    } else if i < q {
      Gap(i, q, tw);
    }
  }

  lemma Gap(a: nat, b: nat, n: nat)
    requires a < b
    ensures a * n + n <= b * n
  {
    var d := b - a - 1;
    assert b * n == (a + 1 + d) * n == a * n + n + d * n;
  }

  lemma TurnBack(q: nat, y: nat)
    requires q < 8
    ensures Turn(Turn(q, y), y) == q && Turn(q, y) < 8
  {
  }

  /** Every word of the framebuffer is some pixel. */
  lemma BaseOfPixel(a: nat, tw: nat, th: nat)
    requires tw > 0 && a < 1024 * (tw * th)
    ensures PixelX(a, tw) < 32 * tw && PixelY(a, tw) < 32 * th && Base(PixelX(a, tw), PixelY(a, tw), tw) == a
  {
    hide Base, Inside, Turn, Lines, Eighth, Odd;
    var x, y, i, j := PixelX(a, tw), PixelY(a, tw), Tile(a) / tw, Tile(a) % tw;
    assert Tile(a) == i * tw + j;
    if i >= th {
      Times(th, i, tw);
    }
    Fields(a);
    YDigits(i, Lines(a), Odd(a));
    TurnBack(Eighth(a), y);
    XDigits(j, Turn(Eighth(a), y), a % 4);
    BaseIs(x, y, tw);
    InsideIs(x, y);
  }

  lemma InsideIs(x: nat, y: nat)
    ensures Inside(x, y) == x % 4 + 4 * (y % 2) + 8 * Turn(x % 32 / 4, y) + 64 * (y % 32 / 2)
  {
  }

  lemma Fields(a: nat)
    ensures a == 1024 * Tile(a) + 64 * Lines(a) + 8 * Eighth(a) + 4 * Odd(a) + a % 4
    ensures Lines(a) < 16 && Eighth(a) < 8 && Odd(a) < 2
  {
    Chain(a);
    var u, v, w := a / 4, a / 8, a / 64;
    assert a == 4 * u + a % 4 && u == 2 * v + u % 2 && v == 8 * w + v % 8 && w == 16 * (a / 1024) + w % 16;
  }

  lemma Chain(a: nat)
    ensures a / 8 == a / 4 / 2 && a / 64 == a / 8 / 8 && a / 1024 == a / 64 / 16 && a % 1024 / 64 == a / 64 % 16
  {
  }

  lemma Times(a: nat, b: nat, n: nat)
    requires a <= b
    ensures a * n <= b * n && n * a <= n * b
  {
    assert b * n == a * n + (b - a) * n;
  }

  lemma YDigits(i: nat, p: nat, d: nat)
    requires p < 16 && d < 2
    ensures var y := 32 * i + 2 * p + d; y / 32 == i && y % 2 == d && y % 32 / 2 == p
  {
  }

  lemma XDigits(j: nat, q: nat, c: nat)
    requires q < 8 && c < 4
    ensures var x := 32 * j + 4 * q + c; x / 32 == j && x % 4 == c && x % 32 / 4 == q
  {
  }

  /** A pixel of the screen has a word of the framebuffer. */
  lemma BaseInRange(x: nat, y: nat, tw: nat, th: nat)
    requires x < 32 * tw && y < 32 * th
    ensures Base(x, y, tw) < 1024 * (tw * th)
  {
    BaseIs(x, y, tw);
    InsideDigits(x, y);
    hide Base, Inside;
    var i, j := y / 32, x / 32;
    Gap(i, th, tw);
    assert i * tw + j + 1 <= th * tw;
  }

  /** Distinct pixels have distinct words. */
  lemma BaseInjective(x: nat, y: nat, u: nat, v: nat, tw: nat)
    requires x < 32 * tw && u < 32 * tw && Base(x, y, tw) == Base(u, v, tw)
    ensures x == u && y == v
  {
    PixelOfBase(x, y, tw);
    PixelOfBase(u, v, tw);
  }

  /** 32 rows further down is one band of tiles further on. */
  lemma BaseDown(x: nat, y: nat, tw: nat)
    ensures Base(x, y + 32, tw) == Base(x, y, tw) + 1024 * tw
  {
    hide Base, Inside;
    BaseIs(x, y, tw);
    BaseIs(x, y + 32, tw);
    InsideDown(x, y);
    assert (y / 32 + 1) * tw == y / 32 * tw + tw;
  }

  lemma InsideDown(x: nat, y: nat)
    ensures Inside(x, y + 32) == Inside(x, y) && (y + 32) / 32 == y / 32 + 1
  {
    assert (y + 32) / 8 == y / 8 + 4;
    TurnDown(x % 32 / 4, y);
    hide Turn;
    assert (y + 32) % 2 == y % 2 && (y + 32) % 32 == y % 32;
  }

  lemma TurnDown(q: nat, y: nat)
    ensures Turn(q, y + 32) == Turn(q, y)
  {
    assert (y + 32) / 8 == y / 8 + 4;
  }

  /** The last 32 rows are the last band of tiles. */
  lemma BaseLast(x: nat, y: nat, tw: nat, th: nat)
    requires 32 * (th - 1) <= y && th > 0
    ensures Base(x, y, tw) >= 1024 * (tw * (th - 1))
  {
    hide Base;
    BaseIs(x, y, tw);
    Times(th - 1, y / 32, tw);
  }
}
