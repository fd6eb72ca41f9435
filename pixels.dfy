/** The optional value used for "no frame this tick" and "no button here". */
module Optional {
  datatype Option<+T> = None | Some(value: T)
}

/**
 * Screen frames as the bot sees them: an Android ARGB_8888 bitmap whose
 * pixels are Kotlin `Int`s (32-bit two's complement, alpha in the top byte),
 * and the channel arithmetic both Vision.kt and BotService.kt apply to them.
 */
module Pixels {

  /** A Kotlin `Int`. */
  type int32 = x: int | -0x8000_0000 <= x < 0x8000_0000

  /** A screen coordinate (the source's two-element `IntArray`). */
  datatype Point = Point(x: int, y: int)

  /** A captured bitmap: `height` rows of `width` pixels each. */
  datatype Frame = Frame(width: nat, height: nat, rows: seq<seq<int32>>) {

    /** Android never produces a bitmap with a zero dimension. */
    predicate Valid() {
      0 < width && 0 < height && |rows| == height
      && forall y :: 0 <= y < height ==> |rows[y]| == width
    }

    predicate Contains(x: int, y: int) {
      0 <= x < width && 0 <= y < height
    }

    /** `Bitmap.getPixel(x, y)`; the platform throws outside the bitmap. */
    function Pixel(x: int, y: int): int32
      requires Valid() && Contains(x, y)
    {
      rows[y][x]
    }
  }

  /** `pixel and 0xFFFFFF`: the low 24 bits, alpha dropped. */
  function Masked(p: int): int {
    p % 0x100_0000
  }

  /** Byte `k` of `p`, counting from the least significant: `(p shr 8k) and 0xFF`. */
  function Byte(p: int, k: nat): int
    decreases k
  {
    if k == 0 then p % 0x100 else Byte(p / 0x100, k - 1)
  }

  function Alpha(p: int): int {
    Byte(p, 3)
  }

  function Red(p: int): int {
    Byte(p, 2)
  }

  function Green(p: int): int {
    Byte(p, 1)
  }

  function Blue(p: int): int {
    Byte(p, 0)
  }

  predicate IsByte(v: int) {
    0 <= v < 0x100
  }

  /** The colour `Int` with the given channels (Android's `Color.argb`). */
  function Argb(a: int, r: int, g: int, b: int): int32
    requires IsByte(a) && IsByte(r) && IsByte(g) && IsByte(b)
  {
    var u := a * 0x100_0000 + r * 0x1_0000 + g * 0x100 + b;
    if u < 0x8000_0000 then u else u - 0x1_0000_0000
  }

  /** Reading the channels back from a packed colour gives the channels it was packed from. */
  lemma ArgbChannels(a: int, r: int, g: int, b: int)
    requires IsByte(a) && IsByte(r) && IsByte(g) && IsByte(b)
    ensures Alpha(Argb(a, r, g, b)) == a
    ensures Red(Argb(a, r, g, b)) == r
    ensures Green(Argb(a, r, g, b)) == g
    ensures Blue(Argb(a, r, g, b)) == b
    ensures Masked(Argb(a, r, g, b)) == r * 0x1_0000 + g * 0x100 + b
  {
    var low := r * 0x1_0000 + g * 0x100 + b;
    var p := Argb(a, r, g, b);
    var q := if a < 0x80 then a else a - 0x100;
    assert p == q * 0x100_0000 + low;
    DivModOf(p, 0x100_0000, q, low);
    DivModOf(p, 0x1_0000, q * 0x100 + r, g * 0x100 + b);
    DivModOf(q * 0x100 + r, 0x100, q, r);
    DivModOf(p, 0x100, q * 0x1_0000 + r * 0x100 + g, b);
    DivModOf(q * 0x1_0000 + r * 0x100 + g, 0x100, q * 0x100 + r, g);
    DivModOf(q, 0x100, if a < 0x80 then 0 else -1, a);
  }

  /** Every `Int` is the packing of its own four channels. */
  lemma ArgbOfChannels(p: int32)
    ensures IsByte(Alpha(p)) && IsByte(Red(p)) && IsByte(Green(p)) && IsByte(Blue(p))
    ensures Argb(Alpha(p), Red(p), Green(p), Blue(p)) == p
  {
    var q1, b := p / 0x100, p % 0x100;
    var q2, g := q1 / 0x100, q1 % 0x100;
    var q3, r := q2 / 0x100, q2 % 0x100;
    var low := r * 0x1_0000 + g * 0x100 + b;
    assert p == q1 * 0x100 + b;
    assert q1 == q2 * 0x100 + g;
    assert q2 == q3 * 0x100 + r;
    assert p == q3 * 0x100_0000 + low;
    assert -0x80 <= q3 < 0x80;
    DivModOf(p, 0x1_0000, q2, g * 0x100 + b);
    DivModOf(p, 0x100_0000, q3, low);
    var a := if q3 < 0 then q3 + 0x100 else q3;
    DivModOf(q3, 0x100, if q3 < 0 then -1 else 0, a);
    assert Alpha(p) == a && Red(p) == r && Green(p) == g && Blue(p) == b;
    assert a * 0x100_0000 + low == (if q3 < 0 then p + 0x1_0000_0000 else p);
  }

  /** Masking off the alpha byte keeps the three colour channels. */
  lemma MaskedChannels(p: int)
    ensures 0 <= Masked(p) < 0x100_0000
    ensures Red(Masked(p)) == Red(p) && Green(Masked(p)) == Green(p) && Blue(Masked(p)) == Blue(p)
    ensures Masked(p) == Red(p) * 0x1_0000 + Green(p) * 0x100 + Blue(p)
  {
    var q, m := p / 0x100_0000, p % 0x100_0000;
    assert p == q * 0x100_0000 + m;
    var r, gb := m / 0x1_0000, m % 0x1_0000;
    DivModOf(p, 0x1_0000, q * 0x100 + r, gb);
    DivModOf(q * 0x100 + r, 0x100, q, r);
    DivModOf(m, 0x100, r * 0x100 + gb / 0x100, gb % 0x100);
    DivModOf(p, 0x100, q * 0x1_0000 + r * 0x100 + gb / 0x100, gb % 0x100);
    DivModOf(q * 0x1_0000 + r * 0x100 + gb / 0x100, 0x100, q * 0x100 + r, gb / 0x100);
    DivModOf(r * 0x100 + gb / 0x100, 0x100, r, gb / 0x100);
  }

  /** Euclidean division is determined by quotient and remainder. */
  lemma DivModOf(n: int, d: int, q: int, r: int)
    requires 0 < d && 0 <= r < d && n == q * d + r
    ensures n / d == q && n % d == r
  {
    var q', r' := n / d, n % d;
    assert n == q' * d + r';
    if q' < q {
      assert (q - q') * d >= d by { MulAtLeast(q - q', d); }
    } else if q < q' {
      assert (q' - q) * d >= d by { MulAtLeast(q' - q, d); }
    }
  }

  lemma MulAtLeast(k: int, d: int)
    requires 1 <= k && 0 < d
    ensures k * d >= d
  {
  }
}
