/** Canvas geometry: the poster, its margins and the area left for frames,
    all in pixels, from physical sizes in inches and the print resolution. */
module Geometry {
  import opened Ratio

  /** A physical length of num / den inches. */
  datatype Inches = Inches(num: nat, den: PosNat)

  /** `int(inches * dpi)`: a length in whole pixels, rounded down. */
  function Pixels(len: Inches, dpi: nat): (px: nat)
    ensures px * len.den <= len.num * dpi < (px + 1) * len.den
  {
    len.num * dpi / len.den
  }

  /** The poster in pixels: its full size, one margin on each side, and the
      target area left for the frame grid once both margins of each axis and
      the title band above the grid are taken away. */
  datatype Canvas = Canvas(margin: (nat, nat), poster: (nat, nat), target: (int, int))

  function CanvasOf(width: Inches, height: Inches, margins: (Inches, Inches), dpi: nat, titleBand: nat): (c: Canvas)
    ensures c.margin == (Pixels(margins.0, dpi), Pixels(margins.1, dpi))
    ensures c.poster == (Pixels(width, dpi), Pixels(height, dpi))
    ensures c.margin.0 + c.target.0 + c.margin.0 == c.poster.0
    ensures c.margin.1 + titleBand + c.target.1 + c.margin.1 == c.poster.1
  {
    var margin := (Pixels(margins.0, dpi), Pixels(margins.1, dpi));
    var poster := (Pixels(width, dpi), Pixels(height, dpi));
    var target: (int, int) := (poster.0 as int - margin.0 * 2, poster.1 as int - margin.1 * 2 - titleBand);
    Canvas(margin, poster, target)
  }

  /** Whole inches need no rounding. */
  lemma WholeInches(n: nat, dpi: nat)
    ensures Pixels(Inches(n, 1), dpi) == n * dpi
  {
  }

  /** A larger poster at the same resolution and margins never has a smaller
      target area. Lengths are compared as fractions, whatever their
      denominators. */
  lemma {:induction false} TargetMonotone(w1: Inches, h1: Inches, w2: Inches, h2: Inches,
                                          margins: (Inches, Inches), dpi: nat, titleBand: nat)
    requires w1.num * w2.den <= w2.num * w1.den
    requires h1.num * h2.den <= h2.num * h1.den
    ensures CanvasOf(w1, h1, margins, dpi, titleBand).target.0 <= CanvasOf(w2, h2, margins, dpi, titleBand).target.0
    ensures CanvasOf(w1, h1, margins, dpi, titleBand).target.1 <= CanvasOf(w2, h2, margins, dpi, titleBand).target.1
  {
    PixelsMonotone(w1, w2, dpi);
    PixelsMonotone(h1, h2, dpi);
  }

  /** A length no shorter than another, as a fraction of inches, is no
      fewer whole pixels at the same resolution. */
  lemma PixelsMonotone(a: Inches, b: Inches, dpi: nat)
    requires a.num * b.den <= b.num * a.den
    ensures Pixels(a, dpi) <= Pixels(b, dpi)
  {
    var pa, pb := Pixels(a, dpi), Pixels(b, dpi);
    var d := a.den * b.den;
    // pa * a.den <= a.num * dpi, scaled by b.den
    MulLeftMonotone(b.den, pa * a.den, a.num * dpi);
    assert pa * d <= (a.num * b.den) * dpi;
    // a.num * b.den <= b.num * a.den, scaled by dpi
    MulLeftMonotone(dpi, a.num * b.den, b.num * a.den);
    assert (a.num * b.den) * dpi <= (b.num * dpi) * a.den;
    // b.num * dpi < (pb + 1) * b.den, scaled by a.den
    MulLeftStrict(a.den, b.num * dpi, (pb + 1) * b.den);
    assert (b.num * dpi) * a.den < (pb + 1) * d;
    if pb < pa {
      MulLeftMonotone(d, pb + 1, pa);
      assert false;
    }
  }

  /** The default poster: 12 by 18 inches at 300 dpi with one-inch margins
      and a 400-pixel title band. */
  lemma DefaultPoster()
    ensures CanvasOf(Inches(12, 1), Inches(18, 1), (Inches(1, 1), Inches(1, 1)), 300, 400)
            == Canvas((300, 300), (3600, 5400), (3000, 4400))
  {
  }
}
