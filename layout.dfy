/** The grid layout engine: the scan for the frame width that makes the
    frame grid as large as it can be inside the target area. */
module Layout {
  import opened Ratio

  /** What the scan works from: the target area in pixels, the frames'
      aspect ratio and the number of frames to lay out. */
  datatype Grid = Grid(xLen: int, yLen: int, ratio: AspectRatio, frames: nat)

  /** `int(ratio) + 1`: the first width the scan tries, the least whole
      number above the ratio (a frame is at least one pixel high there). */
  function Start(g: Grid): (s: PosNat)
    ensures (s - 1) * g.ratio.h <= g.ratio.w < s * g.ratio.h
  {
    IntPart(g.ratio) + 1
  }

  /** The widths the scan may try: `range(int(ratio) + 1, x_len)`. */
  predicate InScan(g: Grid, w: int)
  {
    Start(g) <= w < g.xLen
  }

  /** `ceil(a / b)`. */
  function CeilDiv(a: nat, b: PosNat): (q: nat)
    ensures q * b >= a
    ensures q > 0 ==> (q - 1) * b < a
  {
    (a + b - 1) / b
  }

  /** `per_x_line`: how many frames of width w fit side by side. */
  function PerLine(g: Grid, w: PosNat): (p: nat)
    requires w < g.xLen
    ensures p >= 1
    ensures p * w <= g.xLen < (p + 1) * w
  {
    g.xLen / w
  }

  /** `y_lines`: the rows the frames need at width w. */
  function Rows(g: Grid, w: PosNat): (r: nat)
    requires w < g.xLen
    ensures r * PerLine(g, w) >= g.frames
    ensures r > 0 ==> (r - 1) * PerLine(g, w) < g.frames
  {
    CeilDiv(g.frames, PerLine(g, w))
  }

  /** `y_lines * y_res`: the height of the whole grid at width w. Spread
      over the columns of one row it is room for every frame's height. */
  function GridHeight(g: Grid, w: PosNat): (h: nat)
    requires w < g.xLen
    ensures PerLine(g, w) * h >= g.frames * HeightFor(w, g.ratio)
    ensures g.frames > 0 ==> h >= HeightFor(w, g.ratio)
  {
    var rows, y := Rows(g, w), HeightFor(w, g.ratio);
    MulLeftMonotone(y, g.frames, rows * PerLine(g, w));
    assert g.frames > 0 ==> y * 1 <= y * rows by {
      if g.frames > 0 {
        MulLeftMonotone(y, 1, rows);
      }
    }
    rows * y
  }

  /** Width w is one the scan tries and the grid fits the target height. */
  predicate Fits(g: Grid, w: int)
  {
    InScan(g, w) && GridHeight(g, w) <= g.yLen
  }

  /** The last width assigned to `x_res` once the scan has reached width i:
      the first too-tall width from i on, or the range's last width. */
  function LastTried(g: Grid, i: int): (last: int)
    requires InScan(g, i)
    ensures i <= last < g.xLen
    decreases g.xLen - i
  {
    if GridHeight(g, i) > g.yLen || i + 1 == g.xLen then i else LastTried(g, i + 1)
  }

  /** The value `x_res` holds when the loop ends; 1 when the range is empty. */
  function ScanEnd(g: Grid): (e: PosNat)
    ensures Start(g) < g.xLen ==> Start(g) <= e < g.xLen
    ensures g.xLen <= Start(g) ==> e == 1
  {
    if Start(g) < g.xLen then LastTried(g, Start(g)) else 1
  }

  /** The result of `_calc_optimal_res`: the width one less than where the
      scan ended, and its height. */
  function OptimalRes(g: Grid): (res: (nat, nat))
    ensures res.1 == HeightFor(res.0, g.ratio)
    ensures Start(g) < g.xLen ==> Start(g) - 1 <= res.0 <= g.xLen - 2
    ensures g.xLen <= Start(g) ==> res == (0, 0)
  {
    var w := ScanEnd(g) - 1;
    (w, HeightFor(w, g.ratio))
  }

  /** `_calc_optimal_res`, loop for loop. */
  method CalcOptimalRes(g: Grid) returns (xRes: nat, yRes: nat)
    ensures (xRes, yRes) == OptimalRes(g)
    ensures yRes == HeightFor(xRes, g.ratio)
  {
    var xLenPx, yLenPx := g.xLen, g.yLen;
    var r := g.ratio;
    var res: int := 1;
    var i: int := r.w / r.h + 1;
    while i < xLenPx
      invariant Start(g) <= i
      invariant i == Start(g) || i <= xLenPx
      invariant forall j :: Start(g) <= j < i ==> Fits(g, j)
      invariant res == if i == Start(g) then 1 else i - 1
      decreases xLenPx - i
    {
      res := i;
      var y := HeightFor(res, r);
      var perXLine := xLenPx / res;
      assert perXLine == PerLine(g, res) >= 1;
      var yLines := (g.frames + perXLine - 1) / perXLine;
      assert yLines * y == GridHeight(g, res);
      if yLines * y > yLenPx {
        LastTriedFrom(g, Start(g), i);
        break;
      }
      i := i + 1;
    }
    if i >= xLenPx && Start(g) < xLenPx {
      LastTriedFrom(g, Start(g), xLenPx - 1);
    }
    xRes := res - 1;
    yRes := HeightFor(xRes, r);
  }

  /** The scan from i ends at b when every width before b fits and b either
      overflows or is the range's last width. */
  lemma {:induction false} LastTriedFrom(g: Grid, i: int, b: int)
    requires InScan(g, i) && i <= b < g.xLen
    requires forall j :: i <= j < b ==> Fits(g, j)
    requires GridHeight(g, b) > g.yLen || b + 1 == g.xLen
    ensures LastTried(g, i) == b
    decreases b - i
  {
    if i < b {
      assert Fits(g, i);
      LastTriedFrom(g, i + 1, b);
    }
  }

  /** Every width from i up to, not including, where the scan stops fits;
      the scan stops at a width that overflows or at the range's end. */
  lemma {:induction false} LastTriedFacts(g: Grid, i: int)
    requires InScan(g, i)
    ensures forall j :: i <= j < LastTried(g, i) ==> Fits(g, j)
    ensures GridHeight(g, LastTried(g, i)) > g.yLen || LastTried(g, i) == g.xLen - 1
    decreases g.xLen - i
  {
    if !(GridHeight(g, i) > g.yLen || i + 1 == g.xLen) {
      LastTriedFacts(g, i + 1);
    }
  }

  /** What `_calc_optimal_res` returns, case by case:
      - an empty scan range gives (0, 0);
      - otherwise the width is at least `int(ratio)` and at most `x_len - 2`,
        every width the scan tried up to it fits, and the width after it
        overflows unless it is the range's last width;
      - the height is always the width's height at the frame ratio. */
  lemma OptimalResSpec(g: Grid)
    ensures OptimalRes(g).1 == HeightFor(OptimalRes(g).0, g.ratio)
    ensures g.xLen <= Start(g) ==> OptimalRes(g) == (0, 0)
    ensures Start(g) < g.xLen ==>
              var w := OptimalRes(g).0;
              Start(g) - 1 <= w <= g.xLen - 2 &&
              (forall j :: Start(g) <= j <= w ==> Fits(g, j)) &&
              (w + 1 < g.xLen - 1 ==> !Fits(g, w + 1))
  {
    if Start(g) < g.xLen {
      LastTriedFacts(g, Start(g));
    }
  }

  /** A width the scan tried before it stopped passed the fit check; in
      particular, when it returns a width the scan tried, that width fits. */
  lemma ResultFits(g: Grid)
    requires Start(g) <= OptimalRes(g).0
    ensures Fits(g, OptimalRes(g).0)
    ensures OptimalRes(g).1 * Rows(g, OptimalRes(g).0) <= g.yLen
  {
    OptimalResSpec(g);
    var w := OptimalRes(g).0;
    assert Fits(g, w);
    assert GridHeight(g, w) == Rows(g, w) * OptimalRes(g).1;
  }

  // ---------------------------------------------------------------------
  // Monotonicity: why backing off by one width gives the largest fit.

  /** The grid only grows taller as the frames get wider. */
  lemma GridHeightMonotone(g: Grid, a: PosNat, b: PosNat)
    requires a <= b < g.xLen
    ensures GridHeight(g, a) <= GridHeight(g, b)
  {
    PerLineAntitone(g, a, b);
    CeilDivAntitone(g.frames, PerLine(g, b), PerLine(g, a));
    HeightForMonotone(a, b, g.ratio);
    MulMonotone(Rows(g, a), Rows(g, b), HeightFor(a, g.ratio), HeightFor(b, g.ratio));
  }

  lemma PerLineAntitone(g: Grid, a: PosNat, b: PosNat)
    requires a <= b < g.xLen
    ensures PerLine(g, b) <= PerLine(g, a)
  {
    var pa, pb := PerLine(g, a), PerLine(g, b);
    if pa < pb {
      MulMonotone(pa + 1, pb, a, b);
      assert false;
    }
  }

  lemma CeilDivAntitone(n: nat, p: PosNat, q: PosNat)
    requires p <= q
    ensures CeilDiv(n, q) <= CeilDiv(n, p)
  {
    var cp, cq := CeilDiv(n, p), CeilDiv(n, q);
    if cp < cq {
      MulMonotone(cp, cq - 1, p, q);
      assert false;
    }
  }

  lemma HeightForMonotone(a: nat, b: nat, r: AspectRatio)
    requires a <= b
    ensures HeightFor(a, r) <= HeightFor(b, r)
  {
    var ya, yb := HeightFor(a, r), HeightFor(b, r);
    if yb < ya {
      MulLeftMonotone(r.h, a, b);
      MulMonotone(yb + 1, ya, r.w, r.w);
      assert false;
    }
  }

  lemma MulMonotone(a: nat, b: nat, c: nat, d: nat)
    requires a <= b && c <= d
    ensures a * c <= b * d
  {
    MulLeftMonotone(a, c, d);
    MulLeftMonotone(d, a, b);
  }

  /** Once a width overflows, every wider width the scan could try
      overflows too. */
  lemma OverflowPersists(g: Grid, a: int, b: int)
    requires InScan(g, a) && a <= b < g.xLen
    requires !Fits(g, a)
    ensures !Fits(g, b)
  {
    GridHeightMonotone(g, a, b);
  }

  /** When the scan breaks, the returned width is the largest width in the
      scan range that fits: every wider width overflows. */
  lemma LargestWhenBroken(g: Grid)
    requires Start(g) < g.xLen
    requires GridHeight(g, ScanEnd(g)) > g.yLen
    ensures forall j :: OptimalRes(g).0 < j < g.xLen ==> !Fits(g, j)
    ensures Start(g) <= OptimalRes(g).0 ==> Fits(g, OptimalRes(g).0)
  {
    OptimalResSpec(g);
    var e := ScanEnd(g);
    forall j | e <= j < g.xLen
      ensures !Fits(g, j)
    {
      OverflowPersists(g, e, j);
    }
  }

  /** The converse: a width that fits, followed by one that does not, is
      what the scan returns. */
  lemma OptimalResAtBoundary(g: Grid, w: int)
    requires Start(g) <= w && w + 1 < g.xLen
    requires Fits(g, w) && !Fits(g, w + 1)
    ensures OptimalRes(g) == (w, HeightFor(w, g.ratio))
  {
    forall j | Start(g) <= j < w + 1
      ensures Fits(g, j)
    {
      GridHeightMonotone(g, j, w);
    }
    LastTriedFrom(g, Start(g), w + 1);
  }

  /** A 3000 by 1500 pixel area, 16:9 frames and 30 of them: 500 pixels wide
      gives 6 per row, 5 rows of 281 pixels (1405 pixels in all); 501 wide
      gives only 5 per row and 6 rows (1686 pixels), too tall. */
  lemma WidescreenExample()
    ensures OptimalRes(Grid(3000, 1500, AspectRatio(16, 9), 30)) == (500, 281)
  {
    var g := Grid(3000, 1500, AspectRatio(16, 9), 30);
    assert GridHeight(g, 500) == 1405;
    assert GridHeight(g, 501) == 1686;
    OptimalResAtBoundary(g, 500);
  }

  /** The frame ratio enters only through its value: "16:9" and coded sizes
      of 1920 by 1080 give the same frame size. */
  lemma SameRatioSameResult(g1: Grid, g2: Grid)
    requires g1.xLen == g2.xLen && g1.yLen == g2.yLen && g1.frames == g2.frames
    requires g1.ratio.w * g2.ratio.h == g2.ratio.w * g1.ratio.h
    ensures OptimalRes(g1) == OptimalRes(g2)
  {
    IntPartSameValue(g1.ratio, g2.ratio);
    if Start(g1) < g1.xLen {
      LastTriedSameRatio(g1, g2, Start(g1));
    }
    HeightForSameValue(ScanEnd(g1) - 1, g1.ratio, g2.ratio);
  }

  lemma {:induction false} LastTriedSameRatio(g1: Grid, g2: Grid, i: int)
    requires g1.xLen == g2.xLen && g1.yLen == g2.yLen && g1.frames == g2.frames
    requires g1.ratio.w * g2.ratio.h == g2.ratio.w * g1.ratio.h
    requires InScan(g1, i)
    ensures InScan(g2, i) && LastTried(g1, i) == LastTried(g2, i)
    decreases g1.xLen - i
  {
    IntPartSameValue(g1.ratio, g2.ratio);
    HeightForSameValue(i, g1.ratio, g2.ratio);
    assert GridHeight(g1, i) == GridHeight(g2, i);
    if !(GridHeight(g1, i) > g1.yLen || i + 1 == g1.xLen) {
      LastTriedSameRatio(g1, g2, i + 1);
    }
  }

  /** When the scan never breaks, it returns `x_len - 2` although the last
      width it tried, `x_len - 1`, fits: in that case the result is one less
      than the largest fitting width. */
  lemma ShortWhenUnbroken(g: Grid)
    requires Start(g) < g.xLen
    requires forall j :: Start(g) <= j < g.xLen ==> Fits(g, j)
    ensures OptimalRes(g).0 == g.xLen - 2
    ensures Fits(g, g.xLen - 1)
  {
    LastTriedFacts(g, Start(g));
    assert Fits(g, LastTried(g, Start(g)));
  }
}
