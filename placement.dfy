/** Where the poster composer pastes each frame: offsets that centre the
    grid horizontally and put it below the title band, and row-major
    stepping of a column and a row counter. */
module Placement {
  import opened Ratio
  import opened Geometry
  import opened Layout

  /** One call of `paste`: the frame file and the top left corner it goes to. */
  datatype Paste = Paste(frame: string, x: int, y: int)

  /** Python 3's `int(a / b)`: the quotient rounded toward zero. */
  function TruncDiv(a: int, b: PosNat): (q: int)
    ensures a >= 0 ==> q * b <= a < (q + 1) * b
    ensures a < 0 ==> (q - 1) * b < a <= q * b
  {
    if a >= 0 then a / b else -((-a) / b)
  }

  /** On a non-negative dividend, rounding toward zero and Python 2's
      floor division agree: both files get the same frames per row from a
      target area that is not negative. */
  lemma TruncDivIsFloor(a: nat, b: PosNat)
    ensures TruncDiv(a, b) == a / b
  {
  }

  /** `x_ofs`: the left margin plus half the horizontal slack the grid leaves. */
  function XOffset(marginX: nat, targetX: int, picW: PosNat): (x: int)
    ensures marginX <= x <= marginX + (picW - 1) / 2
  {
    marginX + (targetX % picW) / 2
  }

  /** The grid is centred: with as many columns as fit across the target,
      the gap it leaves on the left is at most the gap on the right, and
      the right gap is at most one pixel wider. */
  lemma XOffsetCentres(marginX: nat, targetX: int, picW: PosNat)
    ensures var left := XOffset(marginX, targetX, picW) - marginX;
            var right := marginX + targetX - (XOffset(marginX, targetX, picW) + picW * (targetX / picW));
            left <= right <= left + 1
  {
    assert picW * (targetX / picW) + targetX % picW == targetX;
  }

  /** `y_ofs`: the top margin plus the title band. */
  function YOffset(marginY: nat, titleBand: nat): (y: nat)
    ensures marginY <= y && y - marginY == titleBand
  {
    marginY + titleBand
  }

  /** Below the grid's top edge the canvas holds exactly the target height
      and the bottom margin: the title band sits between the top margin and
      the first row. */
  lemma GridTopMeetsTarget(width: Inches, height: Inches, margins: (Inches, Inches), dpi: nat, titleBand: nat)
    ensures var c := CanvasOf(width, height, margins, dpi, titleBand);
            YOffset(c.margin.1, titleBand) + c.target.1 + c.margin.1 == c.poster.1
  {
  }

  /** A frame of size w by h pasted at p lies inside the target area the
      margins and the title band leave on the poster. */
  predicate InsideTarget(p: Paste, w: nat, h: nat, margin: (nat, nat), titleBand: nat, target: (int, int))
  {
    margin.0 <= p.x && p.x + w <= margin.0 + target.0 &&
    margin.1 + titleBand <= p.y && p.y + h <= margin.1 + titleBand + target.1
  }

  /** Column and row of the k-th pasted frame, in closed form. */
  function Slot(k: nat, perLine: int): (s: (nat, nat))
    ensures perLine >= 1 ==> s.0 < perLine && s.1 * perLine + s.0 == k
    ensures perLine <= 1 ==> s == (0, k)
  {
    if perLine <= 1 then (0, k) else (k % perLine, k / perLine)
  }

  /** The counters' update rule (`x_cnt + 1 < x_per_line` advances the
      column, anything else wraps to the next row) walks the slots in order. */
  lemma SlotStep(k: nat, perLine: int)
    ensures Slot(k + 1, perLine) ==
            if Slot(k, perLine).0 + 1 < perLine then (Slot(k, perLine).0 + 1, Slot(k, perLine).1)
            else (0, Slot(k, perLine).1 + 1)
  {
    if perLine > 1 {
      var (c, r) := Slot(k, perLine);
      var (c', r') := Slot(k + 1, perLine);
      if c + 1 < perLine {
        assert r * perLine + (c + 1) == k + 1;
        SlotUnique(k + 1, perLine, c + 1, r, c', r');
      } else {
        assert (r + 1) * perLine + 0 == k + 1;
        SlotUnique(k + 1, perLine, 0, r + 1, c', r');
      }
    }
  }

  /** A position in a row of perLine slots has one column and one row. */
  lemma SlotUnique(k: nat, perLine: PosNat, c1: nat, r1: nat, c2: nat, r2: nat)
    requires c1 < perLine && r1 * perLine + c1 == k
    requires c2 < perLine && r2 * perLine + c2 == k
    ensures c1 == c2 && r1 == r2
  {
    if r1 < r2 {
      MulLeftMonotone(perLine, r1 + 1, r2);
      assert false;
    } else if r2 < r1 {
      MulLeftMonotone(perLine, r2 + 1, r1);
      assert false;
    }
  }

  /** The frames that open, in list order. */
  function Opened(frames: seq<string>, opens: string -> bool): (r: seq<string>)
    ensures |r| <= |frames|
    ensures forall i :: 0 <= i < |r| ==> r[i] in frames && opens(r[i])
  {
    if frames == [] then []
    else
      var last := frames[|frames| - 1];
      Opened(frames[..|frames| - 1], opens) + if opens(last) then [last] else []
  }

  /** Nothing that opens is lost: every frame of the list that opens is
      among the frames pasted. */
  lemma {:induction false} OpenedKeepsEvery(frames: seq<string>, opens: string -> bool)
    ensures forall f :: f in frames && opens(f) ==> f in Opened(frames, opens)
  {
    if frames != [] {
      var init, last := frames[..|frames| - 1], frames[|frames| - 1];
      OpenedKeepsEvery(init, opens);
      assert frames == init + [last];
    }
  }

  /** Filtering keeps list order: the frames of a concatenation that open
      are those of the first part followed by those of the second. */
  lemma {:induction false} OpenedAppend(a: seq<string>, b: seq<string>, opens: string -> bool)
    ensures Opened(a + b, opens) == Opened(a, opens) + Opened(b, opens)
  {
    if b == [] {
      assert a + b == a;
    } else {
      var b' := b[..|b| - 1];
      assert (a + b)[..|a + b| - 1] == a + b';
      OpenedAppend(a, b', opens);
    }
  }

  /** When every frame opens, none is dropped and the order is unchanged. */
  lemma {:induction false} OpenedAll(frames: seq<string>, opens: string -> bool)
    requires forall i :: 0 <= i < |frames| ==> opens(frames[i])
    ensures Opened(frames, opens) == frames
  {
    if frames != [] {
      var init := frames[..|frames| - 1];
      OpenedAll(init, opens);
      assert init + [frames[|frames| - 1]] == frames;
    }
  }

  /** The paste loop of the composer: each frame that opens goes to the next
      slot in row-major order; a frame that fails to open is skipped and
      does not use up a slot. */
  method PlaceFrames(frames: seq<string>, opens: string -> bool, picW: nat, picH: nat,
                     xPerLine: int, xOfs: int, yOfs: int) returns (pastes: seq<Paste>)
    ensures |pastes| == |Opened(frames, opens)|
    ensures forall k :: 0 <= k < |pastes| ==>
              pastes[k] == Paste(Opened(frames, opens)[k],
                                 picW * Slot(k, xPerLine).0 + xOfs,
                                 picH * Slot(k, xPerLine).1 + yOfs)
  {
    var xCnt, yCnt := 0, 0;
    pastes := [];
    for i := 0 to |frames|
      invariant |pastes| == |Opened(frames[..i], opens)|
      invariant forall k :: 0 <= k < |pastes| ==>
                  pastes[k] == Paste(Opened(frames[..i], opens)[k],
                                     picW * Slot(k, xPerLine).0 + xOfs,
                                     picH * Slot(k, xPerLine).1 + yOfs)
      invariant (xCnt, yCnt) == Slot(|pastes|, xPerLine)
    {
      assert frames[..i + 1][..i] == frames[..i];
      if !opens(frames[i]) {
        continue;
      }
      pastes := pastes + [Paste(frames[i], picW * xCnt + xOfs, picH * yCnt + yOfs)];
      SlotStep(|pastes| - 1, xPerLine);
      if xCnt + 1 < xPerLine {
        xCnt := xCnt + 1;
      } else {
        xCnt := 0;
        yCnt := yCnt + 1;
      }
    }
    assert frames[..|frames|] == frames;
  }

  /** With n frames pasted row by row, the last one lands in row
      `ceil(n / per_row) - 1`: the grid uses exactly the rows the scan
      accounted for. */
  lemma RowsUsed(n: nat, perLine: PosNat)
    requires n >= 1
    ensures Slot(n - 1, perLine).1 + 1 == CeilDiv(n, perLine)
  {
    var (c, r) := Slot(n - 1, perLine);
    var q := CeilDiv(n, perLine);
    // r * perLine <= n - 1 < (r + 1) * perLine, and q is the least multiple count covering n
    if q < r + 1 {
      MulLeftMonotone(perLine, q, r);
      assert false;
    }
    if q > r + 1 {
      MulLeftMonotone(perLine, r + 1, q - 1);
      assert false;
    }
  }

  /** A frame at slot k of a grid whose width passed the scan's fit check,
      with k below the frame count, lies inside the target area: it starts
      right of the left margin, ends left of the right margin, starts below
      the title band and ends above the bottom margin. */
  lemma SlotInsideTarget(g: Grid, w: PosNat, marginX: nat, marginY: nat, titleBand: nat, k: nat)
    requires Fits(g, w)
    requires k < g.frames
    ensures var x := w * Slot(k, PerLine(g, w)).0 + XOffset(marginX, g.xLen, w);
            marginX <= x && x + w <= marginX + g.xLen
    ensures var h := HeightFor(w, g.ratio);
            var y := h * Slot(k, PerLine(g, w)).1 + YOffset(marginY, titleBand);
            YOffset(marginY, titleBand) <= y && y + h <= YOffset(marginY, titleBand) + g.yLen
  {
    var p := PerLine(g, w);
    var (c, r) := Slot(k, p);
    ColumnInside(g.xLen, w, p, c, marginX);
    RowBelowCount(k, p, c, r, g.frames);
    RowInside(HeightFor(w, g.ratio), r, Rows(g, w), g.yLen, YOffset(marginY, titleBand));
  }

  lemma ColumnInside(xLen: int, w: PosNat, p: nat, c: nat, marginX: nat)
    requires p == xLen / w && c < p
    ensures marginX <= w * c + XOffset(marginX, xLen, w)
    ensures w * c + XOffset(marginX, xLen, w) + w <= marginX + xLen
  {
    MulLeftMonotone(w, c + 1, p);
    assert w * p + xLen % w == xLen;
  }

  lemma RowBelowCount(k: nat, p: PosNat, c: nat, r: nat, n: nat)
    requires r * p + c == k < n
    ensures r < CeilDiv(n, p)
  {
    var rows := CeilDiv(n, p);
    if rows < r + 1 {
      MulLeftMonotone(p, rows, r);
      assert false;
    }
  }

  lemma RowInside(h: nat, r: nat, rows: nat, yLen: int, yOfs: int)
    requires r < rows && rows * h <= yLen
    ensures yOfs <= h * r + yOfs && h * r + yOfs + h <= yOfs + yLen
  {
    MulLeftMonotone(h, r + 1, rows);
  }
}
