/** The Python 3 poster generator: a `Video2Poster` object holds the poster
    geometry, the frame size chosen for the video and the list of frame
    files, and composes the poster from them. */
module V2P {
  import opened Errors
  import opened Ratio
  import opened Geometry
  import opened Layout
  import opened Frames
  import opened Placement

  class Video2Poster {
    var videoPath: string
    var posterIn: (Inches, Inches)
    var title: string
    var dpi: nat
    var marginIn: (Inches, Inches)
    var fontMarginPx: nat
    var ratio: AspectRatio
    var marginPx: (nat, nat)
    var posterPx: (nat, nat)
    var targetPx: (int, int)
    var frameCt: nat
    var frameList: seq<string>
    var picPx: (nat, nat)

    /** The inputs of the width scan as the object holds them. */
    function Target(): Grid
      reads this`targetPx, this`ratio, this`frameCt
    {
      Grid(targetPx.0, targetPx.1, ratio, frameCt)
    }

    /** The geometry agrees with the sizes in inches, the frame size is the
        scan's result for it, and the list holds no more frames than the
        layout was made for. */
    ghost predicate Valid()
      reads this
    {
      CanvasOf(posterIn.0, posterIn.1, marginIn, dpi, fontMarginPx) == Canvas(marginPx, posterPx, targetPx) &&
      picPx == OptimalRes(Target()) &&
      |frameList| <= frameCt
    }

    /** The object for one video. The probe's answer enters as the frame
        ratio and the frame count `int(duration * sample_rate)`. */
    constructor (filename: string, widthIn: Inches, heightIn: Inches, title: string, dpi: nat,
                 margins: (Inches, Inches), fontMarginPx: nat, ratio: AspectRatio, frameCt: nat)
      ensures Valid()
      ensures videoPath == filename && posterIn == (widthIn, heightIn) && this.title == title
      ensures this.dpi == dpi && marginIn == margins && this.fontMarginPx == fontMarginPx
      ensures this.ratio == ratio && this.frameCt == frameCt && frameList == []
      ensures targetPx.0 == posterPx.0 - 2 * marginPx.0
      ensures targetPx.1 == posterPx.1 - 2 * marginPx.1 - fontMarginPx
    {
      videoPath := filename;
      posterIn := (widthIn, heightIn);
      this.title := title;
      this.dpi := dpi;
      marginIn := margins;
      this.fontMarginPx := fontMarginPx;
      this.ratio := ratio;
      var c := CanvasOf(widthIn, heightIn, margins, dpi, fontMarginPx);
      marginPx := c.margin;
      posterPx := c.poster;
      targetPx := c.target;
      this.frameCt := frameCt;
      frameList := [];
      new;
      var x, y := CalcOptimalRes();
      picPx := (x, y);
    }

    /** `_calc_optimal_res` on the object's target area, ratio and frame count. */
    method CalcOptimalRes() returns (xRes: nat, yRes: nat)
      ensures (xRes, yRes) == OptimalRes(Target())
    {
      xRes, yRes := Layout.CalcOptimalRes(Target());
    }

    /** The frame-collecting part of `GeneratePoster`: the listed frame files
        are appended in listing order, then the list is popped from the tail
        until it holds at most `frame_ct` entries. */
    method GeneratePoster(listing: seq<string>)
      requires Valid()
      modifies this`frameList
      ensures Valid()
      ensures frameList == KeepFirst(old(frameList) + listing, frameCt)
    {
      for i := 0 to |listing|
        invariant frameList == old(frameList) + listing[..i]
      {
        frameList := frameList + [listing[i]];
      }
      assert listing[..|listing|] == listing;
      ghost var all := frameList;
      while |frameList| > frameCt
        invariant frameList <= all
        invariant |frameList| >= Min(|all|, frameCt)
        decreases |frameList|
      {
        frameList := frameList[..|frameList| - 1];
      }
    }

    /** The paste positions of `SavePoster`. A zero frame width fails, as
        the source's division by it does. Otherwise each frame that opens is
        pasted at the next row-major slot, offset to centre the grid and to
        clear the title band; when the frame width is one the scan checked,
        every frame lands inside the target area. */
    method SavePoster(opens: string -> bool) returns (r: Result<seq<Paste>>)
      requires Valid()
      ensures r.Err? <==> picPx.0 == 0
      ensures r.Err? ==> r.error == ZeroFrameWidth
      ensures r.Ok? ==> picPx.0 > 0 && |r.value| == |Opened(frameList, opens)|
      ensures r.Ok? ==> forall k :: 0 <= k < |r.value| ==>
                var slot := Slot(k, TruncDiv(targetPx.0, picPx.0));
                r.value[k] == Paste(Opened(frameList, opens)[k],
                                    picPx.0 * slot.0 + XOffset(marginPx.0, targetPx.0, picPx.0),
                                    picPx.1 * slot.1 + YOffset(marginPx.1, fontMarginPx))
      ensures r.Ok? && Start(Target()) <= picPx.0 ==> forall k :: 0 <= k < |r.value| ==>
                InsideTarget(r.value[k], picPx.0, picPx.1, marginPx, fontMarginPx, targetPx)
    {
      if picPx.0 == 0 {
        return Err(ZeroFrameWidth);
      }
      var picW: PosNat := picPx.0;
      var xPerLine := TruncDiv(targetPx.0, picW);
      var xOfs := XOffset(marginPx.0, targetPx.0, picW);
      var yOfs := YOffset(marginPx.1, fontMarginPx);
      var pastes := PlaceFrames(frameList, opens, picPx.0, picPx.1, xPerLine, xOfs, yOfs);
      if Start(Target()) <= picW {
        ResultFits(Target());
        forall k | 0 <= k < |pastes|
          ensures InsideTarget(pastes[k], picPx.0, picPx.1, marginPx, fontMarginPx, targetPx)
        {
          assert xPerLine == PerLine(Target(), picW);
          SlotInsideTarget(Target(), picW, marginPx.0, marginPx.1, fontMarginPx, k);
        }
      }
      r := Ok(pastes);
    }
  }
}
