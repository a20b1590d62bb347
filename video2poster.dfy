/** The older Python 2 poster generator: a `VideoToPoster` object whose
    derived fields are recomputed step by step by `_updt_vars`, and which
    resets its frame count to the frames it actually collected. */
module VideoToPosterPy2 {
  import opened Errors
  import opened Ratio
  import opened Geometry
  import opened Layout
  import opened Frames
  import opened Placement

  /** What the probe contributes: the frame count `int(duration * t_interval)`
      and the stream's `display_aspect_ratio` text. */
  datatype Probe = Probe(frameCount: nat, ratioText: string)

  /** The title band's height in pixels, fixed by the constructor. */
  const FONT_MARGIN_PX: nat := 400

  class VideoToPoster {
    var movieFilename: string
    var posterIn: (Inches, Inches)
    var title: string
    var dpi: nat
    var marginIn: (Inches, Inches)
    var fontMarPx: nat
    var frmList: seq<string>
    var frameCt: nat
    var ratioText: string
    var ratio: AspectRatio
    var marginPx: (nat, nat)
    var posterPx: (nat, nat)
    var tgtPx: (int, int)
    var picPx: (nat, nat)
    /** The frame count the frame size was computed for. */
    ghost var layoutCt: nat

    /** The inputs of the width scan that chose the current frame size. */
    ghost function Target(): Grid
      reads this`tgtPx, this`ratio, this`layoutCt
    {
      Grid(tgtPx.0, tgtPx.1, ratio, layoutCt)
    }

    /** The object after a successful `_updt_vars`: geometry from the sizes
        in inches, the frame size from the scan for `layoutCt` frames, and a
        frame count that never exceeds it. */
    ghost predicate Laid()
      reads this
    {
      CanvasOf(posterIn.0, posterIn.1, marginIn, dpi, fontMarPx) == Canvas(marginPx, posterPx, tgtPx) &&
      picPx == OptimalRes(Target()) &&
      |frmList| <= frameCt <= layoutCt
    }

    /** The field initialisation of `__init__`; its final `_updt_vars()` is
        the separate call UpdtVars, which can fail. */
    constructor (filename: string, width: Inches, height: Inches, title: string, dpi: nat, margins: (Inches, Inches))
      ensures movieFilename == filename && posterIn == (width, height) && this.title == title
      ensures this.dpi == dpi && marginIn == margins && fontMarPx == FONT_MARGIN_PX
      ensures frmList == [] && frameCt == 0
    {
      movieFilename := filename;
      posterIn := (width, height);
      this.title := title;
      this.dpi := dpi;
      marginIn := margins;
      fontMarPx := FONT_MARGIN_PX;
      frmList := [];
      frameCt := 0;
    }

    /** `_updt_vars`: clear the frame list, read the probe, then recompute
        margins, poster size, target area, frame count and frame size. A
        ratio text that does not parse stops it after the list is cleared. */
    method UpdtVars(probe: Probe) returns (outcome: Outcome)
      modifies this`frmList, this`ratioText, this`ratio, this`marginPx, this`posterPx, this`tgtPx,
               this`frameCt, this`picPx, this`layoutCt
      ensures frmList == [] && ratioText == probe.ratioText
      ensures outcome.Pass? <==> ParseRatio(probe.ratioText).Ok?
      ensures outcome.Fail? ==> outcome.error == ParseRatio(probe.ratioText).error
      ensures outcome.Fail? ==> ratio == old(ratio) && marginPx == old(marginPx) && posterPx == old(posterPx) &&
                                tgtPx == old(tgtPx) && frameCt == old(frameCt) && picPx == old(picPx) &&
                                layoutCt == old(layoutCt)
      ensures outcome.Fail? && old(Laid()) ==> Laid()
      ensures outcome.Pass? ==> ratio == ParseRatio(probe.ratioText).value && frameCt == probe.frameCount &&
                                layoutCt == frameCt && Laid()
      ensures outcome.Pass? ==> tgtPx.0 == posterPx.0 - 2 * marginPx.0 &&
                                tgtPx.1 == posterPx.1 - 2 * marginPx.1 - fontMarPx
    {
      frmList := [];
      outcome := GetMovieInfo(probe);
      if outcome.Fail? {
        return;
      }
      Relayout(probe.frameCount);
    }

    /** The rest of `_updt_vars`, once the ratio is known: margins, poster
        size and target area in pixels from the inches, the frame count, and
        the frame size the scan chooses for them. */
    method Relayout(frameCount: nat)
      requires frmList == []
      modifies this`marginPx, this`posterPx, this`tgtPx, this`frameCt, this`picPx, this`layoutCt
      ensures frameCt == frameCount && layoutCt == frameCt && Laid()
      ensures tgtPx.0 == posterPx.0 - 2 * marginPx.0 &&
              tgtPx.1 == posterPx.1 - 2 * marginPx.1 - fontMarPx
    {
      var canvas := CanvasOf(posterIn.0, posterIn.1, marginIn, dpi, fontMarPx);
      marginPx := canvas.margin;
      posterPx := canvas.poster;
      tgtPx := canvas.target;
      frameCt := frameCount;
      CalcOptimalRes();
      layoutCt := frameCt;
    }

    /** `_get_movie_info`: keep the probe's ratio text and read the ratio
        from it; a text that does not parse leaves the ratio as it was. */
    method GetMovieInfo(probe: Probe) returns (outcome: Outcome)
      modifies this`ratioText, this`ratio
      ensures ratioText == probe.ratioText
      ensures outcome.Pass? <==> ParseRatio(probe.ratioText).Ok?
      ensures outcome.Pass? ==> ratio == ParseRatio(probe.ratioText).value
      ensures outcome.Fail? ==> outcome.error == ParseRatio(probe.ratioText).error && ratio == old(ratio)
    {
      ratioText := probe.ratioText;
      var parsed := ParseRatio(ratioText);
      if parsed.Err? {
        return Fail(parsed.error);
      }
      ratio := parsed.value;
      outcome := Pass;
    }

    /** `_calc_optimal_res`: store the scan's frame size for the current
        target area, ratio and frame count. */
    method CalcOptimalRes()
      modifies this`picPx
      ensures picPx == OptimalRes(Grid(tgtPx.0, tgtPx.1, ratio, frameCt))
    {
      var x, y := Layout.CalcOptimalRes(Grid(tgtPx.0, tgtPx.1, ratio, frameCt));
      picPx := (x, y);
    }

    /** `_build_frame_list`: append each listed file that opens; one that
        fails to open empties the whole list and ends the scan. Then pop the
        tail down to `frame_ct` entries and set `frame_ct` to what is left.
        The frame size is not recomputed for the smaller count. */
    method BuildFrameList(listing: seq<string>, opens: string -> bool)
      requires Laid()
      modifies this`frmList, this`frameCt
      ensures Laid()
      ensures frmList == KeepFirst(Collected(old(frmList), listing, opens), old(frameCt))
      ensures frameCt == |frmList| && frameCt <= old(frameCt)
    {
      for i := 0 to |listing|
        invariant frmList == old(frmList) + listing[..i]
        invariant forall j :: 0 <= j < i ==> opens(listing[j])
        invariant frameCt == old(frameCt)
      {
        if opens(listing[i]) {
          frmList := frmList + [listing[i]];
        } else {
          frmList := [];
          assert frmList == Collected(old(frmList), listing, opens) by {
            assert !opens(listing[i]);
          }
          break;
        }
      }
      assert listing[..|listing|] == listing;
      ghost var collected := frmList;
      assert collected == Collected(old(frmList), listing, opens);
      while |frmList| > frameCt
        invariant frmList <= collected
        invariant |frmList| >= Min(|collected|, frameCt)
        invariant frameCt == old(frameCt)
        decreases |frmList|
      {
        frmList := frmList[..|frmList| - 1];
      }
      assert frmList == KeepFirst(collected, frameCt);
      frameCt := |frmList|;
    }

    /** The paste positions of `ExportImage`, with Python 2's integer
        division: as in the Python 3 composer, a zero frame width fails,
        frames that open take consecutive row-major slots, and when the frame
        width is one the scan checked every frame lands inside the target. */
    method ExportImage(opens: string -> bool) returns (r: Result<seq<Paste>>)
      requires Laid()
      ensures r.Err? <==> picPx.0 == 0
      ensures r.Err? ==> r.error == ZeroFrameWidth
      ensures r.Ok? ==> picPx.0 > 0 && |r.value| == |Opened(frmList, opens)|
      ensures r.Ok? ==> forall k :: 0 <= k < |r.value| ==>
                var slot := Slot(k, tgtPx.0 / picPx.0);
                r.value[k] == Paste(Opened(frmList, opens)[k],
                                    picPx.0 * slot.0 + XOffset(marginPx.0, tgtPx.0, picPx.0),
                                    picPx.1 * slot.1 + YOffset(marginPx.1, fontMarPx))
      ensures r.Ok? && Start(Target()) <= picPx.0 ==> forall k :: 0 <= k < |r.value| ==>
                InsideTarget(r.value[k], picPx.0, picPx.1, marginPx, fontMarPx, tgtPx)
    {
      if picPx.0 == 0 {
        return Err(ZeroFrameWidth);
      }
      var picW: PosNat := picPx.0;
      var xPerLine := tgtPx.0 / picW;
      var xOfs := XOffset(marginPx.0, tgtPx.0, picW);
      var yOfs := YOffset(marginPx.1, fontMarPx);
      var pastes := PlaceFrames(frmList, opens, picPx.0, picPx.1, xPerLine, xOfs, yOfs);
      if Start(Target()) <= picW {
        ResultFits(Target());
        forall k | 0 <= k < |pastes|
          ensures InsideTarget(pastes[k], picPx.0, picPx.1, marginPx, fontMarPx, tgtPx)
        {
          SlotInsideTarget(Target(), picW, marginPx.0, marginPx.1, fontMarPx, k);
        }
      }
      r := Ok(pastes);
    }
  }
}
