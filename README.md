# video2poster layout core in Dafny

video2poster turns a video into a poster: it samples one frame per time
interval, lays the frames out in a grid below a title, and saves the image.
This project models the arithmetic that decides that layout, in both versions
of the program (the Python 3 class `Video2Poster` and the older Python 2 class
`VideoToPoster`), and proves what it guarantees:

- **Canvas geometry** (`Geometry`): poster and margin sizes in pixels from
  inches and DPI, and the target area left for frames once both margins and
  the title band are removed.
- **Frame aspect ratio** (`Ratio`): an exact fraction `w / h`, obtained either
  from the probe's `"W:H"` display-ratio text or from the coded frame width and
  height. `int(ratio)` is `w / h` and `int(float(x) / ratio)` is `x * h / w`,
  both in natural-number division; this replaces the source's floating point.
- **Optimal frame size** (`Layout`): the width scan of `_calc_optimal_res`, as
  a loop method proved equal to a recursive reference definition, with lemmas
  giving its cases, its bounds, why its divisions are safe and when the width it
  returns is the largest that fits.
- **Frame list** (`Frames`): truncation of the collected list to the frame
  count, and the older version's all-or-nothing collection.
- **Paste slots** (`Placement`): the offsets that centre the grid and clear the
  title band, and the row-major column and row counters, proved equal to a
  closed form; every frame pasted at a width the scan checked lies inside the
  target area.
- **The two classes** (`V2P.Video2Poster`, `VideoToPosterPy2.VideoToPoster`):
  their fields, with the methods that update them in place.

Inputs that come from outside the program are parameters: the frame count
`int(duration * rate)` as a natural number, the ratio (already resolved for the
Python 3 class, as text for the Python 2 class), the directory listing of
extracted frames as a sequence of paths, and whether a frame file opens as a
predicate `opens: string -> bool`.

Where the code does not do what the layout is meant to do (the largest
frames that fit, and an error when none fits), the model follows the code:

- When no width fits, the code returns a degenerate size instead of reporting
  an infeasible layout. An empty scan range gives `(0, 0)`. A break at the first
  width gives `(int(ratio), ...)`, a width that was never checked. Only a zero
  width fails later, in the composer, and that is the error the model reports.
- When the scan never breaks, the code returns `x_len - 2` although `x_len - 1`
  passed the check (`Layout.ShortWhenUnbroken`). The width is maximal only when
  the scan breaks (`Layout.LargestWhenBroken`).
- A frame that fails to open in the composer is skipped **without** using up a
  grid slot. The next frame takes its place.
- A zero ratio (a `W` or coded width of 0) is accepted by the code and then
  always divides by zero in the width scan. The scan range is then
  `range(1, x_len)`. When that range is not empty, the error comes at the first
  height, `float(x_res) / ratio` at video2poster/v2p.py:180 and
  video2poster.py:130. When it is empty, the error comes at the final height,
  video2poster/v2p.py:191 and video2poster.py:141. The model rejects a zero
  ratio when the ratio is formed (`ZeroWidth`).

## Model

| member | source | states |
|---|---|---|
| `Ratio.IntPart` | video2poster/v2p.py:178 | `int(ratio)` is the whole part q of w / h: `q * h <= w < (q + 1) * h` |
| `Ratio.HeightFor` | video2poster/v2p.py:180 | the frame height y for width x is `x / ratio` rounded down: `y * w <= x * h < (y + 1) * w` |
| `Ratio.HeightForSameValue` | video2poster/v2p.py:180 | two fractions of equal value give the same height for every width |
| `Ratio.IntPartSameValue` | video2poster/v2p.py:178 | two fractions of equal value give the same whole part, so the same first scan width |
| `Ratio.RatioFromCoded` | video2poster/v2p.py:55-57 | the ratio is `coded_w / coded_h`; a zero height fails with ZeroHeight, a zero width with ZeroWidth, otherwise the ratio holds exactly those two numbers |
| `Ratio.Split` | video2poster.py:112 | `split(':')` gives at least one part, no part contains the separator, and there are two or more parts exactly when the text contains the separator |
| `Ratio.JoinSplit` | video2poster.py:112 | joining the parts of a split with the separator gives back the original text |
| `Ratio.SplitAfterField` | video2poster.py:112 | a separator-free field followed by the separator is split off as the first part |
| `Ratio.SplitField` | video2poster.py:112 | a separator-free text splits into itself alone |
| `Ratio.ParseNat` | video2poster.py:112 | a field parses exactly when it is a non-empty string of decimal digits; otherwise it fails with NotANumber |
| `Ratio.ParseShowNat` | video2poster.py:112 | parsing the numeral of n gives n back |
| `Ratio.ParseRatio` | video2poster.py:110-112 | the text parses exactly when it has a second field and both fields are non-zero numerals. The errors come in the order Python raises them: NotANumber for the first field, MissingSeparator, NotANumber for the second field, ZeroHeight, then ZeroWidth. A parsed ratio's width and height are the values of the two fields |
| `Ratio.ParseShowRatio` | video2poster.py:111-112 | the text `"W:H"` of any positive ratio parses back to that same ratio |
| `Geometry.Pixels` | video2poster/v2p.py:60-61 | `int(inches * dpi)` is the product rounded down: `px * den <= num * dpi < (px + 1) * den` |
| `Geometry.CanvasOf` | video2poster/v2p.py:60-63 | margins and poster size are the pixel values of the inches; margin, target and margin add up to the poster width, and margin, title band, target and margin add up to its height |
| `Geometry.WholeInches` | video2poster/v2p.py:60-61 | a whole number of inches gives exactly inches times DPI pixels |
| `Geometry.PixelsMonotone` | video2poster/v2p.py:60-61 | a length no shorter than another, compared as fractions whatever their denominators, never gives fewer pixels |
| `Geometry.TargetMonotone` | video2poster/v2p.py:61-63 | a poster no smaller in each dimension, compared as fractions whatever their denominators, with the same margins, DPI and title band, never has a smaller target area |
| `Geometry.DefaultPoster` | video2poster/v2p.py:20-36 | the documented 12 by 18 inch poster at 300 dpi, one-inch margins and a 400-pixel title band give a 3000 by 4400 pixel target area |
| `Layout.Start` | video2poster/v2p.py:178 | the first width tried, `int(ratio) + 1`, is the least whole number above w / h: `(s - 1) * h <= w < s * h` |
| `Layout.Rows` | video2poster/v2p.py:183 | `y_lines` is the least number of rows of `per_x_line` frames that holds every frame |
| `Layout.GridHeight` | video2poster/v2p.py:180-186 | the grid height `y_lines * y_res`, times the frames per row, covers every frame's height; with at least one frame the grid is at least one frame high |
| `Layout.ScanEnd` | video2poster/v2p.py:177-187 | the value of `x_res` when the loop ends is a width of the range when the range is not empty, and 1 when it is |
| `Layout.OptimalRes` | video2poster/v2p.py:177-192 | the result is one width below where the scan ended, with that width's height: 0 by 0 for an empty range, otherwise a width between `int(ratio)` and `x_len - 2` |
| `Layout.CeilDiv` | video2poster/v2p.py:183 | `ceil(a / b)` is the least q with `q * b >= a` |
| `Layout.PerLine` | video2poster/v2p.py:182 | for every width the scan tries, `per_x_line` is at least 1 and is the largest count p with `p * w <= x_len`, so the ceiling division never divides by zero |
| `Layout.LastTried` | video2poster/v2p.py:178-187 | from width i on, the last width assigned to `x_res` lies in `[i, x_len - 1]` |
| `Layout.CalcOptimalRes` | video2poster/v2p.py:164-192 | the loop with early break returns exactly the reference result `OptimalRes`, and the height is the returned width's height at the ratio |
| `Layout.LastTriedFrom` | video2poster/v2p.py:178-187 | the scan from i ends at b when every width before b fits and b overflows or is the range's last width |
| `Layout.LastTriedFacts` | video2poster/v2p.py:182-187 | every width tried before the stopping width fits, and the scan stops at a width that overflows or at `x_len - 1` |
| `Layout.OptimalResSpec` | video2poster/v2p.py:177-192 | an empty range gives `(0, 0)`; otherwise the result width lies in `[int(ratio), x_len - 2]`, every width tried up to it fits, the next width overflows unless it is the range's last, and the height is `floor(width / ratio)` |
| `Layout.ResultFits` | video2poster/v2p.py:186-192 | a returned width the scan tried passed the fit check: `y_lines * y_res <= y_len` |
| `Layout.GridHeightMonotone` | video2poster/v2p.py:180-186 | the grid height `y_lines * y_res` never decreases as the width grows |
| `Layout.PerLineAntitone` | video2poster/v2p.py:182 | a wider frame never fits more frames per row |
| `Layout.CeilDivAntitone` | video2poster/v2p.py:183 | more frames per row never need more rows |
| `Layout.HeightForMonotone` | video2poster/v2p.py:180 | a wider frame is never shorter |
| `Layout.OverflowPersists` | video2poster/v2p.py:185-187 | once a width overflows, every wider width in the range overflows too |
| `Layout.LargestWhenBroken` | video2poster/v2p.py:185-190 | when the scan breaks, no width wider than the result fits, and the result fits if the scan tried it |
| `Layout.OptimalResAtBoundary` | video2poster/v2p.py:177-192 | a width that fits followed by one that overflows is exactly the result |
| `Layout.WidescreenExample` | video2poster/v2p.py:177-192 | 3000 by 1500 pixels, 16:9 frames and 30 frames give frames of 500 by 281 pixels |
| `Layout.SameRatioSameResult` | video2poster/v2p.py:55-57 | equal ratios, whether from `"W:H"` text or coded sizes, give the same frame size |
| `Layout.LastTriedSameRatio` | video2poster/v2p.py:178-187 | equal ratios make the scan stop at the same width |
| `Layout.ShortWhenUnbroken` | video2poster/v2p.py:177-191 | when every width fits, the result is `x_len - 2` although `x_len - 1` fits |
| `Frames.KeepFirst` | video2poster/v2p.py:88-89 | after popping down to n entries the list has `min(len, n)` entries and is a prefix of the list before |
| `Frames.Collected` | video2poster.py:150-161 | the old scan yields either the existing entries followed by all listed files, when every file opens, or the empty list, when any file fails |
| `Placement.TruncDiv` | video2poster/v2p.py:94 | `int(a / b)` rounds toward zero: for a non-negative a the quotient q has `q * b <= a < (q + 1) * b`, for a negative a `(q - 1) * b < a <= q * b` |
| `Placement.TruncDivIsFloor` | video2poster/v2p.py:94 | on a non-negative target width, Python 3's `int(a / b)` equals Python 2's floor division |
| `Placement.XOffset` | video2poster/v2p.py:99 | the left offset is the margin plus half the horizontal slack, between the margin and the margin plus half a frame width |
| `Placement.XOffsetCentres` | video2poster.py:207-209 | the grid is centred: the gap on the left is at most the gap on the right, which is at most one pixel wider |
| `Placement.YOffset` | video2poster/v2p.py:100 | the grid starts below the top margin by exactly the title band |
| `Placement.GridTopMeetsTarget` | video2poster.py:92-93 | from the grid's top edge down, the canvas holds exactly the target height and the bottom margin |
| `Placement.Slot` | video2poster/v2p.py:106-123 | the k-th pasted frame's column is below `x_per_line` and `row * x_per_line + column == k`; with `x_per_line <= 1` every frame starts a new row |
| `Placement.SlotStep` | video2poster/v2p.py:119-123 | the counter update (advance the column while `x_cnt + 1 < x_per_line`, else wrap to column 0 of the next row) moves from slot k to slot k + 1 |
| `Placement.SlotUnique` | video2poster/v2p.py:119-123 | a position in rows of `x_per_line` slots has one column and one row |
| `Placement.Opened` | video2poster/v2p.py:108-113 | the frames that open form a list no longer than the frame list, and every entry is a frame of the list that opens |
| `Placement.OpenedKeepsEvery` | video2poster/v2p.py:108-113 | conversely, every frame of the list that opens is an entry |
| `Placement.OpenedAppend` | video2poster/v2p.py:108-113 | list order is kept: the opening frames of a concatenation are those of the first part followed by those of the second |
| `Placement.OpenedAll` | video2poster.py:218-226 | when every frame opens, all of them are pasted, in list order |
| `Placement.PlaceFrames` | video2poster/v2p.py:106-123 | the k-th frame that opens is pasted at `(pic_w * column + x_ofs, pic_h * row + y_ofs)` of slot k; frames that fail to open are skipped and use no slot |
| `Placement.RowsUsed` | video2poster/v2p.py:106-123 | n frames pasted row by row end in row `ceil(n / per_row) - 1`: exactly the rows the scan accounted for |
| `Placement.SlotInsideTarget` | video2poster/v2p.py:94-115 | at a width that passed the fit check, every slot below the frame count lies inside the target area: right of the left margin, left of the right margin, below the title band, above the bottom margin |
| `Placement.ColumnInside` | video2poster/v2p.py:94-99 | a column below `x_per_line` plus the centring offset stays within the target width |
| `Placement.RowBelowCount` | video2poster/v2p.py:119-123 | the slot of a frame below the count is in a row below `ceil(count / per_row)` |
| `Placement.RowInside` | video2poster/v2p.py:100-115 | a row below the row count of a grid that fits stays within the target height |
| `V2P.Video2Poster.constructor` | video2poster/v2p.py:25-68 | the fields hold the arguments, the geometry is the canvas of the inches, the list is empty and the frame size is the scan's result |
| `V2P.Video2Poster.CalcOptimalRes` | video2poster/v2p.py:174-192 | the scan's result for the object's target area, ratio and frame count |
| `V2P.Video2Poster.GeneratePoster` | video2poster/v2p.py:84-89 | the new list is the old list followed by the listed frames, cut to its first `frame_ct` entries; nothing else changes and the invariant holds |
| `V2P.Video2Poster.SavePoster` | video2poster/v2p.py:91-123 | a zero frame width fails; otherwise the pastes are the row-major slots of the frames that open, and at a width the scan checked every frame lies inside the target area |
| `VideoToPosterPy2.VideoToPoster.constructor` | video2poster.py:54-74 | the fields hold the arguments, the title band is 400 pixels, the list is empty and the frame count 0 |
| `VideoToPosterPy2.VideoToPoster.UpdtVars` | video2poster.py:80-98 | the list is cleared; a ratio text that fails to parse fails with its error and leaves the layout as it was; otherwise ratio, geometry, frame count and frame size are recomputed from the probe and the inches |
| `VideoToPosterPy2.VideoToPoster.GetMovieInfo` | video2poster.py:101-112 | the ratio text is kept; the ratio is set when the text parses, and otherwise the text's parse error is reported and the ratio is unchanged |
| `VideoToPosterPy2.VideoToPoster.Relayout` | video2poster.py:88-98 | margins, poster size and target area are the canvas of the inches, the frame count is the probe's, and the frame size is the scan's result for them |
| `VideoToPosterPy2.VideoToPoster.CalcOptimalRes` | video2poster.py:115-144 | the stored frame size is the scan's result for the current target area, ratio and frame count |
| `VideoToPosterPy2.VideoToPoster.BuildFrameList` | video2poster.py:147-168 | the list becomes the collected list cut to its first `frame_ct` entries; `frame_ct` becomes its length and never grows; the frame size is not recomputed |
| `VideoToPosterPy2.VideoToPoster.ExportImage` | video2poster.py:201-233 | with integer division, a zero frame width fails; otherwise the pastes are the row-major slots of the frames that open, and at a width the scan checked every frame lies inside the target area |

## Left out

- Running ffprobe and ffmpeg (`_run_cmd`, `_get_movie_info`'s process call, `_gen_frames`, the ffmpeg call in `GeneratePoster`) and decoding their JSON: external tools. Their results are inputs.
- The duration and sample rate: only their product truncated to an integer, the frame count, enters the model. The Python 2 object keeps no duration field here.
- Floating point: inches are exact fractions, the ratio is an exact fraction, and `ceil` is exact integer arithmetic. Corner cases where float rounding differs from exact arithmetic are not covered.
- `Ratio.ParseNat`: accepts only unsigned decimal digit strings; Python's `float()` also takes signs, a decimal point, exponents, surrounding spaces, `inf` and `nan`. The probe writes plain digits.
- PIL: creating the canvas, opening images (modelled only as the `opens` predicate), pasting (modelled as the list of `Paste` records), measuring and drawing the title, and saving the file are external library calls. The title's horizontal position depends on a measured text width and is not modelled.
- `os.listdir` order, directory creation (`make_dir`, `os.makedirs`) and path joining: filesystem plumbing. The listing enters as a sequence of full paths.
- The command-line front ends (`v2p_cli.py`, `main` and `process_cl` in video2poster.py), `raw_input`, verbose output and `PrintPosterDetails`: user interface.
- Fields used only by the parts above: the font file and font size, the sample-rate field, the temp-directory path and the verbosity level.
- Negative margins or DPI: margin lengths and DPI are natural numbers. So Python 3's `int(...)` around `x_ofs` is the same as floor.
- VideoToPosterPy2.VideoToPoster.constructor: ends before `__init__`'s final `_updt_vars()` call, because that call can fail and a constructor cannot. The caller runs `UpdtVars` next.
- VideoToPosterPy2.VideoToPoster.UpdtVars: with a zero ratio the source first overwrites the margins, poster size, target area, frame count and ratio (video2poster.py:88-96) and then raises ZeroDivisionError in the scan. The model fails at the parse and leaves those fields unchanged. No caller can see the difference, because `_updt_vars` runs only at the end of `__init__` (video2poster.py:77), so no object survives the error.
- V2P.Video2Poster.constructor: receives the resolved ratio and frame count in place of running the probe inside `__init__`. `Ratio.RatioFromCoded` models how the ratio is formed.
