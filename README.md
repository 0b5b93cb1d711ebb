# textimg rendering engine in Dafny

This project models the rendering engine of textimg (`image/image.go`). The
engine turns a stream of tokens into an RGBA canvas. The tokens come from the
ANSI tokenizer: colour directives and runs of text.

An `Image` owns:
- a fixed-size pixel canvas;
- a cursor `(x, y)` and a line counter;
- the current foreground and background colours, and their two defaults;
- the animation frames cut from the canvas;
- a requested output size.

`Draw` proceeds in this order:
1. It fills the canvas with the default background.
2. Pass 1 replays the tokens. A directive changes the current colours. Each
   text run paints its background rectangle from the cursor at the start of
   the run, then moves the cursor rune by rune.
3. It resets the colours and the cursor.
4. Pass 2 replays the tokens again and draws every glyph at a baseline anchor
   inside its cell. The first drawing error is returned at once.
5. If no error occurred, it cuts the canvas into full-width animation frames
   and rescales the canvas and the frames to the requested size.

Files:
- `tokens.dfy` holds the values: colours, directive kinds, tokens, and the
  Option and Result wrappers.
- `layout.dfy` holds the colour state machine and the cursor arithmetic as
  pure functions over a `RenderState`. `Replay` folds them over a token
  stream.
- `pixels.dfy` states, per pixel, what the background pass and a sequence of
  glyph writes leave on the canvas. It also defines the frame values that the
  slicer and the scaler produce.
- `glyphs.dfy` holds the dispatch of a rune to a font face or to an emoji
  image, and the glyph pass as a fold that stops at the first error.
- `raster.dfy` holds the imperative `class Image`. Its canvas is an
  `array2<Rgba>` indexed `[x, y]`. Each method is proved against the
  functions above.

The foreign collaborators are taken as oracles. They are function-valued
parameters given to the constructor:
- `runewidth.RuneWidth` (0, 1 or 2 cells);
- `runewidth.StringWidth`;
- `isLinefeed` and `isEmoji`;
- the font rasteriser;
- the emoji image loader;
- the CatmullRom resampler.

A glyph routine is modelled as a list of pixel writes. Each write maps the
current colour of one pixel to its new colour, so anti-aliased and
source-over drawing are covered. Writes outside the canvas are dropped, as
`image.RGBA` does.

The glyph baseline sits at `y + charHeight - charHeight / 5`, using integer
division. For a 24-pixel cell that is 20 pixels below the top of the line,
not 19. `Layout.HiExample` states that case.

## Model

| member | source | states |
|---|---|---|
| `Layout.ResetColor` | image/image.go:192-195 | Both current colours become the defaults; the cursor and line count are kept. |
| `Layout.ResetPosition` | image/image.go:197-201 | x, y and lineCount become 0; both colours are kept. |
| `Layout.UpdateColor` | image/image.go:172-190 | No directive moves the cursor or changes the line count. |
| `Layout.UpdateColorByKind` | image/image.go:172-190 | Per kind: Bold changes nothing. Reset restores both colours. ResetForeground and ResetBackground restore only their own colour. Reverse swaps the two. Foreground and Background set only their own colour to the payload. The defaults are never written. |
| `Layout.ReverseTwice` | image/image.go:181-182 | Two Reverse directives leave the state as it was. |
| `Layout.ResetRestarts` | image/image.go:127-128 | resetColor followed by resetPosition yields the initial state, whatever pass 1 left behind. |
| `Layout.LinePitch` | image/image.go:314 | The line pitch is the floor of 3/4 of the cell height: `4p <= 3h < 4p + 4`. |
| `Layout.GlyphAnchor` | image/image.go:205-207 | The baseline has the cursor's x. It lies inside the cell, at least four fifths of the way down. |
| `Layout.HiExample` | image/image.go:205-207 | With 10 x 24 cells, "Hi" leaves x = 20 on line 0, and the first glyph is anchored at (0, 20). |
| `Layout.AdvanceTextLines` | image/image.go:117-124 | A text run never moves the cursor up. It adds its number of line breaks to lineCount and keeps both colours. |
| `Layout.ReplayLines` | image/image.go:111-126 | Over a whole stream, y never decreases and lineCount grows by the number of line breaks in all runs. |
| `Layout.AdvanceTextOnOneLine` | image/image.go:308-310 | A run without line breaks moves only x, by the sum of its rune widths times the cell width. |
| `Layout.AdvanceTextEndingInBreak` | image/image.go:312-316 | After a final line break, x is 0 and y has grown by one line pitch. |
| `Layout.ReplayWithoutDirectives` | image/image.go:111-126 | A stream without directives never changes the colours. |
| `Layout.ReplayAppend` | image/image.go:111-126 | Replaying a + b is replaying b from the state a ends in. |
| `Layout.RunStartsPrefix` | image/image.go:111-126 | The run starts of a prefix of the stream are a prefix of the run starts of the stream. |
| `Pixels.BackgroundFromRunStart` | image/image.go:111-126 | Each pixel pass 1 paints gets the background that was current at the start of some text run. |
| `Pixels.BackgroundWithoutDirectives` | image/image.go:108-126 | Without directives, pass 1 leaves every pixel in the default background. |
| `Pixels.RunPaintsFirstRowOnly` | image/image.go:293-306 | A run is painted only on the row band where it starts, even when it contains line breaks. |
| `Pixels.PaintedAppend` | image/image.go:136-146 | Applying writes a + b is applying b over the result of a. |
| `Pixels.Crop` | image/image.go:240-254 | A crop is a full-width frame of the requested height; each pixel is the canvas pixel of its band. |
| `Pixels.Snapshot` | image/image.go:328-331 | The canvas handed to the resampler has its dimensions and its pixels. |
| `Pixels.FrameFits` | image/image.go:236-238 | For k < H / h, frame k ends inside the canvas: (k + 1) * h <= H. |
| `Pixels.Slices` | image/image.go:236-256 | The slicer yields H / h frames; frame k is the crop that starts at row k * h. |
| `Pixels.SliceContents` | image/image.go:238-254 | Frame k is W x h, and its pixel (px, py) is canvas pixel (px, k * h + py), never the transparent fill. |
| `Pixels.ScaleFrame` | image/image.go:328-333 | A scaled image is exactly w x h, and each pixel is the filter's value. |
| `Pixels.ScaleAll` | image/image.go:341-344 | Every frame is replaced by its scaled image, in the same order. |
| `Glyphs.Dispatch` | image/image.go:220-230 | An emoji with useEmoji set uses the emoji face. An emoji without it uses its image file. Anything else uses the primary face. Each case holds in both directions. |
| `Glyphs.GlyphPaints` | image/image.go:220-230 | Only the image-file path can fail. |
| `Glyphs.GlyphTextFollowsAdvance` | image/image.go:136-146 | Within a run, pass 2 moves the cursor as pass 1 does, as long as no error occurs. |
| `Glyphs.GlyphPassFollowsReplay` | image/image.go:131-148 | The run starts pass 2 sees are a prefix of those pass 1 sees. If pass 2 completes, they are all of them, and it ends in the state pass 1 ends in. |
| `Glyphs.GlyphTextShift` | image/image.go:136-146 | A run's writes and cursor movement do not depend on earlier writes. |
| `Glyphs.GlyphTextStops` | image/image.go:142-144 | After an error inside a run, the rest of the run changes nothing. |
| `Glyphs.GlyphTokensStop` | image/image.go:142-144 | After an error, no later token draws anything or moves the cursor. |
| `Glyphs.FontTextNeverFails` | image/image.go:263-266 | A run drawn entirely through font faces cannot fail. |
| `Glyphs.FontGlyphsNeverFail` | image/image.go:220-230 | A stream with no emoji drawn from an image file completes pass 2. |
| `Raster.Image.constructor` | image/image.go:66-101 | The canvas is new, W x H and transparent. The state is the initial one. The frame height is positive when animation is on, and 0 otherwise. |
| `Raster.Image.Set` | image/image.go:301-304 | An in-canvas write changes exactly that pixel; others are dropped. |
| `Raster.Image.UpdateColor` | image/image.go:172-190 | The new state is `Layout.UpdateColor` of the old one; only the two current colours may change. |
| `Raster.Image.ResetColor` | image/image.go:192-195 | The current colours equal the defaults; nothing else changes. |
| `Raster.Image.ResetPosition` | image/image.go:197-201 | x, y and lineCount are 0; nothing else changes. |
| `Raster.Image.MoveRight` | image/image.go:308-310 | x grows by RuneWidth(r) * charWidth; only x changes. |
| `Raster.Image.MoveDown` | image/image.go:312-316 | x becomes 0, y grows by the line pitch and lineCount by 1, so y never decreases. |
| `Raster.Image.DrawBackgroundAll` | image/image.go:159-170 | Every canvas pixel holds the default background. |
| `Raster.Image.DrawBackground` | image/image.go:293-306 | Exactly the in-canvas pixels of the StringWidth(s) * charWidth by charHeight rectangle at the cursor get the current background. Every other pixel, the cursor and the colours are kept. |
| `Raster.Image.ApplyPaints` | image/image.go:263-266 | Each canvas pixel ends as the writes, applied in order, make it. |
| `Raster.Image.NewDrawer` | image/image.go:203-218 | The dot is the glyph anchor of the current cursor, inside the current cell. |
| `Raster.Image.DrawRune` | image/image.go:263-266 | The face's writes for r at the anchor, in the current foreground, are applied. |
| `Raster.Image.DrawEmoji` | image/image.go:268-291 | On a load error that error is returned and the canvas is untouched; otherwise the image's writes are applied. |
| `Raster.Image.DrawGlyph` | image/image.go:220-230 | The dispatched routine draws; an error from it is returned with the canvas untouched. |
| `Raster.Image.PaintBackgrounds` | image/image.go:111-126 | Pass 1 ends in the state `Replay` gives. Every pixel holds the background of the last run covering it, and the run starts are recorded. |
| `Raster.Image.DrawText` | image/image.go:136-146 | The rune loop of pass 2 matches the glyph fold: the same error, cursor and pixels. |
| `Raster.Image.DrawGlyphs` | image/image.go:131-148 | Pass 2 matches `GlyphTokens`: the first error, the cursor and colours, the run starts, and the pixels. |
| `Raster.Image.NewFrames` | image/image.go:232-259 | Without animation there are no frames. With it there are H / h frames, each W x h, cut top to bottom. |
| `Raster.Image.SetAnimationFrames` | image/image.go:232-259 | The frames are the old frames followed by the new slices. |
| `Raster.Image.Rescaled` | image/image.go:335-345 | The frame count is kept. Without a requested size the frames are unchanged; with one, every frame is resizeWidth x resizeHeight. |
| `Raster.Image.NewScaledImage` | image/image.go:318-326 | Without a requested size this is the canvas itself; otherwise a new canvas of exactly the requested size. |
| `Raster.Image.Scale` | image/image.go:335-345 | Without a requested size nothing changes. Otherwise the canvas is a new one of exactly that size, and every frame is scaled. |
| `Raster.Image.Draw` | image/image.go:107-156 | The canvas holds the rendered pixels. On an error, the first one is returned and slicing and scaling are skipped. Both passes record the same run starts and end in the same state. |

## Left out

- Floating point in `NewImage` (image/image.go:68-71): `charHeight = int(FontSize * 1.2)` and the canvas height `/ 1.2` are not integer arithmetic. The constructor takes the cell size, the canvas size and the frame height as parameters.
- Frame-height division by zero (image/image.go:76 and 236): the source divides by zero when `BaseHeight / AnimationLineCount` is 0. The constructor instead requires a positive frame height when animation is on.
- Glyph rasterisation (`font.Drawer.DrawString`, face metrics): an oracle that returns pixel writes for a rune, an anchor and a colour.
- Emoji loading (`os.Open`, `image.Decode`, the 0.9 size factor, ApproxBiLinear scaling): an oracle that returns pixel writes or an error.
- Resampled pixel values of CatmullRom scaling: an oracle from the source image, the target size and a pixel to a colour.
- `runewidth` tables, `init`'s StrictEmojiNeutral setting, `isLinefeed` and `isEmoji`: these are oracles. StringWidth is not assumed to equal the sum of the rune widths.
- `Pixels.Crop`: `cutter.Crop` can return an error, but for a full-width top-left crop it intersects with the canvas and does not fail. The model takes that path as never taken, and `SetAnimationFrames` returns no error. `Pixels.FrameFits` shows every crop lies inside the canvas.
- Integer width: Go's `int` is 64 bits. The model uses unbounded integers, so cursor overflow on enormous inputs is not represented.
- Token kinds other than colour and text, and directive values outside the seven kinds, are not represented. The source ignores them.
- `delay`, `fontSize` and `animationLineCount` are stored but not otherwise used, as in the source.
- Font faces are represented by a `Face` tag that the rasteriser oracle receives.
- Resize dimensions are natural numbers; a negative requested size is not represented.
- `Raster.Image.Draw`: the agreement between the two passes is stated for a Draw that starts from the initial state, as after construction. A second Draw on the same Image starts pass 1 from wherever the previous Draw left the cursor, and nothing is claimed about that case.
