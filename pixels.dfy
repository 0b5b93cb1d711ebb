/** Pixel-level specifications: what the background pass and the glyph writes
    leave in each canvas pixel, and the frame values produced by the animation
    slicer and the scaler. */
module Pixels {
  import opened Tokens
  import opened Layout

  /** One pixel write of a foreign drawing routine (font rasteriser, emoji
      compositor): the pixel at (x, y) becomes blend(current colour), which
      covers anti-aliased and source-over writes. A write outside the canvas
      is dropped, as image.RGBA clips. */
  datatype Paint = Paint(x: int, y: int, blend: Rgba -> Rgba)

  /** An image value of its own (an animation frame, or a copy of the
      canvas handed to the resampler); rows[py][px]. */
  datatype Frame = Frame(width: nat, height: nat, rows: seq<seq<Rgba>>) {
    predicate Valid() {
      |rows| == height && forall py :: 0 <= py < |rows| ==> |rows[py]| == width
    }

    function At(px: nat, py: nat): Rgba
      requires Valid() && px < width && py < height
    {
      rows[py][px]
    }
  }

  /** The resampling filter (CatmullRom.Scale), taken as an oracle: the colour
      of pixel (px, py) of the source scaled to w x h. */
  type Resampler = (Frame, nat, nat, nat, nat) -> Rgba

  predicate InRect(px: int, py: int, x0: int, y0: int, w: int, h: int) {
    x0 <= px < x0 + w && y0 <= py < y0 + h
  }

  /** The rectangle drawBackground paints for a text run started in state q:
      the run's string width in cells by one cell height, from the cursor. */
  predicate RunCovers(su: Setup, q: RenderState, text: string, px: int, py: int) {
    InRect(px, py, q.x, q.y, su.metrics.stringWidth(text) * su.charWidth, su.charHeight)
  }

  /** The colour the background pass leaves in pixel (px, py) when replaying
      ts from s over a pixel that held prior: the background current at the
      start of the last text run whose rectangle covers the pixel. */
  function BackgroundAt(su: Setup, s: RenderState, ts: seq<Token>, px: int, py: int, prior: Rgba): Rgba
    decreases |ts|
  {
    if ts == [] then prior
    else
      var prefix := ts[..|ts| - 1];
      var q := Replay(su, s, prefix);
      match ts[|ts| - 1]
      case TextToken(text) =>
        if RunCovers(su, q, text, px, py) then q.background
        else BackgroundAt(su, s, prefix, px, py, prior)
      case ColorToken(_, _) => BackgroundAt(su, s, prefix, px, py, prior)
  }

  /** The colour of pixel (px, py) after the writes ws, in order, over prior. */
  function PaintedAt(ws: seq<Paint>, px: int, py: int, prior: Rgba): Rgba
    decreases |ws|
  {
    if ws == [] then prior
    else
      var before := PaintedAt(ws[..|ws| - 1], px, py, prior);
      var w := ws[|ws| - 1];
      if w.x == px && w.y == py then w.blend(before) else before
  }

  predicate SomeRunBackground(runs: seq<RenderState>, c: Rgba) {
    exists k :: 0 <= k < |runs| && runs[k].background == c
  }

  /** Every pixel the background pass paints gets the background colour that
      was current at the start of some text run of the stream. */
  lemma {:induction false} BackgroundFromRunStart(su: Setup, s: RenderState, ts: seq<Token>, px: int, py: int, prior: Rgba)
    ensures var c := BackgroundAt(su, s, ts, px, py, prior);
      c == prior || SomeRunBackground(RunStarts(su, s, ts), c)
    decreases |ts|
  {
    if ts != [] {
      var prefix := ts[..|ts| - 1];
      var q := Replay(su, s, prefix);
      var runs := RunStarts(su, s, prefix);
      var all := RunStarts(su, s, ts);
      BackgroundFromRunStart(su, s, prefix, px, py, prior);
      var c := BackgroundAt(su, s, prefix, px, py, prior);
      assert all[..|runs|] == runs;
      match ts[|ts| - 1]
      case TextToken(text) =>
        assert all == runs + [q];
        if RunCovers(su, q, text, px, py) {
          assert BackgroundAt(su, s, ts, px, py, prior) == q.background;
          assert all[|runs|].background == q.background;
        } else if c != prior {
          var k :| 0 <= k < |runs| && runs[k].background == c;
          assert all[k] == runs[k];
        }
      case ColorToken(_, _) =>
    }
  }

  /** A stream without colour directives, replayed from a state whose
      background is the canvas colour, leaves every pixel in that colour. */
  lemma {:induction false} BackgroundWithoutDirectives(su: Setup, s: RenderState, ts: seq<Token>, px: int, py: int)
    requires !HasDirective(ts)
    ensures BackgroundAt(su, s, ts, px, py, s.background) == s.background
    decreases |ts|
  {
    if ts != [] {
      var prefix := ts[..|ts| - 1];
      assert !HasDirective(prefix) by {
        forall i | 0 <= i < |prefix| ensures !prefix[i].ColorToken? {
          assert prefix[i] == ts[i];
        }
      }
      BackgroundWithoutDirectives(su, s, prefix, px, py);
      ReplayWithoutDirectives(su, s, prefix);
    }
  }

  /** A run is painted once, from the cursor at its start: a run that holds
      line breaks is painted on its first row only. */
  lemma RunPaintsFirstRowOnly(su: Setup, q: RenderState, text: string, px: int, py: int, prior: Rgba)
    requires py >= q.y + su.charHeight || py < q.y
    ensures BackgroundAt(su, q, [TextToken(text)], px, py, prior) == prior
  {
    assert [TextToken(text)][..0] == [];
  }

  /** Painting a + b is painting b over the result of a. */
  lemma {:induction false} PaintedAppend(a: seq<Paint>, b: seq<Paint>, px: int, py: int, prior: Rgba)
    ensures PaintedAt(a + b, px, py, prior) == PaintedAt(b, px, py, PaintedAt(a, px, py, prior))
    decreases |b|
  {
    if b == [] {
      assert a + b == a;
    } else {
      assert (a + b)[..|a + b| - 1] == a + b[..|b| - 1];
      PaintedAppend(a, b[..|b| - 1], px, py, prior);
    }
  }

  // ---------------------------------------------------------------------
  // Frames

  /** A copy of the canvas rows [top, top + h), full width: cutter.Crop in
      Copy mode, drawn source-over onto a fresh transparent image. Over a
      transparent destination source-over yields the source pixel; a row
      outside the canvas (cutter intersects with the bounds) stays transparent. */
  function Crop(a: array2<Rgba>, top: nat, h: nat): (f: Frame)
    reads a
    ensures f.Valid() && f.width == a.Length0 && f.height == h
    ensures forall px: nat, py: nat :: px < a.Length0 && py < h && top + py < a.Length1 ==>
      f.At(px, py) == a[px, top + py]
  {
    Frame(a.Length0, h,
      seq(h, py requires 0 <= py < h reads a =>
        seq(a.Length0, px requires 0 <= px < a.Length0 reads a =>
          if top + py < a.Length1 then a[px, top + py] else Transparent)))
  }

  /** The whole canvas as a value. */
  function Snapshot(a: array2<Rgba>): (f: Frame)
    reads a
    ensures f.Valid() && f.width == a.Length0 && f.height == a.Length1
    ensures forall px: nat, py: nat :: px < a.Length0 && py < a.Length1 ==> f.At(px, py) == a[px, py]
  {
    Crop(a, 0, a.Length1)
  }

  /** Frame k of H / h lies inside the canvas: k < H / h implies (k + 1) * h <= H. */
  lemma FrameFits(height: nat, h: nat, k: nat)
    requires h > 0 && k < height / h
    ensures (k + 1) * h <= height
  {
    var n := height / h;
    assert n * h <= height;
    assert k + 1 <= n;
    assert (k + 1) * h <= n * h by {
      MulMonotone(k + 1, n, h);
    }
  }

  lemma MulMonotone(a: nat, b: nat, c: nat)
    requires a <= b
    ensures a * c <= b * c
  {
  }

  /** The frames setAnimationFlames cuts: H / h full-width crops of height h,
      frame k starting at canvas row k * h. */
  function Slices(a: array2<Rgba>, h: nat): (fs: seq<Frame>)
    reads a
    requires h > 0
    ensures |fs| == a.Length1 / h
    ensures forall k :: 0 <= k < |fs| ==> fs[k] == Crop(a, k * h, h)
  {
    seq(a.Length1 / h, k requires 0 <= k < a.Length1 / h reads a => Crop(a, k * h, h))
  }

  /** Frame k is a W x h copy of canvas rows [k * h, (k + 1) * h): every one
      of its pixels is the canvas pixel below it, never the transparent fill. */
  lemma SliceContents(a: array2<Rgba>, h: nat, k: nat, px: nat, py: nat)
    requires h > 0 && k < a.Length1 / h && px < a.Length0 && py < h
    ensures var f := Slices(a, h)[k];
      f.Valid() && f.width == a.Length0 && f.height == h &&
      k * h + py < a.Length1 && f.At(px, py) == a[px, k * h + py]
  {
    FrameFits(a.Length1, h, k);
    assert k * h + py < (k + 1) * h;
  }

  /** The free function scale: a new w x h image whose pixels the filter computes. */
  function ScaleFrame(f: Frame, w: nat, h: nat, resample: Resampler): (g: Frame)
    ensures g.Valid() && g.width == w && g.height == h
    ensures forall px: nat, py: nat :: px < w && py < h ==> g.At(px, py) == resample(f, w, h, px, py)
  {
    Frame(w, h, seq(h, py requires 0 <= py < h => seq(w, px requires 0 <= px < w => resample(f, w, h, px, py))))
  }

  /** Every frame scaled to w x h, order kept. */
  function ScaleAll(fs: seq<Frame>, w: nat, h: nat, resample: Resampler): (gs: seq<Frame>)
    ensures |gs| == |fs|
    ensures forall j :: 0 <= j < |gs| ==> gs[j] == ScaleFrame(fs[j], w, h, resample)
  {
    seq(|fs|, j requires 0 <= j < |fs| => ScaleFrame(fs[j], w, h, resample))
  }
}
