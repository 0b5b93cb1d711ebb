/** The rendering engine of image/image.go: an Image owns an RGBA canvas and
    the render state, draws a token stream onto the canvas in two passes,
    cuts the canvas into animation frames and rescales the result. */
module Raster {
  import opened Tokens
  import opened Layout
  import opened Pixels
  import opened Glyphs

  /** ImageParam, with the sizes NewImage derives in floating point
      (charHeight, the canvas height, the frame height) given directly. */
  datatype ImageParam = ImageParam(
    imageWidth: nat,
    imageHeight: nat,
    foregroundColor: Rgba,
    backgroundColor: Rgba,
    fontSize: int,
    charWidth: nat,
    charHeight: nat,
    useAnimation: bool,
    animationLineCount: int,
    frameHeight: nat,
    resizeWidth: nat,
    resizeHeight: nat,
    delay: int)

  class Image {
    var image: array2<Rgba>            // indexed [x, y]; Length0 is the width
    var animationImages: seq<Frame>
    var x: int
    var y: int
    var foregroundColor: Rgba
    var backgroundColor: Rgba
    const defaultForegroundColor: Rgba
    const defaultBackgroundColor: Rgba
    const fontSize: int
    const glyphs: Renderer               // font faces, emoji directory, useEmoji
    const charWidth: nat
    const charHeight: nat
    var lineCount: int
    const useAnimation: bool
    const animationLineCount: int
    const animationImageFrameHeight: nat
    const resizeWidth: nat
    const resizeHeight: nat
    const delay: int
    const metrics: Metrics
    const resample: Resampler

    /** The frame height is positive whenever animation is on, so the slicer
        never divides by zero. */
    predicate Valid() {
      useAnimation ==> animationImageFrameHeight > 0
    }

    /** The fixed part of the render; the default colours are constants and
        no operation can write them. */
    function Config(): Setup {
      Setup(charWidth, charHeight, defaultForegroundColor, defaultBackgroundColor, metrics)
    }

    function State(): RenderState
      reads this
    {
      RenderState(x, y, lineCount, foregroundColor, backgroundColor)
    }

    predicate InCanvas(px: int, py: int)
      reads this
    {
      0 <= px < image.Length0 && 0 <= py < image.Length1
    }

    predicate NoResize() {
      resizeWidth == 0 && resizeHeight == 0
    }

    /** NewImage: a transparent canvas and the initial render state. */
    constructor (p: ImageParam, metrics: Metrics, glyphs: Renderer, resample: Resampler)
      requires p.useAnimation ==> p.frameHeight > 0
      ensures Valid()
      ensures fresh(image) && image.Length0 == p.imageWidth && image.Length1 == p.imageHeight
      ensures forall px, py :: 0 <= px < image.Length0 && 0 <= py < image.Length1 ==> image[px, py] == Transparent
      ensures animationImages == []
      ensures State() == Start(Config())
      ensures defaultForegroundColor == p.foregroundColor && defaultBackgroundColor == p.backgroundColor
      ensures charWidth == p.charWidth && charHeight == p.charHeight
      ensures useAnimation == p.useAnimation
      ensures animationImageFrameHeight == if p.useAnimation then p.frameHeight else 0
      ensures resizeWidth == p.resizeWidth && resizeHeight == p.resizeHeight && delay == p.delay
      ensures this.metrics == metrics && this.glyphs == glyphs && this.resample == resample
    {
      image := new Rgba[p.imageWidth, p.imageHeight]((px, py) => Transparent);
      animationImages := [];
      x, y, lineCount := 0, 0, 0;
      foregroundColor, backgroundColor := p.foregroundColor, p.backgroundColor;
      defaultForegroundColor, defaultBackgroundColor := p.foregroundColor, p.backgroundColor;
      fontSize := p.fontSize;
      this.glyphs := glyphs;
      charWidth, charHeight := p.charWidth, p.charHeight;
      useAnimation := p.useAnimation;
      animationLineCount := p.animationLineCount;
      animationImageFrameHeight := if p.useAnimation then p.frameHeight else 0;
      resizeWidth, resizeHeight := p.resizeWidth, p.resizeHeight;
      delay := p.delay;
      this.metrics := metrics;
      this.resample := resample;
    }

    /** image.RGBA.Set: writes inside the bounds take effect, others are dropped. */
    method Set(px: int, py: int, c: Rgba)
      modifies image
      ensures forall a, b :: InCanvas(a, b) ==>
        image[a, b] == if a == px && b == py then c else old(image[a, b])
    {
      if InCanvas(px, py) {
        image[px, py] := c;
      }
    }

    // -------------------------------------------------------------------
    // Colour state and cursor

    method UpdateColor(t: ColorType, col: Rgba)
      modifies this`foregroundColor, this`backgroundColor
      ensures State() == Layout.UpdateColor(Config(), old(State()), t, col)
    {
      match t
      case Bold =>
      case Reset => ResetColor();
      case ResetForeground => foregroundColor := defaultForegroundColor;
      case ResetBackground => backgroundColor := defaultBackgroundColor;
      case Reverse => foregroundColor, backgroundColor := backgroundColor, foregroundColor;
      case Foreground => foregroundColor := col;
      case Background => backgroundColor := col;
    }

    method ResetColor()
      modifies this`foregroundColor, this`backgroundColor
      ensures foregroundColor == defaultForegroundColor && backgroundColor == defaultBackgroundColor
      ensures State() == Layout.ResetColor(Config(), old(State()))
    {
      foregroundColor := defaultForegroundColor;
      backgroundColor := defaultBackgroundColor;
    }

    method ResetPosition()
      modifies this`x, this`y, this`lineCount
      ensures x == 0 && y == 0 && lineCount == 0
      ensures State() == Layout.ResetPosition(old(State()))
    {
      x, y, lineCount := 0, 0, 0;
    }

    method MoveRight(r: char)
      modifies this`x
      ensures x == old(x) + metrics.runeWidth(r) * charWidth
      ensures State() == Layout.MoveRight(Config(), old(State()), r)
    {
      x := x + metrics.runeWidth(r) * charWidth;
    }

    method MoveDown()
      modifies this`x, this`y, this`lineCount
      ensures x == 0 && y == old(y) + LinePitch(charHeight) && lineCount == old(lineCount) + 1
      ensures y >= old(y)
      ensures State() == Layout.MoveDown(Config(), old(State()))
    {
      x := 0;
      y := y + 3 * charHeight / 4;
      lineCount := lineCount + 1;
    }

    // -------------------------------------------------------------------
    // Canvas fills

    /** drawBackgroundAll: every pixel of the canvas gets the default background. */
    method DrawBackgroundAll()
      modifies image
      ensures forall px, py :: InCanvas(px, py) ==> image[px, py] == defaultBackgroundColor
    {
      var width, height := image.Length0, image.Length1;
      var px := 0;
      while px < width
        invariant 0 <= px <= width
        invariant forall a, b :: InCanvas(a, b) && a < px ==> image[a, b] == defaultBackgroundColor
      {
        var py := 0;
        while py < height
          invariant 0 <= py <= height
          invariant forall a, b :: InCanvas(a, b) && (a < px || (a == px && b < py)) ==>
            image[a, b] == defaultBackgroundColor
        {
          Set(px, py, defaultBackgroundColor);
          py := py + 1;
        }
        px := px + 1;
      }
    }

    /** drawBackground: the in-canvas part of the run's rectangle, from the
        cursor, StringWidth(s) cells wide and one cell high, gets the current
        background; every other pixel, the cursor and the colours are kept. */
    method DrawBackground(s: string)
      modifies image
      ensures forall px, py :: InCanvas(px, py) ==>
        image[px, py] == if RunCovers(Config(), State(), s, px, py) then backgroundColor else old(image[px, py])
    {
      var tw := metrics.stringWidth(s);
      var width := tw * charWidth;
      var height := charHeight;
      var posX, posY := x, y;
      var px := posX;
      while px < posX + width
        invariant posX <= px <= posX + width
        invariant forall a, b :: InCanvas(a, b) ==>
          image[a, b] == if InRect(a, b, posX, posY, px - posX, height) then backgroundColor else old(image[a, b])
      {
        var py := posY;
        while py < posY + height
          invariant posY <= py <= posY + height
          invariant forall a, b :: InCanvas(a, b) ==>
            image[a, b] ==
              if InRect(a, b, posX, posY, px - posX, height) || (a == px && posY <= b < py) then backgroundColor
              else old(image[a, b])
        {
          Set(px, py, backgroundColor);
          py := py + 1;
        }
        px := px + 1;
      }
    }

    // -------------------------------------------------------------------
    // Glyphs

    /** The pixel writes of a foreign drawing routine, applied in order. */
    method ApplyPaints(ws: seq<Paint>)
      modifies image
      ensures forall px, py :: InCanvas(px, py) ==> image[px, py] == PaintedAt(ws, px, py, old(image[px, py]))
    {
      var i := 0;
      while i < |ws|
        invariant 0 <= i <= |ws|
        invariant forall px, py :: InCanvas(px, py) ==> image[px, py] == PaintedAt(ws[..i], px, py, old(image[px, py]))
      {
        assert ws[..i + 1][..i] == ws[..i];
        var w := ws[i];
        if InCanvas(w.x, w.y) {
          image[w.x, w.y] := w.blend(image[w.x, w.y]);
        }
        i := i + 1;
      }
      assert ws[..|ws|] == ws;
    }

    /** newDrawer's dot: the glyph baseline anchor for the current cursor. */
    method NewDrawer() returns (dot: (int, int))
      ensures dot == GlyphAnchor(Config(), State())
      ensures dot.0 == x && y <= dot.1 <= y + charHeight
    {
      dot := (x, y + charHeight - charHeight / 5);
    }

    /** drawRune: the face draws r at the anchor in the current foreground. */
    method DrawRune(r: char, face: Face)
      modifies image
      ensures forall px, py :: InCanvas(px, py) ==>
        image[px, py] == PaintedAt(glyphs.rasterize(face, r, GlyphAnchor(Config(), State()).0,
          GlyphAnchor(Config(), State()).1, foregroundColor), px, py, old(image[px, py]))
    {
      var dot := NewDrawer();
      ApplyPaints(glyphs.rasterize(face, r, dot.0, dot.1, foregroundColor));
    }

    /** drawEmoji: load the image file; on failure nothing is drawn. */
    method DrawEmoji(r: char, path: string) returns (err: Option<Error>)
      modifies image
      ensures var anchor := GlyphAnchor(Config(), State());
        match glyphs.loadEmoji(r, path, anchor.0, anchor.1)
        case Err(e) => (err == Some(e) && forall px, py :: InCanvas(px, py) ==> image[px, py] == old(image[px, py]))
        case Ok(ws) => (err == None &&
          forall px, py :: InCanvas(px, py) ==> image[px, py] == PaintedAt(ws, px, py, old(image[px, py])))
    {
      var dot := NewDrawer();
      var loaded := glyphs.loadEmoji(r, path, dot.0, dot.1);
      match loaded
      case Err(e) =>
        err := Some(e);
      case Ok(ws) =>
        ApplyPaints(ws);
        err := None;
    }

    /** draw: dispatch the rune and draw it; the error of the image-file path
        is handed back. */
    method DrawGlyph(r: char) returns (err: Option<Error>)
      modifies image
      ensures match GlyphPaints(Config(), glyphs, State(), r)
        case Err(e) => (err == Some(e) && forall px, py :: InCanvas(px, py) ==> image[px, py] == old(image[px, py]))
        case Ok(ws) => (err == None &&
          forall px, py :: InCanvas(px, py) ==> image[px, py] == PaintedAt(ws, px, py, old(image[px, py])))
    {
      match glyphs.emojiPath(r, glyphs.emojiDir)
      case Some(path) =>
        if glyphs.useEmoji {
          DrawRune(r, EmojiFont);
          err := None;
        } else {
          err := DrawEmoji(r, path);
        }
      case None =>
        DrawRune(r, PrimaryFont);
        err := None;
    }

    // -------------------------------------------------------------------
    // The two passes of Draw

    /** Pass 1 of Draw: directives update the colours; each text run paints
        its rectangle from the cursor at its start and then moves the cursor
        rune by rune. */
    method PaintBackgrounds(tokens: seq<Token>) returns (ghost runs: seq<RenderState>)
      modifies this`x, this`y, this`lineCount, this`foregroundColor, this`backgroundColor, image
      ensures State() == Replay(Config(), old(State()), tokens)
      ensures runs == RunStarts(Config(), old(State()), tokens)
      ensures forall px, py :: InCanvas(px, py) ==>
        image[px, py] == BackgroundAt(Config(), old(State()), tokens, px, py, old(image[px, py]))
    {
      runs := [];
      var k := 0;
      while k < |tokens|
        invariant 0 <= k <= |tokens|
        invariant State() == Replay(Config(), old(State()), tokens[..k])
        invariant runs == RunStarts(Config(), old(State()), tokens[..k])
        invariant forall px, py :: InCanvas(px, py) ==>
          image[px, py] == BackgroundAt(Config(), old(State()), tokens[..k], px, py, old(image[px, py]))
      {
        assert tokens[..k + 1][..k] == tokens[..k];
        match tokens[k] {
        case ColorToken(ct, col) =>
          UpdateColor(ct, col);
        case TextToken(text) =>
          runs := runs + [State()];
          DrawBackground(text);
          ghost var q := State();
          var j := 0;
          while j < |text|
            modifies this`x, this`y, this`lineCount
            invariant 0 <= j <= |text|
            invariant State() == AdvanceText(Config(), q, text[..j])
          {
            assert text[..j + 1][..j] == text[..j];
            var r := text[j];
            if metrics.isLinefeed(r) {
              MoveDown();
            } else {
              MoveRight(r);
            }
            j := j + 1;
          }
          assert text[..|text|] == text;
        }
        k := k + 1;
      }
      assert tokens[..|tokens|] == tokens;
    }

    /** The rune loop of pass 2 for one text run: a line break moves down,
        any other rune is drawn and then moves the cursor right; the first
        drawing error ends the loop at once. */
    method DrawText(text: string) returns (err: Option<Error>)
      modifies this`x, this`y, this`lineCount, image
      ensures var out := GlyphText(Config(), glyphs, Begin(old(State())), text);
        err == out.err && State() == out.state &&
        forall px, py :: InCanvas(px, py) ==> image[px, py] == PaintedAt(out.writes, px, py, old(image[px, py]))
    {
      ghost var p0 := Begin(State());
      ghost var writes: seq<Paint> := [];
      err := None;
      var j := 0;
      while j < |text|
        invariant 0 <= j <= |text|
        invariant err == None
        invariant GlyphText(Config(), glyphs, p0, text[..j]) == Progress(State(), writes, [], None)
        invariant forall px, py :: InCanvas(px, py) ==> image[px, py] == PaintedAt(writes, px, py, old(image[px, py]))
      {
        assert text[..j + 1][..j] == text[..j];
        var r := text[j];
        if metrics.isLinefeed(r) {
          MoveDown();
        } else {
          ghost var before := State();
          err := DrawGlyph(r);
          if err.Some? {
            GlyphTextStops(Config(), glyphs, p0, text, j + 1);
            return;
          }
          ghost var ws := GlyphPaints(Config(), glyphs, before, r).value;
          forall px, py | InCanvas(px, py)
            ensures image[px, py] == PaintedAt(writes + ws, px, py, old(image[px, py]))
          {
            PaintedAppend(writes, ws, px, py, old(image[px, py]));
          }
          writes := writes + ws;
          MoveRight(r);
        }
        j := j + 1;
      }
      assert text[..|text|] == text;
    }

    /** Pass 2 of Draw: directives update the colours; text runs are drawn
        rune by rune. The first drawing error ends the pass at once. */
    method DrawGlyphs(tokens: seq<Token>) returns (err: Option<Error>, ghost runs: seq<RenderState>)
      modifies this`x, this`y, this`lineCount, this`foregroundColor, this`backgroundColor, image
      ensures var out := GlyphTokens(Config(), glyphs, Begin(old(State())), tokens);
        err == out.err && State() == out.state && runs == out.runs &&
        forall px, py :: InCanvas(px, py) ==> image[px, py] == PaintedAt(out.writes, px, py, old(image[px, py]))
    {
      ghost var start := Begin(old(State()));
      ghost var writes: seq<Paint> := [];
      err := None;
      runs := [];
      var k := 0;
      while k < |tokens|
        invariant 0 <= k <= |tokens|
        invariant err == None
        invariant GlyphTokens(Config(), glyphs, start, tokens[..k]) == Progress(State(), writes, runs, None)
        invariant forall px, py :: InCanvas(px, py) ==> image[px, py] == PaintedAt(writes, px, py, old(image[px, py]))
      {
        assert tokens[..k + 1][..k] == tokens[..k];
        match tokens[k] {
        case ColorToken(ct, col) =>
          UpdateColor(ct, col);
        case TextToken(text) =>
          runs := runs + [State()];
          ghost var p0 := Progress(State(), writes, runs, None);
          err := DrawText(text);
          ghost var out := GlyphText(Config(), glyphs, Begin(p0.state), text);
          GlyphTextShift(Config(), glyphs, p0, text);
          forall px, py | InCanvas(px, py)
            ensures image[px, py] == PaintedAt(writes + out.writes, px, py, old(image[px, py]))
          {
            PaintedAppend(writes, out.writes, px, py, old(image[px, py]));
          }
          writes := writes + out.writes;
          if err.Some? {
            GlyphTokensStop(Config(), glyphs, start, tokens, k + 1);
            return;
          }
        }
        k := k + 1;
      }
      assert tokens[..|tokens|] == tokens;
    }

    // -------------------------------------------------------------------
    // Animation and scaling

    /** The frames the slicer adds for the canvas a. */
    function NewFrames(a: array2<Rgba>): (fs: seq<Frame>)
      reads a
      requires Valid()
      ensures !useAnimation ==> fs == []
      ensures useAnimation ==> |fs| == a.Length1 / animationImageFrameHeight
      ensures forall k :: 0 <= k < |fs| ==>
        fs[k].Valid() && fs[k].width == a.Length0 && fs[k].height == animationImageFrameHeight
      ensures useAnimation ==> fs == Slices(a, animationImageFrameHeight)
    {
      if useAnimation then Slices(a, animationImageFrameHeight) else []
    }

    /** setAnimationFlames: with animation on, append canvas height / frame
        height full-width frames, top to bottom; otherwise append nothing. */
    method SetAnimationFrames()
      requires Valid()
      modifies this`animationImages
      ensures animationImages == old(animationImages) + NewFrames(image)
    {
      if useAnimation {
        var w, h := image.Length0, animationImageFrameHeight;
        var max := image.Length1 / h;
        var rc := 0;
        while rc < max
          invariant 0 <= rc <= max
          invariant animationImages == old(animationImages) + Slices(image, h)[..rc]
        {
          var dist := Crop(image, rc * h, h);
          assert Slices(image, h)[..rc + 1] == Slices(image, h)[..rc] + [dist];
          animationImages := animationImages + [dist];
          rc := rc + 1;
        }
        assert Slices(image, h)[..max] == Slices(image, h);
      }
    }

    /** The frame list after scale. */
    function Rescaled(fs: seq<Frame>): (gs: seq<Frame>)
      ensures |gs| == |fs|
      ensures NoResize() ==> gs == fs
      ensures !NoResize() ==> forall j :: 0 <= j < |gs| ==>
        gs[j].Valid() && gs[j].width == resizeWidth && gs[j].height == resizeHeight
    {
      if NoResize() then fs else ScaleAll(fs, resizeWidth, resizeHeight, resample)
    }

    /** newScaledImage: the canvas itself when no size is requested, else a new
        canvas of exactly the requested size. */
    method NewScaledImage() returns (dst: array2<Rgba>)
      ensures NoResize() ==> dst == image
      ensures !NoResize() ==> fresh(dst) && dst.Length0 == resizeWidth && dst.Length1 == resizeHeight
      ensures !NoResize() ==> forall px: nat, py: nat :: px < dst.Length0 && py < dst.Length1 ==>
        dst[px, py] == resample(Snapshot(image), resizeWidth, resizeHeight, px, py)
    {
      if NoResize() {
        return image;
      }
      var src := Snapshot(image);
      dst := new Rgba[resizeWidth, resizeHeight]((px: nat, py: nat) => resample(src, resizeWidth, resizeHeight, px, py));
    }

    /** scale: with a size requested, the canvas and every frame are replaced
        by images of exactly that size; otherwise nothing changes. */
    method Scale()
      modifies this`image, this`animationImages
      ensures NoResize() ==> image == old(image) && animationImages == old(animationImages)
      ensures !NoResize() ==> fresh(image) && image.Length0 == resizeWidth && image.Length1 == resizeHeight
      ensures !NoResize() ==> forall px: nat, py: nat :: px < image.Length0 && py < image.Length1 ==>
        image[px, py] == resample(Snapshot(old(image)), resizeWidth, resizeHeight, px, py)
      ensures animationImages == Rescaled(old(animationImages))
    {
      if NoResize() {
        return;
      }
      image := NewScaledImage();
      var j := 0;
      while j < |animationImages|
        modifies this`animationImages
        invariant 0 <= j <= |animationImages| == |old(animationImages)|
        invariant forall i :: 0 <= i < j ==>
          animationImages[i] == ScaleFrame(old(animationImages)[i], resizeWidth, resizeHeight, resample)
        invariant forall i :: j <= i < |animationImages| ==> animationImages[i] == old(animationImages)[i]
      {
        animationImages := animationImages[j := ScaleFrame(animationImages[j], resizeWidth, resizeHeight, resample)];
        j := j + 1;
      }
    }

    // -------------------------------------------------------------------
    // Draw

    /** The colour Draw leaves in canvas pixel (px, py) before slicing and
        scaling: the default background, then the background pass replayed
        from s, then the glyph writes of the pass replayed from the start. */
    function Rendered(s: RenderState, tokens: seq<Token>, px: int, py: int): Rgba {
      PaintedAt(GlyphTokens(Config(), glyphs, Begin(Start(Config())), tokens).writes, px, py,
        BackgroundAt(Config(), s, tokens, px, py, defaultBackgroundColor))
    }

    /** Draw: fill, background pass, reset, glyph pass; on a drawing error
        return it at once, otherwise slice frames and scale. The ghost results
        expose what each pass saw: the state at every text run start and the
        state the background pass ended in. */
    method Draw(tokens: seq<Token>)
      returns (err: Option<Error>, ghost backgroundRuns: seq<RenderState>,
               ghost glyphRuns: seq<RenderState>, ghost afterBackground: RenderState)
      requires Valid()
      modifies this, image
      ensures backgroundRuns == RunStarts(Config(), old(State()), tokens)
      ensures afterBackground == Replay(Config(), old(State()), tokens)
      ensures var out := GlyphTokens(Config(), glyphs, Begin(Start(Config())), tokens);
        err == out.err && glyphRuns == out.runs && State() == out.state
      ensures forall px, py :: 0 <= px < old(image).Length0 && 0 <= py < old(image).Length1 ==>
        old(image)[px, py] == Rendered(old(State()), tokens, px, py)
      ensures err.Some? ==> image == old(image) && animationImages == old(animationImages)
      ensures err.None? ==> animationImages == Rescaled(old(animationImages) + NewFrames(old(image)))
      ensures err.None? && NoResize() ==> image == old(image)
      ensures err.None? && !NoResize() ==>
        fresh(image) && image.Length0 == resizeWidth && image.Length1 == resizeHeight &&
        forall px: nat, py: nat :: px < image.Length0 && py < image.Length1 ==>
          image[px, py] == resample(Snapshot(old(image)), resizeWidth, resizeHeight, px, py)
      // Both passes see the same state evolution when Draw starts from the
      // constructed state: the same run starts and the same final state.
      ensures old(State()) == Start(Config()) ==> glyphRuns <= backgroundRuns
      ensures old(State()) == Start(Config()) && err.None? ==>
        glyphRuns == backgroundRuns && State() == afterBackground
    {
      DrawBackgroundAll();
      backgroundRuns := PaintBackgrounds(tokens);
      assert forall px, py :: InCanvas(px, py) ==>
        image[px, py] == BackgroundAt(Config(), old(State()), tokens, px, py, defaultBackgroundColor);
      afterBackground := State();
      ResetColor();
      ResetPosition();
      assert State() == Start(Config());
      err, glyphRuns := DrawGlyphs(tokens);
      assert forall px, py :: InCanvas(px, py) ==> image[px, py] == Rendered(old(State()), tokens, px, py);
      GlyphPassFollowsReplay(Config(), glyphs, Start(Config()), tokens);
      if err.Some? {
        return;
      }
      SetAnimationFrames();
      Scale();
    }
  }
}
