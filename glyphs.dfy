/** The glyph pass of Draw as a value: which renderer draw dispatches a rune
    to, where the glyph is anchored, and the fold over the token stream that
    stops at the first failure. */
module Glyphs {
  import opened Tokens
  import opened Layout
  import opened Pixels

  /** The two font faces an Image holds. */
  datatype Face = PrimaryFont | EmojiFont

  /** How draw renders one rune. */
  datatype GlyphSource = FontGlyph(face: Face) | EmojiImage(path: string)

  /** The glyph collaborators, taken as oracles:
      - emojiPath(r, dir): isEmoji, the path of a pre-rendered image for r, if any;
      - rasterize(face, r, x, y, colour): font.Drawer.DrawString of r with its
        dot at (x, y) in a uniform colour; it cannot fail;
      - loadEmoji(r, path, x, y): drawEmoji, which opens and decodes the image
        file, scales it and composites it at the anchor; it may fail. */
  datatype Renderer = Renderer(
    emojiDir: string,
    useEmoji: bool,
    emojiPath: (char, string) -> Option<string>,
    rasterize: (Face, char, int, int, Rgba) -> seq<Paint>,
    loadEmoji: (char, string, int, int) -> Result<seq<Paint>>)

  /** draw's choice: an emoji with emoji fonts enabled goes through the emoji
      face, an emoji without goes through its image file, anything else
      through the primary face. */
  function Dispatch(g: Renderer, r: char): (src: GlyphSource)
    ensures src == FontGlyph(PrimaryFont) <==> g.emojiPath(r, g.emojiDir).None?
    ensures src == FontGlyph(EmojiFont) <==> g.emojiPath(r, g.emojiDir).Some? && g.useEmoji
    ensures src.EmojiImage? <==> g.emojiPath(r, g.emojiDir).Some? && !g.useEmoji
    ensures src.EmojiImage? ==> g.emojiPath(r, g.emojiDir) == Some(src.path)
  {
    match g.emojiPath(r, g.emojiDir)
    case Some(path) => if g.useEmoji then FontGlyph(EmojiFont) else EmojiImage(path)
    case None => FontGlyph(PrimaryFont)
  }

  /** The pixel writes of drawing rune r in state s, or the error that
      aborts the render. Only the image-file path can fail. */
  function GlyphPaints(su: Setup, g: Renderer, s: RenderState, r: char): (res: Result<seq<Paint>>)
    ensures res.Err? ==> Dispatch(g, r).EmojiImage?
  {
    var anchor := GlyphAnchor(su, s);
    match Dispatch(g, r)
    case FontGlyph(face) => Ok(g.rasterize(face, r, anchor.0, anchor.1, s.foreground))
    case EmojiImage(path) => g.loadEmoji(r, path, anchor.0, anchor.1)
  }

  /** Where the glyph pass stands: its state, the pixel writes made so far,
      the state at the start of each text run entered, and the first error. */
  datatype Progress = Progress(
    state: RenderState,
    writes: seq<Paint>,
    runs: seq<RenderState>,
    err: Option<Error>)

  function Begin(s: RenderState): Progress {
    Progress(s, [], [], None)
  }

  /** One rune of the glyph pass: a line break moves down; any other rune is
      drawn and then the cursor moves right; after an error nothing happens. */
  function GlyphRune(su: Setup, g: Renderer, p: Progress, r: char): Progress {
    if p.err.Some? then p
    else if su.metrics.isLinefeed(r) then p.(state := MoveDown(su, p.state))
    else
      match GlyphPaints(su, g, p.state, r)
      case Err(e) => p.(err := Some(e))
      case Ok(ws) => p.(state := MoveRight(su, p.state, r), writes := p.writes + ws)
  }

  function GlyphText(su: Setup, g: Renderer, p: Progress, text: string): Progress
    decreases |text|
  {
    if text == [] then p
    else GlyphRune(su, g, GlyphText(su, g, p, text[..|text| - 1]), text[|text| - 1])
  }

  /** The whole glyph pass over ts: directives update the colours, text runs
      are drawn rune by rune, and the first error ends the pass. */
  function GlyphTokens(su: Setup, g: Renderer, p: Progress, ts: seq<Token>): Progress
    decreases |ts|
  {
    if ts == [] then p
    else
      var q := GlyphTokens(su, g, p, ts[..|ts| - 1]);
      if q.err.Some? then q
      else
        match ts[|ts| - 1]
        case ColorToken(ct, col) => q.(state := UpdateColor(su, q.state, ct, col))
        case TextToken(text) => GlyphText(su, g, q.(runs := q.runs + [q.state]), text)
  }

  /** Inside a run the glyph pass moves the cursor exactly as Advance does and
      records no run start. */
  lemma {:induction false} GlyphTextFollowsAdvance(su: Setup, g: Renderer, p: Progress, text: string)
    requires p.err.None?
    ensures GlyphText(su, g, p, text).runs == p.runs
    ensures GlyphText(su, g, p, text).err.None? ==>
      GlyphText(su, g, p, text).state == AdvanceText(su, p.state, text)
    decreases |text|
  {
    if text != [] {
      GlyphTextFollowsAdvance(su, g, p, text[..|text| - 1]);
    }
  }

  /** The glyph pass sees the same state evolution as the background pass:
      the run starts it records are a prefix of RunStarts, all of them when
      it completes, and then it ends in the state Replay gives. */
  lemma {:induction false} GlyphPassFollowsReplay(su: Setup, g: Renderer, s: RenderState, ts: seq<Token>)
    ensures GlyphTokens(su, g, Begin(s), ts).runs <= RunStarts(su, s, ts)
    ensures GlyphTokens(su, g, Begin(s), ts).err.None? ==>
      GlyphTokens(su, g, Begin(s), ts).runs == RunStarts(su, s, ts) &&
      GlyphTokens(su, g, Begin(s), ts).state == Replay(su, s, ts)
    decreases |ts|
  {
    if ts != [] {
      var prefix := ts[..|ts| - 1];
      GlyphPassFollowsReplay(su, g, s, prefix);
      var q := GlyphTokens(su, g, Begin(s), prefix);
      if q.err.None? {
        match ts[|ts| - 1]
        case ColorToken(_, _) =>
        case TextToken(text) =>
          GlyphTextFollowsAdvance(su, g, q.(runs := q.runs + [q.state]), text);
      }
    }
  }

  /** A run's effect does not depend on what came before it: the writes it
      makes are appended to the earlier ones and the recorded runs are kept. */
  lemma {:induction false} GlyphTextShift(su: Setup, g: Renderer, p: Progress, text: string)
    requires p.err.None?
    ensures var alone := GlyphText(su, g, Begin(p.state), text);
      GlyphText(su, g, p, text) == Progress(alone.state, p.writes + alone.writes, p.runs, alone.err)
    decreases |text|
  {
    if text == [] {
      assert p.writes + [] == p.writes;
    } else {
      var prefix := text[..|text| - 1];
      GlyphTextShift(su, g, p, prefix);
      var f := GlyphText(su, g, Begin(p.state), prefix);
      if f.err.None? && !su.metrics.isLinefeed(text[|text| - 1]) {
        match GlyphPaints(su, g, f.state, text[|text| - 1])
        case Err(_) =>
        case Ok(ws) =>
          assert (p.writes + f.writes) + ws == p.writes + (f.writes + ws);
      }
    }
  }

  /** After an error inside a run, the rest of the run draws nothing. */
  lemma {:induction false} GlyphTextStops(su: Setup, g: Renderer, p: Progress, text: string, n: nat)
    requires n <= |text| && GlyphText(su, g, p, text[..n]).err.Some?
    ensures GlyphText(su, g, p, text) == GlyphText(su, g, p, text[..n])
    decreases |text|
  {
    if n == |text| {
      assert text[..n] == text;
    } else {
      var prefix := text[..|text| - 1];
      assert prefix[..n] == text[..n];
      GlyphTextStops(su, g, p, prefix, n);
    }
  }

  /** After an error, no later token changes anything: no rune is drawn, the
      cursor and colours stay where they were. */
  lemma {:induction false} GlyphTokensStop(su: Setup, g: Renderer, p: Progress, ts: seq<Token>, n: nat)
    requires n <= |ts| && GlyphTokens(su, g, p, ts[..n]).err.Some?
    ensures GlyphTokens(su, g, p, ts) == GlyphTokens(su, g, p, ts[..n])
    decreases |ts|
  {
    if n == |ts| {
      assert ts[..n] == ts;
    } else {
      var prefix := ts[..|ts| - 1];
      assert prefix[..n] == ts[..n];
      GlyphTokensStop(su, g, p, prefix, n);
    }
  }

  /** Every rune of every run is drawn through a font face. */
  predicate FontGlyphsOnly(g: Renderer, ts: seq<Token>) {
    forall i, j :: 0 <= i < |ts| && ts[i].TextToken? && 0 <= j < |ts[i].text| ==>
      Dispatch(g, ts[i].text[j]).FontGlyph?
  }

  lemma {:induction false} FontTextNeverFails(su: Setup, g: Renderer, p: Progress, text: string)
    requires p.err.None?
    requires forall j :: 0 <= j < |text| ==> Dispatch(g, text[j]).FontGlyph?
    ensures GlyphText(su, g, p, text).err.None?
    decreases |text|
  {
    if text != [] {
      FontTextNeverFails(su, g, p, text[..|text| - 1]);
      assert Dispatch(g, text[|text| - 1]).FontGlyph?;
    }
  }

  /** Font rendering cannot fail: a stream with no emoji drawn from an image
      file completes the glyph pass. */
  lemma {:induction false} FontGlyphsNeverFail(su: Setup, g: Renderer, s: RenderState, ts: seq<Token>)
    requires FontGlyphsOnly(g, ts)
    ensures GlyphTokens(su, g, Begin(s), ts).err.None?
    decreases |ts|
  {
    if ts != [] {
      var prefix := ts[..|ts| - 1];
      assert FontGlyphsOnly(g, prefix) by {
        forall i, j | 0 <= i < |prefix| && prefix[i].TextToken? && 0 <= j < |prefix[i].text|
          ensures Dispatch(g, prefix[i].text[j]).FontGlyph?
        {
          assert prefix[i] == ts[i];
        }
      }
      FontGlyphsNeverFail(su, g, s, prefix);
      var q := GlyphTokens(su, g, Begin(s), prefix);
      match ts[|ts| - 1]
      case ColorToken(_, _) =>
      case TextToken(text) =>
        forall j | 0 <= j < |text| ensures Dispatch(g, text[j]).FontGlyph? {
          assert ts[|ts| - 1].text[j] == text[j];
        }
        FontTextNeverFails(su, g, q.(runs := q.runs + [q.state]), text);
    }
  }
}
