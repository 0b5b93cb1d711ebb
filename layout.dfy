/** The render state of image/image.go as a value: the colour state machine
    (updateColor, resetColor) and the cursor/layout arithmetic (moveRight,
    moveDown, resetPosition), plus the fold that replays a whole token stream.
    Both compositing passes of Draw evolve their state exactly as Replay says. */
module Layout {
  import opened Tokens

  /** Display width of one rune in cells; runewidth.RuneWidth returns 0, 1 or 2. */
  type Cells = w: nat | w <= 2

  /** The text-measuring collaborators, taken as oracles: runewidth.RuneWidth,
      runewidth.StringWidth (not assumed to be the sum of the rune widths) and
      the tokenizer's isLinefeed. */
  datatype Metrics = Metrics(
    runeWidth: char -> Cells,
    stringWidth: string -> nat,
    isLinefeed: char -> bool)

  /** What stays fixed for the lifetime of a render: the cell size in pixels,
      the two default colours and the metrics. */
  datatype Setup = Setup(
    charWidth: nat,
    charHeight: nat,
    defaultForeground: Rgba,
    defaultBackground: Rgba,
    metrics: Metrics)

  /** The mutable part of a render: cursor (pixels), lines emitted, and the
      current colours. */
  datatype RenderState = RenderState(
    x: int,
    y: int,
    lineCount: int,
    foreground: Rgba,
    background: Rgba)

  /** The state a freshly constructed Image holds, and the one both passes start from. */
  function Start(su: Setup): RenderState {
    RenderState(0, 0, 0, su.defaultForeground, su.defaultBackground)
  }

  predicate SameCursor(s: RenderState, t: RenderState) {
    s.x == t.x && s.y == t.y && s.lineCount == t.lineCount
  }

  predicate SameColours(s: RenderState, t: RenderState) {
    s.foreground == t.foreground && s.background == t.background
  }

  /** resetColor: both current colours back to their defaults. */
  function ResetColor(su: Setup, s: RenderState): (r: RenderState)
    ensures SameCursor(r, s)
    ensures r.foreground == su.defaultForeground && r.background == su.defaultBackground
  {
    s.(foreground := su.defaultForeground, background := su.defaultBackground)
  }

  /** resetPosition: cursor and line counter back to the origin. */
  function ResetPosition(s: RenderState): (r: RenderState)
    ensures SameColours(r, s)
    ensures r.x == 0 && r.y == 0 && r.lineCount == 0
  {
    s.(x := 0, y := 0, lineCount := 0)
  }

  /** updateColor: one directive changes only the current colours. */
  function UpdateColor(su: Setup, s: RenderState, t: ColorType, col: Rgba): (r: RenderState)
    ensures SameCursor(r, s)
  {
    match t
    case Bold => s
    case Reset => ResetColor(su, s)
    case ResetForeground => s.(foreground := su.defaultForeground)
    case ResetBackground => s.(background := su.defaultBackground)
    case Reverse => s.(foreground := s.background, background := s.foreground)
    case Foreground => s.(foreground := col)
    case Background => s.(background := col)
  }

  /** The vertical pitch of one line: int(0.75 * float64(charHeight)), which is
      exact in floating point and truncates, i.e. the floor of 3/4 of a cell. */
  function LinePitch(charHeight: nat): (pitch: nat)
    ensures 4 * pitch <= 3 * charHeight < 4 * pitch + 4
  {
    3 * charHeight / 4
  }

  /** moveRight: advance by the rune's display width in cells. */
  function MoveRight(su: Setup, s: RenderState, r: char): RenderState {
    s.(x := s.x + su.metrics.runeWidth(r) * su.charWidth)
  }

  /** moveDown: carriage return plus line feed. */
  function MoveDown(su: Setup, s: RenderState): RenderState {
    s.(x := 0, y := s.y + LinePitch(su.charHeight), lineCount := s.lineCount + 1)
  }

  /** What both passes do with the cursor for one rune of a text run. */
  function Advance(su: Setup, s: RenderState, r: char): RenderState {
    if su.metrics.isLinefeed(r) then MoveDown(su, s) else MoveRight(su, s, r)
  }

  /** The cursor after every rune of a text run, folded left to right. */
  function AdvanceText(su: Setup, s: RenderState, text: string): RenderState
    decreases |text|
  {
    if text == [] then s
    else Advance(su, AdvanceText(su, s, text[..|text| - 1]), text[|text| - 1])
  }

  /** The state change one token causes (identical in both passes). */
  function Step(su: Setup, s: RenderState, t: Token): RenderState {
    match t
    case ColorToken(ct, col) => UpdateColor(su, s, ct, col)
    case TextToken(text) => AdvanceText(su, s, text)
  }

  /** The state after replaying a token stream from s. */
  function Replay(su: Setup, s: RenderState, ts: seq<Token>): RenderState
    decreases |ts|
  {
    if ts == [] then s
    else Step(su, Replay(su, s, ts[..|ts| - 1]), ts[|ts| - 1])
  }

  /** The state current at the start of each text run, in stream order. */
  function RunStarts(su: Setup, s: RenderState, ts: seq<Token>): seq<RenderState>
    decreases |ts|
  {
    if ts == [] then []
    else
      var prefix := ts[..|ts| - 1];
      match ts[|ts| - 1]
      case TextToken(_) => RunStarts(su, s, prefix) + [Replay(su, s, prefix)]
      case ColorToken(_, _) => RunStarts(su, s, prefix)
  }

  /** The glyph baseline anchor of newDrawer: (x, y + charHeight - charHeight/5).
      The baseline lies inside the cell, at least four fifths of the way down. */
  function GlyphAnchor(su: Setup, s: RenderState): (p: (int, int))
    ensures p.0 == s.x
    ensures s.y <= p.1 <= s.y + su.charHeight
    ensures 5 * (p.1 - s.y) >= 4 * su.charHeight
  {
    (s.x, s.y + su.charHeight - su.charHeight / 5)
  }

  /** Sum of the display widths of the runes of a text. */
  function RunWidth(m: Metrics, text: string): nat
    decreases |text|
  {
    if text == [] then 0 else RunWidth(m, text[..|text| - 1]) + m.runeWidth(text[|text| - 1])
  }

  /** Number of line-break runes in a text. */
  function BreaksIn(m: Metrics, text: string): nat
    decreases |text|
  {
    if text == [] then 0
    else BreaksIn(m, text[..|text| - 1]) + (if m.isLinefeed(text[|text| - 1]) then 1 else 0)
  }

  /** Number of line-break runes in all text runs of a token stream. */
  function Breaks(m: Metrics, ts: seq<Token>): nat
    decreases |ts|
  {
    if ts == [] then 0
    else
      Breaks(m, ts[..|ts| - 1]) +
      (match ts[|ts| - 1] case TextToken(text) => BreaksIn(m, text) case ColorToken(_, _) => 0)
  }

  predicate HasDirective(ts: seq<Token>) {
    exists i :: 0 <= i < |ts| && ts[i].ColorToken?
  }

  // ---------------------------------------------------------------------
  // Colour state machine

  /** What each directive kind does; no kind touches the defaults (they live
      in Setup, which UpdateColor only reads). */
  lemma UpdateColorByKind(su: Setup, s: RenderState, t: ColorType, col: Rgba)
    ensures var r := UpdateColor(su, s, t, col);
      && (t == Bold ==> r == s)
      && (t == Reset ==> r.foreground == su.defaultForeground && r.background == su.defaultBackground)
      && (t == ResetForeground ==> r.foreground == su.defaultForeground && r.background == s.background)
      && (t == ResetBackground ==> r.background == su.defaultBackground && r.foreground == s.foreground)
      && (t == Reverse ==> r.foreground == s.background && r.background == s.foreground)
      && (t == Foreground ==> r.foreground == col && r.background == s.background)
      && (t == Background ==> r.background == col && r.foreground == s.foreground)
  {
  }

  /** Reverse swaps the colours, so applying it twice is the identity. */
  lemma ReverseTwice(su: Setup, s: RenderState, c1: Rgba, c2: Rgba)
    ensures UpdateColor(su, UpdateColor(su, s, Reverse, c1), Reverse, c2) == s
  {
  }

  /** Between the passes Draw calls resetColor and resetPosition: whatever
      pass 1 left behind, pass 2 starts from the initial state. */
  lemma ResetRestarts(su: Setup, s: RenderState)
    ensures ResetPosition(ResetColor(su, s)) == Start(su)
  {
  }

  // ---------------------------------------------------------------------
  // Cursor arithmetic

  /** A text run never moves the cursor up, and counts its line breaks. */
  lemma {:induction false} AdvanceTextLines(su: Setup, s: RenderState, text: string)
    ensures AdvanceText(su, s, text).y >= s.y
    ensures AdvanceText(su, s, text).lineCount == s.lineCount + BreaksIn(su.metrics, text)
    ensures SameColours(AdvanceText(su, s, text), s)
    decreases |text|
  {
    if text != [] {
      AdvanceTextLines(su, s, text[..|text| - 1]);
    }
  }

  /** Over a whole stream: y never decreases and lineCount counts the line breaks. */
  lemma {:induction false} ReplayLines(su: Setup, s: RenderState, ts: seq<Token>)
    ensures Replay(su, s, ts).y >= s.y
    ensures Replay(su, s, ts).lineCount == s.lineCount + Breaks(su.metrics, ts)
    decreases |ts|
  {
    if ts != [] {
      var prefix := ts[..|ts| - 1];
      ReplayLines(su, s, prefix);
      match ts[|ts| - 1]
      case TextToken(text) => AdvanceTextLines(su, Replay(su, s, prefix), text);
      case ColorToken(_, _) =>
    }
  }

  /** On a single line, a run advances x by its cells times the cell width. */
  lemma {:induction false} AdvanceTextOnOneLine(su: Setup, s: RenderState, text: string)
    requires forall i :: 0 <= i < |text| ==> !su.metrics.isLinefeed(text[i])
    ensures AdvanceText(su, s, text) == s.(x := s.x + RunWidth(su.metrics, text) * su.charWidth)
    decreases |text|
  {
    if text != [] {
      var prefix := text[..|text| - 1];
      var last := text[|text| - 1];
      assert forall i :: 0 <= i < |prefix| ==> prefix[i] == text[i];
      AdvanceTextOnOneLine(su, s, prefix);
      var before := RunWidth(su.metrics, prefix);
      var w := su.metrics.runeWidth(last);
      assert RunWidth(su.metrics, text) == before + w;
      assert (before + w) * su.charWidth == before * su.charWidth + w * su.charWidth;
    }
  }

  /** A worked case: with 10 x 24 pixel cells, the text "Hi" of two one-cell
      runes leaves the cursor at x = 20 on the first line, and its glyphs sit
      on the baseline 24 - 24 / 5 = 20 pixels below the top of the line. */
  lemma HiExample(su: Setup)
    requires su.charWidth == 10 && su.charHeight == 24
    requires su.metrics.runeWidth('H') == 1 && su.metrics.runeWidth('i') == 1
    requires !su.metrics.isLinefeed('H') && !su.metrics.isLinefeed('i')
    ensures AdvanceText(su, Start(su), "Hi") == Start(su).(x := 20)
    ensures GlyphAnchor(su, Start(su)) == (0, 20)
  {
    var h := AdvanceText(su, Start(su), "H");
    assert "Hi"[..1] == "H" && "H"[..0] == "";
    assert h == Start(su).(x := 10);
    assert AdvanceText(su, Start(su), "Hi") == MoveRight(su, h, 'i');
  }

  /** After a run whose last rune is a line break the cursor is at the start of a line. */
  lemma AdvanceTextEndingInBreak(su: Setup, s: RenderState, text: string)
    requires text != [] && su.metrics.isLinefeed(text[|text| - 1])
    ensures AdvanceText(su, s, text).x == 0
    ensures AdvanceText(su, s, text).y == AdvanceText(su, s, text[..|text| - 1]).y + LinePitch(su.charHeight)
  {
  }

  /** Without directives the colours never change over a replay. */
  lemma {:induction false} ReplayWithoutDirectives(su: Setup, s: RenderState, ts: seq<Token>)
    requires !HasDirective(ts)
    ensures SameColours(Replay(su, s, ts), s)
    decreases |ts|
  {
    if ts != [] {
      var prefix := ts[..|ts| - 1];
      assert !HasDirective(prefix) by {
        forall i | 0 <= i < |prefix| ensures !prefix[i].ColorToken? {
          assert prefix[i] == ts[i];
        }
      }
      ReplayWithoutDirectives(su, s, prefix);
      assert ts[|ts| - 1].TextToken?;
      AdvanceTextLines(su, Replay(su, s, prefix), ts[|ts| - 1].text);
    }
  }

  /** Replay is a left fold: replaying a + b is replaying b after a. */
  lemma {:induction false} ReplayAppend(su: Setup, s: RenderState, a: seq<Token>, b: seq<Token>)
    ensures Replay(su, s, a + b) == Replay(su, Replay(su, s, a), b)
    decreases |b|
  {
    if b == [] {
      assert a + b == a;
    } else {
      var b' := b[..|b| - 1];
      assert (a + b)[..|a + b| - 1] == a + b';
      ReplayAppend(su, s, a, b');
    }
  }

  /** The run starts of a prefix of the stream are a prefix of the run starts. */
  lemma {:induction false} RunStartsPrefix(su: Setup, s: RenderState, ts: seq<Token>, n: nat)
    requires n <= |ts|
    ensures RunStarts(su, s, ts[..n]) <= RunStarts(su, s, ts)
    decreases |ts|
  {
    if n < |ts| {
      var prefix := ts[..|ts| - 1];
      assert prefix[..n] == ts[..n];
      RunStartsPrefix(su, s, prefix, n);
    } else {
      assert ts[..n] == ts;
    }
  }
}
