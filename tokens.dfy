/** Values the rendering engine consumes: colours, the tokens produced by the
    ANSI tokenizer, and the small failure-compatible wrappers used for the
    engine's error results. */
module Tokens {

  /** One 8-bit channel of a colour. */
  newtype byte = x: int | 0 <= x < 256

  /** A non-premultiplied 8-bit RGBA colour (Go's color.RGBA). */
  datatype Rgba = Rgba(r: byte, g: byte, b: byte, a: byte)

  /** The zero colour: what a freshly allocated RGBA canvas holds. */
  const Transparent := Rgba(0, 0, 0, 0)

  /** The colour/style directive kinds the tokenizer emits. */
  datatype ColorType =
    | Bold
    | Reset
    | ResetForeground
    | ResetBackground
    | Reverse
    | Foreground
    | Background

  /** A token of the stream: a colour directive with its payload colour, or a
      run of text (which may contain line-break runes). */
  datatype Token =
    | ColorToken(colorType: ColorType, color: Rgba)
    | TextToken(text: string)

  /** An opaque error value surfaced by a foreign collaborator
      (opening or decoding an emoji image). */
  datatype Error = Error(message: string)

  datatype Option<+T> = None | Some(value: T)

  datatype Result<+T> = Ok(value: T) | Err(error: Error)
}
