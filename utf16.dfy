/** Text as the JVM holds it. */
module Utf16 {

  /** One UTF-16 code unit, the value of a Kotlin `Char`. */
  newtype CodeUnit = x: int | 0 <= x < 0x1_0000

  /** A Kotlin `String`: its length, its indices and every offset `indexOf`
      returns count code units, so a character outside the Basic
      Multilingual Plane takes two of them (a surrogate pair). */
  type Text = seq<CodeUnit>

  /** The code unit of '\n'. */
  const LineFeed: CodeUnit := 0x0A
}
