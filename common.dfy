/** Definitions shared by every part of the model: Go's `rune` type, its
    conversions, and an optional value standing for a nil pointer. */
module Common {

  /** A Go `rune`: a signed 32-bit integer (not necessarily a valid code point). */
  type Rune = x: int | -0x8000_0000 <= x < 0x8000_0000

  /** Go's conversion `rune(n)` of an `int`: keep the low 32 bits, signed. */
  function ToRune(n: int): (r: Rune)
    ensures -0x8000_0000 <= n < 0x8000_0000 ==> r == n
    ensures (n - r) % 0x1_0000_0000 == 0
  {
    (n + 0x8000_0000) % 0x1_0000_0000 - 0x8000_0000
  }

  /** An optional value; `None` plays the part of a nil pointer. */
  datatype Option<T> = None | Some(value: T)

  /** Go's `string(r)` for one rune: a rune that is no Unicode scalar value
      becomes U+FFFD. */
  function RuneToChar(r: Rune): (c: char)
    ensures (0 <= r < 0xD800 || 0xE000 <= r < 0x11_0000) ==> c as int == r
  {
    if 0 <= r < 0xD800 || 0xE000 <= r < 0x11_0000 then r as char else 0xFFFD as char
  }

  /** Go's `string(runes)`, seen as the sequence of characters it spells. */
  function RunesToString(rs: seq<Rune>): (s: string)
    ensures |s| == |rs|
    ensures forall i :: 0 <= i < |rs| ==> s[i] == RuneToChar(rs[i])
  {
    seq(|rs|, i requires 0 <= i < |rs| => RuneToChar(rs[i]))
  }
}
