/** Console key events and the character classes the client tests them against. */
module Terminal {

  /** The console keys the client distinguishes; every other key is `Other`. */
  datatype ConsoleKey = Escape | Enter | Backspace | Y | Other

  /** One key event as `Console.ReadKey(true)` reports it: the key and the character it types. */
  datatype KeyInfo = KeyInfo(key: ConsoleKey, keyChar: char)

  /** `char.IsControl`: the Unicode category Cc, U+0000..U+001F and U+007F..U+009F. */
  predicate IsControl(c: char) {
    c as int <= 0x1F || (0x7F <= c as int <= 0x9F)
  }

  /** A string holding no control character. */
  predicate Printable(s: string) {
    forall m :: 0 <= m < |s| ==> !IsControl(s[m])
  }

  /** `char.IsWhiteSpace`: the Unicode separators, U+0009..U+000D and U+0085. */
  predicate IsWhiteSpace(c: char) {
    var n := c as int;
    (0x09 <= n <= 0x0D) || n == 0x20 || n == 0x85 || n == 0xA0 || n == 0x1680
    || (0x2000 <= n <= 0x200A) || n == 0x2028 || n == 0x2029 || n == 0x202F
    || n == 0x205F || n == 0x3000
  }

  /** `string.IsNullOrWhiteSpace` on a string that is not null. */
  predicate IsBlank(s: string) {
    forall m :: 0 <= m < |s| ==> IsWhiteSpace(s[m])
  }
}
