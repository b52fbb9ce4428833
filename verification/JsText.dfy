/** Characters as the JavaScript scripts see them. */
module JsText {

  /** JavaScript's `\s`, which is also what `trim` removes: the ASCII controls and space,
      no-break space, the Unicode space separators, the line and paragraph separators and
      the byte order mark. */
  predicate IsSpace(c: char) {
    var n := c as int;
    || n == 32 || 9 <= n <= 13 || n == 0xA0 || n == 0x1680 || 0x2000 <= n <= 0x200A
    || n == 0x2028 || n == 0x2029 || n == 0x202F || n == 0x205F || n == 0x3000 || n == 0xFEFF
  }
}
