/** The white space of Python strings. */
module PythonText {

  /** What `str.strip` removes. */
  predicate IsSpaceChar(c: char) {
    var k := c as int;
    || 9 <= k <= 13 || 28 <= k <= 32 || k == 0x85 || k == 0xA0 || k == 0x1680 || 0x2000 <= k <= 0x200A
    || k == 0x2028 || k == 0x2029 || k == 0x202F || k == 0x205F || k == 0x3000
  }

  predicate IsBlankText(s: string) { forall c <- s :: IsSpaceChar(c) }
}
