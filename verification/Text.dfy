/** Searching in text.

    Python's `part in s` and JavaScript's `s.includes(part)`. The search is stated by
    recursion over the text, which suits the short path and file-name tests of the census
    and of the audit. What is found can only be made of characters that are there, which is
    how a long literal path is shown not to contain a part. */
module Text {

  predicate Contains(s: string, part: string) {
    part <= s || (s != [] && Contains(s[1..], part))
  }

  lemma {:induction false} ContainsChar(s: string, part: string, c: char)
    requires Contains(s, part) && c in part
    ensures c in s
  {
    if part <= s {
      var i :| 0 <= i < |part| && part[i] == c;
      assert s[i] == c;
    } else {
      ContainsChar(s[1..], part, c);
      assert s == [s[0]] + s[1..];
    }
  }
}
