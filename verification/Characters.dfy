/** The character classes of the shared definitions, with every character written out, and the
    lengths of encoded text. */
module Characters {
  import opened Common

  ghost predicate Digit(c: char) {
    c in {'0', '1', '2', '3', '4', '5', '6', '7', '8', '9'}
  }

  ghost predicate Letter(c: char) {
    || c in {'a', 'b', 'c', 'd', 'e', 'f', 'g', 'h', 'i', 'j', 'k', 'l', 'm',
             'n', 'o', 'p', 'q', 'r', 's', 't', 'u', 'v', 'w', 'x', 'y', 'z'}
    || c in {'A', 'B', 'C', 'D', 'E', 'F', 'G', 'H', 'I', 'J', 'K', 'L', 'M',
             'N', 'O', 'P', 'Q', 'R', 'S', 'T', 'U', 'V', 'W', 'X', 'Y', 'Z'}
  }

  /** The characters with the Unicode `White_Space` property. */
  ghost predicate Blank(c: char) {
    || c in {'\t', '\n', '\U{000B}', '\U{000C}', '\r', ' ', '\U{0085}', '\U{00A0}', '\U{1680}'}
    || c in {'\U{2000}', '\U{2001}', '\U{2002}', '\U{2003}', '\U{2004}', '\U{2005}', '\U{2006}', '\U{2007}',
             '\U{2008}', '\U{2009}', '\U{200A}'}
    || c in {'\U{2028}', '\U{2029}', '\U{202F}', '\U{205F}', '\U{3000}'}
  }

  lemma Classes(c: char)
    ensures IsDigit(c) <==> Digit(c)
    ensures IsLetter(c) <==> Letter(c)
    ensures IsWhitespace(c) <==> Blank(c)
  {
  }

  // ----- encoded lengths

  lemma {:induction false} Utf8Adds(a: string, b: string)
    ensures Utf8Length(a + b) == Utf8Length(a) + Utf8Length(b)
  {
    if a == "" {
      assert a + b == b;
    } else {
      assert (a + b)[1..] == a[1..] + b;
      Utf8Adds(a[1..], b);
    }
  }

  /** One character takes one to four bytes, and one or two sixteen-bit units. */
  lemma OneCharacter(c: char)
    ensures var code := c as int;
            && (Utf8Length([c]) == 1 <==> code <= 127)
            && (Utf8Length([c]) == 2 <==> 128 <= code <= 2047)
            && (Utf8Length([c]) == 3 <==> 2048 <= code <= 65535)
            && (Utf8Length([c]) == 4 <==> 65536 <= code)
            && (Utf16Length([c]) == 1 <==> code <= 65535)
            && (Utf16Length([c]) == 2 <==> 65536 <= code)
  {
    assert [c][1..] == "";
  }
}
