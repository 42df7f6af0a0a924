/** Small types and character classes shared by the models. */
module Common {

  datatype Option<+T> = None | Some(value: T)

  datatype Result<+T, +E> = Ok(value: T) | Err(error: E)

  /** The characters with the Unicode `White_Space` property. */
  predicate IsWhitespace(c: char) {
    || '\t' <= c <= '\r' || c == ' ' || c == '\U{0085}' || c == '\U{00A0}' || c == '\U{1680}'
    || '\U{2000}' <= c <= '\U{200A}' || c == '\U{2028}' || c == '\U{2029}' || c == '\U{202F}'
    || c == '\U{205F}' || c == '\U{3000}'
  }

  predicate IsDigit(c: char) { '0' <= c <= '9' }

  predicate IsLetter(c: char) { 'a' <= c <= 'z' || 'A' <= c <= 'Z' }

  /** UTF-16 code units: two for characters outside the basic plane. */
  function Utf16Length(s: string): nat {
    if s == "" then 0 else (if s[0] as int >= 0x1_0000 then 2 else 1) + Utf16Length(s[1..])
  }

  function Utf8Length(s: string): nat {
    if s == "" then 0
    else
      var c := s[0] as int;
      (if c < 0x80 then 1 else if c < 0x800 then 2 else if c < 0x1_0000 then 3 else 4) + Utf8Length(s[1..])
  }

  // ----- results that accumulate a sequence

  function Prepend<T, E>(x: T, rest: Result<seq<T>, E>): Result<seq<T>, E> {
    if rest.Ok? then Ok([x] + rest.value) else rest
  }

  /** A loop that has collected `front` and has `rest` still to come. */
  function Joined<T, E>(front: seq<T>, rest: Result<seq<T>, E>): Result<seq<T>, E> {
    if rest.Ok? then Ok(front + rest.value) else rest
  }

  lemma JoinedMore<T, E>(front: seq<T>, x: T, rest: Result<seq<T>, E>)
    ensures Joined(front, Prepend(x, rest)) == Joined(front + [x], rest)
  {
    if rest.Ok? {
      assert front + ([x] + rest.value) == front + [x] + rest.value;
    }
  }

  lemma JoinedNothing<T, E>(rest: Result<seq<T>, E>)
    ensures Joined([], rest) == rest
  {
    if rest.Ok? {
      assert [] + rest.value == rest.value;
    }
  }

  lemma JoinedEnd<T, E>(front: seq<T>, error: E)
    ensures Joined(front, Ok([])) == Result<seq<T>, E>.Ok(front)
    ensures Joined(front, Err(error)) == Result<seq<T>, E>.Err(error)
  {
    assert front + [] == front;
  }
}
