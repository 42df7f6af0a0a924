/** JSON as the log writes and reads it: compact text out, the full grammar in.

    A character stands for one byte, so a string value is its UTF-8 encoding.  Numbers keep
    their text. */
module Json {
  import opened Common

  datatype Json =
    | Null
    | Bool(b: bool)
    | Num(text: string)
    | Str(s: string)
    | Arr(items: seq<Json>)
    | Obj(fields: seq<Field>)

  datatype Field = Field(name: string, value: Json)

  // ----- numbers

  function Digits(s: string): (n: nat)
    ensures n <= |s|
  {
    if s != "" && IsDigit(s[0]) then 1 + Digits(s[1..]) else 0
  }

  /** The digits before the point: no superfluous leading zero. */
  function IntegerPart(s: string): (n: nat)
    ensures n <= |s|
  {
    if s != "" && s[0] == '0' then 1 else Digits(s)
  }

  predicate IsExponent(s: string) {
    s == "" || (s[0] in {'e', 'E'}
                && var rest := if |s| > 1 && s[1] in {'+', '-'} then s[2..] else s[1..];
                   rest != "" && Digits(rest) == |rest|)
  }

  predicate IsFractionAndExponent(s: string) {
    if s != "" && s[0] == '.' then Digits(s[1..]) > 0 && IsExponent(s[1 + Digits(s[1..])..])
    else IsExponent(s)
  }

  predicate IsNumber(text: string) {
    var s := if text != "" && text[0] == '-' then text[1..] else text;
    IntegerPart(s) > 0 && IsFractionAndExponent(s[IntegerPart(s)..])
  }

  predicate IsNumberChar(c: char) {
    IsDigit(c) || c in {'+', '-', '.', 'e', 'E'}
  }

  function NumberRun(s: string): (n: nat)
    ensures n <= |s|
  {
    if s != "" && IsNumberChar(s[0]) then 1 + NumberRun(s[1..]) else 0
  }

  lemma {:induction false} DigitsAreNumberChars(s: string)
    ensures NumberRun(s[..Digits(s)]) == Digits(s)
  {
    if s != "" && IsDigit(s[0]) {
      DigitsAreNumberChars(s[1..]);
      assert s[..Digits(s)][1..] == s[1..][..Digits(s[1..])];
    }
  }

  lemma {:induction false} RunAppend(a: string, b: string)
    requires NumberRun(a) == |a|
    ensures NumberRun(a + b) == |a| + NumberRun(b)
  {
    if a == "" {
      assert a + b == b;
    } else {
      assert (a + b)[1..] == a[1..] + b;
      RunAppend(a[1..], b);
    }
  }

  lemma {:induction false} ExponentRun(s: string)
    requires IsExponent(s)
    ensures NumberRun(s) == |s|
  {
    if s != "" {
      var rest := if |s| > 1 && s[1] in {'+', '-'} then s[2..] else s[1..];
      DigitsAreNumberChars(rest);
      assert rest[..|rest|] == rest;
      if |s| > 1 && s[1] in {'+', '-'} {
        assert s[1..][1..] == rest;
      }
    }
  }

  lemma {:induction false} FractionRun(s: string)
    requires IsFractionAndExponent(s)
    ensures NumberRun(s) == |s|
  {
    if s != "" && s[0] == '.' {
      var n := Digits(s[1..]);
      DigitsAreNumberChars(s[1..]);
      ExponentRun(s[1 + n..]);
      RunAppend(s[1..][..n], s[1 + n..]);
      assert s[1..] == s[1..][..n] + s[1 + n..];
    } else {
      ExponentRun(s);
    }
  }

  lemma IntegerRun(s: string)
    ensures NumberRun(s[..IntegerPart(s)]) == IntegerPart(s)
    ensures IntegerPart(s) > 0 ==> IsDigit(s[0])
  {
    if s != "" && s[0] == '0' {
      assert s[..1][1..] == "";
    } else {
      DigitsAreNumberChars(s);
    }
  }

  lemma {:induction false} UnsignedRun(s: string)
    requires IntegerPart(s) > 0 && IsFractionAndExponent(s[IntegerPart(s)..])
    ensures NumberRun(s) == |s| && IsDigit(s[0])
  {
    hide IntegerPart, IsFractionAndExponent, NumberRun;
    var n := IntegerPart(s);
    IntegerRun(s);
    FractionRun(s[n..]);
    RunAppend(s[..n], s[n..]);
    assert s == s[..n] + s[n..];
  }

  /** A number consists of number characters, and starts with a digit or a minus sign. */
  lemma {:induction false} NumberIsRun(text: string)
    requires IsNumber(text)
    ensures text != "" && NumberRun(text) == |text| && (IsDigit(text[0]) || text[0] == '-')
  {
    hide IntegerPart, IsFractionAndExponent;
    if text != "" && text[0] == '-' {
      UnsignedRun(text[1..]);
    } else {
      UnsignedRun(text);
    }
  }

  // ----- strings

  function Hex(n: nat): char
    requires n < 16
  {
    if n < 10 then ('0' as int + n) as char else ('a' as int + n - 10) as char
  }

  function HexValue(c: char): (r: Option<nat>)
    ensures r.Some? ==> r.value < 16
  {
    if '0' <= c <= '9' then Some(c as int - '0' as int)
    else if 'a' <= c <= 'f' then Some(c as int - 'a' as int + 10)
    else if 'A' <= c <= 'F' then Some(c as int - 'A' as int + 10)
    else None
  }

  function EscapeOne(c: char): string {
    if c == '"' then "\\\"" else if c == '\\' then "\\\\"
    else if c == '\U{08}' then "\\b" else if c == '\U{0C}' then "\\f"
    else if c == '\n' then "\\n" else if c == '\r' then "\\r" else if c == '\t' then "\\t"
    else if c < ' ' then "\\u00" + [Hex(c as int / 16), Hex(c as int % 16)]
    else [c]
  }

  function Escape(s: string): string {
    if s == "" then "" else EscapeOne(s[0]) + Escape(s[1..])
  }

  function Quote(s: string): string {
    "\"" + Escape(s) + "\""
  }

  /** The four hexadecimal digits of an escape. */
  function Unit(s: string): (r: Option<nat>)
    ensures r.Some? ==> r.value < 0x1_0000
  {
    if |s| < 4 then None
    else
      var a, b, c, d := HexValue(s[0]), HexValue(s[1]), HexValue(s[2]), HexValue(s[3]);
      if a.None? || b.None? || c.None? || d.None? then None
      else Some(a.value * 4096 + b.value * 256 + c.value * 16 + d.value)
  }

  /** The UTF-8 encoding of a code point. */
  function Utf8(c: nat): string
    requires c < 0x11_0000
  {
    if c < 0x80 then [c as char]
    else if c < 0x800 then [(0xC0 + c / 64) as char, (0x80 + c % 64) as char]
    else if c < 0x1_0000 then [(0xE0 + c / 4096) as char, (0x80 + c / 64 % 64) as char, (0x80 + c % 64) as char]
    else
      [(0xF0 + c / 0x4_0000) as char, (0x80 + c / 4096 % 64) as char,
       (0x80 + c / 64 % 64) as char, (0x80 + c % 64) as char]
  }

  /** What follows a backslash: the characters it stands for, and how many it takes. */
  function Unescape(s: string): (r: Option<(string, nat)>)
    ensures r.Some? ==> 0 < r.value.1 <= |s|
  {
    if s == "" then None
    else
      match s[0]
      case '"' => Some(("\"", 1))
      case '\\' => Some(("\\", 1))
      case '/' => Some(("/", 1))
      case 'b' => Some(("\U{08}", 1))
      case 'f' => Some(("\U{0C}", 1))
      case 'n' => Some(("\n", 1))
      case 'r' => Some(("\r", 1))
      case 't' => Some(("\t", 1))
      case 'u' =>
        var u := Unit(s[1..]);
        if u.None? then None
        else if u.value < 0xD800 || 0xE000 <= u.value then Some((Utf8(u.value), 5))
        else if u.value >= 0xDC00 || |s| < 11 || s[5] != '\\' || s[6] != 'u' then None
        else
          var v := Unit(s[7..]);
          if v.None? || v.value < 0xDC00 || 0xE000 <= v.value then None
          else Some((Utf8(0x1_0000 + (u.value - 0xD800) * 1024 + (v.value - 0xDC00)), 11))
      case _ => None
  }

  /** The rest of a string after its opening quote, and what comes after the closing one. */
  function ParseString(s: string): (r: Option<(string, string)>)
    ensures r.Some? ==> |r.value.1| < |s|
    decreases |s|
  {
    if s == "" || s[0] < ' ' then None
    else if s[0] == '"' then Some(("", s[1..]))
    else if s[0] == '\\' then
      var e := Unescape(s[1..]);
      if e.None? then None else Before(e.value.0, ParseString(s[1 + e.value.1..]))
    else Before([s[0]], ParseString(s[1..]))
  }

  function Before(text: string, rest: Option<(string, string)>): Option<(string, string)> {
    if rest.None? then None else Some((text + rest.value.0, rest.value.1))
  }

  lemma HexBack(n: nat)
    requires n < 16
    ensures HexValue(Hex(n)) == Some(n)
  {
  }

  /** An escaped character reads back, and cut short it does not read at all. */
  lemma EscapedReads(c: char, rest: string)
    requires |EscapeOne(c)| > 1
    ensures EscapeOne(c)[0] == '\\' && Unescape(EscapeOne(c)[1..] + rest) == Some(([c], |EscapeOne(c)| - 1))
  {
    var e := EscapeOne(c)[1..];
    if c < ' ' && |e| == 5 {
      HexBack(c as int / 16);
      HexBack(c as int % 16);
      var s := e + rest;
      assert s[1..][0] == '0' && s[1..][1] == '0' && s[1..][2] == e[3] && s[1..][3] == e[4];
    }
  }

  lemma EscapedCut(c: char, k: nat)
    requires |EscapeOne(c)| > 1 && 0 < k < |EscapeOne(c)|
    ensures Unescape(EscapeOne(c)[1..k]) == None
  {
    var s := EscapeOne(c)[1..k];
    if s != "" {
      assert s[0] == 'u' && |s[1..]| < 4;
    }
  }

  lemma PlainCharacter(c: char)
    requires |EscapeOne(c)| <= 1
    ensures EscapeOne(c) == [c] && c >= ' ' && c != '"' && c != '\\'
  {
  }

  lemma {:induction false} StringReads(s: string, rest: string)
    ensures ParseString(Escape(s) + "\"" + rest) == Some((s, rest))
    decreases |s|
  {
    hide EscapeOne, Unescape;
    var text := Escape(s) + "\"" + rest;
    if s == "" {
      assert text[1..] == rest;
    } else {
      var c, tail := s[0], Escape(s[1..]) + "\"" + rest;
      StringReads(s[1..], rest);
      assert text == EscapeOne(c) + tail;
      assert [c] + s[1..] == s;
      if |EscapeOne(c)| > 1 {
        EscapedReads(c, tail);
        assert text[1..] == EscapeOne(c)[1..] + tail;
        assert text[1 + (|EscapeOne(c)| - 1)..] == tail;
      } else {
        PlainCharacter(c);
        assert text[1..] == tail;
      }
    }
  }

  lemma {:induction false} StringCut(s: string, k: nat)
    requires k < |Escape(s)| + 1
    ensures ParseString((Escape(s) + "\"")[..k]) == None
    decreases |s|
  {
    hide EscapeOne, Unescape;
    var text := Escape(s) + "\"";
    if s != "" && k > 0 {
      var c, tail := s[0], Escape(s[1..]) + "\"";
      var n := |EscapeOne(c)|;
      assert text == EscapeOne(c) + tail;
      if n > 1 {
        if k < n {
          EscapedReads(c, "");
          EscapedCut(c, k);
          assert text[..k][1..] == EscapeOne(c)[1..k];
        } else {
          EscapedReads(c, tail[..k - n]);
          assert text[..k][1..] == EscapeOne(c)[1..] + tail[..k - n];
          assert text[..k][1 + (n - 1)..] == tail[..k - n];
          StringCut(s[1..], k - n);
        }
      } else {
        PlainCharacter(c);
        assert text[..k][1..] == tail[..k - 1];
        StringCut(s[1..], k - 1);
      }
    }
  }

  // ----- values

  predicate IsBlank(c: char) { c == ' ' || c == '\t' || c == '\n' || c == '\r' }

  function SkipBlank(s: string): (r: string)
    ensures |r| <= |s|
  {
    if s != "" && IsBlank(s[0]) then SkipBlank(s[1..]) else s
  }

  /** The compact text of a value. */
  function Text(j: Json): string
    decreases j, 0
  {
    match j
    case Null => "null"
    case Bool(b) => if b then "true" else "false"
    case Num(text) => text
    case Str(s) => Quote(s)
    case Arr(items) => "[" + ItemsText(items) + "]"
    case Obj(fields) => "{" + FieldsText(fields) + "}"
  }

  function ItemsText(items: seq<Json>): string
    decreases items, 1
  {
    if items == [] then ""
    else if |items| == 1 then Text(items[0])
    else Text(items[0]) + "," + ItemsText(items[1..])
  }

  function FieldText(f: Field): string
    decreases f, 0
  {
    Quote(f.name) + ":" + Text(f.value)
  }

  function FieldsText(fields: seq<Field>): string
    decreases fields, 1
  {
    if fields == [] then ""
    else if |fields| == 1 then FieldText(fields[0])
    else FieldText(fields[0]) + "," + FieldsText(fields[1..])
  }

  /** Every number in the value is one. */
  ghost predicate WellFormed(j: Json)
    decreases j, 0
  {
    match j
    case Num(text) => IsNumber(text)
    case Arr(items) => forall i :: 0 <= i < |items| ==> WellFormed(items[i])
    case Obj(fields) => forall i :: 0 <= i < |fields| ==> WellFormed(fields[i].value)
    case _ => true
  }

  /** The value at the front of `s`, and what comes after it. */
  function ParseValue(s: string): (r: Option<(Json, string)>)
    ensures r.Some? ==> |r.value.1| < |s|
    decreases |s|, 0
  {
    var t := SkipBlank(s);
    if t == "" then None
    else if t[0] == '{' then
      var u := SkipBlank(t[1..]);
      if u != "" && u[0] == '}' then Some((Obj([]), u[1..]))
      else
        var fields := ParseFields(t[1..]);
        if fields.None? then None else Some((Obj(fields.value.0), fields.value.1))
    else if t[0] == '[' then
      var u := SkipBlank(t[1..]);
      if u != "" && u[0] == ']' then Some((Arr([]), u[1..]))
      else
        var items := ParseItems(t[1..]);
        if items.None? then None else Some((Arr(items.value.0), items.value.1))
    else ParseScalar(t)
  }

  function ParseScalar(t: string): (r: Option<(Json, string)>)
    requires t != ""
    ensures r.Some? ==> |r.value.1| < |t|
  {
    if t[0] == '"' then
      var text := ParseString(t[1..]);
      if text.None? then None else Some((Str(text.value.0), text.value.1))
    else if "null" <= t then Some((Null, t[4..]))
    else if "true" <= t then Some((Bool(true), t[4..]))
    else if "false" <= t then Some((Bool(false), t[5..]))
    else
      var n := NumberRun(t);
      if IsNumber(t[..n]) then NumberIsRun(t[..n]); Some((Num(t[..n]), t[n..])) else None
  }

  /** One or more items and the closing bracket. */
  function ParseItems(s: string): (r: Option<(seq<Json>, string)>)
    ensures r.Some? ==> |r.value.1| < |s|
    decreases |s|, 1
  {
    var first := ParseValue(s);
    if first.None? then None
    else
      var t := SkipBlank(first.value.1);
      if t == "" then None
      else if t[0] == ']' then Some(([first.value.0], t[1..]))
      else if t[0] != ',' then None
      else
        var more := ParseItems(t[1..]);
        if more.None? then None else Some(([first.value.0] + more.value.0, more.value.1))
  }

  function ParseField(s: string): (r: Option<(Field, string)>)
    ensures r.Some? ==> |r.value.1| < |s|
    decreases |s|, 1
  {
    var t := SkipBlank(s);
    if t == "" || t[0] != '"' then None
    else
      var name := ParseString(t[1..]);
      if name.None? then None
      else
        var u := SkipBlank(name.value.1);
        if u == "" || u[0] != ':' then None
        else
          var value := ParseValue(u[1..]);
          if value.None? then None else Some((Field(name.value.0, value.value.0), value.value.1))
  }

  /** One or more fields and the closing brace. */
  function ParseFields(s: string): (r: Option<(seq<Field>, string)>)
    ensures r.Some? ==> |r.value.1| < |s|
    decreases |s|, 2
  {
    var first := ParseField(s);
    if first.None? then None
    else
      var t := SkipBlank(first.value.1);
      if t == "" then None
      else if t[0] == '}' then Some(([first.value.0], t[1..]))
      else if t[0] != ',' then None
      else
        var more := ParseFields(t[1..]);
        if more.None? then None else Some(([first.value.0] + more.value.0, more.value.1))
  }

  /** One value and nothing but whitespace around it. */
  function ParseDocument(s: string): Option<Json> {
    var v := ParseValue(s);
    if v.Some? && SkipBlank(v.value.1) == "" then Some(v.value.0) else None
  }

  // ----- reading back what was written

  /** What may follow a value without being read as part of it. */
  predicate Ends(j: Json, rest: string) {
    j.Num? ==> rest == "" || !IsNumberChar(rest[0])
  }

  /** No value starts with whitespace or with a closing bracket. */
  lemma {:induction false} TextStarts(j: Json)
    requires WellFormed(j)
    ensures Text(j) != "" && !IsBlank(Text(j)[0]) && Text(j)[0] !in {']', '}', ',', ':'}
  {
    if j.Num? {
      NumberIsRun(j.text);
    }
  }

  lemma {:induction false} ScalarReads(j: Json, rest: string)
    requires WellFormed(j) && !j.Arr? && !j.Obj? && Ends(j, rest)
    ensures ParseValue(Text(j) + rest) == Some((j, rest))
  {
    hide IsNumber, ParseString, Escape, NumberRun;
    var s := Text(j) + rest;
    TextStarts(j);
    match j
    case Num(text) =>
      NumberIsRun(text);
      NumberReads(text, rest);
    case Str(v) =>
      StringReads(v, rest);
      assert s[1..] == Escape(v) + "\"" + rest;
    case _ =>
  }

  lemma {:induction false} NumberReads(text: string, rest: string)
    requires IsNumber(text) && (rest == "" || !IsNumberChar(rest[0]))
    ensures ParseScalar(text + rest) == Some((Num(text), rest))
  {
    hide IsNumber, ParseString;
    var s := text + rest;
    NumberIsRun(text);
    RunAppend(text, rest);
    assert s[..|text|] == text && s[|text|..] == rest;
  }

  lemma {:induction false} ValueReads(j: Json, rest: string)
    requires WellFormed(j) && Ends(j, rest)
    ensures ParseValue(Text(j) + rest) == Some((j, rest))
    decreases j, 0
  {
    hide ParseValue, ParseItems, ParseFields, ItemsText, FieldsText, IsNumber;
    match j
    case Arr(items) =>
      if items != [] {
        ItemsRead(items, rest);
      }
      ArrayReads(items, rest);
    case Obj(fields) =>
      if fields != [] {
        FieldsRead(fields, rest);
      }
      ObjectReads(fields, rest);
    case _ => ScalarReads(j, rest);
  }

  lemma {:induction false} ArrayReads(items: seq<Json>, rest: string)
    requires forall i :: 0 <= i < |items| ==> WellFormed(items[i])
    requires items != [] ==> ParseItems(ItemsText(items) + ("]" + rest)) == Some((items, rest))
    ensures ParseValue(Text(Arr(items)) + rest) == Some((Arr(items), rest))
  {
    hide ParseItems, ParseFields, ParseScalar, ItemsText, FieldsText, IsNumber, WellFormed;
    var s := Text(Arr(items)) + rest;
    assert s[0] == '[';
    assert s[1..] == ItemsText(items) + ("]" + rest);
    NoItems();
    if items == [] {
      assert s[1..] == "]" + rest;
      assert ("]" + rest)[1..] == rest;
    } else {
      ItemsStart(items);
    }
  }

  lemma {:induction false} ObjectReads(fields: seq<Field>, rest: string)
    requires fields != [] ==> ParseFields(FieldsText(fields) + ("}" + rest)) == Some((fields, rest))
    ensures ParseValue(Text(Obj(fields)) + rest) == Some((Obj(fields), rest))
  {
    hide ParseItems, ParseFields, ParseScalar, ItemsText, FieldsText;
    var s := Text(Obj(fields)) + rest;
    assert s[0] == '{';
    assert s[1..] == FieldsText(fields) + ("}" + rest);
    NoItems();
    if fields == [] {
      assert s[1..] == "}" + rest;
      assert ("}" + rest)[1..] == rest;
    } else {
      FieldsStart(fields);
    }
  }

  lemma {:induction false} ItemsStart(items: seq<Json>)
    requires items != [] && forall i :: 0 <= i < |items| ==> WellFormed(items[i])
    ensures ItemsText(items) != "" && !IsBlank(ItemsText(items)[0]) && ItemsText(items)[0] != ']'
  {
    TextStarts(items[0]);
  }

  lemma {:induction false} FieldsStart(fields: seq<Field>)
    requires fields != []
    ensures FieldsText(fields) != "" && FieldsText(fields)[0] == '"'
  {
  }

  /** One item and the closing bracket. */
  lemma LastItem(s: string, v: Json, t: string)
    requires ParseValue(s) == Some((v, "]" + t))
    ensures ParseItems(s) == Some(([v], t))
  {
    hide ParseValue;
    assert ("]" + t)[1..] == t;
  }

  /** One item, a comma, and more; when the rest does not read, neither does the whole. */
  lemma NextItem(s: string, v: Json, t: string)
    requires ParseValue(s) == Some((v, "," + t))
    ensures var more := ParseItems(t);
            ParseItems(s) == if more.None? then None else Some(([v] + more.value.0, more.value.1))
  {
    hide ParseValue;
    assert ("," + t)[1..] == t;
  }

  lemma LastField(s: string, f: Field, t: string)
    requires ParseField(s) == Some((f, "}" + t))
    ensures ParseFields(s) == Some(([f], t))
  {
    hide ParseField;
    assert ("}" + t)[1..] == t;
  }

  lemma NextField(s: string, f: Field, t: string)
    requires ParseField(s) == Some((f, "," + t))
    ensures var more := ParseFields(t);
            ParseFields(s) == if more.None? then None else Some(([f] + more.value.0, more.value.1))
  {
    hide ParseField;
    assert ("," + t)[1..] == t;
  }

  /** A first item that does not read, or after which nothing comes. */
  lemma NoItem(s: string)
    ensures (ParseValue(s) == None || ParseValue(s).value.1 == "") ==> ParseItems(s) == None
    ensures (ParseField(s) == None || ParseField(s).value.1 == "") ==> ParseFields(s) == None
  {
    hide ParseValue, ParseField;
  }

  lemma {:induction false} ItemsRead(items: seq<Json>, rest: string)
    requires items != [] && forall i :: 0 <= i < |items| ==> WellFormed(items[i])
    ensures ParseItems(ItemsText(items) + ("]" + rest)) == Some((items, rest))
    decreases items, 1
  {
    hide ParseValue, ParseItems, Text, IsNumber;
    var s := ItemsText(items) + ("]" + rest);
    if |items| == 1 {
      ValueReads(items[0], "]" + rest);
      LastItem(s, items[0], rest);
      assert items == [items[0]];
    } else {
      var more := ItemsText(items[1..]) + ("]" + rest);
      ItemsRead(items[1..], rest);
      ValueReads(items[0], "," + more);
      assert s == Text(items[0]) + ("," + more);
      NextItem(s, items[0], more);
      assert items == [items[0]] + items[1..];
    }
  }

  lemma {:induction false} FieldReads(f: Field, rest: string)
    requires WellFormed(f.value) && Ends(f.value, rest)
    ensures ParseField(FieldText(f) + rest) == Some((f, rest))
    decreases f, 1
  {
    hide ParseValue, ParseString, Escape, IsNumber;
    var s := FieldText(f) + rest;
    var value := Text(f.value) + rest;
    StringReads(f.name, ":" + value);
    assert s[1..] == Escape(f.name) + "\"" + (":" + value);
    assert (":" + value)[1..] == value;
    ValueReads(f.value, rest);
  }

  lemma {:induction false} FieldsRead(fields: seq<Field>, rest: string)
    requires fields != [] && forall i :: 0 <= i < |fields| ==> WellFormed(fields[i].value)
    ensures ParseFields(FieldsText(fields) + ("}" + rest)) == Some((fields, rest))
    decreases fields, 2
  {
    hide ParseField, ParseFields, FieldText, IsNumber;
    var s := FieldsText(fields) + ("}" + rest);
    if |fields| == 1 {
      FieldReads(fields[0], "}" + rest);
      LastField(s, fields[0], rest);
      assert fields == [fields[0]];
    } else {
      var more := FieldsText(fields[1..]) + ("}" + rest);
      FieldsRead(fields[1..], rest);
      FieldReads(fields[0], "," + more);
      assert s == FieldText(fields[0]) + ("," + more);
      NextField(s, fields[0], more);
      assert fields == [fields[0]] + fields[1..];
    }
  }

  /** The text of a value is a document that means the value. */
  lemma {:induction false} DocumentReads(j: Json)
    requires WellFormed(j)
    ensures ParseDocument(Text(j)) == Some(j)
  {
    hide ParseValue, Text;
    ValueReads(j, "");
    assert Text(j) + "" == Text(j);
  }

  // ----- torn text

  /** A torn value does not read, unless it is a number torn between its digits. */
  ghost predicate TornAway(j: Json, r: Option<(Json, string)>) {
    r == None || (j.Num? && r.value.1 == "")
  }

  lemma {:induction false} ScalarCut(j: Json, k: nat)
    requires WellFormed(j) && !j.Arr? && !j.Obj? && k < |Text(j)|
    ensures TornAway(j, ParseValue(Text(j)[..k]))
  {
    hide IsNumber, ParseString, Escape;
    var s := Text(j)[..k];
    TextStarts(j);
    if k > 0 {
      match j
      case Num(text) =>
        NumberIsRun(text);
        RunOfPrefix(text, k);
      case Str(v) =>
        StringCut(v, k - 1);
        assert s[1..] == (Escape(v) + "\"")[..k - 1];
      case _ => LiteralCut(j, k);
    }
  }

  lemma {:induction false} RunOfPrefix(text: string, k: nat)
    requires NumberRun(text) == |text| && k <= |text|
    ensures NumberRun(text[..k]) == k
  {
    if k > 0 {
      RunOfPrefix(text[1..], k - 1);
      assert text[..k][1..] == text[1..][..k - 1];
    }
  }

  lemma {:induction false} LiteralCut(j: Json, k: nat)
    requires (j.Null? || j.Bool?) && 0 < k < |Text(j)|
    ensures ParseScalar(Text(j)[..k]) == None
  {
    var s := Text(j)[..k];
    assert NumberRun(s) == 0;
    assert s[..0] == "";
  }

  lemma {:induction false} ValueCut(j: Json, k: nat)
    requires WellFormed(j) && k < |Text(j)|
    ensures TornAway(j, ParseValue(Text(j)[..k]))
    decreases j, 0
  {
    hide ParseValue, ParseItems, ParseFields, IsNumber;
    match j
    case Arr(items) =>
      if k > 0 {
        ItemsCut(items, k - 1);
        ArrayCut(items, k);
      } else {
        NothingReads(Text(j)[..k]);
      }
    case Obj(fields) =>
      if k > 0 {
        FieldsCut(fields, k - 1);
        ObjectCut(fields, k);
      } else {
        NothingReads(Text(j)[..k]);
      }
    case _ => ScalarCut(j, k);
  }

  lemma {:induction false} ArrayCut(items: seq<Json>, k: nat)
    requires 0 < k < |Text(Arr(items))| && forall i :: 0 <= i < |items| ==> WellFormed(items[i])
    requires ParseItems((ItemsText(items) + "]")[..k - 1]) == None
    ensures ParseValue(Text(Arr(items))[..k]) == None
  {
    hide ParseItems, ParseFields, ParseScalar, ItemsText, FieldsText, IsNumber, WellFormed;
    var s, inside := Text(Arr(items))[..k], ItemsText(items) + "]";
    assert s[1..] == inside[..k - 1];
    if k > 1 {
      NoItems();
      ItemsStart(items);
      assert s[1..][0] == ItemsText(items)[0];
    }
  }

  lemma NoItems()
    ensures ItemsText([]) == "" && FieldsText([]) == ""
  {
  }

  lemma {:induction false} ObjectCut(fields: seq<Field>, k: nat)
    requires 0 < k < |Text(Obj(fields))|
    requires ParseFields((FieldsText(fields) + "}")[..k - 1]) == None
    ensures ParseValue(Text(Obj(fields))[..k]) == None
  {
    hide ParseItems, ParseFields, ParseScalar, ItemsText, FieldsText;
    var s, inside := Text(Obj(fields))[..k], FieldsText(fields) + "}";
    assert s[1..] == inside[..k - 1];
    if k > 1 {
      NoItems();
      FieldsStart(fields);
      assert s[1..][0] == '"';
    }
  }

  lemma {:induction false} ItemsCut(items: seq<Json>, k: nat)
    requires k <= |ItemsText(items)| && forall i :: 0 <= i < |items| ==> WellFormed(items[i])
    ensures ParseItems((ItemsText(items) + "]")[..k]) == None
    decreases items, 1
  {
    hide ParseValue, ParseItems, Text, IsNumber;
    var s := (ItemsText(items) + "]")[..k];
    NoItem(s);
    if items == [] {
      NothingReads(s);
    } else {
      var n := |Text(items[0])|;
      if k < n {
        ValueCut(items[0], k);
        assert s == Text(items[0])[..k];
      } else if k == n {
        ValueReads(items[0], "");
        assert s == Text(items[0]) + "";
      } else {
        var more := (ItemsText(items[1..]) + "]")[..k - n - 1];
        ItemsCut(items[1..], k - n - 1);
        ValueReads(items[0], "," + more);
        assert s == Text(items[0]) + ("," + more);
        NextItem(s, items[0], more);
      }
    }
  }

  lemma NothingReads(s: string)
    requires s == ""
    ensures ParseValue(s) == None && ParseField(s) == None
  {
  }

  lemma {:induction false} FieldCut(f: Field, k: nat)
    requires WellFormed(f.value) && k < |FieldText(f)|
    ensures var r := ParseField(FieldText(f)[..k]); r == None || r.value.1 == ""
    decreases f, 1
  {
    hide ParseValue, ParseString, Escape, IsNumber, Text;
    var s := FieldText(f)[..k];
    var n := |Quote(f.name)|;
    if k > 0 {
      if k < n {
        StringCut(f.name, k - 1);
        assert s[1..] == (Escape(f.name) + "\"")[..k - 1];
      } else if k == n {
        StringReads(f.name, "");
        assert s[1..] == Escape(f.name) + "\"" + "";
      } else {
        var value := Text(f.value)[..k - n - 1];
        StringReads(f.name, ":" + value);
        assert s[1..] == Escape(f.name) + "\"" + (":" + value);
        assert (":" + value)[1..] == value;
        ValueCut(f.value, k - n - 1);
      }
    }
  }

  lemma {:induction false} FieldsCut(fields: seq<Field>, k: nat)
    requires k <= |FieldsText(fields)| && forall i :: 0 <= i < |fields| ==> WellFormed(fields[i].value)
    ensures ParseFields((FieldsText(fields) + "}")[..k]) == None
    decreases fields, 2
  {
    hide ParseField, ParseFields, FieldText, IsNumber;
    var s := (FieldsText(fields) + "}")[..k];
    NoItem(s);
    if fields == [] {
      NothingReads(s);
    } else {
      var n := |FieldText(fields[0])|;
      if k < n {
        FieldCut(fields[0], k);
        assert s == FieldText(fields[0])[..k];
      } else if k == n {
        FieldReads(fields[0], "");
        assert s == FieldText(fields[0]) + "";
      } else {
        var more := (FieldsText(fields[1..]) + "}")[..k - n - 1];
        FieldsCut(fields[1..], k - n - 1);
        FieldReads(fields[0], "," + more);
        assert s == FieldText(fields[0]) + ("," + more);
        NextField(s, fields[0], more);
      }
    }
  }

  /** No proper prefix of the text of a value that is not a number is a document. */
  lemma {:induction false} DocumentCut(j: Json, k: nat)
    requires WellFormed(j) && !j.Num? && k < |Text(j)|
    ensures ParseDocument(Text(j)[..k]) == None
  {
    hide ParseValue, Text;
    ValueCut(j, k);
  }
}
