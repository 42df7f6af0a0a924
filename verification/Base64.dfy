/** The two hand-written base64 encoders, and the decoder that collects bits.

    Both alphabets and the lengths are those of sections 4 and 5 of RFC 4648.  Shifts and masks
    of unsigned integers are divisions and remainders by powers of two. */
module Base64 {
  import opened Common

  type Byte = b: nat | b < 256
  type Sextet = v: nat | v < 64

  const WORD: nat := 0x1_0000_0000

  // ----- the alphabets

  function Range(first: char, n: nat): (r: string)
    requires n <= 26 && first in {'A', 'a', '0'}
    ensures |r| == n && forall i :: 0 <= i < n ==> r[i] as int == first as int + i
  {
    seq(n, i requires 0 <= i < n => (first as int + i) as char)
  }

  function Letters(): string {
    Range('A', 26) + Range('a', 26) + Range('0', 10)
  }

  const STANDARD: string := Letters() + "+/"
  const URL: string := Letters() + "-_"

  predicate IsAlphabet(alphabet: string) {
    alphabet == STANDARD || alphabet == URL
  }

  lemma AlphabetAt(alphabet: string, v: Sextet)
    requires IsAlphabet(alphabet)
    ensures |alphabet| == 64 && alphabet[v] != '='
    ensures v < 62 ==> alphabet[v] == Letters()[v] && |Letters()| == 62
    ensures v >= 62 ==> alphabet[v] in "+/-_"
  {
  }

  lemma DifferentLetters(alphabet: string, v: Sextet, w: Sextet)
    requires IsAlphabet(alphabet) && v != w
    ensures |alphabet| == 64 && alphabet[v] != alphabet[w]
  {
  }

  /** Both alphabets, written out. */
  lemma Alphabets()
    ensures STANDARD == "ABCDEFGHIJKLMNOPQRSTUVWXYZ" + "abcdefghijklmnopqrstuvwxyz" + "0123456789" + "+/"
    ensures URL == "ABCDEFGHIJKLMNOPQRSTUVWXYZ" + "abcdefghijklmnopqrstuvwxyz" + "0123456789" + "-_"
  {
    Capitals();
    Smalls();
    Digits();
  }

  lemma Capitals()
    ensures Range('A', 26) == "ABCDEFGHIJKLMNOPQRSTUVWXYZ"
  {
  }

  lemma Smalls()
    ensures Range('a', 26) == "abcdefghijklmnopqrstuvwxyz"
  {
  }

  lemma Digits()
    ensures Range('0', 10) == "0123456789"
  {
  }

  /** The place of a character in the alphabet. */
  method Position(alphabet: string, c: char) returns (at: Option<Sextet>)
    requires |alphabet| == 64
    ensures at == PositionOf(alphabet, c)
  {
    for i := 0 to 64
      invariant forall j :: 0 <= j < i ==> alphabet[j] != c
    {
      if alphabet[i] == c {
        FoundAt(alphabet, c, i);
        return Some(i);
      }
    }
    return None;
  }

  function PositionOf(alphabet: string, c: char): (at: Option<Sextet>)
    requires |alphabet| == 64
    ensures at.Some? ==> alphabet[at.value] == c && forall j :: 0 <= j < at.value ==> alphabet[j] != c
    ensures at.None? ==> forall j :: 0 <= j < 64 ==> alphabet[j] != c
  {
    FirstFrom(alphabet, c, 0)
  }

  function FirstFrom(alphabet: string, c: char, from: nat): (at: Option<Sextet>)
    requires |alphabet| == 64 && from <= 64 && forall j :: 0 <= j < from ==> alphabet[j] != c
    ensures at.Some? ==> alphabet[at.value] == c && forall j :: 0 <= j < at.value ==> alphabet[j] != c
    ensures at.None? ==> forall j :: 0 <= j < 64 ==> alphabet[j] != c
    decreases 64 - from
  {
    if from == 64 then None
    else if alphabet[from] == c then Some(from)
    else FirstFrom(alphabet, c, from + 1)
  }

  lemma FoundAt(alphabet: string, c: char, i: Sextet)
    requires |alphabet| == 64 && alphabet[i] == c && forall j :: 0 <= j < i ==> alphabet[j] != c
    ensures PositionOf(alphabet, c) == Some(i)
  {
    assert PositionOf(alphabet, c).Some?;
  }

  /** Looking up a character of the alphabet gives its place back. */
  lemma PositionBack(alphabet: string, v: Sextet)
    requires IsAlphabet(alphabet)
    ensures |alphabet| == 64 && PositionOf(alphabet, alphabet[v]) == Some(v)
  {
    AlphabetAt(alphabet, v);
    forall w: Sextet | w < v
      ensures alphabet[w] != alphabet[v]
    {
      DifferentLetters(alphabet, w, v);
    }
    FoundAt(alphabet, alphabet[v], v);
  }

  // ----- six bits at a time

  /** The byte string cut into groups of six bits, the last one filled with zero bits. */
  function Sextets(bytes: seq<Byte>): (r: seq<Sextet>)
    ensures |r| == (4 * |bytes| + 2) / 3
  {
    if bytes == [] then []
    else if |bytes| == 1 then [bytes[0] / 4, bytes[0] % 4 * 16]
    else if |bytes| == 2 then [bytes[0] / 4, bytes[0] % 4 * 16 + bytes[1] / 16, bytes[1] % 16 * 4]
    else Three(bytes[0], bytes[1], bytes[2]) + Sextets(bytes[3..])
  }

  function Three(x: Byte, y: Byte, z: Byte): (r: seq<Sextet>)
    ensures |r| == 4
  {
    [x / 4, x % 4 * 16 + y / 16, y % 16 * 4 + z / 64, z % 64]
  }

  function Spell(alphabet: string, vs: seq<Sextet>): (r: string)
    requires |alphabet| == 64
    ensures |r| == |vs| && forall i :: 0 <= i < |vs| ==> r[i] == alphabet[vs[i]]
  {
    seq(|vs|, i requires 0 <= i < |vs| => alphabet[vs[i]])
  }

  /** Zero, one or two padding characters fill the last group of four. */
  function Padding(n: nat): string {
    if n % 3 == 1 then "==" else if n % 3 == 2 then "=" else ""
  }

  /** What the bits collected so far, `count` of them with value `acc`, and more groups yield. */
  function Pour(acc: nat, count: nat, vs: seq<Sextet>): seq<Byte>
    requires count in {0, 2, 4, 6} && acc < Power(count)
    decreases vs
  {
    if vs == [] then []
    else
      var all := acc * 64 + vs[0];
      if count == 0 then Pour(all, 6, vs[1..])
      else [all / Power(count - 2)] + Pour(all % Power(count - 2), count - 2, vs[1..])
  }

  function Power(count: nat): nat
    requires count in {0, 2, 4, 6}
  {
    if count == 0 then 1 else if count == 2 then 4 else if count == 4 then 16 else 64
  }

  // ----- the number both write

  /** The number that bytes write after `high`, the most significant first. */
  function ByteNumber(high: nat, bytes: seq<Byte>): nat
    decreases bytes
  {
    if bytes == [] then high else ByteNumber(high * 256 + bytes[0], bytes[1..])
  }

  function GroupNumber(high: nat, vs: seq<Sextet>): nat
    decreases vs
  {
    if vs == [] then high else GroupNumber(high * 64 + vs[0], vs[1..])
  }

  lemma GroupStep(high: nat, v: Sextet, vs: seq<Sextet>)
    ensures GroupNumber(high, [v] + vs) == GroupNumber(high * 64 + v, vs)
  {
    assert ([v] + vs)[1..] == vs;
  }

  lemma ThreeNumber(high: nat, x: Byte, y: Byte, z: Byte, more: seq<Sextet>)
    ensures GroupNumber(high, Three(x, y, z) + more)
         == GroupNumber(((high * 256 + x) * 256 + y) * 256 + z, more)
  {
    hide GroupNumber;
    var a: Sextet, b: Sextet, c: Sextet, d: Sextet := x / 4, x % 4 * 16 + y / 16, y % 16 * 4 + z / 64, z % 64;
    assert Three(x, y, z) + more == [a] + ([b] + ([c] + ([d] + more)));
    GroupStep(high, a, [b] + ([c] + ([d] + more)));
    GroupStep(high * 64 + a, b, [c] + ([d] + more));
    GroupStep((high * 64 + a) * 64 + b, c, [d] + more);
    GroupStep(((high * 64 + a) * 64 + b) * 64 + c, d, more);
    Repacked(high, x, y, z);
  }

  lemma Repacked(high: nat, x: Byte, y: Byte, z: Byte)
    ensures (((high * 64 + x / 4) * 64 + (x % 4 * 16 + y / 16)) * 64 + (y % 16 * 4 + z / 64)) * 64 + z % 64
         == ((high * 256 + x) * 256 + y) * 256 + z
  {
    assert x == x / 4 * 4 + x % 4 && y == y / 16 * 16 + y % 16 && z == z / 64 * 64 + z % 64;
  }

  lemma BytesStep(high: nat, bytes: seq<Byte>)
    requires |bytes| >= 3
    ensures ByteNumber(high, bytes)
         == ByteNumber(((high * 256 + bytes[0]) * 256 + bytes[1]) * 256 + bytes[2], bytes[3..])
  {
    ByteStep(high, bytes);
    ByteStep(high * 256 + bytes[0], bytes[1..]);
    ByteStep((high * 256 + bytes[0]) * 256 + bytes[1], bytes[2..]);
    assert bytes[1..][1..] == bytes[2..] && bytes[2..][1..] == bytes[3..];
  }

  lemma ByteStep(high: nat, bytes: seq<Byte>)
    requires bytes != []
    ensures ByteNumber(high, bytes) == ByteNumber(high * 256 + bytes[0], bytes[1..])
  {
  }

  lemma NoMore(high: nat)
    ensures ByteNumber(high, []) == high && GroupNumber(high, []) == high
  {
  }

  /** A number with the zero bits after it that fill the last group of `n` bytes. */
  function Filled(number: nat, n: nat): nat {
    if n % 3 == 0 then number else if n % 3 == 1 then number * 16 else number * 4
  }

  lemma FilledSame(number: nat, n: nat)
    requires n >= 3
    ensures Filled(number, n) == Filled(number, n - 3)
  {
  }

  /** The groups write the number that the bytes write, with zero bits to fill the last group:
      four after one byte, two after two. */
  lemma {:induction false} SameNumber(high: nat, bytes: seq<Byte>)
    ensures GroupNumber(high, Sextets(bytes)) == Filled(ByteNumber(high, bytes), |bytes|)
    decreases |bytes|
  {
    hide GroupNumber, ByteNumber;
    if |bytes| >= 3 {
      hide Sextets, Three, Filled;
      FilledSame(ByteNumber(high, bytes), |bytes|);
      var next := ((high * 256 + bytes[0]) * 256 + bytes[1]) * 256 + bytes[2];
      SameNumber(next, bytes[3..]);
      FirstThree(bytes);
      ThreeNumber(high, bytes[0], bytes[1], bytes[2], Sextets(bytes[3..]));
      BytesStep(high, bytes);
    } else if |bytes| == 2 {
      TwoNumber(high, bytes[0], bytes[1]);
      assert bytes == [bytes[0], bytes[1]];
    } else if |bytes| == 1 {
      OneNumber(high, bytes[0]);
      assert bytes == [bytes[0]];
    } else {
      NoMore(high);
    }
  }

  lemma TwoNumber(high: nat, x: Byte, y: Byte)
    ensures GroupNumber(high, Sextets([x, y])) == ByteNumber(high, [x, y]) * 4
  {
    var a: Sextet, b: Sextet, c: Sextet := x / 4, x % 4 * 16 + y / 16, y % 16 * 4;
    assert Sextets([x, y]) == [a] + ([b] + ([c] + []));
    GroupStep(high, a, [b] + ([c] + []));
    GroupStep(high * 64 + a, b, [c] + []);
    GroupStep((high * 64 + a) * 64 + b, c, []);
    hide GroupNumber, ByteNumber;
    assert [x, y][1..] == [y] && [y][1..] == [];
    ByteStep(high, [x, y]);
    ByteStep(high * 256 + x, [y]);
    NoMore((high * 256 + x) * 256 + y);
    NoMore(((high * 64 + a) * 64 + b) * 64 + c);
    assert a * 0x1000 + b * 0x40 + c == ((x as int) * 0x100 + y) * 4;
  }

  lemma OneNumber(high: nat, x: Byte)
    ensures GroupNumber(high, Sextets([x])) == ByteNumber(high, [x]) * 16
  {
    var a: Sextet, b: Sextet := x / 4, x % 4 * 16;
    assert Sextets([x]) == [a] + ([b] + []);
    GroupStep(high, a, [b] + []);
    GroupStep(high * 64 + a, b, []);
    hide GroupNumber, ByteNumber;
    assert [x][1..] == [];
    ByteStep(high, [x]);
    NoMore(high * 256 + x);
    NoMore((high * 64 + a) * 64 + b);
    assert a * 0x40 + b == (x as int) * 16;
  }

  // ----- the round trip on groups

  lemma PourFirst(v: Sextet, vs: seq<Sextet>)
    ensures Pour(0, 0, [v] + vs) == Pour(v, 6, vs)
  {
    assert ([v] + vs)[1..] == vs;
  }

  lemma PourNext(acc: nat, count: nat, v: Sextet, vs: seq<Sextet>)
    requires count in {2, 4, 6} && acc < Power(count)
    ensures var all := acc * 64 + v;
            Pour(acc, count, [v] + vs) == [all / Power(count - 2)] + Pour(all % Power(count - 2), count - 2, vs)
  {
    assert ([v] + vs)[1..] == vs;
  }

  /** Six, four and two bits are carried from one group to the next. */
  lemma Carried(x: Byte, y: Byte, z: Byte)
    ensures (x / 4 * 64 + (x % 4 * 16 + y / 16)) / 16 == x
    ensures (x / 4 * 64 + (x % 4 * 16 + y / 16)) % 16 == y / 16
    ensures (y / 16 * 64 + (y % 16 * 4 + z / 64)) / 4 == y
    ensures (y / 16 * 64 + (y % 16 * 4 + z / 64)) % 4 == z / 64
    ensures z / 64 * 64 + z % 64 == z
  {
  }

  lemma {:induction false} PourBack(bytes: seq<Byte>)
    ensures Pour(0, 0, Sextets(bytes)) == bytes
    decreases |bytes|
  {
    hide Pour;
    if |bytes| > 3 {
      hide Sextets;
      PourBack(bytes[3..]);
      FirstThree(bytes);
      ThreeBack(bytes[0], bytes[1], bytes[2], Sextets(bytes[3..]));
      assert bytes == [bytes[0], bytes[1], bytes[2]] + bytes[3..];
    } else if |bytes| == 3 {
      ThreeBack(bytes[0], bytes[1], bytes[2], []);
      PourNothing(0, 0);
      assert bytes[3..] == [];
    } else if |bytes| == 2 {
      TwoBack(bytes[0], bytes[1]);
    } else if |bytes| == 1 {
      OneBack(bytes[0]);
    } else {
      PourNothing(0, 0);
    }
  }

  lemma FirstThree(bytes: seq<Byte>)
    requires |bytes| >= 3
    ensures Sextets(bytes) == Three(bytes[0], bytes[1], bytes[2]) + Sextets(bytes[3..])
  {
    hide Three;
  }

  lemma ThreeBack(x: Byte, y: Byte, z: Byte, more: seq<Sextet>)
    ensures Pour(0, 0, Three(x, y, z) + more) == [x, y, z] + Pour(0, 0, more)
  {
    hide Pour;
    var a: Sextet, b: Sextet, c: Sextet, d: Sextet := x / 4, x % 4 * 16 + y / 16, y % 16 * 4 + z / 64, z % 64;
    Carried(x, y, z);
    assert Three(x, y, z) + more == [a] + ([b] + ([c] + ([d] + more)));
    PourFirst(a, [b] + ([c] + ([d] + more)));
    PourNext(a, 6, b, [c] + ([d] + more));
    PourNext(y / 16, 4, c, [d] + more);
    PourNext(z / 64, 2, d, more);
    assert [x] + ([y] + ([z] + Pour(0, 0, more))) == [x, y, z] + Pour(0, 0, more);
  }

  lemma TwoBack(x: Byte, y: Byte)
    ensures Pour(0, 0, [x / 4, x % 4 * 16 + y / 16, y % 16 * 4]) == [x, y]
  {
    hide Pour;
    var a: Sextet, b: Sextet, c: Sextet := x / 4, x % 4 * 16 + y / 16, y % 16 * 4;
    Carried(x, y, 0);
    assert [a, b, c] == [a] + ([b] + ([c] + []));
    PourFirst(a, [b] + ([c] + []));
    PourNext(a, 6, b, [c] + []);
    PourNext(y / 16, 4, c, []);
    PourNothing(0, 2);
  }

  lemma OneBack(x: Byte)
    ensures Pour(0, 0, [x / 4, x % 4 * 16]) == [x]
  {
    hide Pour;
    var a: Sextet, b: Sextet := x / 4, x % 4 * 16;
    Carried(x, 0, 0);
    assert [a, b] == [a] + ([b] + []);
    PourFirst(a, [b] + []);
    PourNext(a, 6, b, []);
    PourNothing(0, 4);
  }

  lemma PourNothing(acc: nat, count: nat)
    requires count in {0, 2, 4, 6} && acc < Power(count)
    ensures Pour(acc, count, []) == []
  {
  }

  // ----- the encoders as written

  /** The group of six bits that starts `18 - shift` bits into three packed bytes. */
  function Group(packed: nat, shift: nat): Sextet
    requires shift in {0, 6, 12, 18}
  {
    packed / (if shift == 18 then 0x4_0000 else if shift == 12 then 0x1000 else if shift == 6 then 0x40 else 1) % 64
  }

  function Pack(chunk: seq<Byte>): nat
    requires 0 < |chunk| <= 3
  {
    var x: nat := chunk[0];
    var y: nat := if |chunk| > 1 then chunk[1] else 0;
    var z: nat := if |chunk| > 2 then chunk[2] else 0;
    x * 0x1_0000 + y * 0x100 + z
  }

  lemma Groups(chunk: seq<Byte>)
    requires 0 < |chunk| <= 3
    ensures |Sextets(chunk)| == |chunk| + 1
    ensures Group(Pack(chunk), 18) == Sextets(chunk)[0] && Group(Pack(chunk), 12) == Sextets(chunk)[1]
    ensures |chunk| > 1 ==> Group(Pack(chunk), 6) == Sextets(chunk)[2]
    ensures |chunk| > 2 ==> Group(Pack(chunk), 0) == Sextets(chunk)[3]
  {
    var y := if |chunk| > 1 then chunk[1] else 0;
    var z := if |chunk| > 2 then chunk[2] else 0;
    Packed(chunk[0], y, z);
    if |chunk| == 3 {
      assert chunk[3..] == [];
    }
  }

  /** Four groups side by side can be cut apart again. */
  lemma FourGroups(a: Sextet, b: Sextet, c: Sextet, d: Sextet)
    ensures var packed := a * 0x4_0000 + b * 0x1000 + c * 0x40 + d;
            && packed / 0x4_0000 % 64 == a && packed / 0x1000 % 64 == b && packed / 0x40 % 64 == c && packed % 64 == d
  {
    var packed := a * 0x4_0000 + b * 0x1000 + c * 0x40 + d;
    assert packed / 0x4_0000 == a;
    assert packed / 0x1000 == a * 64 + b;
    assert packed / 0x40 == (a * 64 + b) * 64 + c;
  }

  lemma Packed(x: Byte, y: Byte, z: Byte)
    ensures var packed := (x as int) * 0x1_0000 + (y as int) * 0x100 + z;
            && packed / 0x4_0000 % 64 == x / 4
            && packed / 0x1000 % 64 == x % 4 * 16 + y / 16
            && packed / 0x40 % 64 == y % 16 * 4 + z / 64
            && packed % 64 == z % 64
  {
    var packed := (x as int) * 0x1_0000 + (y as int) * 0x100 + z;
    var a: Sextet, b: Sextet, c: Sextet, d: Sextet := x / 4, x % 4 * 16 + y / 16, y % 16 * 4 + z / 64, z % 64;
    assert packed == a * 0x4_0000 + b * 0x1000 + c * 0x40 + d;
    FourGroups(a, b, c, d);
  }

  lemma {:induction false} SextetsAppend(front: seq<Byte>, back: seq<Byte>)
    requires |front| % 3 == 0
    ensures Sextets(front + back) == Sextets(front) + Sextets(back)
    decreases |front|
  {
    hide Sextets, Three;
    if front == [] {
      NoGroups();
      assert front + back == back;
    } else {
      var all := front + back;
      assert all[3..] == front[3..] + back;
      FirstThree(front);
      FirstThree(all);
      SextetsAppend(front[3..], back);
    }
  }

  lemma SpellAppend(alphabet: string, a: seq<Sextet>, b: seq<Sextet>)
    requires |alphabet| == 64
    ensures Spell(alphabet, a + b) == Spell(alphabet, a) + Spell(alphabet, b)
  {
  }

  lemma Chunk(alphabet: string, bytes: seq<Byte>, i: nat, end: nat)
    requires |alphabet| == 64 && i % 3 == 0 && i < end <= |bytes| && (end == i + 3 || (end == |bytes| && end < i + 3))
    ensures Spell(alphabet, Sextets(bytes[..end]))
         == Spell(alphabet, Sextets(bytes[..i])) + Spell(alphabet, Sextets(bytes[i..end]))
  {
    assert bytes[..end] == bytes[..i] + bytes[i..end];
    SextetsAppend(bytes[..i], bytes[i..end]);
    SpellAppend(alphabet, Sextets(bytes[..i]), Sextets(bytes[i..end]));
  }

  lemma UrlSize()
    ensures |URL| == 64
  {
  }

  lemma StandardSize()
    ensures |STANDARD| == 64
  {
  }

  lemma NoGroups()
    ensures Sextets([]) == []
  {
  }

  /** Without padding, one character per group that holds any bits of the input. */
  method Base64Url(input: seq<Byte>) returns (out: string)
    ensures |URL| == 64 && out == Spell(URL, Sextets(input))
    ensures |out| == (4 * |input| + 2) / 3
  {
    hide URL, Sextets, Pack, Group;
    UrlSize();
    assert input[..0] == [];
    NoGroups();
    out := "";
    var i := 0;
    while i < |input|
      invariant i <= |input| && (i % 3 == 0 || i == |input|)
      invariant out == Spell(URL, Sextets(input[..i]))
    {
      var end := if i + 3 <= |input| then i + 3 else |input|;
      var chunk := input[i..end];
      var packed := Pack(chunk);
      ghost var before := out;
      Groups(chunk);
      for index := 0 to |chunk| + 1
        invariant out == before + Spell(URL, Sextets(chunk)[..index])
      {
        var value := Group(packed, 18 - 6 * index);
        out := out + [URL[value]];
      }
      assert Sextets(chunk)[..|chunk| + 1] == Sextets(chunk);
      Chunk(URL, input, i, end);
      i := end;
    }
    assert input[..|input|] == input;
  }

  /** With padding, four characters per three bytes. */
  method Base64Encode(bytes: seq<Byte>) returns (output: string)
    ensures |STANDARD| == 64 && output == Spell(STANDARD, Sextets(bytes)) + Padding(|bytes|)
    ensures |output| == (|bytes| + 2) / 3 * 4
  {
    hide STANDARD, Sextets, Padding, Spell;
    StandardSize();
    NothingSpelled();
    PaddingOf(0, 0);
    assert bytes[..0] == [];
    NoGroups();
    output := "";
    var i := 0;
    while i < |bytes|
      invariant i <= |bytes| && (i % 3 == 0 || i == |bytes|)
      invariant output == Spell(STANDARD, Sextets(bytes[..i])) + Padding(i)
    {
      var end := if i + 3 <= |bytes| then i + 3 else |bytes|;
      var chunk := bytes[i..end];
      var four := EncodeChunk(chunk);
      Chunk(STANDARD, bytes, i, end);
      PaddingOf(i, |chunk|);
      assert output == Spell(STANDARD, Sextets(bytes[..i]));
      output := output + four;
      i := end;
    }
    assert bytes[..|bytes|] == bytes;
    PaddingOf(0, |bytes|);
  }

  lemma NothingSpelled()
    ensures |STANDARD| == 64 && Spell(STANDARD, []) == ""
  {
  }

  lemma PaddingOf(i: nat, n: nat)
    requires i % 3 == 0
    ensures Padding(i) == "" && Padding(i + n) == Padding(n)
    ensures (4 * n + 2) / 3 + |Padding(n)| == (n + 2) / 3 * 4
  {
    var j, q, rest := i / 3, n / 3, n % 3;
    assert i == 3 * j && n == 3 * q + rest;
    Thirds(j + q, rest);
    assert i + n == 3 * (j + q) + rest;
    PaddedLength(q, rest);
  }

  lemma Thirds(q: nat, rest: nat)
    requires rest < 3
    ensures (3 * q + rest) % 3 == rest
  {
  }

  lemma PaddedLength(q: nat, rest: nat)
    requires rest < 3
    ensures (4 * (3 * q + rest) + 2) / 3 == 4 * q + (4 * rest + 2) / 3
    ensures (3 * q + rest + 2) / 3 == q + (rest + 2) / 3
  {
  }

  method EncodeChunk(chunk: seq<Byte>) returns (four: string)
    requires 0 < |chunk| <= 3
    ensures |STANDARD| == 64 && four == Spell(STANDARD, Sextets(chunk)) + Padding(|chunk|)
  {
    hide STANDARD, Sextets, Pack, Group, Spell, Padding;
    StandardSize();
    var block := Pack(chunk);
    Groups(chunk);
    FourCharacters(chunk);
    four := [STANDARD[Group(block, 18)]];
    four := four + [STANDARD[Group(block, 12)]];
    four := four + [if |chunk| > 1 then STANDARD[Group(block, 6)] else '='];
    four := four + [if |chunk| > 2 then STANDARD[Group(block, 0)] else '='];
  }

  lemma FourCharacters(chunk: seq<Byte>)
    requires 0 < |chunk| <= 3
    ensures |STANDARD| == 64 && |Sextets(chunk)| == |chunk| + 1
    ensures var vs := Sextets(chunk);
            Spell(STANDARD, vs) + Padding(|chunk|)
            == [STANDARD[vs[0]], STANDARD[vs[1]], if |chunk| > 1 then STANDARD[vs[2]] else '=',
                if |chunk| > 2 then STANDARD[vs[3]] else '=']
  {
    hide Sextets, STANDARD;
    StandardSize();
    Groups(chunk);
    var vs := Sextets(chunk);
    var spelled := Spell(STANDARD, vs);
    if |chunk| == 1 {
      assert spelled == [STANDARD[vs[0]], STANDARD[vs[1]]];
    } else if |chunk| == 2 {
      assert spelled == [STANDARD[vs[0]], STANDARD[vs[1]], STANDARD[vs[2]]];
    } else {
      assert spelled == [STANDARD[vs[0]], STANDARD[vs[1]], STANDARD[vs[2]], STANDARD[vs[3]]];
    }
  }

  // ----- the decoder as written

  /** The values of the characters that are in the alphabet; the others are skipped. */
  function Values(alphabet: string, text: string): seq<Sextet>
    requires |alphabet| == 64
  {
    if text == "" then []
    else
      var rest := Values(alphabet, text[1..]);
      if PositionOf(alphabet, text[0]).Some? then [PositionOf(alphabet, text[0]).value] + rest else rest
  }

  lemma NextValue(alphabet: string, input: string, i: nat)
    requires |alphabet| == 64 && i < |input|
    ensures var more, at := Values(alphabet, input[i + 1..]), PositionOf(alphabet, input[i]);
            Values(alphabet, input[i..]) == if at.Some? then [at.value] + more else more
  {
    assert input[i..][1..] == input[i + 1..];
  }

  lemma NoValues(alphabet: string, text: string)
    requires |alphabet| == 64 && text == ""
    ensures Values(alphabet, text) == []
  {
  }

  /** The bit buffer is a 32-bit word that is never cleared: old bits fall off at its upper end. */
  method Decode(alphabet: string, input: string) returns (out: seq<Byte>)
    requires |alphabet| == 64
    ensures out == Pour(0, 0, Values(alphabet, input))
  {
    hide Pour, PositionOf, Values;
    var bits: nat, count: nat := 0, 0;
    out := [];
    assert input[0..] == input;
    for i := 0 to |input|
      invariant bits < WORD && count in {0, 2, 4, 6}
      invariant out + Pour(bits % Power(count), count, Values(alphabet, input[i..]))
             == Pour(0, 0, Values(alphabet, input))
    {
      ghost var more := Values(alphabet, input[i + 1..]);
      NextValue(alphabet, input, i);
      var value := Position(alphabet, input[i]);
      if value.None? {
        continue;
      }
      ghost var acc := bits % Power(count);
      ghost var j := Shifted(bits, count, value.value);
      TakenOut(j, count, acc * 64 + value.value);
      bits := (bits * 64 + value.value) % WORD;
      if count == 0 {
        PourFirst(value.value, more);
      } else {
        PourNext(acc, count, value.value, more);
      }
      count := count + 6;
      if count >= 8 {
        count := count - 8;
        out := out + [bits / Power(count) % 256];
      }
    }
    NoValues(alphabet, input[|input|..]);
    PourNothing(bits % Power(count), count);
  }

  /** The number of bits in the buffer that still count. */
  function Fresh(count: nat): nat
    requires count in {0, 2, 4, 6}
  {
    if count == 0 then 64 else if count == 2 then 256 else if count == 4 then 1024 else 4096
  }

  /** What is shifted out of the word does not matter to the bits of interest. */
  lemma Shifted(bits: nat, count: nat, v: Sextet) returns (j: nat)
    requires count in {0, 2, 4, 6} && bits < WORD
    ensures (bits * 64 + v) % WORD == j * Fresh(count) + (bits % Power(count) * 64 + v)
  {
    var k := (bits * 64 + v) / WORD;
    var word := (bits * 64 + v) % WORD;
    assert word == bits * 64 + v - k * 0x1_0000_0000;
    if count == 0 {
      j := bits - k * 0x400_0000;
    } else if count == 2 {
      assert bits == bits / 4 * 4 + bits % 4;
      j := bits / 4 - k * 0x100_0000;
    } else if count == 4 {
      assert bits == bits / 16 * 16 + bits % 16;
      j := bits / 16 - k * 0x40_0000;
    } else {
      assert bits == bits / 64 * 64 + bits % 64;
      j := bits / 64 - k * 0x10_0000;
    }
  }

  /** The byte that is taken out, and the bits that stay. */
  lemma TakenOut(j: nat, count: nat, all: nat)
    requires count in {0, 2, 4, 6} && all < Fresh(count)
    ensures count == 0 ==> (j * Fresh(count) + all) % 64 == all
    ensures count > 0 ==>
              && (j * Fresh(count) + all) / Power(count - 2) % 256 == all / Power(count - 2)
              && (j * Fresh(count) + all) % Power(count - 2) == all % Power(count - 2)
  {
    if count == 0 {
      CutAt64(j, all);
    } else if count == 2 {
      CutAt256(j, all);
    } else if count == 4 {
      CutAt4(j * 256 + all / 4, all % 4);
      CutAt256(j, all / 4);
    } else {
      CutAt16(j * 256 + all / 16, all % 16);
      CutAt256(j, all / 16);
    }
  }

  lemma CutAt4(q: nat, r: nat)
    requires r < 4
    ensures (q * 4 + r) / 4 == q && (q * 4 + r) % 4 == r
  {
  }

  lemma CutAt16(q: nat, r: nat)
    requires r < 16
    ensures (q * 16 + r) / 16 == q && (q * 16 + r) % 16 == r
  {
  }

  lemma CutAt64(q: nat, r: nat)
    requires r < 64
    ensures (q * 64 + r) / 64 == q && (q * 64 + r) % 64 == r
  {
  }

  lemma CutAt256(q: nat, r: nat)
    requires r < 256
    ensures (q * 256 + r) / 256 == q && (q * 256 + r) % 256 == r
  {
  }

  // ----- what they are for

  lemma SpellStep(alphabet: string, vs: seq<Sextet>)
    requires |alphabet| == 64 && vs != []
    ensures Spell(alphabet, vs) == [alphabet[vs[0]]] + Spell(alphabet, vs[1..])
  {
  }

  lemma {:induction false} ValuesSpelled(alphabet: string, vs: seq<Sextet>, rest: string)
    requires IsAlphabet(alphabet)
    ensures |alphabet| == 64 && Values(alphabet, Spell(alphabet, vs) + rest) == vs + Values(alphabet, rest)
    decreases |vs|
  {
    hide PositionOf, IsAlphabet, Values, Spell;
    AlphabetAt(alphabet, 0);
    if vs == [] {
      assert |Spell(alphabet, vs)| == 0;
      assert Spell(alphabet, vs) + rest == rest;
    } else {
      SpellStep(alphabet, vs);
      var text := Spell(alphabet, vs) + rest;
      PositionBack(alphabet, vs[0]);
      ValuesSpelled(alphabet, vs[1..], rest);
      assert text[0..] == text;
      assert text[0 + 1..] == Spell(alphabet, vs[1..]) + rest;
      NextValue(alphabet, text, 0);
      assert vs + Values(alphabet, rest) == [vs[0]] + (vs[1..] + Values(alphabet, rest));
    }
  }

  lemma {:induction false} ValuesPadding(alphabet: string, pad: string)
    requires IsAlphabet(alphabet) && forall i :: 0 <= i < |pad| ==> pad[i] == '='
    ensures |alphabet| == 64 && Values(alphabet, pad) == []
  {
    AlphabetAt(alphabet, 0);
    if pad != "" {
      NotInAlphabet(alphabet);
      ValuesPadding(alphabet, pad[1..]);
    }
  }

  lemma NotInAlphabet(alphabet: string)
    requires IsAlphabet(alphabet)
    ensures |alphabet| == 64 && PositionOf(alphabet, '=') == None
  {
    AlphabetAt(alphabet, 0);
    if PositionOf(alphabet, '=').Some? {
      AlphabetAt(alphabet, PositionOf(alphabet, '=').value);
    }
  }

  /** Decoding what was encoded gives every byte string back, in either alphabet. */
  lemma RoundTrip(bytes: seq<Byte>)
    ensures |URL| == |STANDARD| == 64
    ensures Pour(0, 0, Values(URL, Spell(URL, Sextets(bytes)))) == bytes
    ensures Pour(0, 0, Values(STANDARD, Spell(STANDARD, Sextets(bytes)) + Padding(|bytes|))) == bytes
  {
    hide Pour, Values, Sextets, URL, STANDARD, Spell;
    UrlSize();
    StandardSize();
    PourBack(bytes);
    ValuesSpelled(URL, Sextets(bytes), "");
    ValuesPadding(URL, "");
    assert Spell(URL, Sextets(bytes)) + "" == Spell(URL, Sextets(bytes));
    assert Sextets(bytes) + [] == Sextets(bytes);
    ValuesSpelled(STANDARD, Sextets(bytes), Padding(|bytes|));
    ValuesPadding(STANDARD, Padding(|bytes|));
  }

  function ToUrl(c: char): char {
    if c == '+' then '-' else if c == '/' then '_' else c
  }

  /** The two encodings differ in two characters of the alphabet and in the padding. */
  lemma EncodersAgree(bytes: seq<Byte>)
    ensures |URL| == |STANDARD| == 64
    ensures var standard, url := Spell(STANDARD, Sextets(bytes)) + Padding(|bytes|), Spell(URL, Sextets(bytes));
            && |standard| == |url| + (3 - |bytes| % 3) % 3
            && (forall i :: 0 <= i < |url| ==> url[i] == ToUrl(standard[i]))
            && (forall i :: |url| <= i < |standard| ==> standard[i] == '=')
  {
    hide Sextets;
    AlphabetAt(URL, 0);
    AlphabetAt(STANDARD, 0);
    var vs := Sextets(bytes);
    forall i | 0 <= i < |vs|
      ensures URL[vs[i]] == ToUrl(STANDARD[vs[i]])
    {
      SameLetter(vs[i]);
    }
  }

  lemma SameLetter(v: Sextet)
    ensures |URL| == |STANDARD| == 64 && URL[v] == ToUrl(STANDARD[v])
  {
  }

  /** So different byte strings have different encodings. */
  lemma EncodingsDiffer(a: seq<Byte>, b: seq<Byte>)
    requires |URL| == 64 && Spell(URL, Sextets(a)) == Spell(URL, Sextets(b))
    ensures a == b
  {
    hide Pour, Values, Sextets;
    RoundTrip(a);
    RoundTrip(b);
  }
}
