/** The base64 codec of `lib/misc/base64-decode.c`, against sections 4 and 5 of RFC 4648. */
module Base64 {
  import opened Basics
  import opened Sequences

  type sextet = x: int | 0 <= x < 64

  // ----- the three tables -----

  const UPPER := "ABCDEFGHIJKLMNOPQRSTUVWXYZ"
  const LOWER := "abcdefghijklmnopqrstuvwxyz"
  const TAIL_ORIG := "0123456789+/"
  const TAIL_URL := "0123456789-_"
  const ENCODE_ORIG := UPPER + LOWER + TAIL_ORIG
  const ENCODE_URL := UPPER + LOWER + TAIL_URL
  const DECODE_DIGITS := "|$$$}rstuvwxyz{$$$$$$$"
  const DECODE_UPPER := ">?@ABCDEFGHIJKLMNOPQRSTUVW"
  const DECODE_LOWER := "$$$$$$XYZ[\\]^_`abcdefghijklmnopq"
  const DECODE := DECODE_DIGITS + DECODE_UPPER + DECODE_LOWER

  /** Tables 1 and 2 of RFC 4648: the character for a value, which differs only in the last two */
  function Letter(url: bool, v: sextet): (c: char) {
    if v < 26 then (65 + v) as char
    else if v < 52 then (71 + v) as char
    else if v < 62 then (v - 4) as char
    else if v == 62 then if url then '-' else '+'
    else if url then '_' else '/'
  }

  function Table(url: bool): (encode: string) {
    if url then ENCODE_URL else ENCODE_ORIG
  }

  lemma UpperAt(i: nat)
    requires i < 26
    ensures |UPPER| == 26 && UPPER[i] as int == 65 + i
  {
  }

  lemma LowerAt(i: nat)
    requires i < 26
    ensures |LOWER| == 26 && LOWER[i] as int == 97 + i
  {
  }

  lemma TailAt(i: nat)
    requires i < 12
    ensures |TAIL_ORIG| == 12 && TAIL_ORIG[i] == Letter(false, 52 + i)
    ensures |TAIL_URL| == 12 && TAIL_URL[i] == Letter(true, 52 + i)
  {
  }

  /** A table in three parts, each of them right, is right. */
  lemma AlphabetInThreeParts(url: bool, a: string, b: string, c: string, v: sextet)
    requires |a| == 26 && |b| == 26 && |c| == 12
    requires v < 26 ==> a[v] == Letter(url, v)
    requires 26 <= v < 52 ==> b[v - 26] == Letter(url, v)
    requires 52 <= v ==> c[v - 52] == Letter(url, v)
    ensures |a + b + c| == 64 && (a + b + c)[v] == Letter(url, v)
  {
    IndexOfThree(a, b, c, v);
  }

  lemma IndexOfThree<T>(a: seq<T>, b: seq<T>, c: seq<T>, i: nat)
    requires i < |a| + |b| + |c|
    ensures (a + b + c)[i] == if i < |a| then a[i] else if i < |a| + |b| then b[i - |a|] else c[i - |a| - |b|]
  {
  }

  lemma EncodeTableIsTheAlphabet(url: bool, v: sextet)
    ensures |Table(url)| == 64 && Table(url)[v] == Letter(url, v)
  {
    UpperAt(if v < 26 then v else 0);
    LowerAt(if 26 <= v < 52 then v - 26 else 0);
    TailAt(if 52 <= v then v - 52 else 0);
    AlphabetInThreeParts(url, UPPER, LOWER, if url then TAIL_URL else TAIL_ORIG, v);
  }

  /** What the decoder makes of one character: 0 if it is to be skipped, else its value plus one */
  function Value(ch: char): (v: int) {
    var c := if ch == '-' then '+' else if ch == '_' then '/' else ch;
    if c < 43 as char || c > 122 as char then 0
    else
      var d := DECODE[c as int - 43];
      if d == '$' then 0 else d as int - 61
  }

  lemma DecodeDigitsAt(i: nat)
    requires i < 22
    ensures |DECODE_DIGITS| == 22
    ensures DECODE_DIGITS[i] == if i == 0 then '|' else if i == 4 then '}' else if 5 <= i < 15 then (109 + i) as char else '$'
  {
  }

  lemma DecodeUpperAt(i: nat)
    requires i < 26
    ensures |DECODE_UPPER| == 26 && DECODE_UPPER[i] as int == 62 + i
  {
  }

  lemma DecodeLowerAt(i: nat)
    requires i < 32
    ensures |DECODE_LOWER| == 32 && DECODE_LOWER[i] == if i < 6 then '$' else (82 + i) as char
  {
  }

  lemma ValueByRange(ch: char)
    ensures var c := ch as int;
            Value(ch) == (if 65 <= c <= 90 then c - 64
                          else if 97 <= c <= 122 then c - 70
                          else if 48 <= c <= 57 then c + 5
                          else if ch == '+' || ch == '-' then 63
                          else if ch == '/' || ch == '_' then 64
                          else 0)
  {
    var c := if ch == '-' then '+' else if ch == '_' then '/' else ch;
    if 43 <= c as int <= 122 {
      var k := c as int - 43;
      DecodeDigitsAt(if k < 22 then k else 0);
      DecodeUpperAt(if 22 <= k < 48 then k - 22 else 0);
      DecodeLowerAt(if 48 <= k then k - 48 else 0);
      IndexOfThree(DECODE_DIGITS, DECODE_UPPER, DECODE_LOWER, k);
    }
  }

  /** The decoder takes the characters of both alphabets, each for its value ... */
  lemma ValueOfLetter(url: bool, v: sextet)
    ensures Value(Letter(url, v)) == v + 1
  {
    ValueByRange(Letter(url, v));
  }

  /** ... and no others. */
  lemma OnlyLettersHaveValues(ch: char)
    ensures 0 <= Value(ch) <= 64
    ensures Value(ch) > 0 ==> ch == Letter(false, Value(ch) - 1) || ch == Letter(true, Value(ch) - 1)
  {
    ValueByRange(ch);
  }

  // ----- bitwise or -----

  function Or(a: nat, b: nat): (r: nat)
    decreases a + b
  {
    if a == 0 then b else if b == 0 then a
    else (if a % 2 == 1 || b % 2 == 1 then 1 else 0) + 2 * Or(a / 2, b / 2)
  }

  /** `x << k` */
  function Shl(x: nat, k: nat): (r: nat) {
    if k == 0 then x else 2 * Shl(x, k - 1)
  }

  /** Disjoint bits: `(x << k) | y` is a sum when `y` fits below bit `k`. */
  lemma {:induction false} OrOfDisjointBits(x: nat, k: nat, y: nat)
    requires y < Shl(1, k)
    ensures Or(Shl(x, k), y) == Shl(x, k) + y
  {
    if k > 0 && y > 0 && Shl(x, k) > 0 {
      assert Shl(x, k) / 2 == Shl(x, k - 1);
      OrOfDisjointBits(x, k - 1, y / 2);
    }
  }

  lemma OrIsSum(x: nat, y: nat)
    ensures y < 4 ==> Or(x * 4, y) == x * 4 + y
    ensures y < 16 ==> Or(x * 16, y) == x * 16 + y
    ensures y < 64 ==> Or(x * 64, y) == x * 64 + y
  {
    assert Shl(1, 1) == 2 && Shl(x, 1) == x * 2;
    assert Shl(1, 2) == 4 && Shl(x, 2) == x * 4;
    assert Shl(1, 3) == 8 && Shl(x, 3) == x * 8;
    assert Shl(1, 4) == 16 && Shl(x, 4) == x * 16;
    assert Shl(1, 5) == 32 && Shl(x, 5) == x * 32;
    assert Shl(1, 6) == 64 && Shl(x, 6) == x * 64;
    if y < 4 { OrOfDisjointBits(x, 2, y); }
    if y < 16 { OrOfDisjointBits(x, 4, y); }
    if y < 64 { OrOfDisjointBits(x, 6, y); }
  }

  // ----- encoding: RFC 4648 -----

  /** The 24 bits of three input bytes, concatenated */
  function Group(b0: byte, b1: byte, b2: byte): (group: nat)
    ensures group < 0x100_0000
  {
    b0 * 0x1_0000 + b1 * 0x100 + b2
  }

  /** A 24-bit group as four 6-bit groups, the first the most significant */
  function Digits(group: nat): (digits: seq<sextet>)
    requires group < 0x100_0000
    ensures |digits| == 4
  {
    [group / 0x4_0000, group / 0x1000 % 64, group / 0x40 % 64, group % 64]
  }

  /** The 6-bit values of the data; a short last group has zero bits added on the right and gives only the
      values its bits reach. */
  function Values(data: seq<byte>): (values: seq<sextet>)
    decreases |data|
  {
    if data == [] then []
    else if |data| == 1 then Digits(Group(data[0], 0, 0))[..2]
    else if |data| == 2 then Digits(Group(data[0], data[1], 0))[..3]
    else Digits(Group(data[0], data[1], data[2])) + Values(data[3..])
  }

  function Spell(url: bool, values: seq<sextet>): (text: string)
    ensures |text| == |values|
  {
    seq(|values|, i requires 0 <= i < |values| => Letter(url, values[i]))
  }

  /** '=' up to a whole group of four characters */
  function Padding(n: nat): (pad: string) {
    if n % 3 == 0 then "" else if n % 3 == 1 then "==" else "="
  }

  function Encoding(url: bool, data: seq<byte>): (text: string) {
    Spell(url, Values(data)) + Padding(|data|)
  }

  lemma SpellAppend(url: bool, a: seq<sextet>, b: seq<sextet>)
    ensures Spell(url, a + b) == Spell(url, a) + Spell(url, b)
  {
  }

  lemma PaddingIsPeriodic(n: nat)
    requires n >= 3
    ensures Padding(n) == Padding(n - 3)
  {
  }

  /** Encoding goes group by group. */
  lemma EncodingOfGroup(url: bool, data: seq<byte>)
    requires |data| >= 3
    ensures Encoding(url, data)
         == Spell(url, Digits(Group(data[0], data[1], data[2]))) + Encoding(url, data[3..])
  {
    var first := Digits(Group(data[0], data[1], data[2]));
    var rest := Values(data[3..]);
    SpellAppend(url, first, rest);
    PaddingIsPeriodic(|data|);
    Assoc(Spell(url, first), Spell(url, rest), Padding(|data|));
  }

  lemma DigitsOf(s0: sextet, s1: sextet, s2: sextet, s3: sextet)
    ensures var g := s0 * 0x4_0000 + s1 * 0x1000 + s2 * 0x40 + s3;
            g < 0x100_0000 && Digits(g) == [s0, s1, s2, s3]
  {
    var g := s0 * 0x4_0000 + s1 * 0x1000 + s2 * 0x40 + s3;
    assert g / 0x40 == s0 * 0x1000 + s1 * 0x40 + s2;
    assert g / 0x1000 == s0 * 0x40 + s1;
    assert g / 0x4_0000 == s0;
  }

  lemma GroupInSextets(b0: byte, b1: byte, b2: byte)
    ensures Group(b0, b1, b2)
         == b0 / 4 * 0x4_0000 + (b0 % 4 * 16 + b1 / 16) * 0x1000 + (b1 % 16 * 4 + b2 / 64) * 0x40 + b2 % 64
  {
    assert b0 == b0 / 4 * 4 + b0 % 4;
    assert b1 == b1 / 16 * 16 + b1 % 16;
    assert b2 == b2 / 64 * 64 + b2 % 64;
  }

  lemma DigitsOfBytes(b0: byte, b1: byte, b2: byte)
    ensures Digits(Group(b0, b1, b2))
         == [b0 / 4, b0 % 4 * 16 + b1 / 16, b1 % 16 * 4 + b2 / 64, b2 % 64]
  {
    GroupInSextets(b0, b1, b2);
    DigitsOf(b0 / 4, b0 % 4 * 16 + b1 / 16, b1 % 16 * 4 + b2 / 64, b2 % 64);
  }

  /** The encoder's shifts and masks compute the four digits. */
  lemma ShiftsAreDigits(b0: byte, b1: byte, b2: byte)
    ensures Digits(Group(b0, b1, b2))
         == [b0 / 4, Or(b0 % 4 * 16, b1 / 16), Or(b1 % 16 * 4, b2 / 64), b2 % 64]
  {
    DigitsOfBytes(b0, b1, b2);
    OrIsSum(b0 % 4, b1 / 16);
    OrIsSum(b1 % 16, b2 / 64);
  }

  /** The four characters the encoder writes for the next one, two or three bytes */
  function Quartet(url: bool, rest: seq<byte>): (four: string)
    requires rest != []
    ensures |four| == 4
  {
    var b0: byte := rest[0];
    var b1: byte := if |rest| > 1 then rest[1] else 0;
    var b2: byte := if |rest| > 2 then rest[2] else 0;
    var d := Digits(Group(b0, b1, b2));
    [Letter(url, d[0]), Letter(url, d[1]),
     if |rest| > 1 then Letter(url, d[2]) else '=', if |rest| > 2 then Letter(url, d[3]) else '=']
  }

  lemma EncodingByQuartets(url: bool, rest: seq<byte>)
    requires rest != []
    ensures Encoding(url, rest) == Quartet(url, rest) + Encoding(url, rest[if |rest| < 3 then |rest| else 3..])
  {
    if |rest| >= 3 {
      EncodingOfGroup(url, rest);
    } else {
      var none: seq<byte> := [];
      assert rest[|rest|..] == none;
      assert Encoding(url, none) == [];
    }
  }

  lemma GroupsOfThree(n: nat)
    requires n > 0
    ensures (n + 2) / 3 == (n - (if n < 3 then n else 3) + 2) / 3 + 1
  {
  }

  lemma {:induction false} EncodingLength(url: bool, data: seq<byte>)
    ensures |Encoding(url, data)| == (|data| + 2) / 3 * 4
    decreases |data|
  {
    if data == [] {
    } else {
      var rest := data[if |data| < 3 then |data| else 3..];
      EncodingByQuartets(url, data);
      EncodingLength(url, rest);
      GroupsOfThree(|data|);
    }
  }

  lemma NothingLeft(url: bool, rest: seq<byte>)
    requires |rest| == 0
    ensures Encoding(url, rest) == ""
  {
  }

  lemma FourMore(url: bool, rest: seq<byte>)
    requires rest != []
    ensures |Encoding(url, rest)| >= 4
  {
    EncodingByQuartets(url, rest);
  }

  lemma MovedOver(done: string, four: string, rest: string)
    ensures (four + rest)[|four|..] == rest
    ensures done + (four + rest) == done + four + rest
  {
  }

  /** The encoder's loop: as much as fits below `outSize`, all or nothing */
  method EncodeGroups(url: bool, input: seq<byte>, out: array<char>, outSize: int) returns (done: int)
    requires outSize <= out.Length
    modifies out
    ensures done == -1 || done == |Encoding(url, input)|
    ensures done == -1 ==> outSize <= |Encoding(url, input)|
    ensures done >= 0 ==> done <= out.Length && out[..done] == Encoding(url, input)
    ensures forall i :: 0 <= i < out.Length && (i >= outSize || (done >= 0 && i >= done)) ==> out[i] == old(out[i])
  {
    var pos := 0;
    done := 0;
    ghost var left := Encoding(url, input);
    ghost var whole := left;
    assert input[0..] == input;
    while pos < |input|
      invariant 0 <= pos <= |input|
      invariant 0 <= done <= out.Length && (done == 0 || done < outSize)
      invariant left == Encoding(url, input[pos..])
      invariant out[..done] + left == whole
      invariant forall i :: done <= i < out.Length ==> out[i] == old(out[i])
    {
      FourMore(url, input[pos..]);
      assert |whole| >= done + 4;
      if done + 4 >= outSize {
        return -1;
      }
      var len := EncodeNext(url, input, pos, out, done);
      left := Encoding(url, input[pos + len..]);
      pos, done := pos + len, done + 4;
    }
    NothingLeft(url, input[pos..]);
  }

  /** _lws_b64_encode_string().  It succeeds exactly when `outSize` is at least two more than the encoding's
      length, leaves exactly the encoding and a NUL, and in any case writes nothing at or past
      `outSize`. */
  method EncodeString(url: bool, input: seq<byte>, out: array<char>, outSize: int) returns (ret: int)
    requires outSize <= out.Length
    modifies out
    ensures ret == if outSize >= (|input| + 2) / 3 * 4 + 2 then (|input| + 2) / 3 * 4 else -1
    ensures ret >= 0 ==> ret < out.Length && out[..ret] == Encoding(url, input) && out[ret] == '\0'
    ensures forall i :: 0 <= i < out.Length && (i >= outSize || (ret >= 0 && i > ret)) ==> out[i] == old(out[i])
  {
    EncodingLength(url, input);
    var done := EncodeGroups(url, input, out, outSize);
    if done == -1 || done + 1 >= outSize {
      return -1;
    }
    out[done] := '\0';
    ret := done;
  }

  /** The body of the encoder's loop: the next one, two or three bytes as four characters */
  method EncodeGroup(url: bool, input: seq<byte>, pos: nat, out: array<char>, done: nat) returns (len: nat)
    requires pos < |input| && done + 4 <= out.Length
    modifies out
    ensures len == (if |input| - pos < 3 then |input| - pos else 3)
    ensures input[pos..][len..] == input[pos + len..]
    ensures out[..done] == old(out[..done])
    ensures out[..done + 4] == out[..done] + Quartet(url, input[pos..])
    ensures forall i :: done + 4 <= i < out.Length ==> out[i] == old(out[i])
  {
    len := if |input| - pos < 3 then |input| - pos else 3;
    var b0: byte := input[pos];
    var b1: byte := if len > 1 then input[pos + 1] else 0;
    var b2: byte := if len > 2 then input[pos + 2] else 0;
    var four := EncodeTriple(url, b0, b1, b2, len);
    assert four == Quartet(url, input[pos..]);
    out[done], out[done + 1], out[done + 2], out[done + 3] := four[0], four[1], four[2], four[3];
  }

  /** The same step, as what is written and what is still to be encoded */
  method EncodeNext(url: bool, input: seq<byte>, pos: nat, out: array<char>, done: nat) returns (len: nat)
    requires pos < |input| && done + 4 <= out.Length
    modifies out
    ensures 1 <= len <= |input| - pos
    ensures out[..done + 4] + Encoding(url, input[pos + len..]) == old(out[..done]) + Encoding(url, input[pos..])
    ensures forall i :: done + 4 <= i < out.Length ==> out[i] == old(out[i])
  {
    EncodingByQuartets(url, input[pos..]);
    len := EncodeGroup(url, input, pos, out, done);
    MovedOver(out[..done], Quartet(url, input[pos..]), Encoding(url, input[pos + len..]));
  }

  method EncodeTriple(url: bool, b0: byte, b1: byte, b2: byte, len: nat) returns (four: string)
    ensures var d := Digits(Group(b0, b1, b2));
            four == [Letter(url, d[0]), Letter(url, d[1]),
                     if len > 1 then Letter(url, d[2]) else '=', if len > 2 then Letter(url, d[3]) else '=']
  {
    var encode := Table(url);
    ShiftsAreDigits(b0, b1, b2);
    ghost var d := Digits(Group(b0, b1, b2));
    EncodeTableIsTheAlphabet(url, d[0]);
    EncodeTableIsTheAlphabet(url, d[1]);
    EncodeTableIsTheAlphabet(url, d[2]);
    EncodeTableIsTheAlphabet(url, d[3]);
    assert d[0] == b0 / 4 && d[1] == Or(b0 % 4 * 16, b1 / 16) && d[2] == Or(b1 % 16 * 4, b2 / 64) && d[3] == b2 % 64;
    four := [encode[b0 / 4], encode[Or(b0 % 4 * 16, b1 / 16)],
             if len > 1 then encode[Or(b1 % 16 * 4, b2 / 64)] else '=',
             if len > 2 then encode[b2 % 64] else '='];
  }
}
