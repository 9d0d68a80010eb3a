/** The decoder of `lib/misc/base64-decode.c`.  `text` is what it can read: the input up to its given
    length or its first NUL. */
module Base64Decoder {
  import opened Basics
  import opened Sequences
  import opened Base64

  // ----- what the decoder reads -----

  /** One turn of the quad loop reads to the next character that has a value, `v` (plus one), or to the end of
      the text, with `v` zero; `c` is the last character it looked at. */
  datatype Token = Token(c: char, v: int)

  function Tokens(text: string): (toks: seq<Token>) {
    if text == [] then []
    else if Value(text[0]) != 0 then [Token(text[0], Value(text[0]))] + Tokens(text[1..])
    else if |text| == 1 then [Token(text[0], 0)]
    else Tokens(text[1..])
  }

  /** `quad` after the turns from `i` on: a turn that found no value leaves what was there. */
  function Fill(quad: seq<byte>, toks: seq<Token>, i: nat): (quad': seq<byte>)
    requires |quad| == 4 && i <= 4
    ensures |quad'| == 4
    decreases 4 - i
  {
    if i == 4 || toks == [] then quad
    else Fill(if 1 <= toks[0].v <= 256 then quad[i := toks[0].v - 1] else quad, toks[1..], i + 1)
  }

  /** What is left of a number stored in a char */
  function Low8(x: nat): (r: byte) {
    if x < 256 then x else Low8(x - 256)
  }

  /** quad[0] << 2 | quad[1] >> 4, and so on, each stored in a char */
  function Byte0(a: byte, b: byte): (r: byte) {
    Low8(Or(a as int * 4, b / 16))
  }

  function Byte1(b: byte, c: byte): (r: byte) {
    Low8(Or(b as int * 16, c / 4))
  }

  function Byte2(c: byte, d: byte): (r: byte) {
    Low8(Or(c % 4 * 64, d))
  }

  /** The bytes a quad of which `len` values count is written out as */
  function Bytes(quad: seq<byte>, len: int): (bytes: seq<byte>)
    requires |quad| == 4
    ensures len <= 4 ==> |bytes| == if len < 2 then 0 else len - 1
  {
    (if len >= 2 then [Byte0(quad[0], quad[1])] else [])
    + (if len >= 3 then [Byte1(quad[1], quad[2])] else [])
    + (if len >= 4 then [Byte2(quad[2], quad[3])] else [])
  }

  /** What the caller is told, what has been written, and whether a NUL was put after it */
  datatype Decoded = Decoded(ret: int, out: seq<byte>, terminated: bool)

  /** The decoder from a group boundary on, `done` bytes counted so far */
  function Decode(toks: seq<Token>, quad: seq<byte>, done: int, outSize: int): (r: Decoded)
    requires |quad| == 4
    decreases |toks|
  {
    if toks == [] then
      if done + 1 >= outSize then Decoded(-1, [], false) else Decoded(done, [], true)
    else
      var n := if |toks| < 4 then |toks| else 4;
      var quad' := Fill(quad, toks, 0);
      if outSize < done + n - 1 then Decoded(-1, [], false)
      else
        var len := Counted(toks);
        var r := Decode(toks[n..], quad', done + len - 1, outSize);
        r.(out := Bytes(quad', len) + r.out)
  }

  /** How many values of the next group count: a final '=' does not. */
  function Counted(toks: seq<Token>): (len: nat)
    requires toks != []
    ensures len <= 4 && len <= |toks|
  {
    if |toks| > 4 then 4
    else if toks[|toks| - 1].c == '=' then |toks| - 1 else |toks|
  }

  // ----- foreign characters -----

  lemma {:induction false} LeadingForeignCharactersAreSkipped(foreign: string, rest: string)
    requires forall i :: 0 <= i < |foreign| ==> Value(foreign[i]) == 0
    requires rest != [] && Value(rest[0]) != 0
    ensures Tokens(foreign + rest) == Tokens(rest)
  {
    if foreign == [] {
      assert foreign + rest == rest;
    } else {
      assert (foreign + rest)[1..] == foreign[1..] + rest;
      LeadingForeignCharactersAreSkipped(foreign[1..], rest);
    }
  }

  /** Characters of neither alphabet, put anywhere just before one that is, make no difference at all. */
  lemma {:induction false} ForeignCharactersAreSkipped(before: string, foreign: string, rest: string)
    requires forall i :: 0 <= i < |foreign| ==> Value(foreign[i]) == 0
    requires rest != [] && Value(rest[0]) != 0
    ensures Tokens(before + (foreign + rest)) == Tokens(before + rest)
  {
    if before == [] {
      assert before + (foreign + rest) == foreign + rest && before + rest == rest;
      LeadingForeignCharactersAreSkipped(foreign, rest);
    } else {
      assert (before + (foreign + rest))[1..] == before[1..] + (foreign + rest);
      assert (before + rest)[1..] == before[1..] + rest;
      ForeignCharactersAreSkipped(before[1..], foreign, rest);
    }
  }

  // ----- staying inside the buffer -----

  /** All writes made from position `at` on are below `outSize`. */
  predicate InBounds(r: Decoded, at: nat, outSize: int) {
    && (r.out != [] ==> at + |r.out| <= outSize)
    && (r.terminated ==> at + |r.out| < outSize)
  }

  /** One group: if what follows stays in bounds from where it starts, so does the whole. */
  lemma GroupStaysInBounds(bytes: seq<byte>, rest: Decoded, at: nat, outSize: int)
    requires InBounds(rest, at + |bytes|, outSize) && (bytes != [] ==> at + |bytes| <= outSize)
    ensures InBounds(rest.(out := bytes + rest.out), at, outSize)
  {
  }

  /** Whatever the input, every byte written, and the NUL, is below `outSize`. */
  lemma {:induction false} DecodingStaysInBounds(toks: seq<Token>, quad: seq<byte>, done: nat, outSize: int)
    requires |quad| == 4
    ensures InBounds(Decode(toks, quad, done, outSize), done, outSize)
    decreases |toks|
  {
    if toks != [] {
      var n := if |toks| < 4 then |toks| else 4;
      var len := Counted(toks);
      if outSize >= done + n - 1 {
        var quad' := Fill(quad, toks, 0);
        if len > 0 {
          DecodingStaysInBounds(toks[n..], quad', done + len - 1, outSize);
        }
        GroupStaysInBounds(Bytes(quad', len), Decode(toks[n..], quad', done + len - 1, outSize), done, outSize);
      }
    }
  }

  // ----- the length returned -----

  /** The text ends in '=' where a new group would start. */
  predicate LonePad(toks: seq<Token>) {
    if |toks| > 4 then LonePad(toks[4..]) else |toks| == 1 && toks[0].c == '='
  }

  predicate LengthExact(r: Decoded, toks: seq<Token>, done: int) {
    r.terminated ==> r.ret == done + |r.out| - (if LonePad(toks) then 1 else 0)
  }

  lemma LastGroupLength(toks: seq<Token>, quad: seq<byte>, done: int, outSize: int)
    requires |quad| == 4 && 1 <= |toks| <= 4
    ensures LengthExact(Decode(toks, quad, done, outSize), toks, done)
  {
    var len, quad' := Counted(toks), Fill(quad, toks, 0);
    assert toks[|toks|..] == [];
    var rest := Decode([], quad', done + len - 1, outSize);
    DecodeNext(toks, quad, done, outSize, Bytes(quad', len), rest);
    assert LonePad(toks) <==> len == 0;
  }

  /** The length returned is the number of bytes written, except after a '=' in a group of its own: then it
      is one less. */
  lemma {:induction false} ReturnedLengthIsExactUnlessLonePad(toks: seq<Token>, quad: seq<byte>, done: int, outSize: int)
    requires |quad| == 4
    ensures LengthExact(Decode(toks, quad, done, outSize), toks, done)
    decreases |toks|
  {
    if 1 <= |toks| <= 4 {
      LastGroupLength(toks, quad, done, outSize);
    } else if toks != [] {
      var quad' := Fill(quad, toks, 0);
      ReturnedLengthIsExactUnlessLonePad(toks[4..], quad', done + 3, outSize);
      DecodeNext(toks, quad, done, outSize, Bytes(quad', 4), Decode(toks[4..], quad', done + 3, outSize));
    }
  }

  lemma LonePadTokens()
    ensures Tokens("=") == [Token('=', 0)]
  {
    ValueByRange('=');
  }

  /** "AAAA=" gives three bytes and says two. */
  lemma ALonePadIsMiscounted(quad: seq<byte>, outSize: int)
    requires |quad| == 4 && outSize >= 4
    ensures var r := Decode(Tokens(Spell(false, [0, 0, 0, 0]) + "="), quad, 0, outSize);
            r.terminated && |r.out| == 3 && r.ret == 2
    ensures Spell(false, [0, 0, 0, 0]) == "AAAA"
  {
    var d: seq<sextet> := [0, 0, 0, 0];
    LonePadTokens();
    TokensOfSpelling(false, d, "=");
    DecodeFullGroup(false, d, Tokens("="), quad, 0, outSize);
    assert Tokens("=")[1..] == [];
  }

  // ----- decoding what was encoded -----

  function Letters(url: bool, values: seq<sextet>): (toks: seq<Token>)
    ensures |toks| == |values|
  {
    seq(|values|, i requires 0 <= i < |values| => Token(Letter(url, values[i]), values[i] as int + 1))
  }

  lemma LettersCons(url: bool, values: seq<sextet>)
    requires values != []
    ensures Letters(url, values) == [Token(Letter(url, values[0]), values[0] as int + 1)] + Letters(url, values[1..])
    ensures Spell(url, values) == [Letter(url, values[0])] + Spell(url, values[1..])
  {
  }

  lemma TokensOfLetter(url: bool, v: sextet, text: string)
    ensures Tokens([Letter(url, v)] + text) == [Token(Letter(url, v), v as int + 1)] + Tokens(text)
  {
    ValueOfLetter(url, v);
    assert ([Letter(url, v)] + text)[1..] == text;
  }

  lemma {:induction false} TokensOfSpelling(url: bool, values: seq<sextet>, tail: string)
    ensures Tokens(Spell(url, values) + tail) == Letters(url, values) + Tokens(tail)
  {
    if values == [] {
      assert Spell(url, values) + tail == tail;
    } else {
      var first, rest := values[0], values[1..];
      LettersCons(url, values);
      Assoc([Letter(url, first)], Spell(url, rest), tail);
      TokensOfLetter(url, first, Spell(url, rest) + tail);
      TokensOfSpelling(url, rest, tail);
      Assoc([Token(Letter(url, first), first as int + 1)], Letters(url, rest), Tokens(tail));
    }
  }

  lemma Byte0OfDigits(b0: byte, b1: byte)
    ensures Byte0(b0 / 4, b0 % 4 * 16 + b1 / 16) == b0
  {
    OrIsSum(b0 / 4, b0 % 4);
    assert (b0 % 4 * 16 + b1 / 16) / 16 == b0 % 4;
  }

  lemma {:induction false} WrapsTo(k: nat, b: byte)
    ensures Low8(k * 256 + b) == b
  {
    if k > 0 {
      WrapsTo(k - 1, b);
      assert k * 256 + b - 256 == (k - 1) * 256 + b;
    }
  }

  lemma Byte1OfDigits(b0: byte, b1: byte, b2: byte)
    ensures Byte1(b0 % 4 * 16 + b1 / 16, b1 % 16 * 4 + b2 / 64) == b1
  {
    var d1 := b0 % 4 * 16 + b1 / 16;
    OrIsSum(d1, b1 % 16);
    assert (b1 % 16 * 4 + b2 / 64) / 4 == b1 % 16;
    assert d1 as int * 16 + b1 % 16 == b0 % 4 * 256 + b1;
    WrapsTo(b0 % 4, b1);
  }

  lemma Byte2OfDigits(b1: byte, b2: byte)
    ensures Byte2(b1 % 16 * 4 + b2 / 64, b2 % 64) == b2
  {
    OrIsSum(b2 / 64, b2 % 64);
    assert (b1 % 16 * 4 + b2 / 64) % 4 == b2 / 64;
  }

  /** The bytes come back out of their digits, whatever the unused part of the quad holds. */
  lemma BytesOfDigits(b0: byte, b1: byte, b2: byte, q2: byte, q3: byte)
    ensures var d := Digits(Group(b0, b1, b2));
            && Bytes([d[0], d[1], d[2], d[3]], 4) == [b0, b1, b2]
            && Bytes([d[0], d[1], d[2], q3], 3) == [b0, b1]
            && Bytes([d[0], d[1], q2, q3], 2) == [b0]
  {
    DigitsOfBytes(b0, b1, b2);
    Byte0OfDigits(b0, b1);
    Byte1OfDigits(b0, b1, b2);
    Byte2OfDigits(b1, b2);
  }

  // The last token of a padded encoding is the '='.
  const PAD := [Token('=', 0)]

  lemma TokensOfPadding(n: nat)
    ensures Tokens(Padding(n)) == if n % 3 == 0 then [] else PAD
  {
    ValueByRange('=');
    assert "=="[1..] == "=";
  }

  function Pad(padded: bool, n: nat): (toks: seq<Token>) {
    if padded && n % 3 != 0 then PAD else []
  }

  /** The tokens of an encoding, with or without its padding */
  function Encoded(url: bool, data: seq<byte>, padded: bool): (toks: seq<Token>) {
    Letters(url, Values(data)) + Pad(padded, |data|)
  }

  lemma LetterIsNotPad(url: bool, v: sextet)
    ensures Letter(url, v) != '='
  {
  }

  lemma {:induction false} FillAt(quad: seq<byte>, toks: seq<Token>, i: nat, j: nat)
    requires |quad| == 4 && i <= 4 && j < 4
    ensures Fill(quad, toks, i)[j]
         == if i <= j < i + |toks| && 1 <= toks[j - i].v <= 256 then toks[j - i].v - 1 else quad[j]
    decreases 4 - i
  {
    if i < 4 && toks != [] {
      FillAt(if 1 <= toks[0].v <= 256 then quad[i := toks[0].v - 1] else quad, toks[1..], i + 1, j);
    }
  }

  lemma FillAll(quad: seq<byte>, toks: seq<Token>)
    requires |quad| == 4
    ensures forall j :: 0 <= j < 4 ==>
              Fill(quad, toks, 0)[j] == if j < |toks| && 1 <= toks[j].v <= 256 then toks[j].v - 1 else quad[j]
  {
    forall j | 0 <= j < 4
      ensures Fill(quad, toks, 0)[j] == if j < |toks| && 1 <= toks[j].v <= 256 then toks[j].v - 1 else quad[j]
    {
      FillAt(quad, toks, 0, j);
    }
  }

  /** Decoding a last, short group */
  lemma DecodeShortGroup(url: bool, data: seq<byte>, padded: bool, quad: seq<byte>, done: nat, outSize: int)
    requires |quad| == 4 && 1 <= |data| <= 2
    ensures var r := Decode(Encoded(url, data, padded), quad, done, outSize);
            if outSize >= done + |data| + 2 then r == Decoded(done + |data|, data, true) else r.ret == -1
  {
    var toks := Encoded(url, data, padded);
    var b1: byte := if |data| > 1 then data[1] else 0;
    var d := Digits(Group(data[0], b1, 0));
    assert Values(data) == d[..|data| + 1];
    assert forall i :: 0 <= i <= |data| ==> toks[i] == Token(Letter(url, d[i]), d[i] as int + 1);
    LetterIsNotPad(url, d[|data|]);
    assert Counted(toks) == |data| + 1;
    FillAll(quad, toks);
    var quad' := Fill(quad, toks, 0);
    BytesOfDigits(data[0], b1, 0, quad'[2], quad'[3]);
    if |data| == 1 {
      assert quad' == [d[0], d[1], quad'[2], quad'[3]];
    } else {
      assert quad' == [d[0], d[1], d[2], quad'[3]];
    }
    assert Bytes(quad', |data| + 1) == data;
    assert toks[|toks|..] == [];
  }

  lemma LettersAppend(url: bool, a: seq<sextet>, b: seq<sextet>)
    ensures Letters(url, a + b) == Letters(url, a) + Letters(url, b)
  {
  }

  lemma PadIsPeriodic(padded: bool, n: nat)
    requires n >= 3
    ensures Pad(padded, n) == Pad(padded, n - 3)
  {
  }

  lemma EncodedCons(url: bool, data: seq<byte>, padded: bool)
    requires |data| >= 3
    ensures Encoded(url, data, padded)
         == Letters(url, Digits(Group(data[0], data[1], data[2]))) + Encoded(url, data[3..], padded)
  {
    var d, rest := Digits(Group(data[0], data[1], data[2])), Values(data[3..]);
    LettersAppend(url, d, rest);
    PadIsPeriodic(padded, |data|);
    Assoc(Letters(url, d), Letters(url, rest), Pad(padded, |data|));
  }

  /** Decoding one full group and then the rest */
  lemma DecodeFullGroup(url: bool, d: seq<sextet>, rest: seq<Token>, quad: seq<byte>, done: nat, outSize: int)
    requires |quad| == 4 && |d| == 4 && outSize >= done + 3
    ensures var r := Decode(rest, [d[0], d[1], d[2], d[3]], done + 3, outSize);
            Decode(Letters(url, d) + rest, quad, done, outSize)
            == r.(out := Bytes([d[0], d[1], d[2], d[3]], 4) + r.out)
  {
    var toks := Letters(url, d) + rest;
    assert toks[4..] == rest;
    assert forall i :: 0 <= i < 4 ==> toks[i] == Token(Letter(url, d[i]), d[i] as int + 1);
    LetterIsNotPad(url, d[3]);
    assert Counted(toks) == 4;
    FillAll(quad, toks);
    assert Fill(quad, toks, 0) == [d[0], d[1], d[2], d[3]];
  }

  lemma {:induction false} DecodeEncoded(url: bool, data: seq<byte>, padded: bool, quad: seq<byte>, done: nat, outSize: int)
    requires |quad| == 4
    ensures var r := Decode(Encoded(url, data, padded), quad, done, outSize);
            if outSize >= done + |data| + 2 then r == Decoded(done + |data|, data, true) else r.ret == -1
    decreases |data|
  {
    if data == [] {
    } else if |data| <= 2 {
      DecodeShortGroup(url, data, padded, quad, done, outSize);
    } else {
      var d := Digits(Group(data[0], data[1], data[2]));
      var rest := Encoded(url, data[3..], padded);
      EncodedCons(url, data, padded);
      if outSize >= done + 3 {
        DecodeFullGroup(url, d, rest, quad, done, outSize);
        BytesOfDigits(data[0], data[1], data[2], 0, 0);
        DecodeEncoded(url, data[3..], padded, [d[0], d[1], d[2], d[3]], done + 3, outSize);
        assert [data[0], data[1], data[2]] + data[3..] == data;
      }
    }
  }

  /** Decoding undoes encoding, in either alphabet and with or without the padding, whatever was in the
      decoder's quad to begin with, exactly when there is room for the data and two more. */
  lemma DecodingUndoesEncoding(url: bool, data: seq<byte>, quad: seq<byte>, outSize: int)
    requires |quad| == 4
    ensures var r := Decode(Tokens(Encoding(url, data)), quad, 0, outSize);
            if outSize >= |data| + 2 then r == Decoded(|data|, data, true) else r.ret == -1
    ensures var r := Decode(Tokens(Spell(url, Values(data))), quad, 0, outSize);
            if outSize >= |data| + 2 then r == Decoded(|data|, data, true) else r.ret == -1
  {
    TokensOfSpelling(url, Values(data), Padding(|data|));
    TokensOfPadding(|data|);
    DecodeEncoded(url, data, true, quad, 0, outSize);
    TokensOfSpelling(url, Values(data), []);
    assert Spell(url, Values(data)) + [] == Spell(url, Values(data));
    DecodeEncoded(url, data, false, quad, 0, outSize);
  }

  // ----- the code -----

  /** The innermost loop: on to the next character with a value, or to the end of the text */
  method ReadValue(text: string, pos: nat) returns (c: char, v: int, pos': nat)
    requires pos < |text|
    ensures pos < pos' <= |text| && 0 <= v <= 64
    ensures Tokens(text[pos..]) == [Token(c, v)] + Tokens(text[pos'..])
  {
    c, v, pos' := text[pos], 0, pos;
    while pos' < |text| && v == 0
      invariant pos <= pos' <= |text| && 0 <= v <= 64
      invariant pos' == pos ==> v == 0
      invariant v == 0 && pos' < |text| ==> Tokens(text[pos..]) == Tokens(text[pos'..])
      invariant pos' > pos && (v != 0 || pos' == |text|) ==>
                  Tokens(text[pos..]) == [Token(c, v)] + Tokens(text[pos'..])
    {
      OnlyLettersHaveValues(text[pos']);
      assert text[pos'..][1..] == text[pos' + 1..];
      c := text[pos'];
      v := Value(c);
      pos' := pos' + 1;
    }
  }

  /** The quad loop */
  method ReadQuad(text: string, pos: nat, quad: seq<byte>)
    returns (quad': seq<byte>, len: nat, c: char, pos': nat)
    requires pos < |text| && |quad| == 4
    ensures pos < pos' <= |text|
    ensures var toks := Tokens(text[pos..]);
            && toks != [] && quad' == Fill(quad, toks, 0)
            && len == (if |toks| < 4 then |toks| else 4)
            && c == toks[len - 1].c
            && Tokens(text[pos'..]) == toks[len..]
  {
    ghost var toks := Tokens(text[pos..]);
    quad', len, c, pos' := quad, 0, '\0', pos;
    while len < 4 && pos' < |text|
      invariant pos <= pos' <= |text| && len <= 4 && len <= |toks| && |quad'| == 4
      invariant len == 0 <==> pos' == pos
      invariant Tokens(text[pos'..]) == toks[len..]
      invariant Fill(quad, toks, 0) == Fill(quad', toks[len..], len)
      invariant len > 0 ==> c == toks[len - 1].c
    {
      var v;
      c, v, pos' := ReadValue(text, pos');
      assert toks[len..] == [Token(c, v)] + toks[len + 1..];
      if v != 0 {
        quad' := quad'[len := v - 1];
      }
      len := len + 1;
    }
    if pos' == |text| {
      assert text[pos'..] == [];
    }
  }

  /** Writing out a quad, the part of it that counts */
  method WriteQuad(quad: seq<byte>, len: nat, out: array<byte>, at: nat) returns (at': nat)
    requires |quad| == 4 && len <= 4 && (len >= 2 ==> at + len - 1 <= out.Length) && at <= out.Length
    modifies out
    ensures at' == at + |Bytes(quad, len)| <= out.Length
    ensures out[..at'] == old(out[..at]) + Bytes(quad, len)
    ensures forall i :: at' <= i < out.Length ==> out[i] == old(out[i])
  {
    at' := at;
    if len >= 2 {
      out[at'] := Byte0(quad[0], quad[1]);
      at' := at' + 1;
    }
    if len >= 3 {
      out[at'] := Byte1(quad[1], quad[2]);
      at' := at' + 1;
    }
    if len >= 4 {
      out[at'] := Byte2(quad[2], quad[3]);
      at' := at' + 1;
    }
  }

  lemma {:induction false} EndOfTokens(text: string, pos: nat)
    requires pos <= |text|
    ensures Tokens(text[pos..]) == [] <==> pos == |text|
    decreases |text| - pos
  {
    if pos < |text| {
      assert text[pos..][1..] == text[pos + 1..];
      EndOfTokens(text, pos + 1);
    }
  }

  /** The body of the decoder's loop: one quad is read and, if there is room, written out after the `done`
      bytes already there. */
  method DecodeGroup(text: string, pos: nat, quad: seq<byte>, done: nat, out: array<byte>, outSize: int)
    returns (room: bool, quad': seq<byte>, done': int, at: nat, pos': nat)
    requires pos < |text| && |quad| == 4 && done <= out.Length && outSize <= out.Length
    modifies out
    ensures pos < pos' <= |text| && |quad'| == 4
    ensures var toks := Tokens(text[pos..]);
            var n := if |toks| < 4 then |toks| else 4;
            && toks != [] && (room <==> outSize >= done + n - 1)
            && quad' == Fill(quad, toks, 0) && Tokens(text[pos'..]) == toks[n..]
            && (room ==>
                  var bytes := Bytes(quad', Counted(toks));
                  && done' == done + Counted(toks) - 1
                  && at == done + |bytes| <= out.Length
                  && (bytes != [] ==> at <= outSize)
                  && (pos' < |text| ==> done' == at)
                  && out[..at] == old(out[..done]) + bytes)
            && (!room ==> at == done && out[..] == old(out[..]))
    ensures forall i :: 0 <= i < out.Length && i >= done && i >= outSize ==> out[i] == old(out[i])
  {
    ghost var toks := Tokens(text[pos..]);
    var len, c;
    quad', len, c, pos' := ReadQuad(text, pos, quad);
    EndOfTokens(text, pos');
    done', at := done, done;
    room := outSize >= done + len - 1;
    if !room {
      return;
    }
    if pos' == |text| && c == '=' {
      len := len - 1;
    }
    assert len == Counted(toks);
    at := WriteQuad(quad', len, out, done);
    done' := done + len - 1;
  }

  /** One group taken off the front of the specification */
  lemma DecodeNext(toks: seq<Token>, quad: seq<byte>, done: int, outSize: int, bytes: seq<byte>, rest: Decoded)
    requires |quad| == 4 && toks != []
    requires var n := if |toks| < 4 then |toks| else 4;
             var quad' := Fill(quad, toks, 0);
             outSize >= done + n - 1 ==>
               && bytes == Bytes(quad', Counted(toks))
               && rest == Decode(toks[n..], quad', done + Counted(toks) - 1, outSize)
    ensures var n := if |toks| < 4 then |toks| else 4;
            Decode(toks, quad, done, outSize)
            == if outSize >= done + n - 1 then rest.(out := bytes + rest.out) else Decoded(-1, [], false)
  {
  }

  /** The decoder's loop */
  method DecodeGroups(text: string, garbage: seq<byte>, out: array<byte>, outSize: int)
    returns (room: bool, done: int, at: nat)
    requires |garbage| == 4 && outSize <= out.Length
    modifies out
    ensures at <= out.Length
    ensures Decode(Tokens(text), garbage, 0, outSize)
         == Decoded(if room && done + 1 < outSize then done else -1, out[..at], room && done + 1 < outSize)
    ensures forall i :: 0 <= i < out.Length && i >= outSize ==> out[i] == old(out[i])
  {
    ghost var whole := Decode(Tokens(text), garbage, 0, outSize);
    var pos := 0;
    room, done, at := true, 0, 0;
    var quad := garbage;
    assert text[0..] == text;
    ghost var left := whole;
    while pos < |text|
      invariant 0 <= pos <= |text| && |quad| == 4 && room
      invariant at <= out.Length && (at == 0 || at <= outSize)
      invariant pos < |text| ==> done == at
      invariant left == Decode(Tokens(text[pos..]), quad, done, outSize)
      invariant whole == left.(out := out[..at] + left.out)
      invariant forall i :: 0 <= i < out.Length && i >= outSize ==> out[i] == old(out[i])
    {
      ghost var before, toks, quad0, done0 := out[..at], Tokens(text[pos..]), quad, done;
      room, quad, done, at, pos := DecodeGroup(text, pos, quad, done, out, outSize);
      ghost var bytes := if room then Bytes(quad, Counted(toks)) else [];
      ghost var rest := if room then Decode(Tokens(text[pos..]), quad, done, outSize) else left;
      DecodeNext(toks, quad0, done0, outSize, bytes, rest);
      if !room {
        assert out[..at] == before;
        return;
      }
      left := rest;
      Assoc(before, bytes, left.out);
    }
    assert text[pos..] == [];
  }

  /** _lws_b64_decode_string(); `garbage` is what its uninitialised quad happens to hold.  Nothing at or past
      `outSize` is touched. */
  method DecodeString(text: string, garbage: seq<byte>, out: array<byte>, outSize: int) returns (ret: int)
    requires |garbage| == 4 && outSize <= out.Length
    modifies out
    ensures var r := Decode(Tokens(text), garbage, 0, outSize);
            && ret == r.ret
            && |r.out| <= out.Length && out[..|r.out|] == r.out
            && (r.terminated ==> |r.out| < out.Length && out[|r.out|] == 0)
    ensures forall i :: 0 <= i < out.Length && i >= outSize ==> out[i] == old(out[i])
  {
    DecodingStaysInBounds(Tokens(text), garbage, 0, outSize);
    var room, done, at := DecodeGroups(text, garbage, out, outSize);
    if !room || done + 1 >= outSize {
      return -1;
    }
    out[at] := 0;
    ret := done;
  }
}
