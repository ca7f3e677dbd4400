/** UTF-8 as Python's `str.encode` and `bytes.decode(errors='replace')` perform it (RFC 3629, section 3). */
module Utf8 {
  type Byte = b: int | 0 <= b < 256

  /** A character that can be encoded: any code point except the surrogates. */
  type Scalar = c: int | 0 <= c < 0x110000 && !(0xD800 <= c < 0xE000)

  const REPLACEMENT: Scalar := 0xFFFD

  function EncodeScalar(c: Scalar): (bs: seq<Byte>)
    ensures 1 <= |bs| <= 4
  {
    if c < 0x80 then [c]
    else if c < 0x800 then [0xC0 + c / 64, 0x80 + c % 64]
    else if c < 0x10000 then [0xE0 + c / 4096, 0x80 + c / 64 % 64, 0x80 + c % 64]
    else [0xF0 + c / 262144, 0x80 + c / 4096 % 64, 0x80 + c / 64 % 64, 0x80 + c % 64]
  }

  function Encode(text: seq<Scalar>): seq<Byte> {
    if text == [] then [] else EncodeScalar(text[0]) + Encode(text[1..])
  }

  lemma {:induction false} EncodeConcat(a: seq<Scalar>, b: seq<Scalar>)
    ensures Encode(a + b) == Encode(a) + Encode(b)
  {
    if a == [] {
      assert a + b == b;
    } else {
      assert (a + b)[1..] == a[1..] + b;
      EncodeConcat(a[1..], b);
    }
  }

  /** ASCII text as characters. */
  function Ascii(s: string): (r: seq<Scalar>)
    ensures |r| == |s|
  {
    seq(|s|, i requires 0 <= i < |s| => s[i] as int % 128)
  }

  lemma {:induction false} EncodeAscii(text: seq<Scalar>)
    requires forall i :: 0 <= i < |text| ==> text[i] < 0x80
    ensures Encode(text) == text
  {
    if text != [] {
      EncodeAscii(text[1..]);
    }
  }

  /** How many bytes the sequence that starts with `b` has; 0 when `b` cannot start one. */
  function Need(b: Byte): nat {
    if b < 0x80 then 1
    else if b < 0xC2 then 0
    else if b < 0xE0 then 2
    else if b < 0xF0 then 3
    else if b < 0xF5 then 4
    else 0
  }

  /** The second byte's range rules out overlong forms, surrogates and values past U+10FFFF. */
  predicate Second(lead: Byte, b: Byte) {
    && 0x80 <= b < 0xC0
    && (lead == 0xE0 ==> 0xA0 <= b)
    && (lead == 0xED ==> b < 0xA0)
    && (lead == 0xF0 ==> 0x90 <= b)
    && (lead == 0xF4 ==> b < 0x90)
  }

  predicate Continuation(b: Byte) {
    0x80 <= b < 0xC0
  }

  /** Length of the longest prefix of `bs` that some well-formed sequence starts with, at least 1. */
  function Subpart(bs: seq<Byte>): (n: nat)
    requires bs != []
    ensures 1 <= n <= |bs| && n <= 4
  {
    var need := Need(bs[0]);
    if need < 2 || |bs| < 2 || !Second(bs[0], bs[1]) then 1
    else if need < 3 || |bs| < 3 || !Continuation(bs[2]) then 2
    else if need < 4 || |bs| < 4 || !Continuation(bs[3]) then 3
    else 4
  }

  function Low(b: Byte): int {
    b as int - 0x80
  }

  /** The code point of a well-formed sequence of `Need(bs[0])` bytes. */
  function Value(bs: seq<Byte>): int
    requires bs != [] && Need(bs[0]) <= |bs|
  {
    var b: int := bs[0];
    match Need(b)
    case 1 => b
    case 2 => (b - 0xC0) * 64 + Low(bs[1])
    case 3 => ((b - 0xE0) * 64 + Low(bs[1])) * 64 + Low(bs[2])
    case 4 => (((b - 0xF0) * 64 + Low(bs[1])) * 64 + Low(bs[2])) * 64 + Low(bs[3])
    case _ => 0
  }

  lemma ValueInRange(bs: seq<Byte>)
    requires bs != [] && Subpart(bs) == Need(bs[0])
    ensures 0 <= Value(bs) < 0x110000 && !(0xD800 <= Value(bs) < 0xE000)
  {
    var b: int := bs[0];
    if Need(b) == 3 {
      var v := (b - 0xE0) * 64 + Low(bs[1]);
      assert Value(bs) == v * 64 + Low(bs[2]);
      assert b == 0xED ==> v < 0xD800 / 64;
      assert b > 0xED ==> v >= 0xE000 / 64;
    }
  }

  /** One decoding step: the character produced and the bytes it used up. */
  function DecodeStep(bs: seq<Byte>): (r: (Scalar, nat))
    requires bs != []
    ensures 1 <= r.1 <= |bs|
  {
    var n := Subpart(bs);
    if n == Need(bs[0]) then
      ValueInRange(bs);
      (Value(bs), n)
    else (REPLACEMENT, n)
  }

  /** `bs.decode('utf-8', errors='replace')`. */
  function Decode(bs: seq<Byte>): seq<Scalar> {
    if bs == [] then [] else
      var (c, n) := DecodeStep(bs);
      [c] + Decode(bs[n..])
  }

  /** The four groups of bits that the encodings are made of. */
  lemma BitGroups(c: int)
    ensures c == c / 64 * 64 + c % 64
    ensures c / 64 == c / 4096 * 64 + c / 64 % 64
    ensures c / 4096 == c / 262144 * 64 + c / 4096 % 64
  {
    assert c / 64 / 64 == c / 4096 && c / 4096 / 64 == c / 262144;
  }

  lemma ValueOfLong(c: Scalar)
    requires c >= 0x800
    ensures Need(EncodeScalar(c)[0]) == |EncodeScalar(c)| && Value(EncodeScalar(c)) == c
  {
    BitGroups(c);
  }

  lemma ValueUndoesEncode(c: Scalar)
    ensures Need(EncodeScalar(c)[0]) == |EncodeScalar(c)| && Value(EncodeScalar(c)) == c
  {
    if c >= 0x800 {
      ValueOfLong(c);
    } else {
      assert c == c / 64 * 64 + c % 64;
    }
  }

  lemma SubpartOfTwo(c: Scalar, rest: seq<Byte>)
    requires 0x80 <= c < 0x800
    ensures Subpart(EncodeScalar(c) + rest) == 2
  {
    var bs := EncodeScalar(c) + rest;
    assert bs[0] == 0xC0 + c / 64 && bs[1] == 0x80 + c % 64;
  }

  lemma SubpartOfThree(c: Scalar, rest: seq<Byte>)
    requires 0x800 <= c < 0x10000
    ensures Subpart(EncodeScalar(c) + rest) == 3
  {
    var bs := EncodeScalar(c) + rest;
    assert bs[0] == 0xE0 + c / 4096 && bs[1] == 0x80 + c / 64 % 64 && bs[2] == 0x80 + c % 64;
  }

  lemma SubpartOfFour(c: Scalar, rest: seq<Byte>)
    requires 0x10000 <= c
    ensures Subpart(EncodeScalar(c) + rest) == 4
  {
    var bs := EncodeScalar(c) + rest;
    assert bs[0] == 0xF0 + c / 262144 && bs[1] == 0x80 + c / 4096 % 64;
    assert bs[2] == 0x80 + c / 64 % 64 && bs[3] == 0x80 + c % 64;
  }

  lemma SubpartOfEncoded(c: Scalar, rest: seq<Byte>)
    ensures Subpart(EncodeScalar(c) + rest) == |EncodeScalar(c)|
  {
    if c >= 0x10000 {
      SubpartOfFour(c, rest);
    } else if c >= 0x800 {
      SubpartOfThree(c, rest);
    } else if c >= 0x80 {
      SubpartOfTwo(c, rest);
    }
  }

  lemma StepUndoesEncode(c: Scalar, rest: seq<Byte>)
    ensures DecodeStep(EncodeScalar(c) + rest) == (c, |EncodeScalar(c)|)
  {
    ValueUndoesEncode(c);
    SubpartOfEncoded(c, rest);
    assert forall i :: 0 <= i < |EncodeScalar(c)| ==> (EncodeScalar(c) + rest)[i] == EncodeScalar(c)[i];
  }

  lemma DecodeScalar(c: Scalar, rest: seq<Byte>)
    ensures Decode(EncodeScalar(c) + rest) == [c] + Decode(rest)
  {
    StepUndoesEncode(c, rest);
    assert (EncodeScalar(c) + rest)[|EncodeScalar(c)|..] == rest;
  }

  function Joined(one: Scalar -> seq<Byte>, text: seq<Scalar>): seq<Byte> {
    if text == [] then [] else one(text[0]) + Joined(one, text[1..])
  }

  lemma {:induction false} EncodeIsJoined(text: seq<Scalar>)
    ensures Encode(text) == Joined(EncodeScalar, text)
  {
    if text != [] {
      EncodeIsJoined(text[1..]);
    }
  }

  /** Whatever undoes encoding of the first character undoes it for whole texts. */
  lemma {:induction false} PrefixBy(one: Scalar -> seq<Byte>, decode: seq<Byte> -> seq<Scalar>, text: seq<Scalar>, rest: seq<Byte>)
    requires forall c: Scalar, bs: seq<Byte> :: decode(one(c) + bs) == [c] + decode(bs)
    ensures decode(Joined(one, text) + rest) == text + decode(rest)
  {
    if text == [] {
      assert Joined(one, text) + rest == rest;
    } else {
      var tail := Joined(one, text[1..]) + rest;
      PrefixBy(one, decode, text[1..], rest);
      assert Joined(one, text) + rest == one(text[0]) + tail;
      assert text == [text[0]] + text[1..];
    }
  }

  /** Well-formed bytes at the front decode to their text, whatever follows them. */
  lemma DecodeEncodedPrefix(text: seq<Scalar>, rest: seq<Byte>)
    ensures Decode(Encode(text) + rest) == text + Decode(rest)
  {
    var decode := (bs: seq<Byte>) => Decode(bs);
    forall c: Scalar, bs: seq<Byte>
      ensures decode(EncodeScalar(c) + bs) == [c] + decode(bs)
    {
      DecodeScalar(c, bs);
    }
    EncodeIsJoined(text);
    PrefixBy(EncodeScalar, decode, text, rest);
  }

  /** Decoding undoes encoding, for every text that can be encoded. */
  lemma DecodeUndoesEncode(text: seq<Scalar>)
    ensures Decode(Encode(text)) == text
  {
    DecodeEncodedPrefix(text, []);
    assert Encode(text) + [] == Encode(text);
  }

  /** There are at most as many characters as bytes. */
  lemma {:induction false} DecodedLength(bs: seq<Byte>)
    ensures |Decode(bs)| <= |bs|
  {
    if bs != [] {
      DecodedLength(bs[DecodeStep(bs).1..]);
    }
  }

  /** A step that yields an ASCII character has read that byte. */
  lemma AsciiStep(bs: seq<Byte>)
    requires bs != [] && DecodeStep(bs).0 < 0x80
    ensures DecodeStep(bs) == (bs[0], 1)
  {
  }

  /** Only the bytes of an ASCII text decode to it. */
  lemma {:induction false} DecodedAscii(bs: seq<Byte>)
    requires forall i :: 0 <= i < |Decode(bs)| ==> Decode(bs)[i] < 0x80
    ensures Decode(bs) == bs
  {
    if bs != [] {
      assert Decode(bs)[0] == DecodeStep(bs).0;
      AsciiStep(bs);
      assert Decode(bs)[1..] == Decode(bs[1..]);
      forall i | 0 <= i < |Decode(bs[1..])|
        ensures Decode(bs[1..])[i] < 0x80
      {
        assert Decode(bs[1..])[i] == Decode(bs)[i + 1];
      }
      DecodedAscii(bs[1..]);
    }
  }

  /** An ASCII beginning of a decoded text is what the bytes begin with. */
  lemma {:induction false} DecodedAsciiBeginning(bs: seq<Byte>, n: nat)
    requires n <= |Decode(bs)| && forall i :: 0 <= i < n ==> Decode(bs)[i] < 0x80
    ensures n <= |bs| && bs[..n] == Decode(bs)[..n]
  {
    if n > 0 {
      assert Decode(bs)[0] == DecodeStep(bs).0;
      AsciiStep(bs);
      assert Decode(bs)[1..] == Decode(bs[1..]);
      forall i | 0 <= i < n - 1
        ensures Decode(bs[1..])[i] < 0x80
      {
        assert Decode(bs[1..])[i] == Decode(bs)[i + 1];
      }
      DecodedAsciiBeginning(bs[1..], n - 1);
      assert bs[..n] == [bs[0]] + bs[1..][..n - 1];
    }
  }

  /** ASCII bytes decode to themselves, whatever follows them. */
  lemma {:induction false} DecodeAsciiPrefix(ascii: seq<Byte>, rest: seq<Byte>)
    requires forall b :: b in ascii ==> b < 0x80
    ensures |Decode(ascii + rest)| >= |ascii| && Decode(ascii + rest)[..|ascii|] == ascii
  {
    if ascii != [] {
      var bs := ascii + rest;
      assert ascii[0] in ascii;
      assert DecodeStep(bs) == (ascii[0], 1);
      assert bs[1..] == ascii[1..] + rest;
      assert forall b :: b in ascii[1..] ==> b in ascii;
      DecodeAsciiPrefix(ascii[1..], rest);
    }
  }

  // ----- What happens to malformed bytes -----

  /** Whether the bytes may follow others without continuing a character of theirs. */
  predicate StartsAfresh(bs: seq<Byte>) {
    bs == [] || !Continuation(bs[0])
  }

  lemma StepIsLocal(a: seq<Byte>, b: seq<Byte>)
    requires a != [] && StartsAfresh(b)
    ensures DecodeStep(a + b) == DecodeStep(a)
  {
    var bs := a + b;
    assert forall i :: 0 <= i < |a| ==> bs[i] == a[i];
    assert |bs| > |a| ==> bs[|a|] == b[0];
  }

  lemma DecodeHead(a: seq<Byte>, b: seq<Byte>)
    requires a != [] && StartsAfresh(b)
    ensures Decode(a + b) == [DecodeStep(a).0] + Decode(a[DecodeStep(a).1..] + b)
  {
    StepIsLocal(a, b);
    assert (a + b)[DecodeStep(a).1..] == a[DecodeStep(a).1..] + b;
  }

  lemma GroupText(a: seq<Scalar>, b: seq<Scalar>, c: seq<Scalar>)
    ensures a + (b + c) == (a + b) + c
  {
  }

  /** Texts may be decoded in pieces, cut wherever no continuation byte follows, well-formed or not. */
  lemma {:induction false} DecodeConcat(a: seq<Byte>, b: seq<Byte>)
    requires StartsAfresh(b)
    ensures Decode(a + b) == Decode(a) + Decode(b)
    decreases |a|
  {
    if a == [] {
      assert a + b == b;
    } else {
      var rest := a[DecodeStep(a).1..];
      DecodeHead(a, b);
      DecodeConcat(rest, b);
      GroupText([DecodeStep(a).0], Decode(rest), Decode(b));
    }
  }

  /** The first `m` bytes begin the encoding of `c`. */
  predicate BeginsWith(bs: seq<Byte>, m: nat, c: Scalar) {
    m <= |bs| && m <= |EncodeScalar(c)| && bs[..m] == EncodeScalar(c)[..m]
  }

  lemma BeginningIsRead(bs: seq<Byte>, m: nat, c: Scalar)
    requires bs != [] && BeginsWith(bs, m, c)
    ensures Subpart(bs) >= m && (m > 0 ==> Need(bs[0]) == |EncodeScalar(c)|)
  {
    var e := EncodeScalar(c);
    SubpartOfEncoded(c, []);
    assert e + [] == e;
    ValueUndoesEncode(c);
    assert forall i :: 0 <= i < m ==> bs[i] == bs[..m][i] && e[i] == e[..m][i];
  }

  lemma ValueOfTwo(bs: seq<Byte>)
    requires |bs| >= 2 && Subpart(bs) == Need(bs[0]) == 2
    ensures 0x80 <= Value(bs) < 0x800 && [0xC0 + Value(bs) / 64, 0x80 + Value(bs) % 64] == bs[..2]
  {
    assert Value(bs) / 64 == bs[0] - 0xC0 && Value(bs) % 64 == Low(bs[1]);
  }

  lemma ValueOfThree(bs: seq<Byte>)
    requires |bs| >= 3 && Subpart(bs) == Need(bs[0]) == 3
    ensures 0x800 <= Value(bs) < 0x10000
    ensures [0xE0 + Value(bs) / 4096, 0x80 + Value(bs) / 64 % 64, 0x80 + Value(bs) % 64] == bs[..3]
  {
    var v := (bs[0] - 0xE0) * 64 + Low(bs[1]);
    assert Value(bs) == v * 64 + Low(bs[2]);
    assert Value(bs) / 64 == v && Value(bs) % 64 == Low(bs[2]);
    assert v / 64 == bs[0] - 0xE0 && v % 64 == Low(bs[1]);
    BitGroups(Value(bs));
  }

  lemma ValueOfFour(bs: seq<Byte>)
    requires |bs| >= 4 && Subpart(bs) == Need(bs[0]) == 4
    ensures 0x10000 <= Value(bs) < 0x110000
    ensures [0xF0 + Value(bs) / 262144, 0x80 + Value(bs) / 4096 % 64, 0x80 + Value(bs) / 64 % 64, 0x80 + Value(bs) % 64] == bs[..4]
  {
    var u := (bs[0] - 0xF0) * 64 + Low(bs[1]);
    var v := u * 64 + Low(bs[2]);
    assert Value(bs) == v * 64 + Low(bs[3]);
    assert Value(bs) / 64 == v && Value(bs) % 64 == Low(bs[3]);
    assert v / 64 == u && v % 64 == Low(bs[2]);
    assert u / 64 == bs[0] - 0xF0 && u % 64 == Low(bs[1]);
    BitGroups(Value(bs));
  }

  /** Encoding undoes reading a well-formed sequence. */
  lemma EncodeUndoesValue(bs: seq<Byte>)
    requires bs != [] && Subpart(bs) == Need(bs[0])
    ensures 0 <= Value(bs) < 0x110000 && !(0xD800 <= Value(bs) < 0xE000)
    ensures EncodeScalar(Value(bs)) == bs[..Need(bs[0])]
  {
    ValueInRange(bs);
    match Need(bs[0])
    case 2 => ValueOfTwo(bs);
    case 3 => ValueOfThree(bs);
    case 4 => ValueOfFour(bs);
    case _ =>
  }

  /** A prefix that is read in one piece begins some character. */
  lemma ReadBegins(bs: seq<Byte>) returns (c: Scalar)
    requires bs != [] && Subpart(bs) >= 2
    ensures BeginsWith(bs, Subpart(bs), c)
  {
    var n, need := Subpart(bs), Need(bs[0]);
    var whole := bs[..n] + if need == n then [] else if need == n + 1 then [0x80] else [0x80, 0x80];
    assert forall i :: 0 <= i < n ==> whole[i] == bs[i];
    assert |whole| == need && Subpart(whole) == need;
    EncodeUndoesValue(whole);
    c := Value(whole);
    assert whole[..need] == whole;
  }

  /**
   * Replacement, exactly: if the bytes begin with a whole character, that is decoded; otherwise one U+FFFD stands for
   * the longest beginning of a character that they begin with, or for one byte if they begin none (the substitution of
   * maximal subparts of the Unicode standard, section 3.9).
   */
  lemma StepReplacesMaximalSubpart(bs: seq<Byte>)
    requires bs != []
    ensures var (c, n) := DecodeStep(bs);
            if exists d :: EncodeScalar(d) <= bs then EncodeScalar(c) <= bs && n == |EncodeScalar(c)|
            else
              && c == REPLACEMENT && (n == 1 || exists d :: BeginsWith(bs, n, d))
              && forall m: nat, d :: BeginsWith(bs, m, d) ==> m <= n
  {
    var n := Subpart(bs);
    if n == Need(bs[0]) {
      EncodeUndoesValue(bs);
    } else {
      forall d: Scalar
        ensures !(EncodeScalar(d) <= bs)
      {
        if EncodeScalar(d) <= bs {
          BeginningIsRead(bs, |EncodeScalar(d)|, d);
        }
      }
      if n >= 2 {
        var d := ReadBegins(bs);
      }
      forall m: nat, d: Scalar | BeginsWith(bs, m, d)
        ensures m <= n
      {
        BeginningIsRead(bs, m, d);
      }
    }
  }

  /** A character that breaks off is one U+FFFD. */
  lemma BrokenCharacter(c: Scalar, m: nat)
    requires 0 < m < |EncodeScalar(c)|
    ensures Decode(EncodeScalar(c)[..m]) == [REPLACEMENT]
  {
    var bs := EncodeScalar(c)[..m];
    BeginningIsRead(bs, m, c);
    assert bs[m..] == [];
  }

  lemma TextStartsAfresh(text: seq<Scalar>)
    ensures StartsAfresh(Encode(text))
  {
    if text != [] {
      assert Encode(text)[0] == EncodeScalar(text[0])[0];
    }
  }

  /** A byte that begins no character is one U+FFFD. */
  lemma StrayByte(b: Byte)
    requires Need(b) == 0
    ensures Decode([b]) == [REPLACEMENT] && forall c :: !BeginsWith([b], 1, c)
  {
    assert [b][1..] == [];
    forall c: Scalar
      ensures !BeginsWith([b], 1, c)
    {
      if BeginsWith([b], 1, c) {
        BeginningIsRead([b], 1, c);
      }
    }
  }
}
