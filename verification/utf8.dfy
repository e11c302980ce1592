/** The byte view of a string. Go converts a string to `[]byte` as its UTF-8
    encoding; the model's strings are sequences of Unicode scalar values, so the
    conversion is written out here (RFC 3629, section 3). */
module Utf8 {

  /** Whether a string consists of ASCII characters only (every alias is). */
  predicate IsAscii(s: string) {
    forall i :: 0 <= i < |s| ==> s[i] as int < 0x80
  }

  /** An octet, Go's `byte`. */
  newtype uint8 = x: int | 0 <= x < 0x100

  /** The value of a byte, as a number. */
  function Val(b: uint8): (v: nat)
    ensures v < 0x100
  {
    b as int
  }

  /** The byte whose value is `x`. */
  function Byte(x: int): (b: uint8)
    requires 0 <= x < 0x100
    ensures Val(b) == x
  {
    x as uint8
  }

  /** A continuation byte carrying the low six bits of `x`. */
  function Continuation(x: nat): (b: uint8)
    ensures 0x80 <= Val(b) < 0xC0
    ensures Val(b) % 0x40 == x % 0x40
  {
    Byte(0x80 + x % 0x40)
  }

  /** The number of bytes in a sequence that starts with `lead`: 1 for ASCII,
      2, 3 or 4 for the lead-byte ranges 110xxxxx, 1110xxxx and 11110xxx, and 0
      for a byte that cannot start a sequence (RFC 3629, section 3). */
  function SequenceLength(lead: uint8): nat {
    var v := Val(lead);
    if v < 0x80 then 1
    else if 0xC0 <= v < 0xE0 then 2
    else if 0xE0 <= v < 0xF0 then 3
    else if 0xF0 <= v < 0xF8 then 4
    else 0
  }

  /** The UTF-8 encoding of one scalar value: a single byte exactly for ASCII
      (the code point itself), two bytes below U+0800, three below U+10000 and
      four above, each multi-byte sequence a lead byte announcing its length
      followed by continuation bytes 10xxxxxx. */
  function EncodeChar(c: char): (bytes: seq<uint8>)
    ensures 1 <= |bytes| <= 4
    ensures |bytes| == 1 <==> c as int < 0x80
    ensures |bytes| == 2 <==> 0x80 <= c as int < 0x800
    ensures |bytes| == 3 <==> 0x800 <= c as int < 0x1_0000
    ensures |bytes| == 4 <==> 0x1_0000 <= c as int
    ensures |bytes| == 1 ==> bytes[0] == Byte(c as int)
    ensures SequenceLength(bytes[0]) == |bytes|
    ensures forall i :: 1 <= i < |bytes| ==> 0x80 <= Val(bytes[i]) < 0xC0
  {
    var n: nat := c as int;
    if n < 0x80 then
      [Byte(n)]
    else if n < 0x800 then
      assert n / 0x40 < 0x20;
      [Byte(0xC0 + n / 0x40), Continuation(n)]
    else if n < 0x1_0000 then
      assert n / 0x1000 < 0x10;
      [Byte(0xE0 + n / 0x1000), Continuation(n / 0x40), Continuation(n)]
    else
      assert n / 0x4_0000 < 0x8;
      [Byte(0xF0 + n / 0x4_0000), Continuation(n / 0x1000), Continuation(n / 0x40), Continuation(n)]
  }

  /** The code point a well-formed sequence of one to four bytes denotes: the
      payload bits of the lead byte followed by six bits from each continuation
      byte. */
  function DecodeChar(bytes: seq<uint8>): (n: nat)
    requires 1 <= |bytes| <= 4 && SequenceLength(bytes[0]) == |bytes|
  {
    var lead := Val(bytes[0]);
    if |bytes| == 1 then lead
    else if |bytes| == 2 then (lead % 0x20) * 0x40 + Val(bytes[1]) % 0x40
    else if |bytes| == 3 then
      (lead % 0x10) * 0x1000 + (Val(bytes[1]) % 0x40) * 0x40 + Val(bytes[2]) % 0x40
    else
      (lead % 0x08) * 0x4_0000 + (Val(bytes[1]) % 0x40) * 0x1000
        + (Val(bytes[2]) % 0x40) * 0x40 + Val(bytes[3]) % 0x40
  }

  /** Splitting off six bits: `x` is its quotient by 64 shifted back plus the
      low six bits, and dividing by 64 twice divides by 4096. */
  lemma SplitSix(x: nat)
    ensures x == (x / 0x40) * 0x40 + x % 0x40
    ensures x / 0x40 / 0x40 == x / 0x1000
    ensures x / 0x1000 / 0x40 == x / 0x4_0000
  {
  }

  /** Decoding a two-byte lead and continuation byte. */
  lemma DecodeTwo(n: nat, bytes: seq<uint8>)
    requires 0x80 <= n < 0x800
    requires bytes == [Byte(0xC0 + n / 0x40), Continuation(n)]
    ensures SequenceLength(bytes[0]) == 2 && DecodeChar(bytes) == n
  {
    var q1 := n / 0x40;
    SplitSix(n);
    assert Val(bytes[0]) % 0x20 == q1;
  }

  /** Decoding a three-byte sequence. */
  lemma DecodeThree(n: nat, bytes: seq<uint8>)
    requires 0x800 <= n < 0x1_0000
    requires bytes == [Byte(0xE0 + n / 0x1000), Continuation(n / 0x40), Continuation(n)]
    ensures SequenceLength(bytes[0]) == 3 && DecodeChar(bytes) == n
  {
    var q1 := n / 0x40;
    SplitSix(n);
    SplitSix(q1);
    assert Val(bytes[0]) % 0x10 == q1 / 0x40;
  }

  /** Decoding a four-byte sequence. */
  lemma DecodeFour(n: nat, bytes: seq<uint8>)
    requires 0x1_0000 <= n < 0x20_0000
    requires bytes == [Byte(0xF0 + n / 0x4_0000), Continuation(n / 0x1000), Continuation(n / 0x40), Continuation(n)]
    ensures SequenceLength(bytes[0]) == 4 && DecodeChar(bytes) == n
  {
    var q1 := n / 0x40;
    SplitSix(n);
    SplitSix(q1);
    SplitSix(q1 / 0x40);
    assert Val(bytes[0]) % 0x08 == q1 / 0x40 / 0x40;
  }

  /** Decoding the encoding of a character gives back its code point. */
  lemma DecodeEncodeChar(c: char)
    ensures DecodeChar(EncodeChar(c)) == c as int
  {
    var n: nat := c as int;
    if 0x80 <= n < 0x800 {
      DecodeTwo(n, EncodeChar(c));
    } else if 0x800 <= n < 0x1_0000 {
      DecodeThree(n, EncodeChar(c));
    } else if 0x1_0000 <= n {
      DecodeFour(n, EncodeChar(c));
    }
  }

  /** The UTF-8 encoding of a string: the encodings of its characters, in order. */
  function Encode(s: string): (bytes: seq<uint8>)
    ensures |s| <= |bytes| <= 4 * |s|
    ensures |bytes| == |s| <==> IsAscii(s)
  {
    if |s| == 0 then []
    else
      assert IsAscii(s) <==> s[0] as int < 0x80 && IsAscii(s[1..]) by {
        assert forall i :: 0 < i < |s| ==> s[i] == s[1..][i - 1];
      }
      EncodeChar(s[0]) + Encode(s[1..])
  }

  /** Encoding distributes over concatenation, so a byte-wise fold over a
      concatenation can be split at the string boundary. */
  lemma {:induction false} EncodeAppend(s: string, t: string)
    ensures Encode(s + t) == Encode(s) + Encode(t)
  {
    if |s| == 0 {
      assert s + t == t;
    } else {
      assert (s + t)[1..] == s[1..] + t;
      EncodeAppend(s[1..], t);
    }
  }

  /** An ASCII string encodes to one byte per character, each equal to the
      character's code. */
  lemma {:induction false} EncodeAscii(s: string)
    requires IsAscii(s)
    ensures |Encode(s)| == |s|
    ensures forall i :: 0 <= i < |s| ==> Encode(s)[i] == Byte(s[i] as int)
  {
    if |s| > 0 {
      assert IsAscii(s[1..]) by {
        forall i | 0 <= i < |s[1..]| ensures s[1..][i] as int < 0x80 {
          assert s[1..][i] == s[i + 1];
        }
      }
      EncodeAscii(s[1..]);
      assert Encode(s) == EncodeChar(s[0]) + Encode(s[1..]);
      forall i | 0 <= i < |s| ensures Encode(s)[i] == Byte(s[i] as int) {
        if i > 0 {
          assert Encode(s)[i] == Encode(s[1..])[i - 1];
          assert s[i] == s[1..][i - 1];
        }
      }
    }
  }
}
