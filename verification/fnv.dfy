/** The 64-bit FNV-1a hash that places records on shards (Go's
    `hash/fnv.New64a`, the FNV-1a variant of the IETF draft "The FNV
    Non-Cryptographic Hash Algorithm"): start from the offset basis and, for
    every byte, xor it into the low bits and multiply by the FNV prime modulo
    2^64.
    `bv64` arithmetic is arithmetic modulo 2^64, so no explicit wrap is needed. */
module Fnv {
  import Utf8

  /** 14695981039346656037, the 64-bit offset basis. */
  const OffsetBasis: bv64 := 0xcbf2_9ce4_8422_2325

  /** 1099511628211 = 2^40 + 2^8 + 0xb3, the 64-bit FNV prime. */
  const Prime: bv64 := 0x0000_0100_0000_01b3

  /** One round: xor the byte in, then multiply (wrapping at 2^64). */
  function Step(h: bv64, b: Utf8.uint8): bv64 {
    (h ^ b as bv64) * Prime
  }

  /** The byte fold, continuing from hash state `h`. */
  function Fold(h: bv64, bytes: seq<Utf8.uint8>): bv64
    decreases |bytes|
  {
    if |bytes| == 0 then h else Fold(Step(h, bytes[0]), bytes[1..])
  }

  /** Hash of a string: the fold over its UTF-8 bytes from the offset basis. */
  function Hash(s: string): (h: bv64)
    ensures |s| == 0 ==> h == OffsetBasis
    ensures |s| > 0 ==>
      h == Fold(Fold(OffsetBasis, Utf8.Encode(s[..|s| - 1])), Utf8.EncodeChar(s[|s| - 1]))
  {
    if |s| > 0 then
      var init, last := s[..|s| - 1], s[|s| - 1];
      assert s == init + [last];
      Utf8.EncodeAppend(init, [last]);
      assert Utf8.Encode([last]) == Utf8.EncodeChar(last) by {
        assert [last][1..] == [];
      }
      FoldAppend(OffsetBasis, Utf8.Encode(init), Utf8.EncodeChar(last));
      Fold(OffsetBasis, Utf8.Encode(s))
    else
      Fold(OffsetBasis, Utf8.Encode(s))
  }

  /** The fold is incremental: folding a concatenation is folding the second
      part from the state the first part left. */
  lemma {:induction false} FoldAppend(h: bv64, a: seq<Utf8.uint8>, b: seq<Utf8.uint8>)
    ensures Fold(h, a + b) == Fold(Fold(h, a), b)
    decreases |a|
  {
    if |a| == 0 {
      assert a + b == b;
    } else {
      assert (a + b)[0] == a[0];
      assert (a + b)[1..] == a[1..] + b;
      FoldAppend(Step(h, a[0]), a[1..], b);
    }
  }

  /** The hash of the empty string is the offset basis itself. */
  lemma HashEmpty()
    ensures Hash("") == OffsetBasis
  {
  }

  /** Hashing a concatenation continues the fold from the hash of the prefix
      over the bytes of the suffix. */
  lemma HashAppend(s: string, t: string)
    ensures Hash(s + t) == Fold(Hash(s), Utf8.Encode(t))
  {
    Utf8.EncodeAppend(s, t);
    FoldAppend(OffsetBasis, Utf8.Encode(s), Utf8.Encode(t));
  }

  /** The byte loop of Go's `fnv.New64a().Write(data)` followed by `Sum64()`:
      it computes the same value as the fold. */
  method HashBytes(data: seq<Utf8.uint8>) returns (h: bv64)
    ensures h == Fold(OffsetBasis, data)
  {
    h := OffsetBasis;
    var i := 0;
    while i < |data|
      invariant 0 <= i <= |data|
      invariant Fold(h, data[i..]) == Fold(OffsetBasis, data)
    {
      assert data[i..][0] == data[i];
      assert data[i..][1..] == data[i + 1..];
      h := Step(h, data[i]);
      i := i + 1;
    }
    assert data[i..] == [];
  }

  /** Published test vectors of 64-bit FNV-1a. */
  lemma TestVectors()
    ensures Hash("a") == 0xaf63_dc4c_8601_ec8c
    ensures Hash("abc") == 0xe71f_a219_0541_574b
  {
    assert Utf8.Encode("a") == [0x61];
    assert Utf8.Encode("abc") == [0x61, 0x62, 0x63];
    assert Fold(OffsetBasis, [0x61]) == Fold(Step(OffsetBasis, 0x61), []);
    var h1 := Step(OffsetBasis, 0x61);
    assert h1 == 0xaf63_dc4c_8601_ec8c;
    var h2 := Step(h1, 0x62);
    var h3 := Step(h2, 0x63);
    assert h3 == 0xe71f_a219_0541_574b;
    var abc: seq<Utf8.uint8> := [0x61, 0x62, 0x63];
    assert abc[1..] == [0x62, 0x63];
    assert Fold(OffsetBasis, [0x61, 0x62, 0x63]) == Fold(h1, [0x62, 0x63]);
    assert Fold(h1, [0x62, 0x63]) == Fold(h2, [0x63]);
    assert Fold(h2, [0x63]) == h3;
  }
}
