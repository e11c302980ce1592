/** Alias generation: the aliasing strategy interface with its one
    implementation (uniform draws from a 62-symbol pool) and the generator
    that asks it for an alias of the fixed short-URL length. The random number
    generator is an oracle: `rng(i)` is the raw value behind the i-th draw. */
module Aliasing {
  import opened Results

  /** The pool literal "0123456789ABC...XYZabc...xyz", written as its three
      runs: digits, then upper-case, then lower-case letters. */
  const CharPool: string := Digits + UpperCase + LowerCase
  const Digits: string := "0123456789"
  const UpperCase: string := "ABCDEFGHIJKLMNOPQRSTUVWXYZ"
  const LowerCase: string := "abcdefghijklmnopqrstuvwxyz"

  /** Length of every generated alias. */
  const ShortUrlLen: int := 8

  predicate IsAlphanumeric(c: char) {
    '0' <= c <= '9' || 'A' <= c <= 'Z' || 'a' <= c <= 'z'
  }

  /** The pool symbol at position `i`, by its arithmetic description. */
  function PoolChar(i: nat): (c: char)
    requires i < 62
    ensures IsAlphanumeric(c)
  {
    if i < 10 then ('0' as int + i) as char
    else if i < 36 then ('A' as int + (i - 10)) as char
    else ('a' as int + (i - 36)) as char
  }

  /** Position of an alphanumeric symbol in the pool. */
  function PoolIndex(c: char): (i: nat)
    requires IsAlphanumeric(c)
    ensures i < 62 && PoolChar(i) == c
  {
    if c <= '9' then (c as int - '0' as int)
    else if c <= 'Z' then (c as int - 'A' as int) + 10
    else (c as int - 'a' as int) + 36
  }

  /** The pool literal has 62 symbols, symbol `i` is `PoolChar(i)`, and every
      alphanumeric symbol occurs in it. */
  lemma CharPoolLayout()
    ensures |CharPool| == 62
    ensures forall i :: 0 <= i < 62 ==> CharPool[i] == PoolChar(i)
    ensures forall c :: IsAlphanumeric(c) ==> c in CharPool
  {
    forall i | 0 <= i < 62 ensures CharPool[i] == PoolChar(i) {
      if i < 10 {
        assert CharPool[i] == Digits[i];
      } else if i < 36 {
        assert CharPool[i] == UpperCase[i - 10];
      } else {
        assert CharPool[i] == LowerCase[i - 36];
      }
    }
    forall c | IsAlphanumeric(c) ensures c in CharPool {
      assert CharPool[PoolIndex(c)] == c;
    }
  }

  /** The pool holds 62 distinct symbols and nothing but alphanumerics, and
      `PoolIndex` inverts indexing into it. */
  lemma CharPoolIsAlphanumericSet()
    ensures forall i, j :: 0 <= i < j < |CharPool| ==> CharPool[i] != CharPool[j]
    ensures forall c :: c in CharPool <==> IsAlphanumeric(c)
    ensures forall i :: 0 <= i < |CharPool| ==> PoolIndex(CharPool[i]) == i
  {
    CharPoolLayout();
    forall i | 0 <= i < |CharPool| ensures PoolIndex(CharPool[i]) == i {
      assert CharPool[i] == PoolChar(i);
    }
  }

  /** Go's `r.Intn(len(charPool))`: the i-th draw reduced into the pool's
      index range, so indexing the pool never goes out of bounds. */
  function Draw(rng: nat -> nat, i: nat): (idx: nat)
    ensures idx < |CharPool|
  {
    rng(i) % |CharPool|
  }

  /** `simplAliasingStrategy.Alias`: `length` symbols, the i-th picked by the
      i-th draw. `str` is not consulted; a negative length yields "". */
  function SimpleAlias(str: string, length: int, rng: nat -> nat): (alias: string)
    ensures |alias| == if length < 0 then 0 else length
    ensures forall i :: 0 <= i < |alias| ==> alias[i] == CharPool[Draw(rng, i)]
    decreases if length < 0 then 0 else length
  {
    if length <= 0 then ""
    else
      var prefix := SimpleAlias(str, length - 1, rng);
      var alias := prefix + [CharPool[Draw(rng, length - 1)]];
      assert forall i :: 0 <= i < |prefix| ==> alias[i] == prefix[i];
      alias
  }

  /** The aliasing-strategy interface; the simple strategy is its only
      implementation, carrying its random source. */
  datatype AliasingStrategy = SimpleAliasingStrategy(rng: nat -> nat) {
    function Alias(str: string, length: int): string {
      match this
      case SimpleAliasingStrategy(rng) => SimpleAlias(str, length, rng)
    }
  }

  /** `GenerateShortUrl`: asks the strategy for an alias of `ShortUrlLen`
      symbols for the URL; it never fails. */
  function GenerateShortUrl(originalUrl: string, strategy: AliasingStrategy): (r: Result<string, Error>)
    ensures r.Success?
    ensures |r.value| == ShortUrlLen
    ensures forall i :: 0 <= i < |r.value| ==> IsAlphanumeric(r.value[i])
    ensures r.value == strategy.Alias(originalUrl, ShortUrlLen)
  {
    var alias := strategy.Alias(originalUrl, ShortUrlLen);
    CharPoolLayout();
    assert forall i :: 0 <= i < |alias| ==> alias[i] == CharPool[Draw(strategy.rng, i)];
    Success(alias)
  }

  /** The generated alias does not depend on the URL: only on the random
      source and the fixed length. */
  lemma {:induction false} AliasIgnoresInput(s1: string, s2: string, length: int, rng: nat -> nat)
    ensures SimpleAlias(s1, length, rng) == SimpleAlias(s2, length, rng)
    decreases if length < 0 then 0 else length
  {
    if length > 0 {
      AliasIgnoresInput(s1, s2, length - 1, rng);
    }
  }

  /** An alias is never empty and is plain ASCII, so it is always a valid
      routing key. */
  lemma GeneratedAliasIsRoutable(originalUrl: string, strategy: AliasingStrategy)
    ensures GenerateShortUrl(originalUrl, strategy).value != ""
    ensures forall i :: 0 <= i < |GenerateShortUrl(originalUrl, strategy).value| ==>
      GenerateShortUrl(originalUrl, strategy).value[i] as int < 0x80
  {
  }
}
