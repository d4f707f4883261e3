/**
 The two string hashes of src/hashtable.c. A string is a C string without its terminating
 NUL, one `char` per byte; arithmetic is on 64-bit words and wraps.
 */
module Hashing {
  import opened Primes

  /** The hash that gives a key's first probe, and the one that gives its step, less one. */
  datatype Hashes = Hashes(first: string -> nat, second: string -> nat)

  const DJB: Hashes := Hashes(Djb2, Djb2a)

  /** One round of djb2, ((hash << 5) + hash) + c on a 64-bit word. */
  function Djb2Round(h: nat, c: char): (h': nat)
    ensures h' < SIZE_T_LIMIT
  {
    ((h * 32) % SIZE_T_LIMIT + h + c as nat) % SIZE_T_LIMIT
  }

  /** One round of djb2a, ((hash << 5) + hash) ^ c. */
  function Djb2aRound(h: bv64, c: char): bv64 {
    ((h << 5) + h) ^ (c as bv64)
  }

  function Djb2(key: string): (h: nat)
    ensures h < SIZE_T_LIMIT
  {
    if key == "" then 5381 else Djb2Round(Djb2(key[..|key| - 1]), key[|key| - 1])
  }

  function Djb2aWord(key: string): bv64 {
    if key == "" then 5381 else Djb2aRound(Djb2aWord(key[..|key| - 1]), key[|key| - 1])
  }

  function Djb2a(key: string): (h: nat)
    ensures h < SIZE_T_LIMIT
  {
    Djb2aWord(key) as nat
  }

  lemma PrefixRounds(key: string, i: nat)
    requires i < |key|
    ensures Djb2(key[..i + 1]) == Djb2Round(Djb2(key[..i]), key[i])
    ensures Djb2aWord(key[..i + 1]) == Djb2aRound(Djb2aWord(key[..i]), key[i])
  {
    assert key[..i + 1][..i] == key[..i];
  }

  /** djb2: the scanning loop computes the left fold over the bytes of the key. */
  method ComputeDjb2(key: string) returns (h: nat)
    ensures h == Djb2(key)
  {
    h := 5381;
    var i := 0;
    while i < |key|
      invariant 0 <= i <= |key|
      invariant h == Djb2(key[..i])
    {
      PrefixRounds(key, i);
      h := Djb2Round(h, key[i]);
      i := i + 1;
    }
    assert key[..i] == key;
  }

  /** djb2a: as djb2, with exclusive or in place of the last addition. */
  method ComputeDjb2a(key: string) returns (h: nat)
    ensures h == Djb2a(key)
  {
    var hash: bv64 := 5381;
    var i := 0;
    while i < |key|
      invariant 0 <= i <= |key|
      invariant hash == Djb2aWord(key[..i])
    {
      PrefixRounds(key, i);
      hash := Djb2aRound(hash, key[i]);
      i := i + 1;
    }
    assert key[..i] == key;
    h := hash as nat;
  }

  // ---------------------------------------------------------------- what the hashes are

  function Pow33(n: nat): (p: nat)
    ensures p >= 1
  {
    if n == 0 then 1 else 33 * Pow33(n - 1)
  }

  /** The bytes of a key as the digits of a number to the base 33, the first one highest. */
  function Digits(key: string): nat {
    if key == "" then 0 else key[0] as nat * Pow33(|key| - 1) + Digits(key[1..])
  }

  lemma {:induction false} DigitsSnoc(key: string, c: char)
    ensures Digits(key + [c]) == 33 * Digits(key) + c as nat
  {
    if key == "" {
      assert Digits([c]) == c as nat * Pow33(0) + Digits([c][1..]);
    } else {
      assert (key + [c])[1..] == key[1..] + [c];
      DigitsSnoc(key[1..], c);
      DigitCarried(key[0] as nat, Pow33(|key| - 1));
    }
  }

  lemma DigitCarried(d: nat, p: nat)
    ensures d * (33 * p) == 33 * (d * p)
  {
  }

  lemma RoundIsTimes33(x: nat, c: char)
    ensures Djb2Round(x % SIZE_T_LIMIT, c) == (33 * x + c as nat) % SIZE_T_LIMIT
  {
    var h := x % SIZE_T_LIMIT;
    assert x == (x / SIZE_T_LIMIT) * SIZE_T_LIMIT + h;
    assert (h * 32) == ((h * 32) / SIZE_T_LIMIT) * SIZE_T_LIMIT + (h * 32) % SIZE_T_LIMIT;
    SameModulo((h * 32) % SIZE_T_LIMIT + h + c as nat, 33 * x + c as nat,
               33 * (x / SIZE_T_LIMIT) + (h * 32) / SIZE_T_LIMIT);
  }

  lemma SameModulo(a: nat, b: nat, k: nat)
    requires b == a + k * SIZE_T_LIMIT
    ensures a % SIZE_T_LIMIT == b % SIZE_T_LIMIT
  {
    var q := a / SIZE_T_LIMIT;
    assert a == q * SIZE_T_LIMIT + a % SIZE_T_LIMIT;
    assert b == (q + k) * SIZE_T_LIMIT + a % SIZE_T_LIMIT;
    DivModUnique(q + k, SIZE_T_LIMIT, a % SIZE_T_LIMIT);
  }

  lemma StartCarried(p: nat, d: nat, c: nat)
    ensures 33 * (5381 * p + d) + c == 5381 * (33 * p) + (33 * d + c)
  {
  }

  /** djb2 is the number whose digits to the base 33 are 5381 and the bytes of the key, modulo 2^64. */
  lemma {:induction false} Djb2IsPolynomial(key: string)
    ensures Djb2(key) == (5381 * Pow33(|key|) + Digits(key)) % 0x1_0000_0000_0000_0000
    decreases |key|
  {
    if key != "" {
      var n := |key| - 1;
      Djb2IsPolynomial(key[..n]);
      assert key[..n] + [key[n]] == key;
      DigitsSnoc(key[..n], key[n]);
      RoundIsTimes33(5381 * Pow33(n) + Digits(key[..n]), key[n]);
      StartCarried(Pow33(n), Digits(key[..n]), key[n] as nat);
    }
  }

  lemma ShiftedIsTimes33(h: bv64, b: bv64)
    ensures ((h << 5) + h) ^ b == (33 * h) ^ b
  {
  }

  lemma Djb2aRoundIsTimes33(h: bv64, c: char)
    ensures Djb2aRound(h, c) == (33 * h) ^ (c as bv64)
  {
    ShiftedIsTimes33(h, c as bv64);
  }

  lemma Djb2aAppended(key: string, c: char, h: bv64)
    requires h == Djb2aWord(key)
    ensures Djb2aWord(key + [c]) == Djb2aRound(h, c)
  {
    assert (key + [c])[..|key|] == key;
  }

  /** djb2a of one more byte: 33 times the hash so far, exclusive or the byte. */
  lemma Djb2aOfOneMore(key: string, c: char, h: bv64, byte: bv64)
    requires h == Djb2aWord(key) && byte == c as bv64
    ensures Djb2aWord(key + [c]) == (33 * h) ^ byte
  {
    Djb2aAppended(key, c, h);
    Djb2aRoundIsTimes33(h, c);
  }
}
