/** The save card's sector cipher and checksum (tools/card_save_semantic_diff.py). */
module CardCipher {
  type B = bv8

  const START: seq<B> :=
    [0x01, 0x23, 0x45, 0x67, 0x89, 0xAB, 0xCD, 0xEF, 0xFE, 0xDC, 0xBA, 0x98, 0x76, 0x54, 0x32, 0x10]

  /** The key byte a previous byte selects. */
  function Key(previous: B): B {
    var k := previous % 13;
    if k == 0 then 0x26 else if k == 1 then 0xFF else if k == 2 then 0xE8 else if k == 3 then 0xEF
    else if k == 4 then 0x42 else if k == 5 then 0xD6 else if k == 6 then 0x01 else if k == 7 then 0x54
    else if k == 8 then 0x14 else if k == 9 then 0xA3 else if k == 10 then 0x80 else if k == 11 then 0xFD else 0x6E
  }

  /** The bits of `c`, moved to the places that selector `n` names. */
  function Scramble(n: B, c: B): B {
    if n == 0 then
      (c & 1) | ((c << 1) & 4) | ((c << 2) & 16) | ((c << 3) & 64) | ((c >> 3) & 2) | ((c >> 2) & 8) | ((c >> 1) & 32)
        | (c & 128)
    else if n == 1 then
      ((c << 1) & 2) | ((c << 6) & 128) | (c & 4) | ((c >> 3) & 1) | ((c << 1) & 32) | ((c >> 1) & 16) | ((c >> 3) & 8)
        | ((c >> 1) & 64)
    else if n == 2 then
      ((c & 1) << 2) | ((c << 2) & 8) | ((c << 4) & 64) | ((c << 1) & 16) | ((c << 3) & 128) | ((c >> 4) & 2)
        | ((c >> 6) & 1) | ((c >> 2) & 32)
    else if n == 3 then
      ((c << 4) & 16) | ((c >> 1) & 1) | ((c << 3) & 32) | ((c >> 2) & 2) | ((c >> 1) & 8) | ((c << 1) & 64)
        | ((c << 1) & 128) | ((c >> 5) & 4)
    else if n == 4 then
      ((c << 3) & 8) | ((c << 4) & 32) | ((c >> 1) & 2) | ((c << 4) & 128) | ((c << 2) & 64) | ((c >> 3) & 4)
        | ((c >> 2) & 16) | ((c >> 7) & 1)
    else if n == 5 then
      ((c & 1) << 5) | ((c << 5) & 64) | ((c & 4) << 5) | (c & 8) | ((c >> 2) & 4) | ((c >> 5) & 1) | ((c >> 5) & 2)
        | ((c >> 3) & 16)
    else
      ((c << 6) & 64) | (c & 2) | ((c >> 2) & 1) | ((c << 2) & 32) | (c & 16) | ((c << 2) & 128) | ((c >> 4) & 4)
        | ((c >> 4) & 8)
  }

  /** The bits moved back. */
  function Unscramble(n: B, v: B): B {
    if n == 0 then
      (v & 1) | ((v >> 1) & 2) | ((v >> 2) & 4) | ((v >> 3) & 8) | ((v << 3) & 16) | ((v << 2) & 32) | ((v << 1) & 64)
        | (v & 128)
    else if n == 1 then
      ((v >> 1) & 1) | ((v >> 6) & 2) | (v & 4) | ((v << 3) & 8) | ((v >> 1) & 16) | ((v << 1) & 32) | ((v << 3) & 64)
        | ((v << 1) & 128)
    else if n == 2 then
      ((v >> 2) & 1) | ((v >> 2) & 2) | ((v >> 4) & 4) | ((v >> 1) & 8) | ((v >> 3) & 16) | ((v << 4) & 32)
        | ((v << 6) & 64) | ((v << 2) & 128)
    else if n == 3 then
      ((v >> 4) & 1) | ((v << 1) & 2) | ((v >> 3) & 4) | ((v << 2) & 8) | ((v << 1) & 16) | ((v >> 1) & 32)
        | ((v >> 1) & 64) | ((v << 5) & 128)
    else if n == 4 then
      ((v >> 3) & 1) | ((v >> 4) & 2) | ((v << 1) & 4) | ((v >> 4) & 8) | ((v >> 2) & 16) | ((v << 3) & 32)
        | ((v << 2) & 64) | ((v << 7) & 128)
    else if n == 5 then
      ((v >> 5) & 1) | ((v >> 5) & 2) | ((v >> 5) & 4) | (v & 8) | ((v << 2) & 16) | ((v << 5) & 32) | ((v << 5) & 64)
        | ((v << 3) & 128)
    else
      ((v >> 6) & 1) | (v & 2) | ((v << 2) & 4) | ((v >> 2) & 8) | (v & 16) | ((v >> 2) & 32) | ((v << 4) & 64)
        | ((v << 4) & 128)
  }

  function DecryptByte(previous: B, current: B): B {
    Scramble(previous % 7, current) ^ Key(previous) ^ previous
  }

  function EncryptByte(previous: B, plain: B): B {
    Unscramble(previous % 7, plain ^ Key(previous) ^ previous)
  }

  lemma ScrambleInverse(n: B, c: B)
    requires n < 7
    ensures Unscramble(n, Scramble(n, c)) == c && Scramble(n, Unscramble(n, c)) == c
  {
    if n == 0 {} else if n == 1 {} else if n == 2 {} else if n == 3 {} else if n == 4 {} else if n == 5 {} else {}
  }

  lemma XorTwice(a: B, k: B, p: B)
    ensures (a ^ k ^ p) ^ k ^ p == a
  {}

  /** For every previous byte, decryption is a bijection of the current one. */
  lemma ByteRoundTrip(previous: B, b: B)
    ensures EncryptByte(previous, DecryptByte(previous, b)) == b
    ensures DecryptByte(previous, EncryptByte(previous, b)) == b
  {
    hide Key, Scramble, Unscramble;
    var n := previous % 7;
    ScrambleInverse(n, b);
    XorTwice(Scramble(n, b), Key(previous), previous);
    XorTwice(b, Key(previous), previous);
    ScrambleInverse(n, b ^ Key(previous) ^ previous);
  }
}
