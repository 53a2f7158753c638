/** Bytes, 32-bit words and the two byte orders. */
module Bytes {
  type Byte = x: int | 0 <= x < 0x100
  type Word = x: int | 0 <= x < 0x1_0000_0000

  datatype Option<+T> = None | Some(value: T)

  /** The low 32 bits of a number. */
  function Wrap(x: int): Word {
    x % 0x1_0000_0000
  }

  function Pow256(n: nat): (p: nat)
    ensures p > 0
  {
    if n == 0 then 1 else 256 * Pow256(n - 1)
  }

  /** The low `width` bytes of `value`, most significant first. */
  function BigEndian(value: nat, width: nat): (s: seq<Byte>)
    ensures |s| == width
  {
    if width == 0 then [] else BigEndian(value / 256, width - 1) + [value % 256]
  }

  function FromBigEndian(s: seq<Byte>): nat {
    if s == [] then 0 else FromBigEndian(s[..|s| - 1]) * 256 + s[|s| - 1]
  }

  function FromLittleEndian(s: seq<Byte>): nat {
    if s == [] then 0 else s[0] + 256 * FromLittleEndian(s[1..])
  }

  function Reversed<T>(s: seq<T>): (r: seq<T>)
    ensures |r| == |s|
  {
    seq(|s|, i requires 0 <= i < |s| => s[|s| - 1 - i])
  }

  /** Writing a number in `width` bytes and reading it back keeps its low `width` bytes. */
  lemma {:induction false} BigEndianRoundTrip(value: nat, width: nat)
    ensures FromBigEndian(BigEndian(value, width)) == value % Pow256(width)
  {
    if width > 0 {
      var s := BigEndian(value, width);
      BigEndianRoundTrip(value / 256, width - 1);
      assert s[..width - 1] == BigEndian(value / 256, width - 1);
      DivModSplit(value, Pow256(width - 1));
    }
  }

  lemma DivModSplit(v: nat, p: nat)
    requires p > 0
    ensures v % (256 * p) == (v / 256) % p * 256 + v % 256
  {
    var q, r := v / 256, v % 256;
    var a, b := q / p, q % p;
    assert v == 256 * (a * p + b) + r;
    assert v == (256 * p) * a + (256 * b + r) by {
      assert 256 * (a * p) == (256 * p) * a;
    }
    assert 0 <= 256 * b + r < 256 * p;
    ModUnique(v, 256 * p, a, 256 * b + r);
  }

  lemma ModUnique(v: int, m: int, a: int, r: int)
    requires m > 0 && 0 <= r < m && v == m * a + r
    ensures v % m == r && v / m == a
  {
    var a', r' := v / m, v % m;
    assert v == m * a' + r';
    assert m * (a' - a) == m * a' - m * a && m * (a - a') == m * a - m * a';
    if a < a' {
      MulAtLeast(m, a' - a);
    } else if a' < a {
      MulAtLeast(m, a - a');
    }
  }

  lemma MulAtLeast(m: int, n: int)
    requires m >= 0 && n >= 1
    ensures m * n >= m
  {}

  /** `n` is a multiple of `p`, counted down so that no proof needs a remainder. */
  predicate Multiple(n: nat, p: nat)
    requires p > 0
  {
    n == 0 || (n >= p && Multiple(n - p, p))
  }

  lemma RemainderStep(n: nat, p: nat)
    requires 0 < p <= n
    ensures n % p == (n - p) % p
  {
    var q := (n - p) / p;
    assert n == p * (q + 1) + (n - p) % p;
    ModUnique(n, p, q + 1, (n - p) % p);
  }

  /** It means what it should. */
  lemma {:induction false} MultipleIsZeroRemainder(n: nat, p: nat)
    requires p > 0
    ensures Multiple(n, p) <==> n % p == 0
  {
    if n >= p {
      RemainderStep(n, p);
      MultipleIsZeroRemainder(n - p, p);
    } else {
      ModUnique(n, p, 0, n);
    }
  }

  lemma {:induction false} LittleOfReversed(s: seq<Byte>)
    ensures FromLittleEndian(Reversed(s)) == FromBigEndian(s)
  {
    if s != [] {
      LittleOfReversed(s[..|s| - 1]);
      assert Reversed(s)[1..] == Reversed(s[..|s| - 1]);
    }
  }
}
