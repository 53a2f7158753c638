/** Whole sectors: the chained bytes, the checksum, the copies (tools/card_save_semantic_diff.py). */
module CardSector {
  import opened Bytes
  import opened CardCipher

  // ---- the chain ----

  /** Each byte is decoded with the ciphertext byte before it. */
  function DecodeBody(previous: B, cipher: seq<B>): (s: seq<B>)
    ensures |s| == |cipher|
    decreases |cipher|
  {
    if cipher == [] then [] else [DecryptByte(previous, cipher[0])] + DecodeBody(cipher[0], cipher[1..])
  }

  function EncodeBody(previous: B, plain: seq<B>): (s: seq<B>)
    ensures |s| == |plain|
    decreases |plain|
  {
    if plain == [] then []
    else
      var c := EncryptByte(previous, plain[0]);
      [c] + EncodeBody(c, plain[1..])
  }

  lemma {:induction false} ChainRoundTrip(previous: B, body: seq<B>)
    ensures DecodeBody(previous, EncodeBody(previous, body)) == body
    ensures EncodeBody(previous, DecodeBody(previous, body)) == body
    decreases |body|
  {
    hide DecryptByte, EncryptByte;
    if body != [] {
      var c, p := EncryptByte(previous, body[0]), DecryptByte(previous, body[0]);
      ByteRoundTrip(previous, body[0]);
      ChainRoundTrip(c, body[1..]);
      ChainRoundTrip(body[0], body[1..]);
      assert EncodeBody(previous, body)[1..] == EncodeBody(c, body[1..]);
      assert DecodeBody(previous, body)[1..] == DecodeBody(body[0], body[1..]);
    }
  }

  lemma {:induction false} DecodedAt(previous: B, cipher: seq<B>, i: nat)
    requires i < |cipher|
    ensures DecodeBody(previous, cipher)[i] == DecryptByte(if i == 0 then previous else cipher[i - 1], cipher[i])
    decreases i
  {
    hide DecryptByte;
    if i > 0 {
      DecodedAt(cipher[0], cipher[1..], i - 1);
    }
  }

  /** Changing one ciphertext byte changes that decoded byte, and no other but possibly the next. */
  lemma OneByteSpreads(previous: B, cipher: seq<B>, k: nat, b: B)
    requires k < |cipher| && b != cipher[k]
    ensures var was, is_ := DecodeBody(previous, cipher), DecodeBody(previous, cipher[k := b]);
      && was[k] != is_[k]
      && forall i :: 0 <= i < |cipher| && i != k && i != k + 1 ==> was[i] == is_[i]
  {
    hide DecryptByte, EncryptByte;
    var changed := cipher[k := b];
    DecodedAt(previous, cipher, k);
    DecodedAt(previous, changed, k);
    var before := if k == 0 then previous else cipher[k - 1];
    ByteRoundTrip(before, b);
    ByteRoundTrip(before, cipher[k]);
    forall i | 0 <= i < |cipher| && i != k && i != k + 1
      ensures DecodeBody(previous, cipher)[i] == DecodeBody(previous, changed)[i]
    {
      DecodedAt(previous, cipher, i);
      DecodedAt(previous, changed, i);
    }
  }

  // ---- the checksum ----

  /** The sum of two bytes, modulo 256. */
  function Add(x: B, y: B): B {
    x + y
  }

  /** `body` added to the 16 sums in turn, from byte `index` on. */
  function Sums(acc: seq<B>, body: seq<B>, index: nat): (s: seq<B>)
    requires |acc| == 16 && index <= |body|
    ensures |s| == 16
    decreases |body| - index
  {
    if index == |body| then acc else Sums(acc[index % 16 := Add(acc[index % 16], body[index])], body, index + 1)
  }

  /** From place `i` on, a sum equal to its neighbour is inverted. */
  function Spread(c: seq<B>, i: nat): (s: seq<B>)
    requires |c| == 16 && 1 <= i
    ensures |s| == 16
    decreases 16 - i
  {
    if i >= 16 then c else Spread(if c[i - 1] == c[i] then c[i := c[i] ^ 0xFF] else c, i + 1)
  }

  function Checksum(body: seq<B>): (s: seq<B>)
    ensures |s| == 16
  {
    Spread(Sums(START, body, 0), 1)
  }

  lemma Inverted(b: B)
    ensures b ^ 0xFF != b
  {}

  lemma {:induction false} SpreadDiffers(c: seq<B>, i: nat)
    requires |c| == 16 && 1 <= i
    requires forall j :: 1 <= j < i && j < 16 ==> c[j - 1] != c[j]
    ensures forall j :: 1 <= j < 16 ==> Spread(c, i)[j - 1] != Spread(c, i)[j]
    decreases 16 - i
  {
    if i < 16 {
      Inverted(c[i]);
      SpreadDiffers(if c[i - 1] == c[i] then c[i := c[i] ^ 0xFF] else c, i + 1);
    }
  }

  /** The body bytes at places `j` modulo 16, from place `index` on, added to `sum`. */
  function Column(sum: B, body: seq<B>, j: nat, index: nat): B
    requires index <= |body|
    decreases |body| - index
  {
    if index == |body| then sum else Column(if index % 16 == j then Add(sum, body[index]) else sum, body, j, index + 1)
  }

  /** Sum `j` is its first byte and every body byte at places `j` modulo 16, and no other. */
  lemma {:induction false} SumsExactly(acc: seq<B>, body: seq<B>, index: nat, j: nat)
    requires |acc| == 16 && index <= |body| && j < 16
    ensures Sums(acc, body, index)[j] == Column(acc[j], body, j, index)
    decreases |body| - index
  {
    hide Add;
    if index < |body| {
      SumsExactly(acc[index % 16 := Add(acc[index % 16], body[index])], body, index + 1, j);
    }
  }

  /** The first byte stays; each other one is kept, or inverted when it equals the one before it as that came out. */
  lemma {:induction false} SpreadExactly(c: seq<B>, i: nat, j: nat)
    requires |c| == 16 && 1 <= i <= 16 && j < 16
    ensures Spread(c, i)[j] ==
      if j < i then c[j]
      else if Spread(c, i)[j - 1] == c[j] then c[j] ^ 0xFF
      else c[j]
    decreases 16 - i
  {
    if i < 16 {
      var d := if c[i - 1] == c[i] then c[i := c[i] ^ 0xFF] else c;
      SpreadExactly(d, i + 1, j);
      if j == i {
        SpreadExactly(d, i + 1, j - 1);
      }
    }
  }

  /** So byte `j` of a checksum, from the column sums. */
  lemma ChecksumExactly(body: seq<B>, j: nat)
    requires j < 16
    ensures var sum := Column(START[j], body, j, 0);
      Checksum(body)[j] == if j > 0 && Checksum(body)[j - 1] == sum then sum ^ 0xFF else sum
  {
    hide Add, Sums, Spread, Column;
    SumsExactly(START, body, 0, j);
    SpreadExactly(Sums(START, body, 0), 1, j);
  }

  /** Adjacent bytes of a checksum always differ. */
  lemma ChecksumNeighboursDiffer(body: seq<B>, j: nat)
    requires 1 <= j < 16
    ensures Checksum(body)[j - 1] != Checksum(body)[j]
  {
    SpreadDiffers(Sums(START, body, 0), 1);
  }

  // ---- sectors ----

  /** A sector is its 16-byte checksum in the clear and its chained body. */
  function Open(sector: seq<B>): Option<seq<B>>
    requires |sector| >= 16
  {
    var body := DecodeBody(sector[15], sector[16..]);
    if Checksum(body) == sector[..16] then Some(sector[..16] + body) else None
  }

  function Seal(body: seq<B>): (s: seq<B>)
    ensures |s| == 16 + |body|
  {
    var sum := Checksum(body);
    sum + EncodeBody(sum[15], body)
  }

  /** Sealing and opening are inverse: accepted sectors and bodies correspond one to one, at any length. */
  lemma SectorRoundTrip(sector: seq<B>, body: seq<B>)
    requires |sector| >= 16
    ensures Open(Seal(body)) == Some(Checksum(body) + body)
    ensures Open(sector).Some? ==> Seal(Open(sector).value[16..]) == sector
  {
    hide Checksum, DecryptByte, EncryptByte;
    var sum := Checksum(body);
    var sealed := Seal(body);
    assert sealed[..16] == sum && sealed[16..] == EncodeBody(sum[15], body) && sealed[15] == sum[15];
    ChainRoundTrip(sum[15], body);
    var decoded := DecodeBody(sector[15], sector[16..]);
    ChainRoundTrip(sector[15], sector[16..]);
    assert (sector[..16] + decoded)[16..] == decoded && sector[..16] + sector[16..] == sector;
    assert sector[..16][15] == sector[15];
  }

  /** A changed checksum byte before the last is always noticed. */
  lemma ChecksumTamperNoticed(sector: seq<B>, k: nat, b: B)
    requires |sector| >= 16 && k < 15 && b != sector[k] && Open(sector).Some?
    ensures Open(sector[k := b]) == None
  {
    hide Checksum, DecryptByte;
    var t := sector[k := b];
    assert t[16..] == sector[16..] && t[15] == sector[15];
    assert t[..16][k] == b && sector[..16][k] == sector[k];
  }

  /** decrypt_sector: decodes a copy in place, sums it, and returns it when the sums match. */
  method DecryptSector(encrypted: seq<B>) returns (r: Option<seq<B>>)
    requires |encrypted| >= 16
    ensures r == Open(encrypted)
  {
    hide DecryptByte, DecodeBody, Sums, Spread;
    var data := new B[|encrypted|](i requires 0 <= i < |encrypted| => encrypted[i]);
    var previous := data[15];
    ghost var body := DecodeBody(encrypted[15], encrypted[16..]);
    for index := 16 to data.Length
      invariant previous == encrypted[index - 1]
      invariant forall i :: 0 <= i < 16 || index <= i < data.Length ==> data[i] == encrypted[i]
      invariant forall i :: 16 <= i < index ==> data[i] == body[i - 16]
    {
      var current := data[index];
      data[index] := DecryptByte(previous, current);
      DecodedAt(encrypted[15], encrypted[16..], index - 16);
      previous := current;
    }
    assert data[16..] == body && data[..16] == encrypted[..16] && data[..] == data[..16] + data[16..];
    var header, whole := data[..16], data[..];
    var checksum := SumBytes(body, data);
    var i := 1;
    ghost var all := Spread(checksum, 1);
    while i < 16
      invariant 1 <= i <= 16 && |checksum| == 16
      invariant Spread(checksum, i) == all
    {
      SpreadStep(checksum, i);
      if checksum[i - 1] == checksum[i] {
        checksum := checksum[i := checksum[i] ^ 0xFF];
      }
      i := i + 1;
    }
    SpreadStep(checksum, 16);
    assert checksum == Checksum(body);
    r := if checksum != header then None else Some(whole);
  }

  lemma SpreadStep(c: seq<B>, i: nat)
    requires |c| == 16 && 1 <= i
    ensures Spread(c, i) == if i >= 16 then c else Spread(if c[i - 1] == c[i] then c[i := c[i] ^ 0xFF] else c, i + 1)
  {}

  method SumBytes(ghost body: seq<B>, data: array<B>) returns (checksum: seq<B>)
    requires data.Length >= 16 && data[16..] == body
    ensures checksum == Sums(START, body, 0)
  {
    checksum := START;
    for index := 0 to data.Length - 16
      invariant |checksum| == 16
      invariant Sums(checksum, body, index) == Sums(START, body, 0)
    {
      assert data[16..][index] == data[16 + index];
      checksum := checksum[index % 16 := checksum[index % 16] + data[16 + index]];
    }
  }

  // ---- the newest copy ----

  type Seq8 = x: int | 0 <= x < 256

  /** The wrapping comparison of two sequence numbers. */
  predicate IsNewer(a: Seq8, b: Seq8) {
    var difference := a - b;
    if difference > 0x80 then false else if difference < -0x80 then true else difference > 0
  }

  /** Steps from `base` forward to `s`, modulo 256. */
  function Age(base: Seq8, s: Seq8): nat {
    (s - base) % 256
  }

  /** Exactly when one number is newer: 1 to 127 steps ahead, or 128 without a wrap. */
  lemma NewerExactly(a: Seq8, b: Seq8)
    ensures IsNewer(a, b) <==> 1 <= Age(b, a) <= 127 || (Age(b, a) == 128 && a > b)
    ensures a != b ==> (IsNewer(a, b) <==> !IsNewer(b, a))
  {}

  /** Within 127 steps of a common base, newer means further from the base. */
  lemma NewerInWindow(base: Seq8, a: Seq8, b: Seq8)
    requires Age(base, a) <= 127 && Age(base, b) <= 127
    ensures IsNewer(a, b) <==> Age(base, a) > Age(base, b)
  {}

  /** Wider apart there may be no newest at all: each of 0, 100 and 200 is newer than another. */
  lemma NewerCanCycle()
    ensures IsNewer(100, 0) && IsNewer(200, 100) && IsNewer(0, 200)
  {}

  /** The loop that picks the newest copy finds the first of the furthest from any such base. */
  method NewestCopy(sequences: seq<Seq8>) returns (newest: nat)
    requires sequences != []
    ensures newest < |sequences|
    ensures forall base: Seq8 :: (forall i :: 0 <= i < |sequences| ==> Age(base, sequences[i]) <= 127) ==>
      forall i :: 0 <= i < |sequences| ==>
        && Age(base, sequences[i]) <= Age(base, sequences[newest])
        && (i < newest ==> Age(base, sequences[i]) < Age(base, sequences[newest]))
  {
    hide IsNewer, Age;
    newest := 0;
    for n := 1 to |sequences|
      invariant newest < n
      invariant forall base: Seq8 :: (forall i :: 0 <= i < |sequences| ==> Age(base, sequences[i]) <= 127) ==>
        forall i :: 0 <= i < n ==>
          && Age(base, sequences[i]) <= Age(base, sequences[newest])
          && (i < newest ==> Age(base, sequences[i]) < Age(base, sequences[newest]))
    {
      forall base: Seq8 | Age(base, sequences[n]) <= 127 && Age(base, sequences[newest]) <= 127
        ensures IsNewer(sequences[n], sequences[newest]) <==> Age(base, sequences[n]) > Age(base, sequences[newest])
      {
        NewerInWindow(base, sequences[n], sequences[newest]);
      }
      if IsNewer(sequences[n], sequences[newest]) {
        newest := n;
      }
    }
  }

  // ---- changed ranges ----

  datatype Range = Range(start: nat, end: nat)

  /** The ranges hold exactly the differing positions below `n`, are not empty, and never touch. */
  predicate Ranges(before: seq<B>, after: seq<B>, ranges: seq<Range>, n: nat)
    requires n <= |before| && n <= |after|
  {
    && (forall r :: 0 <= r < |ranges| ==> ranges[r].start < ranges[r].end <= n)
    && (forall r, q :: 0 <= r < q < |ranges| ==> ranges[r].end < ranges[q].start)
    && (forall r, k :: 0 <= r < |ranges| && ranges[r].start <= k < ranges[r].end ==> before[k] != after[k])
    && (forall k :: 0 <= k < n && before[k] != after[k] ==> InSome(ranges, k))
  }

  predicate InSome(ranges: seq<Range>, k: nat) {
    exists r :: 0 <= r < |ranges| && ranges[r].start <= k < ranges[r].end
  }

  /** changed_ranges: the differing positions, gathered into maximal runs. */
  method ChangedRanges(before: seq<B>, after: seq<B>) returns (ranges: seq<Range>)
    ensures Ranges(before, after, ranges, if |before| < |after| then |before| else |after|)
  {
    hide Ranges;
    var n := if |before| < |after| then |before| else |after|;
    ranges := [];
    NoRanges(before, after);
    var start: nat, previous: nat := n, n;   // the open range, when start < n: start up to previous
    for k := 0 to n
      invariant if start == n then ranges == [] && Ranges(before, after, [], k)
                else start <= previous < k && Ranges(before, after, ranges + [Range(start, previous + 1)], k)
    {
      if before[k] == after[k] {
        NoMore(before, after, if start == n then [] else ranges + [Range(start, previous + 1)], k);
      } else if start == n {
        OneMore(before, after, [], k);
        start, previous := k, k;
      } else if k != previous + 1 {
        ranges := ranges + [Range(start, previous + 1)];
        OneMore(before, after, ranges, k);
        start, previous := k, k;
      } else {
        Longer(before, after, ranges, start, k);
        previous := k;
      }
    }
    if start < n {
      ranges := ranges + [Range(start, previous + 1)];
    }
  }

  lemma NoRanges(before: seq<B>, after: seq<B>)
    ensures Ranges(before, after, [], 0)
  {}

  lemma NoMore(before: seq<B>, after: seq<B>, ranges: seq<Range>, n: nat)
    requires n < |before| && n < |after| && Ranges(before, after, ranges, n) && before[n] == after[n]
    ensures Ranges(before, after, ranges, n + 1)
  {
    hide InSome;
  }

  lemma OneMore(before: seq<B>, after: seq<B>, ranges: seq<Range>, k: nat)
    requires k < |before| && k < |after| && Ranges(before, after, ranges, k) && before[k] != after[k]
    requires ranges != [] ==> ranges[|ranges| - 1].end < k
    ensures Ranges(before, after, ranges + [Range(k, k + 1)], k + 1)
  {
    var more := ranges + [Range(k, k + 1)];
    forall i | 0 <= i < k + 1 && before[i] != after[i]
      ensures InSome(more, i)
    {
      if i < k {
        var r :| 0 <= r < |ranges| && ranges[r].start <= i < ranges[r].end;
        assert more[r] == ranges[r];
      } else {
        assert more[|ranges|] == Range(k, k + 1);
      }
    }
  }

  lemma Longer(before: seq<B>, after: seq<B>, ranges: seq<Range>, start: nat, k: nat)
    requires start < k < |before| && k < |after| && before[k] != after[k]
    requires Ranges(before, after, ranges + [Range(start, k)], k)
    ensures Ranges(before, after, ranges + [Range(start, k + 1)], k + 1)
  {
    var was, is_ := ranges + [Range(start, k)], ranges + [Range(start, k + 1)];
    assert forall r :: 0 <= r < |ranges| ==> is_[r] == was[r];
    assert was[|ranges|] == Range(start, k) && is_[|ranges|] == Range(start, k + 1);
    forall i | 0 <= i < k + 1 && before[i] != after[i]
      ensures InSome(is_, i)
    {
      if i < k {
        var r :| 0 <= r < |was| && was[r].start <= i < was[r].end;
        assert is_[r].start == was[r].start && was[r].end <= is_[r].end;
      } else {
        assert is_[|ranges|].start <= i < is_[|ranges|].end;
      }
    }
  }
}
