/** The table of console variables and the native objects behind it (tools/gecko_targets.py). */
module GeckoTargets {
  import opened Bytes

  /** Why a write to a row can or cannot run. */
  datatype Kind = Supported | Code | Pointers | Private | Constant | Literal | Layout | Absent

  /** One row: a console range and, when supported, the element widths of one period. */
  datatype Row = Row(name: string, addr: int, size: nat, kind: Kind, layout: seq<nat>) {
    predicate Holds(a: int) {
      addr <= a < addr + size
    }
  }

  predicate Positive(layout: seq<nat>) {
    forall i :: 0 <= i < |layout| ==> layout[i] > 0
  }

  function Period(layout: seq<nat>): nat {
    if layout == [] then 0 else layout[0] + Period(layout[1..])
  }

  predicate RowOk(r: Row) {
    r.kind.Supported? ==>
      r.layout != [] && Positive(r.layout) && Period(r.layout) > 0 && Multiple(r.size, Period(r.layout))
  }

  predicate Sorted(rows: seq<Row>) {
    forall i, j :: 0 <= i < j < |rows| ==> rows[i].addr <= rows[j].addr
  }

  /** No row starts inside a supported row that precedes it. Refused rows may overlap. */
  predicate SupportedClear(rows: seq<Row>) {
    forall i, j :: 0 <= i < j < |rows| && rows[i].kind.Supported? ==> rows[i].addr + rows[i].size <= rows[j].addr
  }

  predicate TableOk(rows: seq<Row>) {
    && Sorted(rows)
    && SupportedClear(rows)
    && forall i :: 0 <= i < |rows| ==> RowOk(rows[i])
  }

  // ---- native byte positions ----

  /** The position of byte `pos` of one period once every element is mirrored. */
  function Mirror(layout: seq<nat>, pos: nat): nat
    requires pos < Period(layout)
  {
    if pos < layout[0] then layout[0] - 1 - pos
    else layout[0] + Mirror(layout[1..], pos - layout[0])
  }

  /** Where console byte `offset` of an object sits in the native object, period by period. */
  function NativeAt(layout: seq<nat>, offset: nat): nat
    requires Period(layout) > 0
    decreases offset
  {
    if offset < Period(layout) then Mirror(layout, offset)
    else Period(layout) + NativeAt(layout, offset - Period(layout))
  }

  lemma PeriodAppend(a: seq<nat>, b: seq<nat>)
    ensures Period(a + b) == Period(a) + Period(b)
  {
    if a == [] {
      assert a + b == b;
    } else {
      PeriodAppend(a[1..], b);
      assert (a + b)[1..] == a[1..] + b;
    }
  }

  lemma {:induction false} PeriodPrefix(layout: seq<nat>, k: nat)
    requires k < |layout|
    ensures Period(layout[..k + 1]) == Period(layout[..k]) + layout[k]
    ensures Period(layout[..k + 1]) <= Period(layout)
  {
    assert layout[..k + 1] == layout[..k] + [layout[k]];
    PeriodAppend(layout[..k], [layout[k]]);
    assert layout == layout[..k + 1] + layout[k + 1..];
    PeriodAppend(layout[..k + 1], layout[k + 1..]);
  }

  lemma {:induction false} MirrorInvolution(layout: seq<nat>, pos: nat)
    requires pos < Period(layout)
    ensures Mirror(layout, pos) < Period(layout)
    ensures Mirror(layout, Mirror(layout, pos)) == pos
  {
    if pos >= layout[0] {
      MirrorInvolution(layout[1..], pos - layout[0]);
    }
  }

  /** native_offset undoes itself. */
  lemma {:induction false} NativeInvolution(layout: seq<nat>, offset: nat)
    requires Period(layout) > 0
    ensures NativeAt(layout, NativeAt(layout, offset)) == offset
    decreases offset
  {
    if offset < Period(layout) {
      MirrorInvolution(layout, offset);
    } else {
      NativeInvolution(layout, offset - Period(layout));
    }
  }

  /** ... and stays inside any object made of whole periods. */
  lemma {:induction false} NativeStaysInside(layout: seq<nat>, size: nat, offset: nat)
    requires Period(layout) > 0 && Multiple(size, Period(layout)) && offset < size
    ensures NativeAt(layout, offset) < size
    decreases offset
  {
    if offset < Period(layout) {
      MirrorInvolution(layout, offset);
    } else {
      NativeStaysInside(layout, size - Period(layout), offset - Period(layout));
    }
  }

  lemma {:induction false} NativeShift(layout: seq<nat>, base: nat, offset: nat)
    requires Period(layout) > 0 && Multiple(base, Period(layout))
    ensures NativeAt(layout, base + offset) == base + NativeAt(layout, offset)
  {
    if base > 0 {
      NativeShift(layout, base - Period(layout), offset);
    }
  }

  /** The one-step form the source computes. */
  lemma {:induction false} NativeByRemainder(layout: seq<nat>, offset: nat)
    requires Period(layout) > 0
    ensures NativeAt(layout, offset) == offset - offset % Period(layout) + Mirror(layout, offset % Period(layout))
    decreases offset
  {
    var p := Period(layout);
    if offset < p {
      ModUnique(offset, p, 0, offset);
    } else {
      RemainderStep(offset, p);
      NativeByRemainder(layout, offset - p);
    }
  }

  /** Element `e` of a layout is mirrored as a whole: byte j of it is native byte width-1-j. */
  lemma {:induction false} MirrorElement(layout: seq<nat>, e: nat, j: nat)
    requires e < |layout| && j < layout[e]
    ensures Period(layout[..e]) + j < Period(layout)
    ensures Mirror(layout, Period(layout[..e]) + j) == Period(layout[..e]) + layout[e] - 1 - j
  {
    PeriodPrefix(layout, e);
    if e > 0 {
      MirrorElement(layout[1..], e - 1, j);
      assert layout[..e][1..] == layout[1..][..e - 1];
    }
  }

  /** The two loops of native_offset: the period, then the element the position falls in. */
  method NativeOffset(layout: seq<nat>, offset: nat) returns (r: nat)
    requires Period(layout) > 0
    ensures r == NativeAt(layout, offset)
  {
    var period := 0;
    for i := 0 to |layout|
      invariant period == Period(layout[..i])
    {
      PeriodPrefix(layout, i);
      period := period + layout[i];
    }
    assert layout[..|layout|] == layout;
    NativeByRemainder(layout, offset);
    var mirrored := MirrorInPeriod(layout, offset % period);
    r := offset - offset % period + mirrored;
  }

  method MirrorInPeriod(layout: seq<nat>, pos: nat) returns (r: nat)
    requires pos < Period(layout)
    ensures r == Mirror(layout, pos)
  {
    var start, i := 0, 0;
    while pos >= start + layout[i]
      invariant i < |layout| && start <= pos
      invariant pos - start < Period(layout[i..])
      invariant Mirror(layout, pos) == start + Mirror(layout[i..], pos - start)
      decreases |layout| - i
    {
      assert layout[i..][1..] == layout[i + 1..];
      start, i := start + layout[i], i + 1;
    }
    r := start + (layout[i] - 1 - (pos - start));
  }

  // ---- finding a row ----

  /** bisect.bisect_right over the rows' addresses, on rows[lo..hi]. */
  function BisectRight(rows: seq<Row>, addr: int, lo: nat, hi: nat): (r: nat)
    requires lo <= hi <= |rows|
    requires Sorted(rows)
    requires forall i :: 0 <= i < lo ==> rows[i].addr <= addr
    requires forall i :: hi <= i < |rows| ==> addr < rows[i].addr
    ensures lo <= r <= hi
    ensures forall i :: 0 <= i < r ==> rows[i].addr <= addr
    ensures forall i :: r <= i < |rows| ==> addr < rows[i].addr
    decreases hi - lo
  {
    if lo == hi then lo
    else
      var mid := (lo + hi) / 2;
      if addr < rows[mid].addr then BisectRight(rows, addr, lo, mid)
      else BisectRight(rows, addr, mid + 1, hi)
  }

  /** The index of the row holding `addr`: the last one that starts at or before it. */
  function Find(rows: seq<Row>, addr: int): (r: Option<nat>)
    requires Sorted(rows)
    ensures r.Some? ==> r.value < |rows| && rows[r.value].Holds(addr)
  {
    var i := BisectRight(rows, addr, 0, |rows|);
    if i > 0 && addr < rows[i - 1].addr + rows[i - 1].size then Some(i - 1) else None
  }

  /** A supported row is always found from any of its addresses, whatever refused rows overlap. */
  lemma FindSupported(rows: seq<Row>, k: nat, addr: int)
    requires Sorted(rows) && SupportedClear(rows)
    requires k < |rows| && rows[k].kind.Supported? && rows[k].Holds(addr)
    ensures Find(rows, addr) == Some(k)
  {
    var i := BisectRight(rows, addr, 0, |rows|);
    assert k < i;
    forall j | k < j < |rows|
      ensures addr < rows[j].addr
    {}
  }

  /** Why a write cannot run; Fine when it can. */
  datatype Verdict = Fine | Unknown | Refused(kind: Kind) | PastEnd

  function CheckWrite(rows: seq<Row>, addr: int, length: nat): Verdict
    requires Sorted(rows)
  {
    match Find(rows, addr)
    case None => Unknown
    case Some(i) =>
      if !rows[i].kind.Supported? then Refused(rows[i].kind)
      else if addr + length > rows[i].addr + rows[i].size then PastEnd
      else Fine
  }

  /** The whole range lies within supported row `k`. */
  predicate Within(rows: seq<Row>, k: nat, addr: int, length: nat) {
    k < |rows| && rows[k].kind.Supported? && rows[k].Holds(addr) && addr + length <= rows[k].addr + rows[k].size
  }

  ghost predicate Backed(rows: seq<Row>, addr: int, length: nat) {
    exists k: nat :: Within(rows, k, addr, length)
  }

  /** A write is accepted exactly when one supported row holds all of it. */
  lemma CheckWriteExact(rows: seq<Row>, addr: int, length: nat)
    requires Sorted(rows) && SupportedClear(rows)
    ensures CheckWrite(rows, addr, length) == Fine <==> Backed(rows, addr, length)
    ensures Backed(rows, addr, length) ==> Find(rows, addr).Some? && Within(rows, Find(rows, addr).value, addr, length)
  {
    if CheckWrite(rows, addr, length) == Fine {
      assert Within(rows, Find(rows, addr).value, addr, length);
    }
    if Backed(rows, addr, length) {
      var k: nat :| Within(rows, k, addr, length);
      FindSupported(rows, k, addr);
    }
  }

  /** Row `k` is the last one that starts at or before the address. */
  predicate LastBefore(rows: seq<Row>, k: nat, addr: int) {
    && k < |rows| && rows[k].addr <= addr
    && forall j :: k < j < |rows| ==> addr < rows[j].addr
  }

  /** Exactly what a write is answered: what the last row that starts at or before its address makes of it. */
  lemma CheckWriteClass(rows: seq<Row>, addr: int, length: nat, k: nat)
    requires Sorted(rows)
    ensures (forall i :: 0 <= i < |rows| ==> addr < rows[i].addr) ==> CheckWrite(rows, addr, length) == Unknown
    ensures LastBefore(rows, k, addr) ==>
      CheckWrite(rows, addr, length) ==
        if addr >= rows[k].addr + rows[k].size then Unknown
        else if !rows[k].kind.Supported? then Refused(rows[k].kind)
        else if addr + length > rows[k].addr + rows[k].size then PastEnd
        else Fine
  {
    var i := BisectRight(rows, addr, 0, |rows|);
    if LastBefore(rows, k, addr) {
      var next := if k + 1 < |rows| then rows[k + 1].addr else addr + 1;
      assert rows[k].addr <= addr < next;
      assert i == k + 1;
    }
    var first := if |rows| > 0 then rows[0].addr else addr;
    assert |rows| > 0 && addr < first ==> i == 0;
  }

  // ---- the overlap pass of build() ----

  predicate Overlaps(a: Row, b: Row) {
    a.addr + a.size > b.addr
  }

  /** Row `i` once the first `pairs` neighbouring pairs have been compared. */
  function AfterOverlaps(rows: seq<Row>, i: nat, pairs: int): Row
    requires i < |rows| && pairs < |rows|
  {
    if rows[i].kind.Supported?
       && ((0 < i <= pairs && Overlaps(rows[i - 1], rows[i])) || (i < pairs && Overlaps(rows[i], rows[i + 1])))
    then rows[i].(kind := Kind.Layout) else rows[i]
  }

  /** Neighbours that overlap are both refused; nothing else changes. */
  method DropOverlaps(rows: seq<Row>) returns (out: seq<Row>)
    requires Sorted(rows)
    ensures Sorted(out) && SupportedClear(out)
    ensures |out| == |rows|
    ensures forall i :: 0 <= i < |rows| ==> out[i] == AfterOverlaps(rows, i, |rows| - 1)
  {
    out := rows;
    var n := 0;
    while n + 1 < |rows|
      invariant |out| == |rows| && (|rows| > 0 ==> n < |rows|)
      invariant n <= |rows|
      invariant forall i :: 0 <= i < |rows| ==> out[i] == AfterOverlaps(rows, i, n)
    {
      if Overlaps(rows[n], rows[n + 1]) {
        if out[n].kind.Supported? { out := out[n := out[n].(kind := Kind.Layout)]; }
        if out[n + 1].kind.Supported? { out := out[n + 1 := out[n + 1].(kind := Kind.Layout)]; }
      }
      n := n + 1;
    }
    forall i, j | 0 <= i < j < |out| && out[i].kind.Supported?
      ensures out[i].addr + out[i].size <= out[j].addr
    {
      assert !Overlaps(rows[i], rows[i + 1]);
      assert rows[i + 1].addr <= rows[j].addr;
    }
  }

  // ---- the native objects ----

  type Objects = map<string, seq<Byte>>

  /** Every supported row has its own native object of the row's size. */
  predicate ImageOk(rows: seq<Row>, objects: Objects) {
    && TableOk(rows)
    && (forall i :: 0 <= i < |rows| && rows[i].kind.Supported? ==>
          rows[i].name in objects && |objects[rows[i].name]| == rows[i].size)
    && (forall i, j :: 0 <= i < j < |rows| && rows[i].kind.Supported? && rows[j].kind.Supported? ==>
          rows[i].name != rows[j].name)
  }

  /** The console byte at `a`, read out of the native objects. */
  ghost function View(rows: seq<Row>, objects: Objects, a: int): Byte
    requires ImageOk(rows, objects) && Backed(rows, a, 1)
  {
    CheckWriteExact(rows, a, 1);
    var r := rows[Find(rows, a).value];
    NativeStaysInside(r.layout, r.size, a - r.addr);
    objects[r.name][NativeAt(r.layout, a - r.addr)]
  }

  /** One object after big-endian `data` is stored from console offset `off`. */
  function Stored(layout: seq<nat>, content: seq<Byte>, off: nat, data: seq<Byte>): (r: seq<Byte>)
    requires Period(layout) > 0
    ensures |r| == |content|
  {
    seq(|content|, j requires 0 <= j < |content| =>
      var o := NativeAt(layout, j);
      if off <= o < off + |data| then data[o - off] else content[j])
  }

  lemma StoredStep(layout: seq<nat>, content: seq<Byte>, off: nat, data: seq<Byte>, k: nat)
    requires Period(layout) > 0 && Multiple(|content|, Period(layout))
    requires k < |data| && off + |data| <= |content|
    ensures NativeAt(layout, off + k) < |content|
    ensures Stored(layout, content, off, data[..k])[NativeAt(layout, off + k) := data[k]]
         == Stored(layout, content, off, data[..k + 1])
  {
    NativeStaysInside(layout, |content|, off + k);
    NativeInvolution(layout, off + k);
    var at := NativeAt(layout, off + k);
    var a, b := Stored(layout, content, off, data[..k])[at := data[k]], Stored(layout, content, off, data[..k + 1]);
    forall j | 0 <= j < |content|
      ensures a[j] == b[j]
    {
      NativeInvolution(layout, j);
    }
  }

  /** All objects after an accepted write. */
  ghost function StoreBytes(rows: seq<Row>, objects: Objects, addr: int, data: seq<Byte>): (r: Objects)
    requires ImageOk(rows, objects) && Backed(rows, addr, |data|)
    ensures ImageOk(rows, r)
  {
    CheckWriteExact(rows, addr, |data|);
    var row := rows[Find(rows, addr).value];
    objects[row.name := Stored(row.layout, objects[row.name], addr - row.addr, data)]
  }

  ghost function LoadBytes(rows: seq<Row>, objects: Objects, addr: int, length: nat): (s: seq<Byte>)
    requires ImageOk(rows, objects) && Backed(rows, addr, length)
    ensures |s| == length
  {
    seq<Byte>(length, k requires 0 <= k < length => BackedByte(rows, addr, length, k); View(rows, objects, addr + k))
  }

  lemma BackedByte(rows: seq<Row>, addr: int, length: nat, k: nat)
    requires Backed(rows, addr, length) && k < length
    ensures Backed(rows, addr + k, 1)
  {
    var i: nat :| Within(rows, i, addr, length);
    assert Within(rows, i, addr + k, 1);
  }

  lemma SameRow(rows: seq<Row>, addr: int, length: nat, k: nat)
    requires TableOk(rows) && Backed(rows, addr, length) && k < length
    ensures Find(rows, addr) == Find(rows, addr + k) && Find(rows, addr).Some?
    ensures Within(rows, Find(rows, addr).value, addr, length)
  {
    var i: nat :| Within(rows, i, addr, length);
    FindSupported(rows, i, addr);
    FindSupported(rows, i, addr + k);
  }

  /** The native objects behave as one flat big-endian memory: a write shows exactly its own bytes. */
  lemma StoreIsFlat(rows: seq<Row>, objects: Objects, addr: int, data: seq<Byte>, a: int)
    requires ImageOk(rows, objects) && Backed(rows, addr, |data|) && Backed(rows, a, 1)
    ensures View(rows, StoreBytes(rows, objects, addr, data), a)
         == if addr <= a < addr + |data| then data[a - addr] else View(rows, objects, a)
  {
    hide BisectRight, Find, CheckWrite, Sorted, SupportedClear, Period, Mirror, NativeAt, Multiple;
    CheckWriteExact(rows, addr, |data|);
    CheckWriteExact(rows, a, 1);
    var w, r := Find(rows, addr).value, Find(rows, a).value;
    var o := a - rows[r].addr;
    NativeStaysInside(rows[r].layout, rows[r].size, o);
    NativeInvolution(rows[r].layout, o);
    if addr <= a < addr + |data| {
      SameRow(rows, addr, |data|, a - addr);
    }
  }

  /** A multi-byte element is held little-endian natively: both orders spell the same number. */
  lemma ElementIsLittleEndian(layout: seq<nat>, content: seq<Byte>, base: nat, e: nat)
    requires Period(layout) > 0 && Multiple(base, Period(layout)) && base + Period(layout) <= |content|
    requires e < |layout|
    ensures base + Period(layout[..e]) + layout[e] <= |content|
    ensures var s := base + Period(layout[..e]);
      FromLittleEndian(content[s..s + layout[e]]) == FromBigEndian(ConsoleOrder(layout, content, s, layout[e]))
  {
    hide Period, Mirror, Multiple;
    PeriodPrefix(layout, e);
    var s, w := base + Period(layout[..e]), layout[e];
    var console := ConsoleOrder(layout, content, s, w);
    forall j | 0 <= j < w
      ensures console[j] == content[s..s + w][w - 1 - j]
    {
      MirrorElement(layout, e, j);
      NativeShift(layout, base, Period(layout[..e]) + j);
    }
    assert Reversed(console) == content[s..s + w];
    LittleOfReversed(console);
  }

  /** `width` bytes of an object from console offset `from`, in console order (0 past its end). */
  function ConsoleOrder(layout: seq<nat>, content: seq<Byte>, from: nat, width: nat): (s: seq<Byte>)
    requires Period(layout) > 0
    ensures |s| == width
  {
    seq(width, j requires 0 <= j < width =>
      var at := NativeAt(layout, from + j);
      if at < |content| then content[at] else 0)
  }

  /** `memory` of apply_write and read_bytes: the native objects, changed in place. */
  class NativeImage {
    const rows: seq<Row>
    var objects: Objects

    ghost predicate Valid()
      reads this
    {
      ImageOk(rows, objects)
    }

    constructor (rows: seq<Row>, objects: Objects)
      requires ImageOk(rows, objects)
      ensures Valid() && this.rows == rows && this.objects == objects
    {
      this.rows, this.objects := rows, objects;
    }

    /** Stores big-endian `data` at console `addr`, a byte at a time. */
    method ApplyWrite(addr: int, data: seq<Byte>)
      requires Valid() && Backed(rows, addr, |data|)
      modifies this
      ensures Valid()
      ensures objects == StoreBytes(rows, old(objects), addr, data)
      ensures forall a | Backed(rows, a, 1) ::
        View(rows, objects, a) == if addr <= a < addr + |data| then data[a - addr] else View(rows, old(objects), a)
    {
      hide BisectRight, Find, CheckWrite, Sorted, SupportedClear, Period, Mirror, NativeAt, Multiple;
      CheckWriteExact(rows, addr, |data|);
      var row := rows[Find(rows, addr).value];
      var off := addr - row.addr;
      ghost var was := objects[row.name];
      assert Stored(row.layout, was, off, data[..0]) == was;
      for k := 0 to |data|
        invariant objects == old(objects)[row.name := Stored(row.layout, was, off, data[..k])]
      {
        var at := NativeOffset(row.layout, off + k);
        StoredStep(row.layout, was, off, data, k);
        objects := objects[row.name := objects[row.name][at := data[k]]];
      }
      assert data[..|data|] == data;
      forall a | Backed(rows, a, 1)
        ensures View(rows, objects, a) == if addr <= a < addr + |data| then data[a - addr]
          else View(rows, old(objects), a)
      {
        StoreIsFlat(rows, old(objects), addr, data, a);
      }
    }

    /** The `length` big-endian bytes at console `addr`. */
    method ReadBytes(addr: int, length: nat) returns (s: seq<Byte>)
      requires Valid() && Backed(rows, addr, length)
      ensures s == LoadBytes(rows, objects, addr, length)
    {
      hide BisectRight, Find, CheckWrite, Sorted, SupportedClear, Period, Mirror, NativeAt, Multiple;
      CheckWriteExact(rows, addr, length);
      var row := rows[Find(rows, addr).value];
      s := [];
      ghost var all := LoadBytes(rows, objects, addr, length);
      for k := 0 to length
        invariant s == all[..k]
      {
        SameRow(rows, addr, length, k);
        BackedByte(rows, addr, length, k);
        NativeStaysInside(row.layout, row.size, addr - row.addr + k);
        var at := NativeOffset(row.layout, addr - row.addr + k);
        assert objects[row.name][at] == View(rows, objects, addr + k) == all[k];
        s := s + [objects[row.name][at]];
      }
    }
  }
}
