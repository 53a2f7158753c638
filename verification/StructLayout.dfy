/**
  The console's struct layout (tools/gecko_targets.py, StructTypes.aggregate):
  members at their natural alignment, bitfields packed bit by bit.
*/
module StructLayout {
  import opened Bytes
  import T = GeckoTargets

  /** How a member is named: not at all, after its offset (x1C, unk_0x20), or otherwise. */
  datatype Naming = Anonymous | AfterOffset(offset: nat) | Named

  /**
    A type as the console lays it out. `layout` is its element widths when it is made of the simple
    types only; `walkable` says its members can be walked.
  */
  datatype Node = Node(size: nat, align: nat, layout: seq<nat>, kind: T.Kind, walkable: bool, members: seq<Member>)

  datatype Member = Member(offset: nat, naming: Naming, node: Node, count: nat)

  /** A declared member: its element count when it can be read, and its width when it is a bitfield. */
  datatype Field = Field(naming: Naming, node: Node, count: Option<nat>, bits: Option<nat>)

  predicate AlignOk(a: nat) { a == 1 || a == 2 || a == 4 || a == 8 }

  predicate Aligned(x: nat, a: nat) {
    if a == 8 then x % 8 == 0 else if a == 4 then x % 4 == 0 else if a == 2 then x % 2 == 0 else true
  }

  /** The first multiple of `a` at or after `x`. */
  function AlignUp(x: nat, a: nat): (y: nat)
    requires AlignOk(a)
    ensures x <= y < x + a && Aligned(y, a)
  {
    if a == 8 then (x + 7) / 8 * 8 else if a == 4 then (x + 3) / 4 * 4 else if a == 2 then (x + 1) / 2 * 2 else x
  }

  /** The bytes of an array. */
  function Extent(size: nat, count: nat): nat {
    if count == 0 then 0 else size + Extent(size, count - 1)
  }

  function End(m: Member): nat {
    m.offset + Extent(m.node.size, m.count)
  }

  function EndBefore(ms: seq<Member>, j: nat): nat
    requires j <= |ms|
  {
    if j == 0 then 0 else End(ms[j - 1])
  }

  /** Each member starts at or after the end of the one before it, at its own alignment. */
  predicate Ordered(ms: seq<Member>) {
    forall j {:trigger EndBefore(ms, j)} :: 0 <= j < |ms| ==>
      EndBefore(ms, j) <= ms[j].offset && Aligned(ms[j].offset, ms[j].node.align)
  }

  predicate NodeOk(n: Node) {
    && AlignOk(n.align) && Aligned(n.size, n.align)
    && (n.kind.Supported? <==> n.layout != [])
    && T.Positive(n.layout)
    && (n.layout != [] ==> T.Period(n.layout) == n.size > 0)
    && Ordered(n.members)
    && EndBefore(n.members, |n.members|) <= n.size
    && forall j :: 0 <= j < |n.members| ==> NodeOk(n.members[j].node) && n.members[j].node.align <= n.align
  }

  function Ones(n: nat): (s: seq<nat>)
    ensures |s| == n && T.Positive(s)
  {
    seq(n, _ => 1)
  }

  function RepeatLayout(layout: seq<nat>, count: nat): seq<nat> {
    if count == 0 then [] else layout + RepeatLayout(layout, count - 1)
  }

  /** The widths of all members, every gap filled with single bytes. */
  function Widths(ms: seq<Member>): seq<nat>
    requires Ordered(ms)
  {
    if ms == [] then []
    else
      var front, m := ms[..|ms| - 1], ms[|ms| - 1];
      OrderedPrefix(ms, |ms| - 1);
      Widths(front) + Ones(m.offset - EndBefore(front, |front|)) + RepeatLayout(m.node.layout, m.count)
  }

  /** The widths of a whole object of `size` bytes. */
  function Padded(ms: seq<Member>, size: nat): seq<nat>
    requires Ordered(ms) && EndBefore(ms, |ms|) <= size
  {
    Widths(ms) + Ones(size - EndBefore(ms, |ms|))
  }

  lemma OrderedPrefix(ms: seq<Member>, j: nat)
    requires Ordered(ms) && j <= |ms|
    ensures Ordered(ms[..j]) && EndBefore(ms[..j], j) == EndBefore(ms, j)
  {
    forall i | 0 <= i < j
      ensures EndBefore(ms[..j], i) <= ms[..j][i].offset && Aligned(ms[..j][i].offset, ms[..j][i].node.align)
    {
      assert EndBefore(ms, i) <= ms[i].offset;
      assert i > 0 ==> ms[..j][i - 1] == ms[i - 1];
    }
  }

  lemma {:induction false} OnesPeriod(n: nat)
    ensures T.Period(Ones(n)) == n
  {
    if n > 0 {
      assert Ones(n)[1..] == Ones(n - 1);
      OnesPeriod(n - 1);
    }
  }

  lemma PositiveAppend(a: seq<nat>, b: seq<nat>)
    requires T.Positive(a) && T.Positive(b)
    ensures T.Positive(a + b)
  {
    forall i | 0 <= i < |a + b| ensures (a + b)[i] > 0 {
      if i < |a| { assert (a + b)[i] == a[i]; } else { assert (a + b)[i] == b[i - |a|]; }
    }
  }

  lemma {:induction false} RepeatPeriod(layout: seq<nat>, count: nat)
    requires T.Positive(layout)
    ensures T.Period(RepeatLayout(layout, count)) == Extent(T.Period(layout), count)
    ensures T.Positive(RepeatLayout(layout, count))
  {
    if count > 0 {
      RepeatPeriod(layout, count - 1);
      T.PeriodAppend(layout, RepeatLayout(layout, count - 1));
      PositiveAppend(layout, RepeatLayout(layout, count - 1));
    }
  }

  predicate AllProvable(ms: seq<Member>) {
    forall j :: 0 <= j < |ms| ==> NodeOk(ms[j].node) && ms[j].node.layout != []
  }

  lemma LayoutFacts(n: Node)
    requires NodeOk(n) && n.layout != []
    ensures T.Positive(n.layout) && T.Period(n.layout) == n.size
  {}

  lemma {:induction false} WidthsSum(ms: seq<Member>)
    requires Ordered(ms) && AllProvable(ms)
    ensures T.Period(Widths(ms)) == EndBefore(ms, |ms|)
    ensures T.Positive(Widths(ms))
  {
    if ms != [] {
      hide Ones, RepeatLayout, Extent, NodeOk, Aligned;
      var front, m := ms[..|ms| - 1], ms[|ms| - 1];
      OrderedPrefix(ms, |ms| - 1);
      var k := |ms| - 1;
      assert NodeOk(ms[k].node) && m == ms[k] && EndBefore(ms, k) <= m.offset;
      LayoutFacts(m.node);
      forall j | 0 <= j < |front|
        ensures NodeOk(front[j].node) && front[j].node.layout != []
      {
        assert front[j] == ms[j];
      }
      WidthsSum(front);
      var gap := m.offset - EndBefore(front, |front|);
      OnesPeriod(gap);
      RepeatPeriod(m.node.layout, m.count);
      T.PeriodAppend(Widths(front), Ones(gap));
      T.PeriodAppend(Widths(front) + Ones(gap), RepeatLayout(m.node.layout, m.count));
      PositiveAppend(Widths(front), Ones(gap));
      PositiveAppend(Widths(front) + Ones(gap), RepeatLayout(m.node.layout, m.count));
    }
  }

  // ---- bitfields ----

  /** Where a bitfield landed: its first bit, its width, and the size of its type in bytes. */
  datatype BitSpan = BitSpan(first: nat, bits: nat, unit: nat)

  predicate UnitOk(size: nat) { size == 1 || size == 2 || size == 4 || size == 8 }

  /** The position of a bit within its unit of `size` bytes. */
  function InUnit(bit: nat, size: nat): nat {
    if size == 1 then bit % 8 else if size == 2 then bit % 16 else if size == 4 then bit % 32 else bit % 64
  }

  /** The first unit boundary at or after `bit`. */
  function UnitUp(bit: nat, size: nat): nat {
    if size == 1 then (bit + 7) / 8 * 8 else if size == 2 then (bit + 15) / 16 * 16
    else if size == 4 then (bit + 31) / 32 * 32 else (bit + 63) / 64 * 64
  }

  lemma UnitBoundary(bit: nat, size: nat)
    requires UnitOk(size)
    ensures bit <= UnitUp(bit, size) && InUnit(UnitUp(bit, size), size) == 0
  {
    if size == 1 {
    } else if size == 2 {
    } else if size == 4 {
    } else {
    }
  }

  predicate NoStraddle(s: BitSpan) {
    s.bits <= s.unit * 8 ==> InUnit(s.first, s.unit) + s.bits <= s.unit * 8
  }

  /** Where a bitfield goes when `next` is the next free bit: there, or at the next unit when it would straddle one. */
  function FirstFit(next: nat, bits: nat, unit: nat): nat {
    if InUnit(next, unit) + bits > unit * 8 then UnitUp(next, unit) else next
  }

  /** That is the first free bit at which a bitfield that fits its unit does not straddle one. */
  lemma FirstFitIsFirst(next: nat, bits: nat, unit: nat, p: nat)
    requires UnitOk(unit) && bits <= unit * 8
    ensures next <= FirstFit(next, bits, unit) && NoStraddle(BitSpan(FirstFit(next, bits, unit), bits, unit))
    ensures next <= p < FirstFit(next, bits, unit) ==> !NoStraddle(BitSpan(p, bits, unit))
  {
    hide InUnit, UnitUp;
    UnitBoundary(next, unit);
    if next <= p < FirstFit(next, bits, unit) {
      BeforeBoundary(next, unit, p);
    }
  }

  lemma BeforeBoundary(next: nat, unit: nat, p: nat)
    requires UnitOk(unit) && next <= p < UnitUp(next, unit)
    ensures InUnit(p, unit) == InUnit(next, unit) + (p - next)
  {
    hide InUnit, UnitUp;
    UnitUpBound(next, unit);
    UnitUpBound(p, unit);
    SameUnit(next, p, unit * 8);
  }

  lemma UnitUpBound(next: nat, unit: nat)
    requires UnitOk(unit)
    ensures InUnit(next, unit) == next % (unit * 8) && UnitUp(next, unit) <= next - next % (unit * 8) + unit * 8
  {
    UpBound(next, 8);
    UpBound(next, 16);
    UpBound(next, 32);
    UpBound(next, 64);
  }

  lemma UpBound(next: nat, m: nat)
    requires m > 0
    ensures (next + m - 1) / m * m <= next - next % m + m
  {
    var q, r := next / m, next % m;
    if r == 0 {
      ModUnique(next + m - 1, m, q, m - 1);
    } else {
      assert m * (q + 1) == m * q + m;
      ModUnique(next + m - 1, m, q + 1, r - 1);
    }
  }

  lemma SameUnit(next: nat, p: nat, m: nat)
    requires m > 0 && next <= p < next - next % m + m
    ensures p % m == next % m + (p - next)
  {
    ModUnique(p, m, next / m, next % m + (p - next));
  }

  lemma FitFacts(next: nat, bits: nat, unit: nat)
    requires UnitOk(unit)
    ensures next <= FirstFit(next, bits, unit) && NoStraddle(BitSpan(FirstFit(next, bits, unit), bits, unit))
  {
    hide InUnit, UnitUp;
    UnitBoundary(next, unit);
  }

  // ---- the members of a body ----

  predicate FieldOk(f: Field) {
    && NodeOk(f.node)
    && (f.bits.Some? ==> |f.node.layout| == 1 && UnitOk(f.node.size))
  }

  /** A body that cannot be laid out: an unreadable count, or a bitfield in a union. */
  predicate Unreadable(f: Field, isStruct: bool) {
    if f.bits.Some? then !isStruct else f.count.None?
  }

  function Max(a: nat, b: nat): nat { if a > b then a else b }

  function MaxAlign(fields: seq<Field>): nat {
    if fields == [] then 1 else Max(MaxAlign(fields[..|fields| - 1]), fields[|fields| - 1].node.align)
  }

  /** The least alignment that serves every field: 1, or that of some field. */
  lemma {:induction false} MaxAlignExactly(fields: seq<Field>)
    ensures MaxAlign(fields) >= 1 && forall i :: 0 <= i < |fields| ==> fields[i].node.align <= MaxAlign(fields)
    ensures MaxAlign(fields) == 1 || exists i :: 0 <= i < |fields| && fields[i].node.align == MaxAlign(fields)
  {
    if fields != [] {
      var last := |fields| - 1;
      var front := fields[..last];
      MaxAlignExactly(front);
      if MaxAlign(fields) != 1 && fields[last].node.align != MaxAlign(fields) {
        var i :| 0 <= i < |front| && front[i].node.align == MaxAlign(front);
        assert fields[i] == front[i];
      }
    }
  }

  /** The extent of some member, and of none more. */
  lemma {:induction false} MaxExtentExactly(fields: seq<Field>)
    requires forall i :: 0 <= i < |fields| ==> fields[i].count.Some?
    ensures forall i :: 0 <= i < |fields| ==> Extent(fields[i].node.size, fields[i].count.value) <= MaxExtent(fields)
    ensures MaxExtent(fields) == 0
      || exists i :: 0 <= i < |fields| && Extent(fields[i].node.size, fields[i].count.value) == MaxExtent(fields)
  {
    hide Extent;
    if fields != [] {
      var last := |fields| - 1;
      var front := fields[..last];
      MaxExtentExactly(front);
      if MaxExtent(fields) != 0 && Extent(fields[last].node.size, fields[last].count.value) != MaxExtent(fields) {
        var i :| 0 <= i < |front| && Extent(front[i].node.size, front[i].count.value) == MaxExtent(front);
        assert fields[i] == front[i];
      }
    }
  }

  /** The largest member of a union. */
  function MaxExtent(fields: seq<Field>): nat {
    if fields == [] then 0
    else
      var f := fields[|fields| - 1];
      Max(MaxExtent(fields[..|fields| - 1]), if f.count.Some? then Extent(f.node.size, f.count.value) else 0)
  }

  /** Each member starts at the first position after its predecessor that its alignment allows. */
  predicate Tight(ms: seq<Member>) {
    forall j {:trigger EndBefore(ms, j)} :: 0 <= j < |ms| ==>
      AlignOk(ms[j].node.align) && ms[j].offset == AlignUp(EndBefore(ms, j), ms[j].node.align)
  }

  /** The member a field belongs to: bitfields that follow each other share one. */
  function Home(fields: seq<Field>, i: nat): nat
    requires i < |fields|
  {
    if i == 0 then 0
    else Home(fields, i - 1) + (if fields[i - 1].bits.Some? && fields[i].bits.Some? then 0 else 1)
  }

  function MemberCount(fields: seq<Field>, n: nat): nat
    requires n <= |fields|
  {
    if n == 0 then 0 else Home(fields, n - 1) + 1
  }

  /** Two fields share a member exactly when everything from one to the other is a bitfield. */
  lemma {:induction false} HomesExactly(fields: seq<Field>, i: nat, j: nat)
    requires i < j < |fields|
    ensures Home(fields, i) <= Home(fields, j)
    ensures Home(fields, i) == Home(fields, j) <==> forall k :: i <= k <= j ==> fields[k].bits.Some?
    decreases j
  {
    if i < j - 1 {
      HomesExactly(fields, i, j - 1);
    }
  }

  /** ... and no member is there that no field asked for. */
  lemma {:induction false} EveryMemberIsAHome(fields: seq<Field>, n: nat, m: nat) returns (i: nat)
    requires n <= |fields| && m < MemberCount(fields, n)
    ensures i < n && Home(fields, i) == m
  {
    i := n - 1;
    if Home(fields, i) != m {
      i := EveryMemberIsAHome(fields, n - 1, m);
    }
  }

  predicate PlacedAs(f: Field, m: Member) {
    f.bits.None? && f.count == Some(m.count) && m.naming == f.naming && m.node == f.node
  }

  /** The refused member that holds a run of bitfields from byte `first` to byte `end`. */
  function RunMember(first: nat, end: nat, naming: Naming): Member
    requires first <= end
  {
    Member(first, naming, Node(end - first, 1, [], T.Layout, false, []), 1)
  }

  predicate IsBitRun(m: Member) {
    m.node == Node(m.node.size, 1, [], T.Layout, false, []) && m.count == 1
  }

  predicate RunStarts(fields: seq<Field>, i: nat)
    requires i < |fields|
  {
    fields[i].bits.Some? && (i == 0 || fields[i - 1].bits.None?)
  }

  /** Bitfield `i` is the last of its run among the first `n` fields. */
  predicate RunEnds(fields: seq<Field>, n: nat, i: nat)
    requires i < n <= |fields|
  {
    fields[i].bits.Some? && (i + 1 == n || fields[i + 1].bits.None?)
  }

  /** The next free bit when bitfield `i` is placed. */
  function FreeBit(fields: seq<Field>, ms: seq<Member>, spans: seq<BitSpan>, i: nat): nat
    requires i < |fields| && i <= |spans| && Home(fields, i) < |ms|
  {
    if i == 0 || fields[i - 1].bits.None? then ms[Home(fields, i)].offset * 8
      else spans[i - 1].first + spans[i - 1].bits
  }

  /**
    Field `i` is where it belongs. An ordinary field is a member as declared. A bitfield has its own width and unit,
    lies at the first free bit that fits, and its run is one refused member, named after its first bitfield and ending
    with the byte of its last bit.
  */
  predicate FieldLaid(fields: seq<Field>, n: nat, ms: seq<Member>, spans: seq<BitSpan>, i: nat)
    requires i < n <= |fields| && |spans| == n
  {
    && Home(fields, i) < |ms|
    && var (f, m) := (fields[i], ms[Home(fields, i)]);
       if f.bits.None? then PlacedAs(f, m)
       else
         && IsBitRun(m)
         && spans[i]
           == BitSpan(FirstFit(FreeBit(fields, ms, spans, i), f.bits.value, f.node.size), f.bits.value, f.node.size)
         && (RunStarts(fields, i) ==> m.naming == f.naming)
         && (RunEnds(fields, n, i) ==> m.offset + m.node.size == (spans[i].first + spans[i].bits + 7) / 8)
  }

  /** The console layout of the first `n` fields of a struct: its members, and where each bitfield lies. */
  ghost predicate LaidOut(fields: seq<Field>, n: nat, ms: seq<Member>, spans: seq<BitSpan>)
    requires n <= |fields|
  {
    && |spans| == n && |ms| == MemberCount(fields, n)
    && Tight(ms) && AllLaid(fields, n, ms, spans, n)
  }

  predicate AllLaid(fields: seq<Field>, n: nat, ms: seq<Member>, spans: seq<BitSpan>, upto: nat)
    requires upto <= n <= |fields| && |spans| == n
  {
    forall i :: 0 <= i < upto ==> FieldLaid(fields, n, ms, spans, i)
  }

  // ---- there is one layout ----

  /** The two layouts agree on everything up to field `i`. */
  predicate SameUpTo(fields: seq<Field>, ms: seq<Member>, spans: seq<BitSpan>, ms': seq<Member>, spans': seq<BitSpan>,
      i: nat)
    requires i < |fields| && |spans| == |spans'| == |fields| && |ms| == |ms'| && Home(fields, i) < |ms|
  {
    var h := Home(fields, i);
    && (forall m :: 0 <= m < h ==> ms[m] == ms'[m])
    && ms[h].offset == ms'[h].offset && ms[h].naming == ms'[h].naming
    && (fields[i].bits.Some? ==> spans[i] == spans'[i])
    && (fields[i].bits.None? || RunEnds(fields, |fields|, i) ==> ms[h] == ms'[h])
  }

  lemma SameEnds(ms: seq<Member>, ms': seq<Member>, h: nat)
    requires Tight(ms) && Tight(ms') && h < |ms| == |ms'| && ms[h].node.align == ms'[h].node.align
    requires forall m :: 0 <= m < h ==> ms[m] == ms'[m]
    ensures ms[h].offset == ms'[h].offset
  {
    hide AlignUp, AlignOk, End;
    assert EndBefore(ms, h) == EndBefore(ms', h);
  }

  lemma {:induction false} LayoutsAgree(fields: seq<Field>, ms: seq<Member>, spans: seq<BitSpan>, ms': seq<Member>,
      spans': seq<BitSpan>, i: nat)
    requires LaidOut(fields, |fields|, ms, spans) && LaidOut(fields, |fields|, ms', spans') && i < |fields|
    ensures Home(fields, i) < |ms| && SameUpTo(fields, ms, spans, ms', spans', i)
  {
    hide Tight, FirstFit;
    var h := Home(fields, i);
    assert FieldLaid(fields, |fields|, ms, spans, i) && FieldLaid(fields, |fields|, ms', spans', i);
    if i > 0 {
      LayoutsAgree(fields, ms, spans, ms', spans', i - 1);
    }
    if i == 0 || Home(fields, i - 1) < h {
      SameEnds(ms, ms', h);
    }
  }

  /** A body has exactly one layout: the members, and the place of every bitfield. */
  lemma LayoutIsUnique(fields: seq<Field>, ms: seq<Member>, spans: seq<BitSpan>, ms': seq<Member>, spans': seq<BitSpan>)
    requires LaidOut(fields, |fields|, ms, spans) && LaidOut(fields, |fields|, ms', spans')
    ensures ms == ms'
    ensures forall i :: 0 <= i < |fields| && fields[i].bits.Some? ==> spans[i] == spans'[i]
  {
    hide LaidOut, FieldLaid, Tight;
    assert |ms| == |ms'| == MemberCount(fields, |fields|)
      && |spans| == |spans'| == |fields| by { SameLengths(fields, ms, spans, ms', spans'); }
    if fields != [] {
      LayoutsAgree(fields, ms, spans, ms', spans', |fields| - 1);
    }
    forall i | 0 <= i < |fields| && fields[i].bits.Some?
      ensures spans[i] == spans'[i]
    {
      LayoutsAgree(fields, ms, spans, ms', spans', i);
    }
  }

  lemma SameLengths(fields: seq<Field>, ms: seq<Member>, spans: seq<BitSpan>, ms': seq<Member>, spans': seq<BitSpan>)
    requires LaidOut(fields, |fields|, ms, spans) && LaidOut(fields, |fields|, ms', spans')
    ensures |ms| == |ms'| == MemberCount(fields, |fields|) && |spans| == |spans'| == |fields|
  {
    hide FieldLaid, Tight;
  }

  // ---- where the bitfields lie ----

  /** Tight members are in order and disjoint, each at its alignment. */
  lemma TightIsOrdered(ms: seq<Member>)
    requires Tight(ms)
    ensures Ordered(ms)
  {
    hide Aligned, End, AlignOk;
    forall j | 0 <= j < |ms|
      ensures EndBefore(ms, j) <= ms[j].offset && Aligned(ms[j].offset, ms[j].node.align)
    {
      assert ms[j].offset == AlignUp(EndBefore(ms, j), ms[j].node.align);
    }
  }

  /** An earlier member ends before a later one starts. */
  lemma {:induction false} MembersApart(ms: seq<Member>, a: nat, b: nat)
    requires Ordered(ms) && a < b < |ms|
    ensures End(ms[a]) <= ms[b].offset
    decreases b
  {
    hide Aligned, Extent;
    assert EndBefore(ms, b) <= ms[b].offset;
    if a < b - 1 {
      MembersApart(ms, a, b - 1);
    }
  }

  lemma RunExtent(m: Member)
    requires IsBitRun(m)
    ensures End(m) == m.offset + m.node.size
  {
    assert Extent(m.node.size, 1) == m.node.size + Extent(m.node.size, 0);
  }

  predicate FieldsOk(fields: seq<Field>) {
    forall i :: 0 <= i < |fields| ==> FieldOk(fields[i])
  }

  /** One bitfield: after the start of its member, and not across a unit. */
  lemma {:induction false} BitsStart(fields: seq<Field>, ms: seq<Member>, spans: seq<BitSpan>, i: nat)
    requires FieldsOk(fields) && LaidOut(fields, |fields|, ms, spans) && i < |fields| && fields[i].bits.Some?
    ensures Home(fields, i) < |ms| && ms[Home(fields, i)].offset * 8 <= spans[i].first && NoStraddle(spans[i])
    ensures spans[i].bits == fields[i].bits.value && spans[i].unit == fields[i].node.size
    ensures !RunStarts(fields, i) ==> spans[i - 1].first + spans[i - 1].bits <= spans[i].first
  {
    hide FirstFit, Tight, NodeOk, NoStraddle;
    assert FieldLaid(fields, |fields|, ms, spans, i) && FieldOk(fields[i]);
    FitFacts(FreeBit(fields, ms, spans, i), fields[i].bits.value, fields[i].node.size);
    if !RunStarts(fields, i) {
      BitsStart(fields, ms, spans, i - 1);
    }
  }

  /** ... and before the end of its member. */
  lemma {:induction false} BitsEnd(fields: seq<Field>, ms: seq<Member>, spans: seq<BitSpan>, i: nat)
    requires FieldsOk(fields) && LaidOut(fields, |fields|, ms, spans) && i < |fields| && fields[i].bits.Some?
    ensures Home(fields, i) < |ms| && spans[i].first + spans[i].bits <= End(ms[Home(fields, i)]) * 8
    decreases |fields| - i
  {
    hide FirstFit, Tight, NodeOk, NoStraddle, End;
    var n := |fields|;
    assert FieldLaid(fields, n, ms, spans, i);
    if RunEnds(fields, n, i) {
      RunExtent(ms[Home(fields, i)]);
    } else {
      BitsEnd(fields, ms, spans, i + 1);
      BitsStart(fields, ms, spans, i + 1);
    }
  }

  lemma {:induction false} BitsFollow(fields: seq<Field>, ms: seq<Member>, spans: seq<BitSpan>, i: nat, j: nat)
    requires FieldsOk(fields) && LaidOut(fields, |fields|, ms, spans) && i < j < |fields|
    requires forall k :: i <= k <= j ==> fields[k].bits.Some?
    ensures spans[i].first + spans[i].bits <= spans[j].first
    decreases j
  {
    hide FirstFit, Tight, NodeOk, NoStraddle, FieldLaid, FieldOk;
    BitsStart(fields, ms, spans, j);
    if i < j - 1 {
      BitsFollow(fields, ms, spans, i, j - 1);
    }
  }

  /**
    In every layout each bitfield lies inside the bytes of its run's member, none straddles a unit of its own type, and
    bitfields declared one after the other lie one after the other, across runs as well.
  */
  lemma BitfieldsApart(fields: seq<Field>, ms: seq<Member>, spans: seq<BitSpan>, i: nat, j: nat)
    requires FieldsOk(fields) && LaidOut(fields, |fields|, ms, spans) && i < j < |fields|
    requires fields[i].bits.Some? && fields[j].bits.Some?
    ensures spans[i].first + spans[i].bits <= spans[j].first
  {
    hide FirstFit, Tight, NodeOk, NoStraddle, FieldLaid, End, FieldOk;
    HomesExactly(fields, i, j);
    if Home(fields, i) == Home(fields, j) {
      BitsFollow(fields, ms, spans, i, j);
    } else {
      BitsEnd(fields, ms, spans, i);
      BitsStart(fields, ms, spans, j);
      assert Tight(ms);
      TightIsOrdered(ms);
      MembersApart(ms, Home(fields, i), Home(fields, j));
    }
  }

  // ---- aggregate ----

  /**
    The layout of a struct or union body, or None. `ms` and `spans` are what the result may forget: the members of a
    disc struct, and where each bitfield lies.
  */
  method Aggregate(isStruct: bool, disc: bool, fields: seq<Field>)
    returns (r: Option<Node>, ghost ms: seq<Member>, ghost spans: seq<BitSpan>)
    requires FieldsOk(fields)
    ensures r.None? <==> exists i :: 0 <= i < |fields| && Unreadable(fields[i], isStruct)
    ensures r.Some? ==> NodeOk(r.value) && r.value.align == MaxAlign(fields)
    ensures r.Some? && isStruct ==>
      LaidOut(fields, |fields|, ms, spans) && r.value.size == AlignUp(EndBefore(ms, |ms|), r.value.align)
    ensures r.Some? && !isStruct ==> r.value.size == AlignUp(MaxExtent(fields), r.value.align)
    ensures r.Some? && (!isStruct || disc) ==> r.value == Node(r.value.size, r.value.align, [], T.Layout, false, [])
    ensures r.Some? && isStruct && !disc ==>
      && r.value.walkable && r.value.members == ms
      && r.value.kind == (if r.value.layout != [] then T.Supported else T.Layout)
      && (r.value.layout != [] ==> r.value.layout == Padded(ms, r.value.size))
      && (r.value.layout != [] <==> r.value.size > 0 && forall i :: 0 <= i < |fields| ==>
        fields[i].bits.None? && fields[i].node.layout != [])
  {
    hide NodeOk, FieldOk, FieldsOk, NodesOk, AllProvable, LaidOut, Extent, End, Aligned, AlignUp, EndBefore, MaxAlign;
    hide MaxExtent;
    hide Unreadable, Readable, AllPlain, Ordered, Padded, AlignOk, Placing, Ready;
    var placed: seq<Member>, offset: nat, align: nat, provable := [], 0, 1, !disc && isStruct;
    var run: Option<OpenRun> := None;
    ms, spans := [], [];
    NothingPlaced(fields);
    NothingRead(fields, isStruct);
    for n := 0 to |fields|
      invariant Readable(fields, n, isStruct) && (provable <==> !disc && isStruct && AllPlain(fields, n))
      invariant AlignOk(align) && align == MaxAlign(fields[..n]) && align >= 1
      invariant provable ==> run.None? && AllProvable(placed)
      invariant run.Some? ==> isStruct
      invariant isStruct ==> Placing(fields, n, placed, offset, run, ms, spans) && NodesOk(ms, align)
      invariant !isStruct ==> offset == MaxExtent(fields[..n])
    {
      var f := fields[n];
      FieldFacts(fields, n, align);
      OneMoreRead(fields, n, isStruct);
      if f.bits.Some? {
        if !isStruct {
          return None, ms, spans;
        }
        var o;
        o, ms, spans := PlaceBits(fields, n, placed, offset, run, f, ms, spans, align);
        run := Some(o);
        align, provable := Max(align, f.node.align), false;
      } else {
        if run.Some? {
          placed, offset := Closed(fields, n, placed, offset, run.value, ms, spans);
          run := None;
        } else if isStruct {
          NoRun(fields, n, placed, offset, ms, spans);
        }
        if f.count.None? {
          return None, ms, spans;
        }
        var start := if isStruct then AlignUp(offset, f.node.align) else 0;
        var m := Member(start, f.naming, f.node, f.count.value);
        if isStruct {
          AddMember(fields, n, placed, offset, ms, spans, m);
          NodesAdded(ms, align, m, Max(align, f.node.align));
        }
        ms, spans := ms + [m], spans + [BitSpan(0, 0, 0)];
        ProvableAdded(placed, m);
        placed := placed + [m];
        offset := if isStruct then AtEnd(m) else Max(offset, Extent(m.node.size, m.count));
        align, provable := Max(align, f.node.align), provable && f.node.layout != [];
      }
    }
    assert fields[..|fields|] == fields;
    AllRead(fields, isStruct);
    if run.Some? {
      placed, offset := Closed(fields, |fields|, placed, offset, run.value, ms, spans);
    } else if isStruct {
      NoRun(fields, |fields|, placed, offset, ms, spans);
    }
    if isStruct {
      PlacedFacts(fields, placed, offset, align, ms, spans);
    }
    var node := Finish(isStruct, disc, placed, offset, align, provable);
    r := Some(node);
  }

  predicate Readable(fields: seq<Field>, n: nat, isStruct: bool)
    requires n <= |fields|
  {
    forall i :: 0 <= i < n ==> !Unreadable(fields[i], isStruct)
  }

  predicate AllPlain(fields: seq<Field>, n: nat)
    requires n <= |fields|
  {
    forall i :: 0 <= i < n ==> fields[i].bits.None? && fields[i].node.layout != []
  }

  lemma NothingRead(fields: seq<Field>, isStruct: bool)
    ensures Readable(fields, 0, isStruct) && AllPlain(fields, 0) && MaxAlign(fields[..0]) == 1
      && MaxExtent(fields[..0]) == 0
  {}

  /** What one more field does to the conditions the loop gathers. */
  lemma OneMoreRead(fields: seq<Field>, n: nat, isStruct: bool)
    requires n < |fields|
    ensures Readable(fields, n + 1, isStruct) <==>
      Readable(fields, n, isStruct) && if fields[n].bits.Some? then isStruct else fields[n].count.Some?
    ensures !(if fields[n].bits.Some? then isStruct else fields[n].count.Some?) ==>
      exists i :: 0 <= i < |fields| && Unreadable(fields[i], isStruct)
    ensures AllPlain(fields, n + 1) <==> AllPlain(fields, n) && fields[n].bits.None? && fields[n].node.layout != []
    ensures MaxAlign(fields[..n + 1]) == Max(MaxAlign(fields[..n]), fields[n].node.align)
    ensures fields[n].count.Some? ==>
      MaxExtent(fields[..n + 1]) == Max(MaxExtent(fields[..n]), Extent(fields[n].node.size, fields[n].count.value))
  {
    hide Extent;
    assert fields[..n + 1][..n] == fields[..n] && fields[..n + 1][n] == fields[n];
    assert Unreadable(fields[n], isStruct) <==> !(if fields[n].bits.Some? then isStruct else fields[n].count.Some?);
  }

  lemma AllRead(fields: seq<Field>, isStruct: bool)
    requires Readable(fields, |fields|, isStruct)
    ensures !exists i :: 0 <= i < |fields| && Unreadable(fields[i], isStruct)
    ensures AllPlain(fields, |fields|) <==> forall i :: 0 <= i < |fields| ==>
      fields[i].bits.None? && fields[i].node.layout != []
  {}

  lemma FieldFacts(fields: seq<Field>, n: nat, align: nat)
    requires FieldsOk(fields) && n < |fields| && AlignOk(align)
    ensures FieldOk(fields[n]) && NodeOk(fields[n].node) && AlignOk(fields[n].node.align)
      && AlignOk(Max(align, fields[n].node.align))
  {
    AlignGrows(align, fields[n]);
  }

  /** One more bitfield: it opens a run or lengthens the open one. */
  method PlaceBits(ghost fields: seq<Field>, ghost n: nat, ghost placed: seq<Member>, offset: nat, run: Option<OpenRun>,
      f: Field,
                   ghost all: seq<Member>, ghost spans: seq<BitSpan>, ghost align: nat)
    returns (o: OpenRun, ghost ms: seq<Member>, ghost more: seq<BitSpan>)
    requires n < |fields| && f == fields[n] && f.bits.Some? && FieldOk(f)
    requires Placing(fields, n, placed, offset, run, all, spans) && NodesOk(all, align) && align >= 1
    ensures var was := if run.None? then OpenRun(offset, offset * 8, f.naming) else run.value;
      o == was.(next := FirstFit(was.next, f.bits.value, f.node.size) + f.bits.value)
    ensures Placing(fields, n + 1, placed, offset, Some(o), ms, more) && NodesOk(ms, Max(align, f.node.align))
  {
    hide Placing, InUnit, UnitUp, FirstFit, NodesOk, NodeOk;
    o := if run.None? then OpenRun(offset, offset * 8, f.naming) else run.value;
    var at := if InUnit(o.next, f.node.size) + f.bits.value > f.node.size * 8 then UnitUp(o.next, f.node.size)
      else o.next;
    FirstFitIs(o.next, f, at);
    ms, more := AddBits(fields, n, placed, offset, run, all, spans, o, at, align);
    o := o.(next := at + f.bits.value);
  }

  /** The node of a body whose fields have all been placed. */
  method Finish(isStruct: bool, disc: bool, placed: seq<Member>, offset: nat, align: nat, provable: bool)
      returns (n: Node)
    requires AlignOk(align)
    requires isStruct ==> Ordered(placed) && NodesOk(placed, align) && offset == EndBefore(placed, |placed|)
    requires provable ==> isStruct && !disc && AllProvable(placed)
    ensures NodeOk(n) && n.align == align && n.size == AlignUp(offset, align)
    ensures !isStruct || disc ==> n == Node(n.size, align, [], T.Layout, false, [])
    ensures isStruct && !disc ==>
      && n.walkable && n.members == placed
      && (n.layout != [] ==>
        Ordered(placed) && EndBefore(placed, |placed|) <= n.size
        && n.layout == Padded(placed, n.size))
      && (n.layout != [] <==> provable && n.size > 0)
      && n.kind == (if n.layout != [] then T.Supported else T.Layout)
  {
    hide NodeOk, NodesOk, AllProvable, AlignUp, Ordered, EndBefore, Padded;
    var size := AlignUp(offset, align);
    if !isStruct || disc {
      ClosedNodeOk(size, align, offset);
      return Node(size, align, [], T.Layout, false, []);
    }
    SizeEnough(offset, align);
    var layout := if provable then Padded(placed, size) else [];
    n := Node(size, align, layout, if layout != [] then T.Supported else T.Layout, true, placed);
    WalkableNodeOk(n, offset, provable);
  }

  lemma SizeEnough(offset: nat, align: nat)
    requires AlignOk(align)
    ensures offset <= AlignUp(offset, align)
  {}

  /** The open run of bitfields: its first byte, the next free bit, and the name of its first bitfield. */
  datatype OpenRun = OpenRun(first: nat, next: nat, naming: Naming)

  function AtEnd(m: Member): (end: nat)
    ensures end == End(m)
  {
    m.offset + Extent(m.node.size, m.count)
  }

  /**
    Bitfields that follow each other share one refused member, which carries the name of the first and ends with the
    byte of the last.
  */
  method CloseRun(placed: seq<Member>, run: OpenRun) returns (out: seq<Member>, end: nat)
    requires run.first * 8 <= run.next
    ensures end == (run.next + 7) / 8 && run.first <= end
    ensures out == placed + [RunMember(run.first, end, run.naming)]
  {
    end := (run.next + 7) / 8;
    out := placed + [RunMember(run.first, end, run.naming)];
  }

  /** The open run closed, and what has been placed with it. */
  method Closed(ghost fields: seq<Field>, ghost n: nat, placed: seq<Member>, ghost offset: nat, run: OpenRun,
                ghost all: seq<Member>, ghost spans: seq<BitSpan>)
    returns (out: seq<Member>, end: nat)
    requires n <= |fields| && Placing(fields, n, placed, offset, Some(run), all, spans)
    ensures Ready(fields, n, out, end, all, spans)
    ensures run.first <= end == (run.next + 7) / 8 && out == placed + [RunMember(run.first, end, run.naming)]
  {
    RunFits(fields, n, placed, offset, run, all, spans);
    out, end := CloseRun(placed, run);
    ClosedRun(fields, n, placed, offset, run, all, spans, out, end);
  }

  /** What the loop keeps: `all` is what has been placed, with the open run as if it were closed now. */
  ghost predicate Placing(fields: seq<Field>, n: nat, placed: seq<Member>, offset: nat, run: Option<OpenRun>,
      all: seq<Member>, spans: seq<BitSpan>)
    requires n <= |fields|
  {
    && LaidOut(fields, n, all, spans)
    && offset == EndBefore(placed, |placed|)
    && (run.Some? <==> n > 0 && fields[n - 1].bits.Some?)
    && match run
       case None => all == placed
       case Some(o) =>
         && o.first == offset && o.first * 8 <= o.next
         && all == placed + [RunMember(o.first, (o.next + 7) / 8, o.naming)]
         && |spans| > 0 && o.next == spans[|spans| - 1].first + spans[|spans| - 1].bits
  }

  /** No run is open. */
  ghost predicate Ready(fields: seq<Field>, n: nat, placed: seq<Member>, offset: nat, all: seq<Member>,
      spans: seq<BitSpan>)
    requires n <= |fields|
  {
    LaidOut(fields, n, all, spans) && all == placed && offset == EndBefore(placed, |placed|)
  }

  lemma NoRun(fields: seq<Field>, n: nat, placed: seq<Member>, offset: nat, all: seq<Member>, spans: seq<BitSpan>)
    requires n <= |fields| && Placing(fields, n, placed, offset, None, all, spans)
    ensures Ready(fields, n, placed, offset, all, spans)
  {
    hide LaidOut;
  }

  lemma RunFits(fields: seq<Field>, n: nat, placed: seq<Member>, offset: nat, run: OpenRun, all: seq<Member>,
      spans: seq<BitSpan>)
    requires n <= |fields| && Placing(fields, n, placed, offset, Some(run), all, spans)
    ensures run.first * 8 <= run.next
  {
    hide LaidOut;
  }

  lemma NothingPlaced(fields: seq<Field>)
    ensures Placing(fields, 0, [], 0, None, [], []) && AllProvable([]) && NodesOk([], 1) && AlignOk(1)
  {}

  lemma FirstFitIs(next: nat, f: Field, at: nat)
    requires f.bits.Some? && FieldOk(f)
    requires at == if InUnit(next, f.node.size) + f.bits.value > f.node.size * 8 then UnitUp(next, f.node.size)
      else next
    ensures at == FirstFit(next, f.bits.value, f.node.size) && next <= at
  {
    hide NodeOk, NoStraddle, InUnit, UnitUp;
    FitFacts(next, f.bits.value, f.node.size);
  }

  lemma ClosedRun(fields: seq<Field>, n: nat, placed: seq<Member>, offset: nat, run: OpenRun, all: seq<Member>,
      spans: seq<BitSpan>, out: seq<Member>, end: nat)
    requires n <= |fields| && Placing(fields, n, placed, offset, Some(run), all, spans)
    requires end == (run.next + 7) / 8 && run.first <= end && out == placed + [RunMember(run.first, end, run.naming)]
    ensures Ready(fields, n, out, end, all, spans)
  {
    hide LaidOut, Extent;
    RunExtent(RunMember(run.first, end, run.naming));
  }

  lemma PlacedFacts(fields: seq<Field>, placed: seq<Member>, offset: nat, align: nat, all: seq<Member>,
      spans: seq<BitSpan>)
    requires Ready(fields, |fields|, placed, offset, all, spans) && AlignOk(align)
    ensures LaidOut(fields, |fields|, all, spans) && all == placed && offset == EndBefore(placed, |placed|)
    ensures Ordered(placed) && offset <= AlignUp(offset, align)
  {
    hide AllLaid, Tight, Ordered;
    TightIsOrdered(all);
  }

  lemma ClosedNodeOk(size: nat, align: nat, offset: nat)
    requires AlignOk(align) && size == AlignUp(offset, align)
    ensures NodeOk(Node(size, align, [], T.Layout, false, []))
  {}

  lemma WalkableNodeOk(n: Node, offset: nat, provable: bool)
    requires Ordered(n.members) && NodesOk(n.members, n.align) && AlignOk(n.align)
    requires offset == EndBefore(n.members, |n.members|) && n.size == AlignUp(offset, n.align) && n.walkable
    requires provable ==> AllProvable(n.members) && offset <= n.size && n.layout == Padded(n.members, n.size)
    requires !provable ==> n.layout == []
    requires n.kind == if n.layout != [] then T.Supported else T.Layout
    ensures NodeOk(n)
    ensures n.layout != [] <==> provable && n.size > 0
  {
    hide NodeOk, Ordered, Aligned, AlignUp, NodesOk, Widths, AllProvable;
    if provable {
      PaddedSum(n.members, n.size);
      PeriodZero(n.layout);
    }
    NodeOkFrom(n, offset);
  }

  lemma PaddedSum(ms: seq<Member>, size: nat)
    requires Ordered(ms) && AllProvable(ms) && EndBefore(ms, |ms|) <= size
    ensures T.Positive(Padded(ms, size)) && T.Period(Padded(ms, size)) == size
  {
    hide Ordered, AllProvable, Widths;
    var gap := size - EndBefore(ms, |ms|);
    WidthsSum(ms);
    OnesPeriod(gap);
    T.PeriodAppend(Widths(ms), Ones(gap));
    PositiveAppend(Widths(ms), Ones(gap));
  }

  lemma NodeOkFrom(n: Node, offset: nat)
    requires Ordered(n.members) && NodesOk(n.members, n.align) && AlignOk(n.align)
    requires offset == EndBefore(n.members, |n.members|)
    requires n.size == AlignUp(offset, n.align) && (n.kind.Supported? <==> n.layout != [])
    requires T.Positive(n.layout) && (n.layout != [] ==> T.Period(n.layout) == n.size > 0)
    ensures NodeOk(n)
  {
    hide T.Positive, T.Period, Ordered;
  }

  lemma PeriodZero(layout: seq<nat>)
    requires T.Positive(layout)
    ensures T.Period(layout) == 0 <==> layout == []
  {}

  lemma AlignGrows(align: nat, f: Field)
    requires AlignOk(align) && FieldOk(f)
    ensures AlignOk(f.node.align) && AlignOk(Max(align, f.node.align))
  {}

  predicate NodesOk(ms: seq<Member>, align: nat) {
    forall j :: 0 <= j < |ms| ==> NodeOk(ms[j].node) && ms[j].node.align <= align
  }

  lemma NodesAdded(ms: seq<Member>, align: nat, m: Member, more: nat)
    requires NodesOk(ms, align) && align <= more && NodeOk(m.node) && m.node.align <= more
    ensures NodesOk(ms + [m], more)
  {
    hide NodeOk;
  }

  lemma NodesFewer(ms: seq<Member>, align: nat)
    requires NodesOk(ms, align) && ms != []
    ensures NodesOk(ms[..|ms| - 1], align)
  {
    hide NodeOk;
  }

  lemma ProvableAdded(placed: seq<Member>, m: Member)
    ensures AllProvable(placed) && NodeOk(m.node) && m.node.layout != [] ==> AllProvable(placed + [m])
  {}

  lemma TightAppend(ms: seq<Member>, m: Member)
    requires Tight(ms) && AlignOk(m.node.align) && m.offset == AlignUp(EndBefore(ms, |ms|), m.node.align)
    ensures Tight(ms + [m])
  {
    hide AlignOk, AlignUp, End;
    var all := ms + [m];
    forall j | 0 <= j < |all|
      ensures AlignOk(all[j].node.align) && all[j].offset == AlignUp(EndBefore(all, j), all[j].node.align)
    {
      if j < |ms| {
        assert all[j] == ms[j] && (j > 0 ==> all[j - 1] == ms[j - 1]);
        assert EndBefore(ms, j) == EndBefore(all, j);
      } else {
        assert all[j] == m && (j > 0 ==> all[j - 1] == ms[j - 1]);
      }
    }
  }

  lemma TightFewer(ms: seq<Member>)
    requires Tight(ms) && ms != []
    ensures Tight(ms[..|ms| - 1])
  {
    hide AlignOk, AlignUp, End;
    var front := ms[..|ms| - 1];
    forall j | 0 <= j < |front|
      ensures AlignOk(front[j].node.align) && front[j].offset == AlignUp(EndBefore(front, j), front[j].node.align)
    {
      assert EndBefore(ms, j) == EndBefore(front, j);
    }
  }

  /** What was laid out stays laid out when a member is added for the next field. */
  lemma StaysLaid(fields: seq<Field>, n: nat, ms: seq<Member>, spans: seq<BitSpan>, m: Member, s: BitSpan)
    requires n < |fields| && LaidOut(fields, n, ms, spans)
    requires fields[n].bits.None? || n == 0 || fields[n - 1].bits.None?
    ensures MemberCount(fields, n + 1) == |ms| + 1 && Home(fields, n) == |ms|
    ensures AllLaid(fields, n + 1, ms + [m], spans + [s], n)
  {
    hide Tight, FirstFit, PlacedAs, IsBitRun;
    var next, all, more := n + 1, ms + [m], spans + [s];
    forall i | 0 <= i < n
      ensures FieldLaid(fields, next, all, more, i)
    {
      assert FieldLaid(fields, n, ms, spans, i);
    }
  }

  lemma AddMember(fields: seq<Field>, n: nat, placed: seq<Member>, offset: nat, all: seq<Member>, spans: seq<BitSpan>,
      m: Member)
    requires n < |fields| && Ready(fields, n, placed, offset, all, spans)
    requires PlacedAs(fields[n], m) && AlignOk(m.node.align) && m.offset == AlignUp(offset, m.node.align)
    ensures Placing(fields, n + 1, placed + [m], End(m), None, all + [m], spans + [BitSpan(0, 0, 0)])
  {
    hide Tight, FirstFit, PlacedAs, Extent, AlignUp;
    OrdinaryField(fields[n], m);
    StaysLaid(fields, n, all, spans, m, BitSpan(0, 0, 0));
    TightAppend(all, m);
    assert FieldLaid(fields, n + 1, all + [m], spans + [BitSpan(0, 0, 0)], n);
  }

  lemma OrdinaryField(f: Field, m: Member)
    requires PlacedAs(f, m)
    ensures f.bits.None?
  {}

  /** The next bitfield opens a run, or lengthens the open one. */
  lemma AddBits(fields: seq<Field>, n: nat, placed: seq<Member>, offset: nat, run: Option<OpenRun>, all: seq<Member>,
      spans: seq<BitSpan>,
                o: OpenRun, at: nat, align: nat)
    returns (ms: seq<Member>, more: seq<BitSpan>)
    requires n < |fields| && Placing(fields, n, placed, offset, run, all, spans) && fields[n].bits.Some?
    requires NodesOk(all, align) && align >= 1
    requires o == if run.None? then OpenRun(offset, offset * 8, fields[n].naming) else run.value
    requires at == FirstFit(o.next, fields[n].bits.value, fields[n].node.size) && o.next <= at
    ensures Placing(fields, n + 1, placed, offset, Some(o.(next := at + fields[n].bits.value)), ms, more)
    ensures NodesOk(ms, Max(align, fields[n].node.align))
  {
    hide Tight, FirstFit, Extent, AlignUp, NodesOk, LaidOut;
    var f := fields[n];
    var m := RunMember(o.first, (at + f.bits.value + 7) / 8, o.naming);
    RunNodeOk(m.node, o.first);
    ms, more := placed + [m], spans + [BitSpan(at, f.bits.value, f.node.size)];
    if run.None? {
      AddFirstBit(fields, n, all, spans, m, at);
    } else {
      assert all[..|all| - 1] == placed;
      SpanCount(fields, n, all, spans);
      NodesFewer(all, align);
      AddNextBit(fields, n, all, spans, m, at);
    }
    NodesAdded(placed, align, m, Max(align, f.node.align));
  }

  lemma SpanCount(fields: seq<Field>, n: nat, all: seq<Member>, spans: seq<BitSpan>)
    requires n <= |fields| && LaidOut(fields, n, all, spans)
    ensures |spans| == n
  {}

  lemma RunNodeOk(n: Node, first: nat)
    requires n == Node(n.size, 1, [], T.Layout, false, [])
    ensures NodeOk(n) && AlignUp(first, 1) == first
  {}

  lemma AddFirstBit(fields: seq<Field>, n: nat, all: seq<Member>, spans: seq<BitSpan>, m: Member, at: nat)
    requires n < |fields| && LaidOut(fields, n, all, spans) && RunStarts(fields, n)
    requires at == FirstFit(m.offset * 8, fields[n].bits.value, fields[n].node.size)
      && m.offset == EndBefore(all, |all|)
    requires IsBitRun(m) && m.naming == fields[n].naming
      && m.offset + m.node.size == (at + fields[n].bits.value + 7) / 8
    ensures LaidOut(fields, n + 1, all + [m], spans + [BitSpan(at, fields[n].bits.value, fields[n].node.size)])
  {
    hide Tight, FirstFit, Extent, AlignUp;
    var s := BitSpan(at, fields[n].bits.value, fields[n].node.size);
    RunNodeOk(m.node, m.offset);
    StaysLaid(fields, n, all, spans, m, s);
    TightAppend(all, m);
    assert FieldLaid(fields, n + 1, all + [m], spans + [s], n);
  }

  lemma AddNextBit(fields: seq<Field>, n: nat, all: seq<Member>, spans: seq<BitSpan>, m: Member, at: nat)
    requires 0 < n < |fields| && LaidOut(fields, n, all, spans) && fields[n - 1].bits.Some? && fields[n].bits.Some?
    requires all != [] && m.offset == all[|all| - 1].offset && m.naming == all[|all| - 1].naming && IsBitRun(m)
    requires at == FirstFit(spans[n - 1].first + spans[n - 1].bits, fields[n].bits.value, fields[n].node.size)
    requires m.offset + m.node.size == (at + fields[n].bits.value + 7) / 8
    ensures LaidOut(fields, n + 1, all[..|all| - 1] + [m],
      spans + [BitSpan(at, fields[n].bits.value, fields[n].node.size)])
  {
    hide Tight, FirstFit, Extent, AlignUp, PlacedAs;
    var last := |all| - 1;
    var ms, more := all[..last] + [m], spans + [BitSpan(at, fields[n].bits.value, fields[n].node.size)];
    assert FieldLaid(fields, n, all, spans, n - 1);
    RunResized(all, m);
    var next := n + 1;
    forall i | 0 <= i < n
      ensures FieldLaid(fields, next, ms, more, i)
    {
      assert FieldLaid(fields, n, all, spans, i);
      if i < n - 1 {
        HomesExactly(fields, i, n - 1);
        if i + 1 < n - 1 {
          HomesExactly(fields, i + 1, n - 1);
        }
      }
    }
    assert FieldLaid(fields, n + 1, ms, more, n);
  }

  lemma RunResized(all: seq<Member>, m: Member)
    requires Tight(all) && all != [] && m.offset == all[|all| - 1].offset && m.node.align == all[|all| - 1].node.align
    ensures Tight(all[..|all| - 1] + [m])
  {
    hide AlignUp, End;
    var front := all[..|all| - 1];
    TightFewer(all);
    assert EndBefore(all, |all| - 1) == EndBefore(front, |front|);
    TightAppend(front, m);
  }
}
