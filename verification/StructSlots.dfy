/** What the widths of a provable struct say of each byte (tools/gecko_targets.py, StructTypes.aggregate). */
module StructSlots {
  import opened StructLayout
  import R = StructRows
  import T = GeckoTargets

  lemma TailOfJoined(x: seq<nat>, y: seq<nat>)
    requires x != []
    ensures x + y != [] && (x + y)[0] == x[0] && (x + y)[1..] == x[1..] + y
    ensures T.Period(x) == x[0] + T.Period(x[1..])
  {}

  lemma {:induction false} SlotInFirst(x: seq<nat>, y: seq<nat>, at: int, a: int)
    requires at <= a < at + T.Period(x)
    ensures R.SlotIn(x + y, at, a) == R.SlotIn(x, at, a)
    decreases |x|
  {
    assert x != [];
    hide T.Period;
    TailOfJoined(x, y);
    if a >= at + x[0] {
      SlotInFirst(x[1..], y, at + x[0], a);
    }
  }

  lemma {:induction false} SlotInSecond(x: seq<nat>, y: seq<nat>, at: int, a: int)
    requires a >= at + T.Period(x)
    ensures R.SlotIn(x + y, at, a) == R.SlotIn(y, at + T.Period(x), a)
    decreases |x|
  {
    if x == [] {
      assert x + y == y && T.Period(x) == 0;
    } else {
      hide T.Period;
      TailOfJoined(x, y);
      SlotInSecond(x[1..], y, at + x[0], a);
    }
  }

  lemma {:induction false} OnesSlots(n: nat, at: int, a: int)
    requires at <= a < at + n
    ensures R.SlotIn(Ones(n), at, a) == R.Element(a, 1)
  {
    assert Ones(n)[1..] == Ones(n - 1);
    if a > at {
      OnesSlots(n - 1, at + 1, a);
    }
  }

  lemma {:induction false} RepeatSlots(layout: seq<nat>, count: nat, at: int, a: int)
    requires T.Positive(layout) && layout != [] && at <= a < at + Extent(T.Period(layout), count)
    ensures R.SlotIn(RepeatLayout(layout, count), at, a) == R.SlotRepeated(layout, at, count, a)
    decreases count
  {
    var period, rest := T.Period(layout), RepeatLayout(layout, count - 1);
    if a < at + period {
      SlotInFirst(layout, rest, at, a);
    } else {
      SlotInSecond(layout, rest, at, a);
      RepeatSlots(layout, count - 1, at + period, a);
    }
  }

  /** What the widths of the members say of a byte: a member's own element, or a single byte between members. */
  ghost predicate Says(ms: seq<Member>, slot: R.Slot, at: int, a: int) {
    && (forall j :: 0 <= j < |ms| && at + ms[j].offset <= a < at + End(ms[j]) ==> slot == OwnSlot(ms[j], at, a))
    && ((forall j :: 0 <= j < |ms| ==> !(at + ms[j].offset <= a < at + End(ms[j]))) ==> slot == R.Element(a, 1))
  }

  function OwnSlot(m: Member, at: int, a: int): R.Slot {
    R.SlotRepeated(m.node.layout, at + m.offset, m.count, a)
  }

  lemma {:induction false} WidthsSlots(ms: seq<Member>, at: int, a: int)
    requires Ordered(ms) && AllProvable(ms) && at <= a < at + EndBefore(ms, |ms|)
    ensures Says(ms, R.SlotIn(Widths(ms), at, a), at, a)
  {
    hide Ordered, AllProvable, NodeOk, Ones, RepeatLayout, Extent, OwnSlot, Says;
    hide R.SlotIn, R.SlotRepeated, T.Period, T.Positive;
    var last := |ms| - 1;
    var front, m := ms[..last], ms[last];
    OrderedPrefix(ms, last);
    ProvableFront(ms);
    WidthsSum(front);
    LastMember(ms);
    var end := EndBefore(front, last);
    var ones, own := Ones(m.offset - end), RepeatLayout(m.node.layout, m.count);
    OnesPeriod(m.offset - end);
    RepeatPeriod(m.node.layout, m.count);
    T.PeriodAppend(Widths(front), ones);
    if a < at + end {
      SlotInFirst(Widths(front) + ones, own, at, a);
      SlotInFirst(Widths(front), ones, at, a);
      WidthsSlots(front, at, a);
      EarlierSays(ms, R.SlotIn(Widths(ms), at, a), at, a);
    } else if a < at + m.offset {
      SlotInFirst(Widths(front) + ones, own, at, a);
      SlotInSecond(Widths(front), ones, at, a);
      OnesSlots(m.offset - end, at + end, a);
      BetweenSays(ms, R.SlotIn(Widths(ms), at, a), at, a);
    } else {
      SlotInSecond(Widths(front) + ones, own, at, a);
      RepeatSlots(m.node.layout, m.count, at + m.offset, a);
      LastSays(ms, R.SlotIn(Widths(ms), at, a), at, a);
    }
  }

  lemma BetweenSays(ms: seq<Member>, slot: R.Slot, at: int, a: int)
    requires Ordered(ms) && ms != [] && at + EndBefore(ms, |ms| - 1) <= a < at + ms[|ms| - 1].offset
    requires slot == R.Element(a, 1)
    ensures Says(ms, slot, at, a)
  {
    hide OwnSlot, Ordered, End;
    PastFront(ms, at, a);
  }

  lemma LastSays(ms: seq<Member>, slot: R.Slot, at: int, a: int)
    requires Ordered(ms) && ms != [] && at + EndBefore(ms, |ms| - 1) <= a
    requires at + ms[|ms| - 1].offset <= a < at + End(ms[|ms| - 1])
    requires slot == R.SlotRepeated(ms[|ms| - 1].node.layout, at + ms[|ms| - 1].offset, ms[|ms| - 1].count, a)
    ensures Says(ms, slot, at, a)
  {
    hide Ordered, End;
    PastFront(ms, at, a);
  }

  lemma ProvableFront(ms: seq<Member>)
    requires AllProvable(ms) && ms != []
    ensures AllProvable(ms[..|ms| - 1])
  {
    hide NodeOk;
  }

  lemma LastMember(ms: seq<Member>)
    requires Ordered(ms) && AllProvable(ms) && ms != []
    ensures var (front, m) := (ms[..|ms| - 1], ms[|ms| - 1]);
      && EndBefore(front, |front|) <= m.offset && EndBefore(ms, |ms|) == End(m)
      && m.node.layout != [] && T.Positive(m.node.layout) && T.Period(m.node.layout) == m.node.size
  {
    OrderedPrefix(ms, |ms| - 1);
    var k := |ms| - 1;
    assert NodeOk(ms[k].node) && EndBefore(ms, k) <= ms[k].offset;
  }

  lemma EarlierSays(ms: seq<Member>, slot: R.Slot, at: int, a: int)
    requires ms != [] && Says(ms[..|ms| - 1], slot, at, a) && a < at + ms[|ms| - 1].offset
    ensures Says(ms, slot, at, a)
  {
    hide OwnSlot, End;
    var front := ms[..|ms| - 1];
    assert forall j :: 0 <= j < |front| ==> front[j] == ms[j];
  }

  lemma PastFront(ms: seq<Member>, at: int, a: int)
    requires Ordered(ms) && ms != [] && a >= at + EndBefore(ms, |ms| - 1)
    ensures forall j :: 0 <= j < |ms| - 1 ==> !(at + ms[j].offset <= a < at + End(ms[j]))
  {
    forall j | 0 <= j < |ms| - 1
      ensures !(at + ms[j].offset <= a < at + End(ms[j]))
    {
      if j < |ms| - 2 {
        MembersApart(ms, j, |ms| - 2);
      }
      EndAfterStart(ms[|ms| - 2]);
    }
  }

  lemma EndAfterStart(m: Member)
    ensures m.offset <= End(m)
  {}

  /**
    A provable struct offered whole is the same as its members: its widths say of each byte what the widths of the
    member that holds it say at the member's own place, and that a byte between members stands alone.
  */
  lemma PaddedSlots(ms: seq<Member>, size: nat, at: int, a: int)
    requires Ordered(ms) && AllProvable(ms) && EndBefore(ms, |ms|) <= size && at <= a < at + size
    ensures Says(ms, R.SlotIn(Padded(ms, size), at, a), at, a)
  {
    hide Ordered, AllProvable, Widths, Ones, OwnSlot, R.SlotIn;
    var end := EndBefore(ms, |ms|);
    WidthsSum(ms);
    if a < at + end {
      SlotInFirst(Widths(ms), Ones(size - end), at, a);
      WidthsSlots(ms, at, a);
    } else {
      SlotInSecond(Widths(ms), Ones(size - end), at, a);
      OnesSlots(size - end, at + end, a);
      PastAll(ms, at, a);
    }
  }

  lemma PastAll(ms: seq<Member>, at: int, a: int)
    requires Ordered(ms) && a >= at + EndBefore(ms, |ms|)
    ensures forall j :: 0 <= j < |ms| ==> !(at + ms[j].offset <= a < at + End(ms[j]))
  {
    forall j | 0 <= j < |ms|
      ensures !(at + ms[j].offset <= a < at + End(ms[j]))
    {
      if j < |ms| - 1 {
        MembersApart(ms, j, |ms| - 1);
      }
      EndAfterStart(ms[|ms| - 1]);
    }
  }
}
