/**
  What moves natively: rows that walk joins are neighbours on the console, and the pointers before them are wider
  natively (tools/gecko_targets.py, StructTypes.walk).
*/
module StructMoves {
  import opened Bytes
  import opened StructLayout
  import R = StructRows
  import T = GeckoTargets

  // ---- joining neighbours is safe natively ----

  predicate SizesOk(members: seq<(nat, nat)>) {
    forall i :: 0 <= i < |members| ==> AlignOk(members[i].1)
  }

  /** The starts of members of the given sizes and alignments, placed from `at`. */
  function Starts(members: seq<(nat, nat)>, at: nat): (s: seq<nat>)
    requires SizesOk(members)
    ensures |s| == |members|
  {
    if members == [] then []
    else
      var start := AlignUp(at, members[0].1);
      [start] + Starts(members[1..], start + members[0].0)
  }

  /** ... and where the last of them ends. */
  function Ends(members: seq<(nat, nat)>, at: nat): nat
    requires SizesOk(members)
  {
    if members == [] then at else Ends(members[1..], AlignUp(at, members[0].1) + members[0].0)
  }

  lemma MovedUp(at: nat, moved: nat, a: nat)
    requires AlignOk(a) && a <= 4
    ensures AlignUp(at + 4 * moved, a) == AlignUp(at, a) + 4 * moved
  {}

  /**
    Members aligned to 4 or less, placed from a start moved by a multiple of 4, keep every distance and the total
    extent.
  */
  lemma {:induction false} RelocationKeepsDistances(members: seq<(nat, nat)>, at: nat, moved: nat)
    requires SizesOk(members) && forall i :: 0 <= i < |members| ==> members[i].1 <= 4
    ensures forall i :: 0 <= i < |members| ==> Starts(members, at + 4 * moved)[i] == Starts(members, at)[i] + 4 * moved
    ensures Ends(members, at + 4 * moved) == Ends(members, at) + 4 * moved
  {
    hide AlignUp, AlignOk;
    if members != [] {
      var a := members[0].1;
      MovedUp(at, moved, a);
      RelocationKeepsDistances(members[1..], AlignUp(at, a) + members[0].0, moved);
    }
  }

  /** Sizes and alignments of members `i` to `j`. */
  function Shape(ms: seq<Member>, i: nat, j: nat): (s: seq<(nat, nat)>)
    requires i <= j <= |ms|
    ensures |s| == j - i
  {
    seq(j - i, k requires 0 <= k < j - i => (Extent(ms[i + k].node.size, ms[i + k].count), ms[i + k].node.align))
  }

  lemma ShapeStep(ms: seq<Member>, i: nat, j: nat)
    requires Tight(ms) && i < j <= |ms|
    ensures SizesOk(Shape(ms, i, j)) && Shape(ms, i, j)[1..] == Shape(ms, i + 1, j)
    ensures Shape(ms, i, j)[0] == (Extent(ms[i].node.size, ms[i].count), ms[i].node.align)
    ensures AlignUp(ms[i].offset, ms[i].node.align) == ms[i].offset == AlignUp(EndBefore(ms, i), ms[i].node.align)
  {
    hide AlignUp, Extent, EndBefore;
    forall k | 0 <= k < j - i
      ensures AlignOk(Shape(ms, i, j)[k].1)
    {
      assert ms[i + k].offset == AlignUp(EndBefore(ms, i + k), ms[i + k].node.align);
    }
    assert ms[i].offset == AlignUp(EndBefore(ms, i), ms[i].node.align);
    AlignedAlready(EndBefore(ms, i), ms[i].node.align);
  }

  lemma AlignedAlready(x: nat, a: nat)
    requires AlignOk(a)
    ensures AlignUp(AlignUp(x, a), a) == AlignUp(x, a)
  {
    RoundedAgain((x + 7) / 8, 8);
    RoundedAgain((x + 3) / 4, 4);
    RoundedAgain((x + 1) / 2, 2);
  }

  lemma RoundedAgain(q: nat, m: nat)
    requires m > 0
    ensures (m * q + m - 1) / m == q
  {
    ModUnique(m * q + m - 1, m, q, m - 1);
  }

  /** The members from `i` on start here, all moved by as much. */
  predicate StartTogether(starts: seq<nat>, ms: seq<Member>, i: nat, moved: nat)
    requires i + |starts| <= |ms|
  {
    forall k :: 0 <= k < |starts| ==> starts[k] == ms[i + k].offset + moved
  }

  /** Members in a row are placed by these starts, from the first one's own offset or from the end before it. */
  lemma {:induction false} TightIsStarts(ms: seq<Member>, i: nat, j: nat, at: nat)
    requires Tight(ms) && i <= j <= |ms| && (at == EndBefore(ms, i) || (i < j && at == ms[i].offset))
    ensures SizesOk(Shape(ms, i, j))
    ensures StartTogether(Starts(Shape(ms, i, j), at), ms, i, 0)
    ensures Ends(Shape(ms, i, j), at) == EndBefore(ms, j)
    decreases j - i
  {
    hide Tight, AlignUp, Extent, AlignOk;
    if i < j {
      ShapeStep(ms, i, j);
      TightIsStarts(ms, i + 1, j, EndBefore(ms, i + 1));
    }
  }

  /** An 8-byte alignment shows in the widths. */
  predicate AlignShows(n: Node) {
    n.layout != [] && n.align > 4 ==> 8 in n.layout
  }

  /** Each start is at its member's alignment. */
  lemma {:induction false} StartsAreAligned(members: seq<(nat, nat)>, at: nat, k: nat)
    requires SizesOk(members) && k < |members|
    ensures Aligned(Starts(members, at)[k], members[k].1)
  {
    hide AlignUp, AlignOk, Aligned;
    if k > 0 {
      StartsAreAligned(members[1..], AlignUp(at, members[0].1) + members[0].0, k - 1);
    } else {
      assert AlignOk(members[0].1);
    }
  }

  /** Moved by every multiple of 4, the members `i` to `j` keep all their distances. */
  ghost predicate MovesTogether(ms: seq<Member>, i: nat, j: nat)
    requires i < j <= |ms| && SizesOk(Shape(ms, i, j))
  {
    forall moved: nat :: StartTogether(Starts(Shape(ms, i, j), ms[i].offset + 4 * moved), ms, i, 4 * moved)
  }

  /** Members whose alignment is 4 or less keep all their distances and their total extent. */
  lemma SmallAlignsMove(ms: seq<Member>, i: nat, j: nat, moved: nat)
    requires Tight(ms) && i < j <= |ms| && forall k :: i <= k < j ==> ms[k].node.align <= 4
    ensures SizesOk(Shape(ms, i, j))
    ensures StartTogether(Starts(Shape(ms, i, j), ms[i].offset + 4 * moved), ms, i, 4 * moved)
    ensures Ends(Shape(ms, i, j), ms[i].offset + 4 * moved) == EndBefore(ms, j) + 4 * moved
  {
    hide Tight, AlignUp, Extent, AlignOk, Starts, Ends;
    var shape, at := Shape(ms, i, j), ms[i].offset;
    TightIsStarts(ms, i, j, at);
    RelocationKeepsDistances(shape, at, moved);
    var here, there := Starts(shape, at), Starts(shape, at + 4 * moved);
    forall k | 0 <= k < j - i
      ensures there[k] == ms[i + k].offset + 4 * moved
    {
      assert here[k] == ms[i + k].offset + 0;
    }
  }

  /** A member aligned to 8 does not move by 4. */
  lemma EightDoesNotMove(ms: seq<Member>, i: nat, j: nat, k: nat)
    requires Tight(ms) && i <= k < j <= |ms| && ms[k].node.align == 8 && SizesOk(Shape(ms, i, j))
    ensures !StartTogether(Starts(Shape(ms, i, j), ms[i].offset + 4), ms, i, 4)
  {
    hide AlignUp, Extent, Starts;
    StartsAreAligned(Shape(ms, i, j), ms[i].offset + 4, k - i);
    assert ms[k].offset == AlignUp(EndBefore(ms, k), 8);
    UpIsAligned(EndBefore(ms, k));
    var there := Starts(Shape(ms, i, j), ms[i].offset + 4);
    assert there[k - i] != ms[i + (k - i)].offset + 4;
  }

  lemma UpIsAligned(x: nat)
    ensures AlignUp(x, 8) % 8 == 0
  {}

  /**
    When walk may offer neighbours as one row: members whose widths hold no 8, moved natively by multiples of 4, keep
    all their distances if and only if each shows its alignment in its widths.
  */
  lemma JoinedRunMoves(ms: seq<Member>, i: nat, j: nat)
    requires Tight(ms) && i < j <= |ms|
    requires forall k :: i <= k < j ==> ms[k].node.layout != [] && 8 !in ms[k].node.layout
    ensures SizesOk(Shape(ms, i, j))
    ensures MovesTogether(ms, i, j) <==> forall k :: i <= k < j ==> AlignShows(ms[k].node)
    ensures MovesTogether(ms, i, j) ==>
      forall moved: nat :: Ends(Shape(ms, i, j), ms[i].offset + 4 * moved) == EndBefore(ms, j) + 4 * moved
  {
    hide AlignUp, Extent, Starts, Ends, Shape, SizesOk, StartTogether, EndBefore;
    TightShape(ms, i, j);
    if forall k :: i <= k < j ==> AlignShows(ms[k].node) {
      forall moved: nat
        ensures StartTogether(Starts(Shape(ms, i, j), ms[i].offset + 4 * moved), ms, i, 4 * moved)
        ensures Ends(Shape(ms, i, j), ms[i].offset + 4 * moved) == EndBefore(ms, j) + 4 * moved
      {
        SmallAlignsMove(ms, i, j, moved);
      }
    } else {
      var k :| i <= k < j && !AlignShows(ms[k].node);
      EightAlign(ms, k);
      EightDoesNotMove(ms, i, j, k);
      assert !StartTogether(Starts(Shape(ms, i, j), ms[i].offset + 4 * 1), ms, i, 4 * 1);
    }
  }

  lemma TightShape(ms: seq<Member>, i: nat, j: nat)
    requires Tight(ms) && i < j <= |ms|
    ensures SizesOk(Shape(ms, i, j))
  {
    hide Tight;
    ShapeStep(ms, i, j);
  }

  lemma EightAlign(ms: seq<Member>, k: nat)
    requires Tight(ms) && k < |ms| && ms[k].node.align > 4
    ensures ms[k].node.align == 8
  {
    assert ms[k].offset == AlignUp(EndBefore(ms, k), ms[k].node.align);
  }

  lemma {:induction false} RepeatHolds(layout: seq<nat>, count: nat, w: nat)
    ensures w in RepeatLayout(layout, count) <==> count > 0 && w in layout
  {
    if count > 0 {
      RepeatHolds(layout, count - 1, w);
    }
  }

  predicate MemberHolds(m: Member, w: nat) {
    m.count > 0 && w in m.node.layout
  }

  /** A width above 1 is in the padded widths exactly when a member that has elements has it. */
  lemma {:induction false} WidthsHold(ms: seq<Member>, w: nat)
    requires Ordered(ms) && w > 1
    ensures w in Widths(ms) <==> exists j :: 0 <= j < |ms| && MemberHolds(ms[j], w)
  {
    hide Ordered, RepeatLayout, MemberHolds;
    if ms != [] {
      var last := |ms| - 1;
      var front, m := ms[..last], ms[last];
      OrderedPrefix(ms, last);
      WidthsHold(front, w);
      HoldsIs(m, w);
      GapAtLeast(ms, last);
      assert forall j :: 0 <= j < last ==> front[j] == ms[j];
      assert w !in Ones(m.offset - EndBefore(front, |front|));
      if exists j :: 0 <= j < |ms| && MemberHolds(ms[j], w) {
        var j :| 0 <= j < |ms| && MemberHolds(ms[j], w);
        assert j < last ==> MemberHolds(front[j], w);
      }
    }
  }

  lemma GapAtLeast(ms: seq<Member>, j: nat)
    requires Ordered(ms) && j < |ms|
    ensures EndBefore(ms, j) <= ms[j].offset
  {}

  lemma HoldsIs(m: Member, w: nat)
    ensures MemberHolds(m, w) <==> w in RepeatLayout(m.node.layout, m.count)
  {
    RepeatHolds(m.node.layout, m.count, w);
  }

  lemma {:induction false} MaxAlignIsSome(fields: seq<Field>) returns (i: nat)
    requires MaxAlign(fields) > 1
    ensures i < |fields| && fields[i].node.align == MaxAlign(fields)
  {
    i := |fields| - 1;
    if fields[i].node.align != MaxAlign(fields) {
      i := MaxAlignIsSome(fields[..i]);
    }
  }

  predicate FieldHolds(f: Field, w: nat) {
    f.count.Some? && f.count.value > 0 && w in f.node.layout
  }

  /**
    When the widths of a provable struct show its alignment: it is 4 or less, or some field that has elements has an
    8-byte one. So it is when every field does and none is an array of no elements.
  */
  lemma LayoutShowsAlign(fields: seq<Field>, n: Node, spans: seq<BitSpan>)
    requires LaidOut(fields, |fields|, n.members, spans)
    requires Ordered(n.members) && EndBefore(n.members, |n.members|) <= n.size
    requires n.layout == Padded(n.members, n.size) != [] && n.align == MaxAlign(fields)
    requires forall i :: 0 <= i < |fields| ==> fields[i].bits.None? && fields[i].node.layout != []
    ensures AlignShows(n) <==> n.align <= 4 || exists i :: 0 <= i < |fields| && FieldHolds(fields[i], 8)
    ensures (forall i :: 0 <= i < |fields| ==> fields[i].count != Some(0) && AlignShows(fields[i].node)) ==>
      AlignShows(n)
  {
    hide Ordered, Tight, Widths, MaxAlign, MemberHolds, FieldHolds, LaidOut, Home;
    var ms := n.members;
    WidthsHold(ms, 8);
    assert 8 !in Ones(n.size - EndBefore(ms, |ms|));
    assert 8 in n.layout <==> 8 in Widths(ms);
    if 8 in n.layout {
      var j :| 0 <= j < |ms| && MemberHolds(ms[j], 8);
      var i := FieldOfMember(fields, ms, spans, j);
      SameHolding(fields, ms, spans, i);
    }
    if exists i :: 0 <= i < |fields| && FieldHolds(fields[i], 8) {
      var i :| 0 <= i < |fields| && FieldHolds(fields[i], 8);
      SameHolding(fields, ms, spans, i);
    }
    if n.align > 4 {
      var i := MaxAlignIsSome(fields);
      SameHolding(fields, ms, spans, i);
      HoldingField(fields[i]);
    }
  }

  lemma HoldingField(f: Field)
    ensures f.count.Some? && f.count.value > 0 && 8 in f.node.layout ==> FieldHolds(f, 8)
  {}

  lemma FieldOfMember(fields: seq<Field>, ms: seq<Member>, spans: seq<BitSpan>, j: nat) returns (i: nat)
    requires LaidOut(fields, |fields|, ms, spans) && j < |ms|
    ensures i < |fields| && Home(fields, i) == j
  {
    hide Tight, FieldLaid, Home;
    i := EveryMemberIsAHome(fields, |fields|, j);
  }

  lemma SameHolding(fields: seq<Field>, ms: seq<Member>, spans: seq<BitSpan>, i: nat)
    requires LaidOut(fields, |fields|, ms, spans) && i < |fields| && fields[i].bits.None?
    ensures Home(fields, i) < |ms| && (MemberHolds(ms[Home(fields, i)], 8) <==> FieldHolds(fields[i], 8))
    ensures fields[i].count.Some?
  {
    hide Tight, Home;
    assert FieldLaid(fields, |fields|, ms, spans, i);
  }

  /** A struct of an array of no doubles, then an int. */
  function HiddenFields(double: Node, word: Node): seq<Field> {
    [Field(Named, double, Some(0), None), Field(Named, word, Some(1), None)]
  }

  lemma HiddenMembers(double: Node, word: Node) returns (ms: seq<Member>)
    requires double.size == double.align == 8 && word.size == word.align == 4
    ensures ms == [Member(0, Named, double, 0), Member(0, Named, word, 1)]
    ensures Tight(ms) && Ordered(ms) && EndBefore(ms, 1) == 0 && EndBefore(ms, 2) == 4
  {
    hide Tight, Ordered, Extent;
    var first, second := Member(0, Named, double, 0), Member(0, Named, word, 1);
    NoneAndOne(8, 4);
    ms := [first] + [second];
    NoneTight();
    TightAppend([], first);
    assert [] + [first] == [first];
    TightAppend([first], second);
    TightIsOrdered(ms);
  }

  lemma NoneTight()
    ensures Tight([]) && Extent(0, 0) == 0
  {}

  lemma NoneAndOne(size: nat, other: nat)
    ensures Extent(size, 0) == 0 && Extent(other, 1) == other
  {
    assert Extent(other, 1) == other + Extent(other, 0);
  }

  lemma HiddenWidths(double: Node, word: Node, ms: seq<Member>)
    requires ms == [Member(0, Named, double, 0), Member(0, Named, word, 1)] && Ordered(ms)
    requires EndBefore(ms, 1) == 0 && word.layout == [4]
    ensures Widths(ms) == [4]
  {
    hide Ordered, Extent;
    OrderedPrefix(ms, 1);
    var front := ms[..1];
    OrderedPrefix(front, 0);
    assert front[..0] == [] && RepeatLayout(double.layout, 0) == [];
    assert Widths(front) == [] + Ones(0) + [];
    assert RepeatLayout([4], 1) == [4] + RepeatLayout([4], 0);
    assert Widths(ms) == Widths(front) + Ones(0) + [4];
  }

  lemma HiddenAlign(double: Node, word: Node)
    requires double.align == 8 && word.align == 4
    ensures MaxAlign(HiddenFields(double, word)) == 8
  {
    var fields := HiddenFields(double, word);
    assert fields[..1] == [fields[0]] && [fields[0]][..0] == [];
    assert MaxAlign([fields[0]]) == 8;
  }

  /** An array of no elements hides it: the struct has the alignment of a double and no 8 in its widths. */
  lemma EmptyArrayHidesAlign(double: Node, word: Node) returns (ms: seq<Member>)
    requires double.size == double.align == 8 && double.layout == [8]
    requires word.size == word.align == 4 && word.layout == [4]
    ensures ms == [Member(0, Named, double, 0), Member(0, Named, word, 1)]
    ensures var (fields, none) := (HiddenFields(double, word), BitSpan(0, 0, 0));
      && LaidOut(fields, 2, ms, [none, none]) && MaxAlign(fields) == 8
      && Tight(ms) && Ordered(ms) && EndBefore(ms, |ms|) == 4 && Padded(ms, 8) == [4, 1, 1, 1, 1]
  {
    hide Tight, Ordered, Widths, Extent, MaxAlign, NodeOk;
    ms := HiddenMembers(double, word);
    HiddenWidths(double, word, ms);
    HiddenAlign(double, word);
    var fields, spans := HiddenFields(double, word), [BitSpan(0, 0, 0), BitSpan(0, 0, 0)];
    assert Home(fields, 0) == 0 && Home(fields, 1) == 1;
    assert FieldLaid(fields, 2, ms, spans, 0) && FieldLaid(fields, 2, ms, spans, 1);
    assert Ones(4) == [1, 1, 1, 1];
  }

  // ---- a run that is joined and does not move together ----

  /** The types of `struct { void* p; char c; struct { double d[0]; int w; } h; }`. */
  datatype Types = Types(pointer: Node, char_: Node, double: Node, word: Node)

  const ALL := Types(Node(4, 4, [], T.Pointers, false, []), Node(1, 1, [1], T.Supported, false, []),
                     Node(8, 8, [8], T.Supported, false, []), Node(4, 4, [4], T.Supported, false, []))

  function HiddenNode(ms: seq<Member>): Node {
    Node(8, 8, [4, 1, 1, 1, 1], T.Supported, true, ms)
  }

  function BodyFields(hidden: Node): seq<Field> {
    [Field(Named, ALL.pointer, Some(1), None), Field(Named, ALL.char_, Some(1), None),
      Field(Named, hidden, Some(1), None)]
  }

  function BodyMembers(hidden: Node): seq<Member> {
    [Member(0, Named, ALL.pointer, 1)] + [Member(4, Named, ALL.char_, 1)] + [Member(8, Named, hidden, 1)]
  }

  function Body(hidden: Node): Node {
    Node(16, 8, [], T.Layout, true, BodyMembers(hidden))
  }

  lemma HiddenOk() returns (hidden: Node)
    ensures NodeOk(hidden) && hidden.size == hidden.align == 8 && hidden.layout == [4, 1, 1, 1, 1]
    ensures hidden == HiddenNode(hidden.members) && hidden.kind.Supported?
    ensures LaidOut(HiddenFields(ALL.double, ALL.word), 2, hidden.members, [BitSpan(0, 0, 0), BitSpan(0, 0, 0)])
    ensures hidden.layout == Padded(hidden.members, 8) && hidden.align == MaxAlign(HiddenFields(ALL.double, ALL.word))
  {
    hide Ordered, LaidOut, Padded, MaxAlign, T.Positive, T.Period;
    var ms := EmptyArrayHidesAlign(ALL.double, ALL.word);
    hidden := HiddenNode(ms);
    SimpleOk(ALL.double);
    SimpleOk(ALL.word);
    FiveWidths();
  }

  lemma SimpleOk(n: Node)
    requires n.size == n.align && AlignOk(n.size) && n.layout == [n.size] && n.kind.Supported? && n.members == []
    ensures NodeOk(n)
  {
    assert n.layout[1..] == [];
    assert T.Period(n.layout) == n.size;
  }

  lemma FiveWidths()
    ensures T.Positive([4, 1, 1, 1, 1]) && T.Period([4, 1, 1, 1, 1]) == 8
  {
    assert [4, 1, 1, 1, 1][1..] == Ones(4);
    OnesPeriod(4);
  }

  lemma BodyTight(hidden: Node)
    requires hidden.size == hidden.align == 8
    ensures var ms := BodyMembers(hidden);
      Tight(ms) && EndBefore(ms, 1) == 4 && EndBefore(ms, 2) == 5 && EndBefore(ms, 3) == 16
  {
    hide Tight, Extent;
    NoneAndOne(0, 4);
    NoneAndOne(0, 1);
    NoneAndOne(0, 8);
    var p, c, h := Member(0, Named, ALL.pointer, 1), Member(4, Named, ALL.char_, 1), Member(8, Named, hidden, 1);
    NoneTight();
    TightAppend([], p);
    assert [] + [p] == [p];
    TightAppend([p], c);
    TightAppend([p] + [c], h);
  }

  lemma BodyLaidOut(hidden: Node)
    requires hidden.size == hidden.align == 8
    ensures var none := BitSpan(0, 0, 0); LaidOut(BodyFields(hidden), 3, BodyMembers(hidden), [none, none, none])
  {
    hide Tight;
    BodyTight(hidden);
    var fields, ms, spans := BodyFields(hidden), BodyMembers(hidden),
      [BitSpan(0, 0, 0), BitSpan(0, 0, 0), BitSpan(0, 0, 0)];
    assert Home(fields, 0) == 0 && Home(fields, 1) == 1 && Home(fields, 2) == 2;
    assert FieldLaid(fields, 3, ms, spans, 0) && FieldLaid(fields, 3, ms, spans, 1)
      && FieldLaid(fields, 3, ms, spans, 2);
  }

  lemma BodyOk(hidden: Node)
    requires NodeOk(hidden) && hidden.size == hidden.align == 8
    ensures NodeOk(Body(hidden))
  {
    hide Ordered, Tight;
    BodyTight(hidden);
    TightIsOrdered(BodyMembers(hidden));
    SimpleOk(ALL.char_);
    PointerOk();
  }

  lemma PointerOk()
    ensures NodeOk(ALL.pointer)
  {}

  lemma BodyRows(hidden: Node, at: int)
    requires NodeOk(hidden) && hidden.size == hidden.align == 8 && hidden.layout != [] && hidden.kind.Supported?
    requires NodeOk(Body(hidden))
    ensures R.RowsOfMember(Body(hidden), at, 0) == [R.Piece(at, 4, T.Pointers, [])]
    ensures R.RowsOfMember(Body(hidden), at, 1) == [R.Piece(at + 4, 1, T.Supported, [1])]
    ensures R.RowsOfMember(Body(hidden), at, 2) == [R.Piece(at + 8, 8, T.Supported, hidden.layout)]
  {
    hide NodeOk, Extent, R.PiecesOk;
    NoneAndOne(0, 4);
    NoneAndOne(0, 1);
    NoneAndOne(0, 8);
  }

  /**
    The exact condition fails on a body the code accepts: a pointer, a char, and a struct of no doubles and an int. Walk
    joins the char and the struct, 3 bytes apart, into one row, and when the wider native pointer moves the char by 4
    the struct moves by 8.
  */
  lemma JoinedRunParts(at: int) returns (hidden: Node)
    ensures NodeOk(Body(hidden)) && !AlignShows(hidden)
    ensures var none := BitSpan(0, 0, 0); LaidOut(BodyFields(hidden), 3, BodyMembers(hidden), [none, none, none])
    ensures var run := [R.Piece(at + 4, 1, T.Supported, [1]), R.Piece(at + 8, 8, T.Supported, hidden.layout)];
      && R.Run(run)
      && R.WalkPieces(Body(hidden), at) == [R.Piece(at, 4, T.Pointers, []), R.Joined(run)]
    ensures var ms := BodyMembers(hidden);
      && Tight(ms) && SizesOk(Shape(ms, 1, 3)) && !MovesTogether(ms, 1, 3)
      && Starts(Shape(ms, 1, 3), 4) == [4, 8] && Starts(Shape(ms, 1, 3), 4 + 4) == [8, 16]
  {
    hide NodeOk, Tight, LaidOut, R.RowsOfMember, R.Joined, Padded, MaxAlign;
    hidden := HiddenOk();
    BodyOk(hidden);
    BodyLaidOut(hidden);
    BodyTight(hidden);
    BodyRows(hidden, at);
    BodyWalk(hidden, at);
    BodyMoves(hidden);
  }

  lemma BodyWalk(hidden: Node, at: int)
    requires NodeOk(hidden) && hidden.size == hidden.align == 8 && hidden.layout == [4, 1, 1, 1, 1]
      && hidden.kind.Supported?
    requires NodeOk(Body(hidden))
    ensures var run := [R.Piece(at + 4, 1, T.Supported, [1]), R.Piece(at + 8, 8, T.Supported, hidden.layout)];
      R.Run(run) && R.WalkPieces(Body(hidden), at) == [R.Piece(at, 4, T.Pointers, []), R.Joined(run)]
  {
    hide NodeOk, R.RowsOfMember, R.Joined, R.PieceOk;
    BodyRows(hidden, at);
    var n := Body(hidden);
    var p, c, h := R.RowsOfMember(n, at, 0), R.RowsOfMember(n, at, 1), R.RowsOfMember(n, at, 2);
    assert R.WalkTo(n, at, 0) == R.Walking([], []);
    assert R.WalkTo(n, at, 1) == R.Walking(p, []);
    assert R.WalkTo(n, at, 2) == R.Walking(p, c);
    assert R.WalkTo(n, at, 3) == R.Walking(p, c + h);
    assert c + h == [c[0], h[0]];
  }

  lemma BodyMoves(hidden: Node)
    requires hidden.size == hidden.align == 8 && hidden.layout == [4, 1, 1, 1, 1]
    ensures var ms := BodyMembers(hidden);
      && Tight(ms) && SizesOk(Shape(ms, 1, 3)) && !MovesTogether(ms, 1, 3)
      && Starts(Shape(ms, 1, 3), 4) == [4, 8] && Starts(Shape(ms, 1, 3), 4 + 4) == [8, 16]
  {
    hide Tight, MovesTogether, AlignShows;
    var ms := BodyMembers(hidden);
    BodyTight(hidden);
    assert !AlignShows(ms[2].node) by { NotShown(ms[2].node); }
    JoinedRunMoves(ms, 1, 3);
    NoneAndOne(0, 1);
    NoneAndOne(0, 8);
    assert Shape(ms, 1, 3) == [(1, 1), (8, 8)];
    CharAndDouble(4);
    CharAndDouble(8);
  }

  lemma NotShown(n: Node)
    requires n.align == 8 && n.layout == [4, 1, 1, 1, 1]
    ensures !AlignShows(n)
  {}

  lemma CharAndDouble(at: nat)
    ensures Starts([(1, 1), (8, 8)], at) == [at, AlignUp(at + 1, 8)]
  {
    assert [(1, 1), (8, 8)][1..] == [(8, 8)];
    assert Starts([(8, 8)], at + 1) == [AlignUp(at + 1, 8)] + Starts([], AlignUp(at + 1, 8) + 8);
  }

  /** With an 8-byte element the distance can change: a byte and a double, moved by 4. */
  lemma EightByteElementsMove()
    ensures Starts([(1, 1), (8, 8)], 0) == [0, 8]
    ensures Starts([(1, 1), (8, 8)], 0 + 4) == [4, 8]
  {
    assert Starts([(8, 8)], 1) == [8] + Starts([], 16);
    assert Starts([(8, 8)], 5) == [8] + Starts([], 16);
    assert [(1, 1), (8, 8)][1..] == [(8, 8)];
  }
}
