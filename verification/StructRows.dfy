/**
  The rows a struct-typed object is offered as (tools/gecko_targets.py,
  StructTypes.rows and StructTypes.walk), against what its type says each
  console byte is.
*/
module StructRows {
  import opened Bytes
  import opened StructLayout
  import T = GeckoTargets

  /** A row without its name: a console range and, when supported, its element widths. */
  datatype Piece = Piece(addr: int, size: nat, kind: T.Kind, layout: seq<nat>) {
    predicate Holds(a: int) { addr <= a < addr + size }
  }

  predicate PieceOk(p: Piece) {
    p.kind.Supported? ==>
      T.Positive(p.layout) && T.Period(p.layout) > 0 && Multiple(p.size, T.Period(p.layout))
  }

  predicate PiecesOk(ps: seq<Piece>) {
    forall i :: 0 <= i < |ps| ==> PieceOk(ps[i])
  }

  /** Pieces ascend, are disjoint, and lie in [lo, hi). */
  predicate Ascending(ps: seq<Piece>, lo: int, hi: int) {
    && PiecesOk(ps)
    && (forall i :: 0 <= i < |ps| ==> lo <= ps[i].addr && ps[i].addr + ps[i].size <= hi)
    && (forall i, j :: 0 <= i < j < |ps| ==> ps[i].addr + ps[i].size <= ps[j].addr)
  }

  /** What the rows do with a console byte: no row, a native position, or a refused row. */
  datatype Fate = Nowhere | At(native: int) | RefusedRow(kind: T.Kind)

  /** Native positions are given as the console address of the byte that holds the same place. */
  function FateIn(p: Piece, a: int): Fate
    requires PieceOk(p)
  {
    if !p.Holds(a) then Nowhere
    else if p.kind.Supported? then At(p.addr + T.NativeAt(p.layout, a - p.addr))
    else RefusedRow(p.kind)
  }

  function FateOf(ps: seq<Piece>, a: int): Fate
    requires PiecesOk(ps)
  {
    if ps == [] then Nowhere
    else
      var f := FateIn(ps[0], a);
      if f != Nowhere then f else FateOf(ps[1..], a)
  }

  // ---- what a type says about its bytes ----

  /** A console byte: part of a number, between the members, or part of something refused. */
  datatype Slot = Element(start: int, width: nat) | Padding | Opaque(kind: T.Kind)

  /** The element of one period of a layout at `at` that holds `a`. */
  function SlotIn(layout: seq<nat>, at: int, a: int): Slot {
    if layout == [] then Padding
    else if a < at + layout[0] then Element(at, layout[0])
    else SlotIn(layout[1..], at + layout[0], a)
  }

  function SlotRepeated(layout: seq<nat>, at: int, count: nat, a: int): Slot
    decreases count
  {
    if count == 0 then Padding
    else if a < at + T.Period(layout) then SlotIn(layout, at, a)
    else SlotRepeated(layout, at + T.Period(layout), count - 1, a)
  }

  /** Byte `a` of `count` objects of type `n` at `at`. */
  function SlotOf(n: Node, count: nat, at: int, a: int): Slot
    decreases n, 2, count
  {
    if n.layout != [] then SlotRepeated(n.layout, at, count, a)
    else if !n.walkable then Opaque(n.kind)
    else if count == 0 then Padding
    else if a < at + n.size then SlotInside(n, at, 0, a)
    else SlotOf(n, count - 1, at + n.size, a)
  }

  /** Byte `a` of one object of type `n` at `at`, looking from member `j` on. */
  function SlotInside(n: Node, at: int, j: nat, a: int): Slot
    decreases n, 1, |n.members| - j
  {
    if j >= |n.members| || a < at + n.members[j].offset then Padding
    else if a < at + End(n.members[j]) then SlotOfMember(n, at, j, a)
    else SlotInside(n, at, j + 1, a)
  }

  /** An anonymous struct's members are its parent's; an anonymous array or union is refused. */
  function SlotOfMember(n: Node, at: int, j: nat, a: int): Slot
    requires j < |n.members|
    decreases n, 0
  {
    var m := n.members[j];
    if m.naming != Anonymous then SlotOf(m.node, m.count, at + m.offset, a)
    else if m.node.walkable && m.count == 1 then SlotInside(m.node, at + m.offset, 0, a)
    else Opaque(RefusalKind(m.node))
  }

  function RefusalKind(n: Node): T.Kind {
    if n.kind.Supported? then T.Layout else n.kind
  }

  /** What the rows do with a byte is what its slot calls for. */
  predicate Correct(fate: Fate, slot: Slot, a: int) {
    match slot
    case Element(start, width) => fate == At(start + (width - 1 - (a - start)))
    case Padding => fate == Nowhere || fate == At(a)
    case Opaque(kind) => fate == RefusedRow(kind)
  }

  // ---- the names that spell offsets ----

  predicate NameFits(naming: Naming, at: int, bases: seq<int>) {
    naming.AfterOffset? ==> exists i :: 0 <= i < |bases| && at - bases[i] == naming.offset
  }

  /** Every member named after its offset is at that offset from some enclosing object. */
  predicate NamesFit(n: Node, count: nat, at: int, bases: seq<int>)
    decreases n, 2, count
  {
    n.layout != [] || !n.walkable || count == 0
    || (NamesInside(n, at, 0, bases + [at]) && NamesFit(n, count - 1, at + n.size, bases))
  }

  predicate NamesInside(n: Node, at: int, j: nat, bases: seq<int>)
    decreases n, 1, |n.members| - j
  {
    j >= |n.members|
    || (NameFits(n.members[j].naming, at + n.members[j].offset, bases)
        && NamesOfMember(n, at, j, bases) && NamesInside(n, at, j + 1, bases))
  }

  predicate NamesOfMember(n: Node, at: int, j: nat, bases: seq<int>)
    requires j < |n.members|
    decreases n, 0
  {
    var m := n.members[j];
    if m.naming != Anonymous then NamesFit(m.node, m.count, at + m.offset, bases)
    else if m.node.walkable && m.count == 1 then NamesInside(m.node, at + m.offset, 0, bases + [at + m.offset])
    else true
  }

  // ---- lists of pieces ----

  lemma {:induction false} FateAppend(p: seq<Piece>, q: seq<Piece>, a: int)
    requires PiecesOk(p) && PiecesOk(q)
    ensures PiecesOk(p + q)
    ensures FateOf(p + q, a) == if FateOf(p, a) != Nowhere then FateOf(p, a) else FateOf(q, a)
  {
    hide FateIn, PieceOk;
    if p == [] {
      assert p + q == q;
    } else {
      assert (p + q)[1..] == p[1..] + q;
      FateAppend(p[1..], q, a);
    }
  }

  lemma {:induction false} FateOutside(ps: seq<Piece>, lo: int, hi: int, a: int)
    requires Ascending(ps, lo, hi) && !(lo <= a < hi)
    ensures FateOf(ps, a) == Nowhere
  {
    if ps != [] {
      FateOutside(ps[1..], lo, hi, a);
    }
  }

  lemma AscendingAppend(p: seq<Piece>, q: seq<Piece>, lo: int, mid: int, mid': int, hi: int)
    requires Ascending(p, lo, mid) && Ascending(q, mid', hi) && lo <= mid <= mid' <= hi
    ensures Ascending(p + q, lo, hi)
  {
    hide PieceOk;
  }

  // ---- one provable type ----

  lemma {:induction false} SlotInMirror(layout: seq<nat>, at: int, a: int)
    requires at <= a < at + T.Period(layout)
    ensures SlotIn(layout, at, a).Element?
    ensures Correct(At(at + T.Mirror(layout, a - at)), SlotIn(layout, at, a), a)
  {
    if a >= at + layout[0] {
      SlotInMirror(layout[1..], at + layout[0], a);
    }
  }

  lemma {:induction false} RepeatedCorrect(layout: seq<nat>, at: int, count: nat, a: int)
    requires T.Period(layout) > 0 && at <= a < at + Extent(T.Period(layout), count)
    ensures Correct(At(at + T.NativeAt(layout, a - at)), SlotRepeated(layout, at, count, a), a)
    decreases count
  {
    var p := T.Period(layout);
    if a < at + p {
      SlotInMirror(layout, at, a);
    } else {
      RepeatedCorrect(layout, at + p, count - 1, a);
    }
  }

  lemma {:induction false} ExtentMultiple(size: nat, count: nat)
    requires size > 0
    ensures Multiple(Extent(size, count), size)
  {
    if count > 0 {
      ExtentMultiple(size, count - 1);
    }
  }

  // ---- joining neighbours ----

  function Expand(layout: seq<nat>, size: nat): seq<nat>
    requires T.Period(layout) > 0
    decreases size
  {
    if size < T.Period(layout) then [] else layout + Expand(layout, size - T.Period(layout))
  }

  lemma {:induction false} ExpandMirror(layout: seq<nat>, size: nat)
    requires T.Period(layout) > 0 && T.Positive(layout) && Multiple(size, T.Period(layout))
    ensures T.Period(Expand(layout, size)) == size && T.Positive(Expand(layout, size))
    ensures forall pos: nat :: pos < size ==> T.Mirror(Expand(layout, size), pos) == T.NativeAt(layout, pos)
    decreases size
  {
    var p := T.Period(layout);
    if size >= p {
      var rest := Expand(layout, size - p);
      ExpandMirror(layout, size - p);
      T.PeriodAppend(layout, rest);
      PositiveAppend(layout, rest);
      forall pos: nat | pos < size
        ensures T.Mirror(Expand(layout, size), pos) == T.NativeAt(layout, pos)
      {
        MirrorAppend(layout, rest, pos);
      }
    }
  }

  lemma {:induction false} MirrorAppend(x: seq<nat>, y: seq<nat>, pos: nat)
    requires pos < T.Period(x) + T.Period(y)
    ensures T.Period(x + y) == T.Period(x) + T.Period(y)
    ensures T.Mirror(x + y, pos) == if pos < T.Period(x) then T.Mirror(x, pos)
      else T.Period(x) + T.Mirror(y, pos - T.Period(x))
  {
    T.PeriodAppend(x, y);
    if x == [] {
      assert x + y == y;
    } else {
      assert (x + y)[1..] == x[1..] + y;
      if pos >= x[0] {
        MirrorAppend(x[1..], y, pos - x[0]);
      }
    }
  }

  lemma {:induction false} OnesMirror(n: nat, pos: nat)
    requires pos < n
    ensures T.Period(Ones(n)) == n && T.Mirror(Ones(n), pos) == pos
  {
    OnesPeriod(n);
    if pos > 0 {
      assert Ones(n)[1..] == Ones(n - 1);
      OnesMirror(n - 1, pos - 1);
    }
  }

  /** The open run of walk: supported neighbours less than 4 bytes apart, without 8-byte elements. */
  predicate Run(run: seq<Piece>) {
    && PiecesOk(run)
    && (forall i :: 0 <= i < |run| ==> run[i].kind.Supported? && run[i].size > 0 && 8 !in run[i].layout)
    && (forall i, j :: 0 <= i < j < |run| ==> j > i + 1 || 0 <= run[j].addr - (run[i].addr + run[i].size) < 4)
  }

  function ExpandPart(p: Piece): seq<nat>
    requires PieceOk(p) && p.kind.Supported?
  {
    Expand(p.layout, p.size)
  }

  function RunEnd(run: seq<Piece>): int
    requires run != []
  {
    run[|run| - 1].addr + run[|run| - 1].size
  }

  /** The widths of a run read from `at`: gaps as single bytes, each piece written out. */
  function JoinedWidths(run: seq<Piece>, at: int): seq<nat>
    requires Run(run) && (run != [] ==> at <= run[0].addr)
  {
    if run == [] then []
    else
      assert PieceOk(run[0]) && Run(run[1..]);
      Ones(run[0].addr - at) + ExpandPart(run[0]) + JoinedWidths(run[1..], run[0].addr + run[0].size)
  }

  lemma ThreeParts(x: seq<nat>, y: seq<nat>, z: seq<nat>)
    requires T.Positive(x) && T.Positive(y) && T.Positive(z)
    ensures T.Positive(x + y + z) && T.Period(x + y + z) == T.Period(x) + T.Period(y) + T.Period(z)
  {
    hide T.Positive, T.Period;
    T.PeriodAppend(x, y);
    T.PeriodAppend(x + y, z);
    PositiveAppend(x, y);
    PositiveAppend(x + y, z);
  }

  lemma OwnWidths(p: Piece)
    requires PieceOk(p) && p.kind.Supported?
    ensures T.Positive(ExpandPart(p)) && T.Period(ExpandPart(p)) == p.size
  {
    hide T.Mirror, T.NativeAt;
    ExpandMirror(p.layout, p.size);
  }

  lemma RunTail(run: seq<Piece>)
    requires Run(run) && run != []
    ensures PieceOk(run[0]) && run[0].kind.Supported? && run[0].size > 0 && Run(run[1..])
    ensures |run| > 1 ==> run[0].addr + run[0].size <= run[1].addr && RunEnd(run[1..]) == RunEnd(run)
  {
    hide PieceOk;
  }

  lemma NoPeriod()
    ensures T.Period([]) == 0 && T.Positive([])
  {}

  lemma {:induction false} JoinedPeriod(run: seq<Piece>, at: int)
    requires Run(run) && run != [] && at <= run[0].addr
    ensures T.Positive(JoinedWidths(run, at)) && run[0].addr < RunEnd(run)
    ensures T.Period(JoinedWidths(run, at)) == RunEnd(run) - at
  {
    hide T.Period, T.Positive, PieceOk, Run, Ones, ExpandPart;
    var p := run[0];
    RunTail(run);
    var rest := JoinedWidths(run[1..], p.addr + p.size);
    OnesPeriod(p.addr - at);
    OwnWidths(p);
    NoPeriod();
    if |run| > 1 {
      JoinedPeriod(run[1..], p.addr + p.size);
    } else {
      assert rest == [];
    }
    ThreeParts(Ones(p.addr - at), ExpandPart(p), rest);
  }

  /** Where a byte of a run lies once the run is one row. */
  function InRun(run: seq<Piece>, a: int): Fate
    requires PiecesOk(run)
  {
    if FateOf(run, a) == Nowhere then At(a) else FateOf(run, a)
  }

  lemma MirrorThree(x: seq<nat>, y: seq<nat>, z: seq<nat>, pos: nat)
    requires pos < T.Period(x) + T.Period(y) + T.Period(z)
    ensures T.Period(x + y + z) == T.Period(x) + T.Period(y) + T.Period(z)
    ensures T.Mirror(x + y + z, pos) ==
      if pos < T.Period(x) then T.Mirror(x, pos)
      else if pos < T.Period(x) + T.Period(y) then T.Period(x) + T.Mirror(y, pos - T.Period(x))
      else T.Period(x) + T.Period(y) + T.Mirror(z, pos - T.Period(x) - T.Period(y))
  {
    hide T.Mirror, T.Period;
    T.PeriodAppend(x, y);
    MirrorAppend(x + y, z, pos);
    if pos < T.Period(x) + T.Period(y) {
      MirrorAppend(x, y, pos);
    }
  }

  lemma FateFirst(run: seq<Piece>, a: int)
    requires PiecesOk(run) && run != []
    ensures PieceOk(run[0]) && FateOf(run, a) == if FateIn(run[0], a) != Nowhere then FateIn(run[0], a)
      else FateOf(run[1..], a)
  {}

  /** A joined row is the gap before its first piece, that piece, and the rest. */
  lemma JoinedSplit(run: seq<Piece>, at: int)
    requires Run(run) && run != [] && at <= run[0].addr
    ensures PieceOk(run[0]) && run[0].kind.Supported? && Run(run[1..])
    ensures |run| > 1 ==> run[0].addr + run[0].size <= run[1].addr && RunEnd(run[1..]) == RunEnd(run)
    ensures JoinedWidths(run, at)
         == Ones(run[0].addr - at) + ExpandPart(run[0]) + JoinedWidths(run[1..], run[0].addr + run[0].size)
    ensures T.Period(Ones(run[0].addr - at)) == run[0].addr - at && T.Period(ExpandPart(run[0])) == run[0].size
    ensures T.Period(JoinedWidths(run[1..], run[0].addr + run[0].size)) == RunEnd(run) - (run[0].addr + run[0].size)
  {
    assert T.Period([]) == 0;
    hide T.Period, T.Positive, ExpandPart, Ones, Multiple;
    assert PieceOk(run[0]) && Run(run[1..]);
    hide PieceOk;
    OnesPeriod(run[0].addr - at);
    PartMirror(run[0]);
    if |run| > 1 {
      JoinedPeriod(run[1..], run[0].addr + run[0].size);
    }
  }

  /** In a joined row every byte is where its own piece puts it, and gap bytes stay in place. */
  lemma {:induction false} JoinedMap(run: seq<Piece>, at: int, a: int)
    requires Run(run) && run != [] && at <= run[0].addr && at <= a < RunEnd(run)
    ensures T.Period(JoinedWidths(run, at)) == RunEnd(run) - at
    ensures At(at + T.Mirror(JoinedWidths(run, at), a - at)) == InRun(run, a)
  {
    hide T.NativeAt, T.Period, T.Mirror, JoinedWidths, Ones, FateOf, PieceOk, ExpandPart;
    var p := run[0];
    JoinedSplit(run, at);
    FateFirst(run, a);
    hide Run;
    var gap, own, rest := Ones(p.addr - at), ExpandPart(p), JoinedWidths(run[1..], p.addr + p.size);
    MirrorThree(gap, own, rest, a - at);
    PartMirror(p);
    if a < p.addr {
      OnesMirror(p.addr - at, a - at);
      RunAscends(run, p.addr, RunEnd(run));
      FateOutside(run, p.addr, RunEnd(run), a);
    } else if a >= p.addr + p.size {
      JoinedMap(run[1..], p.addr + p.size, a);
    }
  }

  lemma PartMirror(p: Piece)
    requires PieceOk(p) && p.kind.Supported?
    ensures T.Period(ExpandPart(p)) == p.size
    ensures forall pos: nat :: pos < p.size ==> T.Mirror(ExpandPart(p), pos) == T.NativeAt(p.layout, pos)
  {
    ExpandMirror(p.layout, p.size);
  }

  lemma {:induction false} RunAscends(run: seq<Piece>, lo: int, hi: int)
    requires Run(run) && run != [] && lo <= run[0].addr && RunEnd(run) <= hi
    ensures Ascending(run, lo, hi)
  {
    if |run| > 1 {
      assert Run(run[1..]);
      RunAscends(run[1..], run[0].addr + run[0].size, hi);
      AscendingAppend([run[0]], run[1..], lo, run[0].addr + run[0].size, run[0].addr + run[0].size, hi);
      assert [run[0]] + run[1..] == run;
    }
  }

  lemma {:induction false} SelfMultiple(n: nat)
    requires n > 0
    ensures Multiple(n, n)
  {
    assert Multiple(n - n, n);
  }

  function Joined(run: seq<Piece>): Piece
    requires Run(run) && |run| > 1
  {
    RunAscends(run, run[0].addr, RunEnd(run));
    assert run[0].addr + run[0].size <= run[|run| - 1].addr;
    Piece(run[0].addr, RunEnd(run) - run[0].addr, T.Supported, JoinedWidths(run, run[0].addr))
  }

  function Flushed(run: seq<Piece>): seq<Piece>
    requires Run(run)
  {
    if |run| > 1 then [Joined(run)] else run
  }

  lemma JoinedFacts(run: seq<Piece>, a: int)
    requires Run(run) && |run| > 1
    ensures PieceOk(Joined(run)) && Joined(run).addr == run[0].addr
      && Joined(run).addr + Joined(run).size == RunEnd(run)
    ensures run[0].addr <= a < RunEnd(run) ==>
      FateIn(Joined(run), a) == InRun(run, a)
  {
    hide FateOf, T.Mirror, T.Positive, Expand, Ones, JoinedWidths, Run, InRun, PieceOk, T.Period;
    JoinedPeriod(run, run[0].addr);
    SelfMultiple(RunEnd(run) - run[0].addr);
    JoinedOk(Joined(run));
    if run[0].addr <= a < RunEnd(run) {
      JoinedMap(run, run[0].addr, a);
    }
  }

  lemma JoinedOk(p: Piece)
    requires T.Positive(p.layout) && T.Period(p.layout) == p.size > 0 && Multiple(p.size, p.size)
    ensures PieceOk(p)
  {}

  /** Flushing changes no byte's fate, except that gap bytes are now kept in place. */
  lemma FlushedFate(run: seq<Piece>, lo: int, hi: int, a: int)
    requires Run(run) && Ascending(run, lo, hi)
    ensures Ascending(Flushed(run), lo, hi)
    ensures FateOf(Flushed(run), a) == FateOf(run, a)
         || (run != [] && run[0].addr <= a < RunEnd(run) && FateOf(run, a) == Nowhere
           && FateOf(Flushed(run), a) == At(a))
  {
    if |run| > 1 {
      hide FateIn, Run, Joined, T.Period, T.Mirror, Multiple;
      JoinedFacts(run, a);
      var j := Joined(run);
      assert Flushed(run) == [j] && FateOf([j][1..], a) == Nowhere;
      if !(run[0].addr <= a < RunEnd(run)) {
        RunAscends(run, run[0].addr, RunEnd(run));
        FateOutside(run, run[0].addr, RunEnd(run), a);
        FateOutside([j], run[0].addr, RunEnd(run), a);
      }
    }
  }

  /** Everything walk has placed of an object so far: `out` is final, `run` may still be joined. */
  ghost predicate Walked(n: Node, at: int, j: nat, out: seq<Piece>, run: seq<Piece>)
    requires j <= |n.members|
  {
    var end := at + EndBefore(n.members, j);
    && Run(run)
    && Ascending(out + run, at, end)
    && (forall a :: at <= a < end ==> Correct(FateOf(out + run, a), SlotInside(n, at, 0, a), a))
    && (run != [] ==> forall a :: run[0].addr <= a < end ==> !SlotInside(n, at, 0, a).Opaque?)
  }

  lemma AscendingParts(p: seq<Piece>, q: seq<Piece>, lo: int, hi: int)
    requires Ascending(p + q, lo, hi)
    ensures Ascending(p, lo, if q == [] then hi else q[0].addr)
    ensures Ascending(q, if q == [] then lo else q[0].addr, hi)
    ensures lo <= (if q == [] then lo else q[0].addr)
  {
    hide PieceOk;
    forall i | 0 <= i < |p|
      ensures PieceOk(p[i]) && lo <= p[i].addr && p[i].addr + p[i].size <= (if q == [] then hi else q[0].addr)
    {
      assert p[i] == (p + q)[i];
      assert q != [] ==> q[0] == (p + q)[|p|];
    }
    forall i, k | 0 <= i < k < |p|
      ensures p[i].addr + p[i].size <= p[k].addr
    {
      assert p[i] == (p + q)[i] && p[k] == (p + q)[k];
    }
    forall i | 0 <= i < |q|
      ensures PieceOk(q[i]) && q[0].addr <= q[i].addr && q[i].addr + q[i].size <= hi
    {
      assert q[i] == (p + q)[|p| + i] && q[0] == (p + q)[|p|];
    }
    forall i, k | 0 <= i < k < |q|
      ensures q[i].addr + q[i].size <= q[k].addr
    {
      assert q[i] == (p + q)[|p| + i] && q[k] == (p + q)[|p| + k];
    }
  }

  /** A flush keeps every byte right. */
  lemma FlushKeeps(n: Node, at: int, j: nat, out: seq<Piece>, run: seq<Piece>)
    requires j <= |n.members| && Walked(n, at, j, out, run)
    ensures Walked(n, at, j, out + Flushed(run), [])
  {
    hide FateIn, SlotInside, PieceOk, Joined;
    var end := at + EndBefore(n.members, j);
    var all := out + Flushed(run) + [];
    assert all == out + Flushed(run);
    if run == [] {
      assert out + run == out;
      return;
    }
    AscendingParts(out, run, at, end);
    FlushedFate(run, run[0].addr, end, at);
    AscendingAppend(out, Flushed(run), at, run[0].addr, run[0].addr, end);
    forall a | at <= a < end
      ensures Correct(FateOf(all, a), SlotInside(n, at, 0, a), a)
    {
      FlushedFate(run, run[0].addr, end, a);
      FateAppend(out, run, a);
      FateAppend(out, Flushed(run), a);
    }
  }

  lemma {:induction false} SlotBefore(n: Node, at: int, i: nat, j: nat, a: int)
    requires Ordered(n.members) && i <= j < |n.members| && a >= at + EndBefore(n.members, j)
    ensures SlotInside(n, at, i, a) == SlotInside(n, at, j, a)
    decreases j - i
  {
    hide SlotOfMember, Aligned, Extent;
    if i < j {
      assert End(n.members[i]) == EndBefore(n.members, i + 1);
      EndsGrow(n, i + 1, j);
      SlotBefore(n, at, i + 1, j, a);
    }
  }

  lemma {:induction false} EndsGrow(n: Node, i: nat, j: nat)
    requires Ordered(n.members) && i <= j <= |n.members|
    ensures EndBefore(n.members, i) <= EndBefore(n.members, j)
    ensures i < |n.members| ==> EndBefore(n.members, i) <= n.members[i].offset <= End(n.members[i])
    decreases j - i
  {
    hide Aligned, Extent;
    if i < j {
      assert EndBefore(n.members, i) <= n.members[i].offset <= End(n.members[i]) == EndBefore(n.members, i + 1);
      EndsGrow(n, i + 1, j);
    }
  }

  /** The slots of member `j` and of the gap before it. */
  lemma SlotsOfMember(n: Node, at: int, j: nat, a: int)
    requires NodeOk(n) && j < |n.members|
    requires at + EndBefore(n.members, j) <= a < at + End(n.members[j])
    ensures SlotInside(n, at, 0, a) == if a < at + n.members[j].offset then Padding else SlotOfMember(n, at, j, a)
  {
    SlotBefore(n, at, 0, j, a);
  }

  /** The pieces of one member, right for every byte of it. */
  ghost predicate MemberPieces(n: Node, at: int, j: nat, ps: seq<Piece>)
    requires j < |n.members|
  {
    var m := n.members[j];
    && Ascending(ps, at + m.offset, at + End(m))
    && forall a :: at + m.offset <= a < at + End(m) ==> Correct(FateOf(ps, a), SlotOfMember(n, at, j, a), a)
  }

  /** Adding a member's pieces after everything so far. */
  lemma MemberKeeps(n: Node, at: int, j: nat, all: seq<Piece>, ps: seq<Piece>)
    requires NodeOk(n) && j < |n.members| && MemberPieces(n, at, j, ps)
    requires Ascending(all, at, at + EndBefore(n.members, j))
    requires forall a :: at <= a < at + EndBefore(n.members, j) ==> Correct(FateOf(all, a), SlotInside(n, at, 0, a), a)
    ensures EndBefore(n.members, j + 1) == End(n.members[j])
    ensures Ascending(all + ps, at, at + End(n.members[j]))
    ensures forall a :: at <= a < at + End(n.members[j]) ==> Correct(FateOf(all + ps, a), SlotInside(n, at, 0, a), a)
  {
    EndsGrow(n, j, j);
    hide NodeOk, FateIn, SlotInside, SlotOfMember, PieceOk, Extent;
    var m := n.members[j];
    var end := at + EndBefore(n.members, j);
    AscendingAppend(all, ps, at, end, at + m.offset, at + End(m));
    forall a | at <= a < at + End(m)
      ensures Correct(FateOf(all + ps, a), SlotInside(n, at, 0, a), a)
    {
      FateAppend(all, ps, a);
      if a < end {
        FateOutside(ps, at + m.offset, at + End(m), a);
      } else {
        FateOutside(all, at, end, a);
        SlotsOfMember(n, at, j, a);
        if a < at + m.offset {
          FateOutside(ps, at + m.offset, at + End(m), a);
        }
      }
    }
  }

  /** A member that does not join the run: the run was flushed before it. */
  lemma MemberFollows(n: Node, at: int, j: nat, out: seq<Piece>, ps: seq<Piece>)
    requires NodeOk(n) && j < |n.members| && Walked(n, at, j, out, []) && MemberPieces(n, at, j, ps)
    ensures Walked(n, at, j + 1, out + ps, [])
  {
    hide NodeOk, FateOf, SlotInside, MemberPieces;
    assert out + [] == out && out + ps + [] == out + ps;
    MemberKeeps(n, at, j, out, ps);
  }

  /** Whether a member's single row may join the open run. */
  predicate Joins(ps: seq<Piece>) {
    |ps| == 1 && ps[0].kind.Supported? && ps[0].size > 0 && 8 !in ps[0].layout
  }

  lemma JoinsNoOpaque(n: Node, at: int, j: nat, ps: seq<Piece>, a: int)
    requires NodeOk(n) && j < |n.members| && MemberPieces(n, at, j, ps) && Joins(ps)
    requires at + EndBefore(n.members, j) <= a < at + End(n.members[j])
    ensures !SlotInside(n, at, 0, a).Opaque?
  {
    hide NodeOk, SlotInside, SlotOfMember;
    SlotsOfMember(n, at, j, a);
    if a >= at + n.members[j].offset {
      assert FateOf(ps[1..], a) == Nowhere;
    }
  }

  /** A member whose single row joins the run. */
  lemma MemberJoins(n: Node, at: int, j: nat, out: seq<Piece>, run: seq<Piece>, ps: seq<Piece>)
    requires NodeOk(n) && j < |n.members| && Walked(n, at, j, out, run) && MemberPieces(n, at, j, ps) && Joins(ps)
    requires run != [] ==> 0 <= ps[0].addr - RunEnd(run) < 4
    ensures Walked(n, at, j + 1, out, run + ps)
  {
    RunGrows(run, ps);
    hide NodeOk, FateOf, SlotInside, MemberPieces, Run, Joins, Extent, Correct, Ascending;
    assert out + (run + ps) == out + run + ps;
    MemberKeeps(n, at, j, out + run, ps);
    var end := at + EndBefore(n.members, j);
    assert run + ps != [];
    forall a | (run + ps)[0].addr <= a < at + End(n.members[j])
      ensures !SlotInside(n, at, 0, a).Opaque?
    {
      if a >= end {
        JoinsNoOpaque(n, at, j, ps, a);
      } else if run == [] {
        MemberStarts(n, at, j, ps);
      } else {
        assert (run + ps)[0] == run[0];
      }
    }
  }

  lemma MemberStarts(n: Node, at: int, j: nat, ps: seq<Piece>)
    requires NodeOk(n) && j < |n.members| && MemberPieces(n, at, j, ps) && ps != []
    ensures ps[0].addr >= at + EndBefore(n.members, j)
  {
    EndsGrow(n, j, j);
  }

  // ---- the rows as functions ----

  lemma RunGrows(run: seq<Piece>, ps: seq<Piece>)
    requires Run(run) && PiecesOk(ps) && Joins(ps)
    requires run != [] ==> 0 <= ps[0].addr - RunEnd(run) < 4
    ensures Run(run + ps)
  {
    hide PieceOk;
    var all := run + ps;
    forall i | 0 <= i < |all|
      ensures PieceOk(all[i]) && all[i].kind.Supported? && all[i].size > 0 && 8 !in all[i].layout
    {
      assert all[i] == if i < |run| then run[i] else ps[0];
    }
    forall i, k | 0 <= i < k < |all| && k == i + 1
      ensures 0 <= all[k].addr - (all[i].addr + all[i].size) < 4
    {
      assert all[i] == run[i];
      assert k < |run| ==> all[k] == run[k];
    }
  }

  lemma FlushedOk(run: seq<Piece>)
    requires Run(run)
    ensures PiecesOk(Flushed(run))
  {
    if |run| > 1 {
      hide PieceOk, Joined, JoinedWidths, Run;
      JoinedFacts(run, run[0].addr);
    }
  }

  /** Where walk stands: rows that are final, and the open run of neighbours that may still be joined. */
  datatype Walking = Walking(out: seq<Piece>, run: seq<Piece>)

  predicate WalkingOk(w: Walking) {
    PiecesOk(w.out) && Run(w.run)
  }

  lemma PiecesAppend(p: seq<Piece>, q: seq<Piece>)
    requires PiecesOk(p) && PiecesOk(q)
    ensures PiecesOk(p + q)
  {
    hide PieceOk;
    forall i | 0 <= i < |p + q|
      ensures PieceOk((p + q)[i])
    {
      assert (p + q)[i] == if i < |p| then p[i] else q[i - |p|];
    }
  }

  /** One more member with rows `ps`: it joins the run, starts a new one, or is final at once. */
  function Placed(w: Walking, ps: seq<Piece>, named: bool): (next: Walking)
    requires WalkingOk(w) && PiecesOk(ps)
    ensures WalkingOk(next)
  {
    FlushedOk(w.run);
    PiecesAppend(w.out, Flushed(w.run));
    PiecesAppend(w.out + Flushed(w.run), ps);
    if !named || !Joins(ps) then Walking(w.out + Flushed(w.run) + ps, [])
    else if w.run == [] || 0 <= ps[0].addr - RunEnd(w.run) < 4 then
      RunGrows(w.run, ps);
      Walking(w.out, w.run + ps)
    else
      RunGrows([], ps);
      assert [] + ps == ps;
      Walking(w.out + Flushed(w.run), ps)
  }

  lemma OnePieceOk(n: Node, count: nat, at: int)
    requires NodeOk(n) && (n.layout != [] || !n.walkable)
    ensures PieceOk(Piece(at, Extent(n.size, count), n.kind, n.layout))
  {
    hide Extent;
    if n.layout != [] {
      ExtentMultiple(n.size, count);
    }
  }

  /** The rows of `count` objects of type `n`. */
  function PiecesOf(n: Node, count: nat, at: int): (ps: seq<Piece>)
    requires NodeOk(n)
    ensures PiecesOk(ps)
    decreases n, 3
  {
    if n.layout != [] || !n.walkable then
      OnePieceOk(n, count, at);
      [Piece(at, Extent(n.size, count), n.kind, n.layout)]
    else Objects(n, count, at)
  }

  /** The rows of `count` objects walked one after the other. */
  function Objects(n: Node, count: nat, at: int): (ps: seq<Piece>)
    requires NodeOk(n)
    ensures PiecesOk(ps)
    decreases n, 2, count
  {
    if count == 0 then []
    else
      PiecesAppend(WalkPieces(n, at), Objects(n, count - 1, at + n.size));
      WalkPieces(n, at) + Objects(n, count - 1, at + n.size)
  }

  /** The rows of one object walked member by member. */
  function WalkPieces(n: Node, at: int): (ps: seq<Piece>)
    requires NodeOk(n)
    ensures PiecesOk(ps)
    decreases n, 1
  {
    var w := WalkTo(n, at, |n.members|);
    FlushedOk(w.run);
    PiecesAppend(w.out, Flushed(w.run));
    w.out + Flushed(w.run)
  }

  /** Where walk stands after the first `j` members. */
  function WalkTo(n: Node, at: int, j: nat): (w: Walking)
    requires NodeOk(n) && j <= |n.members|
    ensures WalkingOk(w)
    decreases n, 0, j, 1
  {
    if j == 0 then Walking([], [])
    else Placed(WalkTo(n, at, j - 1), RowsOfMember(n, at, j - 1), n.members[j - 1].naming != Anonymous)
  }

  function RowsOfMember(n: Node, at: int, j: nat): (ps: seq<Piece>)
    requires NodeOk(n) && j < |n.members|
    ensures PiecesOk(ps)
    decreases n, 0, j, 0
  {
    var m := n.members[j];
    if m.naming != Anonymous then PiecesOf(m.node, m.count, at + m.offset)
    else if m.node.walkable && m.count == 1 then WalkPieces(m.node, at + m.offset)
    else [Piece(at + m.offset, Extent(m.node.size, m.count), RefusalKind(m.node), [])]
  }

  // ---- neighbours share a row ----

  /** One supported row holds all of [lo, hi). */
  predicate Covered(ps: seq<Piece>, lo: int, hi: int) {
    exists i :: 0 <= i < |ps| && Holding(ps[i], lo, hi)
  }

  predicate Holding(p: Piece, lo: int, hi: int) {
    p.kind.Supported? && p.addr <= lo && hi <= p.addr + p.size
  }

  /** One row of the finished ones holds it, or the open run will. */
  predicate Reaches(w: Walking, lo: int, hi: int) {
    Covered(w.out, lo, hi) || (w.run != [] && w.run[0].addr <= lo && hi <= RunEnd(w.run))
  }

  lemma CoveredAppend(p: seq<Piece>, q: seq<Piece>, lo: int, hi: int)
    ensures Covered(p, lo, hi) || Covered(q, lo, hi) ==> Covered(p + q, lo, hi)
  {
    hide Holding;
    if Covered(p, lo, hi) {
      var i :| 0 <= i < |p| && Holding(p[i], lo, hi);
      assert (p + q)[i] == p[i];
    } else if Covered(q, lo, hi) {
      var i :| 0 <= i < |q| && Holding(q[i], lo, hi);
      assert (p + q)[|p| + i] == q[i];
    }
  }

  lemma FlushedCovers(run: seq<Piece>, lo: int, hi: int)
    requires Run(run) && run != [] && run[0].addr <= lo && hi <= RunEnd(run)
    ensures Covered(Flushed(run), lo, hi)
  {
    hide PieceOk, JoinedWidths;
    if |run| > 1 {
      JoinedFacts(run, lo);
      assert Holding(Flushed(run)[0], lo, hi);
    } else {
      assert Holding(Flushed(run)[0], lo, hi);
    }
  }

  /** A later member takes nothing back. */
  lemma PlacedReaches(w: Walking, ps: seq<Piece>, named: bool, lo: int, hi: int)
    requires WalkingOk(w) && PiecesOk(ps) && Reaches(w, lo, hi)
    ensures Reaches(Placed(w, ps, named), lo, hi)
  {
    hide PieceOk, Flushed, Run, Covered;
    if !Covered(w.out, lo, hi) {
      FlushedCovers(w.run, lo, hi);
    }
    CoveredAppend(w.out, Flushed(w.run), lo, hi);
    CoveredAppend(w.out + Flushed(w.run), ps, lo, hi);
    if named && Joins(ps) && w.run != [] && 0 <= ps[0].addr - RunEnd(w.run) < 4 && !Covered(w.out, lo, hi) {
      assert (w.run + ps)[0] == w.run[0] && RunEnd(w.run + ps) == ps[0].addr + ps[0].size;
      assert ps[0].size > 0;
    }
  }

  /** What one member's own rows hold is held. */
  lemma PlacedReachesOwn(w: Walking, ps: seq<Piece>, named: bool, lo: int, hi: int)
    requires WalkingOk(w) && PiecesOk(ps) && Covered(ps, lo, hi)
    ensures Reaches(Placed(w, ps, named), lo, hi)
  {
    hide PieceOk, Flushed;
    var i :| 0 <= i < |ps| && Holding(ps[i], lo, hi);
    CoveredAppend(w.out + Flushed(w.run), ps, lo, hi);
    if named && Joins(ps) && w.run != [] {
      RunStarts(w.run);
    }
  }

  lemma RunStarts(run: seq<Piece>)
    requires Run(run) && run != []
    ensures run[0].addr < RunEnd(run)
  {
    RunAscends(run, run[0].addr, RunEnd(run));
  }

  lemma {:induction false} WalkReaches(n: Node, at: int, j: nat, k: nat, lo: int, hi: int)
    requires NodeOk(n) && j <= k <= |n.members| && Reaches(WalkTo(n, at, j), lo, hi)
    ensures Reaches(WalkTo(n, at, k), lo, hi)
    decreases k
  {
    hide Placed, NodeOk, Reaches, RowsOfMember, WalkingOk, PiecesOk;
    if j < k {
      WalkReaches(n, at, j, k - 1, lo, hi);
      PlacedReaches(WalkTo(n, at, k - 1), RowsOfMember(n, at, k - 1), n.members[k - 1].naming != Anonymous, lo, hi);
    }
  }

  lemma WalkCovers(n: Node, at: int, j: nat, lo: int, hi: int)
    requires NodeOk(n) && j <= |n.members| && Reaches(WalkTo(n, at, j), lo, hi)
    ensures Covered(WalkPieces(n, at), lo, hi)
  {
    hide Placed, NodeOk, RowsOfMember, WalkTo, Flushed, Covered;
    WalkReaches(n, at, j, |n.members|, lo, hi);
    var w := WalkTo(n, at, |n.members|);
    if !Covered(w.out, lo, hi) {
      FlushedCovers(w.run, lo, hi);
    }
    CoveredAppend(w.out, Flushed(w.run), lo, hi);
  }

  /** Whatever a member's own rows hold, the rows of the whole object hold. */
  lemma MemberCovered(n: Node, at: int, j: nat, lo: int, hi: int)
    requires NodeOk(n) && j < |n.members| && Covered(RowsOfMember(n, at, j), lo, hi)
    ensures Covered(WalkPieces(n, at), lo, hi)
  {
    hide Placed, NodeOk, Reaches, RowsOfMember, WalkingOk, PiecesOk, Covered, WalkPieces;
    PlacedReachesOwn(WalkTo(n, at, j), RowsOfMember(n, at, j), n.members[j].naming != Anonymous, lo, hi);
    WalkCovers(n, at, j + 1, lo, hi);
  }

  /** Members `i` to `j` are named, each has a row that may join, and each starts less than 4 bytes after the last. */
  predicate Neighbours(n: Node, at: int, i: nat, j: nat)
    requires NodeOk(n) && i < j <= |n.members|
  {
    && (forall k :: i <= k < j ==> n.members[k].naming != Anonymous && Joins(RowsOfMember(n, at, k)))
    && (forall k :: i < k < j ==> NextTo(RowsOfMember(n, at, k - 1), RowsOfMember(n, at, k)))
  }

  predicate NextTo(ps: seq<Piece>, qs: seq<Piece>) {
    |ps| == |qs| == 1 && 0 <= qs[0].addr - (ps[0].addr + ps[0].size) < 4
  }

  /** After the last of them the open run ends with it, and starts no later than the first. */
  lemma {:induction false} NeighboursInRun(n: Node, at: int, i: nat, j: nat)
    requires NodeOk(n) && i < j <= |n.members| && Neighbours(n, at, i, j)
    ensures Joins(RowsOfMember(n, at, i)) && Joins(RowsOfMember(n, at, j - 1))
    ensures var (first, last, run) := (RowsOfMember(n, at, i)[0], RowsOfMember(n, at, j - 1)[0], WalkTo(n, at, j).run);
      run != [] && run[0].addr <= first.addr && RunEnd(run) == last.addr + last.size
    decreases j
  {
    hide NodeOk, RowsOfMember, PieceOk, Flushed;
    var w, ps := WalkTo(n, at, j - 1), RowsOfMember(n, at, j - 1);
    assert WalkTo(n, at, j) == Placed(w, ps, true);
    if i < j - 1 {
      assert NextTo(RowsOfMember(n, at, j - 2), ps);
      NeighboursInRun(n, at, i, j - 1);
      assert (w.run + ps)[0] == w.run[0] && RunEnd(w.run + ps) == ps[0].addr + ps[0].size;
    } else if w.run != [] {
      RunStarts(w.run);
    }
  }

  /**
    Why walk joins: neighbours less than 4 bytes apart, whose rows hold no 8-byte element, are one row of the object,
    from the first byte of the first to the last byte of the last.
  */
  lemma NeighboursShareARow(n: Node, at: int, i: nat, j: nat)
    requires NodeOk(n) && i < j <= |n.members| && Neighbours(n, at, i, j)
    ensures Joins(RowsOfMember(n, at, i)) && Joins(RowsOfMember(n, at, j - 1))
    ensures var (first, last) := (RowsOfMember(n, at, i)[0], RowsOfMember(n, at, j - 1)[0]);
      Covered(WalkPieces(n, at), first.addr, last.addr + last.size)
  {
    hide NodeOk, RowsOfMember, WalkTo, WalkPieces, Covered;
    NeighboursInRun(n, at, i, j);
    var (first, last) := (RowsOfMember(n, at, i)[0], RowsOfMember(n, at, j - 1)[0]);
    WalkCovers(n, at, j, first.addr, last.addr + last.size);
  }

  /** In an array the same holds of every object. */
  lemma {:induction false} ObjectCovered(n: Node, count: nat, at: int, e: nat, lo: int, hi: int)
    requires NodeOk(n) && e < count && Covered(WalkPieces(n, at + Extent(n.size, e)), lo, hi)
    ensures Covered(Objects(n, count, at), lo, hi)
    decreases count
  {
    hide NodeOk, WalkPieces, Covered;
    CoveredAppend(WalkPieces(n, at), Objects(n, count - 1, at + n.size), lo, hi);
    if e > 0 {
      assert at + Extent(n.size, e) == at + n.size + Extent(n.size, e - 1);
      ObjectCovered(n, count - 1, at + n.size, e - 1, lo, hi);
    }
  }

  // ---- rows and walk as they run ----

  lemma SuffixStep(run: seq<Piece>, k: nat, at: int)
    requires k < |run| && Run(run[k..]) && at <= run[k].addr
    ensures PieceOk(run[k]) && run[k].kind.Supported? && Run(run[k + 1..])
    ensures k + 1 < |run| ==> run[k].addr + run[k].size <= run[k + 1].addr
    ensures JoinedWidths(run[k..], at)
         == Ones(run[k].addr - at) + ExpandPart(run[k]) + JoinedWidths(run[k + 1..], run[k].addr + run[k].size)
  {
    hide PieceOk, ExpandPart, Ones, T.Period, T.Positive, JoinedWidths, Run;
    JoinedSplit(run[k..], at);
    assert run[k..][0] == run[k] && run[k..][1..] == run[k + 1..];
    assert k + 1 < |run| ==> run[k..][1] == run[k + 1];
  }

  lemma NoWidths(run: seq<Piece>, at: int)
    ensures Run(run[|run|..]) && JoinedWidths(run[|run|..], at) == []
  {}

  /** The widths of the joined row, appended part by part. */
  method Flush(run: seq<Piece>) returns (ps: seq<Piece>)
    requires Run(run)
    ensures ps == Flushed(run)
  {
    hide PieceOk, ExpandPart, Expand, Ones, T.Period, T.Positive, JoinedWidths, Run, Ascending, PiecesOk;
    if |run| <= 1 {
      return run;
    }
    var layout, at := [], run[0].addr;
    assert run[0..] == run;
    JoinedPeriod(run, at);
    ghost var all := JoinedWidths(run, at);
    assert layout + JoinedWidths(run[0..], at) == all;
    for k := 0 to |run|
      invariant Run(run[k..]) && (k < |run| ==> at <= run[k].addr) && (k == |run| ==> at == RunEnd(run))
      invariant layout + JoinedWidths(run[k..], at) == all
    {
      SuffixStep(run, k, at);
      ghost var rest := JoinedWidths(run[k + 1..], run[k].addr + run[k].size);
      var part := Ones(run[k].addr - at) + ExpandPart(run[k]);
      assert layout + (part + rest) == (layout + part) + rest;
      layout := layout + part;
      at := run[k].addr + run[k].size;
    }
    NoWidths(run, at);
    assert layout + [] == layout;
    ps := [Piece(run[0].addr, at - run[0].addr, T.Supported, layout)];
  }

  /**
    The rows of `count` objects of a type at `addr`. They fail exactly when a member named after its
    offset is elsewhere; otherwise every byte is treated as its type says.
  */
  method Rows(n: Node, count: nat, addr: int, bases: seq<int>) returns (r: Option<seq<Piece>>)
    requires NodeOk(n)
    ensures r == if NamesFit(n, count, addr, bases) then Some(PiecesOf(n, count, addr)) else None
    ensures r.Some? ==> Ascending(r.value, addr, addr + Extent(n.size, count))
    ensures r.Some? ==> forall a :: addr <= a < addr + Extent(n.size, count) ==>
      Correct(FateOf(r.value, a), SlotOf(n, count, addr, a), a)
    decreases n, 3
  {
    hide FateOf, Correct, Ascending, NodeOk, Objects, SlotOf;
    if n.layout != [] || !n.walkable {
      r := Some([Piece(addr, Extent(n.size, count), n.kind, n.layout)]);
      SingleRow(n, count, addr);
    } else {
      r := WalkObjects(n, count, addr, bases);
    }
  }

  /** The objects of an array of structs, one after the other. */
  method WalkObjects(n: Node, count: nat, addr: int, bases: seq<int>) returns (r: Option<seq<Piece>>)
    requires NodeOk(n) && n.layout == [] && n.walkable
    ensures r == if NamesFit(n, count, addr, bases) then Some(Objects(n, count, addr)) else None
    ensures r.Some? ==> Ascending(r.value, addr, addr + Extent(n.size, count))
    ensures r.Some? ==> forall a :: addr <= a < addr + Extent(n.size, count) ==>
      Correct(FateOf(r.value, a), SlotOf(n, count, addr, a), a)
    decreases n, 2
  {
    hide FateOf, Correct, SlotInside, NamesInside, Ascending, NodeOk, WalkPieces, Objects, PiecesOk;
    var out, at := [], addr;
    EmptyAscends(addr);
    NoneYet(n, count, addr);
    assert PiecesOk(out) by { NoPieces(); }
    for i := 0 to count
      invariant addr <= at && at + Extent(n.size, count - i) == addr + Extent(n.size, count)
      invariant NamesFit(n, count, addr, bases) <==> NamesFit(n, count - i, at, bases)
      invariant PiecesOk(out) && out + Objects(n, count - i, at) == Objects(n, count, addr)
      invariant Ascending(out, addr, at)
      invariant forall a :: addr <= a < at ==> Correct(FateOf(out, a), SlotOf(n, count, addr, a), a)
      invariant forall a :: at <= a ==> SlotOf(n, count, addr, a) == SlotOf(n, count - i, at, a)
    {
      var one := Walk(n, at, bases);
      if one.None? {
        return None;
      }
      NextObject(n, count, addr, i, at, out, one.value);
      PiecesAppend(out, one.value);
      ObjectsStep(n, count - i, at, out);
      out, at := out + one.value, at + n.size;
    }
    NoObjects(n, at, out);
    r := Some(out);
  }

  lemma NoPieces()
    ensures PiecesOk([])
  {}

  lemma NoneYet(n: Node, count: nat, at: int)
    requires NodeOk(n)
    ensures [] + Objects(n, count, at) == Objects(n, count, at)
  {
    hide NodeOk, PiecesOk;
  }

  lemma ObjectsStep(n: Node, count: nat, at: int, out: seq<Piece>)
    requires NodeOk(n) && count > 0
    ensures out + Objects(n, count, at) == (out + WalkPieces(n, at)) + Objects(n, count - 1, at + n.size)
  {
    hide NodeOk, WalkPieces, PiecesOk;
  }

  lemma NoObjects(n: Node, at: int, out: seq<Piece>)
    requires NodeOk(n)
    ensures out + Objects(n, 0, at) == out
  {
    hide NodeOk, PiecesOk;
  }

  lemma EmptyAscends(at: int)
    ensures Ascending([], at, at)
  {}

  lemma SingleRow(n: Node, count: nat, addr: int)
    requires NodeOk(n) && (n.layout != [] || !n.walkable)
    ensures var ps := [Piece(addr, Extent(n.size, count), n.kind, n.layout)];
      && Ascending(ps, addr, addr + Extent(n.size, count))
      && forall a :: addr <= a < addr + Extent(n.size, count) ==> Correct(FateOf(ps, a), SlotOf(n, count, addr, a), a)
  {
    var ps := [Piece(addr, Extent(n.size, count), n.kind, n.layout)];
    if n.layout != [] {
      ExtentMultiple(n.size, count);
    }
    forall a | addr <= a < addr + Extent(n.size, count)
      ensures Correct(FateOf(ps, a), SlotOf(n, count, addr, a), a)
    {
      if n.layout != [] {
        RepeatedCorrect(n.layout, addr, count, a);
      }
    }
  }

  lemma NextObject(n: Node, count: nat, addr: int, i: nat, at: int, out: seq<Piece>, ps: seq<Piece>)
    requires n.layout == [] && n.walkable && i < count && addr <= at
    requires Ascending(out, addr, at) && Ascending(ps, at, at + n.size)
    requires forall a :: addr <= a < at ==> Correct(FateOf(out, a), SlotOf(n, count, addr, a), a)
    requires forall a :: at <= a ==> SlotOf(n, count, addr, a) == SlotOf(n, count - i, at, a)
    requires forall a :: at <= a < at + n.size ==> Correct(FateOf(ps, a), SlotInside(n, at, 0, a), a)
    ensures Ascending(out + ps, addr, at + n.size)
    ensures forall a :: addr <= a < at + n.size ==> Correct(FateOf(out + ps, a), SlotOf(n, count, addr, a), a)
  {
    hide FateOf, Correct, SlotInside, PieceOk;
    AscendingAppend(out, ps, addr, at, at, at + n.size);
    forall a | addr <= a < at + n.size
      ensures Correct(FateOf(out + ps, a), SlotOf(n, count, addr, a), a)
    {
      FateAppend(out, ps, a);
      if a < at {
        FateOutside(ps, at, at + n.size, a);
      } else {
        FateOutside(out, addr, at, a);
      }
    }
  }

  /** One object of a struct type, member by member. */
  method Walk(n: Node, addr: int, bases0: seq<int>) returns (r: Option<seq<Piece>>)
    requires NodeOk(n)
    ensures r == if NamesInside(n, addr, 0, bases0 + [addr]) then Some(WalkPieces(n, addr)) else None
    ensures r.Some? ==> Ascending(r.value, addr, addr + n.size)
    ensures r.Some? ==> forall a :: addr <= a < addr + n.size ==>
      Correct(FateOf(r.value, a), SlotInside(n, addr, 0, a), a)
    decreases n, 1
  {
    hide FateOf, Correct, SlotInside, SlotOf, NamesFit, Ascending, Walked, NodeOk, Run, Extent, NameFits, MemberPieces;
    hide Placed, RowsOfMember, PiecesOk, NamesOfMember;
    var bases := bases0 + [addr];
    var out, run := [], [];
    NothingWalked(n, addr);
    for j := 0 to |n.members|
      invariant Walked(n, addr, j, out, run)
      invariant Run(run) && PiecesOk(out) && Walking(out, run) == WalkTo(n, addr, j)
      invariant NamesInside(n, addr, 0, bases) <==> NamesInside(n, addr, j, bases)
    {
      var rows := MemberRows(n, addr, j, bases);
      if rows.None? {
        return None;
      }
      PlacedKeeps(n, addr, j, out, run, rows.value);
      out, run := Place(out, run, rows.value, n.members[j].naming != Anonymous);
    }
    FlushKeeps(n, addr, |n.members|, out, run);
    var done := Flush(run);
    out := out + done;
    AllWalked(n, addr, out);
    r := Some(out);
  }

  /** The rows of member `j`, when the names in it fit. */
  method MemberRows(n: Node, addr: int, j: nat, bases: seq<int>) returns (r: Option<seq<Piece>>)
    requires NodeOk(n) && j < |n.members|
    ensures r == if NameFits(n.members[j].naming, addr + n.members[j].offset, bases) && NamesOfMember(n, addr, j, bases)
                 then Some(RowsOfMember(n, addr, j)) else None
    ensures r.Some? ==> PiecesOk(r.value) && MemberPieces(n, addr, j, r.value)
    decreases n, 0
  {
    hide FateOf, Correct, SlotInside, SlotOf, NamesFit, Ascending, NodeOk, Run, Extent, NameFits, MemberPieces;
    hide PiecesOf, WalkPieces, NamesInside;
    var m := n.members[j];
    MemberNodeOk(n, j);
    if !NameFits(m.naming, addr + m.offset, bases) {
      r := None;
    } else if m.naming != Anonymous {
      r := Rows(m.node, m.count, addr + m.offset, bases);
      if r.Some? {
        NamedRows(n, addr, j, r.value);
      }
    } else if m.node.walkable && m.count == 1 {
      r := Walk(m.node, addr + m.offset, bases);
      if r.Some? {
        AnonymousWalked(n, addr, j, r.value);
      }
    } else {
      r := Some([Piece(addr + m.offset, Extent(m.node.size, m.count), RefusalKind(m.node), [])]);
      AnonymousRefused(n, addr, j);
    }
  }

  /** One more member's rows, after or into the open run. */
  method Place(out0: seq<Piece>, run0: seq<Piece>, ps: seq<Piece>, named: bool)
      returns (out: seq<Piece>, run: seq<Piece>)
    requires Run(run0) && PiecesOk(out0) && PiecesOk(ps)
    ensures Walking(out, run) == Placed(Walking(out0, run0), ps, named)
  {
    hide Flushed, Run, PiecesOk;
    out, run := out0, run0;
    if !named || !Joins(ps) || (run != [] && !(0 <= ps[0].addr - RunEnd(run) < 4)) {
      var done := Flush(run);
      out, run := out + done, [];
    }
    if named && Joins(ps) {
      run := run + ps;
    } else {
      out := out + ps;
    }
  }

  /** Placing a member's rows keeps every byte right. */
  lemma PlacedKeeps(n: Node, at: int, j: nat, out: seq<Piece>, run: seq<Piece>, ps: seq<Piece>)
    requires NodeOk(n) && j < |n.members| && Walked(n, at, j, out, run) && MemberPieces(n, at, j, ps)
    requires Run(run) && PiecesOk(out) && PiecesOk(ps)
    ensures var w := Placed(Walking(out, run), ps, n.members[j].naming != Anonymous);
      Walked(n, at, j + 1, w.out, w.run) && Run(w.run) && PiecesOk(w.out)
  {
    hide NodeOk, Walked, MemberPieces, Flushed, Run, PiecesOk;
    var named := n.members[j].naming != Anonymous;
    FlushKeeps(n, at, j, out, run);
    if !named || !Joins(ps) {
      MemberFollows(n, at, j, out + Flushed(run), ps);
    } else if run == [] || 0 <= ps[0].addr - RunEnd(run) < 4 {
      MemberJoins(n, at, j, out, run, ps);
    } else {
      MemberJoins(n, at, j, out + Flushed(run), [], ps);
      assert [] + ps == ps;
    }
  }

  lemma NothingWalked(n: Node, at: int)
    ensures Run([]) && Walked(n, at, 0, [], [])
  {
    var none: seq<Piece> := [];
    assert none + none == none;
  }

  lemma MemberNodeOk(n: Node, j: nat)
    requires NodeOk(n) && j < |n.members|
    ensures NodeOk(n.members[j].node)
  {}

  lemma NamedRows(n: Node, at: int, j: nat, ps: seq<Piece>)
    requires j < |n.members| && n.members[j].naming != Anonymous
    requires Ascending(ps, at + n.members[j].offset, at + End(n.members[j]))
    requires forall a :: at + n.members[j].offset <= a < at + End(n.members[j]) ==>
      Correct(FateOf(ps, a), SlotOf(n.members[j].node, n.members[j].count, at + n.members[j].offset, a), a)
    ensures MemberPieces(n, at, j, ps)
  {
    hide FateOf, Correct, SlotOf, Ascending;
  }

  lemma AnonymousWalked(n: Node, at: int, j: nat, ps: seq<Piece>)
    requires j < |n.members| && n.members[j].naming == Anonymous && n.members[j].node.walkable
      && n.members[j].count == 1
    requires Ascending(ps, at + n.members[j].offset, at + n.members[j].offset + n.members[j].node.size)
    requires forall a :: at + n.members[j].offset <= a < at + n.members[j].offset + n.members[j].node.size ==>
      Correct(FateOf(ps, a), SlotInside(n.members[j].node, at + n.members[j].offset, 0, a), a)
    ensures MemberPieces(n, at, j, ps)
  {
    var m := n.members[j];
    assert Extent(m.node.size, 1) == m.node.size + Extent(m.node.size, 0);
    hide FateOf, Correct, SlotInside, Ascending;
  }

  lemma AnonymousRefused(n: Node, at: int, j: nat)
    requires j < |n.members| && n.members[j].naming == Anonymous
    requires !(n.members[j].node.walkable && n.members[j].count == 1)
    ensures var m := n.members[j];
      MemberPieces(n, at, j, [Piece(at + m.offset, Extent(m.node.size, m.count), RefusalKind(m.node), [])])
  {}

  lemma AllWalked(n: Node, at: int, out: seq<Piece>)
    requires NodeOk(n) && Walked(n, at, |n.members|, out, [])
    ensures Ascending(out, at, at + n.size)
    ensures forall a :: at <= a < at + n.size ==> Correct(FateOf(out, a), SlotInside(n, at, 0, a), a)
  {
    var end := EndBefore(n.members, |n.members|);
    assert end <= n.size;
    hide NodeOk, PieceOk;
    assert out + [] == out;
    forall a | at <= a < at + n.size
      ensures Correct(FateOf(out, a), SlotInside(n, at, 0, a), a)
    {
      if a >= at + end {
        FateOutside(out, at, at + end, a);
        SlotAfter(n, at, 0, a);
      }
    }
  }

  lemma {:induction false} SlotAfter(n: Node, at: int, j: nat, a: int)
    requires Ordered(n.members) && j <= |n.members| && a >= at + EndBefore(n.members, |n.members|)
    ensures SlotInside(n, at, j, a) == Padding
    decreases |n.members| - j
  {
    hide SlotOfMember, Aligned, Extent;
    if j < |n.members| {
      EndsGrow(n, j + 1, |n.members|);
      assert EndBefore(n.members, j + 1) == End(n.members[j]);
      SlotAfter(n, at, j + 1, a);
    }
  }
}
