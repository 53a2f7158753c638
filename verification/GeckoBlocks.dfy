/**
  What the compiler knows, said with the blocks themselves: every if opens a block of its own, an else a new one in its
  place, and a register set inside a block is known for as long as that block is open (tools/gecko_coverage.py,
  Compiler).
*/
module GeckoBlocks {
  import opened Bytes
  import opened GeckoCode
  import opened GeckoCompiler
  import T = GeckoTargets
  import U = GeckoUnits

  /** Where a register was last set: outside every if, or in the block with this number. */
  datatype Home = NoBlock | InBlock(block: nat)

  /** A register: the number it was last set to, and where. */
  datatype Held = Held(value: Word, home: Home)

  /** The open blocks, innermost last, and the two registers. No number is given to two blocks. */
  datatype Ledger = Ledger(unused: nat, open: seq<nat>, ba: Held, po: Held)

  const START := Ledger(0, [], Held(BASE, NoBlock), Held(BASE, NoBlock))

  /** Its block has not ended. */
  predicate Alive(h: Held, open: seq<nat>) {
    h.home.InBlock? ==> h.home.block in open
  }

  function Reg(l: Ledger, pointer: bool): Held {
    if pointer then l.po else l.ba
  }

  predicate Usable(l: Ledger, pointer: bool) {
    Alive(Reg(l, pointer), l.open)
  }

  // ---- what a line does to the blocks ----

  /** `count` endifs, as far as there are ifs. */
  function Popped(open: seq<nat>, count: nat): seq<nat> {
    if count == 0 || open == [] then open else Popped(open[..|open| - 1], count - 1)
  }

  function Opened(l: Ledger): Ledger {
    l.(unused := l.unused + 1, open := l.open + [l.unused])
  }

  /** An else: the innermost block ends and another takes its place. With no if open there is nothing to replace. */
  function Turned(l: Ledger): Ledger {
    if l.open == [] then l else Opened(l.(open := l.open[..|l.open| - 1]))
  }

  function AfterReset(l: Ledger, reset: Reset): Ledger {
    l.(ba := if reset.ba.Some? then Held(reset.ba.value, NoBlock) else l.ba,
       po := if reset.po.Some? then Held(reset.po.value, NoBlock) else l.po)
  }

  function HomeNow(l: Ledger): Home {
    if l.open == [] then NoBlock else InBlock(l.open[|l.open| - 1])
  }

  /** What a line counts from. */
  function Origin(l: Ledger, pointer: bool): Word {
    if pointer then l.po.value else l.ba.value / 0x200_0000 * 0x200_0000
  }

  function NumberOf(l: Ledger, o: Operand): Word {
    if o.relative then Wrap(o.value + Origin(l, o.pointer)) else o.value
  }

  function AfterSet(l: Ledger, instr: Instr): Ledger
    requires instr.SetBase?
  {
    var was := Reg(l, instr.toPointer).value;
    var number := NumberOf(l, instr.operand);
    var h := Held(if instr.add then Wrap(was + number) else number, HomeNow(l));
    if instr.toPointer then l.(po := h) else l.(ba := h)
  }

  /** The ledger an if is read with: its own endif comes first. */
  function BeforeIf(l: Ledger, instr: Instr): Ledger
    requires instr.If?
  {
    if instr.endsOne then l.(open := Popped(l.open, 1)) else l
  }

  function Next(l: Ledger, instr: Instr): Ledger {
    match instr
    case If(_, _, _, _, _, _, _) => Opened(BeforeIf(l, instr))
    case SetBase(_, _, _) => AfterSet(l, instr)
    case EndAll(reset) => AfterReset(l.(open := []), reset)
    case EndIfs(count, otherwise, reset) =>
      var ended := l.(open := Popped(l.open, count));
      AfterReset(if otherwise then Turned(ended) else ended, reset)
    case _ => l
  }

  // ---- what a line needs ----

  predicate UsesOperand(l: Ledger, o: Operand) {
    o.relative ==> Usable(l, o.pointer)
  }

  /** No register it counts from, adds to or stores was set in a block that has ended. */
  predicate UsesLive(l: Ledger, instr: Instr) {
    match instr
    case Write(pointer, _, _) => Usable(l, pointer)
    case If(_, pointer, _, _, _, _, _) => Usable(BeforeIf(l, instr), pointer)
    case SetBase(toPointer, add, o) => UsesOperand(l, o) && (add ==> Usable(l, toPointer))
    case StoreBase(fromPointer, o) => UsesOperand(l, o) && Usable(l, fromPointer)
    case RegSet(_, o, _) => UsesOperand(l, o)
    case RegLoad(_, o, _) => UsesOperand(l, o)
    case RegStore(_, o, _, _) => UsesOperand(l, o)
    case RegOpMem(_, _, o) => UsesOperand(l, o)
    case _ => true
  }

  predicate MayAccess(rows: seq<T.Row>, addr: int, length: nat)
    requires T.Sorted(rows)
  {
    Check(rows, addr, length).Ok?
  }

  /** Every access it would make is one that may be made. */
  predicate AccessesPass(rows: seq<T.Row>, l: Ledger, instr: Instr)
    requires T.Sorted(rows)
  {
    match instr
    case Write(pointer, offset, body) =>
      var addr := Wrap(Origin(l, pointer) + offset);
      (match body
       case Plain(data) => MayAccess(rows, addr, |data|)
       case Rounded(data) => MayAccess(rows, addr / 4 * 4, |data|)
       case Serial(width, _, _, stride, count) =>
         forall k :: 0 <= k < count ==> MayAccess(rows, Wrap(addr + k * stride), width)
       case Bad(_) => true)
    case If(_, pointer, offset, width, _, _, _) =>
      var sum := Wrap(Origin(l, pointer) + offset);
      MayAccess(rows, if width == 4 then sum / 4 * 4 else if width == 2 then sum / 2 * 2 else sum, width)
    case StoreBase(_, o) => MayAccess(rows, NumberOf(l, o), 4)
    case RegLoad(_, o, width) => MayAccess(rows, NumberOf(l, o), width)
    case RegStore(_, o, width, count) => MayAccess(rows, NumberOf(l, o), width * count)
    case RegOpMem(_, _, o) => MayAccess(rows, NumberOf(l, o), 4)
    case _ => true
  }

  predicate LineAccepted(rows: seq<T.Row>, l: Ledger, instr: Instr)
    requires T.Sorted(rows)
  {
    U.Readable(instr) && UsesLive(l, instr) && AccessesPass(rows, l, instr)
  }

  /**
    Every line from `i` on that is reached is readable, uses no register whose block has ended, and accesses what it
    may.
  */
  predicate Accepted(rows: seq<T.Row>, lines: seq<Line>, i: nat, l: Ledger)
    requires T.Sorted(rows)
    decreases |lines| - i
  {
    i >= |lines|
    || var d := Decode(lines, i);
       d.instr.EndOfList?
       || (LineAccepted(rows, l, d.instr) && Accepted(rows, lines, i + d.lines, Next(l, d.instr)))
  }

  // ---- the ledger and the track ----

  /** The compiler's view of one register: its number while its block is open, at the depth of that block. */
  predicate Mirrors(k: Known, h: Held, open: seq<nat>) {
    && k.value == (if Alive(h, open) then Some(h.value) else None)
    && k.setAt <= |open|
    && (h.home.NoBlock? || !Alive(h, open) ==> k.setAt == 0)
    && (h.home.InBlock? && Alive(h, open) ==> k.setAt > 0 && open[k.setAt - 1] == h.home.block)
  }

  /** Blocks have numbers of their own, all given out. */
  predicate BlocksOk(l: Ledger) {
    && (forall i :: 0 <= i < |l.open| ==> l.open[i] < l.unused)
    && (forall i, j :: 0 <= i < j < |l.open| ==> l.open[i] != l.open[j])
    && (l.ba.home.InBlock? ==> l.ba.home.block < l.unused)
    && (l.po.home.InBlock? ==> l.po.home.block < l.unused)
  }

  predicate Related(t: Track, l: Ledger) {
    BlocksOk(l) && t.depth == |l.open| && Mirrors(t.ba, l.ba, l.open) && Mirrors(t.po, l.po, l.open)
  }

  lemma {:induction false} PoppedIs(open: seq<nat>, count: nat)
    ensures Popped(open, count) == open[..Less(|open|, count)]
    decreases count
  {
    if count > 0 && open != [] {
      PoppedIs(open[..|open| - 1], count - 1);
    }
  }

  /** Ifs end down to `m` of them, and with `otherwise` the innermost turns into its else. */
  lemma Forgotten(k: Known, h: Held, l: Ledger, m: nat, otherwise: bool)
    requires BlocksOk(l) && Mirrors(k, h, l.open) && m <= |l.open| && (h.home.InBlock? ==> h.home.block < l.unused)
    ensures var open := l.open[..m];
      var after := if otherwise && open != [] then open[..m - 1] + [l.unused] else open;
      Mirrors(Forget(k, m, otherwise), h, after)
  {
    var open := l.open[..m];
    var after := if otherwise && open != [] then open[..m - 1] + [l.unused] else open;
    if h.home.InBlock? && Alive(h, l.open) {
      assert l.open[k.setAt - 1] == h.home.block;
      if h.home.block in after {
        var i :| 0 <= i < |after| && after[i] == h.home.block;
        assert after[i] == l.open[i];
        assert i == k.setAt - 1;
      }
      if k.setAt <= m {
        assert open[k.setAt - 1] == h.home.block;
        assert k.setAt < m || !otherwise ==> after[k.setAt - 1] == h.home.block;
      }
    } else if h.home.InBlock? {
      assert forall i :: 0 <= i < |after| ==> after[i] == l.unused || after[i] == l.open[i];
      assert h.home.block !in after;
    }
  }

  lemma EndsRelated(t: Track, l: Ledger, count: nat, otherwise: bool)
    requires Related(t, l)
    ensures var ended := l.(open := Popped(l.open, count));
      Related(CloseTo(t, Less(t.depth, count), otherwise), if otherwise then Turned(ended) else ended)
  {
    hide Mirrors, Forget;
    PoppedIs(l.open, count);
    var m := Less(t.depth, count);
    Forgotten(t.ba, l.ba, l, m, otherwise);
    Forgotten(t.po, l.po, l, m, otherwise);
  }

  lemma ResetRelated(t: Track, l: Ledger, reset: Reset)
    requires Related(t, l)
    ensures Related(ResetBases(t, reset), AfterReset(l, reset))
  {}

  lemma IfRelated(t: Track, l: Ledger)
    requires Related(t, l)
    ensures Related(t.(depth := t.depth + 1), Opened(l))
  {
    MirrorsOpened(t.ba, l.ba, l);
    MirrorsOpened(t.po, l.po, l);
    hide Mirrors;
  }

  lemma MirrorsOpened(k: Known, h: Held, l: Ledger)
    requires Mirrors(k, h, l.open) && (h.home.InBlock? ==> h.home.block < l.unused)
    ensures Mirrors(k, h, Opened(l).open)
  {
    var more := Opened(l).open;
    if h.home.InBlock? {
      assert h.home.block in more <==> h.home.block in l.open;
    }
  }

  lemma TopBits(w: Word)
    ensures TopSeven(w) == w / 0x200_0000 * 0x200_0000
  {}

  lemma OperandRelated(t: Track, l: Ledger, o: Operand)
    requires Related(t, l)
    ensures OperandOf(t, o).Ok? <==> UsesOperand(l, o)
    ensures OperandOf(t, o).Ok? ==> OperandOf(t, o).value == NumberOf(l, o)
  {
    TopBits(l.ba.value);
  }

  lemma BaseRelated(t: Track, l: Ledger, pointer: bool)
    requires Related(t, l)
    ensures BaseOf(t, pointer).Ok? <==> Usable(l, pointer)
    ensures BaseOf(t, pointer).Ok? ==> BaseOf(t, pointer).value == Origin(l, pointer)
    ensures ValueOf(t, pointer).Ok? <==> Usable(l, pointer)
    ensures ValueOf(t, pointer).Ok? ==> ValueOf(t, pointer).value == Reg(l, pointer).value
  {
    TopBits(l.ba.value);
  }

  lemma {:induction false} SerialAccepted(rows: seq<T.Row>, addr: Word, body: Body, k: nat)
    requires T.Sorted(rows) && body.Serial?
    ensures SerialOps(rows, addr, body, k).Ok? <==>
      forall j :: k <= j < body.count ==> MayAccess(rows, Wrap(addr + j * body.stride), body.width)
    decreases body.count - k
  {
    hide Check, BigEndian, T.Sorted;
    if k < body.count {
      SerialAccepted(rows, addr, body, k + 1);
    }
  }

  lemma WriteAccepted(rows: seq<T.Row>, t: Track, l: Ledger, instr: Instr)
    requires T.Sorted(rows) && Related(t, l) && instr.Write?
    ensures CompileInstr(rows, t, instr).Ok? <==> LineAccepted(rows, l, instr)
    ensures CompileInstr(rows, t, instr).Ok? ==> Related(CompileInstr(rows, t, instr).value.track, Next(l, instr))
  {
    hide Check, BigEndian, T.Sorted, Related, SerialOps, Usable, Origin, BaseOf;
    BaseRelated(t, l, instr.pointer);
    var addr := Wrap(Origin(l, instr.pointer) + instr.offset);
    if instr.body.Serial? {
      SerialAccepted(rows, addr, instr.body, 0);
    }
  }

  lemma IfAccepted(rows: seq<T.Row>, t: Track, l: Ledger, instr: Instr)
    requires T.Sorted(rows) && Related(t, l) && instr.If?
    ensures CompileInstr(rows, t, instr).Ok? <==> LineAccepted(rows, l, instr)
    ensures CompileInstr(rows, t, instr).Ok? ==> Related(CompileInstr(rows, t, instr).value.track, Next(l, instr))
  {
    hide Check, T.Sorted, Related, Usable, BaseOf, CloseTo;
    EndsRelated(t, l, 1, false);
    var open, book := IfTrack(t, instr), BeforeIf(l, instr);
    assert Related(open, book) by {
      if !instr.endsOne {
        assert open == t && book == l;
      }
    }
    BaseRelated(open, book, instr.pointer);
    IfRelated(open, book);
  }

  lemma SetAccepted(rows: seq<T.Row>, t: Track, l: Ledger, instr: Instr)
    requires T.Sorted(rows) && Related(t, l) && instr.SetBase?
    ensures CompileInstr(rows, t, instr).Ok? <==> LineAccepted(rows, l, instr)
    ensures CompileInstr(rows, t, instr).Ok? ==> Related(CompileInstr(rows, t, instr).value.track, Next(l, instr))
  {
    hide Check, T.Sorted, Usable, OperandOf, NumberOf, ValueOf;
    OperandRelated(t, l, instr.operand);
    BaseRelated(t, l, instr.toPointer);
  }

  lemma OtherAccepted(rows: seq<T.Row>, t: Track, l: Ledger, instr: Instr)
    requires T.Sorted(rows) && Related(t, l) && (instr.StoreBase? || IsRegister(instr))
    ensures CompileInstr(rows, t, instr).Ok? <==> LineAccepted(rows, l, instr)
    ensures CompileInstr(rows, t, instr).Ok? ==> Related(CompileInstr(rows, t, instr).value.track, Next(l, instr))
  {
    hide Check, T.Sorted, Usable, OperandOf, NumberOf, ValueOf, Related, BigEndian;
    if instr.StoreBase? {
      OperandRelated(t, l, instr.operand);
      BaseRelated(t, l, instr.fromPointer);
    } else if !instr.RegOp? && !instr.RegOpReg? {
      OperandRelated(t, l, instr.operand);
    }
  }

  lemma EndAccepted(rows: seq<T.Row>, t: Track, l: Ledger, instr: Instr)
    requires T.Sorted(rows) && Related(t, l) && (instr.EndAll? || instr.EndIfs?)
    ensures CompileInstr(rows, t, instr).Ok? && LineAccepted(rows, l, instr)
    ensures Related(CompileInstr(rows, t, instr).value.track, Next(l, instr))
  {
    hide T.Sorted, Related, CloseTo, ResetBases, AfterReset, Turned;
    var count, otherwise := if instr.EndAll? then t.depth else instr.count, instr.EndIfs? && instr.otherwise;
    EndsRelated(t, l, count, otherwise);
    var ended := l.(open := Popped(l.open, count));
    if instr.EndAll? {
      PoppedIs(l.open, count);
      DepthIs(t, l);
      assert ended == l.(open := []);
    }
    ResetRelated(CloseTo(t, Less(t.depth, count), otherwise), if otherwise then Turned(ended) else ended, instr.reset);
  }

  lemma DepthIs(t: Track, l: Ledger)
    requires Related(t, l)
    ensures t.depth == |l.open|
  {}

  /** One line: it is taken exactly when it may be, and the compiler goes on knowing exactly what is alive. */
  lemma LineExactly(rows: seq<T.Row>, t: Track, l: Ledger, instr: Instr)
    requires T.Sorted(rows) && Related(t, l) && !instr.EndOfList?
    ensures CompileInstr(rows, t, instr).Ok? <==> LineAccepted(rows, l, instr)
    ensures CompileInstr(rows, t, instr).Ok? ==> Related(CompileInstr(rows, t, instr).value.track, Next(l, instr))
  {
    if instr.Write? {
      WriteAccepted(rows, t, l, instr);
    } else if instr.If? {
      IfAccepted(rows, t, l, instr);
    } else if instr.SetBase? {
      SetAccepted(rows, t, l, instr);
    } else if instr.EndAll? || instr.EndIfs? {
      EndAccepted(rows, t, l, instr);
    } else if !instr.Bad? {
      OtherAccepted(rows, t, l, instr);
    }
  }

  lemma {:induction false} AcceptedFrom(rows: seq<T.Row>, lines: seq<Line>, i: nat, t: Track, l: Ledger)
    requires T.Sorted(rows) && Related(t, l)
    ensures CompileFrom(rows, lines, i, t).Ok? <==> Accepted(rows, lines, i, l)
    decreases |lines| - i
  {
    hide Decode, CompileInstr, Next, Related, LineAccepted, T.Sorted, InstrOk;
    if i < |lines| && !Decode(lines, i).instr.EndOfList? {
      var d := Decode(lines, i);
      LineExactly(rows, t, l, d.instr);
      if CompileInstr(rows, t, d.instr).Ok? {
        AcceptedFrom(rows, lines, i + d.lines, CompileInstr(rows, t, d.instr).value.track, Next(l, d.instr));
      }
    }
  }

  lemma StartRelated()
    ensures Related(INITIAL, START)
  {}

  /**
    Exactly which codes compile: those with lines, every one that is reached readable, counting from no register whose
    block has ended, and making only accesses that may be made.
  */
  lemma CompilesExactly(rows: seq<T.Row>, lines: seq<Line>)
    requires T.Sorted(rows)
    ensures CompileCode(rows, lines).Ok? <==> lines != [] && Accepted(rows, lines, 0, START)
  {
    hide CompileFrom, Accepted, Related, T.Sorted;
    StartRelated();
    AcceptedFrom(rows, lines, 0, INITIAL, START);
  }

  // ---- after any lines ----

  /** The line reached, what the compiler knows and the ledger, after `n` lines that were taken. */
  function Reached(rows: seq<T.Row>, lines: seq<Line>, n: nat): Option<(nat, Track, Ledger)>
    requires T.Sorted(rows)
  {
    if n == 0 then Some((0, INITIAL, START))
    else
      match Reached(rows, lines, n - 1)
      case None => None
      case Some((i, t, l)) =>
        if i >= |lines| || Decode(lines, i).instr.EndOfList? then None
        else
          var d := Decode(lines, i);
          var e := CompileInstr(rows, t, d.instr);
          if e.Refused? then None else Some((i + d.lines, e.value.track, Next(l, d.instr)))
  }

  lemma {:induction false} ReachedRelated(rows: seq<T.Row>, lines: seq<Line>, n: nat)
    requires T.Sorted(rows) && Reached(rows, lines, n).Some?
    ensures Related(Reached(rows, lines, n).value.1, Reached(rows, lines, n).value.2)
  {
    hide Decode, CompileInstr, Next, Related, LineAccepted, T.Sorted, InstrOk;
    if n == 0 {
      StartRelated();
    } else {
      ReachedRelated(rows, lines, n - 1);
      var (i, t, l) := Reached(rows, lines, n - 1).value;
      LineExactly(rows, t, l, Decode(lines, i).instr);
    }
  }

  /**
    Forgetting is exact: after any lines the compiler takes, it knows a register if and only if it was last set outside
    every if or in a block that is still open; and what it knows is what it was set to.
  */
  lemma KnownExactly(rows: seq<T.Row>, lines: seq<Line>, n: nat, pointer: bool)
    requires T.Sorted(rows) && Reached(rows, lines, n).Some?
    ensures var (_, t, l) := Reached(rows, lines, n).value;
      Register(t, pointer).value == if Alive(Reg(l, pointer), l.open) then Some(Reg(l, pointer).value) else None
  {
    hide Reached, T.Sorted;
    ReachedRelated(rows, lines, n);
  }
}
