/**
  When the two counters of the compiler and of run_plan are right: exactly
  when no else is an orphan, and exactly when no more ifs are skipped than
  the handler's condition register has bits.
*/
module GeckoSkip {
  import opened Bytes
  import opened GeckoCode
  import opened GeckoCompiler
  import opened GeckoHandler
  import opened GeckoCorrect
  import T = GeckoTargets
  import P = GeckoPlan

  /** The compile-time if-depth after a step. */
  function OpDepth(op: Op, depth: nat): nat {
    match op
    case DoIf(_, _, _, _, _) => depth + 1
    case DoEndIf(count, _) => Less(depth, count)
    case DoEnd => 0
    case _ => depth
  }

  /** Every else still has an open if after its endifs. */
  predicate ElsesOpen(plan: seq<Op>, depth: nat) {
    plan == []
    || (&& (plan[0].DoEndIf? && plan[0].otherwise ==> OpDepth(plan[0], depth) >= 1)
        && ElsesOpen(plan[1..], OpDepth(plan[0], depth)))
  }

  /** The skip count never exceeds the compile-time depth, before or after any step. */
  ghost predicate DepthBounds(plan: seq<Op>, s: P.Machine, depth: nat, fpu: Fpu)
    requires P.MachineOk(s) && P.PlanReady(plan, s.mem)
  {
    && s.skip <= depth
    && (plan == [] ||
        var s1 := P.Step(plan[0], s, fpu);
        P.ReadySame(plan[1..], s.mem, s1.mem);
        DepthBounds(plan[1..], s1, OpDepth(plan[0], depth), fpu))
  }

  /**
    The compile-time depth bounds the run-time skip count on a run exactly when no else is an
    orphan: whatever memory holds, an orphan else breaks the bound.
  */
  lemma {:induction false} DepthBoundsExactly(plan: seq<Op>, s: P.Machine, depth: nat, fpu: Fpu)
    requires P.MachineOk(s) && P.PlanReady(plan, s.mem) && s.skip <= depth
    ensures DepthBounds(plan, s, depth, fpu) <==> ElsesOpen(plan, depth)
  {
    hide P.Work, P.Ready, Passes, WordOf;
    if plan != [] {
      var s1, d1 := P.Step(plan[0], s, fpu), OpDepth(plan[0], depth);
      P.ReadySame(plan[1..], s.mem, s1.mem);
      if s1.skip <= d1 {
        DepthBoundsExactly(plan[1..], s1, d1, fpu);
      }
    }
  }

  // ---- the same condition on the code itself ----

  /** Every else still has an open if, and no more than `bits` ifs are open at once. */
  predicate Nested(lines: seq<Line>, i: nat, depth: nat, bits: nat)
    decreases |lines| - i
  {
    i >= |lines|
    || var d := Decode(lines, i);
       d.instr.EndOfList?
       || (&& (d.instr.EndIfs? && d.instr.otherwise ==> DepthAfter(d.instr, depth) >= 1)
           && DepthAfter(d.instr, depth) <= bits
           && Nested(lines, i + d.lines, DepthAfter(d.instr, depth), bits))
  }

  /** Such a code meets the condition of the main theorem: no orphan else is ever skipped. */
  lemma {:induction false} NestedIsSound(lines: seq<Line>, i: nat, depth: nat, bits: nat)
    requires Nested(lines, i, depth, bits)
    ensures Sound(lines, i, depth, false, bits)
    decreases |lines| - i
  {
    hide Decode, InstrOk;
    if i < |lines| && !Decode(lines, i).instr.EndOfList? {
      var d := Decode(lines, i);
      NestedIsSound(lines, i + d.lines, DepthAfter(d.instr, depth), bits);
    }
  }

  /** No base or pointer is set outside every if while an orphan else is skipped. */
  predicate SetsClear(lines: seq<Line>, i: nat, depth: nat, orphan: bool)
    decreases |lines| - i
  {
    i >= |lines|
    || var d := Decode(lines, i);
       d.instr.EndOfList?
       || (&& !(d.instr.SetBase? && orphan && depth == 0)
           && SetsClear(lines, i + d.lines, DepthAfter(d.instr, depth), OrphanAfter(d.instr, depth, orphan)))
  }

  /** With a bit for every line and one more, that is all the main theorem asks. */
  lemma {:induction false} WideIsSound(lines: seq<Line>, i: nat, depth: nat, orphan: bool, bits: nat)
    requires i <= |lines| ==> depth + 1 + |lines| - i <= bits
    requires i > |lines| ==> depth + 1 <= bits
    ensures Sound(lines, i, depth, orphan, bits) <==> SetsClear(lines, i, depth, orphan)
    decreases |lines| - i
  {
    hide Decode, InstrOk, OrphanAfter;
    if i < |lines| && !Decode(lines, i).instr.EndOfList? {
      var d := Decode(lines, i);
      WideIsSound(lines, i + d.lines, DepthAfter(d.instr, depth), OrphanAfter(d.instr, depth, orphan), bits);
    }
  }

  /** A code that never sets base or pointer needs no condition on its elses at all. */
  lemma {:induction false} NoSetsAreClear(lines: seq<Line>, i: nat, depth: nat, orphan: bool)
    requires forall j :: 0 <= j < |lines| ==> !Decode(lines, j).instr.SetBase?
    ensures SetsClear(lines, i, depth, orphan)
    decreases |lines| - i
  {
    hide Decode, InstrOk, OrphanAfter, DepthAfter;
    if i < |lines| && !Decode(lines, i).instr.EndOfList? {
      var d := Decode(lines, i);
      NoSetsAreClear(lines, i + d.lines, DepthAfter(d.instr, depth), OrphanAfter(d.instr, depth, orphan));
    }
  }

  /** Every else of the code still has an open if after its endifs: something read off the lines alone. */
  predicate ElsesNested(lines: seq<Line>, i: nat, depth: nat)
    decreases |lines| - i
  {
    i >= |lines|
    || var d := Decode(lines, i);
       d.instr.EndOfList?
       || (&& (d.instr.EndIfs? && d.instr.otherwise ==> DepthAfter(d.instr, depth) >= 1)
           && ElsesNested(lines, i + d.lines, DepthAfter(d.instr, depth)))
  }

  /** A register with a bit for every line is wide enough for any code. */
  lemma {:induction false} EnoughBits(lines: seq<Line>, i: nat, depth: nat, bits: nat)
    requires i <= |lines| ==> depth + |lines| - i <= bits
    requires i > |lines| ==> depth <= bits
    ensures Nested(lines, i, depth, bits) <==> ElsesNested(lines, i, depth)
    decreases |lines| - i
  {
    hide Decode, InstrOk;
    if i < |lines| && !Decode(lines, i).instr.EndOfList? {
      var d := Decode(lines, i);
      EnoughBits(lines, i + d.lines, DepthAfter(d.instr, depth), bits);
    }
  }

  function OpsDepth(ops: seq<Op>, depth: nat): nat {
    if ops == [] then depth else OpsDepth(ops[1..], OpDepth(ops[0], depth))
  }

  lemma {:induction false} ElsesAppend(a: seq<Op>, b: seq<Op>, depth: nat)
    ensures ElsesOpen(a + b, depth) <==> ElsesOpen(a, depth) && ElsesOpen(b, OpsDepth(a, depth))
  {
    if a == [] {
      assert a + b == b;
    } else {
      assert (a + b)[1..] == a[1..] + b;
      ElsesAppend(a[1..], b, OpDepth(a[0], depth));
    }
  }

  lemma {:induction false} FlatOps(ops: seq<Op>, depth: nat)
    requires forall i :: 0 <= i < |ops| ==> !ops[i].DoIf? && !ops[i].DoEndIf? && !ops[i].DoEnd?
    ensures ElsesOpen(ops, depth) && OpsDepth(ops, depth) == depth
  {
    if ops != [] {
      FlatOps(ops[1..], depth);
    }
  }

  lemma {:induction false} SerialIsFlat(rows: seq<T.Row>, addr: Word, body: Body, k: nat)
    requires T.Sorted(rows) && body.Serial? && SerialOps(rows, addr, body, k).Ok?
    ensures forall i :: 0 <= i < |SerialOps(rows, addr, body, k).value| ==>
      SerialOps(rows, addr, body, k).value[i].DoWrite?
    decreases body.count - k
  {
    hide Check;
    if k < body.count {
      SerialIsFlat(rows, addr, body, k + 1);
    }
  }

  lemma BodyIsFlat(rows: seq<T.Row>, addr: Word, body: Body)
    requires T.Sorted(rows) && BodyOps(rows, addr, body).Ok?
    ensures forall i :: 0 <= i < |BodyOps(rows, addr, body).value| ==> BodyOps(rows, addr, body).value[i].DoWrite?
  {
    hide Check, SerialOps;
    if body.Serial? {
      SerialIsFlat(rows, addr, body, 0);
    }
  }

  /** The steps of one instruction: its else condition and its depth are those of the line. */
  lemma InstrElses(rows: seq<T.Row>, t: Track, instr: Instr)
    requires T.Sorted(rows) && CompileInstr(rows, t, instr).Ok?
    ensures var ops := CompileInstr(rows, t, instr).value.ops;
      && (ElsesOpen(ops, t.depth) <==> (instr.EndIfs? && instr.otherwise ==> DepthAfter(instr, t.depth) >= 1))
      && OpsDepth(ops, t.depth) == DepthAfter(instr, t.depth)
    ensures CompileInstr(rows, t, instr).value.track.depth == if instr.EndOfList? then t.depth
      else DepthAfter(instr, t.depth)
  {
    hide Check, BodyOps, ElsesOpen, OpsDepth;
    var ops := CompileInstr(rows, t, instr).value.ops;
    if instr.Write? {
      BodyIsFlat(rows, Wrap(BaseOf(t, instr.pointer).value + instr.offset), instr.body);
      FlatOps(ops, t.depth);
    } else if instr.If? {
      IfElses(ops, t.depth, instr);
    } else if instr.EndAll? || instr.EndIfs? {
      OneElse(ops[0], t.depth);
      assert ops == [ops[0]];
    } else {
      FlatOps(ops, t.depth);
    }
  }

  lemma OneElse(op: Op, depth: nat)
    ensures ElsesOpen([op], depth) <==> (op.DoEndIf? && op.otherwise ==> OpDepth(op, depth) >= 1)
    ensures OpsDepth([op], depth) == OpDepth(op, depth)
  {
    assert [op][1..] == [];
  }

  lemma IfElses(ops: seq<Op>, depth: nat, instr: Instr)
    requires instr.If? && ops != [] && ops[|ops| - 1].DoIf?
    requires ops == (if instr.endsOne then [DoEndIf(1, false)] else []) + [ops[|ops| - 1]]
    ensures ElsesOpen(ops, depth) && OpsDepth(ops, depth) == DepthAfter(instr, depth)
  {
    if instr.endsOne {
      assert ops[1..] == [ops[1]] && ops[0] == DoEndIf(1, false);
      OneElse(ops[1], Less(depth, 1));
    } else {
      assert ops[1..] == [];
    }
  }

  /** For an accepted code, the elses of its plan have an open if exactly when those of its lines do. */
  lemma {:induction false} SameElses(rows: seq<T.Row>, lines: seq<Line>, i: nat, t: Track)
    requires T.Sorted(rows) && CompileFrom(rows, lines, i, t).Ok?
    ensures ElsesOpen(CompileFrom(rows, lines, i, t).value, t.depth) <==> ElsesNested(lines, i, t.depth)
    decreases |lines| - i
  {
    hide Decode, CompileInstr, T.Sorted, InstrOk, DepthAfter;
    if i < |lines| && !Decode(lines, i).instr.EndOfList? {
      var d := Decode(lines, i);
      var e := CompileInstr(rows, t, d.instr).value;
      InstrElses(rows, t, d.instr);
      SameElses(rows, lines, i + d.lines, e.track);
      ElsesAppend(e.ops, CompileFrom(rows, lines, i + d.lines, e.track).value, t.depth);
    }
  }

  /**
    When the compile-time depth is sound: for every accepted code and any start, it bounds the skip count throughout if
    and only if no else of the code is an orphan.
  */
  lemma DepthSoundExactly(rows: seq<T.Row>, lines: seq<Line>, s: P.Machine, fpu: Fpu)
    requires T.Sorted(rows) && CompileCode(rows, lines).Ok?
    requires P.MachineOk(s) && s.skip == 0 && P.PlanReady(CompileCode(rows, lines).value, s.mem)
    ensures DepthBounds(CompileCode(rows, lines).value, s, 0, fpu) <==> ElsesNested(lines, 0, 0)
  {
    hide Decode, CompileFrom, ElsesOpen, ElsesNested, DepthBounds, T.Sorted;
    DepthBoundsExactly(CompileCode(rows, lines).value, s, 0, fpu);
    SameElses(rows, lines, 0, INITIAL);
  }

  // ---- what the condition of the main theorem shuts out ----

  /**
    A line that sets base or pointer outside every if, where an orphan else is skipped, to something else than was
    known: from then on the compiler holds a value the register does not have, on every run, whatever memory holds.
  */
  lemma OrphanSetIsWrong(rows: seq<T.Row>, t: Track, instr: Instr, k: nat, h: Handler, bits: nat, fpu: Fpu)
    requires T.Sorted(rows) && Inv(t, k, h, true, bits) && t.depth == 0 && instr.SetBase? && InstrOk(instr)
    requires CompileInstr(rows, t, instr).Ok? && ValueOf(t, instr.toPointer).Ok?
    requires ValueOf(CompileInstr(rows, t, instr).value.track, instr.toPointer) != ValueOf(t, instr.toPointer)
    ensures Handle(h, instr, bits, fpu) == Some(h)
    ensures var held := ValueOf(CompileInstr(rows, t, instr).value.track, instr.toPointer);
      held.Ok? && held.value != if instr.toPointer then h.po else h.ba
  {
    hide Ones, OperandOf;
    RegisterStep(k, 0, false, bits);
  }

  /** ... also when the next endif lets lines run again. */
  lemma OrphanSetStaysWrong(rows: seq<T.Row>, t: Track, instr: Instr, k: nat, h: Handler, bits: nat, fpu: Fpu,
      count: nat)
    requires T.Sorted(rows) && Inv(t, k, h, true, bits) && t.depth == 0 && instr.SetBase? && InstrOk(instr)
    requires CompileInstr(rows, t, instr).Ok? && ValueOf(t, instr.toPointer).Ok? && 1 <= count < 32
    requires ValueOf(CompileInstr(rows, t, instr).value.track, instr.toPointer) != ValueOf(t, instr.toPointer)
    ensures var end := EndIfs(count, false, Reset(None, None));
      var after := CompileInstr(rows, CompileInstr(rows, t, instr).value.track, end);
      && after.Ok? && Handle(h, end, bits, fpu).Some?
      && var (h', held) := (Handle(h, end, bits, fpu).value, ValueOf(after.value.track, instr.toPointer));
         Running(h') && held.Ok? && held.value != if instr.toPointer then h'.po else h'.ba
  {
    hide Ones, OperandOf, Shifted;
    OrphanSetIsWrong(rows, t, instr, k, h, bits, fpu);
    RegisterStep(k, count, false, bits);
    RegisterStep(0, 0, false, bits);
  }

  // ---- the width of the condition register ----

  /** What a step does to the condition register, when the plan's state before it is `s`. */
  ghost function Conditions(op: Op, s: P.Machine, cond: nat, bits: nat): nat
    requires P.MachineOk(s) && P.Ready(op, s.mem)
  {
    match op
    case DoIf(addr, width, compare, value, mask) =>
      Pushed(cond, cond % 2 == 1 || !Passes(WordOf(P.Load(s.mem, addr, width)), compare, value, mask), bits)
    case DoEndIf(count, otherwise) => if otherwise then Flipped(Shifted(cond, count)) else Shifted(cond, count)
    case DoEnd => 0
    case _ => cond
  }

  /** At every point of the run the register has exactly the lowest `skip` bits set. */
  ghost predicate RegisterTracks(plan: seq<Op>, s: P.Machine, cond: nat, bits: nat, fpu: Fpu)
    requires P.MachineOk(s) && P.PlanReady(plan, s.mem)
  {
    && cond == Ones(s.skip)
    && (plan == [] ||
        var s1 := P.Step(plan[0], s, fpu);
        P.ReadySame(plan[1..], s.mem, s1.mem);
        RegisterTracks(plan[1..], s1, Conditions(plan[0], s, cond, bits), bits, fpu))
  }

  ghost predicate SkipFits(plan: seq<Op>, s: P.Machine, bits: nat, fpu: Fpu)
    requires P.MachineOk(s) && P.PlanReady(plan, s.mem)
  {
    && s.skip <= bits
    && (plan == [] ||
        var s1 := P.Step(plan[0], s, fpu);
        P.ReadySame(plan[1..], s.mem, s1.mem);
        SkipFits(plan[1..], s1, bits, fpu))
  }

  lemma OnesGrow(k: nat)
    ensures Ones(k) < Ones(k + 1)
  {}

  lemma OnesLoseABit(bits: nat)
    ensures Pushed(Ones(bits), true, bits) == Ones(bits)
  {
    FullRegister(bits);
    OnesFit(bits, bits);
    ModUnique(Ones(bits + 1), Pow2(bits), 1, Ones(bits));
  }

  lemma {:induction false} FullRegister(bits: nat)
    ensures Ones(bits) + 1 == Pow2(bits)
  {
    if bits > 0 {
      FullRegister(bits - 1);
    }
  }

  lemma ConditionsStep(op: Op, s: P.Machine, bits: nat, fpu: Fpu)
    requires P.MachineOk(s) && P.Ready(op, s.mem) && s.skip <= bits && bits > 0
    ensures Conditions(op, s, Ones(s.skip), bits) == Ones(P.Step(op, s, fpu).skip) <==> P.Step(op, s, fpu).skip <= bits
  {
    hide P.Work, P.Ready, Passes, WordOf, Pushed, Ones, Shifted, Flipped, P.EndIfSkip;
    var (count, otherwise) := if op.DoEndIf? then (op.count, op.otherwise) else (0, false);
    RegisterStep(s.skip, count, otherwise, bits);
    OnesZero();
    OnesLoseABit(bits);
    OnesGrow(bits);
    EndIfShrinks(s.skip, count, otherwise, bits);
    assert Ones(s.skip) % 2 == 0 || Ones(s.skip) % 2 == 1;
  }

  lemma EndIfShrinks(k: nat, count: nat, otherwise: bool, bits: nat)
    requires k <= bits && bits > 0
    ensures P.EndIfSkip(k, count, otherwise) <= bits
  {}

  /**
    The skip counter refines a condition register of `bits` bits on a run exactly when the run
    never skips more than `bits` ifs.
  */
  lemma {:induction false} RegisterTracksExactly(plan: seq<Op>, s: P.Machine, bits: nat, fpu: Fpu)
    requires P.MachineOk(s) && P.PlanReady(plan, s.mem) && s.skip <= bits && bits > 0
    ensures RegisterTracks(plan, s, Ones(s.skip), bits, fpu) <==> SkipFits(plan, s, bits, fpu)
  {
    hide P.Step, P.Ready, Conditions, Ones;
    if plan != [] {
      var s1 := P.Step(plan[0], s, fpu);
      P.ReadySame(plan[1..], s.mem, s1.mem);
      ConditionsStep(plan[0], s, bits, fpu);
      if s1.skip <= bits {
        RegisterTracksExactly(plan[1..], s1, bits, fpu);
      }
    }
  }

  // ---- an orphan else ----

  /** else; pointer := v; endif 1; byte at the pointer := b. */
  function OrphanCode(v: Word, b: Byte): seq<Line> {
    [Line(0xE210_0000, 0), Line(0x4A00_0000, v), Line(0xE200_0001, 0), Line(0x1000_0000, b)]
  }

  lemma OrphanDecoded(v: Word, b: Byte)
    ensures var lines := OrphanCode(v, b);
      && Decode(lines, 0) == Decoded(EndIfs(0, true, Reset(None, None)), 1)
      && Decode(lines, 1) == Decoded(SetBase(true, false, Operand(v, false, false)), 1)
      && Decode(lines, 2) == Decoded(EndIfs(1, false, Reset(None, None)), 1)
      && Decode(lines, 3) == Decoded(Write(true, 0, Plain([b])), 1)
  {
    var lines := OrphanCode(v, b);
    assert Repeat([b], 1) == [b] + Repeat([b], 0) == [b];
    assert ResetOf(0) == Reset(None, None);
    assert Decode(lines, 0) == Decoded(EndIfs(0, true, Reset(None, None)), 1);
    assert Decode(lines, 1) == Decoded(SetBase(true, false, Operand(v, false, false)), 1);
    assert Decode(lines, 2) == Decoded(EndIfs(1, false, Reset(None, None)), 1);
    assert Decode(lines, 3) == Decoded(Write(true, 0, Plain([b])), 1);
  }

  /** The compiler takes the pointer of OrphanCode as known, so its plan is one write at `v`. */
  lemma OrphanCompiles(rows: seq<T.Row>, v: Word, b: Byte)
    requires T.Sorted(rows) && Check(rows, v, 1).Ok?
    ensures CompileCode(rows, OrphanCode(v, b)) == Ok([DoEndIf(0, true), DoEndIf(1, false), DoWrite(v, [b])])
  {
    hide Decode, Check, T.Sorted;
    OrphanDecoded(v, b);
    var lines := OrphanCode(v, b);
    var t1 := CloseTo(INITIAL, 0, true);
    var t2 := SetRegister(t1, true, v);
    var t3 := CloseTo(t2, 0, false);
    assert CompileInstr(rows, INITIAL, Decode(lines, 0).instr) == Ok(Emit(t1, [DoEndIf(0, true)]));
    assert CompileInstr(rows, t1, Decode(lines, 1).instr) == Ok(Emit(t2, []));
    assert CompileInstr(rows, t2, Decode(lines, 2).instr) == Ok(Emit(t3, [DoEndIf(1, false)]));
    assert CompileInstr(rows, t3, Decode(lines, 3).instr) == Ok(Emit(t3, [DoWrite(v, [b])]));
    assert CompileFrom(rows, lines, 4, t3) == Ok([]);
    assert CompileFrom(rows, lines, 3, t3) == Ok([DoWrite(v, [b])] + []);
    assert [DoWrite(v, [b])] + [] == [DoWrite(v, [b])];
    assert CompileFrom(rows, lines, 2, t2) == Ok([DoEndIf(1, false)] + [DoWrite(v, [b])]);
    var tail := [DoEndIf(1, false)] + [DoWrite(v, [b])];
    assert CompileFrom(rows, lines, 1, t1) == Ok([] + tail) && [] + tail == tail;
    assert [DoEndIf(0, true)] + tail == [DoEndIf(0, true), DoEndIf(1, false), DoWrite(v, [b])];
  }

  lemma OrphanIsNotSound(v: Word, b: Byte, bits: nat)
    ensures !Sound(OrphanCode(v, b), 0, 0, false, bits)
  {
    hide Decode, InstrOk;
    OrphanDecoded(v, b);
    var lines := OrphanCode(v, b);
    assert OrphanAfter(Decode(lines, 0).instr, 0, false) && DepthAfter(Decode(lines, 0).instr, 0) == 0;
    assert !Sound(lines, 1, 0, true, bits);
  }

  /**
    The condition of the main theorem is needed: with a pointer set where an orphan else is skipped, at every supported
    address the plan writes a byte there that the handler never writes.
  */
  lemma OrphanElseDiffers(rows: seq<T.Row>, v: Word, b: Byte, h: Handler, bits: nat, fpu: Fpu)
    requires T.Sorted(rows) && Check(rows, v, 1).Ok? && |h.regs| == 16 && bits >= 1
    requires h.cond == 0 && h.po == BASE && h.cells(v) != b
    ensures CompileCode(rows, OrphanCode(v, b)).Ok?
    ensures P.PlanReady(CompileCode(rows, OrphanCode(v, b)).value, P.Flat(h.cells))
    ensures P.Run(CompileCode(rows, OrphanCode(v, b)).value, MachineOf(0, h), fpu).mem.cells(v) == b
    ensures Execute(OrphanCode(v, b), 0, h, bits, fpu).Some?
    ensures Execute(OrphanCode(v, b), 0, h, bits, fpu).value.cells(v) != b
  {
    hide CompileCode, Check, T.Sorted, Execute, P.Run, P.PlanReady;
    OrphanCompiles(rows, v, b);
    OrphanPlanWrites(v, b, h, fpu);
    Supported(rows, v);
    OrphanHandled(v, b, h, bits, fpu);
  }

  lemma Supported(rows: seq<T.Row>, v: int)
    requires T.Sorted(rows) && Check(rows, v, 1).Ok?
    ensures v >= MEM_LO
  {}

  lemma OrphanPlanWrites(v: Word, b: Byte, h: Handler, fpu: Fpu)
    requires |h.regs| == 16
    ensures var plan := [DoEndIf(0, true), DoEndIf(1, false), DoWrite(v, [b])];
      P.PlanReady(plan, P.Flat(h.cells)) && P.Run(plan, MachineOf(0, h), fpu).mem.cells(v) == b
  {
    var s := MachineOf(0, h);
    var plan := [DoEndIf(0, true), DoEndIf(1, false), DoWrite(v, [b])];
    assert plan[1..] == [DoEndIf(1, false), DoWrite(v, [b])] && plan[1..][1..] == [DoWrite(v, [b])];
    assert P.Run(plan, s, fpu) == P.Run(plan[1..], s.(skip := 1), fpu) == P.Run(plan[1..][1..], s, fpu);
    RunOne(DoWrite(v, [b]), s, fpu);
  }

  /** The handler skips the pointer and writes at the start of memory. */
  lemma OrphanHandled(v: Word, b: Byte, h: Handler, bits: nat, fpu: Fpu)
    requires |h.regs| == 16 && h.cond == 0 && h.po == BASE && v > BASE
    ensures Execute(OrphanCode(v, b), 0, h, bits, fpu).Some?
    ensures Execute(OrphanCode(v, b), 0, h, bits, fpu).value.cells(v) == h.cells(v)
  {
    hide Decode, InstrOk;
    OrphanDecoded(v, b);
    var lines := OrphanCode(v, b);
    var h1 := h.(cond := 1);
    assert Shifted(1, 1) == Shifted(0, 0) == 0 && Shifted(0, 0) == 0;
    assert Handle(h, Decode(lines, 0).instr, bits, fpu) == Some(h1);
    assert Handle(h1, Decode(lines, 1).instr, bits, fpu) == Some(h1);
    assert Handle(h1, Decode(lines, 2).instr, bits, fpu) == Some(h);
    var h4 := h.(cells := P.FlatStore(h.cells, BASE, [b]));
    assert Handle(h, Decode(lines, 3).instr, bits, fpu) == Some(h4);
    hide Handle;
    assert Execute(lines, 4, h4, bits, fpu) == Some(h4);
    assert Execute(lines, 3, h, bits, fpu) == Some(h4);
    assert Execute(lines, 2, h1, bits, fpu) == Some(h4);
    assert Execute(lines, 1, h1, bits, fpu) == Some(h4);
  }
}
