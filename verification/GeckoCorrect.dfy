/**
  The compiler preserves meaning: running the plan does what the console's
  handler does with the code, for every memory and any number of frames.
*/
module GeckoCorrect {
  import opened Bytes
  import opened GeckoCode
  import opened GeckoCompiler
  import opened GeckoHandler
  import T = GeckoTargets
  import P = GeckoPlan

  // ---- the skip counter and the condition register ----

  /** k bits set, the lowest ones. */
  function Ones(k: nat): nat {
    if k == 0 then 0 else 2 * Ones(k - 1) + 1
  }

  lemma {:induction false} OnesFit(k: nat, bits: nat)
    requires k <= bits
    ensures Ones(k) < Pow2(bits)
  {
    if k > 0 {
      OnesFit(k - 1, bits - 1);
    } else {
      assert Pow2(bits) > 0;
    }
  }

  lemma {:induction false} OnesShift(k: nat, count: nat)
    ensures Shifted(Ones(k), count) == Ones(Less(k, count))
  {
    if count > 0 {
      if k > 0 {
        assert Ones(k) / 2 == Ones(k - 1);
        OnesShift(k - 1, count - 1);
      } else {
        OnesShift(0, count - 1);
      }
    }
  }

  lemma PushFits(k: nat, bits: nat)
    requires k < bits
    ensures Pushed(Ones(k), true, bits) == Ones(k + 1)
    ensures Pushed(0, false, bits) == 0
  {
    OnesFit(k + 1, bits);
    ModUnique(Ones(k + 1), Pow2(bits), 0, Ones(k + 1));
    ModUnique(0, Pow2(bits), 0, 0);
  }

  lemma ElseFlips(k: nat)
    ensures Flipped(Ones(k)) == Ones(if k == 0 then 1 else if k == 1 then 0 else k)
    ensures Ones(k) % 2 == 0 <==> k == 0
  {
    assert Ones(1) == 1;
    if k >= 2 {
      assert Ones(k) == 2 * Ones(k - 1) + 1 && Ones(k - 1) == 2 * Ones(k - 2) + 1;
    }
  }

  /** Every if, endif and else of the register is the counter's, while no more than `bits` are skipped. */
  lemma RegisterStep(k: nat, count: nat, otherwise: bool, bits: nat)
    ensures k < bits ==> Pushed(Ones(k), k > 0, bits) == Ones(if k > 0 then k + 1 else 0)
    ensures k == 0 < bits ==> Pushed(Ones(k), true, bits) == Ones(1) && Pushed(Ones(k), false, bits) == Ones(0)
    ensures var left := Shifted(Ones(k), count);
      (if otherwise then Flipped(left) else left) == Ones(P.EndIfSkip(k, count, otherwise))
    ensures Ones(k) % 2 == 0 <==> k == 0
  {
    hide Pushed, Shifted, Flipped, Ones;
    assert Ones(0) == 0 by { OnesZero(); }
    OnesShift(k, count);
    ElseFlips(k);
    ElseFlips(Less(k, count));
    if k < bits {
      PushFits(k, bits);
    }
  }

  lemma OnesZero()
    ensures Ones(0) == 0
  {}

  // ---- what is known holds ----

  /**
    A value the compiler holds is the run-time value `v` whenever no more ifs are skipped than have been opened since it
    was set; one set outside every if is it always.
  */
  predicate Holds(kn: Known, depth: nat, k: nat, v: Word) {
    kn.setAt <= depth && (kn.value.Some? && (k <= depth - kn.setAt || kn.setAt == 0) ==> kn.value.value == v)
  }

  /** How the skip counter stands to the compile-time depth: one above it after an orphan else, else at most it. */
  predicate InStep(depth: nat, k: nat, orphan: bool, bits: nat) {
    (if orphan then k == depth + 1 else k <= depth) && depth <= bits && k <= bits
  }

  /** The relation between the compiler, the plan and the handler between two lines. */
  predicate Inv(t: Track, k: nat, h: Handler, orphan: bool, bits: nat) {
    && InStep(t.depth, k, orphan, bits)
    && h.cond == Ones(k)
    && |h.regs| == 16
    && Holds(t.ba, t.depth, k, h.ba)
    && Holds(t.po, t.depth, k, h.po)
  }

  lemma KnownIsExact(t: Track, h: Handler, orphan: bool, bits: nat, pointer: bool)
    requires Inv(t, 0, h, orphan, bits)
    ensures ValueOf(t, pointer).Ok? ==> ValueOf(t, pointer).value == if pointer then h.po else h.ba
    ensures BaseOf(t, pointer).Ok? ==> BaseOf(t, pointer).value == CountsFrom(h, pointer)
  {}

  lemma OperandIsExact(t: Track, h: Handler, orphan: bool, bits: nat, o: Operand)
    requires Inv(t, 0, h, orphan, bits) && OperandOf(t, o).Ok?
    ensures OperandOf(t, o).value == Number(h, o)
  {
    KnownIsExact(t, h, orphan, bits, o.pointer);
  }

  // ---- the precondition ----

  /** The if-depth after an instruction. */
  function DepthAfter(instr: Instr, depth: nat): nat {
    match instr
    case If(endsOne, _, _, _, _, _, _) => Less(depth, if endsOne then 1 else 0) + 1
    case EndAll(_) => 0
    case EndIfs(count, _, _) => Less(depth, count)
    case _ => depth
  }

  /** Whether an orphan else is still being skipped after `count` endifs and, with `otherwise`, an else. */
  function OrphanAfterEnds(count: nat, otherwise: bool, depth: nat, orphan: bool): bool {
    if otherwise && Less(depth, count) == 0 then !(orphan && count <= depth)
    else if otherwise then orphan
    else orphan && count <= depth
  }

  /**
    Whether an orphan else is being skipped after an instruction. Such an else finds no open if after its endifs, so the
    handler starts to skip where the compiler has closed everything; an endif too many, another such else or a
    terminator ends it. The lines alone tell.
  */
  function OrphanAfter(instr: Instr, depth: nat, orphan: bool): bool {
    match instr
    case If(endsOne, _, _, _, _, _, _) => if endsOne then OrphanAfterEnds(1, false, depth, orphan) else orphan
    case EndAll(_) => false
    case EndIfs(count, otherwise, _) => OrphanAfterEnds(count, otherwise, depth, orphan)
    case _ => orphan
  }

  /**
    No base or pointer is set outside every if while an orphan else is skipped; the register has a bit for every if.
  */
  predicate LineSound(instr: Instr, depth: nat, orphan: bool, bits: nat) {
    && !(instr.SetBase? && orphan && depth == 0)
    && DepthAfter(instr, depth) + (if OrphanAfter(instr, depth, orphan) then 1 else 0) <= bits
  }

  /** That holds for every line of the code from line `i` on. */
  predicate Sound(lines: seq<Line>, i: nat, depth: nat, orphan: bool, bits: nat)
    decreases |lines| - i
  {
    i >= |lines|
    || var d := Decode(lines, i);
       d.instr.EndOfList?
       || (LineSound(d.instr, depth, orphan, bits)
           && Sound(lines, i + d.lines, DepthAfter(d.instr, depth), OrphanAfter(d.instr, depth, orphan), bits))
  }

  /** Endifs, and an else, keep counter and depth in step, and keep every value they do not forget. */
  lemma ForgetHolds(kn: Known, depth: nat, k: nat, v: Word, count: nat, otherwise: bool, orphan: bool)
    requires Holds(kn, depth, k, v) && if orphan then k == depth + 1 else k <= depth
    ensures Holds(Forget(kn, Less(depth, count), otherwise), Less(depth, count), P.EndIfSkip(k, count, otherwise), v)
    ensures var k', depth' := P.EndIfSkip(k, count, otherwise), Less(depth, count);
      if OrphanAfterEnds(count, otherwise, depth, orphan) then k' == depth' + 1 else k' <= depth'
  {}

  // ---- one line ----

  ghost function MachineOf(k: nat, h: Handler): P.Machine {
    P.Machine(k, P.Flat(h.cells), h.regs)
  }

  /** The plan steps of a line, started with the handler, end with the handler. */
  ghost predicate Simulated(e: Emit, k: nat, h: Handler, h': Handler, orphan: bool, bits: nat, fpu: Fpu)
    requires |h.regs| == 16
  {
    && P.PlanReady(e.ops, P.Flat(h.cells))
    && var s := P.Run(e.ops, MachineOf(k, h), fpu);
       && Inv(e.track, s.skip, h', orphan, bits)
       && s == MachineOf(s.skip, h')
  }

  lemma {:induction false} SkippedOps(ops: seq<Op>, s: P.Machine, fpu: Fpu)
    requires P.MachineOk(s) && P.PlanReady(ops, s.mem) && s.skip > 0
    requires forall i :: 0 <= i < |ops| ==> !ops[i].DoIf? && !ops[i].DoEndIf? && !ops[i].DoEnd?
    ensures P.Run(ops, s, fpu) == s
  {
    hide P.Work, P.Ready;
    if ops != [] {
      SkippedOps(ops[1..], s, fpu);
    }
  }

  lemma RunOne(op: Op, s: P.Machine, fpu: Fpu)
    requires P.MachineOk(s) && P.Ready(op, s.mem)
    ensures P.PlanReady([op], s.mem) && P.Run([op], s, fpu) == P.Step(op, s, fpu)
  {
    hide P.Step, P.Ready;
    var s1 := P.Step(op, s, fpu);
    assert [op][1..] == [] && P.Run([], s1, fpu) == s1;
  }

  lemma {:induction false} SerialRuns(rows: seq<T.Row>, addr: Word, body: Body, k: nat, s: P.Machine, fpu: Fpu)
    requires T.Sorted(rows) && body.Serial? && WidthOk(body.width) && SerialOps(rows, addr, body, k).Ok?
    requires P.MachineOk(s) && s.mem.Flat? && s.skip == 0
    ensures var ops := SerialOps(rows, addr, body, k).value;
      && P.PlanReady(ops, s.mem)
      && P.Run(ops, s, fpu) == s.(mem := P.Flat(SerialWrite(s.mem.cells, addr, body, k)))
      && forall i :: 0 <= i < |ops| ==> ops[i].DoWrite?
    decreases body.count - k
  {
    hide Check, BigEndian, T.Sorted;
    if k < body.count {
      var at, item := SerialAt(addr, body, k), SerialItem(body, k);
      var rest := SerialOps(rows, addr, body, k + 1).value;
      var s1 := s.(mem := P.Flat(P.FlatStore(s.mem.cells, at, item)));
      SerialRuns(rows, addr, body, k + 1, s1, fpu);
      assert SerialOps(rows, addr, body, k).value == [DoWrite(at, item)] + rest;
      assert ([DoWrite(at, item)] + rest)[1..] == rest;
      assert P.Step(DoWrite(at, item), s, fpu) == s1;
    } else {
      assert P.Run([], s, fpu) == s;
    }
  }

  lemma BodyRuns(rows: seq<T.Row>, addr: Word, body: Body, s: P.Machine, fpu: Fpu)
    requires T.Sorted(rows) && BodyOk(body) && BodyOps(rows, addr, body).Ok?
    requires P.MachineOk(s) && s.mem.Flat?
    ensures var ops := BodyOps(rows, addr, body).value;
      && P.PlanReady(ops, s.mem)
      && (s.skip > 0 ==> P.Run(ops, s, fpu) == s)
      && WriteBody(s.mem.cells, addr, body).Some?
      && (s.skip == 0 ==> P.Run(ops, s, fpu) == s.(mem := P.Flat(WriteBody(s.mem.cells, addr, body).value)))
  {
    hide Check, BigEndian, T.Sorted, SerialOps, SerialWrite;
    var ops := BodyOps(rows, addr, body).value;
    if body.Serial? {
      SerialRuns(rows, addr, body, 0, s.(skip := 0), fpu);
      if s.skip > 0 {
        SkippedOps(ops, s, fpu);
      }
    } else if ops == [] {
      assert P.Run([], s, fpu) == s;
    } else {
      RunOne(ops[0], s, fpu);
    }
  }

  lemma WriteSimulates(rows: seq<T.Row>, t: Track, instr: Instr, k: nat, h: Handler, orphan: bool, bits: nat, fpu: Fpu)
    requires T.Sorted(rows) && Inv(t, k, h, orphan, bits) && instr.Write? && InstrOk(instr)
    requires CompileInstr(rows, t, instr).Ok?
    ensures Handle(h, instr, bits, fpu).Some?
    ensures Simulated(CompileInstr(rows, t, instr).value, k, h, Handle(h, instr, bits, fpu).value,
      OrphanAfter(instr, t.depth, orphan), bits, fpu)
  {
    hide BodyOps, WriteBody, P.Run, P.Ready, T.Sorted;
    RegisterStep(k, 0, false, bits);
    var addr := Wrap(BaseOf(t, instr.pointer).value + instr.offset);
    BodyRuns(rows, addr, instr.body, MachineOf(k, h), fpu);
    if k == 0 {
      KnownIsExact(t, h, orphan, bits, instr.pointer);
    }
  }

  lemma BaseSimulates(rows: seq<T.Row>, t: Track, instr: Instr, k: nat, h: Handler, orphan: bool, bits: nat, fpu: Fpu)
    requires T.Sorted(rows) && Inv(t, k, h, orphan, bits) && (instr.SetBase? || instr.StoreBase?) && InstrOk(instr)
    requires CompileInstr(rows, t, instr).Ok? && LineSound(instr, t.depth, orphan, bits)
    ensures Handle(h, instr, bits, fpu).Some?
    ensures Simulated(CompileInstr(rows, t, instr).value, k, h, Handle(h, instr, bits, fpu).value,
      OrphanAfter(instr, t.depth, orphan), bits, fpu)
  {
    hide Check, BigEndian, P.Run, T.Sorted;
    RegisterStep(k, 0, false, bits);
    var e, s := CompileInstr(rows, t, instr).value, MachineOf(k, h);
    if k == 0 {
      OperandIsExact(t, h, orphan, bits, instr.operand);
      KnownIsExact(t, h, orphan, bits, if instr.SetBase? then instr.toPointer else instr.fromPointer);
    }
    if instr.SetBase? {
      RunNone(s, fpu);
    } else {
      RunOne(e.ops[0], s, fpu);
    }
  }

  lemma RunNone(s: P.Machine, fpu: Fpu)
    requires P.MachineOk(s)
    ensures P.Run([], s, fpu) == s
  {}

  lemma RegisterSimulates(rows: seq<T.Row>, t: Track, instr: Instr, k: nat, h: Handler, orphan: bool, bits: nat,
      fpu: Fpu)
    requires T.Sorted(rows) && Inv(t, k, h, orphan, bits) && IsRegister(instr) && InstrOk(instr)
    requires CompileInstr(rows, t, instr).Ok?
    ensures Handle(h, instr, bits, fpu).Some?
    ensures Simulated(CompileInstr(rows, t, instr).value, k, h, Handle(h, instr, bits, fpu).value,
      OrphanAfter(instr, t.depth, orphan), bits, fpu)
  {
    hide Check, BigEndian, Operate, WordOf, Repeat, P.Run, T.Sorted;
    RegisterStep(k, 0, false, bits);
    if k == 0 && !instr.RegOp? && !instr.RegOpReg? {
      OperandIsExact(t, h, orphan, bits, instr.operand);
    }
    if instr.RegStore? {
      P.RepeatLength(BigEndian(h.regs[instr.n], instr.width), instr.count);
      P.MulPositive(instr.width, instr.count);
    }
    RunOne(CompileInstr(rows, t, instr).value.ops[0], MachineOf(k, h), fpu);
  }

  /** What a terminator closes and resets, on both sides. */
  lemma EndKeeps(t: Track, k: nat, h: Handler, orphan: bool, bits: nat, count: nat, otherwise: bool, reset: Reset)
    requires Inv(t, k, h, orphan, bits)
    requires Less(t.depth, count) + (if OrphanAfterEnds(count, otherwise, t.depth, orphan) then 1 else 0) <= bits
    ensures Inv(ResetBases(CloseTo(t, Less(t.depth, count), otherwise), reset), P.EndIfSkip(k, count, otherwise),
                ResetRegs(h.(cond := Ones(P.EndIfSkip(k, count, otherwise))), reset),
                OrphanAfterEnds(count, otherwise, t.depth, orphan), bits)
  {
    hide Ones, Forget, P.EndIfSkip, OrphanAfterEnds;
    ForgetHolds(t.ba, t.depth, k, h.ba, count, otherwise, orphan);
    ForgetHolds(t.po, t.depth, k, h.po, count, otherwise, orphan);
    EndShrinks(k, t.depth, count, otherwise);
  }

  lemma EndShrinks(k: nat, depth: nat, count: nat, otherwise: bool)
    ensures Less(depth, count) <= depth
  {}

  lemma EndSimulates(rows: seq<T.Row>, t: Track, instr: Instr, k: nat, h: Handler, orphan: bool, bits: nat, fpu: Fpu)
    requires T.Sorted(rows) && Inv(t, k, h, orphan, bits) && (instr.EndAll? || instr.EndIfs?) && InstrOk(instr)
    requires LineSound(instr, t.depth, orphan, bits)
    ensures CompileInstr(rows, t, instr).Ok? && Handle(h, instr, bits, fpu).Some?
    ensures Simulated(CompileInstr(rows, t, instr).value, k, h, Handle(h, instr, bits, fpu).value,
      OrphanAfter(instr, t.depth, orphan), bits, fpu)
  {
    hide Shifted, Flipped, P.Run, T.Sorted, Forget, Holds, Ones;
    var count, otherwise := if instr.EndAll? then t.depth + 1 else instr.count, instr.EndIfs? && instr.otherwise;
    RegisterStep(k, count, otherwise, bits);
    EndKeeps(t, k, h, orphan, bits, count, otherwise, instr.reset);
    OnesZero();
    RunOne(CompileInstr(rows, t, instr).value.ops[0], MachineOf(k, h), fpu);
  }

  /** An if whose own endif has been done. */
  lemma TestSimulates(t: Track, instr: Instr, test: Op, k: nat, h: Handler, orphan: bool, bits: nat, fpu: Fpu)
    requires Inv(t, k, h, orphan, bits) && t.depth + (if orphan then 1 else 0) < bits && instr.If? && !instr.endsOne
      && InstrOk(instr)
    requires BaseOf(t, instr.pointer).Ok?
    requires test == DoIf(RoundedDown(Wrap(BaseOf(t, instr.pointer).value + instr.offset), instr.width), instr.width,
                          instr.compare, instr.value, instr.mask)
    ensures Simulated(Emit(t.(depth := t.depth + 1), [test]), k, h, HandleIf(h, instr, bits), orphan, bits, fpu)
  {
    hide WordOf, Passes, Shifted, Pushed, P.Run, Ones;
    RegisterStep(k, 0, false, bits);
    if k == 0 {
      KnownIsExact(t, h, orphan, bits, instr.pointer);
    }
    RunOne(test, MachineOf(k, h), fpu);
  }

  /** The endif of an odd address: the relation holds between it and its if. */
  lemma FirstEndif(t: Track, instr: Instr, k: nat, h: Handler, orphan: bool, bits: nat)
    requires Inv(t, k, h, orphan, bits) && instr.If? && instr.endsOne
    ensures Inv(IfTrack(t, instr), Less(k, 1), h.(cond := Shifted(h.cond, 1)), OrphanAfter(instr, t.depth, orphan),
      bits)
  {
    hide Shifted, Ones;
    RegisterStep(k, 1, false, bits);
    ForgetHolds(t.ba, t.depth, k, h.ba, 1, false, orphan);
    ForgetHolds(t.po, t.depth, k, h.po, 1, false, orphan);
  }

  lemma EndifThen(test: Op, k: nat, h: Handler, fpu: Fpu)
    requires |h.regs| == 16 && P.PlanReady([test], P.Flat(h.cells))
    ensures P.PlanReady([DoEndIf(1, false)] + [test], P.Flat(h.cells))
    ensures P.Run([DoEndIf(1, false)] + [test], MachineOf(k, h), fpu) == P.Run([test], MachineOf(Less(k, 1), h), fpu)
  {
    hide P.Run, P.Ready;
    var first := DoEndIf(1, false);
    assert P.Ready(first, P.Flat(h.cells)) by { EndifReady(P.Flat(h.cells)); }
    assert P.Ready([test][0], P.Flat(h.cells));
    RunOne(first, MachineOf(k, h), fpu);
    P.RunAppend([first], [test], MachineOf(k, h), fpu);
  }

  lemma EndifReady(m: P.Memory)
    ensures P.Ready(DoEndIf(1, false), m)
  {}

  /** What an if compiles to, and that its test can be made. */
  lemma IfCompiled(rows: seq<T.Row>, t: Track, instr: Instr) returns (test: Op)
    requires T.Sorted(rows) && instr.If? && InstrOk(instr) && CompileInstr(rows, t, instr).Ok?
    ensures BaseOf(IfTrack(t, instr), instr.pointer).Ok?
    ensures test
      == DoIf(RoundedDown(Wrap(BaseOf(IfTrack(t, instr), instr.pointer).value + instr.offset), instr.width),
              instr.width, instr.compare, instr.value, instr.mask)
    ensures CompileInstr(rows, t, instr).value
         == Emit(IfTrack(t, instr).(depth := IfTrack(t, instr).depth + 1),
           if instr.endsOne then [DoEndIf(1, false)] + [test] else [test])
  {
    hide Check, T.Sorted, RoundedDown, BaseOf;
    test := DoIf(IfAddress(t, instr).value, instr.width, instr.compare, instr.value, instr.mask);
    assert [] + [test] == [test];
  }

  lemma IfSimulates(rows: seq<T.Row>, t: Track, instr: Instr, k: nat, h: Handler, orphan: bool, bits: nat, fpu: Fpu)
    requires T.Sorted(rows) && Inv(t, k, h, orphan, bits) && instr.If? && InstrOk(instr)
    requires CompileInstr(rows, t, instr).Ok? && LineSound(instr, t.depth, orphan, bits)
    ensures Handle(h, instr, bits, fpu).Some?
    ensures Simulated(CompileInstr(rows, t, instr).value, k, h, Handle(h, instr, bits, fpu).value,
      OrphanAfter(instr, t.depth, orphan), bits, fpu)
  {
    hide CompileInstr, Passes, Shifted, Pushed, P.Run, P.PlanReady, T.Sorted, Ones, RoundedDown, Inv, OrphanAfter;
    hide LineSound, BaseOf, IfTrack, LoadWord;
    var plain := instr.(endsOne := false);
    var test := IfCompiled(rows, t, instr);
    RoomForOne(t, instr, orphan, bits);
    if instr.endsOne {
      var mid := h.(cond := Shifted(h.cond, 1));
      FirstEndif(t, instr, k, h, orphan, bits);
      assert |mid.regs| == 16 by { SixteenRegisters(t, k, h, orphan, bits); }
      TestSimulates(IfTrack(t, instr), plain, test, Less(k, 1), mid, OrphanAfter(instr, t.depth, orphan), bits, fpu);
      assert HandleIf(mid, plain, bits) == HandleIf(h, instr, bits);
      EndifThen(test, k, h, fpu);
    } else {
      TestSimulates(t, plain, test, k, h, orphan, bits, fpu);
    }
  }

  lemma SixteenRegisters(t: Track, k: nat, h: Handler, orphan: bool, bits: nat)
    requires Inv(t, k, h, orphan, bits)
    ensures |h.regs| == 16
  {}

  lemma RoomForOne(t: Track, instr: Instr, orphan: bool, bits: nat)
    requires instr.If? && LineSound(instr, t.depth, orphan, bits)
    ensures IfTrack(t, instr).depth + (if OrphanAfter(instr, t.depth, orphan) then 1 else 0) < bits
    ensures !instr.endsOne ==> OrphanAfter(instr, t.depth, orphan) == orphan && IfTrack(t, instr) == t
  {}

  lemma LineSimulates(rows: seq<T.Row>, t: Track, instr: Instr, k: nat, h: Handler, orphan: bool, bits: nat, fpu: Fpu)
    requires T.Sorted(rows) && Inv(t, k, h, orphan, bits) && InstrOk(instr) && !instr.EndOfList?
    requires CompileInstr(rows, t, instr).Ok? && LineSound(instr, t.depth, orphan, bits)
    ensures Handle(h, instr, bits, fpu).Some?
    ensures Simulated(CompileInstr(rows, t, instr).value, k, h, Handle(h, instr, bits, fpu).value,
      OrphanAfter(instr, t.depth, orphan), bits, fpu)
    ensures CompileInstr(rows, t, instr).value.track.depth == DepthAfter(instr, t.depth)
  {
    hide Handle, Simulated, Inv, Check, T.Sorted, BodyOps, BaseOf, OperandOf, InstrOk;
    if instr.Write? {
      WriteSimulates(rows, t, instr, k, h, orphan, bits, fpu);
    } else if instr.If? {
      IfSimulates(rows, t, instr, k, h, orphan, bits, fpu);
    } else if instr.SetBase? || instr.StoreBase? {
      BaseSimulates(rows, t, instr, k, h, orphan, bits, fpu);
    } else if instr.EndAll? || instr.EndIfs? {
      EndSimulates(rows, t, instr, k, h, orphan, bits, fpu);
    } else {
      RegisterSimulates(rows, t, instr, k, h, orphan, bits, fpu);
    }
  }

  // ---- whole codes ----

  /** From any line: the rest of the plan does what the handler does with the rest of the code. */
  lemma {:induction false} CodeSimulates(rows: seq<T.Row>, lines: seq<Line>, i: nat, t: Track, k: nat, h: Handler,
      orphan: bool, bits: nat, fpu: Fpu)
    requires T.Sorted(rows) && Inv(t, k, h, orphan, bits)
    requires CompileFrom(rows, lines, i, t).Ok? && Sound(lines, i, t.depth, orphan, bits)
    ensures var plan := CompileFrom(rows, lines, i, t).value;
      && P.PlanReady(plan, P.Flat(h.cells))
      && Execute(lines, i, h, bits, fpu).Some?
      && var h' := Execute(lines, i, h, bits, fpu).value;
         && |h'.regs| == 16
         && var s := P.Run(plan, MachineOf(k, h), fpu);
            s.mem == P.Flat(h'.cells) && s.regs == h'.regs
    decreases |lines| - i
  {
    hide Decode, CompileInstr, Handle, P.Ready, P.Step, T.Sorted, InstrOk, LineSound, OrphanAfter;
    if i >= |lines| || Decode(lines, i).instr.EndOfList? {
      RunNone(MachineOf(k, h), fpu);
    } else {
      var d := Decode(lines, i);
      LineSimulates(rows, t, d.instr, k, h, orphan, bits, fpu);
      var e, h1 := CompileInstr(rows, t, d.instr).value, Handle(h, d.instr, bits, fpu).value;
      var s1 := P.Run(e.ops, MachineOf(k, h), fpu);
      CodeSimulates(rows, lines, i + d.lines, e.track, s1.skip, h1, OrphanAfter(d.instr, t.depth, orphan), bits, fpu);
      var rest := CompileFrom(rows, lines, i + d.lines, e.track).value;
      P.ReadySame(rest, s1.mem, P.Flat(h.cells));
      assert P.PlanReady(e.ops + rest, P.Flat(h.cells));
      P.RunAppend(e.ops, rest, MachineOf(k, h), fpu);
    }
  }

  /**
    End to end: every accepted and sound code does, for any start memory, any registers and any number of frames, what
    the handler does with it.
  */
  lemma {:induction false} PlanMatchesHandler(rows: seq<T.Row>, lines: seq<Line>, h: Handler, n: nat, bits: nat,
      fpu: Fpu)
    requires T.Sorted(rows) && |h.regs| == 16
    requires CompileCode(rows, lines).Ok? && Sound(lines, 0, 0, false, bits)
    ensures var plan := CompileCode(rows, lines).value;
      && P.PlanReady(plan, P.Flat(h.cells))
      && Frames(lines, h, n, bits, fpu).Some?
      && var h' := Frames(lines, h, n, bits, fpu).value;
         && |h'.regs| == 16
         && var s := P.Frames(plan, MachineOf(0, h), n, fpu);
            s.mem == P.Flat(h'.cells) && s.regs == h'.regs
  {
    hide Sound, CompileFrom, Execute, T.Sorted, P.Run, P.Ready;
    var start := h.(cond := 0, ba := BASE, po := BASE);
    CodeSimulates(rows, lines, 0, INITIAL, 0, start, false, bits, fpu);
    if n > 0 {
      PlanMatchesHandler(rows, lines, h, n - 1, bits, fpu);
      var before := Frames(lines, h, n - 1, bits, fpu).value;
      CodeSimulates(rows, lines, 0, INITIAL, 0, before.(cond := 0, ba := BASE, po := BASE), false, bits, fpu);
    }
  }

  // ---- constant propagation along a run ----

  /** Compiler and handler side by side after `n` lines: the line, what is known, the handler. */
  function After(rows: seq<T.Row>, lines: seq<Line>, h: Handler, n: nat, bits: nat, fpu: Fpu)
      : Option<(nat, Track, Handler)>
    requires T.Sorted(rows) && |h.regs| == 16
  {
    if n == 0 then Some((0, INITIAL, h.(cond := 0, ba := BASE, po := BASE)))
    else
      match After(rows, lines, h, n - 1, bits, fpu)
      case None => None
      case Some((i, t, g)) =>
        if i >= |lines| || |g.regs| != 16 || Decode(lines, i).instr.EndOfList? then None
        else
          var instr := Decode(lines, i).instr;
          var e, g' := CompileInstr(rows, t, instr), Handle(g, instr, bits, fpu);
          if e.Refused? || g'.None? then None else Some((i + Decode(lines, i).lines, e.value.track, g'.value))
  }

  lemma {:induction false} InvAfter(rows: seq<T.Row>, lines: seq<Line>, h: Handler, n: nat, bits: nat, fpu: Fpu)
      returns (k: nat, orphan: bool)
    requires T.Sorted(rows) && |h.regs| == 16 && Sound(lines, 0, 0, false, bits)
    requires After(rows, lines, h, n, bits, fpu).Some?
    ensures var (i, t, g) := After(rows, lines, h, n, bits, fpu).value;
      Inv(t, k, g, orphan, bits) && Sound(lines, i, t.depth, orphan, bits)
  {
    hide Decode, CompileInstr, Handle, T.Sorted, InstrOk, Inv, LineSound, OrphanAfter;
    if n == 0 {
      k, orphan := 0, false;
      InvInitial(h, bits);
    } else {
      k, orphan := InvAfter(rows, lines, h, n - 1, bits, fpu);
      var (i, t, g) := After(rows, lines, h, n - 1, bits, fpu).value;
      var instr := Decode(lines, i).instr;
      LineSimulates(rows, t, instr, k, g, orphan, bits, fpu);
      orphan := OrphanAfter(instr, t.depth, orphan);
      k := SimulatedSkip(CompileInstr(rows, t, instr).value, k, g, Handle(g, instr, bits, fpu).value, orphan, bits,
        fpu);
    }
  }

  lemma InvInitial(h: Handler, bits: nat)
    requires |h.regs| == 16
    ensures Inv(INITIAL, 0, h.(cond := 0, ba := BASE, po := BASE), false, bits)
  {}

  lemma SimulatedSkip(e: Emit, k: nat, h: Handler, h': Handler, orphan: bool, bits: nat, fpu: Fpu) returns (k': nat)
    requires |h.regs| == 16 && Simulated(e, k, h, h', orphan, bits, fpu)
    ensures Inv(e.track, k', h', orphan, bits)
  {
    k' := P.Run(e.ops, MachineOf(k, h), fpu).skip;
  }

  /**
    Constant propagation is sound: whenever a line really executes, each register the compiler
    holds a value for has exactly that value at run time.
  */
  lemma KnownRegistersAreExact(rows: seq<T.Row>, lines: seq<Line>, h: Handler, n: nat, bits: nat, fpu: Fpu)
    requires T.Sorted(rows) && |h.regs| == 16 && Sound(lines, 0, 0, false, bits)
    requires After(rows, lines, h, n, bits, fpu).Some?
    ensures var (i, t, g) := After(rows, lines, h, n, bits, fpu).value;
      Running(g) ==>
        && (t.ba.value.Some? ==> t.ba.value.value == g.ba)
        && (t.po.value.Some? ==> t.po.value.value == g.po)
  {
    hide After, Sound, T.Sorted, Ones;
    var k, orphan := InvAfter(rows, lines, h, n, bits, fpu);
    RegisterStep(k, 0, false, bits);
  }

  // ---- down to the native objects ----

  /** A confined plan leaves every address outside the supported rows alone. */
  lemma {:induction false} RunKeepsTheRest(rows: seq<T.Row>, plan: seq<Op>, s: P.Machine, fpu: Fpu, a: int)
    requires T.TableOk(rows) && PlanConfined(rows, plan) && P.MachineOk(s) && s.mem.Flat? && P.PlanReady(plan, s.mem)
    requires !T.Backed(rows, a, 1)
    ensures P.Run(plan, s, fpu).mem.cells(a) == s.mem.cells(a)
  {
    hide P.Step, Confined, T.TableOk, T.Backed;
    if plan != [] {
      StepKeepsTheRest(rows, plan[0], s, fpu, a);
      RunKeepsTheRest(rows, plan[1..], P.Step(plan[0], s, fpu), fpu, a);
    }
  }

  lemma StepKeepsTheRest(rows: seq<T.Row>, op: Op, s: P.Machine, fpu: Fpu, a: int)
    requires Confined(rows, op) && P.MachineOk(s) && s.mem.Flat? && P.Ready(op, s.mem)
    requires !T.Backed(rows, a, 1)
    ensures P.Step(op, s, fpu).mem.cells(a) == s.mem.cells(a)
  {
    hide Operate, WordOf, Passes, T.Backed;
    if op.GrStore? {
      P.RepeatLength(BigEndian(s.regs[op.n], op.width), op.count);
    }
    var (addr, length) := op.Range();
    if addr <= a < addr + length {
      T.BackedByte(rows, addr, length, a - addr);
    }
  }

  lemma {:induction false} FramesKeepTheRest(rows: seq<T.Row>, plan: seq<Op>, s: P.Machine, n: nat, fpu: Fpu, a: int)
    requires T.TableOk(rows) && PlanConfined(rows, plan) && P.MachineOk(s) && s.mem.Flat? && P.PlanReady(plan, s.mem)
    requires !T.Backed(rows, a, 1)
    ensures P.Frames(plan, s, n, fpu).mem.cells(a) == s.mem.cells(a)
  {
    hide P.Run, PlanConfined, P.PlanReady, T.TableOk, T.Backed;
    if n > 0 {
      FramesKeepTheRest(rows, plan, s, n - 1, fpu, a);
      RunKeepsTheRest(rows, plan, P.Frames(plan, s, n - 1, fpu).(skip := 0), fpu, a);
    }
  }

  /**
    The whole stack: after any number of frames the native objects show, at every supported address,
    the byte the handler leaves in console memory; the registers are equal; and the handler changed
    no byte outside the supported rows.
  */
  lemma NativeMatchesHandler(rows: seq<T.Row>, objects: T.Objects, lines: seq<Line>, h: Handler, n: nat, bits: nat,
      fpu: Fpu)
    requires |h.regs| == 16 && P.Agrees(P.Native(rows, objects), P.Flat(h.cells))
    requires T.Sorted(rows) && CompileCode(rows, lines).Ok? && Sound(lines, 0, 0, false, bits)
    ensures var plan, sn := CompileCode(rows, lines).value, P.Machine(0, P.Native(rows, objects), h.regs);
      && P.MachineOk(sn) && P.PlanReady(plan, sn.mem)
      && Frames(lines, h, n, bits, fpu).Some?
      && var h', s := Frames(lines, h, n, bits, fpu).value, P.Frames(plan, sn, n, fpu);
         && s.regs == h'.regs
         && P.Agrees(s.mem, P.Flat(h'.cells))
         && forall a :: !T.Backed(rows, a, 1) ==> h'.cells(a) == h.cells(a)
  {
    hide Sound, Frames, CompileCode, P.Frames, P.Agrees, T.Sorted, T.Backed, T.TableOk, P.PlanReady;
    var plan := CompileCode(rows, lines).value;
    var sn, sf := P.Machine(0, P.Native(rows, objects), h.regs), MachineOf(0, h);
    AgreesTable(rows, objects, h.cells);
    AcceptedPlansAreConfined(rows, lines);
    ConfinedIsReady(rows, plan, sn.mem);
    PlanMatchesHandler(rows, lines, h, n, bits, fpu);
    P.FramesRefine(plan, sn, sf, n, fpu);
    forall a | !T.Backed(rows, a, 1)
      ensures P.Frames(plan, sf, n, fpu).mem.cells(a) == h.cells(a)
    {
      FramesKeepTheRest(rows, plan, sf, n, fpu, a);
    }
  }

  lemma AgreesTable(rows: seq<T.Row>, objects: T.Objects, cells: int -> Byte)
    requires P.Agrees(P.Native(rows, objects), P.Flat(cells))
    ensures T.TableOk(rows) && T.ImageOk(rows, objects)
  {}

  lemma ConfinedIsReady(rows: seq<T.Row>, plan: seq<Op>, m: P.Memory)
    requires PlanConfined(rows, plan) && m.Native? && m.rows == rows
    ensures P.PlanReady(plan, m)
  {
    hide T.Backed, OpOk;
    forall i | 0 <= i < |plan| ensures P.Ready(plan[i], m) { assert Confined(rows, plan[i]); }
  }
}
