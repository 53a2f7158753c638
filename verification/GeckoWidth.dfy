/** A code with one if more than the handler's condition register has bits. */
module GeckoWidth {
  import opened Bytes
  import opened GeckoCode
  import opened GeckoCompiler
  import opened GeckoHandler
  import opened GeckoCorrect
  import E = GeckoEncode
  import K = GeckoSkip
  import T = GeckoTargets
  import P = GeckoPlan

  predicate InReach(a: int) {
    BASE <= a < BASE + 0x200_0000
  }

  /** An if no memory passes: the half-word at `a`, masked to nothing, is not 0. */
  function NeverIf(a: int): Instr
    requires InReach(a)
  {
    If(false, false, a - BASE, 2, 1, 0, 0)
  }

  function EndInstr(count: nat): Instr {
    EndIfs(count, false, Reset(None, None))
  }

  function IfLine(a: int): Line
    requires InReach(a) && a % 2 == 0
  {
    E.Spell(NeverIf(a))[0]
  }

  function EndLine(count: nat): Line
    requires count < 32
  {
    E.Spell(EndInstr(count))[0]
  }

  /** A byte written at `v`. */
  function ByteLine(v: int, b: Byte): Line
    requires InReach(v)
  {
    Line(v - BASE, b)
  }

  function Ifs(a: int, n: nat): seq<Line>
    requires InReach(a) && a % 2 == 0
  {
    if n == 0 then [] else [IfLine(a)] + Ifs(a, n - 1)
  }

  function Least(n: nat): (c: nat)
    ensures c <= n && c < 32 && (n > 0 ==> c > 0)
  {
    if n < 31 then n else 31
  }

  /** Endifs for `total` ifs, at most 31 a line. */
  function Ends(total: nat): seq<Line> {
    if total == 0 then [] else [EndLine(Least(total))] + Ends(total - Least(total))
  }

  /** One if more than `bits`, endifs for `bits` of them, then a byte: inside the first if still. */
  function TooManyIfs(a: int, v: int, b: Byte, bits: nat): seq<Line>
    requires InReach(a) && a % 2 == 0 && InReach(v)
  {
    Ifs(a, bits + 1) + (Ends(bits) + [ByteLine(v, b)])
  }

  // ---- what the lines are ----

  /** A line that takes no data lines is read from itself alone. */
  lemma ReadAlone(lines: seq<Line>, i: nat)
    requires i < |lines| && (Family(lines[i].word) == 0 ==> Sub(lines[i].word) == 0)
    ensures Decode(lines, i) == Decode([lines[i]], 0)
  {
    hide Family, Sub, Kind, Low25, FromPointer, Repeat, BigEndian, DecodeIf, DecodeBase, DecodeRegister, ResetOf;
    hide Packed;
  }

  lemma IfDecoded(lines: seq<Line>, i: nat, a: int)
    requires i < |lines| && InReach(a) && a % 2 == 0 && lines[i] == IfLine(a)
    ensures Decode(lines, i) == Decoded(NeverIf(a), 1)
  {
    hide Decode, E.Head, Family, Sub;
    E.Fields(1, 5, false, a - BASE);
    E.SpelledIsRead(NeverIf(a));
    ReadAlone(lines, i);
  }

  lemma EndDecoded(lines: seq<Line>, i: nat, count: nat)
    requires i < |lines| && count < 32 && lines[i] == EndLine(count)
    ensures Decode(lines, i) == Decoded(EndInstr(count), 1)
  {
    hide Decode;
    E.SpelledIsRead(EndInstr(count));
    EndFamily(count);
    ReadAlone(lines, i);
  }

  lemma EndFamily(count: nat)
    requires count < 32
    ensures Family(EndLine(count).word) != 0
  {
    E.EndDigits(count, false);
  }

  lemma NoHead()
    ensures E.Head(0, 0, false) == 0
  {}

  lemma ByteFields(v: int, b: Byte)
    requires InReach(v)
    ensures Family(ByteLine(v, b).word) == 0 && Sub(ByteLine(v, b).word) == 0
  {
    hide Family, Sub, E.Head;
    NoHead();
    E.Fields(0, 0, false, v - BASE);
  }

  lemma Once(b: Byte)
    ensures Repeat([b], 1) == [b]
  {
    assert Repeat([b], 1) == [b] + Repeat([b], 0);
  }

  lemma ByteDecoded(lines: seq<Line>, i: nat, v: int, b: Byte)
    requires i < |lines| && InReach(v) && lines[i] == ByteLine(v, b)
    ensures Decode(lines, i) == Decoded(Write(false, v - BASE, Plain([b])), 1)
  {
    hide Decode, E.Head, Family, Sub, Repeat;
    NoHead();
    ByteFields(v, b);
    E.ByteFillIsRead(false, v - BASE, b, 1);
    Once(b);
    ReadAlone(lines, i);
  }

  lemma {:induction false} NothingKept(x: nat, n: nat)
    ensures Bitwise(x, 0, n, (x, y) => x && y) == 0
  {
    if n > 0 {
      NothingKept(x / 2, n - 1);
    }
  }

  lemma NothingPasses(x: Word)
    ensures !Passes(x, 1, 0, 0)
  {
    NothingKept(x, 32);
  }

  // ---- compiled and executed, from the end ----

  /** The plan of the lines from `i` on leaves memory as it was; the handler ends them with `b` at `v`. */
  ghost predicate Parted(rows: seq<T.Row>, lines: seq<Line>, i: nat, t: Track, skip: nat, h: Handler, v: int, b: Byte,
      bits: nat, fpu: Fpu)
    requires T.Sorted(rows) && |h.regs| == 16
  {
    && CompileFrom(rows, lines, i, t).Ok?
    && P.PlanReady(CompileFrom(rows, lines, i, t).value, P.Flat(h.cells))
    && P.Run(CompileFrom(rows, lines, i, t).value, MachineOf(skip, h), fpu).mem == P.Flat(h.cells)
    && Execute(lines, i, h, bits, fpu).Some?
    && Execute(lines, i, h, bits, fpu).value.cells(v) == b
  }

  /** One line whose step changes nothing but the counter and the register. */
  lemma PartedStep(rows: seq<T.Row>, lines: seq<Line>, i: nat, t: Track, skip: nat, h: Handler, v: int, b: Byte,
      bits: nat, fpu: Fpu,
                   op: Op, t': Track, skip': nat, cond': nat)
    requires T.Sorted(rows) && |h.regs| == 16 && i < |lines| && Decode(lines, i).lines == 1
      && !Decode(lines, i).instr.EndOfList?
    requires CompileInstr(rows, t, Decode(lines, i).instr) == Ok(Emit(t', [op]))
    requires P.Ready(op, P.Flat(h.cells)) && P.Step(op, MachineOf(skip, h), fpu) == MachineOf(skip', h)
    requires Handle(h, Decode(lines, i).instr, bits, fpu) == Some(h.(cond := cond'))
    requires Parted(rows, lines, i + 1, t', skip', h.(cond := cond'), v, b, bits, fpu)
    ensures Parted(rows, lines, i, t, skip, h, v, b, bits, fpu)
  {
    hide Decode, CompileInstr, Handle, T.Sorted, P.Step, P.Ready;
    var rest := CompileFrom(rows, lines, i + 1, t').value;
    var plan := CompileFrom(rows, lines, i, t).value;
    assert plan == [op] + rest;
    P.ReadySame(rest, P.Flat(h.cells), P.Flat(h.cells));
    assert P.PlanReady(plan, P.Flat(h.cells));
    assert plan[1..] == rest;
    assert MachineOf(skip', h) == MachineOf(skip', h.(cond := cond'));
  }

  lemma ByteCompiles(rows: seq<T.Row>, t: Track, v: int, b: Byte)
    requires T.Sorted(rows) && InReach(v) && Check(rows, v, 1).Ok? && t.ba.value == Some(BASE)
    ensures CompileInstr(rows, t, Write(false, v - BASE, Plain([b]))) == Ok(Emit(t, [DoWrite(v, [b])]))
  {
    hide Check, T.Sorted;
    assert Wrap(TopSeven(BASE) + (v - BASE)) == v;
  }

  lemma ByteHandled(h: Handler, v: int, b: Byte, bits: nat, fpu: Fpu)
    requires |h.regs| == 16 && InReach(v) && h.ba == BASE && h.cond == 0
    ensures Handle(h, Write(false, v - BASE, Plain([b])), bits, fpu) == Some(h.(cells := P.FlatStore(h.cells, v, [b])))
  {
    hide P.FlatStore;
    assert Wrap(CountsFrom(h, false) + (v - BASE)) == v;
  }

  lemma ByteStored(cells: int -> Byte, v: int, b: Byte)
    ensures P.FlatStore(cells, v, [b])(v) == b
  {}

  lemma ByteParts(rows: seq<T.Row>, lines: seq<Line>, i: nat, t: Track, skip: nat, h: Handler, v: int, b: Byte,
      bits: nat, fpu: Fpu)
    requires T.Sorted(rows) && |h.regs| == 16 && InReach(v) && Check(rows, v, 1).Ok? && skip > 0
    requires i + 1 == |lines| && lines[i] == ByteLine(v, b)
    requires t.ba.value == Some(BASE) && h.ba == BASE && h.cond == 0
    ensures Parted(rows, lines, i, t, skip, h, v, b, bits, fpu)
  {
    hide Decode, Check, T.Sorted, CompileInstr, Handle, P.FlatStore, P.Ready, P.Run, ByteLine;
    ByteDecoded(lines, i, v, b);
    ByteCompiles(rows, t, v, b);
    ByteHandled(h, v, b, bits, fpu);
    ByteStored(h.cells, v, b);
    CompileDone(rows, lines, i + 1, t);
    var op := DoWrite(v, [b]);
    assert CompileFrom(rows, lines, i, t) == Ok([op] + []) && [op] + [] == [op];
    assert P.Ready(op, P.Flat(h.cells)) by { ByteReady(v, b, h.cells); }
    RunOne(op, MachineOf(skip, h), fpu);
    var h' := h.(cells := P.FlatStore(h.cells, v, [b]));
    assert Execute(lines, i + 1, h', bits, fpu) == Some(h');
  }

  lemma ByteReady(v: int, b: Byte, cells: int -> Byte)
    ensures P.Ready(DoWrite(v, [b]), P.Flat(cells))
  {}

  lemma EndCompiles(rows: seq<T.Row>, t: Track, c: nat)
    requires T.Sorted(rows)
    ensures CompileInstr(rows, t, EndInstr(c)) == Ok(Emit(CloseTo(t, Less(t.depth, c), false), [DoEndIf(c, false)]))
    ensures t.ba.setAt == 0 ==> CloseTo(t, Less(t.depth, c), false).ba == t.ba
  {}

  lemma EndHandled(h: Handler, c: nat, total: nat, bits: nat, fpu: Fpu)
    requires |h.regs| == 16 && c <= total && h.cond == Ones(total) && c < 32
    ensures Handle(h, EndInstr(c), bits, fpu) == Some(h.(cond := Ones(total - c)))
    ensures P.Step(DoEndIf(c, false), MachineOf(total + 1, h), fpu) == MachineOf(total + 1 - c, h)
    ensures P.Ready(DoEndIf(c, false), P.Flat(h.cells))
  {
    hide Ones, Shifted;
    OnesShift(total, c);
  }

  lemma {:induction false} EndsPart(rows: seq<T.Row>, lines: seq<Line>, i: nat, total: nat, t: Track, h: Handler,
      v: int, b: Byte, bits: nat, fpu: Fpu)
    requires T.Sorted(rows) && |h.regs| == 16 && InReach(v) && Check(rows, v, 1).Ok?
    requires i <= |lines| && lines[i..] == Ends(total) + [ByteLine(v, b)]
    requires t.ba == Known(Some(BASE), 0) && h.ba == BASE && h.cond == Ones(total)
    ensures Parted(rows, lines, i, t, total + 1, h, v, b, bits, fpu)
    decreases total
  {
    hide Decode, Check, T.Sorted, Parted, Ones, Shifted, EndLine, ByteLine, CompileInstr, Handle, P.Step, P.Ready;
    hide CloseTo;
    if total == 0 {
      assert lines[i..][0] == lines[i];
      OnesZero();
      ByteParts(rows, lines, i, t, 1, h, v, b, bits, fpu);
    } else {
      var c := Least(total);
      assert Ends(total) == [EndLine(c)] + Ends(total - c);
      assert ([EndLine(c)] + Ends(total - c) + [ByteLine(v, b)])[1..] == Ends(total - c) + [ByteLine(v, b)];
      assert lines[i..][0] == lines[i] && lines[i..][1..] == lines[i + 1..];
      EndDecoded(lines, i, c);
      EndCompiles(rows, t, c);
      EndHandled(h, c, total, bits, fpu);
      var t' := CloseTo(t, Less(t.depth, c), false);
      EndsPart(rows, lines, i + 1, total - c, t', h.(cond := Ones(total - c)), v, b, bits, fpu);
      PartedStep(rows, lines, i, t, total + 1, h, v, b, bits, fpu, DoEndIf(c, false), t', total + 1 - c,
        Ones(total - c));
    }
  }

  function Fewer(m: nat, n: nat): nat {
    if m < n then m else n
  }

  lemma {:induction false} IfsPart(rows: seq<T.Row>, lines: seq<Line>, i: nat, n: nat, t: Track, h: Handler, a: int,
      v: int, b: Byte, bits: nat, fpu: Fpu)
    requires T.Sorted(rows) && |h.regs| == 16 && InReach(a) && a % 2 == 0 && InReach(v)
    requires Check(rows, a, 2).Ok? && Check(rows, v, 1).Ok?
    requires i <= |lines| && lines[i..] == Ifs(a, n) + (Ends(bits) + [ByteLine(v, b)]) && n <= bits + 1
    requires t.ba == Known(Some(BASE), 0) && h.ba == BASE && h.cond == Ones(Fewer(bits + 1 - n, bits))
    ensures Parted(rows, lines, i, t, bits + 1 - n, h, v, b, bits, fpu)
    decreases n
  {
    hide Decode, Check, T.Sorted, Parted, Ones, Pushed, IfLine, ByteLine, Ends, Passes, WordOf, CompileInstr, Handle;
    hide P.Step, P.Ready;
    var skip := bits + 1 - n;
    if n == 0 {
      assert lines[i..] == Ends(bits) + [ByteLine(v, b)];
      EndsPart(rows, lines, i, bits, t, h, v, b, bits, fpu);
    } else {
      assert Ifs(a, n) == [IfLine(a)] + Ifs(a, n - 1);
      assert lines[i..][0] == lines[i] && lines[i..][1..] == lines[i + 1..];
      assert ([IfLine(a)] + Ifs(a, n - 1) + (Ends(bits) + [ByteLine(v, b)]))[1..]
        == Ifs(a, n - 1) + (Ends(bits) + [ByteLine(v, b)]);
      IfDecoded(lines, i, a);
      var t' := t.(depth := t.depth + 1);
      var op := DoIf(a, 2, 1, 0, 0);
      IfCompiles(rows, t, a);
      IfFails(h, a, skip, bits, fpu);
      IfsPart(rows, lines, i + 1, n - 1, t', h.(cond := Ones(Fewer(skip + 1, bits))), a, v, b, bits, fpu);
      PartedStep(rows, lines, i, t, skip, h, v, b, bits, fpu, op, t', skip + 1, Ones(Fewer(skip + 1, bits)));
    }
  }

  lemma IfCompiles(rows: seq<T.Row>, t: Track, a: int)
    requires T.Sorted(rows) && InReach(a) && a % 2 == 0 && Check(rows, a, 2).Ok? && t.ba == Known(Some(BASE), 0)
    ensures CompileInstr(rows, t, NeverIf(a)) == Ok(Emit(t.(depth := t.depth + 1), [DoIf(a, 2, 1, 0, 0)]))
  {
    hide Check, T.Sorted;
    assert Wrap(TopSeven(BASE) + (a - BASE)) == a;
    assert IfAddress(t, NeverIf(a)) == Ok(a);
    var op := DoIf(a, 2, 1, 0, 0);
    assert [] + [op] == [op];
  }

  /** The if fails whatever memory holds: the counter grows, and the register is filled up to its width. */
  lemma IfFails(h: Handler, a: int, skip: nat, bits: nat, fpu: Fpu)
    requires |h.regs| == 16 && InReach(a) && skip <= bits && h.cond == Ones(skip)
    ensures P.Step(DoIf(a, 2, 1, 0, 0), MachineOf(skip, h), fpu) == MachineOf(skip + 1, h)
    ensures Handle(h, NeverIf(a), bits, fpu) == Some(h.(cond := Ones(Fewer(skip + 1, bits))))
    ensures P.Ready(DoIf(a, 2, 1, 0, 0), P.Flat(h.cells))
  {
    hide WordOf, Passes, Pushed, Ones, P.FlatLoad;
    ElseFlips(skip);
    var sum := Wrap(CountsFrom(h, false) + (a - BASE));
    NothingPasses(LoadWord(h.cells, sum - sum % 2, 2));
    NothingPasses(WordOf(P.FlatLoad(h.cells, a, 2)));
    if skip < bits {
      PushFits(skip, bits);
    } else {
      K.OnesLoseABit(bits);
    }
  }

  /**
    Past the width of the register meaning is lost. For every width, every address an if may read and every byte that
    may be written: the code with one if too many is accepted; the handler, whose register has lost a bit, writes the
    byte; the plan is still inside the first if and does not. Whatever memory holds.
  */
  lemma TooManyIfsDiffer(rows: seq<T.Row>, a: int, v: int, b: Byte, h: Handler, bits: nat, fpu: Fpu)
    requires T.Sorted(rows) && Check(rows, a, 2).Ok? && a % 2 == 0 && Check(rows, v, 1).Ok?
    requires |h.regs| == 16 && h.cond == 0 && h.ba == BASE && h.cells(v) != b
    ensures InReach(a) && InReach(v)
    ensures var lines := TooManyIfs(a, v, b, bits);
      && CompileCode(rows, lines).Ok?
      && P.PlanReady(CompileCode(rows, lines).value, P.Flat(h.cells))
      && P.Run(CompileCode(rows, lines).value, MachineOf(0, h), fpu).mem.cells(v) != b
      && Execute(lines, 0, h, bits, fpu).Some? && Execute(lines, 0, h, bits, fpu).value.cells(v) == b
  {
    hide Check, T.Sorted, Ends, Ifs, ByteLine, IfLine, InReach, CompileFrom, Execute, P.Run, P.PlanReady, Ones;
    Reached(rows, a, 2);
    Reached(rows, v, 1);
    var lines := TooManyIfs(a, v, b, bits);
    OnesZero();
    assert lines[0..] == lines && |lines| > 0;
    IfsPart(rows, lines, 0, bits + 1, INITIAL, h, a, v, b, bits, fpu);
  }

  lemma Reached(rows: seq<T.Row>, a: int, length: nat)
    requires T.Sorted(rows) && Check(rows, a, length).Ok? && length > 0
    ensures InReach(a)
  {}
}
