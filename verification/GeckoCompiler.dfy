/**
  The compiler for one code (tools/gecko_coverage.py, Compiler).

  Part one says what each instruction compiles to, as functions of what is
  known about the base address and the pointer. Part two is the class that
  does it in place, proved to compute exactly those functions.
*/
module GeckoCompiler {
  import opened Bytes
  import opened GeckoCode
  import T = GeckoTargets

  /** A register of the handler: its value when known, and the if-depth it was last set at. */
  datatype Known = Known(value: Option<Word>, setAt: nat)

  datatype Track = Track(ba: Known, po: Known, depth: nat)

  const INITIAL := Track(Known(Some(BASE), 0), Known(Some(BASE), 0), 0)

  /** What one instruction adds to the plan, and what is known after it. */
  datatype Emit = Emit(track: Track, ops: seq<Op>)

  function Register(t: Track, pointer: bool): Known {
    if pointer then t.po else t.ba
  }

  /** The top seven bits of the base address. */
  function TopSeven(w: Word): Word {
    w - w % 0x200_0000
  }

  function ValueOf(t: Track, pointer: bool): Result<Word> {
    match Register(t, pointer).value
    case None => Refused(BaseUnknown)
    case Some(v) => Ok(v)
  }

  /** What a line counts from: the pointer in full, or the top of the base address. */
  function BaseOf(t: Track, pointer: bool): Result<Word> {
    var v :- ValueOf(t, pointer);
    Ok(if pointer then v else TopSeven(v))
  }

  function OperandOf(t: Track, o: Operand): Result<Word> {
    if o.relative then
      var b :- BaseOf(t, o.pointer);
      Ok(Wrap(o.value + b))
    else Ok(o.value)
  }

  function Check(rows: seq<T.Row>, addr: int, length: nat): Result<()>
    requires T.Sorted(rows)
  {
    if addr < MEM_LO || addr > MEM_HI || length > MEM_HI - addr then Refused(Outside)
    else if length == 0 then Ok(())
    else
      match T.CheckWrite(rows, addr, length)
      case Fine => Ok(())
      case Unknown => Refused(NoSymbol)
      case PastEnd => Refused(Reason.PastEnd)
      case Refused(kind) => Result.Refused(if kind.Code? then CodeWrite else SymbolKind)
  }

  function WriteOps(rows: seq<T.Row>, addr: int, data: seq<Byte>): Result<seq<Op>>
    requires T.Sorted(rows)
  {
    var _ :- Check(rows, addr, |data|);
    Ok(if data == [] then [] else [DoWrite(addr, data)])
  }

  /** Item `k` of a serial write: where and what. */
  function SerialAt(addr: Word, body: Body, k: nat): Word
    requires body.Serial?
  {
    Wrap(addr + k * body.stride)
  }

  function SerialItem(body: Body, k: nat): (s: seq<Byte>)
    requires body.Serial?
    ensures |s| == body.width
  {
    BigEndian(body.value + k * body.step, body.width)
  }

  /** Items `k`.. of a serial write, each checked on its own. */
  function SerialOps(rows: seq<T.Row>, addr: Word, body: Body, k: nat): Result<seq<Op>>
    requires T.Sorted(rows) && body.Serial?
    decreases body.count - k
  {
    if k >= body.count then Ok([])
    else
      var one :- WriteOps(rows, SerialAt(addr, body, k), SerialItem(body, k));
      var rest :- SerialOps(rows, addr, body, k + 1);
      Ok(one + rest)
  }

  function BodyOps(rows: seq<T.Row>, addr: Word, body: Body): Result<seq<Op>>
    requires T.Sorted(rows)
  {
    match body
    case Plain(data) => WriteOps(rows, addr, data)
    case Rounded(data) => WriteOps(rows, addr - addr % 4, data)
    case Serial(_, _, _, _, _) => SerialOps(rows, addr, body, 0)
    case Bad(reason) => Refused(reason)
  }

  /** A register set inside a block that has ended is no longer known. */
  function Forget(k: Known, openIfs: nat, otherwise: bool): Known {
    if k.setAt > openIfs || (otherwise && k.setAt >= (if openIfs > 1 then openIfs else 1)) then Known(None, 0) else k
  }

  function CloseTo(t: Track, openIfs: nat, otherwise: bool): Track {
    Track(Forget(t.ba, openIfs, otherwise), Forget(t.po, openIfs, otherwise), openIfs)
  }

  function Less(depth: nat, count: nat): nat {
    if depth > count then depth - count else 0
  }

  function ResetBases(t: Track, reset: Reset): Track {
    Track(if reset.ba.Some? then Known(reset.ba, 0) else t.ba,
          if reset.po.Some? then Known(reset.po, 0) else t.po, t.depth)
  }

  function SetRegister(t: Track, pointer: bool, value: Word): Track {
    if pointer then t.(po := Known(Some(value), t.depth)) else t.(ba := Known(Some(value), t.depth))
  }

  /** Where an if reads. The line counts from what is known after its own endif. */
  function IfAddress(t: Track, instr: Instr): Result<Word>
    requires instr.If?
  {
    var b :- BaseOf(IfTrack(t, instr), instr.pointer);
    Ok(RoundedDown(Wrap(b + instr.offset), instr.width))
  }

  /** An address ending in 1: one endif first. */
  function IfTrack(t: Track, instr: Instr): Track
    requires instr.If?
  {
    if instr.endsOne then CloseTo(t, Less(t.depth, 1), false) else t
  }

  function CompileIf(rows: seq<T.Row>, t: Track, instr: Instr): Result<Emit>
    requires T.Sorted(rows) && instr.If?
  {
    var addr :- IfAddress(t, instr);
    var _ :- Check(rows, addr, instr.width);
    var open := IfTrack(t, instr);
    Ok(Emit(open.(depth := open.depth + 1),
            (if instr.endsOne then [DoEndIf(1, false)] else [])
            + [DoIf(addr, instr.width, instr.compare, instr.value, instr.mask)]))
  }

  function CompileWrite(rows: seq<T.Row>, t: Track, pointer: bool, offset: nat, body: Body): Result<Emit>
    requires T.Sorted(rows)
  {
    var b :- BaseOf(t, pointer);
    var ops :- BodyOps(rows, Wrap(b + offset), body);
    Ok(Emit(t, ops))
  }

  /** The value a base line sets a register to. */
  function SetValue(t: Track, instr: Instr): Result<Word>
    requires instr.SetBase?
  {
    var number :- OperandOf(t, instr.operand);
    if instr.add then
      var was :- ValueOf(t, instr.toPointer);
      Ok(Wrap(was + number))
    else Ok(number)
  }

  function CompileBase(rows: seq<T.Row>, t: Track, instr: Instr): Result<Emit>
    requires T.Sorted(rows) && (instr.SetBase? || instr.StoreBase?)
  {
    if instr.SetBase? then
      var value :- SetValue(t, instr);
      Ok(Emit(SetRegister(t, instr.toPointer, value), []))
    else
      var addr :- OperandOf(t, instr.operand);
      var v :- ValueOf(t, instr.fromPointer);
      var ops :- WriteOps(rows, addr, BigEndian(v, 4));
      Ok(Emit(t, ops))
  }

  predicate IsRegister(instr: Instr) {
    instr.RegSet? || instr.RegLoad? || instr.RegStore? || instr.RegOp? || instr.RegOpReg? || instr.RegOpMem?
  }

  function CompileRegister(rows: seq<T.Row>, t: Track, instr: Instr): Result<Emit>
    requires T.Sorted(rows) && IsRegister(instr)
  {
    if instr.RegOp? then Ok(Emit(t, [GrOp(instr.n, instr.op, instr.number)]))
    else if instr.RegOpReg? then Ok(Emit(t, [GrOpGr(instr.n, instr.op, instr.other)]))
    else
      var number :- OperandOf(t, instr.operand);
      var op := RegisterOp(instr, number);
      if instr.RegSet? then Ok(Emit(t, [op]))
      else
        var (addr, length) := op.Range();
        var _ :- Check(rows, addr, length);
        Ok(Emit(t, [op]))
  }

  /** The step of a register line whose number or address is `number`. */
  function RegisterOp(instr: Instr, number: Word): Op
    requires instr.RegSet? || instr.RegLoad? || instr.RegStore? || instr.RegOpMem?
  {
    match instr
    case RegSet(n, _, add) => GrSet(n, number, add)
    case RegLoad(n, _, width) => GrLoad(n, number, width)
    case RegStore(n, _, width, count) => GrStore(n, number, width, count)
    case RegOpMem(n, op, _) => GrOpMem(n, op, number)
  }

  /** What one instruction compiles to. */
  function CompileInstr(rows: seq<T.Row>, t: Track, instr: Instr): Result<Emit>
    requires T.Sorted(rows)
  {
    match instr
    case EndOfList => Ok(Emit(t, []))
    case Bad(reason) => Refused(reason)
    case Write(pointer, offset, body) => CompileWrite(rows, t, pointer, offset, body)
    case If(_, _, _, _, _, _, _) => CompileIf(rows, t, instr)
    case SetBase(_, _, _) => CompileBase(rows, t, instr)
    case StoreBase(_, _) => CompileBase(rows, t, instr)
    case EndAll(reset) => Ok(Emit(ResetBases(CloseTo(t, 0, false), reset), [DoEnd]))
    case EndIfs(count, otherwise, reset) =>
      Ok(Emit(ResetBases(CloseTo(t, Less(t.depth, count), otherwise), reset), [DoEndIf(count, otherwise)]))
    case _ => CompileRegister(rows, t, instr)
  }

  function RoundedDown(addr: Word, width: nat): Word {
    if width == 4 then addr - addr % 4 else if width == 2 then addr - addr % 2 else addr
  }

  /** The plan of lines `i`.. of a code. */
  function CompileFrom(rows: seq<T.Row>, lines: seq<Line>, i: nat, t: Track): Result<seq<Op>>
    requires T.Sorted(rows)
    decreases |lines| - i
  {
    if i >= |lines| then Ok([])
    else
      var d := Decode(lines, i);
      if d.instr.EndOfList? then Ok([])
      else
        var e :- CompileInstr(rows, t, d.instr);
        var rest :- CompileFrom(rows, lines, i + d.lines, e.track);
        Ok(e.ops + rest)
  }

  /** One step of CompileFrom, for a plan already begun. */
  lemma CompileStep(rows: seq<T.Row>, lines: seq<Line>, i: nat, t: Track, plan: seq<Op>)
    requires T.Sorted(rows) && i < |lines| && !Decode(lines, i).instr.EndOfList?
    ensures match CompileInstr(rows, t, Decode(lines, i).instr)
            case Refused(reason) => CompileFrom(rows, lines, i, t) == Result.Refused(reason)
            case Ok(e) =>
              match CompileFrom(rows, lines, i + Decode(lines, i).lines, e.track)
              case Refused(reason) => CompileFrom(rows, lines, i, t) == Result.Refused(reason)
              case Ok(rest) =>
                && CompileFrom(rows, lines, i, t).Ok?
                && plan + CompileFrom(rows, lines, i, t).value == (plan + e.ops) + rest
  {
    hide Decode, CompileInstr, T.Sorted;
  }

  lemma CompileDone(rows: seq<T.Row>, lines: seq<Line>, i: nat, t: Track)
    requires T.Sorted(rows) && (i >= |lines| || Decode(lines, i).instr.EndOfList?)
    ensures CompileFrom(rows, lines, i, t) == Ok([])
  {
    hide Decode, CompileInstr, T.Sorted;
  }

  function CompileCode(rows: seq<T.Row>, lines: seq<Line>): Result<seq<Op>>
    requires T.Sorted(rows)
  {
    if lines == [] then Refused(Malformed) else CompileFrom(rows, lines, 0, INITIAL)
  }

  // ---- confinement ----

  /** The step stays inside game memory and inside one supported row. */
  ghost predicate Confined(rows: seq<T.Row>, op: Op) {
    && OpOk(op)
    && var (addr, length) := op.Range();
       length > 0 ==> MEM_LO <= addr && addr + length <= MEM_HI && T.Backed(rows, addr, length)
  }

  ghost predicate PlanConfined(rows: seq<T.Row>, plan: seq<Op>) {
    forall i :: 0 <= i < |plan| ==> Confined(rows, plan[i])
  }

  /** An access is accepted exactly when it lies in game memory and, unless empty, one supported row holds all of it. */
  lemma CheckExact(rows: seq<T.Row>, addr: int, length: nat)
    requires T.Sorted(rows) && T.SupportedClear(rows)
    ensures Check(rows, addr, length).Ok? <==>
      MEM_LO <= addr && addr + length <= MEM_HI && (length > 0 ==> T.Backed(rows, addr, length))
  {
    hide T.Sorted, T.SupportedClear, T.Backed, T.CheckWrite;
    T.CheckWriteExact(rows, addr, length);
  }

  /** Which refusal an access meets: outside game memory first, then by the last row that starts at or before it. */
  lemma CheckClass(rows: seq<T.Row>, addr: int, length: nat, k: nat)
    requires T.Sorted(rows)
    ensures Check(rows, addr, length) == Refused(Outside) <==> !(MEM_LO <= addr && addr + length <= MEM_HI)
    ensures MEM_LO <= addr && addr + length <= MEM_HI && length > 0 && T.LastBefore(rows, k, addr) ==>
      Check(rows, addr, length) ==
        if addr >= rows[k].addr + rows[k].size then Refused(NoSymbol)
        else if rows[k].kind.Code? then Refused(CodeWrite)
        else if !rows[k].kind.Supported? then Refused(SymbolKind)
        else if addr + length > rows[k].addr + rows[k].size then Refused(Reason.PastEnd)
        else Ok(())
  {
    hide T.CheckWrite, T.Sorted, T.LastBefore;
    T.CheckWriteClass(rows, addr, length, k);
    Below(rows, k, addr);
  }

  lemma Below(rows: seq<T.Row>, k: nat, addr: int)
    ensures T.LastBefore(rows, k, addr) ==> k < |rows|
  {}

  lemma CheckConfines(rows: seq<T.Row>, addr: int, length: nat)
    requires T.TableOk(rows) && Check(rows, addr, length).Ok?
    ensures length > 0 ==> MEM_LO <= addr && addr + length <= MEM_HI && T.Backed(rows, addr, length)
  {
    hide Check, T.Sorted, T.SupportedClear, T.Backed;
    CheckExact(rows, addr, length);
  }

  lemma {:induction false} SerialConfined(rows: seq<T.Row>, addr: Word, body: Body, k: nat)
    requires T.TableOk(rows) && body.Serial? && SerialOps(rows, addr, body, k).Ok?
    ensures PlanConfined(rows, SerialOps(rows, addr, body, k).value)
    decreases body.count - k
  {
    hide Check, T.Backed, T.Sorted, BigEndian;
    if k < body.count {
      CheckConfines(rows, SerialAt(addr, body, k), body.width);
      SerialConfined(rows, addr, body, k + 1);
    }
  }

  lemma BodyConfined(rows: seq<T.Row>, addr: Word, body: Body)
    requires T.TableOk(rows) && BodyOps(rows, addr, body).Ok?
    ensures PlanConfined(rows, BodyOps(rows, addr, body).value)
  {
    hide Check, T.TableOk, T.Backed, BigEndian;
    match body {
      case Plain(data) => CheckConfines(rows, addr, |data|);
      case Rounded(data) => CheckConfines(rows, addr - addr % 4, |data|);
      case Serial(_, _, _, _, _) => SerialConfined(rows, addr, body, 0);
      case Bad(_) =>
    }
  }

  lemma InstrConfined(rows: seq<T.Row>, t: Track, instr: Instr)
    requires T.TableOk(rows) && InstrOk(instr) && CompileInstr(rows, t, instr).Ok?
    ensures PlanConfined(rows, CompileInstr(rows, t, instr).value.ops)
  {
    hide Check, T.Backed, BodyOps, BigEndian, T.Sorted;
    if instr.Write? {
      BodyConfined(rows, Wrap(BaseOf(t, instr.pointer).value + instr.offset), instr.body);
    } else if instr.If? {
      CheckConfines(rows, IfAddress(t, instr).value, instr.width);
    } else if instr.StoreBase? {
      CheckConfines(rows, OperandOf(t, instr.operand).value, 4);
    } else if instr.RegLoad? || instr.RegStore? || instr.RegOpMem? {
      var (addr, length) := RegisterOp(instr, OperandOf(t, instr.operand).value).Range();
      CheckConfines(rows, addr, length);
    }
  }

  lemma {:induction false} CompiledConfined(rows: seq<T.Row>, lines: seq<Line>, i: nat, t: Track)
    requires T.TableOk(rows) && CompileFrom(rows, lines, i, t).Ok?
    ensures PlanConfined(rows, CompileFrom(rows, lines, i, t).value)
    decreases |lines| - i
  {
    hide Decode, CompileInstr, T.Sorted, Confined;
    if i < |lines| && !Decode(lines, i).instr.EndOfList? {
      var d := Decode(lines, i);
      InstrConfined(rows, t, d.instr);
      CompiledConfined(rows, lines, i + d.lines, CompileInstr(rows, t, d.instr).value.track);
    }
  }

  /** Every read and write of an accepted plan lies in game memory and within one supported row. */
  lemma AcceptedPlansAreConfined(rows: seq<T.Row>, lines: seq<Line>)
    requires T.TableOk(rows) && CompileCode(rows, lines).Ok?
    ensures PlanConfined(rows, CompileCode(rows, lines).value)
  {
    CompiledConfined(rows, lines, 0, INITIAL);
  }

  // ---- the compiler as it runs ----

  predicate AnyReads(plan: seq<Op>) {
    exists i :: 0 <= i < |plan| && plan[i].Reads()
  }

  lemma {:induction false} SerialNeverReads(rows: seq<T.Row>, addr: Word, body: Body, k: nat)
    requires T.Sorted(rows) && body.Serial? && SerialOps(rows, addr, body, k).Ok?
    ensures !AnyReads(SerialOps(rows, addr, body, k).value)
    decreases body.count - k
  {
    if k < body.count {
      SerialNeverReads(rows, addr, body, k + 1);
    }
  }

  lemma WritesNeverRead(rows: seq<T.Row>, addr: Word, body: Body)
    requires T.Sorted(rows) && BodyOps(rows, addr, body).Ok?
    ensures !AnyReads(BodyOps(rows, addr, body).value)
  {
    if body.Serial? {
      SerialNeverReads(rows, addr, body, 0);
    }
  }

  class Compiler {
    const symbols: seq<T.Row>
    var plan: seq<Op>
    var didRead: bool
    var ba: Known
    var po: Known
    var depth: nat

    constructor (symbols: seq<T.Row>)
      ensures this.symbols == symbols && plan == [] && !didRead && Tracked() == INITIAL
    {
      this.symbols, plan, didRead := symbols, [], false;
      ba, po, depth := INITIAL.ba, INITIAL.po, 0;
    }

    function Tracked(): Track
      reads this
    {
      Track(ba, po, depth)
    }

    /** The state after one instruction: what the specification emits is appended, or it is refused. */
    ghost predicate Compiled(spec: Result<Emit>, result: Result<()>, plan0: seq<Op>, reads0: bool)
      reads this
    {
      match spec
      case Refused(reason) => result == Result.Refused(reason)
      case Ok(e) =>
        result.Ok? && Tracked() == e.track && plan == plan0 + e.ops
        && didRead == (reads0 || AnyReads(e.ops))
    }

    method Write(addr: int, data: seq<Byte>) returns (r: Result<()>)
      requires T.Sorted(symbols)
      modifies this`plan
      ensures match WriteOps(symbols, addr, data)
              case Refused(reason) => r == Result.Refused(reason) && plan == old(plan)
              case Ok(ops) => r.Ok? && plan == old(plan) + ops
    {
      r := Check(symbols, addr, |data|);
      if r.Ok? && data != [] {
        plan := plan + [DoWrite(addr, data)];
      }
    }

    method Read(addr: int, length: nat) returns (r: Result<()>)
      requires T.Sorted(symbols)
      modifies this`didRead
      ensures r == Check(symbols, addr, length)
      ensures didRead == (old(didRead) || r.Ok?)
    {
      r := Check(symbols, addr, length);
      if r.Ok? {
        didRead := true;
      }
    }

    method Close(openIfs: nat, otherwise: bool)
      modifies this`ba, this`po, this`depth
      ensures Tracked() == CloseTo(old(Tracked()), openIfs, otherwise)
    {
      var limit := if openIfs > 1 then openIfs else 1;
      if ba.setAt > openIfs || (otherwise && ba.setAt >= limit) {
        ba := Known(None, 0);
      }
      if po.setAt > openIfs || (otherwise && po.setAt >= limit) {
        po := Known(None, 0);
      }
      depth := openIfs;
    }

    method ResetTo(reset: Reset)
      modifies this`ba, this`po
      ensures Tracked() == ResetBases(old(Tracked()), reset)
    {
      if reset.ba.Some? {
        ba := Known(reset.ba, 0);
      }
      if reset.po.Some? {
        po := Known(reset.po, 0);
      }
    }

    method SerialLine(addr: Word, body: Body) returns (r: Result<()>)
      requires T.Sorted(symbols) && body.Serial?
      modifies this`plan
      ensures match SerialOps(symbols, addr, body, 0)
              case Refused(reason) => r == Result.Refused(reason)
              case Ok(ops) => r.Ok? && plan == old(plan) + ops
    {
      hide Check, BigEndian, T.Sorted;
      var k := 0;
      ghost var all := SerialOps(symbols, addr, body, 0);
      assert all.Ok? ==> plan[|old(plan)|..] + all.value == all.value;
      while k < body.count
        invariant old(plan) <= plan
        invariant match SerialOps(symbols, addr, body, k)
                  case Refused(reason) => all == Result.Refused(reason)
                  case Ok(rest) => all == Ok(plan[|old(plan)|..] + rest)
      {
        ghost var before := plan[|old(plan)|..];
        ghost var one, rest := WriteOps(symbols, SerialAt(addr, body, k), SerialItem(body, k)),
          SerialOps(symbols, addr, body, k + 1);
        r := Write(SerialAt(addr, body, k), SerialItem(body, k));
        if r.Refused? {
          return;
        }
        k := k + 1;
        assert plan[|old(plan)|..] == before + one.value;
        assert rest.Ok? ==> before + (one.value + rest.value) == (before + one.value) + rest.value;
      }
      assert plan[|old(plan)|..] + [] == plan[|old(plan)|..];
      r := Ok(());
    }

    method WriteLine(pointer: bool, offset: nat, body: Body) returns (r: Result<()>)
      requires T.Sorted(symbols)
      modifies this
      ensures Compiled(CompileWrite(symbols, old(Tracked()), pointer, offset, body), r, old(plan), old(didRead))
    {
      hide Check, WriteOps, SerialOps, T.Sorted, Repeat;
      var b := BaseOf(Tracked(), pointer);
      if b.Refused? {
        return Result.Refused(b.reason);
      }
      var addr := Wrap(b.value + offset);
      ghost var spec := BodyOps(symbols, addr, body);
      match body {
        case Plain(data) => r := Write(addr, data);
        case Rounded(data) => r := Write(addr - addr % 4, data);
        case Serial(_, _, _, _, _) => r := SerialLine(addr, body);
        case Bad(reason) => r := Result.Refused(reason);
      }
      if r.Ok? {
        WritesNeverRead(symbols, addr, body);
        assert plan == old(plan) + spec.value;
      }
    }

    method IfLine(instr: Instr) returns (r: Result<()>)
      requires T.Sorted(symbols) && instr.If? && InstrOk(instr)
      modifies this
      ensures Compiled(CompileIf(symbols, old(Tracked()), instr), r, old(plan), old(didRead))
    {
      hide Check, BigEndian, T.Sorted;
      if instr.endsOne {
        plan := plan + [DoEndIf(1, false)];
        Close(Less(depth, 1), false);
      }
      var b := BaseOf(Tracked(), instr.pointer);
      if b.Refused? {
        return Result.Refused(b.reason);
      }
      var addr := RoundedDown(Wrap(b.value + instr.offset), instr.width);
      r := Read(addr, instr.width);
      if r.Ok? {
        plan := plan + [DoIf(addr, instr.width, instr.compare, instr.value, instr.mask)];
        depth := depth + 1;
        ghost var ops := CompileIf(symbols, old(Tracked()), instr).value.ops;
        assert ops[|ops| - 1].Reads();
      }
    }

    method BaseLine(instr: Instr) returns (r: Result<()>)
      requires T.Sorted(symbols) && (instr.SetBase? || instr.StoreBase?)
      modifies this
      ensures Compiled(CompileBase(symbols, old(Tracked()), instr), r, old(plan), old(didRead))
    {
      hide Check, BigEndian, T.Sorted;
      var number := OperandOf(Tracked(), instr.operand);
      if number.Refused? {
        return Result.Refused(number.reason);
      }
      if instr.SetBase? {
        var operand := number.value;
        if instr.add {
          var was := ValueOf(Tracked(), instr.toPointer);
          if was.Refused? {
            return Result.Refused(was.reason);
          }
          operand := Wrap(was.value as int + operand as int);
        }
        if instr.toPointer {
          po := Known(Some(operand), depth);
        } else {
          ba := Known(Some(operand), depth);
        }
        r := Ok(());
      } else {
        var v := ValueOf(Tracked(), instr.fromPointer);
        if v.Refused? {
          return Result.Refused(v.reason);
        }
        r := Write(number.value, BigEndian(v.value, 4));
      }
    }

    method RegisterLine(instr: Instr) returns (r: Result<()>)
      requires T.Sorted(symbols) && IsRegister(instr)
      modifies this
      ensures Compiled(CompileRegister(symbols, old(Tracked()), instr), r, old(plan), old(didRead))
    {
      hide Check, T.Sorted;
      r := Ok(());
      if instr.RegOp? {
        plan := plan + [GrOp(instr.n, instr.op, instr.number)];
        return;
      } else if instr.RegOpReg? {
        plan := plan + [GrOpGr(instr.n, instr.op, instr.other)];
        return;
      }
      var number := OperandOf(Tracked(), instr.operand);
      if number.Refused? {
        return Result.Refused(number.reason);
      }
      var op := RegisterOp(instr, number.value);
      if instr.RegStore? {
        r := Check(symbols, number.value, instr.width * instr.count);
      } else if !instr.RegSet? {
        r := Read(number.value, if instr.RegLoad? then instr.width else 4);
      }
      if r.Ok? {
        plan := plan + [op];
        assert [op][0] == op;
      }
    }

    /** One instruction, by its family. */
    method CompileLine(instr: Instr) returns (r: Result<()>)
      requires T.Sorted(symbols) && InstrOk(instr) && !instr.EndOfList?
      modifies this
      ensures Compiled(CompileInstr(symbols, old(Tracked()), instr), r, old(plan), old(didRead))
    {
      hide CompileWrite, CompileIf, CompileBase, CompileRegister, T.Sorted;
      match instr
      case Write(pointer, offset, body) => r := WriteLine(pointer, offset, body);
      case If(_, _, _, _, _, _, _) => r := IfLine(instr);
      case SetBase(_, _, _) => r := BaseLine(instr);
      case StoreBase(_, _) => r := BaseLine(instr);
      case EndAll(reset) =>
        plan := plan + [DoEnd];
        Close(0, false);
        ResetTo(reset);
        r := Ok(());
      case EndIfs(count, otherwise, reset) =>
        plan := plan + [DoEndIf(count, otherwise)];
        Close(Less(depth, count), otherwise);
        ResetTo(reset);
        r := Ok(());
      case Bad(reason) => r := Result.Refused(reason);
      case RegSet(_, _, _) => r := RegisterLine(instr);
      case RegLoad(_, _, _) => r := RegisterLine(instr);
      case RegStore(_, _, _, _) => r := RegisterLine(instr);
      case RegOp(_, _, _) => r := RegisterLine(instr);
      case RegOpReg(_, _, _) => r := RegisterLine(instr);
      case RegOpMem(_, _, _) => r := RegisterLine(instr);
    }

    /** Reads the whole code. The plan is the specified one and `didRead` says whether any step reads. */
    method Compile(lines: seq<Line>) returns (r: Result<seq<Op>>)
      requires T.Sorted(symbols)
      requires plan == [] && !didRead && Tracked() == INITIAL
      modifies this
      ensures r == CompileCode(symbols, lines)
      ensures r.Ok? ==> plan == r.value && didRead == AnyReads(r.value)
    {
      hide Decode, CompileInstr, CompileFrom, T.Sorted, AnyReads, InstrOk;
      AnyReadsNone();
      if lines == [] {
        return Refused(Malformed);
      }
      ghost var all := CompileCode(symbols, lines);
      assert all.Ok? ==> plan + all.value == all.value;
      var i := 0;
      while i < |lines|
        invariant didRead == AnyReads(plan)
        invariant match CompileFrom(symbols, lines, i, Tracked())
                  case Refused(reason) => all == Result.Refused(reason)
                  case Ok(rest) => all == Ok(plan + rest)
        decreases |lines| - i
      {
        var d := Decode(lines, i);
        if d.instr.EndOfList? {
          break;
        }
        CompileStep(symbols, lines, i, Tracked(), plan);
        ghost var t0, plan0 := Tracked(), plan;
        var one := CompileLine(d.instr);
        if one.Refused? {
          return Refused(one.reason);
        }
        ghost var ops := CompileInstr(symbols, t0, d.instr).value.ops;
        AnyReadsAppend(plan0, ops);
        i := i + d.lines;
      }
      CompileDone(symbols, lines, i, Tracked());
      assert plan + [] == plan;
      r := Ok(plan);
    }
  }

  lemma AnyReadsNone()
    ensures !AnyReads([])
  {}

  lemma AnyReadsAppend(a: seq<Op>, b: seq<Op>)
    ensures AnyReads(a + b) == (AnyReads(a) || AnyReads(b))
  {
    if AnyReads(a) {
      var i :| 0 <= i < |a| && a[i].Reads();
      assert (a + b)[i].Reads();
    }
    if AnyReads(b) {
      var i :| 0 <= i < |b| && b[i].Reads();
      assert (a + b)[|a| + i].Reads();
    }
  }
}
