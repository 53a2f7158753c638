/**
  The console's own code handler, restricted to the lines the compiler
  accepts: it keeps the base address, the pointer and one condition bit per
  open if as run-time state, and reads and writes flat big-endian memory.
  The comments of tools/gecko_coverage.py quote its instructions.

  The condition register has `bits` bits; the console's has 32.
*/
module GeckoHandler {
  import opened Bytes
  import opened GeckoCode
  import P = GeckoPlan

  datatype Handler = Handler(cond: nat, ba: Word, po: Word, cells: int -> Byte, regs: seq<Word>)

  predicate Running(h: Handler) { h.cond % 2 == 0 }

  // ---- the condition register ----

  /** An if pushes one bit; bits past the width of the register are lost. */
  function Pushed(cond: nat, bit: bool, bits: nat): nat {
    (2 * cond + (if bit then 1 else 0)) % Pow2(bits)
  }

  /** An endif shifts bits out. */
  function Shifted(cond: nat, count: nat): nat {
    if count == 0 then cond else Shifted(cond / 2, count - 1)
  }

  /** An else flips the innermost bit, unless the bit above it is set. */
  function Flipped(cond: nat): nat {
    if (cond / 2) % 2 == 1 then cond else if cond % 2 == 1 then cond - 1 else cond + 1
  }

  // ---- addresses at run time ----

  /** r12: the pointer in full, or the top seven bits of the base address. */
  function CountsFrom(h: Handler, pointer: bool): Word {
    if pointer then h.po else h.ba - h.ba % 0x200_0000
  }

  function Number(h: Handler, o: Operand): Word {
    if o.relative then Wrap(o.value + CountsFrom(h, o.pointer)) else o.value
  }

  function SetReg(h: Handler, pointer: bool, v: Word): Handler {
    if pointer then h.(po := v) else h.(ba := v)
  }

  function ResetRegs(h: Handler, reset: Reset): Handler {
    h.(ba := if reset.ba.Some? then reset.ba.value else h.ba, po := if reset.po.Some? then reset.po.value else h.po)
  }

  // ---- the lines ----

  /** Items `k`.. of a serial write. */
  function SerialWrite(cells: int -> Byte, addr: Word, body: Body, k: nat): int -> Byte
    requires body.Serial?
    decreases body.count - k
  {
    if k >= body.count then cells
    else
      var item := BigEndian(body.value + k * body.step, body.width);
      SerialWrite(P.FlatStore(cells, Wrap(addr + k * body.stride), item), addr, body, k + 1)
  }

  function WriteBody(cells: int -> Byte, addr: Word, body: Body): Option<int -> Byte> {
    match body
    case Plain(data) => Some(P.FlatStore(cells, addr, data))
    case Rounded(data) => Some(P.FlatStore(cells, addr - addr % 4, data))
    case Serial(_, _, _, _, _) => Some(SerialWrite(cells, addr, body, 0))
    case Bad(_) => None
  }

  function LoadWord(cells: int -> Byte, addr: int, width: nat): Word
    requires width <= 4
  {
    WordOf(P.FlatLoad(cells, addr, width))
  }

  /** An if: inside a skipped block the bit is copied, else it says whether the test failed. */
  function HandleIf(h: Handler, instr: Instr, bits: nat): Handler
    requires instr.If? && InstrOk(instr)
  {
    var open := if instr.endsOne then h.(cond := Shifted(h.cond, 1)) else h;
    var sum := Wrap(CountsFrom(open, instr.pointer) + instr.offset);
    var addr := sum - sum % instr.width;
    var failed := !Running(open)
      || !Passes(LoadWord(h.cells, addr, instr.width), instr.compare, instr.value, instr.mask);
    open.(cond := Pushed(open.cond, failed, bits))
  }

  /** The lines that do nothing inside a skipped block. None: a line this handler does not model. */
  function HandleWork(h: Handler, instr: Instr, fpu: Fpu): Option<Handler>
    requires InstrOk(instr) && |h.regs| == 16
  {
    match instr
    case Write(pointer, offset, body) =>
      var cells := WriteBody(h.cells, Wrap(CountsFrom(h, pointer) + offset), body);
      if cells.None? then None else Some(h.(cells := cells.value))
    case SetBase(toPointer, add, operand) =>
      var was := if toPointer then h.po else h.ba;
      Some(SetReg(h, toPointer, if add then Wrap(was + Number(h, operand)) else Number(h, operand)))
    case StoreBase(fromPointer, operand) =>
      Some(h.(cells := P.FlatStore(h.cells, Number(h, operand), BigEndian(if fromPointer then h.po else h.ba, 4))))
    case RegSet(n, operand, add) =>
      Some(h.(regs := h.regs[n := Wrap(Number(h, operand) + (if add then h.regs[n] else 0))]))
    case RegLoad(n, operand, width) => Some(h.(regs := h.regs[n := LoadWord(h.cells, Number(h, operand), width)]))
    case RegStore(n, operand, width, count) =>
      Some(h.(cells := P.FlatStore(h.cells, Number(h, operand), Repeat(BigEndian(h.regs[n], width), count))))
    case RegOp(n, op, number) => Some(h.(regs := h.regs[n := Operate(h.regs[n], number, op, fpu)]))
    case RegOpReg(n, op, other) => Some(h.(regs := h.regs[n := Operate(h.regs[n], h.regs[other], op, fpu)]))
    case RegOpMem(n, op, operand) =>
      Some(h.(regs := h.regs[n := Operate(h.regs[n], LoadWord(h.cells, Number(h, operand), 4), op, fpu)]))
    case _ => None
  }

  function HandleEnd(h: Handler, instr: Instr): Handler
    requires instr.EndAll? || instr.EndIfs?
  {
    match instr
    case EndAll(reset) => ResetRegs(h.(cond := 0), reset)
    case EndIfs(count, otherwise, reset) =>
      var left := Shifted(h.cond, count);
      ResetRegs(h.(cond := if otherwise then Flipped(left) else left), reset)
  }

  function Handle(h: Handler, instr: Instr, bits: nat, fpu: Fpu): Option<Handler>
    requires InstrOk(instr) && |h.regs| == 16
  {
    if instr.If? then Some(HandleIf(h, instr, bits))
    else if instr.EndAll? || instr.EndIfs? then Some(HandleEnd(h, instr))
    else if Running(h) then HandleWork(h, instr, fpu)
    else Some(h)
  }

  /** One code from line `i` to its end. */
  function Execute(lines: seq<Line>, i: nat, h: Handler, bits: nat, fpu: Fpu): Option<Handler>
    requires |h.regs| == 16
    decreases |lines| - i
  {
    if i >= |lines| then Some(h)
    else
      var d := Decode(lines, i);
      if d.instr.EndOfList? then Some(h)
      else
        var h' := Handle(h, d.instr, bits, fpu);
        if h'.None? || |h'.value.regs| != 16 then None
        else Execute(lines, i + d.lines, h'.value, bits, fpu)
  }

  /** `n` frames: each starts with both registers at 80000000 and no condition. */
  function Frames(lines: seq<Line>, h: Handler, n: nat, bits: nat, fpu: Fpu): Option<Handler>
    requires |h.regs| == 16
  {
    if n == 0 then Some(h)
    else
      var before := Frames(lines, h, n - 1, bits, fpu);
      if before.None? || |before.value.regs| != 16 then None
      else Execute(lines, 0, before.value.(cond := 0, ba := BASE, po := BASE), bits, fpu)
  }
}
