/**
  Gecko code lines, the instructions they spell, and the steps of a plan
  (tools/gecko_coverage.py).

  Decoding a line is shared by the compiler and by the console handler; what
  an instruction means is not: the compiler turns it into plan steps with
  fixed addresses, the handler executes it on run-time registers.
*/
module GeckoCode {
  import opened Bytes

  const BASE: Word := 0x8000_0000
  const MEM_LO := 0x8000_3100
  const MEM_HI := 0x8180_0000

  datatype Line = Line(word: Word, value: Word)

  /** What about a code the compiler cannot carry out. */
  datatype Reason =
    | CodeWrite | CodeInject | CodeRun | Pointer | Type | NoSymbol | SymbolKind | PastEnd | Outside | BaseUnknown
    | Malformed

  datatype Result<+T> = Ok(value: T) | Refused(reason: Reason) {
    predicate IsFailure() { Refused? }

    function PropagateFailure<U>(): Result<U>
      requires Refused?
    {
      Refused(reason)
    }

    function Extract(): T
      requires Ok?
    {
      value
    }
  }

  // ---- fields of a line ----

  function Kind(word: Word): nat { word / 0x100_0000 }
  function Family(word: Word): nat { Kind(word) / 32 }
  function Sub(word: Word): nat { (Kind(word) / 2) % 8 }
  function Low25(word: Word): nat { word % 0x200_0000 }
  predicate Bit20(word: Word) { (word / 0x10_0000) % 2 == 1 }
  predicate Bit16(word: Word) { (word / 0x1_0000) % 2 == 1 }
  predicate Bit12(word: Word) { (word / 0x1000) % 2 == 1 }
  /** The type bit 0x10: a line counts from the pointer instead of the base address. */
  predicate FromPointer(word: Word) { (Kind(word) / 16) % 2 == 1 }

  // ---- instructions ----

  /** The data of a write line, once its address is known. */
  datatype Body =
    | Plain(data: seq<Byte>)
    | Rounded(data: seq<Byte>)   // the address is rounded down to a word
    | Serial(width: nat, value: Word, step: Word, stride: nat, count: nat)
    | Bad(reason: Reason)

  /** A number, or a number counted from the base address or the pointer. */
  datatype Operand = Operand(value: Word, relative: bool, pointer: bool)

  /** The second word of a terminator: what it resets the two registers to. */
  datatype Reset = Reset(ba: Option<Word>, po: Option<Word>)

  datatype Instr =
    | EndOfList
    | Write(pointer: bool, offset: nat, body: Body)
    | If(endsOne: bool, pointer: bool, offset: nat, width: nat, compare: nat, value: Word, mask: Word)
    | SetBase(toPointer: bool, add: bool, operand: Operand)
    | StoreBase(fromPointer: bool, operand: Operand)
    | RegSet(n: nat, operand: Operand, add: bool)
    | RegLoad(n: nat, operand: Operand, width: nat)
    | RegStore(n: nat, operand: Operand, width: nat, count: nat)
    | RegOp(n: nat, op: nat, number: Word)
    | RegOpReg(n: nat, op: nat, other: nat)
    | RegOpMem(n: nat, op: nat, operand: Operand)
    | EndAll(reset: Reset)
    | EndIfs(count: nat, otherwise: bool, reset: Reset)
    | Bad(reason: Reason)

  /** An instruction and the number of lines it takes. */
  datatype Decoded = Decoded(instr: Instr, lines: nat)

  predicate WidthOk(width: nat) { width == 1 || width == 2 || width == 4 }

  predicate BodyOk(body: Body) {
    body.Serial? ==> WidthOk(body.width) && body.count >= 1
  }

  predicate InstrOk(instr: Instr) {
    match instr
    case Write(_, _, body) => BodyOk(body)
    case If(_, _, _, width, compare, _, _) => (width == 2 || width == 4) && compare < 4
    case RegSet(n, _, _) => n < 16
    case RegLoad(n, _, width) => n < 16 && WidthOk(width)
    case RegStore(n, _, width, count) => n < 16 && WidthOk(width) && count >= 1
    case RegOp(n, op, _) => n < 16 && op <= 10
    case RegOpReg(n, op, other) => n < 16 && op <= 10 && other < 16
    case RegOpMem(n, op, _) => n < 16 && op <= 10
    case EndIfs(count, _, _) => count < 32
    case _ => true
  }

  function Repeat(item: seq<Byte>, count: nat): seq<Byte> {
    if count == 0 then [] else item + Repeat(item, count - 1)
  }

  /** The bytes of `rows` data lines. */
  function Packed(lines: seq<Line>, from: nat, rows: nat): (s: seq<Byte>)
    requires from + rows <= |lines|
    ensures |s| == 8 * rows
    decreases rows
  {
    if rows == 0 then []
    else BigEndian(lines[from].word, 4) + BigEndian(lines[from].value, 4) + Packed(lines, from + 1, rows - 1)
  }

  function SizeOfNibble(nibble: nat): Option<nat> {
    if nibble == 0 then Some(1) else if nibble == 1 then Some(2) else if nibble == 2 then Some(4) else None
  }

  function ResetOf(value: Word): Reset {
    Reset(if value / 0x1_0000 != 0 then Some(value / 0x1_0000 * 0x1_0000) else None,
          if value % 0x1_0000 != 0 then Some(value % 0x1_0000 * 0x1_0000) else None)
  }

  /** Types 00 to 0E. */
  function DecodeWrite(lines: seq<Line>, i: nat): (d: Decoded)
    requires i < |lines|
    ensures InstrOk(d.instr) && d.instr.Write? && 1 <= d.lines && (d.instr.body.Bad? || i + d.lines <= |lines|)
  {
    var Line(word, value) := lines[i];
    var sub := Sub(word);
    var rows := (value + 7) / 8;
    var (body, taken) :=
      if sub == 0 then (Plain(Repeat([value % 0x100], value / 0x1_0000 + 1)), 1)
      else if sub == 1 then (Plain(Repeat(BigEndian(value % 0x1_0000, 2), value / 0x1_0000 + 1)), 1)
      else if sub == 2 then (Rounded(BigEndian(value, 4)), 1)
      else if sub == 3 then
        if i + rows >= |lines| && rows != 0 then (Body.Bad(Malformed), 1)
        else (Plain(Packed(lines, i + 1, rows)[..value]), 1 + rows)
      else if sub == 4 then
        if i + 1 >= |lines| then (Body.Bad(Malformed), 1)
        else
          var second := lines[i + 1].word;
          var size := SizeOfNibble(second / 0x1000_0000);
          if size.None? then (Body.Bad(Malformed), 1)
          else (Serial(size.value, value, lines[i + 1].value, second % 0x1_0000, (second / 0x1_0000) % 0x1000 + 1), 2)
      else (Body.Bad(Type), 1);
    Decoded(Write(FromPointer(word), Low25(word), body), taken)
  }

  /** Types 20 to 2E. */
  function DecodeIf(line: Line): (instr: Instr)
    ensures InstrOk(instr)
  {
    var Line(word, value) := line;
    var sub := Sub(word);
    if sub < 4 then If(word % 2 == 1, FromPointer(word), Low25(word), 4, sub, value, 0xFFFF_FFFF)
    else If(word % 2 == 1, FromPointer(word), Low25(word), 2, sub - 4, value % 0x1_0000, 0xFFFF - value / 0x1_0000)
  }

  /** Types 40 to 4E. */
  function DecodeBase(line: Line): (instr: Instr)
    ensures InstrOk(instr)
  {
    var Line(word, value) := line;
    var sub := Sub(word);
    var toPointer := sub >= 4;
    if sub % 4 == 0 || sub % 4 == 3 || Bit12(word) then Instr.Bad(Pointer)
    else if sub % 4 == 1 then SetBase(toPointer, Bit20(word), Operand(value, Bit16(word), FromPointer(word)))
    else StoreBase(toPointer, Operand(value, true, FromPointer(word)))
  }

  /** Types 80 to 8E. */
  function DecodeRegister(line: Line): (instr: Instr)
    ensures InstrOk(instr)
  {
    var Line(word, value) := line;
    var sub := Sub(word);
    var high, relative, n := (word / 0x10_0000) % 16, (word / 0x1_0000) % 16, word % 16;
    var counted := Operand(value, relative % 2 == 1, FromPointer(word));
    if sub == 0 then RegSet(n, counted, high % 2 == 1)
    else if sub == 1 || sub == 2 then
      var width := SizeOfNibble(high);
      if width.None? then Instr.Bad(Malformed)
      else if sub == 1 then RegLoad(n, counted, width.value)
      else RegStore(n, counted, width.value, (word / 16) % 0x1000 + 1)
    else if sub == 3 || sub == 4 then
      if high > 10 then Instr.Bad(Malformed)
      else if relative == 0 then (if sub == 3 then RegOp(n, high, value) else RegOpReg(n, high, value % 16))
      else if relative == 2 && sub == 3 then RegOpMem(n, high, Operand(value, true, FromPointer(word)))
      else Instr.Bad(Pointer)
    else Instr.Bad(Pointer)
  }

  /** The instruction that starts on line `i`. */
  function Decode(lines: seq<Line>, i: nat): (d: Decoded)
    requires i < |lines|
    ensures InstrOk(d.instr) && 1 <= d.lines
  {
    var Line(word, value) := lines[i];
    var kind, family, sub := Kind(word), Family(word), Sub(word);
    if family == 0 then DecodeWrite(lines, i)
    else
      var instr :=
        if kind == 0xF0 then EndOfList
        else if family == 1 then DecodeIf(lines[i])
        else if family == 2 then DecodeBase(lines[i])
        else if family == 3 then Instr.Bad(Type)
        else if family == 4 then DecodeRegister(lines[i])
        else if family == 5 then Instr.Bad(Type)
        else if family == 6 then
          (if sub == 1 then Instr.Bad(CodeInject)
           else if sub == 0 || sub == 3 then Instr.Bad(CodeRun)
           else Instr.Bad(Type))
        else if kind == 0xE0 then EndAll(ResetOf(value))
        else if kind == 0xE2 then EndIfs(word % 32, Bit20(word), ResetOf(value))
        else Instr.Bad(Type);
      Decoded(instr, 1)
  }

  // ---- plans ----

  datatype Op =
    | DoWrite(addr: int, data: seq<Byte>)
    | DoIf(addr: int, width: nat, compare: nat, value: Word, mask: Word)
    | DoEndIf(count: nat, otherwise: bool)
    | DoEnd
    | GrSet(n: nat, operand: Word, add: bool)
    | GrLoad(n: nat, addr: int, width: nat)
    | GrStore(n: nat, addr: int, width: nat, count: nat)
    | GrOp(n: nat, op: nat, number: Word)
    | GrOpGr(n: nat, op: nat, other: nat)
    | GrOpMem(n: nat, op: nat, addr: int)
  {
    predicate Reads() {
      DoIf? || GrLoad? || GrOpMem?
    }

    /** The console range the step may touch: its address and length (0 for none). */
    function Range(): (int, nat) {
      match this
      case DoWrite(addr, data) => (addr, |data|)
      case DoIf(addr, width, _, _, _) => (addr, width)
      case GrLoad(_, addr, width) => (addr, width)
      case GrStore(_, addr, width, count) => (addr, width * count)
      case GrOpMem(_, _, addr) => (addr, 4)
      case _ => (0, 0)
    }
  }

  predicate OpOk(op: Op) {
    match op
    case DoIf(_, width, compare, _, _) => (width == 2 || width == 4) && compare < 4
    case GrSet(n, _, _) => n < 16
    case GrLoad(n, _, width) => n < 16 && WidthOk(width)
    case GrStore(n, _, width, count) => n < 16 && WidthOk(width) && count >= 1
    case GrOp(n, op, _) => n < 16 && op <= 10
    case GrOpGr(n, op, other) => n < 16 && op <= 10 && other < 16
    case GrOpMem(n, op, _) => n < 16 && op <= 10
    case _ => true
  }

  // ---- arithmetic shared by the plan and the handler ----

  /** A binary operation on the bit patterns of two 32-bit floats. */
  type FloatOp = (Word, Word) -> Word

  /** The two float operations, whose rounding is not part of this model. */
  datatype Fpu = Fpu(add: FloatOp, multiply: FloatOp)

  function Pow2(n: nat): (p: nat)
    ensures p > 0
  {
    if n == 0 then 1 else 2 * Pow2(n - 1)
  }

  function Signed(b: Word): int {
    if b >= 0x8000_0000 then b - 0x1_0000_0000 else b
  }

  /** `n` bits, each from the bits of `a` and `b` at its place. */
  function Bitwise(a: nat, b: nat, n: nat, f: (bool, bool) -> bool): (r: nat)
    ensures r < Pow2(n)
  {
    if n == 0 then 0 else 2 * Bitwise(a / 2, b / 2, n - 1, f) + (if f(a % 2 == 1, b % 2 == 1) then 1 else 0)
  }

  function WordBitwise(a: Word, b: Word, f: (bool, bool) -> bool): Word {
    Pow2Of32();
    Bitwise(a, b, 32, f)
  }

  function And(a: Word, b: Word): Word { WordBitwise(a, b, (x, y) => x && y) }
  function Or(a: Word, b: Word): Word { WordBitwise(a, b, (x, y) => x || y) }
  function Xor(a: Word, b: Word): Word { WordBitwise(a, b, (x, y) => x != y) }

  /** One register operation. The operand `b` is shifted, by the register `a`. */
  function Operate(a: Word, b: Word, op: nat, fpu: Fpu): Word
    requires op <= 10
  {
    if op == 0 then Wrap(a + b)
    else if op == 1 then Wrap(a * b)
    else if op == 2 then Or(a, b)
    else if op == 3 then And(a, b)
    else if op == 4 then Xor(a, b)
    else if op == 5 then (if (a / 32) % 2 == 1 then 0 else Wrap(b * Pow2(a % 32)))
    else if op == 6 then (if (a / 32) % 2 == 1 then 0 else Wrap(b / Pow2(a % 32)))
    else if op == 7 then Rotated(b, a % 32)
    else if op == 8 then Wrap(Signed(b) / Pow2(if a % 64 < 31 then a % 64 else 31))
    else if op == 9 then fpu.add(a, b)
    else fpu.multiply(a, b)
  }

  /** `b` rotated left by `n` bits. */
  function Rotated(b: Word, n: nat): Word
    requires n < 32
  {
    Wrap(b * Pow2(n) + (if n == 0 then 0 else b / Pow2(32 - n)))
  }

  lemma {:induction false} Pow2Sum(m: nat, n: nat)
    ensures Pow2(m) * Pow2(n) == Pow2(m + n)
  {
    if m > 0 {
      Pow2Sum(m - 1, n);
      assert Pow2(m) * Pow2(n) == 2 * (Pow2(m - 1) * Pow2(n));
    } else {
      assert Pow2(0) == 1;
    }
  }

  lemma Pow2Of32()
    ensures Pow2(32) == 0x1_0000_0000
  {
    assert Pow2(8) == 0x100;
    Pow2Sum(8, 8);
    Pow2Sum(16, 16);
  }

  /** A rotation swaps the high part and the low part of a word. */
  lemma RotatedParts(high: nat, low: nat, n: nat)
    requires 0 < n < 32 && high < Pow2(n) && low < Pow2(32 - n)
    ensures high * Pow2(32 - n) + low < 0x1_0000_0000
    ensures Rotated(high * Pow2(32 - n) + low, n) == low * Pow2(n) + high
  {
    hide Pow2;
    Pow2Of32();
    Pow2Sum(n, 32 - n);
    SwappedParts(high, low, Pow2(n), Pow2(32 - n));
  }

  lemma SwappedParts(high: nat, low: nat, p: nat, q: nat)
    requires p * q == 0x1_0000_0000 && high < p && low < q
    ensures var b := high * q + low;
      b < 0x1_0000_0000 && b / q == high && (b * p + high) % 0x1_0000_0000 == low * p + high
  {
    PartsFit(high, low, p, q);
    PartsFit(low, high, q, p);
    Swap(q, p);
    var b := high * q + low;
    ModUnique(b, q, high, low);
    Distribute(high, low, p, q);
    ModUnique(b * p + high, 0x1_0000_0000, high, low * p + high);
  }

  lemma Swap(p: nat, q: nat)
    ensures p * q == q * p
  {}

  lemma Distribute(high: nat, low: nat, p: nat, q: nat)
    ensures (high * q + low) * p == high * (p * q) + low * p
  {
    assert high * q * p == high * (p * q);
  }

  lemma PartsFit(high: nat, low: nat, p: nat, q: nat)
    requires high < p && low < q
    ensures high * q + low < p * q
  {
    assert (p - 1 - high) * q >= 0;
    assert (p - 1 - high) * q == p * q - q - high * q;
  }

  lemma HighPart(b: nat, p: nat, q: nat)
    requires q > 0 && b < p * q
    ensures b / q < p && b == b / q * q + b % q
  {
    var high := b / q;
    assert high * q == p * q + (high - p) * q;
    assert high >= p ==> (high - p) * q >= 0;
  }

  /** Rotating on by the rest of the 32 bits gives the word back. */
  lemma RotationUndone(b: Word, n: nat)
    requires 0 < n < 32
    ensures Rotated(Rotated(b, n), 32 - n) == b
  {
    hide Rotated, Pow2;
    var p, q := Pow2(n), Pow2(32 - n);
    Pow2Of32();
    Pow2Sum(n, 32 - n);
    HighPart(b, p, q);
    RotatedParts(b / q, b % q, n);
    RotatedParts(b % q, b / q, 32 - n);
  }

  /** The outcome of an if: equal, not equal, greater, less, after masking. */
  predicate Passes(memory: Word, compare: nat, value: Word, mask: Word) {
    var masked := And(memory, mask);
    if compare == 0 then masked == value
    else if compare == 1 then masked != value
    else if compare == 2 then masked > value
    else masked < value
  }

  lemma {:induction false} FromBigEndianBound(s: seq<Byte>)
    ensures FromBigEndian(s) < Pow256(|s|)
  {
    if s != [] {
      FromBigEndianBound(s[..|s| - 1]);
    }
  }

  /** A big-endian number of at most four bytes, as a word. */
  function WordOf(s: seq<Byte>): (w: Word)
    requires |s| <= 4
    ensures w == FromBigEndian(s)
  {
    FromBigEndianBound(s);
    assert Pow256(|s|) <= 0x1_0000_0000 by {
      assert Pow256(0) == 1 && Pow256(1) == 0x100 && Pow256(2) == 0x1_0000;
      assert Pow256(3) == 0x100_0000 && Pow256(4) == 0x1_0000_0000;
    }
    FromBigEndian(s)
  }
}
