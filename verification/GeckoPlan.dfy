/**
  Running a plan for one frame (tools/gecko_coverage.py, run_plan).

  The same steps run on two memories: the flat big-endian memory of the
  console, and the native objects of GeckoTargets. The second refines the
  first on every address a supported row holds.
*/
module GeckoPlan {
  import opened Bytes
  import opened GeckoCode
  import T = GeckoTargets

  datatype Memory = Flat(cells: int -> Byte) | Native(rows: seq<T.Row>, objects: T.Objects)

  /** A frame in progress: how many ifs deep the skipping is (0: running), memory, registers. */
  datatype Machine = Machine(skip: nat, mem: Memory, regs: seq<Word>)

  ghost predicate MemoryOk(m: Memory) {
    m.Native? ==> T.ImageOk(m.rows, m.objects)
  }

  ghost predicate Reaches(m: Memory, addr: int, length: nat) {
    m.Native? ==> T.Backed(m.rows, addr, length)
  }

  function FlatLoad(cells: int -> Byte, addr: int, length: nat): (s: seq<Byte>)
    ensures |s| == length
  {
    seq(length, k requires 0 <= k < length => cells(addr + k))
  }

  function FlatStore(cells: int -> Byte, addr: int, data: seq<Byte>): int -> Byte {
    if data == [] then cells else a => if addr <= a < addr + |data| then data[a - addr] else cells(a)
  }

  ghost function Load(m: Memory, addr: int, length: nat): (s: seq<Byte>)
    requires MemoryOk(m) && Reaches(m, addr, length)
    ensures |s| == length
  {
    match m
    case Flat(cells) => FlatLoad(cells, addr, length)
    case Native(rows, objects) => T.LoadBytes(rows, objects, addr, length)
  }

  ghost function Store(m: Memory, addr: int, data: seq<Byte>): (m': Memory)
    requires MemoryOk(m) && Reaches(m, addr, |data|)
    ensures MemoryOk(m') && m'.Native? == m.Native? && (m.Native? ==> m'.rows == m.rows)
  {
    match m
    case Flat(cells) => Flat(FlatStore(cells, addr, data))
    case Native(rows, objects) => Native(rows, T.StoreBytes(rows, objects, addr, data))
  }

  ghost predicate Ready(op: Op, m: Memory) {
    && OpOk(op)
    && var (addr, length) := op.Range();
       length > 0 ==> Reaches(m, addr, length)
  }

  ghost predicate PlanReady(plan: seq<Op>, m: Memory) {
    forall i :: 0 <= i < |plan| ==> Ready(plan[i], m)
  }

  ghost predicate MachineOk(s: Machine) {
    MemoryOk(s.mem) && |s.regs| == 16
  }

  /** The skip count after an endif, which may turn the innermost open if into its else. */
  function EndIfSkip(skip: nat, count: nat, otherwise: bool): nat {
    var left := if skip > count then skip - count else 0;
    if !otherwise then left else if left == 0 then 1 else if left == 1 then 0 else left
  }

  /** What a register store writes. */
  function StoredItems(register: Word, width: nat, count: nat): seq<Byte> {
    Repeat(BigEndian(register, width), count)
  }

  lemma {:induction false} RepeatLength(item: seq<Byte>, count: nat)
    ensures |Repeat(item, count)| == |item| * count
  {
    if count > 0 {
      RepeatLength(item, count - 1);
      assert |item| * count == |item| * (count - 1) + |item|;
    }
  }

  ghost function Step(op: Op, s: Machine, fpu: Fpu): (s': Machine)
    requires MachineOk(s) && Ready(op, s.mem)
    ensures MachineOk(s') && s'.mem.Native? == s.mem.Native? && (s.mem.Native? ==> s'.mem.rows == s.mem.rows)
  {
    match op
    case DoIf(addr, width, compare, value, mask) =>
      if s.skip > 0 then s.(skip := s.skip + 1)
      else if Passes(WordOf(Load(s.mem, addr, width)), compare, value, mask) then s
      else s.(skip := 1)
    case DoEndIf(count, otherwise) => s.(skip := EndIfSkip(s.skip, count, otherwise))
    case DoEnd => s.(skip := 0)
    case _ => if s.skip > 0 then s else Work(op, s, fpu)
  }

  /** A step that runs: it changes memory or one register. */
  ghost function Work(op: Op, s: Machine, fpu: Fpu): (s': Machine)
    requires MachineOk(s) && Ready(op, s.mem) && !op.DoIf? && !op.DoEndIf? && !op.DoEnd?
    ensures MachineOk(s') && s'.skip == s.skip
    ensures s'.mem.Native? == s.mem.Native? && (s.mem.Native? ==> s'.mem.rows == s.mem.rows)
  {
    match op
    case DoWrite(addr, data) => if data == [] then s else s.(mem := Store(s.mem, addr, data))
    case GrSet(n, operand, add) => s.(regs := s.regs[n := Wrap(operand + (if add then s.regs[n] else 0))])
    case GrLoad(n, addr, width) => s.(regs := s.regs[n := WordOf(Load(s.mem, addr, width))])
    case GrStore(n, addr, width, count) =>
      RepeatLength(BigEndian(s.regs[n], width), count);
      MulPositive(width, count);
      s.(mem := Store(s.mem, addr, StoredItems(s.regs[n], width, count)))
    case GrOp(n, op, number) => s.(regs := s.regs[n := Operate(s.regs[n], number, op, fpu)])
    case GrOpGr(n, op, other) => s.(regs := s.regs[n := Operate(s.regs[n], s.regs[other], op, fpu)])
    case GrOpMem(n, op, addr) => s.(regs := s.regs[n := Operate(s.regs[n], WordOf(Load(s.mem, addr, 4)), op, fpu)])
  }

  lemma MulPositive(a: nat, b: nat)
    requires a >= 1 && b >= 1
    ensures a * b >= 1
  {}

  ghost function Run(plan: seq<Op>, s: Machine, fpu: Fpu): (s': Machine)
    requires MachineOk(s) && PlanReady(plan, s.mem)
    ensures MachineOk(s') && s'.mem.Native? == s.mem.Native? && (s.mem.Native? ==> s'.mem.rows == s.mem.rows)
  {
    if plan == [] then s
    else
      var s1 := Step(plan[0], s, fpu);
      assert PlanReady(plan[1..], s1.mem);
      Run(plan[1..], s1, fpu)
  }

  lemma {:induction false} RunAppend(a: seq<Op>, b: seq<Op>, s: Machine, fpu: Fpu)
    requires MachineOk(s) && PlanReady(a + b, s.mem)
    ensures PlanReady(a, s.mem) && PlanReady(b, Run(a, s, fpu).mem)
    ensures Run(a + b, s, fpu) == Run(b, Run(a, s, fpu), fpu)
  {
    hide Step, Ready;
    forall i | 0 <= i < |a| ensures Ready(a[i], s.mem) { assert a[i] == (a + b)[i]; }
    if a == [] {
      assert a + b == b;
    } else {
      var rest, s1 := (a + b)[1..], Step(a[0], s, fpu);
      assert rest == a[1..] + b && (a + b)[0] == a[0];
      assert PlanReady(rest, s.mem);
      ReadySame(rest, s.mem, s1.mem);
      RunAppend(a[1..], b, s1, fpu);
    }
  }

  /** `n` frames: every frame starts with no condition. */
  ghost function Frames(plan: seq<Op>, s: Machine, n: nat, fpu: Fpu): (s': Machine)
    requires MachineOk(s) && PlanReady(plan, s.mem)
    ensures MachineOk(s') && PlanReady(plan, s'.mem)
    ensures s'.mem.Native? == s.mem.Native? && (s.mem.Native? ==> s'.mem.rows == s.mem.rows)
  {
    if n == 0 then s
    else
      var s1 := Frames(plan, s, n - 1, fpu);
      ReadySame(plan, s1.mem, Run(plan, s1.(skip := 0), fpu).mem);
      Run(plan, s1.(skip := 0), fpu)
  }

  lemma ReadySame(plan: seq<Op>, m: Memory, m': Memory)
    requires PlanReady(plan, m) && m'.Native? == m.Native? && (m.Native? ==> m'.rows == m.rows)
    ensures PlanReady(plan, m')
  {
    forall i | 0 <= i < |plan|
      ensures Ready(plan[i], m')
    {
      assert Ready(plan[i], m);
    }
  }

  // ---- native objects against flat memory ----

  /** Flat memory and the native objects show the same byte at every supported address. */
  ghost predicate Agrees(native: Memory, flat: Memory) {
    && native.Native? && flat.Flat? && MemoryOk(native)
    && forall a :: T.Backed(native.rows, a, 1) ==> T.View(native.rows, native.objects, a) == flat.cells(a)
  }

  ghost predicate Refines(sn: Machine, sf: Machine) {
    MachineOk(sn) && sn.skip == sf.skip && sn.regs == sf.regs && Agrees(sn.mem, sf.mem)
  }

  lemma LoadAgrees(n: Memory, f: Memory, addr: int, length: nat)
    requires Agrees(n, f) && Reaches(n, addr, length)
    ensures Load(n, addr, length) == Load(f, addr, length)
  {
    hide T.View, T.ImageOk;
    forall k | 0 <= k < length
      ensures Load(n, addr, length)[k] == Load(f, addr, length)[k]
    {
      T.BackedByte(n.rows, addr, length, k);
    }
  }

  lemma StoreAgrees(n: Memory, f: Memory, addr: int, data: seq<Byte>)
    requires Agrees(n, f) && Reaches(n, addr, |data|)
    ensures Agrees(Store(n, addr, data), Store(f, addr, data))
  {
    hide T.View, T.ImageOk, T.StoreBytes;
    forall a | T.Backed(n.rows, a, 1)
      ensures T.View(n.rows, Store(n, addr, data).objects, a) == Store(f, addr, data).cells(a)
    {
      T.StoreIsFlat(n.rows, n.objects, addr, data, a);
    }
  }

  lemma StepRefines(op: Op, sn: Machine, sf: Machine, fpu: Fpu)
    requires Refines(sn, sf) && Ready(op, sn.mem)
    ensures Refines(Step(op, sn, fpu), Step(op, sf, fpu))
  {
    hide Load, Store, Agrees, Operate, WordOf, Passes, T.Backed, MemoryOk;
    match op
    case DoWrite(addr, data) =>
      if data != [] {
        StoreAgrees(sn.mem, sf.mem, addr, data);
      }
    case DoIf(addr, width, _, _, _) => LoadAgrees(sn.mem, sf.mem, addr, width);
    case GrLoad(_, addr, width) => LoadAgrees(sn.mem, sf.mem, addr, width);
    case GrOpMem(_, _, addr) => LoadAgrees(sn.mem, sf.mem, addr, 4);
    case GrStore(n, addr, width, count) =>
      RepeatLength(BigEndian(sn.regs[n], width), count);
      MulPositive(width, count);
      StoreAgrees(sn.mem, sf.mem, addr, StoredItems(sn.regs[n], width, count));
    case _ =>
  }

  /** A plan does to the native objects what it does to flat console memory. */
  lemma {:induction false} RunRefines(plan: seq<Op>, sn: Machine, sf: Machine, fpu: Fpu)
    requires Refines(sn, sf) && PlanReady(plan, sn.mem) && PlanReady(plan, sf.mem)
    ensures Refines(Run(plan, sn, fpu), Run(plan, sf, fpu))
  {
    hide Step, Refines;
    if plan != [] {
      assert Ready(plan[0], sn.mem);
      assert MachineOk(sn) && MachineOk(sf) by { RefinesOk(sn, sf); }
      StepRefines(plan[0], sn, sf, fpu);
      RunRefines(plan[1..], Step(plan[0], sn, fpu), Step(plan[0], sf, fpu), fpu);
    }
  }

  lemma RefinesOk(sn: Machine, sf: Machine)
    requires Refines(sn, sf)
    ensures MachineOk(sn) && MachineOk(sf) && sn.mem.Native? && sf.mem.Flat?
  {}

  lemma {:induction false} FramesRefine(plan: seq<Op>, sn: Machine, sf: Machine, n: nat, fpu: Fpu)
    requires Refines(sn, sf) && PlanReady(plan, sn.mem) && PlanReady(plan, sf.mem)
    ensures Refines(Frames(plan, sn, n, fpu), Frames(plan, sf, n, fpu))
  {
    hide Run, Agrees, PlanReady;
    assert MachineOk(sf) && sf.mem.Flat? by { RefinesOk(sn, sf); }
    if n > 0 {
      FramesRefine(plan, sn, sf, n - 1, fpu);
      RunRefines(plan, Frames(plan, sn, n - 1, fpu).(skip := 0), Frames(plan, sf, n - 1, fpu).(skip := 0), fpu);
    }
  }

  /** A register stored and loaded again at the same address comes back as its low bytes, and memory keeps them. */
  lemma StoredThenLoaded(n: nat, m: nat, addr: int, width: nat, s: Machine, fpu: Fpu)
    requires MachineOk(s) && s.mem.Flat? && s.skip == 0 && n < 16 && m < 16 && WidthOk(width)
    ensures var stored := Step(GrStore(n, addr, width, 1), s, fpu);
      Step(GrLoad(m, addr, width), stored, fpu) == stored.(regs := s.regs[m := s.regs[n] % Pow256(width)])
  {
    hide WordOf, Pow256;
    var item := BigEndian(s.regs[n], width);
    assert Repeat(item, 1) == item + Repeat(item, 0) == item;
    assert FlatLoad(FlatStore(s.mem.cells, addr, item), addr, width) == item;
    BigEndianRoundTrip(s.regs[n], width);
  }

  // ---- running a plan in place ----

  /** run_plan: the native objects and the 16 registers after one frame. */
  method RunPlan(plan: seq<Op>, image: T.NativeImage, registers: array<Word>, fpu: Fpu)
    requires image.Valid() && registers.Length == 16
    requires PlanReady(plan, Native(image.rows, image.objects))
    modifies image, registers
    ensures image.Valid()
    ensures var s := Run(plan, Machine(0, Native(image.rows, old(image.objects)), old(registers[..])), fpu);
      image.objects == s.mem.objects && registers[..] == s.regs
  {
    var skipping := 0;
    ghost var start := Machine(0, Native(image.rows, image.objects), registers[..]);
    assert plan[..0] == [];
    for i := 0 to |plan|
      invariant image.Valid()
      invariant PlanReady(plan[..i], start.mem) && PlanReady(plan, start.mem)
      invariant Run(plan[..i], start, fpu) == Machine(skipping, Native(image.rows, image.objects), registers[..])
    {
      var op := plan[i];
      ghost var s := Machine(skipping, Native(image.rows, image.objects), registers[..]);
      assert plan[..i + 1] == plan[..i] + [op];
      RunAppend(plan[..i], [op], start, fpu);
      assert Ready(op, s.mem);
      assert Run([op], s, fpu) == Step(op, s, fpu);
      skipping := Perform(op, skipping, image, registers, fpu);
    }
    assert plan[..|plan|] == plan;
  }

  /** One iteration of the loop of run_plan. */
  method Perform(op: Op, skipping: nat, image: T.NativeImage, registers: array<Word>, fpu: Fpu) returns (skip: nat)
    requires image.Valid() && registers.Length == 16
    requires Ready(op, Native(image.rows, image.objects))
    modifies image, registers
    ensures image.Valid()
    ensures Step(op, Machine(skipping, Native(image.rows, old(image.objects)), old(registers[..])), fpu)
         == Machine(skip, Native(image.rows, image.objects), registers[..])
  {
    hide Operate, WordOf, Passes, BigEndian, Repeat, T.LoadBytes, T.StoreBytes, T.ImageOk, T.Backed;
    skip := skipping;
    match op
    case DoIf(addr, width, compare, value, mask) =>
      if skipping > 0 {
        skip := skipping + 1;
      } else {
        var bytes := image.ReadBytes(addr, width);
        if !Passes(WordOf(bytes), compare, value, mask) {
          skip := 1;
        }
      }
    case DoEndIf(count, otherwise) =>
      skip := if skipping > count then skipping - count else 0;
      if otherwise {
        skip := if skip == 0 then 1 else if skip == 1 then 0 else skip;
      }
    case DoEnd => skip := 0;
    case DoWrite(addr, data) =>
      if skipping == 0 && data != [] {
        image.ApplyWrite(addr, data);
      }
    case GrSet(n, operand, add) =>
      if skipping == 0 {
        registers[n] := Wrap(operand + (if add then registers[n] else 0));
      }
    case GrLoad(n, addr, width) =>
      if skipping == 0 {
        var bytes := image.ReadBytes(addr, width);
        registers[n] := WordOf(bytes);
      }
    case GrStore(n, addr, width, count) =>
      if skipping == 0 {
        RepeatLength(BigEndian(registers[n], width), count);
        MulPositive(width, count);
        image.ApplyWrite(addr, StoredItems(registers[n], width, count));
      }
    case GrOp(n, o, number) =>
      if skipping == 0 {
        registers[n] := Operate(registers[n], number, o, fpu);
      }
    case GrOpGr(n, o, other) =>
      if skipping == 0 {
        registers[n] := Operate(registers[n], registers[other], o, fpu);
      }
    case GrOpMem(n, o, addr) =>
      if skipping == 0 {
        var bytes := image.ReadBytes(addr, 4);
        registers[n] := Operate(registers[n], WordOf(bytes), o, fpu);
      }
  }
}
