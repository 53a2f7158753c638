/**
  How instructions are spelled as code lines, field by field. Decoding is the inverse: the reading of a line in
  tools/gecko_coverage.py loses no field and mixes up none.
*/
module GeckoEncode {
  import opened Bytes
  import opened GeckoCode

  function Bit(b: bool, value: nat): nat {
    if b then value else 0
  }

  /** The top byte of a line of a family: its type in steps of two, and the pointer bit. */
  function Head(family: nat, sub: nat, pointer: bool): nat {
    family * 0x2000_0000 + sub * 0x200_0000 + Bit(pointer, 0x1000_0000)
  }

  function SizeNibble(width: nat): nat
    requires WidthOk(width)
  {
    if width == 1 then 0 else if width == 2 then 1 else 2
  }

  // ---- what can be spelled ----

  predicate ResetSpelled(reset: Reset) {
    && (reset.ba.Some? ==> reset.ba.value % 0x1_0000 == 0 && reset.ba.value > 0)
    && (reset.po.Some? ==> reset.po.value % 0x1_0000 == 0 && reset.po.value > 0)
  }

  predicate BodySpelled(body: Body) {
    match body
    case Plain(data) => |data| < 0x1_0000_0000
    case Rounded(data) => |data| == 4
    case Serial(width, _, _, stride, count) => WidthOk(width) && stride < 0x1_0000 && 1 <= count <= 0x1000
    case Bad(_) => false
  }

  /** Instructions some line spells: all but the refused ones, each field in the range its digits have. */
  predicate Spelled(instr: Instr) {
    InstrOk(instr)
    && match instr
       case Write(_, offset, body) => offset < 0x200_0000 && BodySpelled(body)
       case If(endsOne, _, offset, width, _, value, mask) =>
         offset < 0x200_0000 && (endsOne <==> offset % 2 == 1)
         && (if width == 4 then mask == 0xFFFF_FFFF else value < 0x1_0000 && mask < 0x1_0000)
       case StoreBase(_, operand) => operand.relative
       case RegStore(_, _, _, count) => count <= 0x1000
       case RegOpMem(_, _, operand) => operand.relative
       case EndAll(reset) => ResetSpelled(reset)
       case EndIfs(_, _, reset) => ResetSpelled(reset)
       case Bad(_) => false
       case _ => true
  }

  // ---- spelling ----

  /** Byte `k` of the data, or 0 past its end. */
  function ByteAt(data: seq<Byte>, k: nat): Byte {
    if k < |data| then data[k] else 0
  }

  function FourAt(data: seq<Byte>, k: nat): (w: Word) {
    ByteAt(data, k) * 0x100_0000 + ByteAt(data, k + 1) * 0x1_0000 + ByteAt(data, k + 2) * 0x100 + ByteAt(data, k + 3)
  }

  /** Data from byte `k` on, eight bytes a line, the last line filled up with 0. */
  function Rows(data: seq<Byte>, k: nat): seq<Line>
    decreases |data| - k
  {
    if k >= |data| then [] else [Line(FourAt(data, k), FourAt(data, k + 4))] + Rows(data, k + 8)
  }

  function SpellBody(pointer: bool, offset: nat, body: Body): (lines: seq<Line>)
    requires BodySpelled(body) && offset < 0x200_0000
  {
    match body
    case Plain(data) => [Line(Head(0, 3, pointer) + offset, |data|)] + Rows(data, 0)
    case Rounded(data) => [Line(Head(0, 2, pointer) + offset, FourAt(data, 0))]
    case Serial(width, value, step, stride, count) =>
      [Line(Head(0, 4, pointer) + offset, value),
        Line(SizeNibble(width) * 0x1000_0000 + (count - 1) * 0x1_0000 + stride, step)]
    case Bad(_) => []
  }

  function ResetWord(reset: Reset): Word
    requires ResetSpelled(reset)
  {
    (if reset.ba.Some? then reset.ba.value else 0) + (if reset.po.Some? then reset.po.value / 0x1_0000 else 0)
  }

  function Spell(instr: Instr): seq<Line>
    requires Spelled(instr)
  {
    match instr
    case EndOfList => [Line(0xF000_0000, 0)]
    case Write(pointer, offset, body) => SpellBody(pointer, offset, body)
    case If(_, pointer, offset, width, compare, value, mask) =>
      [Line(Head(1, if width == 4 then compare else compare + 4, pointer) + offset,
            if width == 4 then value else (0xFFFF - mask) * 0x1_0000 + value)]
    case SetBase(toPointer, add, o) =>
      [Line(Head(2, if toPointer then 5 else 1, o.pointer) + Bit(add, 0x10_0000) + Bit(o.relative, 0x1_0000), o.value)]
    case StoreBase(fromPointer, o) => [Line(Head(2, if fromPointer then 6 else 2, o.pointer) + 0x1_0000, o.value)]
    case RegSet(n, o, add) =>
      [Line(Head(4, 0, o.pointer) + Bit(add, 0x10_0000) + Bit(o.relative, 0x1_0000) + n, o.value)]
    case RegLoad(n, o, width) =>
      [Line(Head(4, 1, o.pointer) + SizeNibble(width) * 0x10_0000 + Bit(o.relative, 0x1_0000) + n, o.value)]
    case RegStore(n, o, width, count) =>
      [Line(Head(4, 2, o.pointer) + SizeNibble(width) * 0x10_0000 + Bit(o.relative, 0x1_0000) + (count - 1) * 16 + n,
        o.value)]
    case RegOp(n, op, number) => [Line(Head(4, 3, false) + op * 0x10_0000 + n, number)]
    case RegOpReg(n, op, other) => [Line(Head(4, 4, false) + op * 0x10_0000 + n, other)]
    case RegOpMem(n, op, o) => [Line(Head(4, 3, o.pointer) + op * 0x10_0000 + 0x2_0000 + n, o.value)]
    case EndAll(reset) => [Line(0xE000_0000, ResetWord(reset))]
    case EndIfs(count, otherwise, reset) => [Line(0xE200_0000 + Bit(otherwise, 0x10_0000) + count, ResetWord(reset))]
    case Bad(_) => []
  }

  // ---- decoding undoes it ----

  lemma {:induction false} RowsLength(data: seq<Byte>, k: nat)
    requires k % 8 == 0
    ensures |Rows(data, k)| == if k >= |data| then 0 else (|data| - k + 7) / 8
    decreases |data| - k
  {
    if k < |data| {
      RowsLength(data, k + 8);
    }
  }

  lemma FourBytes(b0: Byte, b1: Byte, b2: Byte, b3: Byte)
    ensures BigEndian(b0 * 0x100_0000 + b1 * 0x1_0000 + b2 * 0x100 + b3, 4) == [b0, b1, b2, b3]
  {
    var v := b0 * 0x100_0000 + b1 * 0x1_0000 + b2 * 0x100 + b3;
    assert v / 256 == b0 * 0x1_0000 + b1 * 0x100 + b2 && v % 256 == b3;
    assert v / 256 / 256 == b0 * 0x100 + b1 && v / 256 % 256 == b2;
    assert v / 256 / 256 / 256 == b0 && v / 256 / 256 % 256 == b1;
    assert BigEndian(b0, 1) == BigEndian(0, 0) + [b0] == [b0];
    assert BigEndian(v / 256 / 256, 2) == [b0] + [b1] == [b0, b1];
    assert BigEndian(v / 256, 3) == [b0, b1] + [b2] == [b0, b1, b2];
  }

  lemma FourAtBytes(data: seq<Byte>, k: nat)
    ensures BigEndian(FourAt(data, k), 4)
      == [ByteAt(data, k), ByteAt(data, k + 1), ByteAt(data, k + 2), ByteAt(data, k + 3)]
  {
    hide ByteAt;
    FourBytes(ByteAt(data, k), ByteAt(data, k + 1), ByteAt(data, k + 2), ByteAt(data, k + 3));
  }

  /** The bytes are those of the data from byte `k` on, and 0 past its end. */
  predicate Carries(s: seq<Byte>, data: seq<Byte>, k: nat) {
    forall j :: 0 <= j < |s| ==> s[j] == ByteAt(data, k + j)
  }

  /** The rows of a string, packed again, hold its bytes. */
  lemma {:induction false} PackedRows(lines: seq<Line>, from: nat, data: seq<Byte>, k: nat)
    requires k % 8 == 0 && from <= |lines| && lines[from..] == Rows(data, k)
    ensures k <= |data| ==> |lines| - from == (|data| - k + 7) / 8
    ensures Carries(Packed(lines, from, |lines| - from), data, k)
    decreases |data| - k
  {
    hide ByteAt, FourAt;
    RowsLength(data, k);
    if k < |data| {
      assert lines[from..][0] == lines[from] && lines[from..][1..] == lines[from + 1..];
      PackedRows(lines, from + 1, data, k + 8);
      FourAtBytes(data, k);
      FourAtBytes(data, k + 4);
      var s, rest := Packed(lines, from, |lines| - from), Packed(lines, from + 1, |lines| - (from + 1));
      var word := lines[from];
      assert word == Line(FourAt(data, k), FourAt(data, k + 4));
      var first := BigEndian(word.word, 4) + BigEndian(word.value, 4);
      assert s == first + rest;
      forall j | 0 <= j < |s|
        ensures s[j] == ByteAt(data, k + j)
      {
        if j >= 8 {
          assert s[j] == rest[j - 8];
          assert rest[j - 8] == ByteAt(data, k + 8 + (j - 8));
        } else {
          assert s[j] == first[j];
          assert j < 4 ==> first[j] == BigEndian(FourAt(data, k), 4)[j];
          assert j >= 4 ==> first[j] == BigEndian(FourAt(data, k + 4), 4)[j - 4];
        }
      }
    }
  }

  lemma KindFields(family: nat, sub: nat, p: nat, low: nat)
    requires family < 8 && sub < 8 && p < 2 && low < 2
    ensures var kind := family * 32 + p * 16 + sub * 2 + low;
      kind / 32 == family && kind / 2 % 8 == sub && kind / 16 % 2 == p && kind % 2 == low
  {
    var kind := family * 32 + p * 16 + sub * 2 + low;
    assert kind / 2 == family * 16 + p * 8 + sub;
    assert kind / 16 == family * 2 + p;
  }

  lemma WordParts(kind: nat, rest: nat)
    requires kind < 0x100 && rest < 0x100_0000
    ensures var word := kind * 0x100_0000 + rest;
      word / 0x100_0000 == kind && word % 0x200_0000 == kind % 2 * 0x100_0000 + rest && word % 2 == rest % 2
  {
    var word := kind * 0x100_0000 + rest;
    assert word == kind / 2 * 0x200_0000 + (kind % 2 * 0x100_0000 + rest);
  }

  /** The fields of a first word, from its digits. */
  lemma Fields(family: nat, sub: nat, pointer: bool, rest: nat)
    requires family < 8 && sub < 8 && rest < 0x200_0000
    ensures var word := Head(family, sub, pointer) + rest;
      && word < 0x1_0000_0000
      && Family(word) == family && Sub(word) == sub && FromPointer(word) == pointer && Low25(word) == rest
      && word % 2 == rest % 2 && Kind(word) == family * 32 + Bit(pointer, 16) + sub * 2 + rest / 0x100_0000
  {
    var low, p := rest / 0x100_0000, if pointer then 1 else 0;
    KindFields(family, sub, p, low);
    WordParts(family * 32 + p * 16 + sub * 2 + low, rest % 0x100_0000);
    assert Head(family, sub, pointer) + rest == (family * 32 + p * 16 + sub * 2 + low) * 0x100_0000 + rest % 0x100_0000;
  }

  lemma WriteDecodes(pointer: bool, offset: nat, body: Body)
    requires offset < 0x200_0000 && BodySpelled(body) && !body.Plain?
    ensures var lines := SpellBody(pointer, offset, body);
      Decode(lines, 0) == Decoded(Write(pointer, offset, body), |lines|)
  {
    hide Head, Kind, Family, Sub, Low25, FromPointer, FourAt;
    if body.Rounded? {
      Fields(0, 2, pointer, offset);
      FourAtBytes(body.data, 0);
      assert body.data == BigEndian(FourAt(body.data, 0), 4);
    } else {
      Fields(0, 4, pointer, offset);
    }
  }

  /** A string write of any data: its lines, packed and cut to the length, are the data. */
  lemma StringDecodes(pointer: bool, offset: nat, data: seq<Byte>)
    requires offset < 0x200_0000 && |data| < 0x1_0000_0000
    ensures var lines := SpellBody(pointer, offset, Plain(data));
      Decode(lines, 0) == Decoded(Write(pointer, offset, Plain(data)), |lines|)
  {
    hide Head, Kind, Family, Sub, Low25, FromPointer, Rows, Packed, ByteAt;
    var lines := SpellBody(pointer, offset, Plain(data));
    Fields(0, 3, pointer, offset);
    RowsLength(data, 0);
    assert lines[1..] == Rows(data, 0);
    PackedRows(lines, 1, data, 0);
    var s := Packed(lines, 1, |lines| - 1);
    forall j | 0 <= j < |data|
      ensures s[j] == data[j]
    {
      ByteInside(data, j);
    }
    assert s[..|data|] == data;
  }

  lemma ByteInside(data: seq<Byte>, j: nat)
    requires j < |data|
    ensures ByteAt(data, j) == data[j]
  {}

  lemma IfDecodes(instr: Instr)
    requires instr.If? && Spelled(instr)
    ensures Decode(Spell(instr), 0) == Decoded(instr, 1)
  {
    hide Head, Kind, Family, Sub, Low25, FromPointer;
    Fields(1, if instr.width == 4 then instr.compare else instr.compare + 4, instr.pointer, instr.offset);
  }

  /** Flag digits of a base or register line: its 25 low bits are digits and nothing else. */
  lemma Digits(head: nat, high: nat, second: nat, low: nat)
    requires head % 0x200_0000 == 0 && high < 16 && second < 16 && low < 0x1_0000
    ensures var word := head + high * 0x10_0000 + second * 0x1_0000 + low;
      && word / 0x10_0000 % 16 == high && word / 0x1_0000 % 16 == second
      && word % 16 == low % 16 && word / 16 % 0x1000 == low / 16 && word / 0x1000 % 2 == low / 0x1000 % 2
  {
    var h := head / 0x200_0000;
    var m := 16 * (32 * h + high) + second;
    LowHalf(m, low);
    HighDigits(32 * h + high, second);
    HighDigits(2 * h, high);
    assert head + high * 0x10_0000 + second * 0x1_0000 + low == m * 0x1_0000 + low;
  }

  lemma LowHalf(m: nat, low: nat)
    requires low < 0x1_0000
    ensures var word := m * 0x1_0000 + low;
      && word / 0x1_0000 == m && word / 0x10_0000 == m / 16
      && word % 16 == low % 16 && word / 16 % 0x1000 == low / 16 && word / 0x1000 % 2 == low / 0x1000 % 2
  {
    var word := m * 0x1_0000 + low;
    ModUnique(word, 0x1_0000, m, low);
    ModUnique(word, 0x10_0000, m / 16, m % 16 * 0x1_0000 + low);
    var rest, page := low / 16, low / 0x1000;
    ModUnique(word, 16, 0x1000 * m + rest, low % 16);
    ModUnique(0x1000 * m + rest, 0x1000, m, rest);
    ModUnique(word, 0x1000, 16 * m + page, low % 0x1000);
    ModUnique(16 * m + page, 2, 8 * m + page / 2, page % 2);
  }

  lemma HighDigits(high: nat, second: nat)
    requires second < 16
    ensures (16 * high + second) / 16 == high && (16 * high + second) % 16 == second
  {
    ModUnique(16 * high + second, 16, high, second);
  }

  lemma HeadWhole(family: nat, sub: nat, pointer: bool)
    ensures Head(family, sub, pointer) % 0x200_0000 == 0
  {
    assert Head(family, sub, pointer) == 0x200_0000 * (family * 16 + sub + Bit(pointer, 8));
  }

  lemma BaseDecodes(instr: Instr)
    requires (instr.SetBase? || instr.StoreBase?) && Spelled(instr)
    ensures Decode(Spell(instr), 0) == Decoded(instr, 1)
  {
    hide Head, Kind, Family, Sub, Low25, FromPointer, Decode, DecodeBase, Bit12, Bit16, Bit20;
    var o := instr.operand;
    var sub := if instr.SetBase? then (if instr.toPointer then 5 else 1) else (if instr.fromPointer then 6 else 2);
    var high, second := if instr.SetBase? && instr.add then 1 else 0, if o.relative then 1 else 0;
    Fields(2, sub, o.pointer, high * 0x10_0000 + second * 0x1_0000);
    HeadWhole(2, sub, o.pointer);
    Digits(Head(2, sub, o.pointer), high, second, 0);
    assert Spell(instr)[0].word == Head(2, sub, o.pointer) + high * 0x10_0000 + second * 0x1_0000;
    assert Spell(instr) == [Spell(instr)[0]];
    BaseFamily(Spell(instr)[0]);
    BaseFromDigits(instr, Spell(instr)[0], sub, high, second);
  }

  lemma BaseFamily(line: Line)
    requires Family(line.word) == 2
    ensures Decode([line], 0) == Decoded(DecodeBase(line), 1)
  {
    hide DecodeBase;
  }

  /** A base line is read from its type and flag digits alone. */
  lemma BaseFromDigits(instr: Instr, line: Line, sub: nat, high: nat, second: nat)
    requires (instr.SetBase? || instr.StoreBase?) && Spelled(instr) && line.value == instr.operand.value
    requires Sub(line.word) == sub && FromPointer(line.word) == instr.operand.pointer
    requires sub == if instr.SetBase? then (if instr.toPointer then 5 else 1) else (if instr.fromPointer then 6 else 2)
    requires high == (if instr.SetBase? && instr.add then 1 else 0) && second == if instr.operand.relative then 1 else 0
    requires line.word / 0x10_0000 % 16 == high && line.word / 0x1_0000 % 16 == second && line.word / 0x1000 % 2 == 0
    ensures DecodeBase(line) == instr
  {
    hide Sub, FromPointer, Bit12, Bit16, Bit20;
    FlagBit(line.word / 0x10_0000, high);
    FlagBit(line.word / 0x1_0000, second);
    FlagsAre(line.word);
  }

  lemma FlagBit(v: nat, digit: nat)
    requires v % 16 == digit && digit < 2
    ensures v % 2 == digit
  {
    ModUnique(v, 2, 8 * (v / 16), digit);
  }

  lemma FlagsAre(word: Word)
    ensures Bit20(word) <==> word / 0x10_0000 % 2 == 1
    ensures Bit16(word) <==> word / 0x1_0000 % 2 == 1
    ensures Bit12(word) <==> word / 0x1000 % 2 == 1
  {}

  lemma RegisterDecodes(instr: Instr, sub: nat, pointer: bool, high: nat, second: nat, low: nat)
    requires Spelled(instr) && sub < 5 && high < 16 && second < 16 && low < 0x1_0000
    requires instr.RegSet? || instr.RegLoad? || instr.RegStore? || instr.RegOp? || instr.RegOpReg? || instr.RegOpMem?
    requires (sub, pointer, high, second, low) == RegisterDigits(instr)
    ensures Decode(Spell(instr), 0) == Decoded(instr, 1)
  {
    hide Head, Kind, Family, Sub, Low25, FromPointer, Decode, DecodeRegister;
    Fields(4, sub, pointer, high * 0x10_0000 + second * 0x1_0000 + low);
    HeadWhole(4, sub, pointer);
    Digits(Head(4, sub, pointer), high, second, low);
    assert Spell(instr)[0].word == Head(4, sub, pointer) + high * 0x10_0000 + second * 0x1_0000 + low;
    assert Spell(instr) == [Spell(instr)[0]];
    RegisterFamily(Spell(instr)[0]);
    RegisterFromDigits(instr, Spell(instr)[0], sub, pointer, high, second, low);
  }

  lemma RegisterFamily(line: Line)
    requires Family(line.word) == 4
    ensures Decode([line], 0) == Decoded(DecodeRegister(line), 1)
  {
    hide DecodeRegister;
  }

  /** A register line is read from its type and digits alone. */
  lemma RegisterFromDigits(instr: Instr, line: Line, sub: nat, pointer: bool, high: nat, second: nat, low: nat)
    requires Spelled(instr)
    requires instr.RegSet? || instr.RegLoad? || instr.RegStore? || instr.RegOp? || instr.RegOpReg? || instr.RegOpMem?
    requires (sub, pointer, high, second, low) == RegisterDigits(instr) && line.value == Spell(instr)[0].value
    requires Sub(line.word) == sub && FromPointer(line.word) == pointer
    requires line.word / 0x10_0000 % 16 == high && line.word / 0x1_0000 % 16 == second
    requires line.word % 16 == low % 16 && line.word / 16 % 0x1000 == low / 16
    ensures DecodeRegister(line) == instr
  {
    hide Head, Sub, FromPointer;
  }

  /** The type, the pointer bit, two flag digits and the low half of a register line. */
  function RegisterDigits(instr: Instr): (nat, bool, nat, nat, nat)
    requires Spelled(instr)
    requires instr.RegSet? || instr.RegLoad? || instr.RegStore? || instr.RegOp? || instr.RegOpReg? || instr.RegOpMem?
  {
    match instr
    case RegSet(n, o, add) => (0, o.pointer, Bit(add, 1), Bit(o.relative, 1), n)
    case RegLoad(n, o, width) => (1, o.pointer, SizeNibble(width), Bit(o.relative, 1), n)
    case RegStore(n, o, width, count) => (2, o.pointer, SizeNibble(width), Bit(o.relative, 1), (count - 1) * 16 + n)
    case RegOp(n, op, _) => (3, false, op, 0, n)
    case RegOpReg(n, op, _) => (4, false, op, 0, n)
    case RegOpMem(n, op, o) => (3, o.pointer, op, 2, n)
  }

  lemma ResetDecodes(reset: Reset)
    requires ResetSpelled(reset)
    ensures ResetOf(ResetWord(reset)) == reset
  {
    var high := if reset.ba.Some? then reset.ba.value / 0x1_0000 else 0;
    var low := if reset.po.Some? then reset.po.value / 0x1_0000 else 0;
    assert ResetWord(reset) == high * 0x1_0000 + low && low < 0x1_0000;
  }

  lemma EndDecodes(instr: Instr)
    requires (instr.EndAll? || instr.EndIfs?) && Spelled(instr)
    ensures Decode(Spell(instr), 0) == Decoded(instr, 1)
  {
    hide ResetOf, ResetWord;
    ResetDecodes(instr.reset);
    if instr.EndIfs? {
      EndDigits(instr.count, instr.otherwise);
    }
  }

  lemma EndDigits(count: nat, otherwise: bool)
    requires count < 32
    ensures var word := 0xE200_0000 + Bit(otherwise, 0x10_0000) + count;
      word % 32 == count && Bit20(word) == otherwise && Kind(word) == 0xE2
  {}

  /**
    Decoding inverts spelling: every instruction the compiler can accept, with any values in its fields, is read back
    from its lines as it is.
  */
  lemma SpelledIsRead(instr: Instr)
    requires Spelled(instr)
    ensures Decode(Spell(instr), 0) == Decoded(instr, |Spell(instr)|)
  {
    hide Decode, Head, RegisterDigits;
    match instr
    case EndOfList => EndOfListDecodes();
    case Write(pointer, offset, body) =>
      if body.Plain? {
        StringDecodes(pointer, offset, body.data);
      } else {
        WriteDecodes(pointer, offset, body);
      }
    case If(_, _, _, _, _, _, _) => IfDecodes(instr);
    case SetBase(_, _, _) => BaseDecodes(instr);
    case StoreBase(_, _) => BaseDecodes(instr);
    case EndAll(_) => EndDecodes(instr);
    case EndIfs(_, _, _) => EndDecodes(instr);
    case _ => RegisterLineDecodes(instr);
  }

  lemma EndOfListDecodes()
    ensures Decode(Spell(EndOfList), 0) == Decoded(EndOfList, 1)
  {}

  lemma RegisterLineDecodes(instr: Instr)
    requires Spelled(instr)
    requires instr.RegSet? || instr.RegLoad? || instr.RegStore? || instr.RegOp? || instr.RegOpReg? || instr.RegOpMem?
    ensures Decode(Spell(instr), 0) == Decoded(instr, 1)
  {
    var (sub, pointer, high, second, low) := RegisterDigits(instr);
    hide Decode, Head;
    RegisterDecodes(instr, sub, pointer, high, second, low);
  }

  lemma FillFields(x: nat, count: nat)
    requires x < 0x1_0000 && 1 <= count <= 0x1_0000
    ensures var value := (count - 1) * 0x1_0000 + x;
      value / 0x1_0000 + 1 == count && value % 0x1_0000 == x && (x < 0x100 ==> value % 0x100 == x)
        && value < 0x1_0000_0000
  {
    var value := (count - 1) * 0x1_0000 + x;
    ModUnique(value, 0x1_0000, count - 1, x);
    if x < 0x100 {
      ModUnique(value, 0x100, (count - 1) * 0x100, x);
    }
  }

  /** The two fill types: one byte, or one half-word, written `count` times. */
  lemma ByteFillIsRead(pointer: bool, offset: nat, byte: Byte, count: nat)
    requires offset < 0x200_0000 && 1 <= count <= 0x1_0000
    ensures (count - 1) * 0x1_0000 + byte < 0x1_0000_0000
    ensures Decode([Line(Head(0, 0, pointer) + offset, (count - 1) * 0x1_0000 + byte)], 0)
         == Decoded(Write(pointer, offset, Plain(Repeat([byte], count))), 1)
  {
    hide Head, Kind, Family, Sub, Low25, FromPointer, Repeat, BigEndian;
    Fields(0, 0, pointer, offset);
    FillFields(byte, count);
  }

  lemma HalfFillIsRead(pointer: bool, offset: nat, half: nat, count: nat)
    requires offset < 0x200_0000 && half < 0x1_0000 && 1 <= count <= 0x1_0000
    ensures (count - 1) * 0x1_0000 + half < 0x1_0000_0000
    ensures Decode([Line(Head(0, 1, pointer) + offset, (count - 1) * 0x1_0000 + half)], 0)
         == Decoded(Write(pointer, offset, Plain(Repeat(BigEndian(half, 2), count))), 1)
  {
    hide Head, Kind, Family, Sub, Low25, FromPointer, Repeat, BigEndian, Decode;
    Fields(0, 1, pointer, offset);
    FillFields(half, count);
    HalfFamily(Line(Head(0, 1, pointer) + offset, (count - 1) * 0x1_0000 + half));
  }

  lemma HalfFamily(line: Line)
    requires Family(line.word) == 0 && Sub(line.word) == 1
    ensures Decode([line], 0)
         == Decoded(Write(FromPointer(line.word), Low25(line.word),
           Plain(Repeat(BigEndian(line.value % 0x1_0000, 2), line.value / 0x1_0000 + 1))), 1)
  {
    hide Family, Sub, Low25, FromPointer, Repeat, BigEndian;
  }

  // ---- and nothing else is read ----

  lemma {:induction false} FillLength(item: seq<Byte>, count: nat)
    ensures |Repeat(item, count)| == if |item| == 1 then count else if |item| == 2 then 2 * count
      else |Repeat(item, count)|
  {
    if count > 0 {
      FillLength(item, count - 1);
    }
  }

  lemma ResetIsSpelled(value: Word)
    ensures ResetSpelled(ResetOf(value))
  {
    ModUnique(value / 0x1_0000 * 0x1_0000, 0x1_0000, value / 0x1_0000, 0);
    ModUnique(value % 0x1_0000 * 0x1_0000, 0x1_0000, value % 0x1_0000, 0);
  }

  lemma OffsetParity(word: Word)
    ensures Low25(word) < 0x200_0000 && (word % 2 == Low25(word) % 2)
  {
    ModUnique(word, 2, 0x100_0000 * (word / 0x200_0000) + Low25(word) / 2, Low25(word) % 2);
  }

  lemma WriteIsSpelled(lines: seq<Line>, i: nat)
    requires i < |lines| && !DecodeWrite(lines, i).instr.body.Bad?
    ensures Spelled(DecodeWrite(lines, i).instr)
  {
    hide Repeat, Packed, BigEndian, Sub;
    var Line(word, value) := lines[i];
    OffsetParity(word);
    FillLength([value % 0x100], value / 0x1_0000 + 1);
    FillLength(BigEndian(value % 0x1_0000, 2), value / 0x1_0000 + 1);
  }

  lemma IfIsSpelled(line: Line)
    ensures Spelled(DecodeIf(line))
  {
    hide Sub, Low25;
    OffsetParity(line.word);
  }

  lemma RegisterIsSpelled(line: Line)
    requires !DecodeRegister(line).Bad?
    ensures Spelled(DecodeRegister(line))
  {
    hide Sub;
  }

  /** What the compiler reads without refusing the line is always an instruction that can be spelled. */
  lemma ReadIsSpelled(lines: seq<Line>, i: nat)
    requires i < |lines| && !Decode(lines, i).instr.Bad?
    requires Decode(lines, i).instr.Write? ==> !Decode(lines, i).instr.body.Bad?
    ensures Spelled(Decode(lines, i).instr)
  {
    hide DecodeWrite, DecodeIf, DecodeRegister, ResetOf, ResetSpelled, Sub, Bit20;
    var line := lines[i];
    IfIsSpelled(line);
    ResetIsSpelled(line.value);
    if Family(line.word) == 0 {
      WriteIsSpelled(lines, i);
    } else if Family(line.word) == 4 && !DecodeRegister(line).Bad? {
      RegisterIsSpelled(line);
    }
  }
}
