/** A code cut into its patches (tools/gecko_targets.py, code_units), against the compiler's own reading of it. */
module GeckoUnits {
  import opened GeckoCode
  import opened GeckoCompiler
  import T = GeckoTargets

  /** The type of a line without its pointer and address bits: kind & 0xEE. */
  function Masked(word: int): nat
    requires 0 <= word < 0x1_0000_0000
  {
    var kind := word / 0x100_0000;
    kind - kind % 2 - (kind / 16 % 2) * 16
  }

  /** The lines of the patch that starts with `line`, were the code long enough. */
  function UnitLines(line: Line): nat {
    var kind := Masked(line.word);
    if kind == 0xC0 || kind == 0xC2 then 1 + line.value
    else if kind == 0x06 then 1 + (line.value + 7) / 8
    else if kind == 0x08 then 2
    else 1
  }

  function Min(a: nat, b: nat): nat {
    if a < b then a else b
  }

  /** The patches of lines `i`.. of a code; the last may be cut short. */
  function Units(lines: seq<Line>, i: nat): seq<seq<Line>>
    decreases |lines| - i
  {
    if i >= |lines| then []
    else [UnitAt(lines, i, UnitLines(lines[i]))] + Units(lines, i + UnitLines(lines[i]))
  }

  function Joined(units: seq<seq<Line>>): seq<Line> {
    if units == [] then [] else units[0] + Joined(units[1..])
  }

  /** The patch that starts on line `i`. */
  function UnitAt(lines: seq<Line>, i: nat, count: nat): seq<Line>
    requires i < |lines|
  {
    lines[i..Min(|lines|, i + count)]
  }

  lemma UnitsStep(lines: seq<Line>, i: nat, units: seq<seq<Line>>)
    requires i < |lines|
    ensures var one, next := UnitAt(lines, i, UnitLines(lines[i])), i + UnitLines(lines[i]);
      && Units(lines, i) == [one] + Units(lines, next)
      && units + Units(lines, i) == (units + [one]) + Units(lines, next)
  {
    hide UnitLines, Min;
  }

  lemma UnitsDone(lines: seq<Line>, i: nat, units: seq<seq<Line>>)
    requires i >= |lines|
    ensures Units(lines, i) == [] && units + Units(lines, i) == units
  {}

  method CodeUnits(lines: seq<Line>) returns (units: seq<seq<Line>>)
    ensures units == Units(lines, 0)
  {
    hide Units, Masked, UnitAt;
    units := [];
    var i := 0;
    assert units + Units(lines, 0) == Units(lines, 0);
    while i < |lines|
      invariant units + Units(lines, i) == Units(lines, 0)
      decreases |lines| - i
    {
      var kind := Masked(lines[i].word);
      var count := 1;
      if kind == 0xC0 || kind == 0xC2 {
        count := 1 + lines[i].value;
      } else if kind == 0x06 {
        count := 1 + (lines[i].value + 7) / 8;
      } else if kind == 0x08 {
        count := 2;
      }
      assert count == UnitLines(lines[i]);
      UnitsStep(lines, i, units);
      units := units + [UnitAt(lines, i, count)];
      i := i + count;
    }
    UnitsDone(lines, i, units);
  }

  /** Cutting loses nothing and makes no empty patch. */
  lemma {:induction false} UnitsJoin(lines: seq<Line>, i: nat)
    requires i <= |lines|
    ensures Joined(Units(lines, i)) == lines[i..]
    ensures forall k :: 0 <= k < |Units(lines, i)| ==> Units(lines, i)[k] != []
    decreases |lines| - i
  {
    hide UnitLines;
    if i < |lines| {
      UnitLinesPositive(lines[i]);
      var next := i + UnitLines(lines[i]);
      if next <= |lines| {
        UnitsJoin(lines, next);
        assert lines[i..] == lines[i..next] + lines[next..];
      }
      assert Units(lines, i)[1..] == Units(lines, next);
    }
  }

  lemma UnitLinesPositive(line: Line)
    ensures UnitLines(line) >= 1
  {}

  /** The line ranges of the instructions the compiler reads from line `i` on, up to the end of the list. */
  function Spans(lines: seq<Line>, i: nat): seq<seq<Line>>
    decreases |lines| - i
  {
    if i >= |lines| || Decode(lines, i).instr.EndOfList? then []
    else [UnitAt(lines, i, Decode(lines, i).lines)] + Spans(lines, i + Decode(lines, i).lines)
  }

  /** The line on which the compiler stops reading. */
  function Stop(lines: seq<Line>, i: nat): nat
    decreases |lines| - i
  {
    if i >= |lines| || Decode(lines, i).instr.EndOfList? then i else Stop(lines, i + Decode(lines, i).lines)
  }

  predicate Readable(instr: Instr) {
    !instr.Bad? && (instr.Write? ==> !instr.body.Bad?)
  }

  /** On a line it does not refuse, the compiler takes as many lines as the patch has. */
  lemma SameLines(lines: seq<Line>, i: nat)
    requires i < |lines| && Readable(Decode(lines, i).instr)
    ensures Decode(lines, i).lines == UnitLines(lines[i]) && i + UnitLines(lines[i]) <= |lines|
  {
    hide Packed, Repeat, DecodeIf, DecodeBase, DecodeRegister;
    var word := lines[i].word;
    KindFields(word);
  }

  lemma KindFields(word: int)
    requires 0 <= word < 0x1_0000_0000
    ensures Masked(word) == Family(word) * 32 + Sub(word) * 2
    ensures Sub(word) < 8
  {
    KindSplit(word / 0x100_0000);
  }

  lemma KindSplit(kind: nat)
    ensures kind - kind % 2 - (kind / 16 % 2) * 16 == kind / 32 * 32 + kind / 2 % 8 * 2
  {
    assert kind == 2 * (kind / 2) + kind % 2;
    assert kind / 2 == 8 * (kind / 16) + kind / 2 % 8;
    assert kind / 16 == 2 * (kind / 32) + kind / 16 % 2;
  }

  lemma AcceptedIsReadable(rows: seq<T.Row>, t: Track, instr: Instr)
    requires T.Sorted(rows) && CompileInstr(rows, t, instr).Ok?
    ensures Readable(instr)
  {
    hide Check, SerialOps;
  }

  /**
    For every accepted code, the patches cut by type alone are exactly the line ranges the compiler reads its
    instructions from, as far as it reads.
  */
  lemma {:induction false} UnitsAreInstructions(rows: seq<T.Row>, lines: seq<Line>, i: nat, t: Track)
    requires T.Sorted(rows) && CompileFrom(rows, lines, i, t).Ok?
    ensures Units(lines, i) == Spans(lines, i) + Units(lines, Stop(lines, i))
    ensures i <= |lines| ==> Stop(lines, i) <= |lines|
    decreases |lines| - i
  {
    hide Decode, CompileInstr, CompileFrom, T.Sorted, UnitLines, Readable, InstrOk, UnitAt, Units;
    var none: seq<seq<Line>> := [];
    assert none + Units(lines, i) == Units(lines, i);
    if i < |lines| && !Decode(lines, i).instr.EndOfList? {
      var d := Decode(lines, i);
      CompileStep(rows, lines, i, t, []);
      AcceptedIsReadable(rows, t, d.instr);
      SameLines(lines, i);
      UnitsStep(lines, i, []);
      UnitsAreInstructions(rows, lines, i + d.lines, CompileInstr(rows, t, d.instr).value.track);
    }
  }
}
