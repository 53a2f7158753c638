# Models and proofs for Melee Unlocked

This project models the parts of Melee Unlocked whose correctness rests on an argument rather than on one
function body, and proves that argument. `dafny verify dfyconfig.toml` checks all of it.

**Gecko codes on the Source Port.** `tools/gecko_coverage.py` reads a code line by line, works out every address
while compiling, and emits a flat plan; `run_plan` runs the plan each frame with one skip counter. The console's
handler does none of that: it keeps the base address, the pointer and one condition bit per open if while it runs,
and works on flat big-endian memory. The plan's reads and writes land in native objects in host order, through the
byte permutation `native_offset` of `tools/gecko_targets.py`.

- `Bytes`, `GeckoCode`: words, byte orders, lines, the instructions they spell, the steps of a plan, `operate`.
- `GeckoEncode`: how instructions are spelled as lines; decoding is the inverse.
- `GeckoCompiler`: what each instruction compiles to given what is known of the two registers, and the class that
  does it in place.
- `GeckoHandler`: the console's handler as an independent interpreter of the same lines.
- `GeckoBlocks`: which codes compile and what is known, said with the open blocks themselves.
- `GeckoBits`: what the register operations do to the bits of a word.
- `GeckoPlan`: plans on flat memory and on native objects, and `run_plan` in place.
- `GeckoCorrect`: the compiler preserves meaning. The relation kept between two lines is: the register is 2^k - 1 for
  skip counter k; k is at most the compile-time depth, or exactly one above it inside an orphan else; and each known
  value holds at run time whenever k <= depth - set_at, or always when it was set outside every if.
- `GeckoSkip`, `GeckoWidth`: exactly when the two counters are right, and codes that go wrong when they are not.
- `GeckoUnits`: the patches a code is cut into are the compiler's instructions.
- `GeckoTargets`, `GeckoTable`: finding rows, accepting writes, the mirrored bytes, the native image, the finished
  table.
- `StructLayout`, `StructRows`: the console's struct layout and the rows a struct-typed object is offered as,
  proved against what its type says each console byte is.
- `StructNames`: when the names that spell offsets are right, said of the paths from an object to its members.
- `StructSlots`: a struct offered whole says of each byte what its members say.
- `StructMoves`: when rows joined on the console move together natively.

The main theorem has one condition, `Sound`, read off the lines. An orphan else is one that finds no open if after its
endifs: `close_to` leaves depth 0 while `run_plan` starts skipping, until an endif too many, another such else or a
terminator. While one is skipped, no line outside every if may set the base or the pointer; and no more ifs may be open
(one more inside an orphan else) than the condition register has bits.

- `GeckoSkip.OrphanElseDiffers` gives a code that sets the pointer there, and the byte that goes wrong.
- `GeckoWidth.TooManyIfsDiffer` gives one with an if too many, for every width, and the byte that goes wrong.
- Codes whose elses all have an open if are sound (`GeckoSkip.NestedIsSound`), and so are codes that set neither
  register (`GeckoSkip.NoSetsAreClear`). The console's register has 32 bits; with more bits than lines only the
  condition on orphan elses is left (`GeckoSkip.WideIsSound`).
- `GeckoSkip.DepthSoundExactly` says exactly when the compile-time depth bounds the skip counter.

The comment on joined rows (tools/gecko_targets.py:893-897) relies on neighbours aligned to 4 or less, while the code
tests for the width 8. The two differ for a struct that holds an array of no 8-byte elements.
`StructMoves.JoinedRunParts` gives a body that walk joins into a row whose members do not move together;
`StructMoves.JoinedRunMoves` and `StructMoves.LayoutShowsAlign` say exactly when they do.

**The lobby server.** `LobbyState` gives every action of `lobby/server.py` as a function of the four tables and the
messages; a refused action returns the tables it leaves behind. `LobbyInvariant` proves what every call keeps,
`LobbyRuns` what holds over whole runs, `LobbyParties` who may do what and what it leaves, and `LobbyServer` is the
class that changes the tables in place.

**The save card** (`CardCipher`, `CardSector`), **the tiled texture decoder** (`Texture`, `TexturePacking`),
**animation curves** (`AnimationTrack`, over the reals) and **the fault proxy** (`FaultPlan`, `FaultQueue`, `FaultRuns`) each carry one
theorem about their whole input: the chained cipher is invertible, the nested loops equal a closed form, a Hermite
segment is exact on cubics, and copies are conserved and overtake within a bound.

Words are integers below 2^32 with every wrap written out. Where a method works in place, its contract ties the new
state to a function of the old one, and the lemmas are about that function.

## Model

| member | source | states |
|---|---|---|
| `GeckoCorrect.NativeMatchesHandler` | tools/gecko_coverage.py:383-424 | the whole stack, for every accepted and sound code, every start memory and any number of frames: run on the native objects, the plan leaves at every supported address the byte the console handler leaves in flat memory, the same 16 registers, and the handler itself changed no byte outside the supported rows |
| `GeckoCorrect.PlanMatchesHandler` | tools/gecko_coverage.py:184-220 | the compiler preserves meaning: the plan with its fixed addresses and one skip counter ends every frame with the memory and registers of a handler that tracks base address, pointer and one bit per open if at run time |
| `GeckoCorrect.CodeSimulates` | tools/gecko_coverage.py:383-424 | the same from any line on, from any state in which what is known about base and pointer holds whenever skip count <= depth - set_at, or always when set outside every if, inside a skipped orphan else too |
| `GeckoCorrect.LineSimulates` | tools/gecko_coverage.py:253-326 | each accepted line keeps that relation, skipped or not; every family of lines goes through its own lemma |
| `GeckoCorrect.KnownRegistersAreExact` | tools/gecko_coverage.py:166-182 | constant propagation is sound: after any number of lines of any sound code, whenever lines really execute a base or pointer the compiler holds is the run-time value |
| `GeckoCorrect.ForgetHolds` | tools/gecko_coverage.py:166-172 | closing ifs, and turning the innermost into its else, forgets every value that may have been set in a block that ended; what it keeps still holds, and the counter stays at most the depth, or exactly one above it while an orphan else is skipped |
| `GeckoCorrect.RegisterStep` | tools/gecko_coverage.py:386-406 | the skip counter refines the condition register: 2^k - 1 is kept by every if, every multi-endif, every else (inside a skipped outer block too), while at most `bits` ifs are skipped |
| `GeckoSkip.RegisterTracksExactly` | tools/gecko_coverage.py:386-406 | on a whole run of a plan the register of `bits` bits holds 2^skip - 1 at every point if and only if no more than `bits` ifs are ever skipped at once |
| `GeckoWidth.TooManyIfsDiffer` | tools/gecko_coverage.py:386-404 | past the width of the register meaning is lost: a code with one if too many, for every width of the register, every address an if may read and every byte that may be written: it is accepted, the handler writes the byte, the plan does not, whatever memory holds |
| `GeckoWidth.IfsPart` | tools/gecko_coverage.py:386-397 | each of its ifs fails whatever memory holds, so the counter grows while the register fills up to its width and no further |
| `GeckoWidth.EndsPart` | tools/gecko_coverage.py:399-404 | its endifs empty the register and leave the counter at 1 |
| `GeckoSkip.DepthBoundsExactly` | tools/gecko_coverage.py:166-172 | on every run of a plan the compile-time depth bounds the run-time skip count if and only if every else has an open if left after its endifs |
| `GeckoSkip.SameElses` | tools/gecko_coverage.py:209-213 | the condition on the plan and the condition on the code's own lines are the same one, for every accepted code |
| `GeckoSkip.DepthSoundExactly` | tools/gecko_coverage.py:166-172 | for every accepted code and every start memory, the compile-time depth bounds the skip count on the run if and only if no else of the code is an orphan |
| `GeckoSkip.EnoughBits` | tools/gecko_coverage.py:209-213 | with a register that has a bit for every line, being nested is that condition on elses alone |
| `GeckoSkip.OrphanSetIsWrong` | tools/gecko_coverage.py:274-281 | a line that sets base or pointer, outside every if where an orphan else is skipped, to something else than was known leaves the compiler with a value the register does not have, on every run and whatever memory holds |
| `GeckoSkip.OrphanSetStaysWrong` | tools/gecko_coverage.py:166-172 | ... and the next endif lets lines run with it |
| `GeckoSkip.NestedIsSound` | tools/gecko_coverage.py:166-172 | a code in which every else still has an open if meets the condition of the main theorem |
| `GeckoSkip.WideIsSound` | tools/gecko_coverage.py:166-172 | with a register wider than the code is long, that condition is only that no base or pointer is set outside every if where an orphan else is skipped |
| `GeckoSkip.NoSetsAreClear` | tools/gecko_coverage.py:166-172 | a code that sets neither needs no condition on its elses |
| `GeckoSkip.OrphanIsNotSound` | tools/gecko_coverage.py:166-172 | the code below does not meet it |
| `GeckoSkip.OrphanCompiles` | tools/gecko_coverage.py:166-172 | a code with an orphan else whose pointer, set inside it, is wrongly taken as known: it is accepted and its plan writes there |
| `GeckoSkip.OrphanElseDiffers` | tools/gecko_coverage.py:403-404 | why it is needed: for every supported address and byte, that plan writes the byte there and the handler does not |
| `GeckoCompiler.AcceptedPlansAreConfined` | tools/gecko_coverage.py:133-162 | every read and write an accepted plan can make lies in game memory and wholly inside one supported row |
| `GeckoBlocks.CompilesExactly` | tools/gecko_coverage.py:184-220 | exactly which codes compile: those with lines, every one that is reached readable, counting from no register whose block has ended, and making only accesses that may be made; blocks are numbered as ifs open, elses replace and endifs end them |
| `GeckoBlocks.KnownExactly` | tools/gecko_coverage.py:166-182 | forgetting is exact: after any lines the compiler takes, it knows a register if and only if it was last set outside every if or in a block that is still open, and what it knows is what it was set to |
| `GeckoBlocks.LineExactly` | tools/gecko_coverage.py:222-326 | each line is taken exactly when it may be, and keeps the compiler's view and the open blocks in step |
| `GeckoBlocks.Forgotten` | tools/gecko_coverage.py:166-172 | close_to forgets exactly the registers whose block ends |
| `GeckoCompiler.CheckExact` | tools/gecko_coverage.py:133-153 | an access is accepted if and only if it lies in game memory and, unless empty, one supported row holds all of it |
| `GeckoCompiler.CheckClass` | tools/gecko_coverage.py:133-153 | which refusal an access meets: outside game memory first, then by the last row that starts at or before it |
| `GeckoCorrect.FramesKeepTheRest` | tools/gecko_coverage.py:383-424 | over any number of frames a confined plan leaves every address outside the supported rows as it was |
| `GeckoCompiler.Compiler.Compile` | tools/gecko_coverage.py:184-220 | the in-place compiler returns the specified plan or the specified refusal, and records that the code reads exactly when a step of its plan reads |
| `GeckoCompiler.Compiler.CompileLine` | tools/gecko_coverage.py:190-219 | each line changes the plan, the two known registers, their if-depths and the read flag as specified, or is refused with the same reason |
| `GeckoCompiler.Compiler.WriteLine` | tools/gecko_coverage.py:222-251 | types 00 to 0E: fills, strings, serial writes, each item checked on its own; never a read |
| `GeckoCompiler.Compiler.SerialLine` | tools/gecko_coverage.py:240-248 | the serial loop emits the items in order up to the first refused one |
| `GeckoCompiler.Compiler.IfLine` | tools/gecko_coverage.py:253-265 | types 20 to 2E: the endif of an odd address comes first and may forget what the line counts from |
| `GeckoCompiler.Compiler.BaseLine` | tools/gecko_coverage.py:267-293 | types 40 to 4E: a register is set at the current depth, or stored as a checked 32-bit write; an unknown one is refused |
| `GeckoCompiler.Compiler.RegisterLine` | tools/gecko_coverage.py:295-326 | types 80 to 88: one step each, its address known and checked, marked as reading when it reads |
| `GeckoCompiler.Compiler.Close` | tools/gecko_coverage.py:166-172 | both registers are forgotten or kept by the same rule, and the depth becomes the ifs left open |
| `GeckoCompiler.Compiler.ResetTo` | tools/gecko_coverage.py:174-182 | a nonzero half of a terminator's second word makes that register known, outside every if |
| `GeckoCompiler.Compiler.Write` | tools/gecko_coverage.py:155-158 | a write is checked first; an empty one adds no step |
| `GeckoCompiler.Compiler.Read` | tools/gecko_coverage.py:160-162 | a read is checked first; only an accepted one sets the flag |
| `GeckoCode.Decode` | tools/gecko_coverage.py:184-219 | every line decodes to an instruction whose fields are in range, and takes at least one line |
| `GeckoCode.DecodeWrite` | tools/gecko_coverage.py:222-251 | a write line that is not refused takes only lines the code has |
| `GeckoEncode.SpelledIsRead` | tools/gecko_coverage.py:184-326 | the reading of lines, shared by compiler and handler, mixes up no field: every instruction spelled as lines digit by digit, with any values, is read back as it is, string data of any length included |
| `GeckoEncode.ReadIsSpelled` | tools/gecko_coverage.py:184-326 | and conversely whatever is read without refusing the line is an instruction that can be spelled, each field in its range |
| `GeckoEncode.StringDecodes` | tools/gecko_coverage.py:229-235 | a string write of any data: its lines packed eight bytes at a time and cut to the length are the data |
| `GeckoEncode.ByteFillIsRead` | tools/gecko_coverage.py:225-226 | a byte fill writes the byte `count` times |
| `GeckoEncode.HalfFillIsRead` | tools/gecko_coverage.py:227-228 | a half-word fill writes the half-word `count` times |
| `GeckoCode.RotationUndone` | tools/gecko_coverage.py:348-380 | the rotation of `operate` loses no bit: rotating on by the rest of the 32 gives the word back |
| `GeckoBits.SumAndProduct` | tools/gecko_coverage.py:353-356 | operations 0 and 1 are sum and product up to multiples of 2^32 |
| `GeckoBits.LogicBits` | tools/gecko_coverage.py:357-362 | operations 2, 3 and 4, bit by bit |
| `GeckoBits.OrAndXor` | tools/gecko_coverage.py:357-362 | or and and share out the sum of the words, exclusive or is their difference |
| `GeckoBits.LeftShiftBits` | tools/gecko_coverage.py:363-364 | operation 5 moves each bit of the operand up by the low five bits of the register, and gives 0 when register bit 0x20 is set |
| `GeckoBits.RightShiftBits` | tools/gecko_coverage.py:365-366 | operation 6 moves each bit down by as much, and gives 0 when register bit 0x20 is set |
| `GeckoBits.RotatedBits` | tools/gecko_coverage.py:367-369 | operation 7: the bits that leave at the top come in at the bottom |
| `GeckoBits.RotationIsTwoShifts` | tools/gecko_coverage.py:367-369 | so it is the or of operation 5 by n and operation 6 by 32 - n |
| `GeckoBits.SignedShiftBits` | tools/gecko_coverage.py:370-372 | operation 8 moves each bit down, 31 at most, the sign filling in from the top |
| `GeckoBits.OneTestPasses` | tools/gecko_coverage.py:393-395 | exactly one of equal, greater and less passes, and not equal is the opposite of equal |
| `GeckoBits.TestsCompare` | tools/gecko_coverage.py:393-395 | greater still passes against a smaller value and less against a larger one; unmasked they compare the word itself |
| `GeckoPlan.RunPlan` | tools/gecko_coverage.py:383-424 | one frame in place, on the native objects and an array of 16 registers, is the specified run of the plan |
| `GeckoPlan.Perform` | tools/gecko_coverage.py:387-424 | one iteration of its loop is the specified step: skip counter, memory and registers, and nothing else |
| `GeckoPlan.RunRefines` | tools/gecko_coverage.py:383-424 | a plan does to the native objects what it does to flat big-endian memory, reads, tests and registers included |
| `GeckoPlan.FramesRefine` | tools/gecko_coverage.py:383-424 | ... over any number of frames |
| `GeckoPlan.StoreAgrees` | tools/gecko_targets.py:1012-1016 | a store keeps native objects and flat memory in agreement at every supported address |
| `GeckoPlan.LoadAgrees` | tools/gecko_targets.py:1019-1022 | a load gives the same bytes from both |
| `GeckoPlan.RunAppend` | tools/gecko_coverage.py:383-424 | running two plans one after the other is running their concatenation, the skip counter carried over |
| `GeckoPlan.StoredThenLoaded` | tools/gecko_coverage.py:412-418 | a register stored and loaded again comes back as its low bytes, for each width |
| `Bytes.BigEndianRoundTrip` | tools/gecko_coverage.py:412-418 | a number written big-endian in some bytes and read back keeps exactly those low bytes |
| `Bytes.MultipleIsZeroRemainder` | tools/gecko_targets.py:475-478 | a whole number of elements means a remainder of 0 |
| `GeckoUnits.CodeUnits` | tools/gecko_targets.py:1054-1071 | the loop cuts a code into the specified patches |
| `GeckoUnits.UnitsJoin` | tools/gecko_targets.py:1054-1071 | the patches joined again are the code, and none is empty |
| `GeckoUnits.UnitsAreInstructions` | tools/gecko_targets.py:1054-1071 | for every accepted code the patches are exactly the line ranges the compiler reads its instructions from, up to the end of the list, although the cutter looks at the type byte alone |
| `GeckoTargets.NativeOffset` | tools/gecko_targets.py:965-976 | the two loops compute the position native_offset means, period by period and element by element |
| `GeckoTargets.NativeInvolution` | tools/gecko_targets.py:965-976 | native_offset undoes itself, for any layout |
| `GeckoTargets.NativeStaysInside` | tools/gecko_targets.py:965-976 | in an object of whole periods no byte leaves the object |
| `GeckoTargets.MirrorElement` | tools/gecko_targets.py:968-975 | byte j of an element of width w sits at byte w - 1 - j of the same element |
| `GeckoTargets.ElementIsLittleEndian` | tools/gecko_targets.py:965-976 | every multi-byte element is held little-endian natively: both orders spell the same number |
| `GeckoTargets.FindSupported` | tools/gecko_targets.py:979-984 | bisection finds a supported row from each of its addresses, whatever refused rows overlap it |
| `GeckoTargets.CheckWriteExact` | tools/gecko_targets.py:987-1009 | a write is accepted if and only if one supported row holds all of it, and that row is the one found |
| `GeckoTargets.CheckWriteClass` | tools/gecko_targets.py:979-1009 | exactly what a write is answered, from the last row that starts at or before its address |
| `GeckoTargets.DropOverlaps` | tools/gecko_targets.py:944-949 | exactly the supported neighbours that overlap are refused; afterwards no row starts inside a supported row before it |
| `GeckoTargets.StoreIsFlat` | tools/gecko_targets.py:1012-1016 | the native objects behave as one flat big-endian memory: after a write every supported address shows the written byte or its old one, across rows |
| `GeckoTargets.NativeImage.ApplyWrite` | tools/gecko_targets.py:1012-1016 | the byte-by-byte loop changes the objects to that, and keeps them well formed |
| `GeckoTargets.NativeImage.ReadBytes` | tools/gecko_targets.py:1019-1022 | the loop returns the big-endian bytes of that memory |
| `GeckoTable.Build` | tools/gecko_targets.py:938-960 | the overlap pass followed by the expansion of walked objects yields a sound table: sorted, supported rows clear of all later ones, each of whole periods |
| `GeckoTable.TableHolds` | tools/gecko_targets.py:938-960 | the same for every prefix of the symbols, which stays clear of the symbols still to come |
| `GeckoTable.WalkedByteIsFound` | tools/gecko_targets.py:979-984 | in the finished table a byte of a walked object is decided by that object's own rows alone |
| `GeckoTable.TypedByteIsFound` | tools/gecko_targets.py:868-984 | from type to table: every console byte of a kept object is found at the mirrored place of the element its type puts there, padding is harmless, and what the type refuses is refused |
| `GeckoTable.Classify` | tools/gecko_targets.py:484-500 | a struct-typed object keeps its rows if and only if its size matches, its offset names fit, its rows are few enough and one is supported; the rows kept are those of PiecesOf; else it is refused, as Layout when size or names are wrong, otherwise as Pointers when one of few enough rows holds pointers and as Layout when not |
| `GeckoTable.PiecesInside` | tools/gecko_targets.py:868-935 | the rows walk produces are what a table takes for one object |
| `GeckoTable.TypedTable` | tools/gecko_targets.py:938-960 | the whole way in one run: the table is the one of the classified symbols, it is sound, and every byte of every struct-typed object that is offered and overlaps no neighbour is found as its type calls for |
| `GeckoTable.OfferedIsKept` | tools/gecko_targets.py:944-955 | an object that is offered and overlaps no neighbour keeps its rows in the table |
| `GeckoTable.CoveredIsBacked` | tools/gecko_targets.py:987-1009 | whatever one row of such an object holds can be written or read at once |
| `GeckoTable.NeighboursAreBacked` | tools/gecko_targets.py:892-912 | why walk joins: an access across neighbouring members, of any object of an array of structs, is accepted |
| `StructLayout.Aggregate` | tools/gecko_targets.py:812-864 | the console layout of every body: None exactly when it cannot be read; a struct's members and bitfields lie as LaidOut says, which is one layout only, and its size is the last end rounded up; a union's size is its largest member rounded up; unions and disc structs keep their size alone; provable exactly when every field is an ordinary provable one, and then padded widths |
| `StructLayout.MaxAlignExactly` | tools/gecko_targets.py:816-845 | the alignment is the least that serves every field: 1, or that of some field |
| `StructLayout.MaxExtentExactly` | tools/gecko_targets.py:849 | a union is as large as its largest member and no larger |
| `StructLayout.LayoutIsUnique` | tools/gecko_targets.py:825-850 | LaidOut determines the layout: the same body has the same members and the same place for every bitfield |
| `StructLayout.HomesExactly` | tools/gecko_targets.py:825-848 | two fields share a member exactly when everything from one to the other is a bitfield: one refused member for each maximal run, one member for each other field |
| `StructLayout.EveryMemberIsAHome` | tools/gecko_targets.py:825-850 | no member is there that no field asked for |
| `StructLayout.FirstFitIsFirst` | tools/gecko_targets.py:834-837 | a bitfield that fits its unit goes to the first free bit at which it does not straddle a unit of its own type |
| `StructLayout.BitsStart` | tools/gecko_targets.py:832-837 | in a layout every bitfield has its declared width and unit, starts inside its run's member, straddles no unit, and follows the one before it in the run |
| `StructLayout.BitsEnd` | tools/gecko_targets.py:819-838 | ... and ends inside the bytes of that member |
| `StructLayout.BitfieldsApart` | tools/gecko_targets.py:825-848 | bitfields declared one after the other lie one after the other, across runs as well |
| `StructLayout.PlaceBits` | tools/gecko_targets.py:826-839 | one more bitfield opens a run at the current byte or lengthens the open one, and keeps the layout |
| `StructLayout.Finish` | tools/gecko_targets.py:851-864 | the node of a body whose fields have all been placed |
| `StructLayout.WidthsSum` | tools/gecko_targets.py:856-863 | the padded widths of provable members sum to the end of the last member |
| `StructLayout.CloseRun` | tools/gecko_targets.py:819-823 | a run of bitfields becomes one refused member from its first byte to its last, named after its first bitfield |
| `StructMoves.RelocationKeepsDistances` | tools/gecko_targets.py:892-900 | members aligned to 4 or less, placed from a start moved by a multiple of 4, keep all their distances and the total extent |
| `StructMoves.TightIsStarts` | tools/gecko_targets.py:846-849 | members in a row of a layout are placed by those starts, from the first one's own offset |
| `StructMoves.JoinedRunMoves` | tools/gecko_targets.py:892-900 | when neighbours may be offered as one row: members of a struct whose widths hold no 8, moved natively by multiples of 4, keep all their distances (and their total extent) if and only if each shows its alignment in its widths |
| `StructMoves.StartsAreAligned` | tools/gecko_targets.py:846 | wherever members are placed from, each lands at its own alignment: why one aligned to 8 cannot move by 4 |
| `StructMoves.LayoutShowsAlign` | tools/gecko_targets.py:825-863 | a provable struct shows its alignment if and only if it is 4 or less or some field that has elements has an 8-byte one; so it does when no field is an array of no elements |
| `StructMoves.WidthsHold` | tools/gecko_targets.py:856-863 | a width above 1 is in the padded widths if and only if a member that has elements has it |
| `StructSlots.PaddedSlots` | tools/gecko_targets.py:856-863 | a provable struct offered whole says of each byte what its members say: the element of the member that holds it, at the place inside that member, and a single byte in every gap |
| `StructMoves.EmptyArrayHidesAlign` | tools/gecko_targets.py:825-864 | an array of no doubles hides it: the one layout of such a struct has alignment 8 and widths without an 8 |
| `StructMoves.JoinedRunParts` | tools/gecko_targets.py:924-935 | a body that walk joins and that does not move together: a pointer, a char, and a struct of no doubles and an int; the char and the struct are one row, 4 bytes from start to start on the console and 8 when moved by 4 |
| `StructMoves.EightByteElementsMove` | tools/gecko_targets.py:924-930 | with an 8-byte element they need not: why those never join |
| `StructRows.Rows` | tools/gecko_targets.py:868-887 | for any nesting of structs and arrays: the rows are those of PiecesOf, or nothing exactly when a name that spells an offset is wrong; they ascend, are disjoint, stay inside the object and have whole periods; and every console byte goes to the native place its own type gives it, is padding, or is refused |
| `StructRows.Walk` | tools/gecko_targets.py:889-935 | the same for one struct, anonymous members included, member by member as WalkTo places them |
| `StructNames.RowsExactly` | tools/gecko_targets.py:889-916 | exactly when an object has rows: for every path of array elements and members that leads from it down to a member named after an offset, some object on the path starts exactly so many bytes before the member |
| `StructNames.NamesExactly` | tools/gecko_targets.py:868-926 | the same with objects around it |
| `StructRows.NeighboursShareARow` | tools/gecko_targets.py:892-912 | neighbouring members less than 4 bytes apart, each with one supported row without an 8, are one row of the object, from the first byte of the first to the last byte of the last |
| `StructRows.MemberCovered` | tools/gecko_targets.py:913-935 | whatever a member's own row holds, a row of the whole object holds |
| `StructRows.ObjectCovered` | tools/gecko_targets.py:876-887 | in an array the same holds of every object |
| `StructRows.MemberRows` | tools/gecko_targets.py:914-926 | one member's rows, when its name and the names in it fit |
| `StructRows.Place` | tools/gecko_targets.py:919-934 | one member's rows join the open run, start a new one after a flush, or are final at once |
| `StructRows.Flush` | tools/gecko_targets.py:892-912 | a run is offered as one row: its widths are the members' repeated, single bytes between |
| `StructRows.JoinedMap` | tools/gecko_targets.py:905-910 | in a joined run native_offset agrees with each member's own native_offset shifted by its position, and fixes the padding between |
| `StructRows.JoinedFacts` | tools/gecko_targets.py:892-912 | the joined row has whole periods, spans the run, and maps every byte as its members do |
| `StructRows.MemberJoins` | tools/gecko_targets.py:924-935 | a member that joins the open run keeps every byte placed so far correct, run and finished rows together |
| `LobbyRuns.InvariantAlways` | lobby/server.py:67-231 | after every call of every run with a nondecreasing clock, refused calls included: sessions match accounts; ids and connect codes are unique; requests are a matching between different online players, both visible while pending; friendship is symmetric, irreflexive, duplicate-free; incoming requests are at most 100, duplicate-free and never from friends; at most 100 messages are kept |
| `LobbyInvariant.CallKeeps` | lobby/server.py:67-231 | one call keeps all of that, whatever it answers |
| `LobbyRuns.LookupsAlwaysSucceed` | lobby/server.py:138-227 | on no run does accept miss its peer, or poll or a friend action the account of its session |
| `LobbyParties.OnlyTheInvitedAccepts` | lobby/server.py:194-230 | on every run: if a challenge was given a request id, and no other since the same, any later accept of it that succeeds comes from the session of the player the challenge named; the request becomes accepted for two minutes and both players busy |
| `LobbyParties.RequestRemembered` | lobby/server.py:194-213 | as long as a request is there it is the one its challenge made, from its caller to the player it named |
| `LobbyParties.AcceptExactly` | lobby/server.py:217-230 | accept succeeds exactly for the invited player of a waiting request while both are free, and changes nothing else |
| `LobbyParties.ChallengeExactly` | lobby/server.py:194-213 | a challenge succeeds exactly between two free, ready, visible players of one build with no request of theirs, at most once in three seconds; it adds one pending request from the caller to the player named, good for 30 seconds |
| `LobbyParties.CancelExactly` | lobby/server.py:214-221 | either player cancels a waiting request, and only that |
| `LobbyParties.OneRequest` | lobby/server.py:67-231 | in every call a request changes only when the player it invites accepts it, and ends only by one of its two players, by a sweep or by one going offline |
| `LobbyParties.SweepExactly` | lobby/server.py:44-54 | a sweep keeps exactly the sessions heard of in the last 20 seconds and the requests with time left and both players |
| `LobbyParties.SessionLives` | lobby/server.py:44-54 | a session heard of within 20 seconds stays unless it goes offline itself |
| `LobbyParties.FriendshipNeedsBoth` | lobby/server.py:150-177 | friendship begins only when one of the two accepts what the other asked; a request comes in only when its sender asks |
| `LobbyParties.AskExactly` | lobby/server.py:155-161 | whose list an ask enters, and when it is refused |
| `LobbyParties.AcceptFriendExactly` | lobby/server.py:162-171 | accepting succeeds exactly when asked; both lists of both accounts afterwards |
| `LobbyParties.EndFriendExactly` | lobby/server.py:162-176 | declining and unfriending take out exactly the other account |
| `LobbyParties.ChatExactly` | lobby/server.py:178-187 | chat succeeds exactly for a visible player with a readable text a second or more after the last; that message is then the last one |
| `LobbyRuns.AtMostTenPerWindow` | lobby/server.py:95-100 | over any run any 60-second window holds at most 10 joins let through from one address |
| `LobbyRuns.RunRemembers` | lobby/server.py:44-54 | ... because the remembered list is always the recent end of all admitted joins and what sweeps forgot is a window old |
| `LobbyRuns.CurrentAfterCall` | lobby/server.py:44-54 | after a call no session silent for 20 seconds at its sweep and no request expired by then is left |
| `LobbyRuns.AdmitsExactly` | lobby/server.py:95-98 | on every run the limiter lets a join through exactly when fewer than ten joins of its address were let through in the last 60 seconds and fewer than 256 players are online, whatever sweeps have forgotten |
| `LobbyInvariant.SweepKeeps` | lobby/server.py:44-54 | a sweep restores the matching when sessions have gone but requests still name them: it drops exactly the requests without both players |
| `LobbyInvariant.BefriendKeeps` | lobby/server.py:150-177 | every friend action keeps both accounts in order and friendship symmetric between them |
| `LobbyInvariant.JoinKeeps` | lobby/server.py:95-126 | a join keeps the invariant at every one of its exits, after it has already counted the attempt |
| `LobbyInvariant.PresenceKeeps` | lobby/server.py:76-94 | presence keeps it, the exits after a session has been created included |
| `LobbyInvariant.ChallengeKeeps` | lobby/server.py:194-213 | a new request joins two visible players who are in no other |
| `LobbyInvariant.AcceptKeeps` | lobby/server.py:222-230 | accepting keeps the matching |
| `LobbyInvariant.LeaveKeeps` | lobby/server.py:128-133 | leaving ends the pending requests that need the player visible |
| `LobbyInvariant.OfflineKeeps` | lobby/server.py:134-137 | going offline ends them through the second sweep |
| `LobbyServer.Lobby.Call` | lobby/server.py:67-231 | the in-place lobby: a call leaves its tables valid and gives exactly the specified tables and answer |
| `LobbyServer.Lobby.DropStale` | lobby/server.py:44-54 | the three loops of a sweep, over tables that change as they go, compute the specified sweep |
| `LobbyServer.Lobby.OnPresence` | lobby/server.py:76-94 | tables and answer as specified, at each exit; whoever has an account has a session seen now afterwards, refused or not, and who is in an accepted request is busy |
| `LobbyServer.Lobby.OnLeave` | lobby/server.py:128-133 | the session stays out of sight, and no request of its player is pending any more |
| `LobbyServer.Lobby.OnAvailable` | lobby/server.py:188-193 | the player is not busy and in no request any more |
| `LobbyServer.Lobby.OnCancel` | lobby/server.py:214-221 | only a pending request of the player is ended, and it is gone |
| `LobbyServer.Lobby.OnJoin` | lobby/server.py:95-126 | tables and answer as specified, at each exit |
| `LobbyServer.Lobby.OnFriend` | lobby/server.py:150-177 | two accounts updated in turn as specified |
| `LobbyServer.Lobby.OnChat` | lobby/server.py:178-187 | rate limit, append and truncation as specified: at most 100 messages are kept, an accepted one is the last, a refused one changes none |
| `LobbyServer.Lobby.OnChallenge` | lobby/server.py:194-213 | every refusal in its order, then one request |
| `LobbyServer.Lobby.OnAccept` | lobby/server.py:222-230 | every refusal in its order; then both players busy and the request accepted |
| `LobbyServer.Lobby.EndRequests` | lobby/server.py:130-132 | the loop that deletes while iterating deletes exactly the requests of one player |
| `CardCipher.ByteRoundTrip` | tools/card_save_semantic_diff.py:22-52 | for every previous byte decrypt_byte is a bijection of the current byte |
| `CardSector.ChainRoundTrip` | tools/card_save_semantic_diff.py:55-61 | the chain has a unique inverse at any length |
| `CardSector.OneByteSpreads` | tools/card_save_semantic_diff.py:57-61 | changing one ciphertext byte changes that decoded byte and at most the next |
| `CardSector.ChecksumNeighboursDiffer` | tools/card_save_semantic_diff.py:62-68 | adjacent bytes of a computed checksum always differ |
| `CardSector.SumsExactly` | tools/card_save_semantic_diff.py:62-65 | sum j is its start byte and every body byte at places j modulo 16, and no other |
| `CardSector.SpreadExactly` | tools/card_save_semantic_diff.py:66-68 | the first sum stays; each other one is kept, or inverted when it equals the one before it as that came out |
| `CardSector.ChecksumExactly` | tools/card_save_semantic_diff.py:62-68 | so every byte of a checksum from the column sums |
| `CardSector.SectorRoundTrip` | tools/card_save_semantic_diff.py:55-71 | sealing and opening are inverse both ways: accepted sectors and bodies correspond one to one |
| `CardSector.ChecksumTamperNoticed` | tools/card_save_semantic_diff.py:69-70 | changing any checksum byte but the last, which seeds the chain, is always noticed |
| `CardSector.DecryptSector` | tools/card_save_semantic_diff.py:55-71 | the in-place decoder, its checksum loops and its comparison compute that opening |
| `CardSector.NewerExactly` | tools/card_save_semantic_diff.py:95-102 | the wrapping comparison exactly, and true in exactly one direction for any two different bytes |
| `CardSector.NewerInWindow` | tools/card_save_semantic_diff.py:95-102 | within 127 steps of a common base, newer means further from the base |
| `CardSector.NewestCopy` | tools/card_save_semantic_diff.py:132-135 | the selection loop returns the first of the newest, for candidates within 127 steps of any common base |
| `CardSector.NewerCanCycle` | tools/card_save_semantic_diff.py:95-102 | wider apart the comparison can run in a circle, so the bound is needed |
| `CardSector.ChangedRanges` | tools/card_save_semantic_diff.py:170-182 | the ranges hold exactly the differing positions, are not empty, and never touch |
| `Texture.DecodeTexture` | native/Texture.h:12-65 | for every size and format: succeeds exactly when the size is allowed and every texel of every block decodes; then every pixel is the one its closed-form block and index give, and exactly ceil(w/bw) * ceil(h/bh) blocks have been consumed |
| `Texture.DecodeBlock` | native/Texture.h:45-61 | one block of the row-by-row formats writes exactly its own pixels inside the image |
| `Texture.DecodeBlock14` | native/Texture.h:34-44 | a compressed block, in four sub-blocks, writes exactly its own pixels |
| `Texture.Store` | native/Texture.h:20 | a store outside the image changes nothing, one inside changes that pixel only |
| `Texture.ExpandStretches` | native/Texture.h:6 | a channel is stretched from its own range over all of 0 to 255, strictly, so no two values meet |
| `Texture.BlockColorsBetween` | native/Texture.h:36-42 | the colours of a compressed block lie between its two ends, code 2 nearer the first; only code 3 without c0 > c1 is transparent |
| `Texture.BlockColorsExact` | native/Texture.h:36-42 | codes 0 and 1 are the ends, 2 and 3 thirds of the way rounded down, or half way |
| `TexturePacking.ShapeFollowsBits` | native/Texture.h:30-32 | the shape and the bytes of a block follow from the bits of a texel: its texels fill it exactly |
| `TexturePacking.TexelReads` | native/Texture.h:45-60 | for every format but the compressed one, a texel of a block packed from texels is read back as what it stands for: nibble order, byte order, planes and channels are as packed |
| `TexturePacking.EveryBlockIsPacked` | native/Texture.h:45-61 | every content of a block is the packing of some texels: different texels read different bits and together they read all of them (format 10 leaves two bits of each unread) |
| `TexturePacking.PaletteReads` | native/Texture.h:21-29 | a palette lookup gives what the entry stands for, or fails past the last |
| `TexturePacking.CompressedReads` | native/Texture.h:34-44 | a texel of a compressed block has the colour of its own code in its own quarter |
| `TexturePacking.EveryQuarter` | native/Texture.h:34-44 | any 8 bytes are some quarter: two colours and 16 codes |
| `TexturePacking.TiledPixel` | native/Texture.h:30-61 | in an image packed block by block every pixel is what its own texel stands for |
| `TexturePacking.ColorIs` | native/Texture.h:7-11 | the 16-bit colours, channel by channel |
| `TexturePacking.EverySample` | native/Texture.h:45-60 | every number a texel can be is some texel |
| `Texture.LevelBytesIsConsumed` | tools/companion_texture_diagnostic.py:136-139 | for formats 8 and 9 the size formula of the packer is what the decoder consumes |
| `AnimationTrack.SampleUsesTheSegment` | native/AnimationTrack.h:36-46 | the search picks the one segment that contains the frame |
| `AnimationTrack.SegmentExists` | native/AnimationTrack.h:23-42 | every frame inside an accepted track is in some segment |
| `AnimationTrack.EndValues` | native/AnimationTrack.h:43-52 | a constant segment holds its first value; every segment starts at its first, the others end at their last |
| `AnimationTrack.SampleOutside` | native/AnimationTrack.h:37-39 | before the track its first value is held, from its end on its last |
| `AnimationTrack.LinearIsExact` | native/AnimationTrack.h:46-47 | a linear segment is its line throughout |
| `AnimationTrack.HermiteIsExact` | native/AnimationTrack.h:48-52 | a Hermite segment whose end values and slopes come from any cubic is that cubic throughout |
| `AnimationTrack.CubicMatches` | native/AnimationTrack.h:48-52 | every Hermite segment comes from one |
| `AnimationTrack.SplitKeepsTheCurve` | native/AnimationTrack.h:36-53 | splitting any segment anywhere inside leaves every sample of the track unchanged |
| `FaultPlan.Direction.Plan` | tools/net_fault_proxy.py:62-86 | packet n reads draws 5n to 5n + 4 whatever was decided before; delays and counters are those of its fate |
| `FaultPlan.FatesByPosition` | tools/net_fault_proxy.py:62-86 | a stream of packets that draw in turn, each where the one before stopped: packet k has the fate its five draws and its outage flag give |
| `FaultPlan.FatesDoNotShift` | tools/net_fault_proxy.py:62-86 | so in two runs over one stream packet k fares alike whatever was decided for the packets before it, and a packet lost under a milder chance is lost under a harsher |
| `FaultPlan.SpreadIsReached` | tools/net_fault_proxy.py:77-85 | the bound below is reached: any smaller gap has draws with which the later packet leaves first, when the delay covers the jitter and neither loss nor holding back is certain |
| `FaultPlan.CountedBalances` | tools/net_fault_proxy.py:68-86 | every packet adds to received - lost - blacked out + doubled exactly the copies it schedules |
| `FaultPlan.DelaysBetween` | tools/net_fault_proxy.py:77-85 | every delay lies between two bounds no further apart than the hold plus twice the jitter |
| `FaultQueue.Proxy.ReleaseDue` | tools/net_fault_proxy.py:161-171 | the release loop, with its forwarded counters, is the specified release |
| `FaultQueue.Proxy.Take` | tools/net_fault_proxy.py:188-200 | one packet: the clock starts, an address is learned or a stranger ignored, copies are counted and queued as specified |
| `FaultQueue.Proxy.Push` | tools/net_fault_proxy.py:198-200 | each copy gets the next number |
| `FaultRuns.CopiesAreConserved` | tools/net_fault_proxy.py:161-200 | over every run, in each direction, copies released and still queued are together received - lost - blacked out + doubled; none is released twice; no more are forwarded than released |
| `FaultRuns.ReleasedCarriesItsPacket` | tools/net_fault_proxy.py:161-200 | on every run a released copy carries the data of a packet that arrived on its own side from the one game known there |
| `FaultRuns.CopiesFromArrivals` | tools/net_fault_proxy.py:188-200 | every copy queued was made of one arrival from the known game: its side, its data, its time |
| `FaultRuns.GameStays` | tools/net_fault_proxy.py:192-196 | no event changes the address of a game once it is known |
| `FaultRuns.OvertakingIsBounded` | tools/net_fault_proxy.py:161-200 | a later packet overtakes only if it arrived less than the hold plus twice the jitter after the other |
| `FaultRuns.InArrivalOrder` | tools/net_fault_proxy.py:161-171 | without jitter and holding back, each direction is released in the order its copies arrived, although both share one queue |
| `FaultRuns.NoSpreadExactly` | tools/net_fault_proxy.py:77-81 | exactly which settings that is |
| `FaultRuns.ReleasedWhenDue` | tools/net_fault_proxy.py:161-171 | a release takes nothing before its time and leaves nothing due behind |
| `FaultRuns.InvAlways` | tools/net_fault_proxy.py:161-200 | the invariant behind them: the queue sorted, numbers consecutive, delays within bounds, every earlier release ordered before what is left |

## Left out

Gecko codes:

- The wording of refusals: a refusal keeps its class, and the kind of the row it names, not the text or the name of the symbol (`code_line` looks a symbol up only for its text).
- Operations 9 and 10 of `operate` are two unknown functions of two words, shared by plan and handler: rounding is not modelled.
- The handler is written from the comments of tools/gecko_coverage.py and covers the lines the compiler accepts; port/slippi_sys/codehandler.bin itself is not part of this model.
- One code at a time, as the source states: what one code leaves behind for the next on the console is not modelled.
- Native objects are byte sequences by name: that two supported rows never share native storage is the assumption `ImageOk`, and the reader and writer callbacks of `run_plan` are those of the native image.
- Names of rows, C expressions, sections and headers, the rest of `classify` and `check_headers`: a symbol arrives with its kind and layout, or with the struct type it is of.
- StructMoves.JoinedRunMoves: native placement is the console's rule from a start moved by a multiple of 4, as the comment has it; the native compiler itself is not modelled.
- GeckoTable.Build: keeps ranges, kinds and layouts only; declarations and include lists are not carried.
- Parsing of symbols.txt, C headers and code lists, all reports, `legacy_refusal`, `judge`; the hash and the built-in keys of a patch.
- StructLayout.Aggregate: starts from members already parsed, with nonnegative counts, and bitfields of the simple integer types; a bit width is any number.

Lobby:

- HTTP, UDP, SQLite and token generation: ids, tokens and request ids are inputs, assumed unused when handed out; `save` does nothing.
- `sync` is presence followed by poll; poll looks up the account of its session; its answer and the public views of players are not modelled.
- LobbyServer.Lobby.OnJoin: the fields of a join arrive already checked one by one; the order in which the checks and the table changes happen is kept.
- The `busy` flag as an invariant, a cap on friends, and a cap on online players: the code keeps none of them (rejoining resets `busy`, accepting does not look at the friend limit, presence passes the limit of 256).

The rest:

- Texture.DecodeTexture: starts from the width, height, format, data and palette words already read from the descriptor; a palette header is read once. An unsupported format or a read outside the archive is the same None.
- IEEE rounding and finiteness in the animation code: curves are over the reals.
- AnimationTrack.SplitKeepsTheCurve: splitting is not an operation of the source; it states what exactness on cubics means for a track.
- CardSector.NewestCopy: the surrounding file reading, block ids and mirrored copies are left out; `field_region` is a table of offsets.
- CardSector.ChangedRanges: walks the positions once instead of first gathering the differing ones.
- The proxy's sockets, waiting, printing and duration; the heap of heapq is a queue kept sorted by (time, order), and times are reals.
- FaultRuns.OvertakingIsBounded: bounds overtaking by absolute settings, so negative settings are covered too; FaultPlan.SpreadIsReached gives the draws that reach the bound, for settings that are not negative.
- native/Viewer.cpp, launchers, packagers, capture and census scripts, audio detectors, disc converters, the sampler of tools/generate_fobj_host.py and the stencil extraction are not part of this model.
