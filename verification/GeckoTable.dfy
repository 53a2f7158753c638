/**
  The finished table: symbols sorted by address, walked objects replaced by their rows (tools/gecko_targets.py, build).
*/
module GeckoTable {
  import opened Bytes
  import opened GeckoTargets
  import L = StructLayout
  import S = StructRows

  /** A symbol of the console image. A struct-typed object that was walked has rows of its own. */
  datatype Symbol = Symbol(row: Row, rows: Option<seq<Row>>)

  /** Rows ascend, are disjoint and lie in [lo, hi). */
  predicate RowsInside(rows: seq<Row>, lo: int, hi: int) {
    && (forall i :: 0 <= i < |rows| ==> RowOk(rows[i]) && lo <= rows[i].addr && rows[i].addr + rows[i].size <= hi)
    && (forall i, j :: 0 <= i < j < |rows| ==> rows[i].addr + rows[i].size <= rows[j].addr)
  }

  /** An object with no row to offer is not walked. */
  predicate SymbolOk(s: Symbol) {
    match s.rows
    case None => RowOk(s.row)
    case Some(rows) => rows != [] && RowsInside(rows, s.row.addr, s.row.addr + s.row.size)
  }

  function Ranges(symbols: seq<Symbol>): (r: seq<Row>)
    ensures |r| == |symbols|
  {
    seq(|symbols|, i requires 0 <= i < |symbols| => symbols[i].row)
  }

  /** The symbols are sorted and each was classified soundly. */
  predicate SymbolsOk(symbols: seq<Symbol>) {
    Sorted(Ranges(symbols)) && forall i :: 0 <= i < |symbols| ==> SymbolOk(symbols[i])
  }

  /** Symbol `i` once neighbours that overlap have been refused. */
  function Kept(symbols: seq<Symbol>, i: nat): Row
    requires i < |symbols|
  {
    AfterOverlaps(Ranges(symbols), i, |symbols| - 1)
  }

  /** What symbol `i` puts in the table. */
  function Part(symbols: seq<Symbol>, i: nat): seq<Row>
    requires i < |symbols|
  {
    if Kept(symbols, i).kind.Supported? && symbols[i].rows.Some? then symbols[i].rows.value else [Kept(symbols, i)]
  }

  function Table(symbols: seq<Symbol>, n: nat): seq<Row>
    requires n <= |symbols|
  {
    if n == 0 then [] else Table(symbols, n - 1) + Part(symbols, n - 1)
  }

  /** The rows of the first symbols stay clear of every address from `limit` on, refused ones apart. */
  predicate Below(rows: seq<Row>, limit: int) {
    forall i :: 0 <= i < |rows| ==>
      rows[i].addr <= limit && (rows[i].kind.Supported? ==> rows[i].addr + rows[i].size <= limit)
  }

  predicate From(rows: seq<Row>, limit: int) {
    forall i :: 0 <= i < |rows| ==> limit <= rows[i].addr
  }

  lemma TableAppend(out: seq<Row>, part: seq<Row>, limit: int)
    requires TableOk(out) && TableOk(part) && Below(out, limit) && From(part, limit)
    ensures TableOk(out + part)
  {
    hide RowOk;
    var all := out + part;
    forall i, j | 0 <= i < j < |all|
      ensures all[i].addr <= all[j].addr && (all[i].kind.Supported? ==> all[i].addr + all[i].size <= all[j].addr)
    {}
  }

  /** A symbol's part is itself a sound table, from its address on. */
  lemma PartHolds(symbols: seq<Symbol>, i: nat)
    requires SymbolsOk(symbols) && i < |symbols|
    ensures TableOk(Part(symbols, i)) && From(Part(symbols, i), symbols[i].row.addr)
  {
    assert SymbolOk(symbols[i]);
  }

  /** ... and ends before the next one. */
  lemma PartEnds(symbols: seq<Symbol>, i: nat, j: nat)
    requires SymbolsOk(symbols) && i < j < |symbols|
    ensures Below(Part(symbols, i), symbols[j].row.addr)
  {
    assert SymbolOk(symbols[i]);
    var rows := Ranges(symbols);
    assert rows[i].addr <= rows[i + 1].addr <= rows[j].addr;
    if Kept(symbols, i).kind.Supported? {
      assert !Overlaps(rows[i], rows[i + 1]);
    }
  }

  lemma {:induction false} TableHolds(symbols: seq<Symbol>, n: nat)
    requires SymbolsOk(symbols) && n <= |symbols|
    ensures TableOk(Table(symbols, n))
    ensures forall j :: n <= j < |symbols| ==> Below(Table(symbols, n), symbols[j].row.addr)
  {
    hide SymbolsOk, Part, Below, From;
    if n > 0 {
      TableHolds(symbols, n - 1);
      PartHolds(symbols, n - 1);
      TableAppend(Table(symbols, n - 1), Part(symbols, n - 1), symbols[n - 1].row.addr);
      forall j | n <= j < |symbols|
        ensures Below(Table(symbols, n), symbols[j].row.addr)
      {
        PartEnds(symbols, n - 1, j);
        BelowAppend(Table(symbols, n - 1), Part(symbols, n - 1), symbols[j].row.addr);
      }
    } else {
      NothingBelow(symbols);
    }
  }

  lemma BelowAppend(out: seq<Row>, part: seq<Row>, limit: int)
    requires Below(out, limit) && Below(part, limit)
    ensures Below(out + part, limit)
  {}

  lemma NothingBelow(symbols: seq<Symbol>)
    ensures forall j :: 0 <= j < |symbols| ==> Below([], symbols[j].row.addr)
  {}

  lemma RangesSorted(symbols: seq<Symbol>)
    requires SymbolsOk(symbols)
    ensures Sorted(Ranges(symbols))
  {}

  /** The overlap pass, then the expansion. */
  method Build(symbols: seq<Symbol>) returns (out: seq<Row>)
    requires SymbolsOk(symbols)
    ensures out == Table(symbols, |symbols|) && TableOk(out)
  {
    hide SymbolsOk, SymbolOk, RowsInside, RowOk, Sorted, SupportedClear, TableOk, AfterOverlaps, Ranges;
    RangesSorted(symbols);
    var kept := DropOverlaps(Ranges(symbols));
    out := [];
    for i := 0 to |symbols|
      invariant out == Table(symbols, i)
    {
      if kept[i].kind.Supported? && symbols[i].rows.Some? {
        out := out + symbols[i].rows.value;
      } else {
        out := out + [kept[i]];
      }
    }
    TableHolds(symbols, |symbols|);
  }

  // ---- finding a byte of a walked object ----

  /** The rows are these pieces, under names of their own. */
  predicate Named(rows: seq<Row>, ps: seq<S.Piece>) {
    |rows| == |ps|
    && forall i :: 0 <= i < |rows| ==>
         rows[i].addr == ps[i].addr && rows[i].size == ps[i].size && rows[i].kind == ps[i].kind
           && rows[i].layout == ps[i].layout
  }

  /** What StructRows produces is what the table needs. */
  lemma PiecesInside(rows: seq<Row>, ps: seq<S.Piece>, lo: int, hi: int)
    requires Named(rows, ps) && S.Ascending(ps, lo, hi)
    ensures RowsInside(rows, lo, hi)
  {
    forall i | 0 <= i < |rows|
      ensures RowOk(rows[i])
    {
      assert S.PieceOk(ps[i]);
    }
  }

  /** The row found decides a byte as `fate` says. */
  ghost predicate Meets(rows: seq<Row>, fate: S.Fate, a: int)
    requires Sorted(rows)
  {
    match fate
    case Nowhere => Find(rows, a).None?
    case RefusedRow(kind) => Find(rows, a).Some? && rows[Find(rows, a).value].kind == kind && !kind.Supported?
    case At(native) =>
      Find(rows, a).Some?
      && var r := rows[Find(rows, a).value];
         r.kind.Supported? && Period(r.layout) > 0 && native == r.addr + NativeAt(r.layout, a - r.addr)
  }

  /** The last of the rows that starts at or before `a` decides, wherever the rows came from. */
  lemma FindIs(rows: seq<Row>, k: int, a: int)
    requires Sorted(rows) && -1 <= k < |rows|
    requires forall i :: 0 <= i <= k ==> rows[i].addr <= a
    requires forall i :: k < i < |rows| ==> a < rows[i].addr
    ensures Find(rows, a) == if k >= 0 && rows[k].Holds(a) then Some(k) else None
  {
    var i := BisectRight(rows, a, 0, |rows|);
    var last := if k >= 0 then rows[k].addr else a;
    var next := if k + 1 < |rows| then rows[k + 1].addr else a + 1;
    assert last <= a < next;
    assert i == k + 1;
  }

  /** The rows of a part, with nothing of the parts around it in reach of `a`. */
  ghost predicate Around(left: seq<Row>, right: seq<Row>, a: int) {
    && (forall i :: 0 <= i < |left| ==> left[i].addr <= a)
    && (left != [] ==> !left[|left| - 1].Holds(a))
    && (forall i :: 0 <= i < |right| ==> a < right[i].addr)
  }

  lemma OtherPieces(part: seq<Row>, ps: seq<S.Piece>, lo: int, hi: int)
    requires part != [] && Named(part, ps) && S.Ascending(ps, lo, hi)
    ensures |ps| == |part|
    ensures S.Ascending(ps[1..], lo, hi) && S.PiecesOk(ps[1..]) && Named(part[1..], ps[1..])
  {
    hide S.PieceOk;
  }

  lemma FirstPiece(part: seq<Row>, ps: seq<S.Piece>, a: int, lo: int, hi: int)
    requires part != [] && Named(part, ps) && S.Ascending(ps, lo, hi)
    requires |ps| == |part| && S.PiecesOk(ps[1..])
    ensures part[0].Holds(a) && part[0].kind.Supported? ==>
      Period(part[0].layout) > 0 && S.FateOf(ps, a) == S.At(part[0].addr + NativeAt(part[0].layout, a - part[0].addr))
    ensures part[0].Holds(a) && !part[0].kind.Supported? ==> S.FateOf(ps, a) == S.RefusedRow(part[0].kind)
    ensures !part[0].Holds(a) ==> S.FateOf(ps, a) == S.FateOf(ps[1..], a)
  {
    assert S.PieceOk(ps[0]);
  }

  lemma BeforeFirst(part: seq<Row>, ps: seq<S.Piece>, a: int, lo: int, hi: int)
    requires part != [] && Named(part, ps) && S.Ascending(ps, lo, hi) && a < part[0].addr
    ensures S.FateOf(ps, a) == S.Nowhere
  {
    hide S.PieceOk;
    assert S.Ascending(ps, ps[0].addr, hi);
    S.FateOutside(ps, ps[0].addr, hi, a);
  }

  lemma {:induction false} PartDecides(left: seq<Row>, part: seq<Row>, ps: seq<S.Piece>, right: seq<Row>, a: int,
      lo: int, hi: int)
    requires Sorted(left + part + right) && Around(left, right, a)
    requires Named(part, ps) && S.Ascending(ps, lo, hi)
    ensures Meets(left + part + right, S.FateOf(ps, a), a)
    decreases |part|
  {
    hide S.FateOf, S.Ascending, Find, NativeAt, Named, Period;
    var all := left + part + right;
    if part == [] {
      NoPieces(part, ps, a, lo, hi);
      assert all == left + right;
      FindIs(all, |left| - 1, a);
    } else {
      OtherPieces(part, ps, lo, hi);
      FirstPiece(part, ps, a, lo, hi);
      if a < part[0].addr {
        BeforeFirst(part, ps, a, lo, hi);
        NoneBefore(left, part, right, a);
      } else if part[0].Holds(a) {
        assert all[|left|] == part[0];
        PartStarts(left, part, right, ps, a, lo, hi);
      } else {
        assert all == (left + [part[0]]) + part[1..] + right;
        PartDecides(left + [part[0]], part[1..], ps[1..], right, a, lo, hi);
      }
    }
  }

  lemma NoPieces(part: seq<Row>, ps: seq<S.Piece>, a: int, lo: int, hi: int)
    requires part == [] && Named(part, ps) && S.Ascending(ps, lo, hi)
    ensures S.FateOf(ps, a) == S.Nowhere
  {}

  lemma NoneBefore(left: seq<Row>, part: seq<Row>, right: seq<Row>, a: int)
    requires part != [] && Sorted(left + part + right) && Around(left, right, a) && a < part[0].addr
    ensures Find(left + part + right, a).None?
  {
    var all := left + part + right;
    assert all[|left|] == part[0];
    FindIs(all, |left| - 1, a);
  }

  lemma PartStarts(left: seq<Row>, part: seq<Row>, right: seq<Row>, ps: seq<S.Piece>, a: int, lo: int, hi: int)
    requires part != [] && Sorted(left + part + right) && Around(left, right, a) && part[0].Holds(a)
    requires Named(part, ps) && S.Ascending(ps, lo, hi)
    ensures Find(left + part + right, a) == Some(|left|)
  {
    var all := left + part + right;
    forall i | |left| < i < |all|
      ensures a < all[i].addr
    {
      if i < |left| + |part| {
        assert all[i] == part[i - |left|];
        assert ps[0].addr + ps[0].size <= ps[i - |left|].addr;
      } else {
        assert all[i] == right[i - |left| - |part|];
      }
    }
    FindIs(all, |left|, a);
  }

  /** The rows after those of the first `i` symbols. */
  function Rest(symbols: seq<Symbol>, i: nat, n: nat): seq<Row>
    requires n <= |symbols|
  {
    if n <= i then [] else Rest(symbols, i, n - 1) + Part(symbols, n - 1)
  }

  lemma {:induction false} TableSplits(symbols: seq<Symbol>, i: nat, n: nat)
    requires i <= n <= |symbols|
    ensures Table(symbols, n) == Table(symbols, i) + Rest(symbols, i, n)
  {
    hide Part;
    if i < n {
      TableSplits(symbols, i, n - 1);
    }
  }

  lemma {:induction false} RestStarts(symbols: seq<Symbol>, i: nat, n: nat, limit: int)
    requires SymbolsOk(symbols) && i <= n <= |symbols| && (i < |symbols| ==> limit <= symbols[i].row.addr)
    ensures From(Rest(symbols, i, n), limit)
  {
    hide Part, RowOk;
    if i < n {
      RestStarts(symbols, i, n - 1, limit);
      PartHolds(symbols, n - 1);
      assert Ranges(symbols)[i].addr <= Ranges(symbols)[n - 1].addr;
    }
  }

  /** The last row before a symbol that was kept ends before it. */
  lemma LastRowEnds(symbols: seq<Symbol>, i: nat)
    requires SymbolsOk(symbols) && i < |symbols| && Kept(symbols, i).kind.Supported?
    ensures var left := Table(symbols, i);
      left != [] ==> left[|left| - 1].addr + left[|left| - 1].size <= symbols[i].row.addr
  {
    hide RowOk;
    if i > 0 {
      assert SymbolOk(symbols[i - 1]);
      var rows := Ranges(symbols);
      assert !Overlaps(rows[i - 1], rows[i]);
      var part := Part(symbols, i - 1);
      assert part != [];
      var left := Table(symbols, i);
      assert left == Table(symbols, i - 1) + part && left[|left| - 1] == part[|part| - 1];
    }
  }

  lemma NextSymbolClear(symbols: seq<Symbol>, i: nat)
    requires SymbolsOk(symbols) && i + 1 < |symbols| && Kept(symbols, i).kind.Supported?
    ensures symbols[i].row.addr + symbols[i].row.size <= symbols[i + 1].row.addr
  {
    assert !Overlaps(Ranges(symbols)[i], Ranges(symbols)[i + 1]);
  }

  /** A symbol that was kept meets nothing of its neighbours. */
  lemma KeptAround(symbols: seq<Symbol>, i: nat, a: int)
    requires SymbolsOk(symbols) && i < |symbols| && Kept(symbols, i).kind.Supported? && symbols[i].row.Holds(a)
    ensures Around(Table(symbols, i), Rest(symbols, i + 1, |symbols|), a)
  {
    hide SymbolsOk, Part, Table, Rest, Kept;
    TableHolds(symbols, i);
    LastRowEnds(symbols, i);
    if i + 1 < |symbols| {
      NextSymbolClear(symbols, i);
    }
    RestStarts(symbols, i + 1, |symbols|, symbols[i].row.addr + symbols[i].row.size);
  }

  /** In the finished table, a byte of a walked object is decided by that object's own rows alone. */
  lemma WalkedByteIsFound(symbols: seq<Symbol>, i: nat, ps: seq<S.Piece>, a: int)
    requires SymbolsOk(symbols) && i < |symbols| && Kept(symbols, i).kind.Supported? && symbols[i].row.Holds(a)
    requires symbols[i].rows.Some? && Named(symbols[i].rows.value, ps)
    requires S.Ascending(ps, symbols[i].row.addr, symbols[i].row.addr + symbols[i].row.size)
    ensures TableOk(Table(symbols, |symbols|)) && Meets(Table(symbols, |symbols|), S.FateOf(ps, a), a)
  {
    hide SymbolsOk, Rest, Kept, Meets, Around, Named, S.Ascending, S.FateOf, RowOk;
    var n, part := |symbols|, Part(symbols, i);
    TableHolds(symbols, n);
    TableSplits(symbols, i + 1, n);
    KeptAround(symbols, i, a);
    assert Table(symbols, n) == Table(symbols, i) + part + Rest(symbols, i + 1, n);
    PartDecides(Table(symbols, i), part, ps, Rest(symbols, i + 1, n), a, symbols[i].row.addr,
      symbols[i].row.addr + symbols[i].row.size);
  }

  /** What the table does with byte `a` is what its type calls for. */
  ghost predicate AsTyped(rows: seq<Row>, slot: S.Slot, a: int)
    requires Sorted(rows)
  {
    match slot
    case Element(start, width) => Meets(rows, S.At(start + (width - 1 - (a - start))), a)
    case Padding => Meets(rows, S.Nowhere, a) || Meets(rows, S.At(a), a)
    case Opaque(kind) => Meets(rows, S.RefusedRow(kind), a)
  }

  /**
    From a type to the finished table: every console byte of an object of type `n[count]` that was walked and kept is
    found in the row its type calls for, at the mirrored place of its own element, and what the type refuses is refused.
  */
  lemma TypedByteIsFound(symbols: seq<Symbol>, i: nat, n: L.Node, count: nat, ps: seq<S.Piece>, a: int)
    requires SymbolsOk(symbols) && i < |symbols| && Kept(symbols, i).kind.Supported? && symbols[i].row.Holds(a)
    requires symbols[i].row.size == L.Extent(n.size, count)
    requires symbols[i].rows.Some? && Named(symbols[i].rows.value, ps)
    requires var lo := symbols[i].row.addr;
      && S.Ascending(ps, lo, lo + L.Extent(n.size, count))
      && forall b :: lo <= b < lo + L.Extent(n.size, count) ==> S.Correct(S.FateOf(ps, b), S.SlotOf(n, count, lo, b), b)
    ensures TableOk(Table(symbols, |symbols|))
    ensures AsTyped(Table(symbols, |symbols|), S.SlotOf(n, count, symbols[i].row.addr, a), a)
  {
    hide SymbolsOk, Kept, Meets, Table, Named, S.PieceOk, S.FateOf, S.SlotOf, L.Extent, RowOk;
    WalkedByteIsFound(symbols, i, ps, a);
    assert S.Correct(S.FateOf(ps, a), S.SlotOf(n, count, symbols[i].row.addr, a), a);
  }

  // ---- from classified objects to the table ----

  const MAX_ROWS := 2048

  /** An object of the simple types, its row settled, or one of a struct type: `count` objects of type `node`. */
  datatype Object = Simple(row: Row) | Typed(row: Row, node: L.Node, count: nat)

  predicate ObjectOk(o: Object) {
    match o
    case Simple(row) => RowOk(row)
    case Typed(_, node, _) => L.NodeOk(node)
  }

  /** Not too many rows, and one of them supported. */
  predicate Offers(ps: seq<S.Piece>) {
    |ps| <= MAX_ROWS && exists i :: 0 <= i < |ps| && ps[i].kind.Supported?
  }

  /** The kind of an object none of whose rows is offered. */
  function NoOffer(ps: seq<S.Piece>): Kind {
    if |ps| <= MAX_ROWS && exists i :: 0 <= i < |ps| && ps[i].kind == Pointers then Pointers else Kind.Layout
  }

  /** The size is the type's own, and every name that spells an offset is right. */
  predicate Fits(o: Object)
    requires o.Typed?
  {
    o.row.size == L.Extent(o.node.size, o.count) && S.NamesFit(o.node, o.count, o.row.addr, [])
  }

  function RowsOf(o: Object): seq<S.Piece>
    requires o.Typed? && ObjectOk(o)
  {
    S.PiecesOf(o.node, o.count, o.row.addr)
  }

  /** Whether an object is offered by its rows. */
  predicate IsOffered(o: Object): (offered: bool)
    requires ObjectOk(o)
    ensures offered ==> o.Typed?
  {
    o.Typed? && Fits(o) && Offers(RowsOf(o))
  }

  /** What classifying an object makes of it: its own row, its rows under names, or a refusal of the right kind. */
  ghost predicate Classified(o: Object, s: Symbol)
    requires ObjectOk(o)
  {
    match o
    case Simple(row) => s == Symbol(row, None)
    case Typed(row, _, _) =>
      && (s.rows.Some? <==> IsOffered(o))
      && (s.rows.Some? ==> Named(s.rows.value, RowsOf(o)))
      && var kind := if !Fits(o) then Kind.Layout else if IsOffered(o) then Supported else NoOffer(RowsOf(o));
         s.row == row.(kind := kind, layout := [])
  }

  function NamedRows(ps: seq<S.Piece>, name: nat -> string): (rows: seq<Row>)
    ensures Named(rows, ps)
  {
    seq(|ps|, k requires 0 <= k < |ps| => Row(name(k), ps[k].addr, ps[k].size, ps[k].kind, ps[k].layout))
  }

  /** The pieces do with every byte what the type calls for. */
  ghost predicate AsTypes(o: Object)
    requires o.Typed? && ObjectOk(o)
  {
    var (ps, lo, hi) := (RowsOf(o), o.row.addr, o.row.addr + L.Extent(o.node.size, o.count));
    && S.Ascending(ps, lo, hi)
    && forall b :: lo <= b < hi ==> S.Correct(S.FateOf(ps, b), S.SlotOf(o.node, o.count, lo, b), b)
  }

  /** classify_typed, for an object whose type has been worked out. */
  method Classify(o: Object, name: nat -> string) returns (s: Symbol)
    requires ObjectOk(o)
    ensures Classified(o, s) && SymbolOk(s) && (IsOffered(o) ==> AsTypes(o))
    ensures s.row.addr == o.row.addr && s.row.size == o.row.size
  {
    hide S.Ascending, S.FateOf, S.Correct, S.SlotOf, S.NamesFit, S.PiecesOf, L.NodeOk, L.Extent, RowsInside, RowOk;
    hide Named, Offers;
    if o.Simple? {
      return Symbol(o.row, None);
    }
    var refused := Symbol(o.row.(kind := Kind.Layout, layout := []), None);
    Refused(refused);
    if L.Extent(o.node.size, o.count) != o.row.size {
      return refused;
    }
    var found := S.Rows(o.node, o.count, o.row.addr, []);
    if found.None? {
      return refused;
    }
    var ps := found.value;
    if !Offers(ps) {
      s := Symbol(o.row.(kind := NoOffer(ps), layout := []), None);
      Refused(s);
      return;
    }
    var rows := NamedRows(ps, name);
    s := Symbol(o.row.(kind := Supported, layout := []), Some(rows));
    PiecesInside(rows, ps, o.row.addr, o.row.addr + o.row.size);
    SomeRows(rows, ps);
  }

  lemma Refused(s: Symbol)
    requires !s.row.kind.Supported? && s.rows.None?
    ensures SymbolOk(s)
  {}

  lemma SomeRows(rows: seq<Row>, ps: seq<S.Piece>)
    requires Named(rows, ps) && Offers(ps)
    ensures rows != []
  {}

  /** No neighbour overlaps object `i`. */
  predicate Clear(objects: seq<Object>, i: nat)
    requires i < |objects|
  {
    && (i > 0 ==> !Overlaps(objects[i - 1].row, objects[i].row))
    && (i + 1 < |objects| ==> !Overlaps(objects[i].row, objects[i + 1].row))
  }

  ghost predicate ObjectsOk(objects: seq<Object>) {
    && (forall i :: 0 <= i < |objects| ==> ObjectOk(objects[i]))
    && (forall i, j :: 0 <= i < j < |objects| ==> objects[i].row.addr <= objects[j].row.addr)
  }

  /** The symbols of the objects, each as classified. */
  ghost predicate AllClassified(objects: seq<Object>, symbols: seq<Symbol>)
    requires ObjectsOk(objects)
  {
    && |symbols| == |objects| && SymbolsOk(symbols)
    && forall i :: 0 <= i < |objects| ==> Classified(objects[i], symbols[i])
  }

  /**
    The whole way: objects sorted by address are classified, walked, and built into a table. The table is sound, and
    every byte of every struct-typed object that offers rows and overlaps no neighbour is found as its type calls for.
  */
  method TypedTable(objects: seq<Object>, name: (nat, nat) -> string)
      returns (table: seq<Row>, ghost symbols: seq<Symbol>)
    requires ObjectsOk(objects)
    ensures TableOk(table) && AllClassified(objects, symbols) && table == Table(symbols, |symbols|)
    ensures forall i, a ::
      0 <= i < |objects| && IsOffered(objects[i]) && Clear(objects, i) && objects[i].row.Holds(a) ==>
      AsTyped(table, S.SlotOf(objects[i].node, objects[i].count, objects[i].row.addr, a), a)
  {
    hide Classified, SymbolOk, S.SlotOf, AsTyped, AsTypes, Table, RowOk, ObjectOk, IsOffered, Clear;
    var all: seq<Symbol> := [];
    for i := 0 to |objects|
      invariant |all| == i
      invariant forall k :: 0 <= k < i ==> Classified(objects[k], all[k]) && SymbolOk(all[k])
      invariant forall k :: 0 <= k < i ==> IsOffered(objects[k]) ==> AsTypes(objects[k])
      invariant forall k :: 0 <= k < i ==> all[k].row.addr == objects[k].row.addr
    {
      var s := Classify(objects[i], (k: nat) => name(i, k));
      all := all + [s];
    }
    symbols := all;
    table := Build(all);
    forall i, a | 0 <= i < |objects| && IsOffered(objects[i]) && Clear(objects, i) && objects[i].row.Holds(a)
      ensures AsTyped(table, S.SlotOf(objects[i].node, objects[i].count, objects[i].row.addr, a), a)
    {
      OfferedByteIsFound(objects, symbols, i, a);
    }
  }

  /** An object that is offered and clear of its neighbours is kept. */
  lemma OfferedIsKept(objects: seq<Object>, symbols: seq<Symbol>, i: nat)
    requires ObjectsOk(objects) && AllClassified(objects, symbols) && i < |objects|
    requires IsOffered(objects[i]) && Clear(objects, i)
    ensures Kept(symbols, i).kind.Supported? && symbols[i].rows.Some?
      && Named(symbols[i].rows.value, RowsOf(objects[i]))
    ensures symbols[i].row.addr == objects[i].row.addr && symbols[i].row.size == objects[i].row.size
  {
    hide ObjectOk, IsOffered, Fits, Named, SymbolsOk, Offers, NoOffer, RowsOf;
    assert Classified(objects[i], symbols[i]);
    OfferedKind(objects[i], symbols[i]);
    if i > 0 {
      assert Classified(objects[i - 1], symbols[i - 1]);
    }
    if i + 1 < |objects| {
      assert Classified(objects[i + 1], symbols[i + 1]);
    }
    forall k | 0 <= k < |objects|
      ensures symbols[k].row.addr == objects[k].row.addr && symbols[k].row.size == objects[k].row.size
    {
      assert Classified(objects[k], symbols[k]);
    }
  }

  lemma OfferedKind(o: Object, s: Symbol)
    requires ObjectOk(o) && IsOffered(o) && Classified(o, s)
    ensures o.Typed? && s.row.kind.Supported? && s.rows.Some? && Named(s.rows.value, RowsOf(o))
  {
    hide ObjectOk, Named, Offers, RowsOf;
  }

  lemma OfferedByteIsFound(objects: seq<Object>, symbols: seq<Symbol>, i: nat, a: int)
    requires ObjectsOk(objects) && AllClassified(objects, symbols) && i < |objects|
    requires IsOffered(objects[i]) && Clear(objects, i) && AsTypes(objects[i]) && objects[i].row.Holds(a)
    ensures TableOk(Table(symbols, |symbols|))
    ensures AsTyped(Table(symbols, |symbols|), S.SlotOf(objects[i].node, objects[i].count, objects[i].row.addr, a), a)
  {
    hide SymbolsOk, Kept, Table, Named, S.Ascending, S.FateOf, S.SlotOf, S.Correct, S.PiecesOk, S.PiecesOf, L.Extent;
    hide RowOk, AsTyped;
    hide S.NamesFit, Clear, Classified, Offers, L.NodeOk;
    OfferedIsKept(objects, symbols, i);
    var o := objects[i];
    TypedByteIsFound(symbols, i, o.node, o.count, RowsOf(o), a);
  }

  // ---- one write may cover several members ----

  /** Whatever one row of an offered object holds can be read and written at once. */
  lemma CoveredIsBacked(objects: seq<Object>, symbols: seq<Symbol>, i: nat, lo: int, hi: int, a: int, length: nat)
    requires ObjectsOk(objects) && AllClassified(objects, symbols) && i < |objects|
    requires IsOffered(objects[i]) && Clear(objects, i) && S.Covered(RowsOf(objects[i]), lo, hi)
    requires lo <= a && a + length <= hi && length > 0
    ensures Backed(Table(symbols, |symbols|), a, length)
  {
    hide SymbolsOk, Kept, Table, S.PiecesOf, Clear, Classified, Offers, L.NodeOk, S.PieceOk, IsOffered;
    OfferedIsKept(objects, symbols, i);
    var ps := RowsOf(objects[i]);
    var k :| 0 <= k < |ps| && S.Holding(ps[k], lo, hi);
    var table, at := Table(symbols, |symbols|), |Table(symbols, i)|;
    TableSplits(symbols, i + 1, |symbols|);
    PartIsRows(symbols, i);
    assert table == Table(symbols, i) + symbols[i].rows.value + Rest(symbols, i + 1, |symbols|);
    assert table[at + k] == symbols[i].rows.value[k];
    assert Within(table, at + k, a, length);
  }

  lemma PartIsRows(symbols: seq<Symbol>, i: nat)
    requires i < |symbols| && Kept(symbols, i).kind.Supported? && symbols[i].rows.Some?
    ensures Table(symbols, i + 1) == Table(symbols, i) + symbols[i].rows.value
  {}

  /**
    Why walk joins: an access across neighbouring members of any object of an offered array of structs, less than 4
    bytes apart and without 8-byte elements, is backed by one row of the table.
  */
  lemma NeighboursAreBacked(objects: seq<Object>, symbols: seq<Symbol>, i: nat, e: nat, j: nat, k: nat, a: int,
      length: nat)
    requires ObjectsOk(objects) && AllClassified(objects, symbols) && i < |objects|
    requires IsOffered(objects[i]) && Clear(objects, i)
    requires var (o, n) := (objects[i], objects[i].node);
      && n.layout == [] && n.walkable && e < o.count && j < k <= |n.members|
      && S.Neighbours(n, o.row.addr + L.Extent(n.size, e), j, k)
      && var (first, last) :=
        (S.RowsOfMember(n, o.row.addr + L.Extent(n.size, e), j),
        S.RowsOfMember(n, o.row.addr + L.Extent(n.size, e), k - 1));
         |first| == |last| == 1 && first[0].addr <= a && a + length <= last[0].addr + last[0].size && length > 0
    ensures Backed(Table(symbols, |symbols|), a, length)
  {
    hide SymbolsOk, Kept, Table, Clear, Classified, Offers, L.NodeOk, S.PieceOk, S.RowsOfMember, S.WalkPieces;
    hide S.Objects, S.Neighbours, S.Covered;
    hide AllClassified, Backed, L.Extent, S.PiecesOk, S.NamesFit;
    var o, n := objects[i], objects[i].node;
    var at := o.row.addr + L.Extent(n.size, e);
    S.NeighboursShareARow(n, at, j, k);
    var lo, hi := S.RowsOfMember(n, at, j)[0].addr,
      S.RowsOfMember(n, at, k - 1)[0].addr + S.RowsOfMember(n, at, k - 1)[0].size;
    S.ObjectCovered(n, o.count, o.row.addr, e, lo, hi);
    assert S.Covered(RowsOf(o), lo, hi);
    CoveredIsBacked(objects, symbols, i, lo, hi, a, length);
  }
}
