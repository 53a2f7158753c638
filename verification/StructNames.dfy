/**
  When the names that spell offsets are right (tools/gecko_targets.py, StructTypes.walk), said of the paths that lead
  from an object to its members.
*/
module StructNames {
  import opened StructLayout
  import opened StructRows

  /** Into element `element` of an array of structs, then to member `member` of it. */
  datatype Step = Step(element: nat, member: nat)

  /** Whether the objects of a member are walked: a struct that is not offered whole, or one without a name. */
  predicate Enters(m: Member) {
    m.node.walkable && (if m.naming == Anonymous then m.count == 1 else m.node.layout == [])
  }

  /** A path from `count` objects of type `n` down to a member. */
  predicate IsPath(n: Node, count: nat, path: seq<Step>): (yes: bool)
    ensures yes ==> path != []
    decreases |path|
  {
    && path != [] && path[0].element < count && path[0].member < |n.members|
    && (|path| > 1 ==>
          var m := n.members[path[0].member];
          Enters(m) && IsPath(m.node, m.count, path[1..]))
  }

  /** Where the first object on a path starts. */
  function Start(n: Node, at: int, path: seq<Step>): int
    requires path != []
  {
    at + Extent(n.size, path[0].element)
  }

  /** Where the objects on a path start, the outermost first. */
  function ObjectStarts(n: Node, count: nat, at: int, path: seq<Step>): seq<int>
    requires IsPath(n, count, path)
    decreases |path|
  {
    var here, m := Start(n, at, path), n.members[path[0].member];
    [here] + (if |path| == 1 then [] else ObjectStarts(m.node, m.count, here + m.offset, path[1..]))
  }

  /** Where the member at the end of a path is. */
  function EndOf(n: Node, count: nat, at: int, path: seq<Step>): int
    requires IsPath(n, count, path)
    decreases |path|
  {
    var here, m := Start(n, at, path), n.members[path[0].member];
    if |path| == 1 then here + m.offset else EndOf(m.node, m.count, here + m.offset, path[1..])
  }

  function NameAtEnd(n: Node, count: nat, path: seq<Step>): Naming
    requires IsPath(n, count, path)
    decreases |path|
  {
    var m := n.members[path[0].member];
    if |path| == 1 then m.naming else NameAtEnd(m.node, m.count, path[1..])
  }

  /** `start` lies `offset` bytes before `place`, and is an outer object's start or one of the path's. */
  predicate SpelledFrom(starts: seq<int>, place: int, offset: nat) {
    exists k :: 0 <= k < |starts| && place == starts[k] + offset
  }

  /**
    The member at the end of the path, if named after an offset, is that far from an object on the path, or from
    `outer`.
  */
  predicate PathFits(n: Node, count: nat, at: int, outer: seq<int>, path: seq<Step>)
    requires IsPath(n, count, path)
  {
    var naming := NameAtEnd(n, count, path);
    naming.AfterOffset? ==>
      SpelledFrom(outer + ObjectStarts(n, count, at, path), EndOf(n, count, at, path), naming.offset)
  }

  ghost predicate AllPathsFit(n: Node, count: nat, at: int, outer: seq<int>) {
    forall path: seq<Step> :: IsPath(n, count, path) ==> PathFits(n, count, at, outer, path)
  }

  // ---- inside one object ----

  /** The paths through member `j` of the object at `at`. */
  ghost predicate MemberFits(n: Node, at: int, j: nat, outer: seq<int>)
    requires j < |n.members|
  {
    forall path: seq<Step> :: IsPath(n, 1, path) && path[0].member == j ==> PathFits(n, 1, at, outer, path)
  }

  lemma NameFitsIs(naming: Naming, at: int, bases: seq<int>)
    ensures NameFits(naming, at, bases) <==> (naming.AfterOffset? ==> SpelledFrom(bases, at, naming.offset))
  {
    if naming.AfterOffset? {
      if NameFits(naming, at, bases) {
        var i :| 0 <= i < |bases| && at - bases[i] == naming.offset;
        assert at == bases[i] + naming.offset;
      }
      if SpelledFrom(bases, at, naming.offset) {
        var k :| 0 <= k < |bases| && at == bases[k] + naming.offset;
        assert at - bases[k] == naming.offset;
      }
    }
  }

  /** A path of one step ends at the member itself. */
  lemma ShortPath(n: Node, at: int, j: nat, outer: seq<int>)
    requires j < |n.members|
    ensures IsPath(n, 1, [Step(0, j)])
    ensures PathFits(n, 1, at, outer, [Step(0, j)]) <==>
      NameFits(n.members[j].naming, at + n.members[j].offset, outer + [at])
  {
    var path := [Step(0, j)];
    NameFitsIs(n.members[j].naming, at + n.members[j].offset, outer + [at]);
    assert Extent(n.size, 0) == 0;
    assert ObjectStarts(n, 1, at, path) == [at] + [] == [at];
  }

  /** A longer path goes on from the member, with one more object around it. */
  lemma LongPath(n: Node, at: int, j: nat, outer: seq<int>, rest: seq<Step>)
    requires j < |n.members| && rest != []
    ensures IsPath(n, 1, [Step(0, j)] + rest) <==>
      Enters(n.members[j]) && IsPath(n.members[j].node, n.members[j].count, rest)
    ensures IsPath(n, 1, [Step(0, j)] + rest) ==>
      (PathFits(n, 1, at, outer, [Step(0, j)] + rest) <==>
       PathFits(n.members[j].node, n.members[j].count, at + n.members[j].offset, outer + [at], rest))
  {
    var path, m := [Step(0, j)] + rest, n.members[j];
    assert path[1..] == rest;
    assert Extent(n.size, 0) == 0;
    if IsPath(n, 1, path) {
      var inner := ObjectStarts(m.node, m.count, at + m.offset, rest);
      assert ObjectStarts(n, 1, at, path) == [at] + inner;
      assert outer + ([at] + inner) == (outer + [at]) + inner;
    }
  }

  /** The first step of a path through an object at `at`. */
  lemma FirstStep(n: Node, j: nat, path: seq<Step>)
    requires IsPath(n, 1, path) && path[0].member == j
    ensures path == [Step(0, j)] + path[1..] && (|path| == 1 ==> path == [Step(0, j)])
  {}

  lemma MemberExactly(n: Node, at: int, j: nat, outer: seq<int>)
    requires j < |n.members|
    ensures MemberFits(n, at, j, outer) <==>
      && NameFits(n.members[j].naming, at + n.members[j].offset, outer + [at])
      && (Enters(n.members[j]) ==>
            AllPathsFit(n.members[j].node, n.members[j].count, at + n.members[j].offset, outer + [at]))
  {
    hide NameFits, Enters, PathFits, IsPath;
    var m := n.members[j];
    ShortPath(n, at, j, outer);
    if MemberFits(n, at, j, outer) && Enters(m) {
      forall rest: seq<Step> | IsPath(m.node, m.count, rest)
        ensures PathFits(m.node, m.count, at + m.offset, outer + [at], rest)
      {
        LongPath(n, at, j, outer, rest);
        assert ([Step(0, j)] + rest)[0].member == j;
      }
    }
    if NameFits(m.naming, at + m.offset, outer + [at])
       && (Enters(m) ==> AllPathsFit(m.node, m.count, at + m.offset, outer + [at])) {
      forall path: seq<Step> | IsPath(n, 1, path) && path[0].member == j
        ensures PathFits(n, 1, at, outer, path)
      {
        FirstStep(n, j, path);
        if |path| > 1 {
          LongPath(n, at, j, outer, path[1..]);
        }
      }
    }
  }

  // ---- arrays ----

  /** A path into a later object of an array is one into an earlier place of the rest of it. */
  lemma LaterObject(n: Node, count: nat, at: int, outer: seq<int>, path: seq<Step>)
    requires count > 0 && path != [] && path[0].element > 0
    ensures var rest := [Step(path[0].element - 1, path[0].member)] + path[1..];
      && (IsPath(n, count, path) <==> IsPath(n, count - 1, rest))
      && (IsPath(n, count, path) ==>
            (PathFits(n, count, at, outer, path) <==> PathFits(n, count - 1, at + n.size, outer, rest)))
  {
    var rest := [Step(path[0].element - 1, path[0].member)] + path[1..];
    assert rest[1..] == path[1..];
    assert Extent(n.size, path[0].element) == n.size + Extent(n.size, path[0].element - 1);
  }

  /** A path into the first object does not see how many there are. */
  lemma FirstObject(n: Node, count: nat, at: int, outer: seq<int>, path: seq<Step>)
    requires count > 0 && path != [] && path[0].element == 0
    ensures IsPath(n, count, path) <==> IsPath(n, 1, path)
    ensures IsPath(n, count, path) ==> (PathFits(n, count, at, outer, path) <==> PathFits(n, 1, at, outer, path))
  {}

  lemma ArrayExactly(n: Node, count: nat, at: int, outer: seq<int>)
    requires count > 0
    ensures AllPathsFit(n, count, at, outer) <==>
      AllPathsFit(n, 1, at, outer) && AllPathsFit(n, count - 1, at + n.size, outer)
  {
    hide PathFits, IsPath;
    if AllPathsFit(n, count, at, outer) {
      forall path: seq<Step> | IsPath(n, 1, path)
        ensures PathFits(n, 1, at, outer, path)
      {
        OneElement(n, path);
        FirstObject(n, count, at, outer, path);
      }
      var fewer := count - 1;
      forall rest: seq<Step> | IsPath(n, fewer, rest)
        ensures PathFits(n, fewer, at + n.size, outer, rest)
      {
        var path := [Step(rest[0].element + 1, rest[0].member)] + rest[1..];
        LaterObject(n, count, at, outer, path);
        assert [Step(path[0].element - 1, path[0].member)] + path[1..] == rest;
      }
    }
    if AllPathsFit(n, 1, at, outer) && AllPathsFit(n, count - 1, at + n.size, outer) {
      forall path: seq<Step> | IsPath(n, count, path)
        ensures PathFits(n, count, at, outer, path)
      {
        if path[0].element == 0 {
          FirstObject(n, count, at, outer, path);
        } else {
          LaterObject(n, count, at, outer, path);
        }
      }
    }
  }

  lemma OneElement(n: Node, path: seq<Step>)
    requires IsPath(n, 1, path)
    ensures path != [] && path[0].element == 0
  {}

  // ---- the two readings agree ----

  ghost predicate MembersFit(n: Node, at: int, j: nat, outer: seq<int>) {
    forall k :: j <= k < |n.members| ==> MemberFits(n, at, k, outer)
  }

  lemma ObjectExactly(n: Node, at: int, outer: seq<int>)
    ensures AllPathsFit(n, 1, at, outer) <==> MembersFit(n, at, 0, outer)
  {
    hide PathFits;
    if MembersFit(n, at, 0, outer) {
      forall path: seq<Step> | IsPath(n, 1, path)
        ensures PathFits(n, 1, at, outer, path)
      {
        assert MemberFits(n, at, path[0].member, outer);
      }
    }
  }

  lemma {:induction false} NamesExactly(n: Node, count: nat, at: int, outer: seq<int>)
    requires n.layout == [] && n.walkable
    ensures NamesFit(n, count, at, outer) <==> AllPathsFit(n, count, at, outer)
    decreases n, 2, count
  {
    hide PathFits, IsPath, NamesInside;
    if count == 0 {
      NoPath(n);
    } else {
      ArrayExactly(n, count, at, outer);
      ObjectExactly(n, at, outer);
      InsideExactly(n, at, 0, outer);
      NamesExactly(n, count - 1, at + n.size, outer);
    }
  }

  lemma NoPath(n: Node)
    ensures forall path: seq<Step> :: !IsPath(n, 0, path)
  {}

  lemma {:induction false} InsideExactly(n: Node, at: int, j: nat, outer: seq<int>)
    ensures NamesInside(n, at, j, outer + [at]) <==> MembersFit(n, at, j, outer)
    decreases n, 1, |n.members| - j
  {
    hide PathFits, IsPath, NameFits, NamesOfMember, MemberFits;
    if j < |n.members| {
      MemberExactly(n, at, j, outer);
      OfMemberExactly(n, at, j, outer);
      InsideExactly(n, at, j + 1, outer);
    }
  }

  lemma {:induction false} OfMemberExactly(n: Node, at: int, j: nat, outer: seq<int>)
    requires j < |n.members|
    ensures NamesOfMember(n, at, j, outer + [at]) <==>
      (Enters(n.members[j]) ==>
         AllPathsFit(n.members[j].node, n.members[j].count, at + n.members[j].offset, outer + [at]))
    decreases n, 0
  {
    hide PathFits, IsPath, NamesInside, AllPathsFit;
    var m := n.members[j];
    if m.naming != Anonymous {
      if m.node.layout == [] && m.node.walkable {
        NamesExactly(m.node, m.count, at + m.offset, outer + [at]);
      }
    } else if m.node.walkable && m.count == 1 {
      ObjectExactly(m.node, at + m.offset, outer + [at]);
      InsideExactly(m.node, at + m.offset, 0, outer + [at]);
    }
  }

  /** The member at the end of the path, if named after an offset, is that far from an object on the path. */
  predicate Spelled(n: Node, count: nat, at: int, path: seq<Step>)
    requires IsPath(n, count, path)
  {
    var naming := NameAtEnd(n, count, path);
    naming.AfterOffset? ==> SpelledFrom(ObjectStarts(n, count, at, path), EndOf(n, count, at, path), naming.offset)
  }

  /**
    Exactly when an object has rows: for every path that leads from it down to a member named after an offset, some
    object on that path starts exactly so many bytes before the member. An object that is not walked always has them.
  */
  lemma RowsExactly(n: Node, count: nat, at: int)
    ensures NamesFit(n, count, at, []) <==>
      (n.layout == [] && n.walkable ==>
         forall path: seq<Step> :: IsPath(n, count, path) ==> Spelled(n, count, at, path))
  {
    hide IsPath, SpelledFrom, ObjectStarts, EndOf, NameAtEnd, NamesFit, Spelled, PathFits;
    if n.layout == [] && n.walkable {
      NamesExactly(n, count, at, []);
      forall path: seq<Step> | IsPath(n, count, path)
        ensures PathFits(n, count, at, [], path) <==> Spelled(n, count, at, path)
      {
        NoOuter(n, count, at, path);
      }
    } else {
      NotWalked(n, count, at);
    }
  }

  lemma NoOuter(n: Node, count: nat, at: int, path: seq<Step>)
    requires IsPath(n, count, path)
    ensures PathFits(n, count, at, [], path) <==> Spelled(n, count, at, path)
  {
    hide SpelledFrom, ObjectStarts;
    assert [] + ObjectStarts(n, count, at, path) == ObjectStarts(n, count, at, path);
  }

  lemma NotWalked(n: Node, count: nat, at: int)
    requires n.layout != [] || !n.walkable
    ensures NamesFit(n, count, at, [])
  {}
}
