/** What holds over every run of the fault proxy: conservation, due times and the order of release. */
module FaultRuns {
  import opened Bytes
  import opened FaultPlan
  import opened FaultQueue

  datatype Event =
    | Released(now: real, fails: set<nat>)
    | Arrived(now: real, from: Side, source: Address, data: seq<Byte>)

  function Step(w: World, event: Event): (World, seq<Entry>, seq<Entry>) {
    match event
    case Released(now, fails) => var (next, out) := Release(w, now, fails); (next, [], out)
    case Arrived(now, from, source, data) => var (next, copies) := Receive(w, now, from, source, data);
      (next, copies, [])
  }

  /** A run so far: every copy queued, when its packet arrived, and every copy released, each in order. */
  datatype Trace = Trace(world: World, pushed: seq<Entry>, arrived: seq<real>, released: seq<Entry>)

  function Repeat(v: real, n: nat): (r: seq<real>)
    ensures |r| == n
  {
    seq(n, _ => v)
  }

  function Extend(t: Trace, event: Event): Trace {
    var (next, copies, out) := Step(t.world, event);
    Trace(next, t.pushed + copies, t.arrived + Repeat(event.now, |copies|), t.released + out)
  }

  function Run(w: World, events: seq<Event>): Trace {
    if events == [] then Trace(w, [], [], []) else Extend(Run(w, events[..|events| - 1]), events[|events| - 1])
  }

  /** The clock never runs backwards. */
  predicate Ordered(events: seq<Event>) {
    forall i, j :: 0 <= i < j < |events| ==> events[i].now <= events[j].now
  }

  /** A proxy before its first packet. */
  ghost predicate Fresh(w: World) {
    w.queue == [] && w.order == 0 && StreamOk(w.a.draw) && StreamOk(w.b.draw)
    && w.a.counts == w.b.counts == Counts(0, 0, 0, 0, 0, 0, 0)
  }

  // ---- the queue stays sorted ----

  predicate Sorted(queue: seq<Entry>) {
    forall i, j :: 0 <= i < j < |queue| ==> Before(queue[i], queue[j])
  }

  lemma {:induction false} InsertHolds(queue: seq<Entry>, e: Entry)
    ensures multiset(Insert(queue, e)) == multiset(queue) + multiset{e}
  {
    if queue == [] || Before(e, queue[0]) {
    } else {
      InsertHolds(queue[1..], e);
      assert queue == [queue[0]] + queue[1..];
    }
  }

  lemma {:induction false} InsertSorts(queue: seq<Entry>, e: Entry)
    requires Sorted(queue) && forall f :: f in queue ==> f.order != e.order
    ensures Sorted(Insert(queue, e))
  {
    if queue == [] {
    } else if Before(e, queue[0]) {
    } else {
      InsertSorts(queue[1..], e);
      InsertHolds(queue[1..], e);
      var rest := Insert(queue[1..], e);
      forall j | 0 <= j < |rest|
        ensures Before(queue[0], rest[j])
      {
        assert rest[j] in multiset(rest);
      }
    }
  }

  /** Orders of entries, each after `last`, ascending. */
  predicate Numbered(copies: seq<Entry>, last: nat) {
    forall i :: 0 <= i < |copies| ==> copies[i].order == last + 1 + i
  }

  lemma {:induction false} PushAllHolds(queue: seq<Entry>, copies: seq<Entry>, last: nat)
    requires Sorted(queue) && Numbered(copies, last) && forall f :: f in queue ==> f.order <= last
    ensures Sorted(PushAll(queue, copies))
    ensures multiset(PushAll(queue, copies)) == multiset(queue) + multiset(copies)
    decreases |copies|
  {
    if copies != [] {
      var next := Insert(queue, copies[0]);
      InsertSorts(queue, copies[0]);
      InsertHolds(queue, copies[0]);
      forall f | f in next
        ensures f.order <= last + 1
      {
        assert f in multiset(next);
      }
      PushAllHolds(next, copies[1..], last + 1);
      assert copies == [copies[0]] + copies[1..];
    }
  }

  // ---- releasing ----

  function CountOf(s: seq<Entry>, side: Side): nat {
    if s == [] then 0 else CountOf(s[..|s| - 1], side) + (if s[|s| - 1].way == side then 1 else 0)
  }

  lemma {:induction false} CountOfSum(s: seq<Entry>, t: seq<Entry>, side: Side)
    ensures CountOf(s + t, side) == CountOf(s, side) + CountOf(t, side)
  {
    if t == [] {
      assert s + t == s;
    } else {
      assert (s + t)[..|s + t| - 1] == s + t[..|t| - 1];
      CountOfSum(s, t[..|t| - 1], side);
    }
  }

  lemma SendHolds(w: World, e: Entry, fails: set<nat>)
    ensures var next := Send(w, e, fails);
      && next.queue == w.queue && next.order == w.order && next.outages == w.outages
      && forall side :: Forwarding(w.Direction(side), next.Direction(side), CountOf([e], side))
  {
    assert forall side :: CountOf([e], side) == if e.way == side then 1 else 0;
  }

  /** A release takes the due copies off the front and leaves none behind. */
  lemma {:induction false} ReleaseTakes(w: World, now: real, fails: set<nat>)
    ensures var (next, out) := Release(w, now, fails);
      && w.queue == out + next.queue
      && (forall e :: e in out ==> e.time <= now)
      && (next.queue != [] ==> next.queue[0].time > now)
      && next.order == w.order && next.outages == w.outages
    decreases |w.queue|
  {
    hide Send;
    if w.queue == [] || w.queue[0].time > now {
      assert w.queue == [] + w.queue;
    } else {
      var e, taken := w.queue[0], w.(queue := w.queue[1..]);
      SendHolds(taken, e, fails);
      ReleaseTakes(Send(taken, e, fails), now, fails);
      var (next, rest) := Release(Send(taken, e, fails), now, fails);
      assert w.queue == [e] + w.queue[1..] && [e] + (rest + next.queue) == ([e] + rest) + next.queue;
    }
  }

  /** It changes nothing of a direction but what was forwarded, by at most the copies it takes. */
  lemma {:induction false} ReleaseForwards(w: World, now: real, fails: set<nat>, side: Side)
    ensures var (next, out) := Release(w, now, fails);
      Forwarding(w.Direction(side), next.Direction(side), CountOf(out, side))
    decreases |w.queue|
  {
    hide Send, CountOf;
    if w.queue == [] || w.queue[0].time > now {
    } else {
      var e, taken := w.queue[0], w.(queue := w.queue[1..]);
      var sent := Send(taken, e, fails);
      SendHolds(taken, e, fails);
      ReleaseForwards(sent, now, fails, side);
      var (next, rest) := Release(sent, now, fails);
      CountOfSum([e], rest, side);
      assert Forwarding(taken.Direction(side), sent.Direction(side), CountOf([e], side));
    }
  }

  lemma ReleaseHolds(w: World, now: real, fails: set<nat>)
    ensures var (next, out) := Release(w, now, fails);
      && w.queue == out + next.queue
      && (forall e :: e in out ==> e.time <= now)
      && (next.queue != [] ==> next.queue[0].time > now)
      && next.order == w.order && next.outages == w.outages
      && (forall side :: Forwarding(w.Direction(side), next.Direction(side), CountOf(out, side)))
  {
    hide Release, Forwarding;
    ReleaseTakes(w, now, fails);
    forall side
      ensures var (next, out) := Release(w, now, fails);
        Forwarding(w.Direction(side), next.Direction(side), CountOf(out, side))
    {
      ReleaseForwards(w, now, fails, side);
    }
  }

  /** At most `n` more copies forwarded, and nothing else changed. */
  ghost predicate Forwarding(was: Way, now: Way, n: nat) {
    && now.faults == was.faults && now.draw == was.draw
    && was.counts.forwarded <= now.counts.forwarded <= was.counts.forwarded + n
    && now.counts == was.counts.(forwarded := now.counts.forwarded)
  }

  // ---- receiving ----

  /** An arrival queues its copies, numbered on, and counts them. */
  lemma ReceiveHolds(w: World, now: real, from: Side, source: Address, data: seq<Byte>)
    ensures var (next, copies) := Receive(w, now, from, source, data);
      && next.queue == PushAll(w.queue, copies)
      && Numbered(copies, w.order) && next.order == w.order + |copies|
      && (forall e :: e in copies ==> e.way == from)
      && next.Direction(Other(from)) == w.Direction(Other(from))
      && next.Direction(from).faults == w.Direction(from).faults && next.Direction(from).draw == w.Direction(from).draw
      && Copies(next.Direction(from).counts) == Copies(w.Direction(from).counts) + |copies|
      && next.Direction(from).counts.forwarded == w.Direction(from).counts.forwarded
  {
    hide FateOf, Counted, Delays, Copies;
    var way := w.Direction(from);
    var start := if w.started.None? then w.(started := Some(now)) else w;
    var fate := FateOf(way.faults, way.draw, way.counts.received, InOutage(start.started, w.outages, now));
    var counts := way.counts.(bytes := way.counts.bytes + |data|);
    CountedBalances(counts, fate);
    BytesDoNotCount(way.counts, |data|);
  }

  lemma BytesDoNotCount(c: Counts, n: nat)
    ensures Copies(c.(bytes := c.bytes + n)) == Copies(c)
  {}

  /** The copies of a packet leave between the bounds of its direction. */
  predicate OnTime(e: Entry, at: real, f: Faults) {
    at + Low(f) <= e.time <= at + High(f)
  }

  lemma ReceiveOnTime(w: World, now: real, from: Side, source: Address, data: seq<Byte>)
    requires StreamOk(w.Direction(from).draw)
    ensures forall e :: e in Receive(w, now, from, source, data).1 ==> OnTime(e, now, w.Direction(from).faults)
  {
    hide FateOf, Counted, Delays, Low, High, StreamOk;
    var way := w.Direction(from);
    var start := if w.started.None? then w.(started := Some(now)) else w;
    DelaysBetween(way.faults, way.draw, way.counts.received, InOutage(start.started, w.outages, now));
    var delays := Delays(FateOf(way.faults, way.draw, way.counts.received, InOutage(start.started, w.outages, now)));
    forall e | e in Receive(w, now, from, source, data).1
      ensures OnTime(e, now, way.faults)
    {
      var copies := Entries(w.order, now, from, data, delays);
      assert e in copies;
      var i :| 0 <= i < |copies| && copies[i] == e;
      assert delays[i] in delays;
    }
  }

  // ---- invariants of a run ----

  /** Copy k has number k + 1, arrived no later than the next one, and is timed by its direction. */
  ghost predicate PushedOk(t: Trace) {
    && |t.arrived| == |t.pushed| == t.world.order
    && Numbered(t.pushed, 0)
    && (forall i, j :: 0 <= i < j < |t.arrived| ==> t.arrived[i] <= t.arrived[j])
    && (forall i :: 0 <= i < |t.pushed| ==>
      OnTime(t.pushed[i], t.arrived[i], t.world.Direction(t.pushed[i].way).faults))
  }

  /** Nothing is lost between the queue and the release, and nothing leaves twice. */
  ghost predicate Conserved(t: Trace) {
    multiset(t.pushed) == multiset(t.released) + multiset(t.world.queue)
  }

  /** The counters of both directions add up. */
  ghost predicate Balanced(t: Trace) {
    forall side :: Copies(t.world.Direction(side).counts) == CountOf(t.pushed, side)
      && t.world.Direction(side).counts.forwarded <= CountOf(t.released, side)
  }

  /** A later copy goes first only when it is due first. */
  ghost predicate InOrder(t: Trace) {
    && Sorted(t.world.queue)
    && (forall i, j :: 0 <= i < j < |t.released| && t.released[i].order >= t.released[j].order ==>
      Before(t.released[i], t.released[j]))
    && (forall i, q :: 0 <= i < |t.released| && q in t.world.queue && t.released[i].order >= q.order ==>
      Before(t.released[i], q))
  }

  ghost predicate Inv(t: Trace) {
    PushedOk(t) && Conserved(t) && Balanced(t) && InOrder(t)
    && StreamOk(t.world.a.draw) && StreamOk(t.world.b.draw)
  }

  /** A queued or released copy is the one pushed under its number. */
  lemma KnownByNumber(t: Trace, e: Entry)
    requires PushedOk(t) && Conserved(t) && (e in t.released || e in t.world.queue)
    ensures 1 <= e.order <= |t.pushed| && t.pushed[e.order - 1] == e
  {
    assert e in multiset(t.released) + multiset(t.world.queue);
    assert e in multiset(t.pushed);
    var i :| 0 <= i < |t.pushed| && t.pushed[i] == e;
  }

  lemma ReleaseKeeps(t: Trace, now: real, fails: set<nat>)
    requires Inv(t)
    ensures Inv(Extend(t, Released(now, fails)))
  {
    hide Release, StreamOk, OnTime, CountOf, Copies;
    var (next, out) := Release(t.world, now, fails);
    ReleaseHolds(t.world, now, fails);
    var u := Extend(t, Released(now, fails));
    assert u == Trace(next, t.pushed, t.arrived, t.released + out) by {
      assert t.pushed + [] == t.pushed && t.arrived + Repeat(now, 0) == t.arrived;
    }
    forall side
      ensures Forwarding(t.world.Direction(side), u.world.Direction(side), CountOf(out, side))
    {}
    ReleaseConserves(t, u, out);
    ReleaseBalances(t, u, out);
    ReleaseOrders(t, u, out);
    assert t.world.Direction(A) == t.world.a && t.world.Direction(B) == t.world.b;
    assert u.world.Direction(A) == u.world.a && u.world.Direction(B) == u.world.b;
  }

  lemma ReleaseConserves(t: Trace, u: Trace, out: seq<Entry>)
    requires Conserved(t) && u.pushed == t.pushed && u.released == t.released + out
      && t.world.queue == out + u.world.queue
    ensures Conserved(u)
  {}

  lemma ReleaseBalances(t: Trace, u: Trace, out: seq<Entry>)
    requires Balanced(t) && u.pushed == t.pushed && u.released == t.released + out
    requires forall side :: Forwarding(t.world.Direction(side), u.world.Direction(side), CountOf(out, side))
    ensures Balanced(u)
  {
    hide CountOf;
    forall side
      ensures Copies(u.world.Direction(side).counts) == CountOf(u.pushed, side)
      ensures u.world.Direction(side).counts.forwarded <= CountOf(u.released, side)
    {
      CountOfSum(t.released, out, side);
      assert Forwarding(t.world.Direction(side), u.world.Direction(side), CountOf(out, side));
    }
  }

  lemma ReleaseOrders(t: Trace, u: Trace, out: seq<Entry>)
    requires InOrder(t) && u.released == t.released + out && t.world.queue == out + u.world.queue
    ensures InOrder(u)
  {
    hide Before;
    var queue, n := t.world.queue, |t.released|;
    forall i, j | 0 <= i < j < |u.released| && u.released[i].order >= u.released[j].order
      ensures Before(u.released[i], u.released[j])
    {
      if j >= n {
        assert u.released[j] == queue[j - n];
        if i >= n {
          assert u.released[i] == queue[i - n];
        } else {
          assert u.released[j] in queue;
        }
      }
    }
    forall i, q | 0 <= i < |u.released| && q in u.world.queue && u.released[i].order >= q.order
      ensures Before(u.released[i], q)
    {
      var k :| 0 <= k < |u.world.queue| && u.world.queue[k] == q;
      assert queue[|out| + k] == q;
      if i >= n {
        assert u.released[i] == queue[i - n];
      }
    }
    forall i, j | 0 <= i < j < |u.world.queue|
      ensures Before(u.world.queue[i], u.world.queue[j])
    {
      assert u.world.queue[i] == queue[|out| + i] && u.world.queue[j] == queue[|out| + j];
    }
  }

  lemma ReceiveKeeps(t: Trace, now: real, from: Side, source: Address, data: seq<Byte>)
    requires Inv(t) && AllBy(t.arrived, now)
    ensures Inv(Extend(t, Arrived(now, from, source, data)))
  {
    hide Receive, StreamOk, OnTime, CountOf, Copies, PushAll, Before;
    var (next, copies) := Receive(t.world, now, from, source, data);
    ReceiveHolds(t.world, now, from, source, data);
    ReceiveOnTime(t.world, now, from, source, data);
    var u := Extend(t, Arrived(now, from, source, data));
    assert u == Trace(next, t.pushed + copies, t.arrived + Repeat(now, |copies|), t.released) by {
      assert t.released + [] == t.released;
    }
    forall q | q in t.world.queue
      ensures q.order <= t.world.order
    {
      KnownByNumber(t, q);
    }
    PushAllHolds(t.world.queue, copies, t.world.order);
    ReceiveTimes(t, u, now, from, copies);
    ReceiveConserves(t, u, copies);
    ReceiveBalances(t, u, from, copies);
    ReceiveOrders(t, u, copies);
    assert t.world.Direction(A) == t.world.a && t.world.Direction(B) == t.world.b;
    assert u.world.Direction(A) == u.world.a && u.world.Direction(B) == u.world.b;
  }

  lemma ReceiveTimes(t: Trace, u: Trace, now: real, from: Side, copies: seq<Entry>)
    requires PushedOk(t) && AllBy(t.arrived, now)
    requires Numbered(copies, t.world.order) && u.world.order == t.world.order + |copies|
    requires u.pushed == t.pushed + copies && u.arrived == t.arrived + Repeat(now, |copies|)
    requires forall side :: u.world.Direction(side).faults == t.world.Direction(side).faults
    requires forall e :: e in copies ==> e.way == from && OnTime(e, now, t.world.Direction(from).faults)
    ensures PushedOk(u)
  {
    hide OnTime;
    var n := |t.pushed|;
    forall i | 0 <= i < |u.pushed|
      ensures OnTime(u.pushed[i], u.arrived[i], u.world.Direction(u.pushed[i].way).faults)
    {
      if i >= n {
        assert u.pushed[i] == copies[i - n] && copies[i - n] in copies;
      }
    }
  }

  lemma ReceiveConserves(t: Trace, u: Trace, copies: seq<Entry>)
    requires Conserved(t) && u.pushed == t.pushed + copies && u.released == t.released
    requires multiset(u.world.queue) == multiset(t.world.queue) + multiset(copies)
    ensures Conserved(u)
  {}

  lemma {:induction false} CountOfAll(s: seq<Entry>, from: Side)
    requires forall e :: e in s ==> e.way == from
    ensures CountOf(s, from) == |s| && CountOf(s, Other(from)) == 0
  {
    if s != [] {
      assert s[|s| - 1] in s;
      CountOfAll(s[..|s| - 1], from);
    }
  }

  lemma ReceiveBalances(t: Trace, u: Trace, from: Side, copies: seq<Entry>)
    requires Balanced(t) && u.pushed == t.pushed + copies && u.released == t.released
    requires forall e :: e in copies ==> e.way == from
    requires u.world.Direction(Other(from)) == t.world.Direction(Other(from))
    requires Copies(u.world.Direction(from).counts) == Copies(t.world.Direction(from).counts) + |copies|
    requires u.world.Direction(from).counts.forwarded == t.world.Direction(from).counts.forwarded
    ensures Balanced(u)
  {
    hide CountOf, Copies;
    CountOfAll(copies, from);
    forall side
      ensures Copies(u.world.Direction(side).counts) == CountOf(u.pushed, side)
      ensures u.world.Direction(side).counts.forwarded <= CountOf(u.released, side)
    {
      CountOfSum(t.pushed, copies, side);
      assert side == from || side == Other(from);
    }
  }

  lemma ReceiveOrders(t: Trace, u: Trace, copies: seq<Entry>)
    requires InOrder(t) && PushedOk(t) && Conserved(t) && Numbered(copies, t.world.order) && u.released == t.released
    requires Sorted(u.world.queue) && multiset(u.world.queue) == multiset(t.world.queue) + multiset(copies)
    ensures InOrder(u)
  {
    hide Before;
    forall i, q | 0 <= i < |u.released| && q in u.world.queue && u.released[i].order >= q.order
      ensures Before(u.released[i], q)
    {
      assert q in multiset(u.world.queue);
      KnownByNumber(t, t.released[i]);
      assert forall k :: 0 <= k < |copies| ==> copies[k].order > t.released[i].order;
      assert q in t.world.queue;
    }
  }

  /** Every copy so far arrived no later than `now`. */
  predicate AllBy(arrived: seq<real>, now: real) {
    forall i :: 0 <= i < |arrived| ==> arrived[i] <= now
  }

  lemma {:induction false} ArrivedBy(w: World, events: seq<Event>, now: real)
    requires forall k :: 0 <= k < |events| ==> events[k].now <= now
    ensures AllBy(Run(w, events).arrived, now)
  {
    hide Step;
    if events != [] {
      var n := |events| - 1;
      ArrivedBy(w, events[..n], now);
      var added := Repeat(events[n].now, |Step(Run(w, events[..n]).world, events[n]).1|);
      assert AllBy(added, now);
      assert Run(w, events).arrived == Run(w, events[..n]).arrived + added;
    }
  }

  lemma {:induction false} InvAlways(w: World, events: seq<Event>)
    requires Fresh(w) && Ordered(events)
    ensures Inv(Run(w, events))
  {
    hide Extend, StreamOk, OnTime, CountOf;
    if events == [] {
      EmptyTrace(w);
    } else {
      var n := |events| - 1;
      InvAlways(w, events[..n]);
      ArrivedBy(w, events[..n], events[n].now);
      var t := Run(w, events[..n]);
      match events[n]
      case Released(now, fails) => ReleaseKeeps(t, now, fails);
      case Arrived(now, from, source, data) => ReceiveKeeps(t, now, from, source, data);
    }
  }

  lemma EmptyTrace(w: World)
    requires Fresh(w)
    ensures Inv(Trace(w, [], [], []))
  {
    hide StreamOk;
  }

  // ---- what a copy carries ----

  /** The event is the arrival of the packet this copy was made of. */
  predicate CopyOf(event: Event, e: Entry, at: real) {
    event.Arrived? && event.from == e.way && event.data == e.data && event.now == at
  }

  /** Copy `k` of a trace was made of one of the events, and that packet came from the one game known on its side. */
  ghost predicate FromArrival(events: seq<Event>, t: Trace, k: nat)
    requires k < |t.pushed| && k < |t.arrived|
  {
    exists i :: 0 <= i < |events| && OfGame(events[i], t.pushed[k], t.arrived[k], t.world)
  }

  predicate OfGame(event: Event, e: Entry, at: real, w: World) {
    CopyOf(event, e, at) && w.Game(e.way) == Some(event.source)
  }

  /** A game's address, once known, stays. */
  lemma GameStays(w: World, event: Event, side: Side)
    requires w.Game(side).Some?
    ensures Step(w, event).0.Game(side) == w.Game(side)
  {
    hide FateOf, Counted, Delays, PushAll, Entries, InOutage;
    match event
    case Released(now, fails) => ReleaseGames(w, now, fails);
    case Arrived(_, _, _, _) =>
  }

  lemma {:induction false} ReleaseGames(w: World, now: real, fails: set<nat>)
    ensures Release(w, now, fails).0.gameA == w.gameA && Release(w, now, fails).0.gameB == w.gameB
    decreases |w.queue|
  {
    if w.queue != [] && w.queue[0].time <= now {
      ReleaseGames(Send(w.(queue := w.queue[1..]), w.queue[0], fails), now, fails);
    }
  }

  lemma StepCopies(w: World, event: Event, k: nat)
    requires k < |Step(w, event).1|
    ensures OfGame(event, Step(w, event).1[k], event.now, Step(w, event).0)
  {
    hide FateOf, Counted, Delays, PushAll, Release;
  }

  lemma {:induction false} CopiesFromArrivals(w: World, events: seq<Event>, k: nat)
    requires k < |Run(w, events).pushed| == |Run(w, events).arrived|
    ensures FromArrival(events, Run(w, events), k)
  {
    hide Step, CopyOf, World.Game;
    if events == [] {
      assert false;
    } else {
      var n := |events| - 1;
      var front, e := events[..n], events[n];
      var t := Run(w, front);
      SameCount(w, front);
      if k < |t.pushed| {
        CopiesFromArrivals(w, front, k);
        var i :| 0 <= i < |front| && OfGame(front[i], t.pushed[k], t.arrived[k], t.world);
        assert events[i] == front[i];
        GameStays(t.world, e, t.pushed[k].way);
        assert OfGame(events[i], Run(w, events).pushed[k], Run(w, events).arrived[k], Run(w, events).world);
      } else {
        StepCopies(t.world, e, k - |t.pushed|);
        assert OfGame(events[n], Run(w, events).pushed[k], Run(w, events).arrived[k], Run(w, events).world);
      }
    }
  }

  lemma {:induction false} SameCount(w: World, events: seq<Event>)
    ensures |Run(w, events).pushed| == |Run(w, events).arrived|
  {
    hide Step;
    if events != [] {
      SameCount(w, events[..|events| - 1]);
    }
  }

  // ---- main results ----

  /** Every copy released carries the data of a packet that arrived on its own side, from the one game known there. */
  lemma ReleasedCarriesItsPacket(w: World, events: seq<Event>, j: nat)
    requires Fresh(w) && Ordered(events) && j < |Run(w, events).released|
    ensures exists i ::
      0 <= i < |events| && events[i].Arrived?
      && events[i].from == Run(w, events).released[j].way && events[i].data == Run(w, events).released[j].data
      && Run(w, events).world.Game(events[i].from) == Some(events[i].source)
  {
    hide Run, Step, OnTime, CountOf;
    InvAlways(w, events);
    var t := Run(w, events);
    var e := t.released[j];
    KnownByNumber(t, e);
    CopiesFromArrivals(w, events, e.order - 1);
    var i :| 0 <= i < |events| && OfGame(events[i], t.pushed[e.order - 1], t.arrived[e.order - 1], t.world);
    assert events[i].Arrived?;
  }

  /**
    Conservation over every run: in each direction, the copies released and those still queued are together the
    packets received, less those lost or blacked out, plus those doubled; and no copy is released twice.
  */
  lemma CopiesAreConserved(w: World, events: seq<Event>, side: Side)
    requires Fresh(w) && Ordered(events)
    ensures var t := Run(w, events); var c := t.world.Direction(side).counts;
      && CountOf(t.released, side) + CountOf(t.world.queue, side) == c.received - c.lost - c.blackedOut + c.doubled
      && c.forwarded <= CountOf(t.released, side)
      && (forall i, j :: 0 <= i < j < |t.released| ==> t.released[i].order != t.released[j].order)
  {
    hide Run, CountOf;
    InvAlways(w, events);
    var t := Run(w, events);
    CountOfSum(t.released, t.world.queue, side);
    CountOfMultiset(t.pushed, t.released + t.world.queue, side);
    forall i, j | 0 <= i < j < |t.released|
      ensures t.released[i].order != t.released[j].order
    {
      if t.released[i].order == t.released[j].order {
        KnownByNumber(t, t.released[i]);
        KnownByNumber(t, t.released[j]);
        assert false;
      }
    }
  }

  lemma Without(t: seq<Entry>, i: nat, side: Side)
    requires i < |t|
    ensures var rest := t[..i] + t[i + 1..];
      && |rest| < |t| && multiset(rest) == multiset(t) - multiset{t[i]}
      && CountOf(t, side) == CountOf(rest, side) + (if t[i].way == side then 1 else 0)
  {
    var front, one, back := t[..i], [t[i]], t[i + 1..];
    OneCount(t[i], side);
    hide CountOf;
    CountOfSum(front, one, side);
    CountOfSum(front + one, back, side);
    CountOfSum(front, back, side);
    assert t == front + one + back;
  }

  lemma OneCount(e: Entry, side: Side)
    ensures CountOf([e], side) == if e.way == side then 1 else 0
  {}

  lemma {:induction false} CountOfMultiset(s: seq<Entry>, t: seq<Entry>, side: Side)
    requires multiset(s) == multiset(t)
    ensures CountOf(s, side) == CountOf(t, side)
    decreases |s|
  {
    hide CountOf;
    assert |s| == |multiset(s)| == |multiset(t)| == |t|;
    if s != [] {
      assert s[0] in multiset(t);
      var i :| 0 <= i < |t| && t[i] == s[0];
      Without(s, 0, side);
      Without(t, i, side);
      CountOfMultiset(s[..0] + s[1..], t[..i] + t[i + 1..], side);
    }
  }

  /**
    Overtaking is bounded: when a copy of a later packet leaves before a copy of an earlier one of the same direction,
    its packet arrived less than the hold plus twice the jitter after the other.
  */
  lemma OvertakingIsBounded(w: World, events: seq<Event>, i: nat, j: nat)
    requires Fresh(w) && Ordered(events)
    requires var out := Run(w, events).released;
      i < j < |out| && out[i].way == out[j].way && out[j].order < out[i].order
    ensures var t := Run(w, events); var late, early := t.released[i], t.released[j];
      && late.order <= |t.arrived| && 1 <= early.order
      && t.arrived[late.order - 1] - t.arrived[early.order - 1] < Spread(t.world.Direction(late.way).faults)
  {
    hide Run, Low, High, Spread;
    InvAlways(w, events);
    var t := Run(w, events);
    var late, early := t.released[i], t.released[j];
    KnownByNumber(t, late);
    KnownByNumber(t, early);
    var way := t.world.Direction(late.way);
    BoundsApart(way.faults);
  }

  lemma BoundsApart(f: Faults)
    ensures High(f) - Low(f) <= Spread(f)
  {
    DelaysBetween(f, _ => 0.0, 0, false);
  }

  /** Without jitter and without holding back, each direction is released in the order its copies arrived. */
  lemma InArrivalOrder(w: World, events: seq<Event>, i: nat, j: nat)
    requires Fresh(w) && Ordered(events)
    requires var t := Run(w, events);
      && i < j < |t.released| && t.released[i].way == t.released[j].way
      && Spread(t.world.Direction(t.released[i].way).faults) == 0.0
    ensures var t := Run(w, events); t.released[i].order < t.released[j].order
  {
    hide Run, Spread;
    var t := Run(w, events);
    InvAlways(w, events);
    CopiesAreConserved(w, events, A);
    var e, f := t.released[i], t.released[j];
    if f.order < e.order {
      OvertakingIsBounded(w, events, i, j);
      KnownByNumber(t, f);
      KnownByNumber(t, e);
      assert false;
    }
  }

  /** The spread is nought exactly when there is no jitter and nothing is held back. */
  lemma NoSpreadExactly(f: Faults)
    ensures Spread(f) == 0.0 <==> f.jitter == 0.0 && (f.reorder <= 0.0 || f.extra == 0.0)
  {}

  /** A release leaves nothing due behind and takes nothing that is not due. */
  lemma ReleasedWhenDue(w: World, events: seq<Event>, now: real, fails: set<nat>)
    requires Fresh(w) && Ordered(events)
    ensures var t := Run(w, events); var (next, out) := Release(t.world, now, fails);
      && (forall e :: e in out ==> e.time <= now)
      && (forall e :: e in next.queue ==> e.time > now)
      && multiset(t.world.queue) == multiset(out) + multiset(next.queue)
  {
    hide Run, Release;
    InvAlways(w, events);
    var t := Run(w, events);
    ReleaseHolds(t.world, now, fails);
    var (next, out) := Release(t.world, now, fails);
    forall e | e in next.queue
      ensures e.time > now
    {
      var k :| 0 <= k < |next.queue| && next.queue[k] == e;
      assert t.world.queue[|out|] == next.queue[0] && t.world.queue[|out| + k] == e;
      assert k > 0 ==> Before(t.world.queue[|out|], t.world.queue[|out| + k]);
    }
  }
}
