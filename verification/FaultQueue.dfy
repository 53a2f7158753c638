/** The packets the fault proxy holds, and the events it serves (tools/net_fault_proxy.py, main). */
module FaultQueue {
  import opened Bytes
  import opened FaultPlan

  datatype Side = A | B

  datatype Address = Address(host: string, port: nat)

  /** A copy of a packet that leaves at `time`. `way` is the side it came from; it goes to the other. */
  datatype Entry = Entry(time: real, order: nat, way: Side, data: seq<Byte>)

  function Other(side: Side): Side {
    if side == A then B else A
  }

  // ---- the queue, smallest (time, order) first ----

  predicate Before(e: Entry, f: Entry) {
    e.time < f.time || (e.time == f.time && e.order < f.order)
  }

  function Insert(queue: seq<Entry>, e: Entry): seq<Entry> {
    if queue == [] || Before(e, queue[0]) then [e] + queue else [queue[0]] + Insert(queue[1..], e)
  }

  function PushAll(queue: seq<Entry>, entries: seq<Entry>): seq<Entry>
    decreases |entries|
  {
    if entries == [] then queue else PushAll(Insert(queue, entries[0]), entries[1..])
  }

  /** The copies of one packet, numbered on from `order`. */
  function Entries(order: nat, now: real, way: Side, data: seq<Byte>, delays: seq<real>): (r: seq<Entry>)
    ensures |r| == |delays|
  {
    seq(|delays|, i requires 0 <= i < |delays| => Entry(now + delays[i], order + 1 + i, way, data))
  }

  // ---- the proxy as a value ----

  datatype Way = Way(faults: Faults, draw: nat -> real, counts: Counts)

  datatype World = World(a: Way, b: Way, gameA: Option<Address>, gameB: Option<Address>, queue: seq<Entry>, order: nat,
                         started: Option<real>, outages: seq<(real, real)>)
  {
    function Direction(side: Side): Way {
      if side == A then a else b
    }

    function WithCounts(side: Side, counts: Counts): World {
      if side == A then this.(a := a.(counts := counts)) else this.(b := b.(counts := counts))
    }

    function Game(side: Side): Option<Address> {
      if side == A then gameA else gameB
    }

    function WithGame(side: Side, address: Address): World {
      if side == A then this.(gameA := Some(address)) else this.(gameB := Some(address))
    }
  }

  function InOutage(started: Option<real>, outages: seq<(real, real)>, now: real): bool {
    started.Some?
    && exists i :: 0 <= i < |outages| && outages[i].0 <= now - started.value < outages[i].0 + outages[i].1
  }

  /** Sends one copy, unless its game has not shown its address or the send fails. */
  function Send(w: World, e: Entry, fails: set<nat>): World {
    if w.Game(Other(e.way)).None? || e.order in fails then w
    else
      var counts := w.Direction(e.way).counts;
      w.WithCounts(e.way, counts.(forwarded := counts.forwarded + 1))
  }

  /** Releases what is due, in the order of the queue. */
  function Release(w: World, now: real, fails: set<nat>): (World, seq<Entry>)
    decreases |w.queue|
  {
    if w.queue == [] || w.queue[0].time > now then (w, [])
    else
      var next := Send(w.(queue := w.queue[1..]), w.queue[0], fails);
      var (last, rest) := Release(next, now, fails);
      (last, [w.queue[0]] + rest)
  }

  /** Takes one packet in. The second part is what it puts in the queue. */
  function Receive(w: World, now: real, from: Side, source: Address, data: seq<Byte>): (World, seq<Entry>) {
    var w := if w.started.None? then w.(started := Some(now)) else w;
    if w.Game(from).Some? && w.Game(from).value != source then (w, [])
    else
      var w := w.WithGame(from, source);
      var way := w.Direction(from);
      var fate := FateOf(way.faults, way.draw, way.counts.received, InOutage(w.started, w.outages, now));
      var counts := Counted(way.counts.(bytes := way.counts.bytes + |data|), fate);
      var copies := Entries(w.order, now, from, data, Delays(fate));
      (w.WithCounts(from, counts).(queue := PushAll(w.queue, copies), order := w.order + |copies|), copies)
  }

  lemma ReleaseStep(w: World, now: real, fails: set<nat>, released: seq<Entry>)
    requires w.queue != [] && w.queue[0].time <= now
    ensures var (e, sent) := (w.queue[0], Send(w.(queue := w.queue[1..]), w.queue[0], fails));
      var (last, rest) := Release(sent, now, fails);
      Release(w, now, fails) == (last, [e] + rest) && released + ([e] + rest) == (released + [e]) + rest
  {
    hide Send;
  }

  // ---- the proxy as it runs ----

  class Proxy {
    const ab: Direction
    const ba: Direction
    const outages: seq<(real, real)>
    var gameA: Option<Address>
    var gameB: Option<Address>
    var queue: seq<Entry>
    var order: nat
    var started: Option<real>

    ghost predicate Valid()
      reads this, ab, ba
    {
      ab != ba && ab.Valid() && ba.Valid()
    }

    ghost function View(): World
      reads this, ab, ba
    {
      World(Way(ab.faults, ab.draw, ab.counts), Way(ba.faults, ba.draw, ba.counts), gameA, gameB, queue, order, started,
        outages)
    }

    constructor (ab: Direction, ba: Direction, gameA: Option<Address>, gameB: Option<Address>,
        outages: seq<(real, real)>)
      requires ab != ba && ab.Valid() && ba.Valid()
      ensures Valid() && this.ab == ab && this.ba == ba
      ensures View()
        == World(Way(ab.faults, ab.draw, ab.counts), Way(ba.faults, ba.draw, ba.counts), gameA, gameB, [], 0, None,
        outages)
    {
      this.ab, this.ba, this.gameA, this.gameB, this.outages := ab, ba, gameA, gameB, outages;
      queue, order, started := [], 0, None;
    }

    /** The release loop at one moment. Sends of the copies numbered in `fails` raise an error. */
    method ReleaseDue(now: real, fails: set<nat>) returns (released: seq<Entry>)
      requires Valid()
      modifies this, ab, ba
      ensures Valid() && (View(), released) == Release(old(View()), now, fails)
    {
      released := [];
      assert [] + Release(View(), now, fails).1 == Release(View(), now, fails).1;
      while queue != [] && queue[0].time <= now
        invariant Valid()
        invariant var (last, rest) := Release(View(), now, fails);
          (last, released + rest) == Release(old(View()), now, fails)
        decreases |queue|
      {
        hide Send;
        var e := queue[0];
        ghost var was := View();
        queue := queue[1..];
        SendOne(e, fails);
        ReleaseStep(was, now, fails, released);
        released := released + [e];
      }
      assert released + [] == released;
    }

    /** One copy sent to the game on the other side, if it can be. */
    method SendOne(e: Entry, fails: set<nat>)
      requires Valid()
      modifies ab, ba
      ensures Valid() && View() == Send(old(View()), e, fails)
    {
      var target := if e.way == A then gameB else gameA;
      if target.Some? && e.order !in fails {
        if e.way == A {
          ab.counts := ab.counts.(forwarded := ab.counts.forwarded + 1);
        } else {
          ba.counts := ba.counts.(forwarded := ba.counts.forwarded + 1);
        }
      }
    }

    /** Queues the copies of one packet. */
    method Push(now: real, from: Side, data: seq<Byte>, delays: seq<real>)
      requires Valid()
      modifies this`queue, this`order
      ensures Valid() && var copies := Entries(old(order), now, from, data, delays);
        queue == PushAll(old(queue), copies) && order == old(order) + |copies|
    {
      ghost var copies := Entries(order, now, from, data, delays);
      ghost var final := PushAll(queue, copies);
      assert copies[0..] == copies;
      for i := 0 to |delays|
        invariant Valid() && order == old(order) + i
        invariant PushAll(queue, copies[i..]) == final
      {
        order := order + 1;
        queue := Insert(queue, Entry(now + delays[i], order, from, data));
        assert copies[i..][0] == copies[i] && copies[i..][1..] == copies[i + 1..];
      }
    }

    /** One packet read from the socket that faces the game `from`. */
    method Take(now: real, from: Side, source: Address, data: seq<Byte>) returns (ghost copies: seq<Entry>)
      requires Valid()
      modifies this, ab, ba
      ensures Valid() && (View(), copies) == Receive(old(View()), now, from, source, data)
    {
      hide FateOf, Counted, Entries, PushAll, InOutage, Delays;
      copies := [];
      if started.None? {
        started := Some(now);
      }
      var known := if from == A then gameA else gameB;
      if known.Some? && known.value != source {
        return;
      }
      if from == A {
        gameA := Some(source);
      } else {
        gameB := Some(source);
      }
      var way := if from == A then ab else ba;
      way.counts := way.counts.(bytes := way.counts.bytes + |data|);
      var delays := way.Plan(InOutage(started, outages, now));
      copies := Entries(order, now, from, data, delays);
      Push(now, from, data, delays);
    }
  }
}
