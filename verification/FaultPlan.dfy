/** What one direction of the fault proxy does to its packets (tools/net_fault_proxy.py, Direction). */
module FaultPlan {
  import opened Bytes

  /** Times in seconds, chances as fractions. */
  datatype Faults = Faults(delay: real, jitter: real, loss: real, dup: real, reorder: real, extra: real)

  /** Settings given in milliseconds and percent. */
  function Scaled(f: Faults): Faults {
    Faults(f.delay / 1000.0, f.jitter / 1000.0, f.loss / 100.0, f.dup / 100.0, f.reorder / 100.0, f.extra / 1000.0)
  }

  /** The counters of a direction. */
  datatype Counts = Counts(received: nat, lost: nat, doubled: nat, held: nat, blackedOut: nat, forwarded: nat,
      bytes: nat)

  /** A random stream: its draws in order, each in [0, 1). */
  ghost predicate StreamOk(draw: nat -> real) {
    forall n :: 0.0 <= draw(n) < 1.0
  }

  function Abs(v: real): real {
    if v < 0.0 then -v else v
  }

  function Max(v: real, w: real): real {
    if v < w then w else v
  }

  /** A draw from [0, 1) stretched over [-1, 1). */
  function Uniform(d: real): real {
    -1.0 + 2.0 * d
  }

  function Delay(f: Faults, j: real): real {
    Max(0.0, f.delay + f.jitter * j)
  }

  // ---- the fate of a packet, by its place in the stream ----

  datatype Fate = BlackedOut | Lost | Leaves(first: real, held: bool, copy: Option<real>)

  /** What happens to packet `n` of a direction: it reads draws 5n to 5n + 4 only. */
  function FateOf(f: Faults, draw: nat -> real, n: nat, outage: bool): Fate {
    if outage then BlackedOut
    else if draw(5 * n) < f.loss then Lost
    else
      var held := draw(5 * n + 2) < f.reorder;
      Leaves(Delay(f, Uniform(draw(5 * n + 3))) + (if held then f.extra else 0.0), held,
             if draw(5 * n + 1) < f.dup then Some(Delay(f, Uniform(draw(5 * n + 4)))) else None)
  }

  /** When the copies of a packet leave, counted from its arrival. */
  function Delays(fate: Fate): seq<real> {
    match fate
    case Leaves(first, _, copy) => if copy.Some? then [first, copy.value] else [first]
    case _ => []
  }

  function Counted(c: Counts, fate: Fate): Counts {
    var c := c.(received := c.received + 1);
    match fate
    case BlackedOut => c.(blackedOut := c.blackedOut + 1)
    case Lost => c.(lost := c.lost + 1)
    case Leaves(_, held, copy) =>
      c.(held := if held then c.held + 1 else c.held, doubled := if copy.Some? then c.doubled + 1 else c.doubled)
  }

  /** The copies the counters account for. */
  function Copies(c: Counts): int {
    c.received - c.lost - c.blackedOut + c.doubled
  }

  /** Every packet adds to that number exactly the copies it schedules. */
  lemma CountedBalances(c: Counts, fate: Fate)
    ensures Copies(Counted(c, fate)) == Copies(c) + |Delays(fate)|
    ensures Counted(c, fate).received == c.received + 1 && Counted(c, fate).forwarded == c.forwarded
  {}

  // ---- how far apart two delays of one direction can be ----

  /** What being held back can add. A chance of nought or less holds nothing. */
  function Hold(f: Faults): real {
    if f.reorder <= 0.0 then 0.0 else f.extra
  }

  function Low(f: Faults): real {
    Max(0.0, f.delay - Abs(f.jitter)) + (if Hold(f) < 0.0 then Hold(f) else 0.0)
  }

  function High(f: Faults): real {
    Max(0.0, f.delay + Abs(f.jitter)) + Max(0.0, Hold(f))
  }

  function Spread(f: Faults): real {
    Abs(Hold(f)) + 2.0 * Abs(f.jitter)
  }

  lemma Product(v: real, j: real)
    requires -1.0 <= j <= 1.0
    ensures -Abs(v) <= v * j <= Abs(v)
  {
    var m := Abs(v);
    NotNegative(m, 1.0 - j);
    NotNegative(m, 1.0 + j);
    assert m * (1.0 - j) == m - m * j && m * (1.0 + j) == m + m * j;
    assert v * j == m * j || v * j == -(m * j);
  }

  lemma NotNegative(v: real, w: real)
    requires v >= 0.0 && w >= 0.0
    ensures v * w >= 0.0
  {}

  /** A jittered delay stays within the jitter of the delay. */
  lemma DelayBetween(f: Faults, j: real)
    requires -1.0 <= j <= 1.0
    ensures Max(0.0, f.delay - Abs(f.jitter)) <= Delay(f, j) <= Max(0.0, f.delay + Abs(f.jitter))
  {
    Product(f.jitter, j);
  }

  /** Whatever is drawn, every copy leaves between Low and High after the packet's arrival. */
  lemma DelaysBetween(f: Faults, draw: nat -> real, n: nat, outage: bool)
    requires StreamOk(draw)
    ensures forall d :: d in Delays(FateOf(f, draw, n, outage)) ==> Low(f) <= d <= High(f)
    ensures High(f) - Low(f) <= Spread(f)
  {
    hide Delay, StreamOk;
    StreamDraw(draw, 5 * n + 2);
    StreamDraw(draw, 5 * n + 3);
    StreamDraw(draw, 5 * n + 4);
    DelayBetween(f, Uniform(draw(5 * n + 3)));
    DelayBetween(f, Uniform(draw(5 * n + 4)));
  }

  lemma StreamDraw(draw: nat -> real, n: nat)
    requires StreamOk(draw)
    ensures 0.0 <= draw(n) < 1.0
  {}

  // ---- a stream of packets ----

  /** One packet planned by drawing in turn from position `at`: its fate, and the position afterwards. */
  function PlanAt(f: Faults, draw: nat -> real, at: nat, outage: bool): (Fate, nat) {
    var (loss, dup, reorder) := (draw(at), draw(at + 1), draw(at + 2));
    var (first, second) := (Uniform(draw(at + 3)), Uniform(draw(at + 4)));
    if outage then (BlackedOut, at + 5)
    else if loss < f.loss then (Lost, at + 5)
    else
      (Leaves(if reorder < f.reorder then Delay(f, first) + f.extra else Delay(f, first), reorder < f.reorder,
              if dup < f.dup then Some(Delay(f, second)) else None), at + 5)
  }

  /** A stream of packets, each planned where the one before it stopped drawing. */
  function Fates(f: Faults, draw: nat -> real, at: nat, outages: seq<bool>): (fates: seq<Fate>)
    ensures |fates| == |outages|
    decreases |outages|
  {
    if outages == [] then []
    else
      var (fate, next) := PlanAt(f, draw, at, outages[0]);
      [fate] + Fates(f, draw, next, outages[1..])
  }

  lemma {:induction false} FatesByPosition(f: Faults, draw: nat -> real, n: nat, outages: seq<bool>, k: nat)
    requires k < |outages|
    ensures Fates(f, draw, 5 * n, outages)[k] == FateOf(f, draw, n + k, outages[k])
    decreases k
  {
    hide Delay, Uniform;
    if k > 0 {
      FatesByPosition(f, draw, n + 1, outages[1..], k - 1);
    }
  }

  /**
    Repeatable by seed: in two runs over one stream, packet k has the same fate whenever it meets the same outage flag,
    whatever was decided for the packets before it. Across different settings, a packet lost by the milder chance of
    loss is lost by the harsher too: one setting never shifts what another decides.
  */
  lemma FatesDoNotShift(f: Faults, g: Faults, draw: nat -> real, outages: seq<bool>, others: seq<bool>, k: nat)
    requires k < |outages| && k < |others| && outages[k] == others[k]
    ensures Fates(f, draw, 0, outages)[k] == Fates(f, draw, 0, others)[k]
    ensures f.loss <= g.loss && Fates(f, draw, 0, outages)[k] == Lost ==> Fates(g, draw, 0, others)[k] == Lost
  {
    hide Delay, Uniform, Fates;
    FatesByPosition(f, draw, 0, outages, k);
    FatesByPosition(f, draw, 0, others, k);
    FatesByPosition(g, draw, 0, others, k);
  }

  // ---- the bound on overtaking is reached ----

  /**
    Any gap below the spread is overtaken by some draws, when the delay covers the jitter and neither loss nor holding
    back is certain: the first packet is held and late, the second is not and early.
  */
  lemma SpreadIsReached(f: Faults, gap: real) returns (draw: nat -> real)
    requires 0.0 <= gap < Spread(f) && 0.0 <= f.jitter <= f.delay && 0.0 <= f.extra
    requires f.loss < 1.0 && 0.0 < f.reorder < 1.0
    ensures StreamOk(draw)
    ensures var (first, second) := (FateOf(f, draw, 0, false), FateOf(f, draw, 1, false));
      first.Leaves? && second.Leaves? && gap + second.first < first.first
  {
    var keep := Max(0.0, f.loss);
    var late := LateDraw(f, gap);
    draw := n => if n == 0 || n == 5 then keep else if n == 3 then late else if n == 7 then f.reorder else 0.0;
    EarlyAndLate(f, late);
    hide Delay, Spread;
    assert FateOf(f, draw, 0, false).first == Delay(f, Uniform(late)) + f.extra;
    assert FateOf(f, draw, 1, false).first == Delay(f, Uniform(0.0));
  }

  /** A draw so near 1 that the jitter it stands for is above the gap. */
  lemma LateDraw(f: Faults, gap: real) returns (late: real)
    requires 0.0 <= gap < Spread(f) && 0.0 <= f.jitter && 0.0 <= f.extra && 0.0 < f.reorder
    ensures 0.0 <= late < 1.0 && gap < 2.0 * (f.jitter * late) + f.extra
  {
    if f.jitter == 0.0 || gap < f.extra {
      late := 0.0;
    } else {
      // halfway between the draw that would just reach the gap and 1
      var reach := (gap - f.extra) / (2.0 * f.jitter);
      late := (reach + 1.0) / 2.0;
      Reached(f.jitter, gap - f.extra, reach);
      assert 2.0 * (f.jitter * late) == f.jitter * reach + f.jitter;
    }
  }

  lemma Reached(jitter: real, over: real, reach: real)
    requires jitter > 0.0 && 0.0 <= over < 2.0 * jitter && reach == over / (2.0 * jitter)
    ensures 0.0 <= reach < 1.0 && jitter * reach == over / 2.0
  {
    assert reach * (2.0 * jitter) == over;
  }

  lemma EarlyAndLate(f: Faults, late: real)
    requires 0.0 <= f.jitter <= f.delay && 0.0 <= late < 1.0
    ensures Delay(f, Uniform(0.0)) == f.delay - f.jitter
    ensures Delay(f, Uniform(late)) == f.delay - f.jitter + 2.0 * (f.jitter * late)
  {
    assert f.jitter * Uniform(0.0) == -f.jitter;
    assert f.jitter * Uniform(late) == -f.jitter + 2.0 * (f.jitter * late);
    NotNegative(f.jitter, late);
  }

  // ---- the direction itself ----

  class Direction {
    const faults: Faults
    const draw: nat -> real
    var drawn: nat
    var counts: Counts

    /** Five draws have been made for every packet. */
    ghost predicate Valid()
      reads this
    {
      StreamOk(draw) && drawn == 5 * counts.received
    }

    constructor (settings: Faults, stream: nat -> real)
      requires StreamOk(stream)
      ensures Valid() && faults == Scaled(settings) && draw == stream && counts == Counts(0, 0, 0, 0, 0, 0, 0)
    {
      faults, draw, drawn, counts := Scaled(settings), stream, 0, Counts(0, 0, 0, 0, 0, 0, 0);
    }

    method Random() returns (r: real)
      modifies this`drawn
      ensures r == draw(old(drawn)) && drawn == old(drawn) + 1
    {
      r := draw(drawn);
      drawn := drawn + 1;
    }

    /** The delays of the next packet's copies. */
    method Plan(inOutage: bool) returns (out: seq<real>)
      requires Valid()
      modifies this
      ensures Valid()
      ensures var fate := FateOf(faults, draw, old(counts.received), inOutage);
        out == Delays(fate) && counts == Counted(old(counts), fate)
    {
      hide Delay, Uniform, StreamOk;
      ghost var n := counts.received;
      counts := counts.(received := counts.received + 1);
      var loss := Random();
      var dup := Random();
      var reorder := Random();
      var firstJitter := Random();
      var secondJitter := Random();
      assert loss == draw(5 * n) && dup == draw(5 * n + 1) && reorder == draw(5 * n + 2);
      assert firstJitter == draw(5 * n + 3) && secondJitter == draw(5 * n + 4);
      if inOutage {
        counts := counts.(blackedOut := counts.blackedOut + 1);
        return [];
      }
      if loss < faults.loss {
        counts := counts.(lost := counts.lost + 1);
        return [];
      }
      var first := Delay(faults, Uniform(firstJitter));
      if reorder < faults.reorder {
        first := first + faults.extra;
        counts := counts.(held := counts.held + 1);
      }
      out := [first];
      if dup < faults.dup {
        out := [first, Delay(faults, Uniform(secondJitter))];
        counts := counts.(doubled := counts.doubled + 1);
      }
    }
  }
}
