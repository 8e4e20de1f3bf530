/**
 * The simulation loop of the C++ harness that makeMain generates: dump the
 * trace at time 0, then step the time by one, drive the clock when the design
 * has a clock port, evaluate and dump again, until the design calls `$finish`
 * or the time reaches the ceiling.
 *
 * The design under test is not visible here: whether it has finished after
 * the evaluation at time `t` is the oracle `finished(t)`.
 */
module Harness {

  /** The ceiling on the simulated time. */
  const MaxTime: nat := 1000000

  /** The level the harness drives on `clk` at time `t`: high in the second half of every ten steps. */
  predicate ClockHigh(t: nat) {
    t % 10 >= 5
  }

  /** The times 0 to `n`, in order. */
  function Times(n: nat): (r: seq<nat>)
    ensures |r| == n + 1
  {
    if n == 0 then [0] else Times(n - 1) + [n]
  }

  /** The dump at position `i` is the one taken at time `i`. */
  lemma {:induction false} TimesAt(n: nat, i: nat)
    requires i <= n
    ensures Times(n)[i] == i
  {
    if i < n {
      TimesAt(n - 1, i);
    }
  }

  /** The levels driven at times 1 to `n`. */
  function ClockTrace(n: nat): (r: seq<bool>)
    ensures |r| == n
  {
    if n == 0 then [] else ClockTrace(n - 1) + [ClockHigh(n)]
  }

  /** The driven level at position `i` of the trace is the clock level at time `i + 1`. */
  lemma {:induction false} ClockTraceAt(n: nat, i: nat)
    requires i < n
    ensures ClockTrace(n)[i] == ClockHigh(i + 1)
  {
    if i < n - 1 {
      ClockTraceAt(n - 1, i);
    }
  }

  /**
   * The time at which the loop, reaching time `t`, stops: the first time from
   * `t` on after which the design has finished, or the ceiling.
   */
  function StopTime(finished: nat -> bool, t: nat): (stop: nat)
    requires t <= MaxTime
    ensures t <= stop <= MaxTime
    ensures finished(stop) || stop == MaxTime
    ensures forall u :: t <= u < stop ==> !finished(u)
    decreases MaxTime - t
  {
    if finished(t) || t == MaxTime then t else StopTime(finished, t + 1)
  }

  /** A time from which the design stays unfinished up to a stopping point `t` stops at `t`. */
  lemma {:induction false} StopFrom(finished: nat -> bool, s: nat, t: nat)
    requires s <= t <= MaxTime
    requires finished(t) || t == MaxTime
    requires forall u :: s <= u < t ==> !finished(u)
    ensures StopTime(finished, s) == t
    decreases t - s
  {
    if s < t {
      StopFrom(finished, s + 1, t);
    }
  }

  /**
   * The generated loop. `dumps` lists the times at which the trace was dumped
   * and `driven` the clock levels set at times 1, 2, ..., when the clock is
   * driven at all.
   */
  method RunHarness(driveClk: bool, finished: nat -> bool) returns (dumps: seq<nat>, driven: seq<bool>)
    ensures dumps == Times(StopTime(finished, 0))
    ensures driveClk ==> driven == ClockTrace(|dumps| - 1)
    ensures !driveClk ==> driven == []
  {
    var t: nat := 0;
    dumps := [t];
    driven := [];
    while !finished(t) && t < MaxTime
      invariant t <= MaxTime
      invariant forall u: nat :: u < t ==> !finished(u)
      invariant dumps == Times(t)
      invariant driveClk ==> driven == ClockTrace(t)
      invariant !driveClk ==> driven == []
      decreases MaxTime - t
    {
      t := t + 1;
      if driveClk {
        driven := driven + [ClockHigh(t)];
      }
      dumps := dumps + [t];
    }
    StopFrom(finished, 0, t);
  }

  /** The clock repeats every ten steps. */
  lemma ClockPeriod(t: nat)
    ensures ClockHigh(t + 10) == ClockHigh(t)
  {
  }

  /** The clock rises exactly at the times that leave 5 after division by ten. */
  lemma RisingEdge(t: nat)
    requires t >= 1
    ensures (ClockHigh(t) && !ClockHigh(t - 1)) <==> t % 10 == 5
  {
  }

  /** The clock falls exactly at the positive multiples of ten. */
  lemma FallingEdge(t: nat)
    requires t >= 1
    ensures (!ClockHigh(t) && ClockHigh(t - 1)) <==> t % 10 == 0
  {
  }

  /** The number of rising edges the harness drives up to time `t`. */
  function Rises(t: nat): nat {
    if t == 0 then 0 else Rises(t - 1) + (if ClockHigh(t) && !ClockHigh(t - 1) then 1 else 0)
  }

  /** Up to time `t` the clock has risen once per completed half-period offset: (t + 5) / 10 times. */
  lemma {:induction false} RisesCount(t: nat)
    ensures Rises(t) == (t + 5) / 10
  {
    if t > 0 {
      RisesCount(t - 1);
      RisingEdge(t);
      EdgeStep(t);
    }
  }

  /** Moving from `t - 1` to `t` adds one to `(t + 5) / 10` exactly at the times that leave 5. */
  lemma EdgeStep(t: nat)
    requires t >= 1
    ensures (t + 5) / 10 == (t + 4) / 10 + (if t % 10 == 5 then 1 else 0)
  {
    var q := t / 10;
    assert t == 10 * q + t % 10;
  }

  /** However long the design runs, the harness gives it at most 100000 rising clock edges. */
  lemma MaxRisingEdges(finished: nat -> bool)
    ensures Rises(StopTime(finished, 0)) <= 100000
  {
    var stop := StopTime(finished, 0);
    RisesCount(stop);
  }
}
