/** Propagation delays from latched receive times: the arithmetic of the measurement and its error bound. */
module DcDelay {
  import opened Bytes

  const WRAP := 0x1_0000_0000

  /** The time between two latches of one 32-bit clock, as coded with its two branches. */
  function LoopTime(first: u32, second: u32): u32 {
    if first < second then second - first else (WRAP + second - first) % WRAP
  }

  /** Both branches are the subtraction modulo 2^32. */
  lemma LoopTimeIsDifference(first: u32, second: u32)
    ensures LoopTime(first, second) == (second - first) % WRAP
  {
  }

  /** Latching at times x and y of a clock with an arbitrary base loses nothing as long as y - x fits 32 bits. */
  lemma LoopTimeExact(base: nat, x: nat, y: nat)
    requires x <= y < x + WRAP
    ensures LoopTime((base + x) % WRAP, (base + y) % WRAP) == y - x
  {
    var a, b := base + x, y - x;
    LoopTimeIsDifference(a % WRAP, (a + b) % WRAP);
    assert ((a + b) % WRAP - a % WRAP) % WRAP == b;
  }

  /** One measurement: the delay is set, or averaged with halves that are truncated one by one. None stands for an
      arithmetic overflow. */
  function Measured(delay: u32, parentDelay: u32, outer: u32, inner: u32): Option<u32> {
    if outer < inner then None
    else
      var sum := parentDelay + (outer - inner) / 2;
      if sum >= WRAP then None
      else if delay == 0 then Some(sum)
      else if delay / 2 + sum / 2 >= WRAP then None else Some(delay / 2 + sum / 2)
  }

  // ------------------------------------------------------------------ a line of slaves

  /** Time from the first slave to slave i; `link[i]` is the delay of the link before slave i. */
  function Arrive(link: seq<nat>, i: nat): nat
    requires i < |link|
  {
    if i == 0 then 0 else Arrive(link, i - 1) + link[i]
  }

  lemma {:induction false} ArriveMonotone(link: seq<nat>, i: nat, j: nat)
    requires i <= j < |link|
    ensures Arrive(link, i) <= Arrive(link, j)
    decreases j
  {
    if i < j { ArriveMonotone(link, i, j - 1); }
  }

  /** When the frame passes slave i on its way back, seen from the first slave. */
  function Return(link: seq<nat>, i: nat): (t: nat)
    requires i < |link|
    ensures t >= Arrive(link, i)
  {
    ArriveMonotone(link, i, |link| - 1);
    2 * Arrive(link, |link| - 1) - Arrive(link, i)
  }

  /** The true delay of slave i behind the reference slave f. */
  function TrueDelay(link: seq<nat>, f: nat, i: nat): (t: nat)
    requires f <= i < |link|
  {
    ArriveMonotone(link, f, i);
    Arrive(link, i) - Arrive(link, f)
  }

  /** The round trip fits the 32-bit clocks. */
  predicate ShortLine(link: seq<nat>) {
    |link| >= 1 && 2 * Arrive(link, |link| - 1) < WRAP
  }

  /** The measurement at slave i > 0: half the difference of the loops seen by its parent and by itself is the
      delay of the link between them, for any clock bases. */
  lemma LinkDelayExact(link: seq<nat>, i: nat, parentBase: nat, base: nat)
    requires ShortLine(link) && 0 < i < |link|
    ensures var outer := LoopTime((parentBase + Arrive(link, i - 1)) % WRAP, (parentBase + Return(link, i - 1)) % WRAP);
      var inner := if i == |link| - 1 then 0 else
        LoopTime((base + Arrive(link, i)) % WRAP, (base + Return(link, i)) % WRAP);
      outer - inner == 2 * link[i] && inner <= outer
  {
    LoopOfSlave(link, i - 1, parentBase);
    LoopOfSlave(link, i, base);
  }

  lemma LoopOfSlave(link: seq<nat>, i: nat, base: nat)
    requires ShortLine(link) && i < |link|
    ensures LoopTime((base + Arrive(link, i)) % WRAP, (base + Return(link, i)) % WRAP)
      == 2 * (Arrive(link, |link| - 1) - Arrive(link, i))
  {
    ArriveMonotone(link, i, |link| - 1);
    LoopTimeExact(base, Arrive(link, i), Return(link, i));
  }

  /** The error after any number of rounds: at most one unit per hop from the reference, and never above. */
  predicate WithinHops(delay: nat, link: seq<nat>, f: nat, i: nat)
    requires f <= i < |link|
  {
    TrueDelay(link, f, i) - (i - f) <= delay <= TrueDelay(link, f, i)
  }

  /** A measurement keeps the bound, and the first one is exact behind an exact parent. */
  lemma MeasurementKeepsBound(link: seq<nat>, f: nat, i: nat, delay: u32, parentDelay: u32, outer: u32, inner: u32)
    requires ShortLine(link) && f < i < |link| && outer - inner == 2 * link[i] && inner <= outer
    requires WithinHops(parentDelay, link, f, i - 1)
    requires delay == 0 || WithinHops(delay, link, f, i)
    ensures Measured(delay, parentDelay, outer, inner).Some?
    ensures WithinHops(Measured(delay, parentDelay, outer, inner).value, link, f, i)
    ensures delay == 0 && parentDelay == TrueDelay(link, f, i - 1) ==>
      Measured(delay, parentDelay, outer, inner).value == TrueDelay(link, f, i)
  {
    ArriveMonotone(link, i, |link| - 1);
    assert TrueDelay(link, f, i) == TrueDelay(link, f, i - 1) + link[i];
    assert (outer - inner) / 2 == link[i];
  }
}
