/** Day 13: the shuttle buses. Part 1 picks the bus that leaves first after a timestamp; part 2
    is a constant solution of the departure congruences. */
module Day13 {
  import opened Wrappers
  import opened Arith

  /** The minutes to wait for `bus` after `timestamp`, `bus - timestamp % bus`. A bus that leaves
      exactly at the timestamp counts as a full period away, as in the source. */
  function Delay(bus: nat, timestamp: nat): nat
    requires bus > 0
  {
    bus - timestamp % bus
  }

  /** The delay is between 1 and the period, and the bus leaves at `timestamp + delay`. */
  lemma DelaySpec(bus: nat, timestamp: nat)
    requires bus > 0
    ensures 1 <= Delay(bus, timestamp) <= bus
    ensures (timestamp + Delay(bus, timestamp)) % bus == 0
  {
    var q, r := timestamp / bus, timestamp % bus;
    RowCol(timestamp, bus);
    assert timestamp + Delay(bus, timestamp) == (q + 1) * bus + 0;
    DivModUnique(q + 1, 0, bus);
  }

  /** No earlier time after the timestamp is a departure of `bus`. */
  lemma DelayIsFirst(bus: nat, timestamp: nat, wait: nat)
    requires bus > 0 && 1 <= wait < Delay(bus, timestamp)
    ensures (timestamp + wait) % bus != 0
  {
    var q, r := timestamp / bus, timestamp % bus;
    RowCol(timestamp, bus);
    assert timestamp + wait == q * bus + (r + wait);
    DivModUnique(q, r + wait, bus);
  }

  /** Every bus has a positive period. */
  predicate Positive(buses: seq<nat>) {
    forall i :: 0 <= i < |buses| ==> buses[i] > 0
  }

  /** `min_by` on the delays: the index of the first bus with the smallest delay, among the
      first `n` buses. */
  function FirstMin(buses: seq<nat>, timestamp: nat, n: nat): (k: nat)
    requires Positive(buses) && 0 < n <= |buses|
    ensures k < n
    ensures forall i :: 0 <= i < k ==> Delay(buses[k], timestamp) < Delay(buses[i], timestamp)
    ensures forall i :: k <= i < n ==> Delay(buses[k], timestamp) <= Delay(buses[i], timestamp)
  {
    if n == 1 then 0
    else
      var k := FirstMin(buses, timestamp, n - 1);
      if Delay(buses[n - 1], timestamp) < Delay(buses[k], timestamp) then n - 1 else k
  }

  /** `part1`: the bus with the smallest delay (the first among equals) times its delay; `None`
      on an empty list, where the source's `unwrap` panics. */
  function Part1(buses: seq<nat>, timestamp: nat): (r: Option<nat>)
    requires Positive(buses)
    ensures r.None? <==> |buses| == 0
  {
    if |buses| == 0 then None
    else
      var k := FirstMin(buses, timestamp, |buses|);
      Some(buses[k] * Delay(buses[k], timestamp))
  }

  /** The result is `bus * delay` for a bus whose delay is no larger than any other's and
      strictly smaller than every earlier bus's, and at that delay the bus does leave. */
  lemma Part1Spec(buses: seq<nat>, timestamp: nat)
    requires Positive(buses) && |buses| > 0
    ensures exists k :: && 0 <= k < |buses|
                        && Part1(buses, timestamp) == Some(buses[k] * Delay(buses[k], timestamp))
                        && (forall i :: 0 <= i < k ==> Delay(buses[k], timestamp) < Delay(buses[i], timestamp))
                        && (forall i :: 0 <= i < |buses| ==> Delay(buses[k], timestamp) <= Delay(buses[i], timestamp))
                        && (timestamp + Delay(buses[k], timestamp)) % buses[k] == 0
  {
    var k := FirstMin(buses, timestamp, |buses|);
    DelaySpec(buses[k], timestamp);
  }

  /** The puzzle's buses, in the source's order, and its timestamp. */
  const Buses: seq<nat> := [13, 37, 449, 29, 19, 23, 773, 41, 17]
  const Timestamp: nat := 1002576

  /** On the puzzle's data bus 773 leaves first, after 5 minutes: 3865. */
  lemma Part1Answer(buses: seq<nat>)
    requires buses == Buses
    ensures Positive(buses) && Part1(buses, Timestamp) == Some(3865)
  {
    assert Positive(buses);
    assert FirstMin(buses, Timestamp, |buses|) == 6 by {
      assert Delay(buses[6], Timestamp) == 5;
      forall i | 0 <= i < |buses| && i != 6 ensures Delay(buses[i], Timestamp) > 5 {
      }
      FirstMinUnique(buses, Timestamp, 6);
    }
  }

  /** A bus strictly ahead of all others is the one `min_by` picks. */
  lemma FirstMinUnique(buses: seq<nat>, timestamp: nat, k: nat)
    requires Positive(buses) && k < |buses|
    requires forall i :: 0 <= i < |buses| && i != k ==> Delay(buses[k], timestamp) < Delay(buses[i], timestamp)
    ensures FirstMin(buses, timestamp, |buses|) == k
  {
    var m := FirstMin(buses, timestamp, |buses|);
    assert Delay(buses[m], timestamp) <= Delay(buses[k], timestamp);
  }

  /** The offsets of part 2: bus `Buses[i]` must leave `Offsets[i]` minutes after `t`. */
  const Offsets: seq<nat> := [0, 7, 13, 15, 32, 36, 44, 54, 61]

  /** `part2`: the constant answer. */
  function Part2(): nat {
    415579909629976
  }

  /** `t` solves the part 2 congruences: each bus leaves at `t` plus its offset. */
  predicate Solves(t: nat) {
    forall i :: 0 <= i < |Buses| ==> (t + Offsets[i]) % Buses[i] == 0
  }

  /** The product of the periods. */
  const Period: nat := 1474630201287997

  /** The constant does solve the congruences, and so does every later time a whole number of
      periods on, as the closed form `t = 1474630201287997 n + 415579909629976` says. */
  lemma Part2Solves(n: nat)
    ensures Solves(Part2() + n * Period)
  {
    var t := Part2() + n * Period;
    forall i | 0 <= i < |Buses| ensures (t + Offsets[i]) % Buses[i] == 0 {
      var b := Buses[i];
      var c := Period / b;
      assert Period == b * c;
      assert (Part2() + Offsets[i]) % b == 0;
      var q := (Part2() + Offsets[i]) / b;
      assert t + Offsets[i] == b * (q + n * c) by {
        assert n * Period == b * (n * c);
      }
      ModOfMultiple(b, q + n * c);
    }
  }

  lemma ModOfMultiple(b: nat, k: nat)
    requires b > 0
    ensures (b * k) % b == 0
  {
    DivModUnique(k, 0, b);
    assert b * k == k * b + 0;
  }

  lemma PeriodIsProduct()
    ensures Period == 13 * 37 * 449 * 29 * 19 * 23 * 773 * 41 * 17
  {
  }
}
