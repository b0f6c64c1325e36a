/**
  Paired timing blocks of the RISC-V benchmark matrix: the runner that builds
  them, the validator that reads them back, and the row selection both describe.

  Seconds and ratios are reals.
*/
module TimingMatrix {
  import opened Basics

  datatype Lane = Candidate | StarkV

  datatype RowClass = Proof | Execution

  /** What one external run measured; the runner raises the times to at least 1 ns. */
  datatype Measurement = Measurement(elapsedNs: int, cpuNs: int, cycles: int, phases: map<string, real>)

  datatype Sample = Sample(
    iteration: int, warmup: bool, orderPosition: int,
    durationNs: int, cpuTimeNs: int, cpuWallRatio: real, cycles: int, phases: map<string, real>)

  datatype Summary = Summary(candidateMedian: real, starkVMedian: real, ratio: real, cpuWallMedian: real)

  datatype Timing = Timing(
    mode: string, warmups: int, samples: int, orders: seq<seq<Lane>>,
    candidate: seq<Sample>, starkV: seq<Sample>, summary: Summary)

  const TINY: real := 0.000000000001
  const BILLION: real := 1000000000.0

  function Mode(row: RowClass): string {
    if row == Proof then "prove_verify" else "execution"
  }

  function AtLeastOne(n: int): int {
    if n < 1 then 1 else n
  }

  function WallRatio(cpuNs: int, durationNs: int): (r: real)
    requires durationNs > 0
    ensures r > 0.0
  {
    var r := cpuNs as real / durationNs as real;
    if r < TINY then TINY else r
  }

  // --- the validator --------------------------------------------------------

  predicate SampleOk(s: Sample, index: nat, warmups: int, position: int) {
    && s.iteration == index && s.warmup == (index < warmups)
    && (s.orderPosition == 0 || s.orderPosition == 1) && s.orderPosition == position
    && s.durationNs > 0 && s.cpuTimeNs >= 0 && s.cpuWallRatio > 0.0 && s.cycles > 0
    && s.phases != map[] && forall name | name in s.phases :: name != "" && s.phases[name] > 0.0
  }

  predicate OrderOk(order: seq<Lane>) {
    order == [Candidate, StarkV] || order == [StarkV, Candidate]
  }

  function Position(order: seq<Lane>, lane: Lane): (p: int)
    ensures p == 0 || p == 1
  {
    if order != [] && order[0] == lane then 0 else 1
  }

  predicate LaneOk(samples: seq<Sample>, lane: Lane, warmups: int, orders: seq<seq<Lane>>) {
    && |samples| == |orders|
    && forall i | 0 <= i < |samples| :: SampleOk(samples[i], i, warmups, Position(orders[i], lane))
  }

  predicate SummaryOk(s: Summary) {
    s.candidateMedian > 0.0 && s.starkVMedian > 0.0 && s.ratio > 0.0 && s.cpuWallMedian > 0.0
  }

  predicate TimingOk(t: Timing, row: RowClass) {
    && t.mode == Mode(row) && 0 <= t.warmups <= 10 && 1 <= t.samples <= 21
    && |t.orders| == t.warmups + t.samples && (forall o | o in t.orders :: OrderOk(o))
    && LaneOk(t.candidate, Candidate, t.warmups, t.orders) && LaneOk(t.starkV, StarkV, t.warmups, t.orders)
    && SummaryOk(t.summary)
  }

  method ValidateLane(samples: seq<Sample>, lane: Lane, warmups: int, orders: seq<seq<Lane>>) returns (ok: bool)
    ensures ok <==> LaneOk(samples, lane, warmups, orders)
  {
    if |samples| != |orders| {
      return false;
    }
    for i := 0 to |samples|
      invariant forall k | 0 <= k < i :: SampleOk(samples[k], k, warmups, Position(orders[k], lane))
    {
      if !SampleOk(samples[i], i, warmups, Position(orders[i], lane)) {
        return false;
      }
    }
    ok := true;
  }

  method ValidateTiming(t: Timing, row: RowClass) returns (ok: bool)
    ensures ok <==> TimingOk(t, row)
  {
    hide LaneOk, OrderOk;
    if t.mode != Mode(row) || !(0 <= t.warmups <= 10) || !(1 <= t.samples <= 21)
       || |t.orders| != t.warmups + t.samples {
      return false;
    }
    for i := 0 to |t.orders|
      invariant forall k | 0 <= k < i :: OrderOk(t.orders[k])
    {
      if !OrderOk(t.orders[i]) {
        assert t.orders[i] in t.orders;
        return false;
      }
    }
    var candidate := ValidateLane(t.candidate, Candidate, t.warmups, t.orders);
    var starkV := ValidateLane(t.starkV, StarkV, t.warmups, t.orders);
    ok := candidate && starkV && SummaryOk(t.summary);
  }

  // --- medians --------------------------------------------------------------

  predicate Ascending(s: seq<real>) {
    forall i, j | 0 <= i < j < |s| :: s[i] <= s[j]
  }

  function Middle(s: seq<real>): real
    requires s != []
  {
    if |s| % 2 == 1 then s[|s| / 2] else (s[|s| / 2 - 1] + s[|s| / 2]) / 2.0
  }

  predicate IsMedian(values: seq<real>, m: real, sorted: seq<real>) {
    sorted != [] && Ascending(sorted) && multiset(sorted) == multiset(values) && m == Middle(sorted)
  }

  method InsertSorted(list: seq<real>, x: real) returns (more: seq<real>)
    requires Ascending(list)
    ensures Ascending(more) && |more| == |list| + 1 && multiset(more) == multiset(list) + multiset{x}
  {
    var k := |list|;
    while k > 0 && x < list[k - 1]
      invariant 0 <= k <= |list| && forall j | k <= j < |list| :: x < list[j]
    {
      k := k - 1;
    }
    InsertKeepsOrder(list, x, k);
    assert list == list[..k] + list[k..];
    more := list[..k] + [x] + list[k..];
  }

  lemma InsertKeepsOrder(list: seq<real>, x: real, k: nat)
    requires Ascending(list) && k <= |list|
    requires k > 0 ==> list[k - 1] <= x
    requires forall j | k <= j < |list| :: x < list[j]
    ensures Ascending(list[..k] + [x] + list[k..])
  {
    if k > 0 {
      assert forall j | 0 <= j < k :: list[j] <= list[k - 1];
    }
  }

  method Median(values: seq<real>) returns (m: real, ghost sorted: seq<real>)
    requires values != []
    ensures IsMedian(values, m, sorted)
  {
    hide Ascending;
    var list: seq<real> := [];
    assert Ascending(list) by { NothingToSort(); }
    for i := 0 to |values|
      invariant Ascending(list) && |list| == i && multiset(list) == multiset(values[..i])
    {
      list := InsertSorted(list, values[i]);
      assert values[..i + 1] == values[..i] + [values[i]];
    }
    assert values[..|values|] == values;
    sorted := list;
    m := Middle(list);
  }

  lemma NothingToSort()
    ensures Ascending([])
  {
  }

  lemma SortedMember(values: seq<real>, sorted: seq<real>, i: nat)
    requires multiset(sorted) == multiset(values) && i < |sorted|
    ensures sorted[i] in values
  {
    var v := sorted[i];
    assert v in multiset(sorted);
    assert v in multiset(values);
  }

  /** A median lies between bounds on its values. */
  lemma MedianWithin(values: seq<real>, m: real, sorted: seq<real>, lo: real, hi: real)
    requires IsMedian(values, m, sorted) && forall v | v in values :: lo <= v <= hi
    ensures lo <= m <= hi
  {
    SortedMember(values, sorted, |sorted| / 2);
    if |sorted| % 2 == 0 {
      SortedMember(values, sorted, |sorted| / 2 - 1);
    }
  }

  lemma SameHead(a: seq<real>, b: seq<real>)
    requires a != [] && b != [] && Ascending(a) && Ascending(b) && multiset(a) == multiset(b)
    ensures a[0] == b[0]
  {
    SortedMember(b, a, 0);
    SortedMember(a, b, 0);
    var i :| 0 <= i < |b| && b[i] == a[0];
    var j :| 0 <= j < |a| && a[j] == b[0];
  }

  lemma TailBag(a: seq<real>)
    requires a != []
    ensures multiset(a[1..]) == multiset(a) - multiset{a[0]} && a == [a[0]] + a[1..]
  {
    assert a == [a[0]] + a[1..];
  }

  lemma {:induction false} SortedUnique(a: seq<real>, b: seq<real>)
    requires Ascending(a) && Ascending(b) && multiset(a) == multiset(b)
    ensures a == b
    decreases |a|
  {
    assert |multiset(a)| == |multiset(b)|;
    if a != [] {
      SameHead(a, b);
      TailBag(a);
      TailBag(b);
      assert Ascending(a[1..]) && Ascending(b[1..]);
      SortedUnique(a[1..], b[1..]);
    }
  }

  lemma MedianOrderIrrelevant(a: seq<real>, b: seq<real>, m: real, n: real, s: seq<real>, t: seq<real>)
    requires multiset(a) == multiset(b) && IsMedian(a, m, s) && IsMedian(b, n, t)
    ensures m == n
  {
    hide Ascending;
    SortedUnique(s, t);
  }

  function Below(values: seq<real>, x: real): nat {
    if values == [] then 0 else (if values[0] < x then 1 else 0) + Below(values[1..], x)
  }

  function UpTo(values: seq<real>, x: real): nat {
    if values == [] then 0 else (if values[0] <= x then 1 else 0) + UpTo(values[1..], x)
  }

  /** x is the value that k others precede in order. */
  predicate Ranks(values: seq<real>, x: real, k: int) {
    Below(values, x) <= k < UpTo(values, x)
  }

  lemma {:induction false} CountsAppend(a: seq<real>, b: seq<real>, x: real)
    ensures Below(a + b, x) == Below(a, x) + Below(b, x) && UpTo(a + b, x) == UpTo(a, x) + UpTo(b, x)
  {
    if a == [] {
      assert a + b == b;
    } else {
      assert (a + b)[1..] == a[1..] + b;
      CountsAppend(a[1..], b, x);
    }
  }

  lemma RankPermuted(a: seq<real>, b: seq<real>, x: real, k: int)
    requires multiset(a) == multiset(b) && Ranks(a, x, k)
    ensures Ranks(b, x, k)
  {
    var below, upTo := (v: seq<real>) => Below(v, x) as int, (v: seq<real>) => UpTo(v, x) as int;
    forall v: seq<real>, w: seq<real>
      ensures below(v + w) == Plus(below(v), below(w)) && upTo(v + w) == Plus(upTo(v), upTo(w))
    {
      CountsAppend(v, w, x);
    }
    AdditivePermuted(below, Plus, a, b);
    AdditivePermuted(upTo, Plus, a, b);
  }

  lemma {:induction false} NoneBelow(s: seq<real>, x: real)
    requires forall i | 0 <= i < |s| :: x <= s[i]
    ensures Below(s, x) == 0
  {
    if s != [] { NoneBelow(s[1..], x); }
  }

  lemma {:induction false} AllUpTo(s: seq<real>, x: real)
    requires forall i | 0 <= i < |s| :: s[i] <= x
    ensures UpTo(s, x) == |s|
  {
    if s != [] { AllUpTo(s[1..], x); }
  }

  lemma {:induction false} AtMost(s: seq<real>, x: real)
    ensures Below(s, x) <= |s|
  {
    if s != [] { AtMost(s[1..], x); }
  }

  lemma SortedRanks(s: seq<real>, k: nat)
    requires Ascending(s) && k < |s|
    ensures Ranks(s, s[k], k)
  {
    var before, after := s[..k], s[k + 1..];
    assert s == before + (s[k..]) && s == s[..k + 1] + after;
    CountsAppend(before, s[k..], s[k]);
    CountsAppend(s[..k + 1], after, s[k]);
    NoneBelow(s[k..], s[k]);
    AtMost(before, s[k]);
    AllUpTo(s[..k + 1], s[k]);
  }

  /** A median is half way between the two middle values, which are one if the number of values is odd. */
  lemma MedianIsMiddle(values: seq<real>, m: real, sorted: seq<real>) returns (lo: real, hi: real)
    requires IsMedian(values, m, sorted)
    ensures Ranks(values, lo, (|values| - 1) / 2) && Ranks(values, hi, |values| / 2) && m + m == lo + hi
  {
    assert |multiset(sorted)| == |multiset(values)|;
    var n := |sorted|;
    lo, hi := sorted[(n - 1) / 2], sorted[n / 2];
    SortedRanks(sorted, (n - 1) / 2);
    SortedRanks(sorted, n / 2);
    RankPermuted(sorted, values, lo, (n - 1) / 2);
    RankPermuted(sorted, values, hi, n / 2);
  }

  // --- the runner -----------------------------------------------------------

  /** The lanes swap places from one iteration, and from one row, to the next. */
  function OrderAt(rowIndex: nat, iteration: nat): (order: seq<Lane>)
    ensures OrderOk(order)
  {
    if (rowIndex + iteration) % 2 == 0 then [Candidate, StarkV] else [StarkV, Candidate]
  }

  predicate MeasurementOk(m: Measurement, cycles: int) {
    && m.cycles == cycles > 0 && m.phases != map[]
    && forall name | name in m.phases :: name != "" && m.phases[name] > 0.0
  }

  function MakeSample(m: Measurement, iteration: nat, warmup: bool, position: int): Sample {
    var duration := AtLeastOne(m.elapsedNs);
    var cpu := AtLeastOne(m.cpuNs);
    Sample(iteration, warmup, position, duration, cpu, WallRatio(cpu, duration), m.cycles, m.phases)
  }

  lemma SampleIsOk(m: Measurement, cycles: int, iteration: nat, warmups: int, position: int)
    requires MeasurementOk(m, cycles) && (position == 0 || position == 1)
    ensures SampleOk(MakeSample(m, iteration, iteration < warmups, position), iteration, warmups, position)
    ensures MakeSample(m, iteration, iteration < warmups, position).cycles == cycles
  {
  }

  function Seconds(s: Sample): (r: real)
    ensures r * 1000000000.0 == s.durationNs as real
  {
    s.durationNs as real / BILLION
  }

  function SecondsOf(samples: seq<Sample>): (values: seq<real>)
    ensures |values| == |samples|
  {
    seq(|samples|, i requires 0 <= i < |samples| => Seconds(samples[i]))
  }

  function RatiosOf(samples: seq<Sample>): (values: seq<real>)
    ensures |values| == |samples|
  {
    seq(|samples|, i requires 0 <= i < |samples| => samples[i].cpuWallRatio)
  }

  predicate Positive(values: seq<real>) {
    forall v | v in values :: v > 0.0
  }

  method PositiveMedian(values: seq<real>) returns (m: real)
    requires values != [] && Positive(values)
    ensures m > 0.0
    ensures exists sorted :: IsMedian(values, m, sorted)
  {
    ghost var sorted;
    m, sorted := Median(values);
    MedianPositive(values, m, sorted);
  }

  lemma MedianPositive(values: seq<real>, m: real, sorted: seq<real>)
    requires IsMedian(values, m, sorted) && Positive(values)
    ensures m > 0.0
  {
    SortedMember(values, sorted, |sorted| / 2);
    if |sorted| % 2 == 0 {
      SortedMember(values, sorted, |sorted| / 2 - 1);
    }
  }

  lemma MeasuredPositive(samples: seq<Sample>, lane: Lane, warmups: int, orders: seq<seq<Lane>>)
    requires LaneOk(samples, lane, warmups, orders) && 0 <= warmups < |samples|
    ensures Positive(SecondsOf(samples[warmups..])) && Positive(RatiosOf(samples[warmups..]))
  {
    forall i | warmups <= i < |samples|
      ensures Seconds(samples[i]) > 0.0 && samples[i].cpuWallRatio > 0.0
    {
      assert SampleOk(samples[i], i, warmups, Position(orders[i], lane));
    }
  }

  /** Medians over the measured samples only; warmups are left out. */
  ghost predicate Summarizes(s: Summary, candidate: seq<Sample>, starkV: seq<Sample>, warmups: nat)
    requires warmups <= |candidate| && warmups <= |starkV|
  {
    && (exists a :: IsMedian(SecondsOf(candidate[warmups..]), s.candidateMedian, a))
    && (exists b :: IsMedian(SecondsOf(starkV[warmups..]), s.starkVMedian, b))
    && (exists c :: IsMedian(RatiosOf(starkV[warmups..]), s.cpuWallMedian, c))
    && s.starkVMedian != 0.0 && s.ratio == s.candidateMedian / s.starkVMedian
  }

  method TimingReport(row: RowClass, warmups: nat, samples: nat, orders: seq<seq<Lane>>,
                      candidate: seq<Sample>, starkV: seq<Sample>) returns (t: Timing)
    requires warmups <= 10 && 1 <= samples <= 21 && |orders| == warmups + samples
    requires forall o | o in orders :: OrderOk(o)
    requires LaneOk(candidate, Candidate, warmups, orders) && LaneOk(starkV, StarkV, warmups, orders)
    ensures TimingOk(t, row) && t.orders == orders && t.candidate == candidate && t.starkV == starkV
    ensures t.warmups == warmups && t.samples == samples
    ensures |candidate| == |starkV| == |orders| && Summarizes(t.summary, candidate, starkV, warmups)
  {
    assert |candidate| == |starkV| == |orders|;
    MeasuredPositive(candidate, Candidate, warmups, orders);
    MeasuredPositive(starkV, StarkV, warmups, orders);
    hide LaneOk, Positive, IsMedian;
    var candidateMedian := PositiveMedian(SecondsOf(candidate[warmups..]));
    var starkVMedian := PositiveMedian(SecondsOf(starkV[warmups..]));
    var parallel := PositiveMedian(RatiosOf(starkV[warmups..]));
    var summary := Summary(candidateMedian, starkVMedian, candidateMedian / starkVMedian, parallel);
    t := Timing(Mode(row), warmups, samples, orders, candidate, starkV, summary);
  }

  /** The sample holds what was measured: times raised to one nanosecond, their quotient raised to a
      floor, and the cycles and phases as they were. */
  predicate Records(s: Sample, m: Measurement) {
    && s.durationNs == (if m.elapsedNs < 1 then 1 else m.elapsedNs)
    && s.cpuTimeNs == (if m.cpuNs < 1 then 1 else m.cpuNs)
    && s.durationNs > 0
    && (s.cpuWallRatio * s.durationNs as real == s.cpuTimeNs as real
        || (s.cpuWallRatio == 0.000000000001
            && s.cpuTimeNs as real < 0.000000000001 * s.durationNs as real))
    && s.cycles == m.cycles && s.phases == m.phases
  }

  lemma SampleRecords(m: Measurement, iteration: nat, warmup: bool, position: int)
    ensures Records(MakeSample(m, iteration, warmup, position), m)
  {
    var duration, cpu := AtLeastOne(m.elapsedNs), AtLeastOne(m.cpuNs);
    RatioOf(cpu as real, duration as real);
  }

  lemma RatioOf(a: real, b: real)
    requires b > 0.0
    ensures a / b * b == a && (a / b < TINY ==> a < TINY * b)
  {
    if a / b < TINY {
      assert (TINY - a / b) * b > 0.0;
    }
  }

  /** Each of a lane's samples records that lane's run of its iteration. */
  predicate RecordsLane(samples: seq<Sample>, bench: Bench, lane: Lane) {
    forall i | 0 <= i < |samples| :: bench(lane, i).Some? && Records(samples[i], bench(lane, i).value)
  }

  lemma NextRecord(samples: seq<Sample>, bench: Bench, lane: Lane, warmup: bool, position: int)
    requires RecordsLane(samples, bench, lane) && bench(lane, |samples|).Some?
    ensures RecordsLane(samples + [MakeSample(bench(lane, |samples|).value, |samples|, warmup, position)], bench, lane)
  {
    hide Records, MakeSample;
    SampleRecords(bench(lane, |samples|).value, |samples|, warmup, position);
  }

  /** The lanes after some iterations: one sample each, at its own place and position. */
  predicate LanesSoFar(rowIndex: nat, warmups: nat, cycles: int, orders: seq<seq<Lane>>, samples: seq<Sample>,
                       lane: Lane) {
    && LaneOk(samples, lane, warmups, orders)
    && (forall i | 0 <= i < |orders| :: orders[i] == OrderAt(rowIndex, i))
    && forall s | s in samples :: s.cycles == cycles
  }

  lemma NextSample(rowIndex: nat, warmups: nat, cycles: int, orders: seq<seq<Lane>>, samples: seq<Sample>,
                   lane: Lane, m: Measurement)
    requires LanesSoFar(rowIndex, warmups, cycles, orders, samples, lane) && MeasurementOk(m, cycles)
    ensures var i := |orders|; var order := OrderAt(rowIndex, i);
            LanesSoFar(rowIndex, warmups, cycles, orders + [order],
                       samples + [MakeSample(m, i, i < warmups, Position(order, lane))], lane)
  {
    var i := |orders|;
    var order := OrderAt(rowIndex, i);
    SampleIsOk(m, cycles, i, warmups, Position(order, lane));
    hide SampleOk, MakeSample, OrderAt;
    forall k | 0 <= k < i ensures SampleOk(samples[k], k, warmups, Position((orders + [order])[k], lane)) {
      assert SampleOk(samples[k], k, warmups, Position(orders[k], lane));
    }
  }

  /** A command's outcome; None when it failed or published nothing usable. */
  type Bench = (Lane, nat) -> Option<Measurement>

  predicate AllMeasured(bench: Bench, total: nat, cycles: int) {
    forall i | 0 <= i < total ::
      Usable(bench(Candidate, i), cycles) && Usable(bench(StarkV, i), cycles)
  }

  predicate Usable(outcome: Option<Measurement>, cycles: int) {
    outcome.Some? && MeasurementOk(outcome.value, cycles)
  }

  /** Runs both lanes in the iteration's order; the samples come out in iteration
      order already, so sorting them by iteration changes nothing. */
  method RunTiming(rowIndex: nat, row: RowClass, warmups: nat, samples: nat, bench: Bench, cycles: int)
    returns (r: Option<Timing>)
    requires warmups <= 10 && 1 <= samples <= 21
    ensures r.Some? <==> AllMeasured(bench, warmups + samples, cycles)
    ensures r.Some? ==>
              && TimingOk(r.value, row) && r.value.warmups == warmups && r.value.samples == samples
              && r.value.mode == (if row.Proof? then "prove_verify" else "execution")
              && (forall i | 0 <= i < warmups + samples ::
                    r.value.orders[i] == if (rowIndex + i) % 2 == 0 then [Candidate, StarkV] else [StarkV, Candidate])
              && |r.value.candidate| == |r.value.starkV| == warmups + samples
              && RecordsLane(r.value.candidate, bench, Candidate) && RecordsLane(r.value.starkV, bench, StarkV)
              && Summarizes(r.value.summary, r.value.candidate, r.value.starkV, warmups)
  {
    hide LaneOk, MeasurementOk, OrderAt, Summarizes, MakeSample, Position, RecordsLane;
    var orders: seq<seq<Lane>> := [];
    var candidate: seq<Sample> := [];
    var starkV: seq<Sample> := [];
    NoSamples(rowIndex, warmups, cycles, bench);
    for i := 0 to warmups + samples
      invariant |orders| == i && AllMeasured(bench, i, cycles)
      invariant LanesSoFar(rowIndex, warmups, cycles, orders, candidate, Candidate)
      invariant LanesSoFar(rowIndex, warmups, cycles, orders, starkV, StarkV)
      invariant |candidate| == |starkV| == i
      invariant RecordsLane(candidate, bench, Candidate) && RecordsLane(starkV, bench, StarkV)
    {
      var order := OrderAt(rowIndex, i);
      var ran: seq<Sample> := [];
      OrderPositions(rowIndex, i);
      for position := 0 to |order|
        invariant |ran| == position
        invariant forall p | 0 <= p < position ::
                    Usable(bench(order[p], i), cycles)
                    && ran[p] == MakeSample(bench(order[p], i).value, i, i < warmups, p)
      {
        var outcome := bench(order[position], i);
        BothLanes(order, position, bench, i, cycles);
        if !Usable(outcome, cycles) {
          return None;
        }
        ran := ran + [MakeSample(outcome.value, i, i < warmups, position)];
      }
      assert Usable(bench(order[0], i), cycles) && Usable(bench(order[1], i), cycles);
      NextSample(rowIndex, warmups, cycles, orders, candidate, Candidate, bench(Candidate, i).value);
      NextSample(rowIndex, warmups, cycles, orders, starkV, StarkV, bench(StarkV, i).value);
      NextRecord(candidate, bench, Candidate, i < warmups, Position(order, Candidate));
      NextRecord(starkV, bench, StarkV, i < warmups, Position(order, StarkV));
      orders := orders + [order];
      candidate := candidate + [ran[Position(order, Candidate)]];
      starkV := starkV + [ran[Position(order, StarkV)]];
    }
    OrdersOk(rowIndex, orders);
    OrdersAre(rowIndex);
    var t := TimingReport(row, warmups, samples, orders, candidate, starkV);
    r := Some(t);
  }

  lemma NoSamples(rowIndex: nat, warmups: nat, cycles: int, bench: Bench)
    ensures RecordsLane([], bench, Candidate) && RecordsLane([], bench, StarkV)
    ensures LanesSoFar(rowIndex, warmups, cycles, [], [], Candidate)
    ensures LanesSoFar(rowIndex, warmups, cycles, [], [], StarkV)
  {
  }

  lemma BothLanes(order: seq<Lane>, position: nat, bench: Bench, i: nat, cycles: int)
    requires OrderOk(order) && position < |order|
    ensures Usable(bench(order[position], i), cycles)
         || !Usable(bench(Candidate, i), cycles) || !Usable(bench(StarkV, i), cycles)
  {
  }

  lemma OrderPositions(rowIndex: nat, i: nat)
    ensures var order := OrderAt(rowIndex, i);
            && |order| == 2
            && order[Position(order, Candidate)] == Candidate && order[Position(order, StarkV)] == StarkV
  {
  }

  lemma OrdersAre(rowIndex: nat)
    ensures forall i: nat :: OrderAt(rowIndex, i)
                             == if (rowIndex + i) % 2 == 0 then [Candidate, StarkV] else [StarkV, Candidate]
  {
  }

  lemma OrdersOk(rowIndex: nat, orders: seq<seq<Lane>>)
    requires forall i | 0 <= i < |orders| :: orders[i] == OrderAt(rowIndex, i)
    ensures forall o | o in orders :: OrderOk(o)
  {
  }

  // --- the two orders are used equally often --------------------------------

  /** How often a lane goes first in `count` iterations starting at `from`. */
  function Firsts(rowIndex: nat, lane: Lane, from: nat, count: nat): nat
    decreases count
  {
    if count == 0 then 0
    else (if OrderAt(rowIndex, from)[0] == lane then 1 else 0) + Firsts(rowIndex, lane, from + 1, count - 1)
  }

  /** Over any run of iterations, so over the measured ones alone too, neither
      lane goes first more than once oftener than the other. */
  lemma {:induction false} OrdersBalance(rowIndex: nat, from: nat, count: nat)
    ensures -1 <= Firsts(rowIndex, Candidate, from, count) - Firsts(rowIndex, StarkV, from, count) <= 1
    ensures Firsts(rowIndex, Candidate, from, count) + Firsts(rowIndex, StarkV, from, count) == count
    decreases count
  {
    if count > 1 {
      OrdersBalance(rowIndex, from + 2, count - 2);
      assert OrderAt(rowIndex, from)[0] != OrderAt(rowIndex, from + 1)[0];
    }
  }

  /** The validator does not ask for it: put the candidate first throughout and
      a valid block stays valid. */
  function CandidateFirst(t: Timing): Timing {
    t.(orders := seq(|t.orders|, i => [Candidate, StarkV]),
       candidate := At(t.candidate, 0), starkV := At(t.starkV, 1))
  }

  function At(samples: seq<Sample>, position: int): (moved: seq<Sample>)
    ensures |moved| == |samples|
    ensures forall i | 0 <= i < |samples| :: moved[i] == samples[i].(orderPosition := position)
  {
    seq(|samples|, i requires 0 <= i < |samples| => samples[i].(orderPosition := position))
  }

  lemma UnpairedBlockIsAccepted(t: Timing, row: RowClass)
    requires TimingOk(t, row)
    ensures TimingOk(CandidateFirst(t), row)
    ensures forall o | o in CandidateFirst(t).orders :: o == [Candidate, StarkV]
  {
    var u := CandidateFirst(t);
    LaneMoves(t.candidate, Candidate, t.warmups, t.orders, u.orders, 0);
    LaneMoves(t.starkV, StarkV, t.warmups, t.orders, u.orders, 1);
  }

  lemma LaneMoves(samples: seq<Sample>, lane: Lane, warmups: int, orders: seq<seq<Lane>>, others: seq<seq<Lane>>,
                  position: int)
    requires LaneOk(samples, lane, warmups, orders) && |others| == |orders| && (position == 0 || position == 1)
    requires forall i | 0 <= i < |others| :: Position(others[i], lane) == position
    ensures LaneOk(At(samples, position), lane, warmups, others)
  {
    forall i | 0 <= i < |samples|
      ensures SampleOk(At(samples, position)[i], i, warmups, Position(others[i], lane))
    {
      assert SampleOk(samples[i], i, warmups, Position(orders[i], lane));
    }
  }

  /** The orders are the runner's, for a row at some place of the matrix. */
  predicate AlternatesFrom(orders: seq<seq<Lane>>, rowIndex: nat) {
    forall i | 0 <= i < |orders| :: orders[i] == OrderAt(rowIndex, i)
  }

  /** Every block of n iterations the validator accepts has alternating orders. */
  ghost predicate AlternationForced(n: nat) {
    forall t, row | TimingOk(t, row) && |t.orders| == n :: exists rowIndex: nat :: AlternatesFrom(t.orders, rowIndex)
  }

  function ConstantLane(n: nat, warmups: nat, position: int): (samples: seq<Sample>)
    ensures |samples| == n
  {
    seq(n, i => Sample(i, i < warmups, position, 1, 1, 1.0, 1, map["execution" := 1.0]))
  }

  /** A block of n iterations that always runs the candidate first. */
  function ConstantBlock(n: nat): Timing {
    var warmups := if n <= 21 then 0 else 10;
    Timing(Mode(Execution), warmups, n - warmups, seq(n, i => [Candidate, StarkV]),
           ConstantLane(n, warmups, 0), ConstantLane(n, warmups, 1), Summary(1.0, 1.0, 1.0, 1.0))
  }

  lemma ConstantBlockIsAccepted(n: nat)
    requires 1 <= n <= 31
    ensures TimingOk(ConstantBlock(n), Execution)
  {
    var t := ConstantBlock(n);
    ConstantLaneOk(n, t.warmups, 0, Candidate, t.orders);
    ConstantLaneOk(n, t.warmups, 1, StarkV, t.orders);
  }

  lemma ConstantLaneOk(n: nat, warmups: nat, position: int, lane: Lane, orders: seq<seq<Lane>>)
    requires |orders| == n && forall i | 0 <= i < n :: Position(orders[i], lane) == position
    ensures LaneOk(ConstantLane(n, warmups, position), lane, warmups, orders)
  {
    forall i | 0 <= i < n
      ensures SampleOk(ConstantLane(n, warmups, position)[i], i, warmups, Position(orders[i], lane))
    {
      assert "execution" in ConstantLane(n, warmups, position)[i].phases;
    }
  }

  lemma OneIterationAlternates(orders: seq<seq<Lane>>)
    requires |orders| == 1 && OrderOk(orders[0])
    ensures exists rowIndex: nat :: AlternatesFrom(orders, rowIndex)
  {
    assert AlternatesFrom(orders, 0) || AlternatesFrom(orders, 1);
  }

  /** Of the block lengths the validator admits, it forces alternation on single
      iterations only. */
  lemma AlternationForcedOnlyOnce(n: nat)
    requires 1 <= n <= 31
    ensures AlternationForced(n) <==> n <= 1
  {
    if n == 1 {
      forall t, row | TimingOk(t, row) && |t.orders| == n
        ensures exists rowIndex: nat :: AlternatesFrom(t.orders, rowIndex)
      {
        assert t.orders[0] in t.orders && OrderOk(t.orders[0]);
        OneIterationAlternates(t.orders);
      }
    } else {
      ConstantBlockIsAccepted(n);
      hide TimingOk, ConstantLane;
      var orders := ConstantBlock(n).orders;
      assert orders[0] == orders[1];
      forall rowIndex: nat ensures !AlternatesFrom(orders, rowIndex) {
        assert OrderAt(rowIndex, 0) != OrderAt(rowIndex, 1);
      }
    }
  }

  // --- the selection --------------------------------------------------------

  datatype Workload = Workload(rowId: string, rowClass: string)

  datatype Counts = Counts(proof: nat, execution: nat)

  datatype Selection = Selection(complete: bool, counts: Counts, rowCount: nat, rowIds: seq<string>)

  function CountClass(rows: seq<Workload>, rowClass: string): nat {
    if rows == [] then 0
    else CountClass(rows[..|rows| - 1], rowClass) + if rows[|rows| - 1].rowClass == rowClass then 1 else 0
  }

  function CountsOf(rows: seq<Workload>): Counts {
    Counts(CountClass(rows, "proof"), CountClass(rows, "execution"))
  }

  function Ids(rows: seq<Workload>): (ids: seq<string>)
    ensures |ids| == |rows|
  {
    seq(|rows|, i requires 0 <= i < |rows| => rows[i].rowId)
  }

  /** The workloads whose ids were asked for, in matrix order. */
  function Wanted(all: seq<Workload>, ids: set<string>): (rows: seq<Workload>)
    ensures |rows| <= |all| && forall w :: w in rows <==> w in all && w.rowId in ids
  {
    if all == [] then []
    else
      var last := all[|all| - 1];
      assert all == all[..|all| - 1] + [last];
      Wanted(all[..|all| - 1], ids) + if last.rowId in ids then [last] else []
  }

  function Select(all: seq<Workload>, selected: seq<Workload>): Selection {
    Selection(|selected| == |all| && forall i | 0 <= i < |selected| && i < |all| :: selected[i].rowId == all[i].rowId,
              CountsOf(selected), |selected|, Ids(selected))
  }

  /** What the validator recomputes from the rows alone. */
  predicate SelectionOk(s: Selection, rows: seq<Workload>, full: Counts) {
    && Ids(rows) == s.rowIds && s.counts == CountsOf(rows) && s.rowCount == |rows|
    && s.complete == (CountsOf(rows) == full && |rows| == full.proof + full.execution)
  }

  lemma {:induction false} WantedFull(all: seq<Workload>, ids: set<string>)
    requires |Wanted(all, ids)| == |all|
    ensures Wanted(all, ids) == all
  {
    if all != [] {
      assert all == all[..|all| - 1] + [all[|all| - 1]];
      WantedFull(all[..|all| - 1], ids);
    }
  }

  /** For every filter of a matrix of the full shape, the runner's comparison of
      row ids and the validator's comparison of counts agree. */
  lemma SelectionsAgree(all: seq<Workload>, ids: set<string>, full: Counts)
    requires CountsOf(all) == full && |all| == full.proof + full.execution
    ensures SelectionOk(Select(all, Wanted(all, ids)), Wanted(all, ids), full)
    ensures Select(all, Wanted(all, ids)).complete <==> forall w | w in all :: w.rowId in ids
  {
    if |Wanted(all, ids)| == |all| { WantedFull(all, ids); }
    WantedAll(all, ids);
  }

  lemma {:induction false} WantedAll(all: seq<Workload>, ids: set<string>)
    ensures |Wanted(all, ids)| == |all| <==> forall w | w in all :: w.rowId in ids
  {
    if all != [] {
      var n := |all| - 1;
      assert all == all[..n] + [all[n]];
      WantedAll(all[..n], ids);
    }
  }
}
