/**
  Clock-update rows: they advance one memory cell's clock by a fixed step, and
  the range checks on the predecessor keep that step from ever wrapping.
*/
module ClockBus {
  import opened RelationBus

  const CLOCK_LOW_BASE: int := 0x10_0000
  const CLOCK_PREDECESSOR_BOUND: int := 0x400_0000
  const MAX_CLOCK_DIFF: int := 0xF_FFFF

  datatype ClockUpdateRow = ClockUpdateRow(
    addrSpace: int, addr: int, previousClock: int, values: seq<int>, low20: int, high6: int)
  {
    /** The row whose limbs are the quotient and remainder of the clock. */
    static function FromPrevious(addrSpace: int, addr: int, previousClock: int, values: seq<int>): ClockUpdateRow {
      ClockUpdateRow(addrSpace, addr, previousClock, values,
                     previousClock % CLOCK_LOW_BASE, previousClock / CLOCK_LOW_BASE)
    }
  }

  /** The direct constraints and the two range lookups of an active row. */
  predicate ClockAdmissible(row: ClockUpdateRow) {
    && Canonical(row.addrSpace) && Canonical(row.addr) && Canonical(row.previousClock)
    && Canonical(row.low20) && Canonical(row.high6)
    && (forall i | 0 <= i < |row.values| :: Canonical(row.values[i]))
    && |row.values| == 4
    && 0 <= row.low20 < CLOCK_LOW_BASE
    && 0 <= row.high6 < 0x100 && 0 <= 4 * row.high6 < 0x100
    && row.previousClock % P == (row.low20 + CLOCK_LOW_BASE * row.high6) % P
  }

  function Consumed(row: ClockUpdateRow): seq<int> {
    Reduce([row.addrSpace, row.addr, row.previousClock] + row.values)
  }

  function Produced(row: ClockUpdateRow): seq<int> {
    Reduce([row.addrSpace, row.addr, row.previousClock + MAX_CLOCK_DIFF] + row.values)
  }

  function ClockUpdateRequests(row: ClockUpdateRow): seq<Request> {
    [MakeRequest(MemoryAccess, -1, [row.addrSpace, row.addr, row.previousClock] + row.values),
     MakeRequest(MemoryAccess, 1, [row.addrSpace, row.addr, row.previousClock + MAX_CLOCK_DIFF] + row.values),
     MakeRequest(RangeCheck20, -1, [row.low20]),
     MakeRequest(RangeCheck88, -1, [row.high6, 4 * row.high6])]
  }

  // --- one row --------------------------------------------------------------

  /** The lookups leave no wrap: the clock is its limbs as an ordinary integer,
      it lies in the predecessor window, and its successor is canonical. */
  lemma ClockWindow(row: ClockUpdateRow)
    requires ClockAdmissible(row)
    ensures row.previousClock == row.low20 + CLOCK_LOW_BASE * row.high6
    ensures row.previousClock < CLOCK_PREDECESSOR_BOUND
    ensures row.previousClock + MAX_CLOCK_DIFF < P
  {
    assert row.low20 + CLOCK_LOW_BASE * row.high6 < CLOCK_PREDECESSOR_BOUND;
  }

  /** Everything in an admissible row but its limbs determines the limbs. */
  lemma LimbsUnique(row: ClockUpdateRow, other: ClockUpdateRow)
    requires ClockAdmissible(row) && ClockAdmissible(other)
    ensures row == other <==>
            && row.addrSpace == other.addrSpace && row.addr == other.addr
            && row.previousClock == other.previousClock && row.values == other.values
  {
    ClockWindow(row);
    ClockWindow(other);
  }

  /** Splitting a clock gives an admissible row exactly inside the window. */
  lemma FromPreviousAdmissible(addrSpace: int, addr: int, previousClock: int, values: seq<int>)
    ensures ClockAdmissible(ClockUpdateRow.FromPrevious(addrSpace, addr, previousClock, values)) <==>
            && Canonical(addrSpace) && Canonical(addr) && 0 <= previousClock < CLOCK_PREDECESSOR_BOUND
            && |values| == 4 && forall i | 0 <= i < 4 :: Canonical(values[i])
  {
    var row := ClockUpdateRow.FromPrevious(addrSpace, addr, previousClock, values);
    assert previousClock == row.low20 + CLOCK_LOW_BASE * row.high6;
  }

  lemma FourRequests(a: Request, b: Request, c: Request, e: Request, d: Domain, t: seq<int>)
    ensures SignedSum([a, b, c, e], d, t) ==
            Signed(Numerator(a, d, t)) + Signed(Numerator(b, d, t))
            + Signed(Numerator(c, d, t)) + Signed(Numerator(e, d, t))
  {
    assert [e][1..] == [] && [c, e][1..] == [e] && [b, c, e][1..] == [c, e];
    assert SignedSum([e], d, t) == Signed(Numerator(e, d, t));
    assert SignedSum([c, e], d, t) == Signed(Numerator(c, d, t)) + Signed(Numerator(e, d, t));
    assert SignedSum([b, c, e], d, t) == Signed(Numerator(b, d, t)) + SignedSum([c, e], d, t);
    assert [a, b, c, e][1..] == [b, c, e];
  }

  lemma ClockContribution(row: ClockUpdateRow, t: seq<int>)
    ensures SignedSum(ClockUpdateRequests(row), MemoryAccess, t) ==
            (if t == Produced(row) then 1 else 0) - (if t == Consumed(row) then 1 else 0)
  {
    var r := ClockUpdateRequests(row);
    assert r == [r[0], r[1], r[2], r[3]];
    FourRequests(r[0], r[1], r[2], r[3], MemoryAccess, t);
  }

  lemma ClockTuples(row: ClockUpdateRow)
    requires ClockAdmissible(row)
    ensures |Consumed(row)| == |Produced(row)| == 7
    ensures Consumed(row)[0] == Produced(row)[0] == row.addrSpace
    ensures Consumed(row)[1] == Produced(row)[1] == row.addr
    ensures Consumed(row)[2] == row.previousClock
    ensures Produced(row)[2] == row.previousClock + MAX_CLOCK_DIFF
    ensures Consumed(row)[3..] == Produced(row)[3..] == row.values
  {
    ClockWindow(row);
  }

  // --- all rows -------------------------------------------------------------

  function ClockBusOf(rows: seq<ClockUpdateRow>): seq<seq<Request>> {
    seq(|rows|, i requires 0 <= i < |rows| => ClockUpdateRequests(rows[i]))
  }

  function Ones(n: nat): seq<nat> {
    seq(n, i => 1)
  }

  lemma {:induction false} SumOfOnes(n: nat)
    ensures Sum(Ones(n)) == n
  {
    if n > 0 {
      SumOfOnes(n - 1);
      assert Ones(n)[1..] == Ones(n - 1);
    }
  }

  lemma {:induction false} LatestRow(rows: seq<ClockUpdateRow>) returns (k: nat)
    requires rows != []
    ensures k < |rows| && forall i | 0 <= i < |rows| :: rows[i].previousClock <= rows[k].previousClock
  {
    var n := |rows| - 1;
    k := n;
    if n > 0 {
      var j := LatestRow(rows[..n]);
      assert forall i | 0 <= i < n :: rows[..n][i] == rows[i];
      if rows[j].previousClock > rows[n].previousClock {
        k := j;
      }
    }
  }

  lemma ClocksBalanceOverIntegers(rows: seq<ClockUpdateRow>, t: seq<int>)
    requires forall row | row in rows :: ClockAdmissible(row)
    requires |rows| < P && FieldBalanced(ClockBusOf(rows), MemoryAccess)
    ensures Total(ClockBusOf(rows), MemoryAccess, t) == 0
  {
    var n := |rows|;
    forall i | 0 <= i < n ensures Abs(SignedSum(ClockBusOf(rows)[i], MemoryAccess, t)) <= Ones(n)[i] {
      ClockContribution(rows[i], t);
    }
    SumOfOnes(n);
    CoefficientLift(ClockBusOf(rows), Ones(n), MemoryAccess, t);
  }

  /** Clock rows alone balance the memory relation only when there are none. */
  lemma ClockRowsCannotClose(rows: seq<ClockUpdateRow>)
    requires forall row | row in rows :: ClockAdmissible(row)
    requires |rows| < P
    ensures FieldBalanced(ClockBusOf(rows), MemoryAccess) <==> rows == []
  {
    if rows != [] && FieldBalanced(ClockBusOf(rows), MemoryAccess) {
      var k := LatestRow(rows);
      assert rows[k] in rows;
      var t := Produced(rows[k]);
      var c := SupplyNeedsDemand(rows, k, t);
      assert rows[c] in rows;
      ClockTuples(rows[k]);
      ClockTuples(rows[c]);
    }
  }

  lemma {:induction false} NonNegativeTotal(bus: seq<seq<Request>>, d: Domain, t: seq<int>, k: nat)
    requires k < |bus|
    requires forall i | 0 <= i < |bus| :: SignedSum(bus[i], d, t) >= 0
    ensures Total(bus, d, t) >= SignedSum(bus[k], d, t)
  {
    assert forall i | 0 <= i < |bus[1..]| :: bus[1..][i] == bus[i + 1];
    if k > 0 {
      NonNegativeTotal(bus[1..], d, t, k - 1);
    } else if |bus| > 1 {
      NonNegativeTotal(bus[1..], d, t, 0);
    }
  }

  /** In balance, the successor tuple a row produces is consumed by some row. */
  lemma SupplyNeedsDemand(rows: seq<ClockUpdateRow>, k: nat, t: seq<int>) returns (c: nat)
    requires forall row | row in rows :: ClockAdmissible(row)
    requires |rows| < P && FieldBalanced(ClockBusOf(rows), MemoryAccess)
    requires k < |rows| && t == Produced(rows[k])
    ensures c < |rows| && t == Consumed(rows[c])
  {
    ClocksBalanceOverIntegers(rows, t);
    var bus := ClockBusOf(rows);
    assert forall i | 0 <= i < |rows| :: bus[i] == ClockUpdateRequests(rows[i]);
    assert rows[k] in rows;
    ClockTuples(rows[k]);
    forall i | 0 <= i < |rows|
      ensures SignedSum(bus[i], MemoryAccess, t) ==
              (if t == Produced(rows[i]) then 1 else 0) - (if t == Consumed(rows[i]) then 1 else 0)
    {
      ClockContribution(rows[i], t);
    }
    if forall i | 0 <= i < |rows| :: t != Consumed(rows[i]) {
      NonNegativeTotal(bus, MemoryAccess, t, k);
      assert false;
    }
    c :| 0 <= c < |rows| && t == Consumed(rows[c]);
  }

  // --- chains ---------------------------------------------------------------

  /** Each row consumes what the row before it produced. */
  predicate Linked(rows: seq<ClockUpdateRow>) {
    forall i | 0 < i < |rows| :: Consumed(rows[i]) == Produced(rows[i - 1])
  }

  /** A chain keeps its key and value, advances by one step a row, and its
      k-th clock is therefore exact; it has at most sixty-five rows. */
  lemma {:induction false} ChainAdvances(rows: seq<ClockUpdateRow>, k: nat)
    requires Linked(rows) && k < |rows|
    requires forall row | row in rows :: ClockAdmissible(row)
    ensures rows[k].addrSpace == rows[0].addrSpace && rows[k].addr == rows[0].addr
    ensures rows[k].values == rows[0].values
    ensures rows[k].previousClock == rows[0].previousClock + k * MAX_CLOCK_DIFF
    ensures k <= 64
  {
    assert rows[k] in rows;
    assert rows[0] in rows;
    if k > 0 {
      ChainAdvances(rows, k - 1);
      assert rows[k - 1] in rows;
      ClockTuples(rows[k - 1]);
      ClockTuples(rows[k]);
    }
    ClockWindow(rows[k]);
  }

  /** A chain of n rows exists from some clock exactly when n <= 65. */
  lemma ChainLengthExact(n: nat)
    ensures (exists rows: seq<ClockUpdateRow> ::
               |rows| == n && Linked(rows) && forall row | row in rows :: ClockAdmissible(row))
            <==> n <= 65
  {
    if n <= 65 {
      var rows := seq(n, i requires 0 <= i < n =>
        ClockUpdateRow.FromPrevious(0, 0, i * MAX_CLOCK_DIFF, [0, 0, 0, 0]));
      forall i | 0 <= i < n ensures ClockAdmissible(rows[i]) {
        FromPreviousAdmissible(0, 0, i * MAX_CLOCK_DIFF, [0, 0, 0, 0]);
      }
      forall i | 0 < i < n ensures Consumed(rows[i]) == Produced(rows[i - 1]) {
        ReduceEqual([0, 0, i * MAX_CLOCK_DIFF, 0, 0, 0, 0],
                    [0, 0, (i - 1) * MAX_CLOCK_DIFF + MAX_CLOCK_DIFF, 0, 0, 0, 0]);
        assert [0, 0, i * MAX_CLOCK_DIFF] + [0, 0, 0, 0] == [0, 0, i * MAX_CLOCK_DIFF, 0, 0, 0, 0];
      }
      assert |rows| == n && Linked(rows) && forall row | row in rows :: ClockAdmissible(row);
    } else {
      forall rows: seq<ClockUpdateRow> |
        |rows| == n && Linked(rows) && forall row | row in rows :: ClockAdmissible(row)
        ensures false
      {
        ChainAdvances(rows, 65);
      }
    }
  }

  // --- the synthetic bridge -------------------------------------------------

  datatype BridgeResult = Bridge(outputs: seq<int>) | BadBridge

  /** The synthetic clocks inserted before an access: evenly spaced, each at
      least one before the target, as many as the row-count formula says. */
  method BridgeClocks(previous: int, target: int, step: int) returns (r: BridgeResult)
    ensures r.Bridge? <==> step > 0 && 0 <= previous <= target
    ensures r.Bridge? ==>
              && (forall i | 0 <= i < |r.outputs| :: r.outputs[i] == previous + (i + 1) * step)
              && |r.outputs| == (if target - previous <= step then 0 else (target - previous - 1) / step)
              && 0 <= target - (previous + |r.outputs| * step) <= step
  {
    if step <= 0 || !(0 <= previous <= target) {
      return BadBridge;
    }
    var outputs: seq<int> := [];
    var current := previous;
    while target - current > step
      invariant current == previous + |outputs| * step
      invariant previous <= current <= target
      invariant outputs != [] ==> current < target
      invariant forall i | 0 <= i < |outputs| :: outputs[i] == previous + (i + 1) * step
      decreases target - current
    {
      assert current + step == previous + (|outputs| + 1) * step;
      current := current + step;
      outputs := outputs + [current];
    }
    if outputs != [] {
      QuotientIs(target - previous - 1, step, |outputs|);
      assert |outputs| * step >= step;
    }
    return Bridge(outputs);
  }

  lemma QuotientIs(x: int, m: int, q: int)
    requires m > 0 && 0 <= x - q * m < m
    ensures x / m == q
  {
    assert x - q * m == (x / m - q) * m + x % m;
    MultipleOutOfRange(x / m - q, m);
  }
}
