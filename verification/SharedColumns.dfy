/**
  The columns the two copies of a shard share, and the system on which sharing
  hides the counterexample the shard was asked for.
*/
module SharedColumns {
  import opened Basics
  import opened RelationBus
  import opened FieldInverse
  import opened LinearForms
  import opened AirSystem
  import opened ColumnLines
  import opened ColumnBounds
  import opened DeterminedColumns
  import opened Names
  import CaseSplit
  import BitBounds

  /** The shard's selector is pinned to one and its siblings to zero. */
  function ShardBounds(bounds: Bounds, group: set<string>, selector: string): Bounds {
    map n | n in bounds ::
      if n in group then (if n == selector then Span(1, 1) else Span(0, 0)) else bounds[n]
  }

  function ShardGroup(selectors: seq<string>, selector: string): set<string> {
    if selector == "" then {} else set n | n in selectors
  }

  /** What the two copies of the shard share: the columns the inputs determine. */
  ghost predicate Shares(s: System, selectors: seq<string>, selector: string, shared: set<string>)
    requires Loaded(s)
  {
    exists bounds :: Implied(s, bounds) && SharesUnder(s, bounds, selectors, selector, shared)
  }

  function Inputs(s: System): set<string> {
    set n | n in ByRole(s.columns, Input)
  }

  function ShardPins(bounds: Bounds, selectors: seq<string>, selector: string): Pinned {
    Pins(ShardBounds(bounds, ShardGroup(selectors, selector), selector))
  }

  ghost predicate SharesUnder(s: System, bounds: Bounds, selectors: seq<string>, selector: string, shared: set<string>)
    requires Loaded(s)
  {
    Determines(s, Inputs(s), ShardPins(bounds, selectors, selector), shared)
  }

  method ShardShares(s: System, selectors: seq<string>, selector: string) returns (shared: set<string>)
    requires Loaded(s)
    ensures Shares(s, selectors, selector, shared)
  {
    var bounds := ImpliedColumnBounds(s);
    hide Implied, Determines;
    shared := Determined(s, Inputs(s), ShardPins(bounds, selectors, selector));
  }

  lemma InputNames(s: System)
    ensures Inputs(s) <= ColumnNames(s)
  {
  }

  /** The shard pins its selector to one, the other selectors to zero, and what the bounds pin, and
      nothing else. */
  lemma ShardPinsExactly(bounds: Bounds, selectors: seq<string>, selector: string, n: string, v: int)
    requires forall m | m in selectors :: m in bounds
    ensures n in ShardPins(bounds, selectors, selector) && ShardPins(bounds, selectors, selector)[n] == v <==>
              if selector != "" && n in selectors then v == (if n == selector then 1 else 0)
              else n in bounds && bounds[n].lo == v == bounds[n].hi
  {
  }

  /** A row in the shard obeys the shard's pins. */
  lemma ShardRowObeys(s: System, bounds: Bounds, selectors: seq<string>, selector: string, row: Row)
    requires Loaded(s) && Implied(s, bounds) && Accepts(s, row)
    requires selector != "" ==> CaseSplit.Picks(selectors, row, selector)
    ensures Obeys(row, ShardPins(bounds, selectors, selector)) && CanonicalPins(ShardPins(bounds, selectors, selector))
    ensures ShardPins(bounds, selectors, selector).Keys <= ColumnNames(s)
  {
    ImpliedSound(s, bounds);
    hide Implied, Accepts, Loaded;
  }

  /** Sharing hides no counterexample of the shard if no fixed node holds a zero coefficient. */
  lemma SharingIsSound(s: System, selectors: seq<string>, shard: CaseSplit.Shard, bounds: Bounds, shared: set<string>,
                       a: Row, b: Row)
    requires Loaded(s) && Implied(s, bounds) && SharesUnder(s, bounds, selectors, shard.selector, shared)
    requires CaseSplit.InShard(s, selectors, shard, a, b)
    requires Plain(s, ShardPins(bounds, selectors, shard.selector))
    ensures forall n | n in shared :: n in a && n in b && a[n] == b[n]
  {
    ShardRowObeys(s, bounds, selectors, shard.selector, a);
    ShardRowObeys(s, bounds, selectors, shard.selector, b);
    InputNames(s);
    hide Implied, Plain, Determines, Accepts, Loaded;
    DeterminedAgree(s, Inputs(s), ShardPins(bounds, selectors, shard.selector), shared, a, b);
  }

  // --- a gated output -------------------------------------------------------

  datatype Gate = Gate(flag: string, other: string, x: string, y: string)

  predicate Apart(g: Gate) {
    && g.flag != g.other && g.flag != g.x && g.flag != g.y
    && g.other != g.x && g.other != g.y && g.x != g.y
  }

  /** flag and other are bits that add up to one, and flag * x + y = 0. */
  predicate GatedNodes(nodes: seq<Node>, g: Gate) {
    && |nodes| == 13
    && nodes[0] == Col(g.flag) && nodes[1] == Const(1) && nodes[2] == Sub(1, 0) && nodes[3] == Mul(0, 2)
    && nodes[4] == Col(g.other) && nodes[5] == Sub(1, 4) && nodes[6] == Mul(4, 5)
    && nodes[7] == Add(0, 4) && nodes[8] == Sub(7, 1)
    && nodes[9] == Col(g.x) && nodes[10] == Mul(0, 9) && nodes[11] == Col(g.y) && nodes[12] == Add(10, 11)
  }

  function GatedNode(g: Gate, i: nat): Node {
    match i
    case 0 => Col(g.flag)
    case 1 => Const(1)
    case 2 => Sub(1, 0)
    case 3 => Mul(0, 2)
    case 4 => Col(g.other)
    case 5 => Sub(1, 4)
    case 6 => Mul(4, 5)
    case 7 => Add(0, 4)
    case 8 => Sub(7, 1)
    case 9 => Col(g.x)
    case 10 => Mul(0, 9)
    case 11 => Col(g.y)
    case _ => Add(10, 11)
  }

  /** The output x is free where other is set. */
  function Gated(g: Gate): (s: System)
    ensures GatedNodes(s.nodes, g) && |s.nodes| == 13
  {
    System("gated",
           [Column(g.flag, Input), Column(g.other, Input), Column(g.y, Input), Column(g.x, Output)],
           seq(13, i requires 0 <= i < 13 => GatedNode(g, i)),
           [3, 6, 8, 12],
           [])
  }

  function Everything(g: Gate): set<string> {
    {g.flag, g.other, g.x, g.y}
  }

  function GatedRow(g: Gate, flag: int, x: int, y: int): Row {
    map[g.flag := flag, g.other := 1 - flag, g.x := x, g.y := y]
  }

  lemma GatedOrdered(nodes: seq<Node>, g: Gate)
    requires GatedNodes(nodes, g)
    ensures Ordered(nodes) && WellFormed(nodes, Everything(g)) && |nodes| == 13
  {
  }

  lemma GatedParts(g: Gate)
    ensures var s := Gated(g);
            s.constraints == [3, 6, 8, 12] && s.lookups == [] && |s.columns| == 4
    ensures forall n :: n in ColumnNames(Gated(g)) <==> n in Everything(g)
  {
    var s := Gated(g);
    assert s.columns[0].name == g.flag && s.columns[1].name == g.other;
    assert s.columns[2].name == g.y && s.columns[3].name == g.x;
  }

  lemma GatedLoaded(g: Gate)
    requires Apart(g)
    ensures Loaded(Gated(g)) && ColumnNames(Gated(g)) == Everything(g)
  {
    var s := Gated(g);
    GatedOrdered(s.nodes, g);
    GatedParts(g);
    assert forall i, j | 0 <= i < j < 4 :: s.columns[i].name != s.columns[j].name;
    hide Gated, GatedNodes;
    assert ColumnNames(s) == Everything(g);
  }

  lemma GatedRoles(g: Gate)
    ensures forall n :: n in ByRole(Gated(g).columns, Input) <==> n in {g.flag, g.other, g.y}
    ensures g.x in ByRole(Gated(g).columns, Output)
  {
    var c := Gated(g).columns;
    assert c[0] in c && c[1] in c && c[2] in c && c[3] in c;
  }

  // --- rows it accepts ------------------------------------------------------

  lemma GatedKeys(g: Gate, flag: int, x: int, y: int)
    requires Apart(g)
    ensures var row := GatedRow(g, flag, x, y);
            && row.Keys == Everything(g)
            && row[g.flag] == flag && row[g.other] == 1 - flag && row[g.x] == x && row[g.y] == y
  {
  }

  /** The row gives the four columns these values. */
  predicate Gives(row: Row, g: Gate, flag: int, x: int, y: int) {
    && g.flag in row && g.other in row && g.x in row && g.y in row
    && row[g.flag] == flag && row[g.other] == 1 - flag && row[g.x] == x && row[g.y] == y
  }

  lemma GatedBits(nodes: seq<Node>, g: Gate, row: Row, flag: int, x: int, y: int)
    requires GatedNodes(nodes, g) && WellFormed(nodes, row.Keys) && Gives(row, g, flag, x, y)
    ensures Value(nodes, 3, row) == flag * (1 - flag) && Value(nodes, 6, row) == (1 - flag) * flag
    ensures Value(nodes, 8, row) == 0
  {
    assert Value(nodes, 0, row) == flag && Value(nodes, 1, row) == 1 && Value(nodes, 4, row) == 1 - flag;
    assert Value(nodes, 2, row) == 1 - flag && Value(nodes, 5, row) == flag && Value(nodes, 7, row) == 1;
  }

  lemma GatedProduct(nodes: seq<Node>, g: Gate, row: Row, flag: int, x: int, y: int)
    requires GatedNodes(nodes, g) && WellFormed(nodes, row.Keys) && Gives(row, g, flag, x, y)
    ensures Value(nodes, 12, row) == flag * x + y
  {
    assert Value(nodes, 0, row) == flag && Value(nodes, 9, row) == x && Value(nodes, 11, row) == y;
    assert Value(nodes, 10, row) == flag * x;
  }

  lemma GatedAccepts(g: Gate, flag: int, x: int, y: int)
    requires Apart(g) && (flag == 0 || flag == 1) && Canonical(x) && Canonical(y) && (flag * x + y) % P == 0
    ensures Loaded(Gated(g)) && Accepts(Gated(g), GatedRow(g, flag, x, y))
  {
    hide Value, Loaded, Gated, GatedRow, GatedNodes, WellFormed;
    GatedLoaded(g);
    GatedKeys(g, flag, x, y);
    GatedParts(g);
    var s, row := Gated(g), GatedRow(g, flag, x, y);
    GatedOrdered(s.nodes, g);
    GatedBits(s.nodes, g, row, flag, x, y);
    GatedProduct(s.nodes, g, row, flag, x, y);
    assert flag * (1 - flag) == 0 == (1 - flag) * flag;
    forall k | 0 <= k < |s.constraints| ensures Residue(s, s.constraints[k], row) == 0 {
      assert k == 0 || k == 1 || k == 2 || k == 3;
    }
    assert forall n | n in row :: Canonical(row[n]);
  }

  // --- its selectors --------------------------------------------------------

  lemma GatedShapes(nodes: seq<Node>, g: Gate)
    requires GatedNodes(nodes, g) && Ordered(nodes)
    ensures BitBounds.BitConstraint(nodes, 3, g.flag) && BitBounds.BitConstraint(nodes, 6, g.other)
    ensures FactorsOf(nodes, 3) == [2, 0] && FactorsOf(nodes, 6) == [5, 4] && FactorsOf(nodes, 8) == [8]
  {
  }

  /** The analysis finds the two bits, whatever else it finds, and pins neither x nor y. */
  lemma GatedBounds(g: Gate, bounds: Bounds)
    requires Apart(g) && Loaded(Gated(g)) && Implied(Gated(g), bounds)
    ensures bounds.Keys == Everything(g) && bounds[g.flag] == bounds[g.other] == Span(0, 1)
    ensures bounds[g.x].lo < bounds[g.x].hi && bounds[g.y].lo < bounds[g.y].hi
  {
    hide Implied, Accepts, Loaded, BitBounds.BitConstraint, Gated, GatedNodes, FactorsOf, GatedRow, Within;
    var s := Gated(g);
    GatedLoaded(g);
    GatedParts(g);
    GatedOrdered(s.nodes, g);
    GatedShapes(s.nodes, g);
    ImpliedSound(s, bounds);
    GatedAccepts(g, 0, 0, 0);
    GatedAccepts(g, 0, 1, 0);
    GatedAccepts(g, 1, 1, P - 1);
    BitBounds.BitBounded(s, bounds, 0, g.flag, GatedRow(g, 0, 0, 0));
    BitBounds.BitBounded(s, bounds, 1, g.other, GatedRow(g, 0, 0, 0));
    Spread(g, bounds);
  }

  lemma Spread(g: Gate, bounds: Bounds)
    requires Apart(g) && bounds.Keys == Everything(g)
    requires Within(GatedRow(g, 0, 0, 0), bounds) && Within(GatedRow(g, 0, 1, 0), bounds)
    requires Within(GatedRow(g, 1, 1, P - 1), bounds)
    ensures bounds[g.flag].lo <= 0 && 1 <= bounds[g.flag].hi && bounds[g.other].lo <= 0 && 1 <= bounds[g.other].hi
    ensures bounds[g.x].lo <= 0 && 1 <= bounds[g.x].hi && bounds[g.y].lo <= 0 && P - 1 <= bounds[g.y].hi
  {
    GatedKeys(g, 0, 0, 0);
    GatedKeys(g, 0, 1, 0);
    GatedKeys(g, 1, 1, P - 1);
  }

  function Selectors(g: Gate): set<string> {
    {g.flag, g.other}
  }

  lemma PairForm(nodes: seq<Node>, g: Gate)
    requires Apart(g) && GatedNodes(nodes, g) && Ordered(nodes)
    ensures var form := FormOf(nodes, map[], 8);
            && form.Some? && form.value.constant == P - 1 && form.value.terms.Keys == Selectors(g)
            && forall n | n in form.value.terms :: form.value.terms[n] == 1
  {
    assert FormOf(nodes, map[], 0) == Some(Form(map[g.flag := 1], 0));
    assert FormOf(nodes, map[], 4) == Some(Form(map[g.other := 1], 0));
    assert FormOf(nodes, map[], 1) == Some(Form(map[], 1));
    PairSum(g);
    var pair := Combine(Form(map[g.flag := 1], 0), Form(map[g.other := 1], 0), 1);
    hide Combine;
    assert FormOf(nodes, map[], 7) == Some(pair);
  }

  lemma PairSum(g: Gate)
    requires Apart(g)
    ensures var pair := Combine(Form(map[g.flag := 1], 0), Form(map[g.other := 1], 0), 1);
            var form := Combine(pair, Form(map[], 1), P - 1);
            && form.constant == P - 1 && form.terms.Keys == Selectors(g)
            && forall n | n in form.terms :: form.terms[n] == 1
  {
    TwoUnits(g);
    hide Selectors, Combine;
    LessConstant(Combine(Form(map[g.flag := 1], 0), Form(map[g.other := 1], 0), 1), 1);
  }

  lemma TwoUnits(g: Gate)
    requires Apart(g)
    ensures var pair := Combine(Form(map[g.flag := 1], 0), Form(map[g.other := 1], 0), 1);
            pair.terms.Keys == Selectors(g) && (forall n | n in pair.terms :: pair.terms[n] == 1) && pair.constant == 0
  {
    assert Scale(Form(map[g.other := 1], 0), 1) == Form(map[g.other := 1], 0) by {
      assert Scale(Form(map[g.other := 1], 0), 1).terms == map[g.other := 1];
    }
    hide Scale;
    assert g.other in map[g.other := 1] && g.flag in map[g.flag := 1] && g.flag !in map[g.other := 1];
  }

  lemma LessConstant(form: Form, c: int)
    ensures Combine(form, Form(map[], c), P - 1) == Form(form.terms, (form.constant + c * (P - 1) % P) % P)
  {
    var less := Combine(form, Form(map[], c), P - 1);
    assert Scale(Form(map[], c), P - 1).terms == map[];
    assert less.terms == form.terms;
  }

  lemma GatedOneHot(g: Gate, bounds: Bounds)
    requires Apart(g) && Loaded(Gated(g)) && CaseSplit.IsBit(bounds, g.flag) && CaseSplit.IsBit(bounds, g.other)
    ensures CaseSplit.OneHot(Gated(g), bounds, 8) && CaseSplit.TermsOf(Gated(g), 8).Keys == Selectors(g)
    ensures !CaseSplit.OneHot(Gated(g), bounds, 3) && !CaseSplit.OneHot(Gated(g), bounds, 6)
  {
    hide FormOf, FactorsOf, ByRole, Gated, Loaded, GatedNodes, Selectors, Ordered, BitBounds.BitConstraint;
    var s := Gated(g);
    GatedOrdered(s.nodes, g);
    GatedShapes(s.nodes, g);
    PairForm(s.nodes, g);
    GatedRoles(g);
    TwoSelectors(g);
    var terms := FormOf(s.nodes, map[], 8).value.terms;
    assert |terms.Keys| == |terms|;
  }

  lemma TwoSelectors(g: Gate)
    requires Apart(g)
    ensures |Selectors(g)| == 2 && forall n :: n in Selectors(g) <==> n == g.flag || n == g.other
  {
  }

  lemma GatedSelectors(g: Gate, bounds: Bounds)
    requires Apart(g) && Loaded(Gated(g)) && Implied(Gated(g), bounds)
    ensures CaseSplit.SelectorsIn(Gated(g), bounds, SortedList(Selectors(g)))
  {
    hide CaseSplit.OneHot, CaseSplit.TermsOf, SortedList, Gated, Loaded, Implied, Selectors;
    GatedBounds(g, bounds);
    GatedOneHot(g, bounds);
    GatedParts(g);
    assert CaseSplit.FirstOneHot(Gated(g), bounds, SortedList(Selectors(g)), 2);
  }

  // --- what its copies share under the second selector ----------------------

  function OtherPins(g: Gate): Pinned {
    map[g.flag := 0, g.other := 1]
  }

  lemma GatedPins(g: Gate, bounds: Bounds)
    requires Apart(g) && Loaded(Gated(g)) && Implied(Gated(g), bounds) && g.other != ""
    ensures ShardPins(bounds, SortedList(Selectors(g)), g.other) == OtherPins(g)
  {
    hide Gated, Loaded, Implied, SortedList;
    GatedBounds(g, bounds);
    var group := ShardGroup(SortedList(Selectors(g)), g.other);
    assert group == Selectors(g);
    hide ShardGroup;
    assert Pins(ShardBounds(bounds, group, g.other)) == OtherPins(g);
  }

  lemma {:induction false} ZeroReads(forms: seq<Option<Form>>, k: nat)
    requires k < |forms| && forms[k] == Some(Form(map[], 0))
    ensures ReadFactors(forms).None?
  {
    hide DirectionOf, Root;
    if k < |forms| - 1 { ZeroReads(forms[..|forms| - 1], k); }
  }

  lemma ConstantsCombine(a: int, b: int, sign: int)
    ensures Combine(Form(map[], a), Form(map[], b), sign) == Form(map[], (a + b * sign % P) % P)
  {
    assert Scale(Form(map[], b), sign).terms == map[];
    assert Combine(Form(map[], a), Form(map[], b), sign).terms == map[];
  }

  lemma GatedConstants(nodes: seq<Node>, g: Gate)
    requires Apart(g) && GatedNodes(nodes, g) && Ordered(nodes)
    ensures FormOf(nodes, OtherPins(g), 0) == FormOf(nodes, OtherPins(g), 5) == FormOf(nodes, OtherPins(g), 8)
         == Some(Form(map[], 0))
  {
    hide Combine;
    var pinned := OtherPins(g);
    assert FormOf(nodes, pinned, 1) == Some(Form(map[], 1)) && FormOf(nodes, pinned, 4) == Some(Form(map[], 1));
    ConstantsCombine(1, 1, P - 1);
    ConstantsCombine(0, 1, 1);
    assert FormOf(nodes, pinned, 7) == Some(Form(map[], 1));
  }

  /** The product with the pinned flag keeps x, with coefficient zero. */
  lemma GatedForm(nodes: seq<Node>, g: Gate)
    requires Apart(g) && GatedNodes(nodes, g) && Ordered(nodes)
    ensures FactorsOf(nodes, 12) == [12]
    ensures var form := FormOf(nodes, OtherPins(g), 12); form.Some? && form.value.terms.Keys == {g.x, g.y}
  {
    var pinned := OtherPins(g);
    assert FormOf(nodes, pinned, 0) == Some(Form(map[], 0));
    assert FormOf(nodes, pinned, 9) == Some(Form(map[g.x := 1], 0));
    assert FormOf(nodes, pinned, 11) == Some(Form(map[g.y := 1], 0));
    KeepsZero(g);
    var product := Scale(Form(map[g.x := 1], 0), 0);
    hide Combine, Scale;
    assert FormOf(nodes, pinned, 10) == Some(product);
  }

  lemma KeepsZero(g: Gate)
    requires Apart(g)
    ensures Combine(Scale(Form(map[g.x := 1], 0), 0), Form(map[g.y := 1], 0), 1).terms.Keys == {g.x, g.y}
  {
  }

  lemma SilentConstraint(s: System, pinned: Pinned, c: nat, k: nat)
    requires Ordered(s.nodes) && c < |s.nodes| && k < |FactorsOf(s.nodes, c)|
    requires FormOf(s.nodes, pinned, FactorsOf(s.nodes, c)[k]) == Some(Form(map[], 0))
    ensures ConstraintLine(s, pinned, c).None?
  {
    hide FormOf, FactorsOf;
    ZeroReads(FactorForms(s, pinned, FactorsOf(s.nodes, c)), k);
  }

  lemma SingleFactor(s: System, pinned: Pinned, c: nat)
    requires Ordered(s.nodes) && c < |s.nodes| && FactorsOf(s.nodes, c) == [c]
    requires FormOf(s.nodes, pinned, c).Some? && FormOf(s.nodes, pinned, c).value.terms != map[]
    ensures var form := FormOf(s.nodes, pinned, c).value;
            ConstraintLine(s, pinned, c) == Some(Line(DirectionOf(form.terms), {Root(form)}))
  {
    hide FormOf, FactorsOf, DirectionOf, Root;
    var form := FormOf(s.nodes, pinned, c).value;
    assert FactorForms(s, pinned, FactorsOf(s.nodes, c)) == [Some(form)];
    BitBounds.FirstReading(form);
  }

  /** Only the last constraint has a line, and it fixes its own node. */
  lemma GatedFixed(g: Gate)
    requires Apart(g) && Loaded(Gated(g))
    ensures Fixed(Gated(g), OtherPins(g), 12)
  {
    hide Gated, GatedNodes, FormOf, FactorsOf, Loaded, ConstraintLine, DirectionOf, Root, OtherPins;
    var s, pinned := Gated(g), OtherPins(g);
    GatedParts(g);
    GatedOrdered(s.nodes, g);
    GatedShapes(s.nodes, g);
    GatedConstants(s.nodes, g);
    GatedForm(s.nodes, g);
    SilentConstraint(s, pinned, 3, 1);
    SilentConstraint(s, pinned, 6, 0);
    SilentConstraint(s, pinned, 8, 0);
    SingleFactor(s, pinned, 12);
    OneLine(s, pinned, 12);
  }

  lemma OneLine(s: System, pinned: Pinned, c: nat)
    requires Ordered(s.nodes) && |s.nodes| == 13 && s.constraints == [3, 6, 8, c] && c < 13
    requires ConstraintLine(s, pinned, 3).None? && ConstraintLine(s, pinned, 6).None?
    requires ConstraintLine(s, pinned, 8).None?
    requires FormOf(s.nodes, pinned, c).Some? && FormOf(s.nodes, pinned, c).value.terms != map[]
    requires var form := FormOf(s.nodes, pinned, c).value;
             ConstraintLine(s, pinned, c) == Some(Line(DirectionOf(form.terms), {Root(form)}))
    ensures Fixed(s, pinned, c)
  {
    hide FormOf, ConstraintLine, DirectionOf, Root;
    var form, all := FormOf(s.nodes, pinned, c).value, s.constraints;
    assert all[..3][..2] == all[..2] && all[..2][..1] == all[..1] && all[..1][..0] == [];
    assert LinesOf(s, pinned, all[..1]) == map[];
    assert LinesOf(s, pinned, all[..2]) == map[];
    assert LinesOf(s, pinned, all[..3]) == map[];
    assert LinesOf(s, pinned, all) == map[DirectionOf(form.terms) := {Root(form)}];
    hide LinesOf;
    assert NodeValues(s, pinned, c) == {PointAt(Lead(form.terms), Root(form), form.constant)};
  }

  /** The family has a counterexample in the shard of its second selector, yet the two copies of that
      shard share the only output. */
  lemma SharingHides(g: Gate, shared: set<string>)
    requires Apart(g) && g.other != "" && Loaded(Gated(g))
    requires Shares(Gated(g), SortedList(Selectors(g)), g.other, shared)
    ensures CaseSplit.SelectorsOf(Gated(g), SortedList(Selectors(g))) && g.x in shared
    ensures CaseSplit.InShard(Gated(g), SortedList(Selectors(g)), CaseSplit.Shard(g.x, g.other),
                              GatedRow(g, 0, 0, 0), GatedRow(g, 0, 1, 0))
  {
    var s, selectors := Gated(g), SortedList(Selectors(g));
    hide Gated, Loaded, Implied, SortedList, Selectors, SharesUnder, CaseSplit.SelectorsIn, CaseSplit.InShard;
    var bounds :| Implied(s, bounds) && SharesUnder(s, bounds, selectors, g.other, shared);
    GatedSelectors(g, bounds);
    GatedPins(g, bounds);
    OutputShared(g, bounds, shared);
    GatedCounterexample(g);
  }

  lemma OutputShared(g: Gate, bounds: Bounds, shared: set<string>)
    requires Apart(g) && Loaded(Gated(g)) && SharesUnder(Gated(g), bounds, SortedList(Selectors(g)), g.other, shared)
    requires ShardPins(bounds, SortedList(Selectors(g)), g.other) == OtherPins(g)
    ensures g.x in shared
  {
    hide Gated, GatedNodes, FormOf, Loaded, Fixed, SortedList, ShardPins, OtherPins, ByRole;
    var s := Gated(g);
    GatedOrdered(s.nodes, g);
    GatedFixed(g);
    GatedForm(s.nodes, g);
    GatedRoles(g);
    assert g.y in Inputs(s);
    var free := Free(FormOf(s.nodes, OtherPins(g), 12), shared);
    assert g.x !in shared ==> free == {g.x};
  }

  lemma GatedCounterexample(g: Gate)
    requires Apart(g) && g.other != "" && Loaded(Gated(g))
    ensures CaseSplit.InShard(Gated(g), SortedList(Selectors(g)), CaseSplit.Shard(g.x, g.other),
                              GatedRow(g, 0, 0, 0), GatedRow(g, 0, 1, 0))
  {
    hide Gated, Loaded, SortedList, Accepts, ByRole, GatedRow;
    GatedAccepts(g, 0, 0, 0);
    GatedAccepts(g, 0, 1, 0);
    GatedKeys(g, 0, 0, 0);
    GatedKeys(g, 0, 1, 0);
    GatedRoles(g);
    var a, b := GatedRow(g, 0, 0, 0), GatedRow(g, 0, 1, 0);
    assert CaseSplit.Differ(a, b, g.x);
  }
}
