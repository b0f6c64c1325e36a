/**
  One family's constraint system over a row: named columns, an arena of
  polynomials, the nodes that must vanish, and the requests a row makes of the
  preprocessed tables.
*/
module AirSystem {
  import opened Basics
  import opened RelationBus
  import opened LinearForms

  datatype Role = Input | Output | Witness

  datatype Column = Column(name: string, role: Role)

  /** The fixed tables; every other relation is a bus and constrains no row by itself. */
  datatype Table =
    | Range20
    | Range8And11
    | Range8And8And4
    | Range8And8
    | RangeM31
    | Bitwise
    | Bus

  /** A non-zero numerator obliges the components to be a row of the table. */
  datatype Lookup = Lookup(table: Table, numerator: nat, components: seq<nat>)

  datatype System = System(
    family: string, columns: seq<Column>, nodes: seq<Node>, constraints: seq<nat>, lookups: seq<Lookup>)

  function ColumnNames(s: System): set<string> {
    set c | c in s.columns :: c.name
  }

  function ByRole(columns: seq<Column>, role: Role): (names: seq<string>)
    ensures forall n | n in names :: exists c :: c in columns && c.name == n && c.role == role
    ensures forall c | c in columns && c.role == role :: c.name in names
  {
    if columns == [] then []
    else
      var n := |columns| - 1;
      assert columns == columns[..n] + [columns[n]];
      ByRole(columns[..n], role) + if columns[n].role == role then [columns[n].name] else []
  }

  /** What the loader guarantees. */
  predicate Loaded(s: System) {
    && WellFormed(s.nodes, ColumnNames(s))
    && Inside(s.nodes, s.constraints)
    && (forall k | 0 <= k < |s.lookups| ::
          s.lookups[k].numerator < |s.nodes| && Inside(s.nodes, s.lookups[k].components))
    && forall i, j | 0 <= i < j < |s.columns| :: s.columns[i].name != s.columns[j].name
  }

  // --- table membership -----------------------------------------------------

  /** Bits per component, or nothing for a bus. */
  function BoxWidths(table: Table): (widths: Option<seq<nat>>)
    ensures widths.Some? ==> forall w | w in widths.value :: w <= 20
  {
    match table
    case Range20 => Some([20])
    case Range8And11 => Some([8, 11])
    case Range8And8And4 => Some([8, 8, 4])
    case Range8And8 => Some([8, 8])
    case RangeM31 => Some([8, 7])
    case Bitwise => Some([8, 8, 8, 2])
    case Bus => None
  }

  function BitAt(x: nat, i: nat): nat {
    x / Pow2(i) % 2
  }

  /** Operation 0 is and, 1 or, 2 exclusive or, and 3 the padding row. */
  predicate BitwiseRow(lhs: nat, rhs: nat, value: nat, op: nat) {
    if op == 3 then value == 0
    else forall i | 0 <= i < 8 ::
      var l, r := BitAt(lhs, i), BitAt(rhs, i);
      BitAt(value, i) == if op == 0 then l * r else if op == 1 then l + r - l * r else l + r - 2 * l * r
  }

  predicate InBox(widths: seq<nat>, values: seq<int>) {
    |values| == |widths| && forall k | 0 <= k < |widths| :: 0 <= values[k] < Pow2(widths[k])
  }

  predicate InTable(table: Table, values: seq<int>) {
    match BoxWidths(table)
    case None => true
    case Some(widths) =>
      && InBox(widths, values)
      && (table == RangeM31 ==> values != [255, 127])
      && (table == Bitwise ==> BitwiseRow(values[0], values[1], values[2], values[3]))
  }

  // --- accepted rows --------------------------------------------------------

  function Residue(s: System, i: nat, row: Row): (r: int)
    requires WellFormed(s.nodes, row.Keys) && i < |s.nodes|
    ensures Canonical(r)
  {
    Value(s.nodes, i, row) % P
  }

  ghost predicate Meets(s: System, lookup: Lookup, row: Row)
    requires WellFormed(s.nodes, row.Keys)
    requires lookup.numerator < |s.nodes| && Inside(s.nodes, lookup.components)
  {
    Residue(s, lookup.numerator, row) != 0 ==>
      InTable(lookup.table, seq(|lookup.components|, k requires 0 <= k < |lookup.components| =>
                                  Residue(s, lookup.components[k], row)))
  }

  /** The row gives every column a canonical value, satisfies every constraint and meets every lookup. */
  ghost predicate Accepts(s: System, row: Row)
    requires Loaded(s)
  {
    && row.Keys == ColumnNames(s)
    && (forall n | n in row :: Canonical(row[n]))
    && (forall k | 0 <= k < |s.constraints| :: Residue(s, s.constraints[k], row) == 0)
    && forall k | 0 <= k < |s.lookups| :: Meets(s, s.lookups[k], row)
  }

  /** Names come in column order: the list of a longer column list is put together from its parts. */
  lemma {:induction false} RoleAppend(a: seq<Column>, b: seq<Column>, role: Role)
    ensures ByRole(a + b, role) == ByRole(a, role) + ByRole(b, role)
  {
    if b == [] {
      assert a + b == a;
    } else {
      assert (a + b)[..|a + b| - 1] == a + b[..|b| - 1];
      RoleAppend(a, b[..|b| - 1], role);
    }
  }

  lemma RoleSingle(c: Column, role: Role)
    ensures ByRole([c], role) == if c.role == role then [c.name] else []
  {
    assert [c][..0] == [];
  }
}
