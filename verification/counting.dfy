/** The table conditions whose counts bound the builders' chain walks, and
    counting the tables that satisfy one. Each walk step takes one table out
    of the count, so both walks end on every input. */
module Counting {
  import opened Wrappers
  import opened OrderedMap
  import opened Automaton

  /** `Lacking(c)`: the table has no `c` edge (the first walk).
      `PointingTo(c, q)`: the table's `c` edge leads to `q` (the rewiring). */
  datatype Guard = Lacking(c: char) | PointingTo(c: char, q: nat)

  predicate Holds(g: Guard, t: Table) {
    match g
    case Lacking(c) => !Has(t, c)
    case PointingTo(c, q) => Get(t, c) == Some(q)
  }

  function CountWhere(s: seq<Table>, g: Guard): (r: nat)
    ensures r <= |s|
  {
    if s == [] then 0
    else CountWhere(s[..|s| - 1], g) + (if Holds(g, s[|s| - 1]) then 1 else 0)
  }

  /** Replacing one table that satisfies `g` by one that does not lowers the
      count by exactly one. */
  lemma {:induction false} CountWhereReplace(s: seq<Table>, i: nat, x: Table, g: Guard)
    requires i < |s| && Holds(g, s[i]) && !Holds(g, x)
    ensures CountWhere(s[i := x], g) == CountWhere(s, g) - 1
  {
    var s' := s[i := x];
    var k := |s| - 1;
    if i == k {
      assert s'[..k] == s[..k];
    } else {
      assert s'[..k] == s[..k][i := x];
      CountWhereReplace(s[..k], i, x, g);
    }
  }
}
