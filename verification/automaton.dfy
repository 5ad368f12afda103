/** The state store of the TypeScript suffix automaton: an append-only array
    of states, the root index and the last (whole-word) state.

    A state's transitions live in a separate table, named by the state's
    `table` id. A fresh state gets a table of its own; a clone reuses its
    source's table id, because the source hands the clone the very same
    `Map` object rather than a copy. An edge added through either state is
    therefore seen by both. */
module Automaton {
  import opened Wrappers
  import opened OrderedMap

  /** Transitions of one table: symbol to target state index. */
  type Table = OMap<char, nat>

  datatype State = State(index: nat, maxLength: nat, suffixLink: int, table: nat, isTerminal: bool)

  datatype SuffixAutomaton = SuffixAutomaton(states: seq<State>, tables: seq<Table>, root: nat, last: int)

  /** State `i` is stored at position `i`, names an existing table and has a
      suffix link that is -1 or an existing state. */
  predicate StateOk(states: seq<State>, tableCount: nat, i: nat)
    requires i < |states|
  {
    var s := states[i];
    s.index == i && s.table < tableCount && -1 <= s.suffixLink < |states|
  }

  /** A table is a partial function from symbols (no key twice) whose targets
      are existing states other than the root: the builder only ever adds
      edges to the state it has just created or cloned. */
  predicate TableOk(t: Table, count: nat) {
    UniqueKeys(t) && forall i :: 0 <= i < |t| ==> 1 <= t[i].value < count
  }

  predicate TableOkAt(tables: seq<Table>, stateCount: nat, t: nat)
    requires t < |tables|
  {
    TableOk(tables[t], stateCount)
  }

  /** The store invariant that holds between builder operations. */
  predicate Valid(a: SuffixAutomaton) {
    && |a.states| >= 1
    && a.root == 0
    && a.states[0].maxLength == 0
    && a.states[0].suffixLink == -1
    && 0 <= a.last < |a.states|
    && (forall i :: 0 <= i < |a.states| ==> StateOk(a.states, |a.tables|, i))
    && (forall t :: 0 <= t < |a.tables| ==> TableOkAt(a.tables, |a.states|, t))
  }

  /** The transition table of state `s` (empty for a state or table that
      does not exist, which never happens in a valid store). */
  function TableOf(a: SuffixAutomaton, s: nat): Table {
    if s < |a.states| && a.states[s].table < |a.tables| then a.tables[a.states[s].table] else []
  }

  function GetState(a: SuffixAutomaton, index: nat): (s: State)
    requires Valid(a) && index < |a.states|
    ensures s.index == index
    ensures s.table < |a.tables| && -1 <= s.suffixLink < |a.states|
  {
    assert StateOk(a.states, |a.tables|, index);
    a.states[index]
  }

  function GetLastState(a: SuffixAutomaton): (s: State)
    requires Valid(a)
    ensures s.index == a.last
  {
    assert StateOk(a.states, |a.tables|, a.last);
    a.states[a.last]
  }

  /** The target of the `symbol` edge out of `from`, or -1 when there is none. */
  function GetNextState(a: SuffixAutomaton, from: nat, symbol: char): (r: int)
    requires from < |a.states| && a.states[from].table < |a.tables|
    ensures r == -1 <==> !Has(TableOf(a, from), symbol)
    ensures r != -1 ==> Get(TableOf(a, from), symbol) == Some(r)
    ensures Valid(a) ==> r == -1 || 1 <= r < |a.states|
  {
    match Get(TableOf(a, from), symbol)
    case None => -1
    case Some(t) =>
      assert Valid(a) ==> TableOkAt(a.tables, |a.states|, a.states[from].table);
      t
  }

  /** Setting an edge to an existing non-root state keeps a table valid. */
  lemma SetKeepsTableOk(t: Table, symbol: char, target: nat, count: nat)
    requires TableOk(t, count) && 1 <= target < count
    ensures TableOk(Set(t, symbol, target), count)
  {
    SetKeepsUniqueKeys(t, symbol, target);
  }
}
