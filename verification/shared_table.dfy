/** The clone's shared table. Both builders hand a clone its source's very
    map, so an edge the first walk of a later step sets through the clone
    also appears on the source. On "abba" this gives state 2 (the state of
    "ab") an 'a' edge to the new state, and the automaton reads "aba", which
    is no factor of "abba". The evident intent is a clone with a copy of its
    source's map (`CloneCopy`): then no two states share a table, an edge
    set through one state is seen from no other, and the same step leaves
    "aba" unread. */
module SharedTable {
  import opened Wrappers
  import opened OrderedMap
  import opened Counting
  import opened Automaton
  import B = Builder
  import opened StaleEdge

  // ----- reading words -----------------------------------------------------

  /** The target of `s`'s `x` edge, or -1. */
  function Next(a: SuffixAutomaton, s: nat, x: char): (r: int)
    ensures r == -1 <==> !Has(TableOf(a, s), x)
  {
    match Get(TableOf(a, s), x)
    case Some(t) => t
    case None => -1
  }

  /** The state reached from `s` by reading `w`, or -1 where an edge is
      missing. */
  function Run(a: SuffixAutomaton, s: int, w: string): int
    decreases |w|
  {
    if s < 0 || w == [] then s else Run(a, Next(a, s, w[0]), w[1..])
  }

  /** `w` occurs in `text`. */
  ghost predicate IsFactor(w: string, text: string) {
    exists i :: OccursAt(w, text, i)
  }

  /** `w` occurs in `text` from position `i`. */
  predicate OccursAt(w: string, text: string, i: int) {
    0 <= i && i + |w| <= |text| && text[i..i + |w|] == w
  }

  lemma AbaNotInAbba()
    ensures !IsFactor("aba", "abba")
  {
    forall i | 0 <= i <= 1
      ensures !OccursAt("aba", "abba", i)
    {
      var seen := "abba"[i..i + 3];
      if i == 0 {
        assert seen[2] != "aba"[2];
      } else {
        assert seen[0] != "aba"[0];
      }
    }
  }

  // ----- sharing -----------------------------------------------------------

  /** No two states share a table. */
  predicate Unshared(a: SuffixAutomaton) {
    forall i, j :: 0 <= i < j < |a.states| ==> a.states[i].table != a.states[j].table
  }

  /** State `s` given a table of its own holding a copy of its entries. */
  function Unshare(a: SuffixAutomaton, s: nat): SuffixAutomaton
    requires s < |a.states|
  {
    a.(states := a.states[s := a.states[s].(table := |a.tables|)], tables := a.tables + [TableOf(a, s)])
  }

  /** Copying a table changes no lookup and keeps the store valid. */
  lemma UnshareKeepsLookups(a: SuffixAutomaton, s: nat)
    requires Valid(a) && s < |a.states|
    ensures Valid(Unshare(a, s))
    ensures forall x: nat, y: char :: Next(Unshare(a, s), x, y) == Next(a, x, y)
  {
    var a' := Unshare(a, s);
    assert StateOk(a.states, |a.tables|, s);
    forall i | 0 <= i < |a'.states| ensures StateOk(a'.states, |a'.tables|, i) {
      assert StateOk(a.states, |a.tables|, i);
    }
    forall t | 0 <= t < |a'.tables| ensures TableOkAt(a'.tables, |a'.states|, t) {
      if t < |a.tables| {
        assert TableOkAt(a.tables, |a.states|, t);
      } else {
        assert TableOkAt(a.tables, |a.states|, a.states[s].table);
      }
    }
    forall x: nat, y: char ensures Next(a', x, y) == Next(a, x, y) {
      if x < |a.states| {
        assert StateOk(a.states, |a.tables|, x);
        assert TableOf(a', x) == TableOf(a, x);
      }
    }
  }

  /** `createClone` as intended: the clone of `from` gets a copy of its
      source's map, with the events of the source's clone. */
  function CloneCopy(b: B.SuffixAutomatonBuilder, from: nat, maxLength: nat): (r: (B.SuffixAutomatonBuilder, nat))
    requires Valid(b.automaton) && from < |b.automaton.states|
    ensures r.1 == |b.automaton.states| && |r.0.automaton.states| == r.1 + 1
    ensures Valid(r.0.automaton)
    ensures Unshared(b.automaton) ==> Unshared(r.0.automaton)
    ensures forall y: char :: Next(r.0.automaton, r.1, y) == Next(b.automaton, from, y)
    ensures forall x: nat, y: char :: x < r.1 ==> Next(r.0.automaton, x, y) == Next(b.automaton, x, y)
    ensures StateOk(b.automaton.states, |b.automaton.tables|, from) && r.0.history == B.CreateClonedState(b, from, maxLength).0.history
  {
    assert StateOk(b.automaton.states, |b.automaton.tables|, from);
    var shared := B.CreateClonedState(b, from, maxLength);
    var a := shared.0.automaton;
    UnshareKeepsLookups(a, shared.1);
    var a' := Unshare(a, shared.1);
    assert forall i :: 0 <= i < |b.automaton.states| ==> StateOk(b.automaton.states, |b.automaton.tables|, i);
    assert forall x: nat :: x < shared.1 ==> TableOf(a, x) == TableOf(b.automaton, x);
    assert TableOf(a, shared.1) == TableOf(b.automaton, from);
    assert |a.tables| == |b.automaton.tables| && a'.states[shared.1].table == |a.tables|;
    forall i | 0 <= i < shared.1 ensures a'.states[i] == b.automaton.states[i] && a'.states[i].table < |a.tables| {
      assert StateOk(b.automaton.states, |b.automaton.tables|, i);
    }
    (shared.0.(automaton := a'), shared.1)
  }

  /** As written, an edge set through a fresh clone appears on its source. */
  lemma SharedCloneLeaks(b: B.SuffixAutomatonBuilder, from: nat, maxLength: nat, target: nat, x: char)
    requires Valid(b.automaton) && from < |b.automaton.states| && b.automaton.states[from].table < |b.automaton.tables|
    ensures var r := B.CreateClonedState(b, from, maxLength);
            r.0.automaton.states[r.1].table < |r.0.automaton.tables|
            && Next(B.AddLink(r.0, r.1, target, x).automaton, from, x) == target
  {
    assert StateOk(b.automaton.states, |b.automaton.tables|, from);
    var r := B.CreateClonedState(b, from, maxLength);
    var t := b.automaton.states[from].table;
    GetSet(r.0.automaton.tables[t], x, target, x);
  }

  /** With the copy, an edge set through the clone leaves every other
      state's edges as they were. */
  lemma CopyIsIndependent(b: B.SuffixAutomatonBuilder, from: nat, maxLength: nat, target: nat, x: char, s: nat, y: char)
    requires Valid(b.automaton) && from < |b.automaton.states| && Unshared(b.automaton)
    requires s < |b.automaton.states|
    ensures var r := CloneCopy(b, from, maxLength);
            r.0.automaton.states[r.1].table < |r.0.automaton.tables|
            && Next(B.AddLink(r.0, r.1, target, x).automaton, s, y) == Next(b.automaton, s, y)
  {
    var r := CloneCopy(b, from, maxLength);
    var a := r.0.automaton;
    assert StateOk(a.states, |a.tables|, r.1) && StateOk(a.states, |a.tables|, s);
    assert a.states[s].table != a.states[r.1].table;
    B.AddLinkIsShared(r.0, r.1, target, x, s, y);
    assert GetNextState(a, s, y) == Next(a, s, y);
  }

  // ----- "abba" ------------------------------------------------------------

  /** The store "abb" leaves: its last step cloned state 2 as state 4, which
      shares table 2 with it. */
  function AbbStore(): SuffixAutomaton {
    SuffixAutomaton(
      [State(0, 0, -1, 0, false), State(1, 1, 0, 1, false), State(2, 2, 4, 2, false),
       State(3, 3, 4, 3, false), State(4, 1, 0, 2, false)],
      [[Entry('a', 1), Entry('b', 4)], [Entry('b', 2)], [Entry('b', 3)], []],
      0, 3)
  }

  /** The same store with the clone holding a copy of its map. After the
      clone was made, the step set an edge only in the root's table, so this
      is the store "abb" leaves when `createClone` copies. */
  function AbbCopied(): SuffixAutomaton {
    Unshare(AbbStore(), 4)
  }

  /** What a step adding 'a' sees of "abb": the last state 3 (length 3)
      links to 4, 4 links to the root, neither has an 'a' edge, and the
      root's 'a' edge leads to state 1, one longer than the root. */
  ghost predicate AbbShape(a: SuffixAutomaton) {
    && Valid(a) && |a.states| == 5 && a.last == 3
    && a.states[0].maxLength == 0 && a.states[1].maxLength == 1 && a.states[3].maxLength == 3
    && a.states[3].suffixLink == 4 && a.states[4].suffixLink == 0
    && TableOf(a, 0) == [Entry('a', 1), Entry('b', 4)] && TableOf(a, 3) == [] && TableOf(a, 4) == [Entry('b', 3)]
    && a.states[0].table !in {a.states[3].table, a.states[4].table} && a.states[3].table != a.states[4].table
  }

  lemma AbbStoreShape()
    ensures Valid(AbbStore()) && !Unshared(AbbStore()) && AbbShape(AbbStore())
  {
    var a := AbbStore();
    forall t | 0 <= t < |a.tables|
      ensures TableOkAt(a.tables, |a.states|, t)
    {
      assert a.tables[t] in {[Entry('a', 1), Entry('b', 4)], [Entry('b', 2)], [Entry('b', 3)], []};
    }
    assert a.states[2].table == a.states[4].table;
  }

  lemma AbbCopiedShape()
    ensures Valid(AbbCopied()) && Unshared(AbbCopied()) && AbbShape(AbbCopied())
  {
    AbbStoreShape();
    UnshareKeepsLookups(AbbStore(), 4);
  }

  /** Adding 'a' to "abb", shared or copied: the first walk passes states 3
      and 4 and stops at the root, whose 'a' edge leads to state 1, one
      longer than the root. */
  lemma AbbaChain(a: SuffixAutomaton, chain: seq<nat>, branch: B.Branch)
    requires AbbShape(a) && B.ChainPart(B.SuffixAutomatonBuilder(a, []), 'a', chain, branch)
    ensures chain == [3, 4] && branch == B.Found(0, 1)
  {
    var a1 := B.WithNewState(a, 4);
    AbbaWalk(a, a1, chain);
    ChainTablesOfTwo(a1);
  }

  /** The first walk of that step: from state 3 over states lacking 'a' to a
      state that has it (or whose table the walk already passed). */
  lemma AbbaWalk(a: SuffixAutomaton, a1: SuffixAutomaton, chain: seq<nat>)
    requires AbbShape(a) && a1 == B.WithNewState(a, 4)
    requires B.IsChain(a1, chain, 3) && B.AllTables(a1, chain, Lacking('a'))
    requires var e := B.ChainEnd(a1, chain, 3);
             e == -1 || (0 <= e < |a1.states| && (Has(TableOf(a1, e), 'a') || B.TableId(a1, e) in B.ChainTables(a1, chain)))
    ensures chain == [3, 4]
  {
    assert StateOk(a.states, |a.tables|, 0) && StateOk(a.states, |a.tables|, 3) && StateOk(a.states, |a.tables|, 4);
    assert TableOf(a1, 0) == TableOf(a, 0) && TableOf(a1, 3) == [] && TableOf(a1, 4) == TableOf(a, 4);
    if |chain| == 0 {
      assert false;
    }
    ChainHead(a1, chain, 3);
    if |chain| == 1 {
      assert false;
    }
    var prefix := chain[..2];
    assert B.IsChain(a1, prefix, 3) by {
      ChainPrefix(a1, chain, 3, 2);
    }
    if |chain| >= 3 {
      ChainNext(a1, chain, 3, 2);
      AllTablesAt(a1, chain, Lacking('a'), 2);
      assert false;
    }
  }

  /** A prefix of a walk is a walk. */
  lemma {:induction false} ChainPrefix(a: SuffixAutomaton, chain: seq<nat>, start: int, k: nat)
    requires B.IsChain(a, chain, start) && k <= |chain|
    ensures B.IsChain(a, chain[..k], start)
    decreases |chain|
  {
    if k < |chain| {
      ChainPrefix(a, chain[..|chain| - 1], start, k);
      assert chain[..|chain| - 1][..k] == chain[..k];
    } else {
      assert chain[..k] == chain;
    }
  }

  /** Each state of a walk after the first is its predecessor's suffix-link
      target. */
  lemma {:induction false} ChainNext(a: SuffixAutomaton, chain: seq<nat>, start: int, k: nat)
    requires B.IsChain(a, chain, start) && 1 <= k < |chain|
    ensures chain[k] == B.LinkOf(a, chain[k - 1])
    decreases |chain|
  {
    var prefix := chain[..|chain| - 1];
    if k < |chain| - 1 {
      ChainNext(a, prefix, start, k);
    } else {
      assert prefix[|prefix| - 1] == chain[k - 1];
    }
  }

  /** The store the step adding 'a' leaves from `a`: state 5 of length 4
      linked to state 1, with a table of its own, and an 'a' edge to it set
      in the tables of states 3 and 4. */
  lemma AbbaStep(a: SuffixAutomaton, b': B.SuffixAutomatonBuilder, chain: seq<nat>, branch: B.Branch)
    requires AbbShape(a) && B.ExtendSpec(B.SuffixAutomatonBuilder(a, []), 'a', b', chain, branch)
    ensures b'.automaton.states == a.states + [State(5, 4, 1, |a.tables|, false)]
    ensures b'.automaton.tables == B.SetEdges(a.tables + [[]], {a.states[3].table, a.states[4].table}, 'a', 5)
  {
    AbbaChain(a, chain, branch);
    ChainTablesOfTwo(B.WithNewState(a, 4));
  }

  /** Each old state's edges after that step. */
  lemma AbbaTables(a: SuffixAutomaton, a': SuffixAutomaton, k: nat)
    requires AbbShape(a) && k < 5
    requires a'.states == a.states + [State(5, 4, 1, |a.tables|, false)]
    requires a'.tables == B.SetEdges(a.tables + [[]], {a.states[3].table, a.states[4].table}, 'a', 5)
    ensures TableOf(a', k) == if a.states[k].table in {a.states[3].table, a.states[4].table}
                              then Set(TableOf(a, k), 'a', 5) else TableOf(a, k)
  {
    assert StateOk(a.states, |a.tables|, k);
  }

  /** The two stores, one step on. */
  lemma AbbaStores(a: SuffixAutomaton, a': SuffixAutomaton)
    requires a == AbbStore() || a == AbbCopied()
    requires AbbShape(a)
    requires a'.states == a.states + [State(5, 4, 1, |a.tables|, false)]
    requires a'.tables == B.SetEdges(a.tables + [[]], {a.states[3].table, a.states[4].table}, 'a', 5)
    ensures TableOf(a', 0) == [Entry('a', 1), Entry('b', 4)] && TableOf(a', 1) == [Entry('b', 2)]
    ensures a == AbbStore() ==> TableOf(a', 2) == Set([Entry('b', 3)], 'a', 5)
    ensures a == AbbCopied() ==> TableOf(a', 2) == [Entry('b', 3)]
  {
    AbbaTables(a, a', 0);
    AbbaTables(a, a', 1);
    AbbaTables(a, a', 2);
  }

  /** The tables of the walk over states 3 and 4. */
  lemma ChainTablesOfTwo(a: SuffixAutomaton)
    ensures B.ChainTables(a, [3, 4]) == {B.TableId(a, 3), B.TableId(a, 4)}
  {
    assert B.ChainTables(a, [3]) == {B.TableId(a, 3)} by {
      assert [3][..0] == [];
    }
    assert [3, 4][..1] == [3];
  }

  /** As written: "abb" plus 'a' leaves state 2 with an 'a' edge to the new
      state 5, so the automaton reads "aba", no factor of "abba". */
  method AbbaAsWritten() returns (b': B.SuffixAutomatonBuilder)
    ensures Valid(b'.automaton) && !Unshared(b'.automaton)
    ensures Run(b'.automaton, 0, "aba") == 5 && !IsFactor("aba", "abba")
  {
    AbbStoreShape();
    ghost var chain, branch;
    b', chain, branch := B.Extend(B.SuffixAutomatonBuilder(AbbStore(), []), 'a');
    AbbaStep(AbbStore(), b', chain, branch);
    var a := b'.automaton;
    AbbaStores(AbbStore(), a);
    GetSet(AbbStore().tables[2], 'a', 5, 'a');
    assert Next(a, 0, 'a') == 1 && Next(a, 1, 'b') == 2 && Next(a, 2, 'a') == 5;
    assert "aba"[1..] == "ba" && "ba"[1..] == "a" && "a"[1..] == [];
    assert Run(a, 0, "aba") == Run(a, 1, "ba") == Run(a, 2, "a") == Run(a, 5, []) == 5;
    assert a.states[2].table == a.states[4].table;
    AbaNotInAbba();
  }

  /** With the copy: "abb" plus 'a' leaves state 2's edges alone, "aba" is
      not read, no table is shared, and every suffix link leads to a
      shorter state. */
  method AbbaCorrected() returns (b': B.SuffixAutomatonBuilder)
    ensures Valid(b'.automaton) && Unshared(b'.automaton)
    ensures Run(b'.automaton, 0, "aba") == -1
    ensures forall i :: 1 <= i < |b'.automaton.states| ==>
              var l := b'.automaton.states[i].suffixLink;
              0 <= l < |b'.automaton.states| && b'.automaton.states[l].maxLength < b'.automaton.states[i].maxLength
  {
    AbbCopiedShape();
    ghost var chain, branch;
    b', chain, branch := B.Extend(B.SuffixAutomatonBuilder(AbbCopied(), []), 'a');
    AbbaStep(AbbCopied(), b', chain, branch);
    var a := b'.automaton;
    AbbaStores(AbbCopied(), a);
    AbbaCopiedLinks(a);
    assert Next(a, 0, 'a') == 1 && Next(a, 1, 'b') == 2 && Next(a, 2, 'a') == -1;
    assert "aba"[1..] == "ba" && "ba"[1..] == "a";
  }

  /** The states "abba" leaves with copied tables: no table shared, and
      every suffix link leads to a shorter state. */
  lemma AbbaCopiedLinks(a: SuffixAutomaton)
    requires a.states == AbbCopied().states + [State(5, 4, 1, |AbbCopied().tables|, false)]
    ensures Unshared(a)
    ensures forall i :: 1 <= i < |a.states| ==>
              var l := a.states[i].suffixLink;
              0 <= l < |a.states| && a.states[l].maxLength < a.states[i].maxLength
  {
    assert a.states == [State(0, 0, -1, 0, false), State(1, 1, 0, 1, false), State(2, 2, 4, 2, false),
                        State(3, 3, 4, 3, false), State(4, 1, 0, 4, false), State(5, 4, 1, 5, false)];
  }
}
