/** The TypeScript `SuffixAutomatonBuilder`: the online suffix-automaton
    construction, which records every mutation it performs as an event.

    The builder is a value (automaton plus history); every operation returns
    the next value. `Extend` follows the source step by step, including two
    consequences of the clone sharing its source's table: a chain walk can
    find that a state already has its edge because an earlier state of the
    same walk shares the table, and the state `q` found at the end of the walk
    can then be the state `n` created by this very step. */
module Builder {
  import opened Wrappers
  import opened OrderedMap
  import opened Counting
  import E = Events
  import opened Automaton

  datatype SuffixAutomatonBuilder = SuffixAutomatonBuilder(automaton: SuffixAutomaton, history: seq<E.Event>)

  /** How the end of an `Extend` step went: the suffix chain ran out; it
      reached `p` whose edge leads to a `q` of exactly the wanted length; or
      `q` had to be cloned, and the states of `rewired` were redirected. */
  datatype Branch = Exhausted | Found(p: nat, q: nat) | Cloned(p: nat, q: nat, rewired: seq<nat>)

  // ----- store mutators, each paired with its event ----------------------

  /** The store with a fresh state appended: the next index, no suffix link,
      and a new empty table of its own. */
  function WithNewState(a: SuffixAutomaton, maxLength: nat): SuffixAutomaton {
    a.(states := a.states + [State(|a.states|, maxLength, -1, |a.tables|, false)], tables := a.tables + [[]])
  }

  function CreateNewState(b: SuffixAutomatonBuilder, maxLength: nat): (r: (SuffixAutomatonBuilder, nat))
    ensures r.1 == |b.automaton.states|
    ensures r.0.automaton == WithNewState(b.automaton, maxLength)
    ensures r.0.history == b.history + [E.CreateNewState(r.1, maxLength)]
    ensures Valid(b.automaton) ==> Valid(r.0.automaton)
  {
    var a := b.automaton;
    var index := |a.states|;
    var a' := a.(states := a.states + [State(index, maxLength, -1, |a.tables|, false)],
                 tables := a.tables + [[]]);
    assert Valid(a) ==> Valid(a') by {
      if Valid(a) {
        forall i | 0 <= i < |a'.states| ensures StateOk(a'.states, |a'.tables|, i) {
          if i < |a.states| { assert StateOk(a.states, |a.tables|, i); }
        }
        forall t | 0 <= t < |a'.tables| ensures TableOkAt(a'.tables, |a'.states|, t) {
          if t < |a.tables| { assert TableOkAt(a.tables, |a.states|, t); }
        }
      }
    }
    (SuffixAutomatonBuilder(a', b.history + [E.CreateNewState(index, maxLength)]), index)
  }

  /** One `CreateLink` event per entry of `t`, in the table's iteration order. */
  function EntryEvents(source: nat, t: Table): (r: seq<E.Event>)
    ensures |r| == |t|
  {
    if t == [] then []
    else EntryEvents(source, t[..|t| - 1]) + [E.CreateLink(source, t[|t| - 1].value, t[|t| - 1].key)]
  }

  /** The `i`-th event of `EntryEvents` is the link of the table's `i`-th
      entry: one event per entry, in iteration order. */
  lemma {:induction false} EntryEventsFollowTable(source: nat, t: Table)
    ensures forall i :: 0 <= i < |t| ==> EntryEvents(source, t)[i] == E.CreateLink(source, t[i].value, t[i].key)
  {
    if t != [] {
      var k := |t| - 1;
      EntryEventsFollowTable(source, t[..k]);
      assert forall i :: 0 <= i < k ==> t[..k][i] == t[i];
    }
  }

  /** The events of a clone: its creation, one `CreateLink` per entry of the
      table it shares, and its suffix link. */
  function CloneEvents(clone: nat, source: nat, maxLength: nat, t: Table, link: int): seq<E.Event> {
    [E.CreateClonedState(clone, source, maxLength)] + EntryEvents(clone, t) + [E.CreateSuffixLink(clone, link)]
  }

  /** The clone shares its source's table: the same table id, not a copy. */
  function CreateClonedState(b: SuffixAutomatonBuilder, from: nat, maxLength: nat): (r: (SuffixAutomatonBuilder, nat))
    requires from < |b.automaton.states| && b.automaton.states[from].table < |b.automaton.tables|
    ensures r.1 == |b.automaton.states|
    ensures var f := b.automaton.states[from];
            r.0.automaton == b.automaton.(states := b.automaton.states + [State(r.1, maxLength, f.suffixLink, f.table, false)])
    ensures var f := b.automaton.states[from];
            r.0.history == b.history + CloneEvents(r.1, f.index, maxLength, TableOf(b.automaton, from), f.suffixLink)
    ensures Valid(b.automaton) ==> Valid(r.0.automaton)
  {
    var a := b.automaton;
    var index := |a.states|;
    var f := a.states[from];
    var a' := a.(states := a.states + [State(index, maxLength, f.suffixLink, f.table, false)]);
    assert Valid(a) ==> Valid(a') by {
      if Valid(a) {
        assert StateOk(a.states, |a.tables|, from);
        forall i | 0 <= i < |a'.states| ensures StateOk(a'.states, |a'.tables|, i) {
          if i < |a.states| { assert StateOk(a.states, |a.tables|, i); }
        }
        forall t | 0 <= t < |a'.tables| ensures TableOkAt(a'.tables, |a'.states|, t) {
          assert TableOkAt(a.tables, |a.states|, t);
        }
      }
    }
    var h := b.history + [E.CreateClonedState(index, f.index, maxLength)]
             + EntryEvents(index, a.tables[f.table])
             + [E.CreateSuffixLink(index, f.suffixLink)];
    (SuffixAutomatonBuilder(a', h), index)
  }

  /** Sets the edge in the source state's table (lemma `AddLinkIsShared`:
      every state sharing that table sees the new edge). */
  function AddLink(b: SuffixAutomatonBuilder, source: nat, target: nat, symbol: char): (r: SuffixAutomatonBuilder)
    requires source < |b.automaton.states| && b.automaton.states[source].table < |b.automaton.tables|
    ensures var t := b.automaton.states[source].table;
            r.automaton == b.automaton.(tables := b.automaton.tables[t := Set(b.automaton.tables[t], symbol, target)])
    ensures r.history == b.history + [E.CreateLink(source, target, symbol)]
    ensures Valid(b.automaton) && 1 <= target < |b.automaton.states| ==> Valid(r.automaton)
  {
    var a := b.automaton;
    var t := a.states[source].table;
    var a' := a.(tables := a.tables[t := Set(a.tables[t], symbol, target)]);
    assert Valid(a) && 1 <= target < |a.states| ==> Valid(a') by {
      if Valid(a) && 1 <= target < |a.states| {
        forall i | 0 <= i < |a'.states| ensures StateOk(a'.states, |a'.tables|, i) {
          assert StateOk(a.states, |a.tables|, i);
        }
        assert TableOkAt(a.tables, |a.states|, t) by { assert StateOk(a.states, |a.tables|, source); }
        SetKeepsTableOk(a.tables[t], symbol, target, |a.states|);
        forall u | 0 <= u < |a'.tables| ensures TableOkAt(a'.tables, |a'.states|, u) {
          assert TableOkAt(a.tables, |a.states|, u);
        }
      }
    }
    SuffixAutomatonBuilder(a', b.history + [E.CreateLink(source, target, symbol)])
  }

  /** The edge `AddLink` sets is seen from every state that shares the source
      state's table (its clones and the state it was cloned from), and only
      the `symbol` edge changes. */
  lemma AddLinkIsShared(b: SuffixAutomatonBuilder, source: nat, target: nat, symbol: char, s: nat, x: char)
    requires source < |b.automaton.states| && b.automaton.states[source].table < |b.automaton.tables|
    requires s < |b.automaton.states| && b.automaton.states[s].table < |b.automaton.tables|
    ensures var r := AddLink(b, source, target, symbol);
            GetNextState(r.automaton, s, x) ==
              if x == symbol && b.automaton.states[s].table == b.automaton.states[source].table then target
              else GetNextState(b.automaton, s, x)
  {
    var t := b.automaton.states[source].table;
    GetSet(b.automaton.tables[t], symbol, target, x);
  }

  function AddSuffixLink(b: SuffixAutomatonBuilder, source: nat, target: int): (r: SuffixAutomatonBuilder)
    requires source < |b.automaton.states|
    ensures r.automaton == b.automaton.(states := b.automaton.states[source := b.automaton.states[source].(suffixLink := target)])
    ensures r.history == b.history + [E.CreateSuffixLink(source, target)]
    ensures Valid(b.automaton) && source != 0 && -1 <= target < |b.automaton.states| ==> Valid(r.automaton)
  {
    var a := b.automaton;
    var a' := a.(states := a.states[source := a.states[source].(suffixLink := target)]);
    assert Valid(a) && source != 0 && -1 <= target < |a.states| ==> Valid(a') by {
      if Valid(a) && source != 0 && -1 <= target < |a.states| {
        forall i | 0 <= i < |a'.states| ensures StateOk(a'.states, |a'.tables|, i) {
          assert StateOk(a.states, |a.tables|, i);
        }
        forall t | 0 <= t < |a'.tables| ensures TableOkAt(a'.tables, |a'.states|, t) {
          assert TableOkAt(a.tables, |a.states|, t);
        }
      }
    }
    SuffixAutomatonBuilder(a', b.history + [E.CreateSuffixLink(source, target)])
  }

  /** A clone answers every lookup exactly as its source does: a direct
      consequence of `CreateClonedState`'s contract (the clone holds its
      source's table id). */
  lemma CloneLooksUpAsSource(b: SuffixAutomatonBuilder, from: nat, maxLength: nat, x: char)
    requires from < |b.automaton.states| && b.automaton.states[from].table < |b.automaton.tables|
    ensures var r := CreateClonedState(b, from, maxLength);
            GetNextState(r.0.automaton, r.1, x) == GetNextState(b.automaton, from, x)
  {
  }

  /** The constructor: one root state and one creation event, so even the
      empty word has a non-empty history. */
  function NewBuilder(): (b: SuffixAutomatonBuilder)
    ensures Valid(b.automaton)
    ensures b.automaton.states == [State(0, 0, -1, 0, false)] && b.automaton.tables == [[]]
    ensures b.automaton.root == 0 && b.automaton.last == 0
    ensures b.history == [E.CreateNewState(0, 0)]
  {
    var empty := SuffixAutomatonBuilder(SuffixAutomaton([], [], 0, 0), []);
    var r := CreateNewState(empty, 0);
    var b := r.0.(automaton := r.0.automaton.(root := r.1));
    assert StateOk(b.automaton.states, |b.automaton.tables|, 0);
    b
  }

  // ----- suffix chains ---------------------------------------------------

  /** The table id of state `s` (0 for a state that does not exist). */
  function TableId(a: SuffixAutomaton, s: nat): nat {
    if s < |a.states| then a.states[s].table else 0
  }

  /** Where a walk from `start` that visited `chain` stands next. */
  function ChainEnd(a: SuffixAutomaton, chain: seq<nat>, start: int): int {
    if chain == [] then start
    else if chain[|chain| - 1] < |a.states| then a.states[chain[|chain| - 1]].suffixLink
    else -1
  }

  /** `chain` lists, in order, the states visited from `start` by following
      suffix links. */
  ghost predicate IsChain(a: SuffixAutomaton, chain: seq<nat>, start: int) {
    if chain == [] then true
    else
      var prefix := chain[..|chain| - 1];
      && IsChain(a, prefix, start)
      && chain[|chain| - 1] < |a.states|
      && chain[|chain| - 1] == ChainEnd(a, prefix, start)
  }

  /** The tables of the states on a chain. */
  ghost function ChainTables(a: SuffixAutomaton, chain: seq<nat>): set<nat> {
    if chain == [] then {}
    else ChainTables(a, chain[..|chain| - 1]) + {TableId(a, chain[|chain| - 1])}
  }

  /** No two states on the chain share a table. */
  ghost predicate DistinctTables(a: SuffixAutomaton, chain: seq<nat>) {
    if chain == [] then true
    else
      var prefix := chain[..|chain| - 1];
      DistinctTables(a, prefix) && TableId(a, chain[|chain| - 1]) !in ChainTables(a, prefix)
  }

  /** `Before` held of the table of every state on the chain. */
  ghost predicate AllTables(a: SuffixAutomaton, chain: seq<nat>, Before: Guard) {
    if chain == [] then true
    else AllTables(a, chain[..|chain| - 1], Before) && Holds(Before, TableOf(a, chain[|chain| - 1]))
  }

  /** The tables after setting `c` to `target` in each table of `touched`. */
  function SetEdges(tables: seq<Table>, touched: set<nat>, c: char, target: nat): (r: seq<Table>)
    ensures |r| == |tables|
  {
    seq(|tables|, t requires 0 <= t < |tables| => if t in touched then Set(tables[t], c, target) else tables[t])
  }

  /** The store after a walk along `chain` that set `c` to `target` in every
      table it passed. */
  ghost function WithEdges(a: SuffixAutomaton, chain: seq<nat>, c: char, target: nat): SuffixAutomaton {
    a.(tables := SetEdges(a.tables, ChainTables(a, chain), c, target))
  }

  /** Per state of the first walk: Focus, CreateLink to the new state, RemoveFocus. */
  function WalkEvents(chain: seq<nat>, n: nat, c: char): seq<E.Event> {
    if chain == [] then []
    else
      var p := chain[|chain| - 1];
      WalkEvents(chain[..|chain| - 1], n, c) + [E.Focus(p), E.CreateLink(p, n, c), E.RemoveFocus(p)]
  }

  /** Per redirected state: RemoveLink to `q`, then CreateLink to the clone. */
  function RewireEvents(chain: seq<nat>, q: nat, clone: nat, c: char): seq<E.Event> {
    if chain == [] then []
    else
      var p := chain[|chain| - 1];
      RewireEvents(chain[..|chain| - 1], q, clone, c) + [E.RemoveLink(p, q), E.CreateLink(p, clone, c)]
  }

  lemma AppendAssoc<T>(x: seq<T>, y: seq<T>, z: seq<T>)
    ensures x + (y + z) == (x + y) + z
  {
  }

  lemma AppendTwo<T>(h: seq<T>, y: seq<T>, z: seq<T>, u: T, v: T)
    ensures h + y + z + [u] + [v] == h + (y + z + [u, v])
  {
    AppendAssoc(h, y, z);
    AppendAssoc(h, y + z, [u, v]);
  }

  lemma SetEdgesAdd(tables: seq<Table>, touched: set<nat>, t: nat, c: char, target: nat)
    requires t < |tables| && t !in touched
    ensures SetEdges(tables, touched, c, target)[t := Set(tables[t], c, target)] == SetEdges(tables, touched + {t}, c, target)
  {
  }

  /** Setting an edge to an existing non-root state in an existing table
      keeps the store valid. */
  lemma ValidAfterSet(a: SuffixAutomaton, t: nat, c: char, target: nat)
    requires Valid(a) && t < |a.tables| && 1 <= target < |a.states|
    ensures Valid(a.(tables := a.tables[t := Set(a.tables[t], c, target)]))
  {
    var a' := a.(tables := a.tables[t := Set(a.tables[t], c, target)]);
    assert TableOkAt(a.tables, |a.states|, t);
    SetKeepsTableOk(a.tables[t], c, target, |a.states|);
    forall u | 0 <= u < |a'.tables| ensures TableOkAt(a'.tables, |a'.states|, u) {
      assert TableOkAt(a.tables, |a.states|, u);
    }
    forall i | 0 <= i < |a'.states| ensures StateOk(a'.states, |a'.tables|, i) {
      assert StateOk(a.states, |a.tables|, i);
    }
  }

  /** One iteration of the first loop of `Extend` at state `p`. */
  function VisitState(cur: SuffixAutomatonBuilder, p: nat, n: nat, c: char): (r: SuffixAutomatonBuilder)
    requires p < |cur.automaton.states| && cur.automaton.states[p].table < |cur.automaton.tables|
  {
    var r := AddLink(cur.(history := cur.history + [E.Focus(p)]), p, n, c);
    r.(history := r.history + [E.RemoveFocus(p)])
  }

  /** One iteration of the rewiring loop of `Extend` at state `p`. */
  function RedirectState(cur: SuffixAutomatonBuilder, p: nat, q: nat, clone: nat, c: char): (r: SuffixAutomatonBuilder)
    requires p < |cur.automaton.states| && cur.automaton.states[p].table < |cur.automaton.tables|
  {
    AddLink(cur.(history := cur.history + [E.RemoveLink(p, q)]), p, clone, c)
  }

  /** What a walk from `start` has done once it visited `chain` and stands at
      `p`: `Before` held of each visited table in the original store, no
      table was visited twice, each visited table now maps `c` to `target`,
      nothing else changed, and `events` were logged. */
  ghost predicate WalkState(b: SuffixAutomatonBuilder, start: nat, c: char, target: nat, Before: Guard,
                            events: seq<E.Event>, chain: seq<nat>, p: int, cur: SuffixAutomatonBuilder)
  {
    var a := b.automaton;
    && -1 <= p < |a.states|
    && IsChain(a, chain, start) && p == ChainEnd(a, chain, start)
    && AllTables(a, chain, Before)
    && DistinctTables(a, chain)
    && cur.automaton == a.(tables := SetEdges(a.tables, ChainTables(a, chain), c, target))
    && cur.history == b.history + events
    && Valid(cur.automaton)
  }

  /** Appending the state a chain stands at extends the chain. */
  lemma ChainSnoc(a: SuffixAutomaton, chain: seq<nat>, start: int, p: nat, Before: Guard)
    requires IsChain(a, chain, start) && p == ChainEnd(a, chain, start) && p < |a.states|
    requires AllTables(a, chain, Before) && Holds(Before, TableOf(a, p))
    requires DistinctTables(a, chain) && TableId(a, p) !in ChainTables(a, chain)
    ensures IsChain(a, chain + [p], start) && ChainEnd(a, chain + [p], start) == a.states[p].suffixLink
    ensures AllTables(a, chain + [p], Before) && DistinctTables(a, chain + [p])
    ensures ChainTables(a, chain + [p]) == ChainTables(a, chain) + {TableId(a, p)}
  {
    assert (chain + [p])[..|chain|] == chain;
  }

  /** Setting `c` in one more, not yet touched, table of a valid store. */
  lemma StoreStep(a: SuffixAutomaton, touched: set<nat>, t: nat, c: char, target: nat, Before: Guard)
    requires Valid(a) && 1 <= target < |a.states| && t < |a.tables| && t !in touched
    requires var cur := a.(tables := SetEdges(a.tables, touched, c, target));
             Valid(cur) && Holds(Before, a.tables[t]) && !Holds(Before, Set(a.tables[t], c, target))
    ensures var cur := a.(tables := SetEdges(a.tables, touched, c, target));
            var cur' := cur.(tables := cur.tables[t := Set(cur.tables[t], c, target)]);
            && cur' == a.(tables := SetEdges(a.tables, touched + {t}, c, target))
            && Valid(cur')
            && CountWhere(cur'.tables, Before) < CountWhere(cur.tables, Before)
  {
    var cur := a.(tables := SetEdges(a.tables, touched, c, target));
    assert cur.tables[t] == a.tables[t];
    SetEdgesAdd(a.tables, touched, t, c, target);
    CountWhereReplace(cur.tables, t, Set(a.tables[t], c, target), Before);
    ValidAfterSet(cur, t, c, target);
  }

  /** One walk step at `p`, for either loop: the step set `c` to `target` in
      the table of `p` (a table not visited before) and logged `step`. */
  lemma WalkStep(b: SuffixAutomatonBuilder, start: nat, c: char, target: nat, Before: Guard,
                 events: seq<E.Event>, chain: seq<nat>, p: nat, cur: SuffixAutomatonBuilder,
                 step: seq<E.Event>, cur': SuffixAutomatonBuilder)
    requires Valid(b.automaton) && 1 <= target < |b.automaton.states|
    requires WalkState(b, start, c, target, Before, events, chain, p, cur)
    requires p < |b.automaton.states| && TableId(b.automaton, p) !in ChainTables(b.automaton, chain)
    requires Holds(Before, TableOf(b.automaton, p)) && !Holds(Before, Set(TableOf(b.automaton, p), c, target))
    requires var t := TableId(b.automaton, p);
             t < |cur.automaton.tables| &&
             cur'.automaton == cur.automaton.(tables := cur.automaton.tables[t := Set(cur.automaton.tables[t], c, target)])
    requires cur'.history == cur.history + step
    ensures WalkState(b, start, c, target, Before, events + step, chain + [p], b.automaton.states[p].suffixLink, cur')
    ensures CountWhere(cur'.automaton.tables, Before) < CountWhere(cur.automaton.tables, Before)
  {
    var a := b.automaton;
    assert StateOk(a.states, |a.tables|, p);
    ChainSnoc(a, chain, start, p, Before);
    StoreStep(a, ChainTables(a, chain), a.states[p].table, c, target, Before);
    AppendAssoc(b.history, events, step);
  }

  lemma WalkEventsSnoc(chain: seq<nat>, p: nat, n: nat, c: char)
    ensures WalkEvents(chain + [p], n, c) == WalkEvents(chain, n, c) + [E.Focus(p), E.CreateLink(p, n, c), E.RemoveFocus(p)]
  {
    assert (chain + [p])[..|chain|] == chain;
  }

  lemma RewireEventsSnoc(chain: seq<nat>, p: nat, q: nat, clone: nat, c: char)
    ensures RewireEvents(chain + [p], q, clone, c) == RewireEvents(chain, q, clone, c) + [E.RemoveLink(p, q), E.CreateLink(p, clone, c)]
  {
    assert (chain + [p])[..|chain|] == chain;
  }

  /** A table the walk has not touched yet is the original one. */
  lemma UntouchedTable(a: SuffixAutomaton, touched: set<nat>, c: char, target: nat, p: nat)
    requires Valid(a) && p < |a.states| && TableId(a, p) !in touched
    ensures TableOf(a.(tables := SetEdges(a.tables, touched, c, target)), p) == TableOf(a, p)
  {
    assert StateOk(a.states, |a.tables|, p);
  }

  /** A table the walk has touched maps `c` to `target`. */
  lemma TouchedTable(a: SuffixAutomaton, touched: set<nat>, c: char, target: nat, p: nat)
    requires Valid(a) && p < |a.states| && TableId(a, p) in touched
    ensures Get(TableOf(a.(tables := SetEdges(a.tables, touched, c, target)), p), c) == Some(target)
  {
    assert StateOk(a.states, |a.tables|, p);
    GetSet(a.tables[a.states[p].table], c, target, c);
  }

  lemma VisitStep(b: SuffixAutomatonBuilder, start: nat, n: nat, c: char, chain: seq<nat>, p: int, cur: SuffixAutomatonBuilder)
    requires Valid(b.automaton) && 1 <= n < |b.automaton.states|
    requires WalkState(b, start, c, n, Lacking(c), WalkEvents(chain, n, c), chain, p, cur)
    requires p != -1 && !Has(TableOf(cur.automaton, p), c)
    ensures StateOk(b.automaton.states, |b.automaton.tables|, p)
    ensures var cur' := VisitState(cur, p, n, c);
            && WalkState(b, start, c, n, Lacking(c), WalkEvents(chain + [p], n, c), chain + [p], b.automaton.states[p].suffixLink, cur')
            && CountWhere(cur'.automaton.tables, Lacking(c)) < CountWhere(cur.automaton.tables, Lacking(c))
  {
    var a := b.automaton;
    assert StateOk(a.states, |a.tables|, p);
    var t := a.states[p].table;
    var touched := ChainTables(a, chain);
    if t in touched {
      TouchedTable(a, touched, c, n, p);
    }
    UntouchedTable(a, touched, c, n, p);
    GetSet(a.tables[t], c, n, c);
    var triple := [E.Focus(p), E.CreateLink(p, n, c), E.RemoveFocus(p)];
    WalkStep(b, start, c, n, Lacking(c), WalkEvents(chain, n, c), chain, p, cur, triple, VisitState(cur, p, n, c));
    WalkEventsSnoc(chain, p, n, c);
  }

  lemma RedirectStep(b: SuffixAutomatonBuilder, start: nat, q: nat, clone: nat, c: char, rewired: seq<nat>, p: int, cur: SuffixAutomatonBuilder)
    requires Valid(b.automaton) && 1 <= clone < |b.automaton.states| && clone != q
    requires WalkState(b, start, c, clone, PointingTo(c, q), RewireEvents(rewired, q, clone, c), rewired, p, cur)
    requires p != -1 && Get(TableOf(cur.automaton, p), c) == Some(q)
    ensures StateOk(b.automaton.states, |b.automaton.tables|, p)
    ensures var cur' := RedirectState(cur, p, q, clone, c);
            && WalkState(b, start, c, clone, PointingTo(c, q), RewireEvents(rewired + [p], q, clone, c), rewired + [p], b.automaton.states[p].suffixLink, cur')
            && CountWhere(cur'.automaton.tables, PointingTo(c, q)) < CountWhere(cur.automaton.tables, PointingTo(c, q))
  {
    var a := b.automaton;
    assert StateOk(a.states, |a.tables|, p);
    var t := a.states[p].table;
    var touched := ChainTables(a, rewired);
    if t in touched {
      TouchedTable(a, touched, c, clone, p);
    }
    UntouchedTable(a, touched, c, clone, p);
    GetSet(a.tables[t], c, clone, c);
    var pair := [E.RemoveLink(p, q), E.CreateLink(p, clone, c)];
    WalkStep(b, start, c, clone, PointingTo(c, q), RewireEvents(rewired, q, clone, c), rewired, p, cur, pair, RedirectState(cur, p, q, clone, c));
    RewireEventsSnoc(rewired, p, q, clone, c);
  }

  /** The first loop of `Extend`: from `start`, give every state that lacks a
      `c` edge an edge to `n`, until the chain runs out (-1) or reaches a state
      whose table has `c`. A state may have `c` because an earlier state of
      the same walk shares its table. The walk ends on every input: each step
      gives one more table a `c` key. */
  method WalkChain(b: SuffixAutomatonBuilder, start: nat, n: nat, c: char)
    returns (b': SuffixAutomatonBuilder, p: int, ghost chain: seq<nat>)
    requires Valid(b.automaton) && start < |b.automaton.states| && 1 <= n < |b.automaton.states|
    ensures IsChain(b.automaton, chain, start) && p == ChainEnd(b.automaton, chain, start)
    ensures AllTables(b.automaton, chain, Lacking(c)) && DistinctTables(b.automaton, chain)
    ensures -1 <= p < |b.automaton.states|
    ensures p != -1 ==> Has(TableOf(b.automaton, p), c) || TableId(b.automaton, p) in ChainTables(b.automaton, chain)
    ensures p != -1 ==> Get(TableOf(b'.automaton, p), c) ==
                          if TableId(b.automaton, p) in ChainTables(b.automaton, chain) then Some(n)
                          else Get(TableOf(b.automaton, p), c)
    ensures b'.automaton == WithEdges(b.automaton, chain, c, n)
    ensures b'.history == b.history + WalkEvents(chain, n, c)
    ensures Valid(b'.automaton)
  {
    var a := b.automaton;
    b' := b;
    p := start;
    chain := [];
    assert SetEdges(a.tables, {}, c, n) == a.tables;
    while p != -1 && !Has(TableOf(b'.automaton, p), c)
      invariant WalkState(b, start, c, n, Lacking(c), WalkEvents(chain, n, c), chain, p, b')
      decreases CountWhere(b'.automaton.tables, Lacking(c))
    {
      var v: nat := p;
      VisitStep(b, start, n, c, chain, v, b');
      b' := VisitState(b', v, n, c);
      chain := chain + [v];
      p := b'.automaton.states[v].suffixLink;
    }
    if p != -1 {
      if TableId(a, p) in ChainTables(a, chain) {
        TouchedTable(a, ChainTables(a, chain), c, n, p);
      } else {
        UntouchedTable(a, ChainTables(a, chain), c, n, p);
      }
    }
  }

  /** The redirecting walk over `rewired` from `p` in `s` stopped where it
      has to: at the end of the suffix chain, or at a state whose `c` edge
      does not lead to `q` (or whose table it has already redirected). */
  ghost predicate RewireStopped(s: SuffixAutomaton, rewired: seq<nat>, p: nat, c: char, q: nat) {
    var e := ChainEnd(s, rewired, p);
    e < 0 || Get(TableOf(s, e), c) != Some(q) || TableId(s, e) in ChainTables(s, rewired)
  }

  /** The rewiring loop of the clone branch: from `start`, every state whose
      `c` edge leads to `q` is redirected to `clone`, until the chain runs out
      or reaches a state whose `c` edge leads elsewhere. It ends on every input:
      each step takes one more table off `q`. */
  method Rewire(b: SuffixAutomatonBuilder, start: nat, q: nat, clone: nat, c: char)
    returns (b': SuffixAutomatonBuilder, p: int, ghost rewired: seq<nat>)
    requires Valid(b.automaton) && start < |b.automaton.states| && 1 <= clone < |b.automaton.states| && clone != q
    ensures IsChain(b.automaton, rewired, start) && p == ChainEnd(b.automaton, rewired, start)
    ensures AllTables(b.automaton, rewired, PointingTo(c, q)) && DistinctTables(b.automaton, rewired)
    ensures -1 <= p < |b.automaton.states| && RewireStopped(b.automaton, rewired, start, c, q)
    ensures b'.automaton == WithEdges(b.automaton, rewired, c, clone)
    ensures b'.history == b.history + RewireEvents(rewired, q, clone, c)
    ensures Valid(b'.automaton)
  {
    var a := b.automaton;
    b' := b;
    p := start;
    rewired := [];
    assert SetEdges(a.tables, {}, c, clone) == a.tables;
    while p != -1 && Get(TableOf(b'.automaton, p), c) == Some(q)
      invariant WalkState(b, start, c, clone, PointingTo(c, q), RewireEvents(rewired, q, clone, c), rewired, p, b')
      decreases CountWhere(b'.automaton.tables, PointingTo(c, q))
    {
      var v: nat := p;
      RedirectStep(b, start, q, clone, c, rewired, v, b');
      b' := RedirectState(b', v, q, clone, c);
      rewired := rewired + [v];
      p := b'.automaton.states[v].suffixLink;
    }
    if p != -1 && TableId(a, p) !in ChainTables(a, rewired) {
      UntouchedTable(a, ChainTables(a, rewired), c, clone, p);
    }
  }

  // ----- one extension step ---------------------------------------------

  /** Total accessors: the length and suffix link of state `s`, with 0 and
      -1 for a state that does not exist. */
  function LengthOf(a: SuffixAutomaton, s: nat): nat {
    if s < |a.states| then a.states[s].maxLength else 0
  }

  function LinkOf(a: SuffixAutomaton, s: nat): int {
    if s < |a.states| then a.states[s].suffixLink else -1
  }

  /** The store when the rewiring loop starts: the clone of `q` appended
      (length one more than `p`'s, `q`'s link and `q`'s shared table), and
      `q` linked to the clone. */
  function CloneStage(w: SuffixAutomaton, p: nat, q: nat, clone: nat): SuffixAutomaton
    requires q < |w.states|
  {
    var cl := State(clone, LengthOf(w, p) + 1, w.states[q].suffixLink, w.states[q].table, false);
    w.(states := (w.states + [cl])[q := w.states[q].(suffixLink := clone)])
  }

  /** The suffix link the new state `n` ends with. */
  function NewLink(n: nat, branch: Branch): nat {
    match branch
    case Exhausted => 0
    case Found(_, q) => q
    case Cloned(_, _, _) => n + 1
  }

  /** The events of the clone branch up to the rewiring loop: the clone's
      creation, `q`'s old suffix link removed, `q` linked to the clone, and
      the focus moved from `q` to the clone. */
  function CloneHead(w: SuffixAutomaton, n: nat, p: nat, q: nat): seq<E.Event> {
    var clone := n + 1;
    var link := LinkOf(w, q);
    CloneEvents(clone, q, LengthOf(w, p) + 1, TableOf(w, q), link)
    + [E.RemoveSuffixLink(q, link), E.CreateSuffixLink(q, clone), E.RemoveFocus(q), E.Focus(clone)]
  }

  /** The events of the clone branch from the clone's creation on. */
  function CloneTail(w: SuffixAutomaton, n: nat, c: char, p: nat, q: nat, rewired: seq<nat>): seq<E.Event> {
    var clone := n + 1;
    CloneHead(w, n, p, q) + RewireEvents(rewired, q, clone, c) + [E.CreateSuffixLink(n, clone), E.RemoveFocus(clone)]
  }

  /** The events after the first walk, given the store `w` as the walk left it. */
  function TailEvents(w: SuffixAutomaton, n: nat, c: char, branch: Branch): seq<E.Event> {
    match branch
    case Exhausted => [E.CreateSuffixLink(n, 0)]
    case Found(p, q) => [E.Focus(p), E.RemoveFocus(p), E.Focus(q), E.CreateSuffixLink(n, q), E.RemoveFocus(q)]
    case Cloned(p, q, rewired) => [E.Focus(p), E.RemoveFocus(p), E.Focus(q)] + CloneTail(w, n, c, p, q, rewired)
  }

  /** Everything one `Extend` step appends to the history. */
  function ExtendEvents(w: SuffixAutomaton, n: nat, len: nat, chain: seq<nat>, c: char, branch: Branch): seq<E.Event> {
    [E.CreateNewState(n, len), E.Focus(n)] + WalkEvents(chain, n, c) + TailEvents(w, n, c, branch)
  }

  /** A suffix-link walk that starts below `bound`, over states whose links
      stay below `bound`, never leaves the states below `bound`. */
  lemma {:induction false} ChainBelow(a: SuffixAutomaton, chain: seq<nat>, start: int, bound: nat)
    requires IsChain(a, chain, start) && start < bound
    requires forall i :: 0 <= i < bound && i < |a.states| ==> a.states[i].suffixLink < bound
    ensures ChainEnd(a, chain, start) < bound
    ensures forall k :: 0 <= k < |chain| ==> chain[k] < bound
  {
    if chain != [] {
      var prefix := chain[..|chain| - 1];
      ChainBelow(a, prefix, start, bound);
      assert forall k :: 0 <= k < |prefix| ==> chain[k] == prefix[k];
    }
  }

  /** What the first half of `Extend` leaves: the new state `n` (one longer
      than the old last state) and its focus, and the walk along the suffix
      chain from the old last state over states whose tables lacked `c`,
      stopped at `p` (or -1), each visited table now mapping `c` to `n`. */
  ghost predicate Started(b: SuffixAutomatonBuilder, c: char, b1: SuffixAutomatonBuilder, n: nat, p: int, chain: seq<nat>)
    requires Valid(b.automaton)
  {
    var a := b.automaton;
    var len := a.states[a.last].maxLength + 1;
    var a1 := WithNewState(a, len);
    && n == |a.states| && Valid(a1)
    && IsChain(a1, chain, a.last) && p == ChainEnd(a1, chain, a.last)
    && AllTables(a1, chain, Lacking(c)) && DistinctTables(a1, chain)
    && (forall k :: 0 <= k < |chain| ==> chain[k] < n) && -1 <= p < n
    && (p != -1 ==> Has(TableOf(a1, p), c) || TableId(a1, p) in ChainTables(a1, chain))
    && (p != -1 ==> Get(TableOf(b1.automaton, p), c) ==
                      if TableId(a1, p) in ChainTables(a1, chain) then Some(n) else Get(TableOf(a1, p), c))
    && b1.automaton == WithEdges(a1, chain, c, n)
    && b1.history == b.history + [E.CreateNewState(n, len), E.Focus(n)] + WalkEvents(chain, n, c)
    && Valid(b1.automaton)
  }

  /** The first half of `Extend`: the new state `n`, its focus, and the walk
      up the suffix chain from the old last state. */
  method StartExtend(b: SuffixAutomatonBuilder, c: char) returns (b': SuffixAutomatonBuilder, n: nat, p: int, ghost chain: seq<nat>)
    requires Valid(b.automaton)
    ensures Started(b, c, b', n, p, chain)
    ensures n == |b.automaton.states| && |b'.automaton.states| == n + 1 && -1 <= p < n
    ensures b'.automaton.states[n].maxLength == b.automaton.states[b.automaton.last].maxLength + 1
    ensures b'.automaton.states[n].suffixLink == -1 && b'.automaton.states[..n] == b.automaton.states
    ensures p != -1 ==> Has(TableOf(b'.automaton, p), c)
  {
    var a := b.automaton;
    var len := GetLastState(a).maxLength + 1;
    var created := CreateNewState(b, len);
    n := created.1;
    var a1 := created.0.automaton;
    assert b.history + [E.CreateNewState(n, len)] + [E.Focus(n)] == b.history + [E.CreateNewState(n, len), E.Focus(n)];
    b', p, chain := WalkChain(created.0.(history := created.0.history + [E.Focus(n)]), a.last, n, c);
    assert forall i :: 0 <= i < n ==> a1.states[i] == a.states[i] && StateOk(a.states, |a.tables|, i);
    ChainBelow(a1, chain, a.last, n);
  }

  /** The start of the clone branch of `Extend`: clone `q` with the length
      one more than `p`'s, and make the clone `q`'s suffix link. */
  method CloneState(b: SuffixAutomatonBuilder, n: nat, p: nat, q: nat) returns (b': SuffixAutomatonBuilder)
    requires Valid(b.automaton) && n + 1 == |b.automaton.states| && p < n && 1 <= q <= n
    ensures Valid(b'.automaton)
    ensures b'.automaton == CloneStage(b.automaton, p, q, n + 1)
    ensures b'.history == b.history + CloneHead(b.automaton, n, p, q)
  {
    var w := b.automaton;
    assert StateOk(w.states, |w.tables|, p) && StateOk(w.states, |w.tables|, q);
    var requiredLength := GetState(w, p).maxLength + 1;
    var cloned := CreateClonedState(b, q, requiredLength);
    var clone := cloned.1;
    b' := cloned.0;
    b' := b'.(history := b'.history + [E.RemoveSuffixLink(q, b'.automaton.states[q].suffixLink)]);
    b' := AddSuffixLink(b', q, clone);
    b' := b'.(history := b'.history + [E.RemoveFocus(q), E.Focus(clone)]);
  }

  /** What the clone branch does to the store `b` the first walk left: the
      clone of `q` is state `n + 1`, `q` and `n` link to it, and the walk from
      `p` redirected `rewired` from `q` to it. */
  ghost predicate CloneBranch(b: SuffixAutomatonBuilder, n: nat, p: nat, q: nat, c: char, b': SuffixAutomatonBuilder, rewired: seq<nat>)
    requires q < |b.automaton.states|
  {
    var w := b.automaton;
    var a2 := CloneStage(w, p, q, n + 1);
    && n < |a2.states|
    && b'.automaton == WithEdges(a2, rewired, c, n + 1).(states := a2.states[n := a2.states[n].(suffixLink := n + 1)])
    && IsChain(a2, rewired, p)
    && AllTables(a2, rewired, PointingTo(c, q)) && DistinctTables(a2, rewired)
    && RewireStopped(a2, rewired, p, c, q)
    && b'.history == b.history + CloneTail(w, n, c, p, q, rewired)
  }

  /** The clone branch of `Extend`, from the clone's creation on: clone `q`
      with the length one more than `p`'s, link `q` to the clone, redirect the
      chain from `p` from `q` to the clone, and link `n` to the clone. */
  method CloneAndRewire(b: SuffixAutomatonBuilder, n: nat, p: nat, q: nat, c: char)
    returns (b': SuffixAutomatonBuilder, ghost rewired: seq<nat>)
    requires Valid(b.automaton) && n + 1 == |b.automaton.states| && p < n && 1 <= q <= n
    ensures Valid(b'.automaton) && CloneBranch(b, n, p, q, c, b', rewired)
  {
    var b1 := CloneState(b, n, p, q);
    b', rewired := RewireAndLink(b1, n, p, q, c);
    CloneFinish(b, n, p, q, c, b1, rewired, b');
  }

  /** The clone branch after the clone exists: the rewiring walk from `p`,
      then `n` linked to the clone and the clone's focus removed. */
  method RewireAndLink(b1: SuffixAutomatonBuilder, n: nat, p: nat, q: nat, c: char)
    returns (b': SuffixAutomatonBuilder, ghost rewired: seq<nat>)
    requires Valid(b1.automaton) && n + 2 == |b1.automaton.states| && p < n && 1 <= q <= n
    ensures IsChain(b1.automaton, rewired, p)
    ensures AllTables(b1.automaton, rewired, PointingTo(c, q)) && DistinctTables(b1.automaton, rewired)
    ensures RewireStopped(b1.automaton, rewired, p, c, q)
    ensures b'.automaton.tables == SetEdges(b1.automaton.tables, ChainTables(b1.automaton, rewired), c, n + 1)
    ensures b'.automaton.states == b1.automaton.states[n := b1.automaton.states[n].(suffixLink := n + 1)]
    ensures b'.automaton.root == b1.automaton.root && b'.automaton.last == b1.automaton.last
    ensures b'.history == b1.history + RewireEvents(rewired, q, n + 1, c) + [E.CreateSuffixLink(n, n + 1), E.RemoveFocus(n + 1)]
    ensures Valid(b'.automaton)
  {
    var b2, end;
    b2, end, rewired := Rewire(b1, p, q, n + 1, c);
    var b3 := AddSuffixLink(b2, n, n + 1);
    b' := SuffixAutomatonBuilder(b3.automaton, b3.history + [E.RemoveFocus(n + 1)]);
    Relinked(b1, b2, n, q, c, rewired, b');
  }

  /** The link from `n` to the clone after the redirecting walk. */
  lemma Relinked(b1: SuffixAutomatonBuilder, b2: SuffixAutomatonBuilder, n: nat, q: nat, c: char, rewired: seq<nat>,
                 b': SuffixAutomatonBuilder)
    requires Valid(b2.automaton) && n + 2 == |b1.automaton.states| && 1 <= n
    requires b2.automaton == WithEdges(b1.automaton, rewired, c, n + 1)
    requires b2.history == b1.history + RewireEvents(rewired, q, n + 1, c)
    requires b' == SuffixAutomatonBuilder(AddSuffixLink(b2, n, n + 1).automaton, AddSuffixLink(b2, n, n + 1).history + [E.RemoveFocus(n + 1)])
    ensures b'.automaton.tables == SetEdges(b1.automaton.tables, ChainTables(b1.automaton, rewired), c, n + 1)
    ensures b'.automaton.states == b1.automaton.states[n := b1.automaton.states[n].(suffixLink := n + 1)]
    ensures b'.automaton.root == b1.automaton.root && b'.automaton.last == b1.automaton.last
    ensures b'.history == b1.history + RewireEvents(rewired, q, n + 1, c) + [E.CreateSuffixLink(n, n + 1), E.RemoveFocus(n + 1)]
    ensures Valid(b'.automaton)
  {
    assert b'.history == b2.history + [E.CreateSuffixLink(n, n + 1), E.RemoveFocus(n + 1)];
  }

  /** The clone stage followed by the rewiring and linking is the whole
      clone branch. */
  lemma CloneFinish(b: SuffixAutomatonBuilder, n: nat, p: nat, q: nat, c: char, b1: SuffixAutomatonBuilder,
                    rewired: seq<nat>, b': SuffixAutomatonBuilder)
    requires n + 1 == |b.automaton.states| && 1 <= q <= n
    requires b1.automaton == CloneStage(b.automaton, p, q, n + 1)
    requires b1.history == b.history + CloneHead(b.automaton, n, p, q)
    requires IsChain(b1.automaton, rewired, p)
    requires AllTables(b1.automaton, rewired, PointingTo(c, q)) && DistinctTables(b1.automaton, rewired)
    requires RewireStopped(b1.automaton, rewired, p, c, q)
    requires b'.automaton.tables == SetEdges(b1.automaton.tables, ChainTables(b1.automaton, rewired), c, n + 1)
    requires b'.automaton.states == b1.automaton.states[n := b1.automaton.states[n].(suffixLink := n + 1)]
    requires b'.automaton.root == b1.automaton.root && b'.automaton.last == b1.automaton.last
    requires b'.history == b1.history + RewireEvents(rewired, q, n + 1, c) + [E.CreateSuffixLink(n, n + 1), E.RemoveFocus(n + 1)]
    ensures CloneBranch(b, n, p, q, c, b', rewired)
  {
    AppendTwo(b.history, CloneHead(b.automaton, n, p, q), RewireEvents(rewired, q, n + 1, c),
              E.CreateSuffixLink(n, n + 1), E.RemoveFocus(n + 1));
  }

  /** The first walk of `Extend(c)` from `b` visited `chain`, the suffix
      chain from the old last state over old states whose tables lacked `c`,
      and the step ended as `branch` says. */
  ghost predicate ChainPart(b: SuffixAutomatonBuilder, c: char, chain: seq<nat>, branch: Branch)
    requires Valid(b.automaton)
  {
    var a := b.automaton;
    var n := |a.states|;
    var a1 := WithNewState(a, a.states[a.last].maxLength + 1);
    var w := WithEdges(a1, chain, c, n);
    && IsChain(a1, chain, a.last) && AllTables(a1, chain, Lacking(c)) && DistinctTables(a1, chain)
    && (forall k :: 0 <= k < |chain| ==> chain[k] < n)
    && (branch.Exhausted? <==> ChainEnd(a1, chain, a.last) == -1)
    && (!branch.Exhausted? ==>
          && branch.p == ChainEnd(a1, chain, a.last) && branch.p < n
          && (Has(TableOf(a1, branch.p), c) || TableId(a1, branch.p) in ChainTables(a1, chain))
          && Get(TableOf(w, branch.p), c) == Some(branch.q) && 1 <= branch.q <= n
          && (branch.Found? <==> LengthOf(a1, branch.q) == LengthOf(a1, branch.p) + 1))
  }

  /** The new state `n` of a step from `a` (one longer than the old last
      state, linked to `link`, with a table of its own) is the last state of
      `a'`, which holds `grown` states more than `a`; of the old states only
      `keep` (-1 for none) may differ. */
  ghost predicate NewStateStored(a: SuffixAutomaton, a': SuffixAutomaton, len: nat, link: nat, grown: nat, keep: int) {
    var n := |a.states|;
    && |a'.states| == n + grown && n < |a'.states|
    && a'.last == n
    && a'.states[n] == State(n, len, link, |a.tables|, false)
    && (forall i :: 0 <= i < n && i != keep ==> a'.states[i] == a.states[i])
  }

  /** The clone part of the store after the clone branch: given the store
      `w` the first walk left, state `n + 1` is the clone of `q` (one longer
      than `p`, with `q`'s old link and `q`'s table), `q` links to it, and
      the walk from `p` over the tables that mapped `c` to `q` now maps `c`
      to the clone. */
  ghost predicate CloneStored(w: SuffixAutomaton, a': SuffixAutomaton, n: nat, c: char, p: nat, q: nat, rewired: seq<nat>) {
    && q < |w.states| && n + 1 < |a'.states| && q < |a'.states|
    && var a2 := CloneStage(w, p, q, n + 1);
    && a'.states[n + 1] == State(n + 1, LengthOf(w, p) + 1, LinkOf(w, q), TableId(w, q), false)
    && a'.states[q] == w.states[q].(suffixLink := n + 1)
    && IsChain(a2, rewired, p)
    && AllTables(a2, rewired, PointingTo(c, q)) && DistinctTables(a2, rewired)
    && RewireStopped(a2, rewired, p, c, q)
    && a'.tables == WithEdges(a2, rewired, c, n + 1).tables
  }

  /** The store after `Extend(c)`: one state more, or two with a clone; the
      new state `n` is the last state and is linked as the branch says; only
      `q` (linked to the clone) of the old states changes; the tables are as
      the walks left them. */
  ghost predicate StorePart(b: SuffixAutomatonBuilder, c: char, b': SuffixAutomatonBuilder, chain: seq<nat>, branch: Branch)
    requires Valid(b.automaton)
  {
    var a := b.automaton;
    var n := |a.states|;
    var len := a.states[a.last].maxLength + 1;
    var w := WithEdges(WithNewState(a, len), chain, c, n);
    match branch
    case Exhausted => NewStateStored(a, b'.automaton, len, 0, 1, -1) && b'.automaton.tables == w.tables
    case Found(_, q) => NewStateStored(a, b'.automaton, len, q, 1, -1) && b'.automaton.tables == w.tables
    case Cloned(p, q, rewired) =>
      NewStateStored(a, b'.automaton, len, n + 1, 2, q) && CloneStored(w, b'.automaton, n, c, p, q, rewired)
  }

  /** The events `Extend(c)` appends to the history. */
  ghost predicate TracePart(b: SuffixAutomatonBuilder, c: char, b': SuffixAutomatonBuilder, chain: seq<nat>, branch: Branch)
    requires Valid(b.automaton)
  {
    var a := b.automaton;
    var n := |a.states|;
    var len := a.states[a.last].maxLength + 1;
    var a1 := WithNewState(a, len);
    b'.history == b.history + ExtendEvents(WithEdges(a1, chain, c, n), n, len, chain, c, branch)
  }

  ghost predicate ExtendSpec(b: SuffixAutomatonBuilder, c: char, b': SuffixAutomatonBuilder, chain: seq<nat>, branch: Branch)
    requires Valid(b.automaton)
  {
    ChainPart(b, c, chain, branch) && StorePart(b, c, b', chain, branch) && TracePart(b, c, b', chain, branch)
  }

  lemma ChainPartHolds(b: SuffixAutomatonBuilder, c: char, b1: SuffixAutomatonBuilder, n: nat, p: int, chain: seq<nat>, branch: Branch)
    requires Valid(b.automaton) && Started(b, c, b1, n, p, chain)
    requires branch.Exhausted? <==> p == -1
    requires !branch.Exhausted? ==>
               && branch.p == p && Get(TableOf(b1.automaton, p), c) == Some(branch.q)
               && (branch.Found? <==> LengthOf(b1.automaton, branch.q) == LengthOf(b1.automaton, p) + 1)
    ensures ChainPart(b, c, chain, branch)
  {
    if !branch.Exhausted? {
      var w := b1.automaton;
      assert StateOk(w.states, |w.tables|, p);
      assert TableOkAt(w.tables, |w.states|, w.states[p].table);
    }
  }

  lemma ExhaustedStore(b: SuffixAutomatonBuilder, c: char, b1: SuffixAutomatonBuilder, n: nat, chain: seq<nat>,
                       b': SuffixAutomatonBuilder)
    requires Valid(b.automaton) && Started(b, c, b1, n, -1, chain)
    requires b'.automaton == AddSuffixLink(b1, n, 0).automaton.(last := n)
    ensures Valid(b'.automaton) && StorePart(b, c, b', chain, Exhausted)
  {
  }

  lemma FoundStore(b: SuffixAutomatonBuilder, c: char, b1: SuffixAutomatonBuilder, n: nat, p: nat, q: nat, chain: seq<nat>,
                   b': SuffixAutomatonBuilder)
    requires Valid(b.automaton) && Started(b, c, b1, n, p, chain)
    requires 1 <= q <= n
    requires b'.automaton == AddSuffixLink(b1, n, q).automaton.(last := n)
    ensures Valid(b'.automaton) && StorePart(b, c, b', chain, Found(p, q))
  {
  }

  lemma ClonedNewState(b: SuffixAutomatonBuilder, c: char, b1: SuffixAutomatonBuilder, n: nat, p: nat, q: nat, chain: seq<nat>,
                       rewired: seq<nat>, b2: SuffixAutomatonBuilder, pre: SuffixAutomatonBuilder, b': SuffixAutomatonBuilder)
    requires Valid(b.automaton) && Started(b, c, b1, n, p, chain)
    requires 1 <= q <= n && b2.automaton == b1.automaton
    requires CloneBranch(b2, n, p, q, c, pre, rewired)
    requires b'.automaton == pre.automaton.(last := n)
    ensures NewStateStored(b.automaton, b'.automaton, b.automaton.states[b.automaton.last].maxLength + 1, n + 1, 2, q)
  {
    var a := b.automaton;
    var w := b1.automaton;
    var a2 := CloneStage(w, p, q, n + 1);
    var s' := a2.states[n := a2.states[n].(suffixLink := n + 1)];
    assert b'.automaton.states == s';
    assert forall i :: 0 <= i < n ==> w.states[i] == a.states[i];
    assert forall i :: 0 <= i <= n && i != q ==> a2.states[i] == w.states[i];
  }

  lemma ClonedClone(b1: SuffixAutomatonBuilder, n: nat, p: nat, q: nat, c: char, rewired: seq<nat>,
                    pre: SuffixAutomatonBuilder, b': SuffixAutomatonBuilder)
    requires q <= n && n + 1 == |b1.automaton.states|
    requires CloneBranch(b1, n, p, q, c, pre, rewired)
    requires b'.automaton == pre.automaton.(last := n)
    ensures CloneStored(b1.automaton, b'.automaton, n, c, p, q, rewired)
  {
    var a2 := CloneStage(b1.automaton, p, q, n + 1);
    var s' := a2.states[n := a2.states[n].(suffixLink := n + 1)];
    assert b'.automaton.states == s';
    assert s'[n + 1] == a2.states[n + 1];
  }

  lemma ClonedStore(b: SuffixAutomatonBuilder, c: char, b1: SuffixAutomatonBuilder, n: nat, p: nat, q: nat, chain: seq<nat>,
                    rewired: seq<nat>, b2: SuffixAutomatonBuilder, pre: SuffixAutomatonBuilder, b': SuffixAutomatonBuilder)
    requires Valid(b.automaton) && Started(b, c, b1, n, p, chain)
    requires 1 <= q <= n && b2.automaton == b1.automaton
    requires Valid(pre.automaton) && CloneBranch(b2, n, p, q, c, pre, rewired)
    requires b'.automaton == pre.automaton.(last := n)
    ensures Valid(b'.automaton) && StorePart(b, c, b', chain, Cloned(p, q, rewired))
  {
    ClonedNewState(b, c, b1, n, p, q, chain, rewired, b2, pre, b');
    ClonedClone(b2, n, p, q, c, rewired, pre, b');
  }

  /** The trace of a step that ends in one of the three branches: the new
      state and its focus, the first walk, and the branch's tail. */
  lemma ExhaustedTrace(h: seq<E.Event>, h1: seq<E.Event>, h': seq<E.Event>, w: SuffixAutomaton, n: nat, len: nat,
                       chain: seq<nat>, c: char)
    requires h1 == h + [E.CreateNewState(n, len), E.Focus(n)] + WalkEvents(chain, n, c)
    requires h' == h1 + [E.CreateSuffixLink(n, 0)]
    ensures h' == h + ExtendEvents(w, n, len, chain, c, Exhausted)
  {
    AppendAssoc(h, [E.CreateNewState(n, len), E.Focus(n)] + WalkEvents(chain, n, c), TailEvents(w, n, c, Exhausted));
  }

  lemma FoundTrace(h: seq<E.Event>, h1: seq<E.Event>, h': seq<E.Event>, w: SuffixAutomaton, n: nat, len: nat,
                   chain: seq<nat>, c: char, p: nat, q: nat)
    requires h1 == h + [E.CreateNewState(n, len), E.Focus(n)] + WalkEvents(chain, n, c)
    requires h' == h1 + [E.Focus(p), E.RemoveFocus(p), E.Focus(q)] + [E.CreateSuffixLink(n, q)] + [E.RemoveFocus(q)]
    ensures h' == h + ExtendEvents(w, n, len, chain, c, Found(p, q))
  {
    var tail := TailEvents(w, n, c, Found(p, q));
    assert h' == h1 + tail;
    AppendAssoc(h, [E.CreateNewState(n, len), E.Focus(n)] + WalkEvents(chain, n, c), tail);
  }

  lemma ClonedTrace(h: seq<E.Event>, h1: seq<E.Event>, h': seq<E.Event>, w: SuffixAutomaton, n: nat, len: nat,
                    chain: seq<nat>, c: char, p: nat, q: nat, rewired: seq<nat>)
    requires h1 == h + [E.CreateNewState(n, len), E.Focus(n)] + WalkEvents(chain, n, c)
    requires h' == h1 + [E.Focus(p), E.RemoveFocus(p), E.Focus(q)] + CloneTail(w, n, c, p, q, rewired)
    ensures h' == h + ExtendEvents(w, n, len, chain, c, Cloned(p, q, rewired))
  {
    AppendAssoc(h1, [E.Focus(p), E.RemoveFocus(p), E.Focus(q)], CloneTail(w, n, c, p, q, rewired));
    AppendAssoc(h, [E.CreateNewState(n, len), E.Focus(n)] + WalkEvents(chain, n, c), TailEvents(w, n, c, Cloned(p, q, rewired)));
  }

  /** The exhausted branch: the walk fell off the root, so `n` links to the root. */
  method FinishExhausted(b: SuffixAutomatonBuilder, c: char, b1: SuffixAutomatonBuilder, n: nat, ghost chain: seq<nat>)
    returns (b': SuffixAutomatonBuilder)
    requires Valid(b.automaton) && Started(b, c, b1, n, -1, chain)
    ensures Valid(b'.automaton) && ExtendSpec(b, c, b', chain, Exhausted)
  {
    b' := AddSuffixLink(b1, n, b1.automaton.root);
    b' := b'.(automaton := b'.automaton.(last := n));
    ExhaustedStore(b, c, b1, n, chain, b');
    ChainPartHolds(b, c, b1, n, -1, chain, Exhausted);
    ExhaustedTrace(b.history, b1.history, b'.history, b1.automaton, n, b.automaton.states[b.automaton.last].maxLength + 1, chain, c);
  }

  /** The found branch: `q` is exactly one longer than `p`, so `n` links to `q`. */
  method FinishFound(b: SuffixAutomatonBuilder, c: char, b1: SuffixAutomatonBuilder, n: nat, p: nat, q: nat, ghost chain: seq<nat>)
    returns (b': SuffixAutomatonBuilder)
    requires Valid(b.automaton) && Started(b, c, b1, n, p, chain)
    requires Get(TableOf(b1.automaton, p), c) == Some(q) && 1 <= q <= n
    requires LengthOf(b1.automaton, q) == LengthOf(b1.automaton, p) + 1
    ensures Valid(b'.automaton) && ExtendSpec(b, c, b', chain, Found(p, q))
  {
    b' := b1.(history := b1.history + [E.Focus(p), E.RemoveFocus(p), E.Focus(q)]);
    b' := AddSuffixLink(b', n, q);
    b' := b'.(history := b'.history + [E.RemoveFocus(q)]);
    b' := b'.(automaton := b'.automaton.(last := n));
    FoundStore(b, c, b1, n, p, q, chain, b');
    ChainPartHolds(b, c, b1, n, p, chain, Found(p, q));
    FoundTrace(b.history, b1.history, b'.history, b1.automaton, n, b.automaton.states[b.automaton.last].maxLength + 1, chain, c, p, q);
  }

  /** The clone branch: `q` is longer than `p` plus one, so `q` is cloned. */
  method FinishCloned(b: SuffixAutomatonBuilder, c: char, b1: SuffixAutomatonBuilder, n: nat, p: nat, q: nat, ghost chain: seq<nat>)
    returns (b': SuffixAutomatonBuilder, ghost rewired: seq<nat>)
    requires Valid(b.automaton) && Started(b, c, b1, n, p, chain)
    requires Get(TableOf(b1.automaton, p), c) == Some(q) && 1 <= q <= n
    requires LengthOf(b1.automaton, q) != LengthOf(b1.automaton, p) + 1
    ensures Valid(b'.automaton) && ExtendSpec(b, c, b', chain, Cloned(p, q, rewired))
  {
    b' := b1.(history := b1.history + [E.Focus(p), E.RemoveFocus(p), E.Focus(q)]);
    ghost var b2 := b';
    b', rewired := CloneAndRewire(b', n, p, q, c);
    ghost var pre := b';
    b' := b'.(automaton := b'.automaton.(last := n));
    ClonedStore(b, c, b1, n, p, q, chain, rewired, b2, pre, b');
    ChainPartHolds(b, c, b1, n, p, chain, Cloned(p, q, rewired));
    ClonedTrace(b.history, b1.history, b'.history, b1.automaton, n, b.automaton.states[b.automaton.last].maxLength + 1, chain, c, p, q, rewired);
  }

  /** Appends `Extend(c)`: a new state one longer than the last; the walk up
      the suffix chain from the old last state giving each state without a
      `c` edge an edge to the new state; then, where the walk stopped at `p`
      with `p --c--> q`, a suffix link to the root (no such `p`), to `q`
      (`q` exactly one longer than `p`), or to a clone of `q` to which `q`
      and the states on the chain from `p` that led to `q` are redirected. */
  method Extend(b: SuffixAutomatonBuilder, c: char) returns (b': SuffixAutomatonBuilder, ghost chain: seq<nat>, ghost branch: Branch)
    requires Valid(b.automaton)
    ensures Valid(b'.automaton) && ExtendSpec(b, c, b', chain, branch)
  {
    var b1, n, p;
    b1, n, p, chain := StartExtend(b, c);
    if p == -1 {
      b' := FinishExhausted(b, c, b1, n, chain);
      branch := Exhausted;
    } else {
      assert StateOk(b1.automaton.states, |b1.automaton.tables|, p);
      var q := GetNextState(b1.automaton, p, c);
      var requiredLength := GetState(b1.automaton, p).maxLength + 1;
      if GetState(b1.automaton, q).maxLength == requiredLength {
        b' := FinishFound(b, c, b1, n, p, q, chain);
        branch := Found(p, q);
      } else {
        ghost var rewired;
        b', rewired := FinishCloned(b, c, b1, n, p, q, chain);
        branch := Cloned(p, q, rewired);
      }
    }
  }
}
