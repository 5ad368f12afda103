/** The replayer fed with the TypeScript builder's history. The replayer
    finds a state's node by its position in the node list, not by its id;
    this is safe because the builder creates states in index order and
    names only states it has already created. The one exception is a
    suffix link to -1, which a clone copies from a source that has none;
    the replay fails exactly when the history draws such a link. */
module Playback {
  import opened Wrappers
  import opened OrderedMap
  import opened Automaton
  import opened Decimal
  import E = Events
  import B = Builder
  import H = History
  import opened Simulation

  /** Every event of `d` names only states below `m`, a link target
      possibly being -1. */
  predicate Bounded(d: seq<E.Event>, m: nat) {
    forall j :: 0 <= j < |d| ==> EndsWithin(d[j], m, -1)
  }

  /** States below `m` exist however many nodes the part before created. */
  lemma {:induction false} BoundedNamesWithin(d: seq<E.Event>, m: nat)
    requires Bounded(d, m)
    ensures NamesWithin(d, m, -1)
  {
    if d != [] {
      var d0 := d[..|d| - 1];
      assert Bounded(d0, m) by {
        forall j | 0 <= j < |d0| ensures EndsWithin(d0[j], m, -1) {
          assert d0[j] == d[j];
        }
      }
      BoundedNamesWithin(d0, m);
      assert EndsWithin(d[|d| - 1], m, -1);
    }
  }

  lemma BoundedAppend(a: seq<E.Event>, b: seq<E.Event>, m: nat)
    requires Bounded(a, m) && Bounded(b, m)
    ensures Bounded(a + b, m)
  {
    forall j | 0 <= j < |a + b|
      ensures EndsWithin((a + b)[j], m, -1)
    {
      if j >= |a| {
        assert (a + b)[j] == b[j - |a|];
      }
    }
  }

  /** The first walk names only the states it walks and the new state. */
  lemma {:induction false} WalkBounded(chain: seq<nat>, n: nat, c: char, m: nat)
    requires forall k :: 0 <= k < |chain| ==> chain[k] < m
    requires n < m
    ensures Bounded(B.WalkEvents(chain, n, c), m)
  {
    if chain != [] {
      var p := chain[|chain| - 1];
      WalkBounded(chain[..|chain| - 1], n, c, m);
      BoundedAppend(B.WalkEvents(chain[..|chain| - 1], n, c), [E.Focus(p), E.CreateLink(p, n, c), E.RemoveFocus(p)], m);
    }
  }

  /** Copying a table's entries names the clone and the entries' targets. */
  lemma EntriesBounded(source: nat, t: Table, m: nat)
    requires source < m && forall i :: 0 <= i < |t| ==> t[i].value < m
    ensures Bounded(B.EntryEvents(source, t), m)
  {
    B.EntryEventsFollowTable(source, t);
  }

  /** The redirecting walk names the states it walks and the clone. */
  lemma {:induction false} RewireBounded(rewired: seq<nat>, q: nat, clone: nat, c: char, m: nat)
    requires forall k :: 0 <= k < |rewired| ==> rewired[k] < m
    requires clone < m
    ensures Bounded(B.RewireEvents(rewired, q, clone, c), m)
  {
    if rewired != [] {
      var p := rewired[|rewired| - 1];
      RewireBounded(rewired[..|rewired| - 1], q, clone, c, m);
      BoundedAppend(B.RewireEvents(rewired[..|rewired| - 1], q, clone, c), [E.RemoveLink(p, q), E.CreateLink(p, clone, c)], m);
    }
  }

  /** The states a suffix-link walk visits exist. */
  lemma {:induction false} ChainInStore(a: SuffixAutomaton, chain: seq<nat>, start: int)
    requires B.IsChain(a, chain, start)
    ensures forall k :: 0 <= k < |chain| ==> chain[k] < |a.states|
  {
    if chain != [] {
      ChainInStore(a, chain[..|chain| - 1], start);
      assert forall k :: 0 <= k < |chain| - 1 ==> chain[k] == chain[..|chain| - 1][k];
    }
  }

  /** After the first walk of a step from a valid store, a table holds only
      targets up to the new state `n`, and a suffix link is -1 or a state
      below `n`. */
  /** The clone branch after its creation event names states up to the
      clone. */
  lemma CloneRestBounded(w: SuffixAutomaton, n: nat, c: char, p: nat, q: nat, rewired: seq<nat>)
    requires q <= n && -1 <= B.LinkOf(w, q) <= n
    requires forall i :: 0 <= i < |TableOf(w, q)| ==> TableOf(w, q)[i].value <= n
    requires forall k :: 0 <= k < |rewired| ==> rewired[k] < n + 2
    ensures var clone := n + 1;
            var link := B.LinkOf(w, q);
            Bounded(B.EntryEvents(clone, TableOf(w, q))
                      + [E.CreateSuffixLink(clone, link), E.RemoveSuffixLink(q, link), E.CreateSuffixLink(q, clone), E.RemoveFocus(q), E.Focus(clone)]
                      + B.RewireEvents(rewired, q, clone, c) + [E.CreateSuffixLink(n, clone), E.RemoveFocus(clone)], n + 2)
  {
    var clone := n + 1;
    var link := B.LinkOf(w, q);
    var entries := B.EntryEvents(clone, TableOf(w, q));
    var x := [E.CreateSuffixLink(clone, link), E.RemoveSuffixLink(q, link), E.CreateSuffixLink(q, clone), E.RemoveFocus(q), E.Focus(clone)];
    EntriesBounded(clone, TableOf(w, q), n + 2);
    RewireBounded(rewired, q, clone, c, n + 2);
    BoundedAppend(entries, x, n + 2);
    BoundedAppend(entries + x, B.RewireEvents(rewired, q, clone, c), n + 2);
    BoundedAppend(entries + x + B.RewireEvents(rewired, q, clone, c), [E.CreateSuffixLink(n, clone), E.RemoveFocus(clone)], n + 2);
  }

  /** A creation followed by a part that names the created state. */
  lemma CreationFirst(e: E.Event, rest: seq<E.Event>, m: nat)
    requires Creates(e) && NamesWithin(rest, m + 1, -1)
    ensures NamesWithin([e] + rest, m, -1)
  {
    H.Single(e);
    assert [e][..|[e]| - 1] == [] && [e][|[e]| - 1] == e;
    assert EndsWithin(e, m, -1);
    assert NamesWithin([e], m, -1);
    NamesWithinAppend([e], rest, m, -1);
  }

  /** The clone branch from the clone's creation on, replayed after the
      `n + 1` nodes of the states up to the new one. */
  lemma CloneTailBelow(w: SuffixAutomaton, n: nat, c: char, p: nat, q: nat, rewired: seq<nat>)
    requires q <= n && -1 <= B.LinkOf(w, q) <= n
    requires forall i :: 0 <= i < |TableOf(w, q)| ==> TableOf(w, q)[i].value <= n
    requires forall k :: 0 <= k < |rewired| ==> rewired[k] < n + 2
    ensures NamesWithin(B.CloneTail(w, n, c, p, q, rewired), n + 1, -1)
  {
    var clone := n + 1;
    var link := B.LinkOf(w, q);
    var rest := B.EntryEvents(clone, TableOf(w, q))
                + [E.CreateSuffixLink(clone, link), E.RemoveSuffixLink(q, link), E.CreateSuffixLink(q, clone), E.RemoveFocus(q), E.Focus(clone)]
                + B.RewireEvents(rewired, q, clone, c) + [E.CreateSuffixLink(n, clone), E.RemoveFocus(clone)];
    var e := E.CreateClonedState(clone, q, B.LengthOf(w, p) + 1);
    assert B.CloneTail(w, n, c, p, q, rewired) == [e] + rest;
    CloneRestBounded(w, n, c, p, q, rewired);
    BoundedNamesWithin(rest, n + 2);
    CreationFirst(e, rest, n + 1);
  }

  /** More nodes before a part keep its names existing. */
  lemma {:induction false} NamesWithinMore(h: seq<E.Event>, m: nat, k: nat)
    requires NamesWithin(h, m, -1)
    ensures NamesWithin(h, m + k, -1)
  {
    if h != [] {
      NamesWithinMore(h[..|h| - 1], m, k);
    }
  }

  /** A part whose names lie below `m` can follow any part that does: the
      parts before it only add nodes. */
  lemma NamesWithinThen(a: seq<E.Event>, b: seq<E.Event>, m: nat)
    requires NamesWithin(a, m, -1) && NamesWithin(b, m, -1)
    ensures NamesWithin(a + b, m, -1)
  {
    NamesWithinMore(b, m, |E.CreatedIds(a)|);
    NamesWithinAppend(a, b, m, -1);
  }

  /** The clone branch after the first walk. */
  lemma ClonedTailBelow(w: SuffixAutomaton, n: nat, c: char, p: nat, q: nat, rewired: seq<nat>)
    requires p < n && q <= n && -1 <= B.LinkOf(w, q) <= n
    requires forall i :: 0 <= i < |TableOf(w, q)| ==> TableOf(w, q)[i].value <= n
    requires forall k :: 0 <= k < |rewired| ==> rewired[k] < n + 2
    ensures NamesWithin(B.TailEvents(w, n, c, B.Cloned(p, q, rewired)), n + 1, -1)
  {
    var head := [E.Focus(p), E.RemoveFocus(p), E.Focus(q)];
    BoundedNamesWithin(head, n + 1);
    CloneTailBelow(w, n, c, p, q, rewired);
    NamesWithinThen(head, B.CloneTail(w, n, c, p, q, rewired), n + 1);
  }

  /** What the events after the first walk need of the walked store `w`:
      the found state exists, and for a clone its table and link name states
      up to the new one and the redirected states exist. */
  predicate TailFits(w: SuffixAutomaton, n: nat, branch: B.Branch) {
    && (!branch.Exhausted? ==> branch.p < n && branch.q <= n)
    && (branch.Cloned? ==>
          && -1 <= B.LinkOf(w, branch.q) <= n
          && (forall i :: 0 <= i < |TableOf(w, branch.q)| ==> TableOf(w, branch.q)[i].value <= n)
          && (forall k :: 0 <= k < |branch.rewired| ==> branch.rewired[k] < n + 2))
  }

  /** The events after the first walk name only states that exist. */
  lemma TailBelow(w: SuffixAutomaton, n: nat, c: char, branch: B.Branch)
    requires TailFits(w, n, branch)
    ensures NamesWithin(B.TailEvents(w, n, c, branch), n + 1, -1)
  {
    if branch.Cloned? {
      ClonedTailBelow(w, n, c, branch.p, branch.q, branch.rewired);
    } else {
      BoundedNamesWithin(B.TailEvents(w, n, c, branch), n + 1);
    }
  }

  /** The focus on the new state, the first walk and the rest of the step. */
  lemma WalkTailBelow(w: SuffixAutomaton, n: nat, chain: seq<nat>, c: char, branch: B.Branch)
    requires forall k :: 0 <= k < |chain| ==> chain[k] < n
    requires TailFits(w, n, branch)
    ensures NamesWithin([E.Focus(n)] + B.WalkEvents(chain, n, c) + B.TailEvents(w, n, c, branch), n + 1, -1)
  {
    var walk := [E.Focus(n)] + B.WalkEvents(chain, n, c);
    WalkBounded(chain, n, c, n + 1);
    BoundedAppend([E.Focus(n)], B.WalkEvents(chain, n, c), n + 1);
    BoundedNamesWithin(walk, n + 1);
    TailBelow(w, n, c, branch);
    NamesWithinThen(walk, B.TailEvents(w, n, c, branch), n + 1);
  }

  /** Everything one step appends, replayed after the nodes of the states
      it found, names only states that exist. */
  lemma ExtendBelow(w: SuffixAutomaton, n: nat, len: nat, chain: seq<nat>, c: char, branch: B.Branch)
    requires forall k :: 0 <= k < |chain| ==> chain[k] < n
    requires TailFits(w, n, branch)
    ensures NamesWithin(B.ExtendEvents(w, n, len, chain, c, branch), n, -1)
  {
    WalkTailBelow(w, n, chain, c, branch);
    CreationFirst(E.CreateNewState(n, len), [E.Focus(n)] + B.WalkEvents(chain, n, c) + B.TailEvents(w, n, c, branch), n);
    Regroup(E.CreateNewState(n, len), E.Focus(n), B.WalkEvents(chain, n, c), B.TailEvents(w, n, c, branch));
  }

  /** The first event of a step, split off from the rest. */
  lemma Regroup(e: E.Event, f: E.Event, x: seq<E.Event>, y: seq<E.Event>)
    ensures [e, f] + x + y == [e] + ([f] + x + y)
  {
    assert [e, f] == [e] + [f];
  }

  /** The length of the state a step from `b` adds. */
  function NewLength(b: B.SuffixAutomatonBuilder): nat
    requires Valid(b.automaton)
  {
    b.automaton.states[b.automaton.last].maxLength + 1
  }

  /** The store a step from `b` leaves after its first walk over `chain`. */
  ghost function Walked(b: B.SuffixAutomatonBuilder, c: char, chain: seq<nat>): SuffixAutomaton
    requires Valid(b.automaton)
  {
    B.WithEdges(B.WithNewState(b.automaton, NewLength(b)), chain, c, |b.automaton.states|)
  }

  /** After the first walk of a step from a valid store, a table holds only
      targets up to the new state `n`, and a suffix link is -1 or a state
      below `n`. */
  lemma WalkedStore(b: B.SuffixAutomatonBuilder, c: char, chain: seq<nat>, q: nat)
    requires Valid(b.automaton) && q <= |b.automaton.states|
    ensures var w := Walked(b, c, chain);
            && (forall i :: 0 <= i < |TableOf(w, q)| ==> TableOf(w, q)[i].value <= |b.automaton.states|)
            && -1 <= B.LinkOf(w, q) < |b.automaton.states|
  {
    var a := b.automaton;
    var n := |a.states|;
    var a1 := B.WithNewState(a, NewLength(b));
    var w := B.WithEdges(a1, chain, c, n);
    var tid := a1.states[q].table;
    var t: Table := [];
    if q < n {
      assert a1.states[q] == a.states[q];
      assert StateOk(a.states, |a.tables|, q);
      assert TableOkAt(a.tables, n, tid);
      t := a.tables[tid];
    }
    assert a1.tables[tid] == t;
    assert TableOk(t, n + 1);
    SetKeepsTableOk(t, c, n, n + 1);
    var touched := B.ChainTables(a1, chain);
    assert w.tables[tid] == if tid in touched then Set<char, nat>(t, c, n) else t;
    assert TableOf(w, q) == w.tables[tid];
  }

  /** The facts of a real step, stated over `Walked`: the first walk visits
      old states only, the state it stopped at and that state's successor
      exist, the clone part is as `CloneStored` says, and the history grows
      by the step's events. */
  lemma StepParts(b: B.SuffixAutomatonBuilder, c: char, b': B.SuffixAutomatonBuilder, chain: seq<nat>, branch: B.Branch)
    requires Valid(b.automaton) && B.ExtendSpec(b, c, b', chain, branch)
    ensures forall k :: 0 <= k < |chain| ==> chain[k] < |b.automaton.states|
    ensures !branch.Exhausted? ==> branch.p < |b.automaton.states| && 1 <= branch.q <= |b.automaton.states|
    ensures branch.Cloned? ==>
              B.CloneStored(Walked(b, c, chain), b'.automaton, |b.automaton.states|, c, branch.p, branch.q, branch.rewired)
    ensures b'.history == b.history + B.ExtendEvents(Walked(b, c, chain), |b.automaton.states|, NewLength(b), chain, c, branch)
  {
    ChainFacts(b, c, chain, branch);
    StoreFacts(b, c, b', chain, branch);
    TraceFacts(b, c, b', chain, branch);
  }

  /** The first walk's facts, over `Walked`. */
  lemma ChainFacts(b: B.SuffixAutomatonBuilder, c: char, chain: seq<nat>, branch: B.Branch)
    requires Valid(b.automaton) && B.ChainPart(b, c, chain, branch)
    ensures forall k :: 0 <= k < |chain| ==> chain[k] < |b.automaton.states|
    ensures !branch.Exhausted? ==> branch.p < |b.automaton.states| && 1 <= branch.q <= |b.automaton.states|
  {
  }

  /** The clone part's facts, over `Walked`. */
  lemma StoreFacts(b: B.SuffixAutomatonBuilder, c: char, b': B.SuffixAutomatonBuilder, chain: seq<nat>, branch: B.Branch)
    requires Valid(b.automaton) && B.StorePart(b, c, b', chain, branch)
    ensures branch.Cloned? ==>
              B.CloneStored(Walked(b, c, chain), b'.automaton, |b.automaton.states|, c, branch.p, branch.q, branch.rewired)
  {
  }

  /** The history's growth, over `Walked`. */
  lemma TraceFacts(b: B.SuffixAutomatonBuilder, c: char, b': B.SuffixAutomatonBuilder, chain: seq<nat>, branch: B.Branch)
    requires Valid(b.automaton) && B.TracePart(b, c, b', chain, branch)
    ensures b'.history == b.history + B.ExtendEvents(Walked(b, c, chain), |b.automaton.states|, NewLength(b), chain, c, branch)
  {
  }

  /** The states the redirecting walk passed exist once the clone does. */
  lemma RewiredExist(w: SuffixAutomaton, a': SuffixAutomaton, n: nat, c: char, p: nat, q: nat, rewired: seq<nat>)
    requires |w.states| == n + 1 && B.CloneStored(w, a', n, c, p, q, rewired)
    ensures forall k :: 0 <= k < |rewired| ==> rewired[k] < n + 2
  {
    ChainInStore(B.CloneStage(w, p, q, n + 1), rewired, p);
  }

  /** The walked store of a real step fits what its tail events need. */
  lemma StepFits(b: B.SuffixAutomatonBuilder, c: char, b': B.SuffixAutomatonBuilder, chain: seq<nat>, branch: B.Branch)
    requires Valid(b.automaton)
    requires !branch.Exhausted? ==> branch.p < |b.automaton.states| && 1 <= branch.q <= |b.automaton.states|
    requires branch.Cloned? ==>
               B.CloneStored(Walked(b, c, chain), b'.automaton, |b.automaton.states|, c, branch.p, branch.q, branch.rewired)
    ensures TailFits(Walked(b, c, chain), |b.automaton.states|, branch)
  {
    if branch.Cloned? {
      RewiredExist(Walked(b, c, chain), b'.automaton, |b.automaton.states|, c, branch.p, branch.q, branch.rewired);
      WalkedStore(b, c, chain, branch.q);
    }
  }

  /** One `Extend` step keeps the history replayable up to suffix links to
      -1: it appends a part that names only states already created. */
  lemma StepBelow(b: B.SuffixAutomatonBuilder, c: char, b': B.SuffixAutomatonBuilder, chain: seq<nat>, branch: B.Branch)
    requires Valid(b.automaton) && B.ExtendSpec(b, c, b', chain, branch)
    requires |E.CreatedIds(b.history)| == |b.automaton.states| && NamesWithin(b.history, 0, -1)
    ensures NamesWithin(b'.history, 0, -1)
  {
    StepParts(b, c, b', chain, branch);
    StepFits(b, c, b', chain, branch);
    ExtendBelow(Walked(b, c, chain), |b.automaton.states|, NewLength(b), chain, c, branch);
    AppendWithin(b.history, B.ExtendEvents(Walked(b, c, chain), |b.automaton.states|, NewLength(b), chain, c, branch), b'.history);
  }

  /** A history grown by a part that names only nodes there after the
      history's own still names only nodes that are there. */
  lemma AppendWithin(h: seq<E.Event>, d: seq<E.Event>, h': seq<E.Event>)
    requires h' == h + d && NamesWithin(h, 0, -1) && NamesWithin(d, |E.CreatedIds(h)|, -1)
    ensures NamesWithin(h', 0, -1)
  {
    NamesWithinAppend(h, d, 0, -1);
  }

  /** The ids a step creates continue the ids in order. */
  lemma CreatedStep(h: seq<E.Event>, h': seq<E.Event>, n: nat, size': nat, branch: B.Branch)
    requires E.CreatedIds(h) == H.Upto(n) && E.CreatedIds(h') == E.CreatedIds(h) + H.StepIds(n, branch)
    requires size' == n + |H.StepIds(n, branch)|
    ensures E.CreatedIds(h') == H.Upto(size')
  {
    H.UptoGrows(n, H.StepIds(n, branch));
  }

  /** One `Extend` step with what `Play` keeps of it: the new last state
      is one longer, states are still created in index order, and the
      history names only states already created. */
  method ExtendReplayable(b: B.SuffixAutomatonBuilder, c: char) returns (b': B.SuffixAutomatonBuilder)
    requires Valid(b.automaton)
    requires E.CreatedIds(b.history) == H.Upto(|b.automaton.states|) && NamesWithin(b.history, 0, -1)
    ensures Valid(b'.automaton)
    ensures b'.automaton.states[b'.automaton.last].maxLength == b.automaton.states[b.automaton.last].maxLength + 1
    ensures E.CreatedIds(b'.history) == H.Upto(|b'.automaton.states|) && NamesWithin(b'.history, 0, -1)
  {
    ghost var chain, branch;
    b', chain, branch := B.Extend(b, c);
    H.ExtendGrowth(b, c, b', chain, branch);
    H.ExtendTrace(b, c, b', chain, branch);
    CreatedStep(b.history, b'.history, |b.automaton.states|, |b'.automaton.states|, branch);
    StepBelow(b, c, b', chain, branch);
  }

  /** No link event of `h` has the end -1. */
  predicate NoLinkToNone(h: seq<E.Event>) {
    forall j :: 0 <= j < |h| && Adds(h[j]) ==> h[j].target >= 0
  }

  /** Of a history naming states below the nodes created before, with link
      ends possibly -1, the ones whose names all exist are exactly those
      with no link to -1. */
  lemma {:induction false} LinkToNoneOnly(h: seq<E.Event>, m: nat)
    requires NamesWithin(h, m, -1)
    ensures NamesWithin(h, m, 0) <==> NoLinkToNone(h)
  {
    if h != [] {
      var h0, e := h[..|h| - 1], h[|h| - 1];
      LinkToNoneOnly(h0, m);
      assert NoLinkToNone(h) <==> NoLinkToNone(h0) && (Adds(e) ==> e.target >= 0) by {
        forall j | 0 <= j < |h0| ensures h0[j] == h[j] { }
      }
    }
  }

  /** Builds the automaton of `word` and replays the builder's history from
      empty lists. Every event names a state the history created before it;
      the replay fails exactly when a suffix link to -1 is drawn; and when
      it succeeds, the node at each position is the node of the state with
      that index, so focusing by position reaches the intended node. */
  method Play(word: string) returns (b: B.SuffixAutomatonBuilder, t: Sim)
    ensures Valid(b.automaton) && b.automaton.states[b.automaton.last].maxLength == |word|
    ensures NamesWithin(b.history, 0, -1)
    ensures Replay(Empty, b.history).Success? <==> NoLinkToNone(b.history)
    ensures Replay(Empty, b.history).Success? ==>
              && Replay(Empty, b.history) == Success(t)
              && |t.nodes| == |b.automaton.states|
              && forall i :: 0 <= i < |t.nodes| ==> t.nodes[i].id == NatToString(i)
  {
    b := B.NewBuilder();
    var i := 0;
    while i < |word|
      invariant 0 <= i <= |word|
      invariant Valid(b.automaton)
      invariant b.automaton.states[b.automaton.last].maxLength == i
      invariant E.CreatedIds(b.history) == H.Upto(|b.automaton.states|)
      invariant NamesWithin(b.history, 0, -1)
    {
      b := ExtendReplayable(b, word[i]);
      i := i + 1;
    }
    ReplayDefined(Empty, b.history);
    LinkToNoneOnly(b.history, 0);
    var r := Replay(Empty, b.history);
    if r.Success? {
      t := r.value;
      NodesInOrder(b.history, |b.automaton.states|, t);
    } else {
      t := Empty;
    }
  }
}
