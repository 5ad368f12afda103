/** The older JavaScript builder: the same online construction over the
    globals `states`, `size`, `last`, `root` and `hist`, with its own record
    order. It differs from the TypeScript builder in three observable ways:
    it takes the focus off the new state at the end of every `add`, it
    announces the clone and its suffix link before the clone's edges, and
    its rewiring loop never advances `p`, so it redirects exactly one edge
    per clone (`AddAsWritten`). `Add` is the step with the loop advancing
    along suffix links, as the TypeScript builder does.

    The store is the one of module `Automaton`, so the clone shares its
    source's table here too. */
module JsBuilder {
  import opened Wrappers
  import opened OrderedMap
  import opened Counting
  import E = Events
  import opened Automaton
  import B = Builder
  import opened JsEvents

  /** The builder's globals; `root` and `last` live in the store. */
  datatype Js = Js(store: SuffixAutomaton, size: nat, hist: seq<JsEvent>)

  /** The store invariant, and `size` counting the states. */
  predicate JsValid(js: Js) {
    Valid(js.store) && js.size == |js.store.states|
  }

  /** The store viewed as a TypeScript builder with an empty history. */
  function Ts(a: SuffixAutomaton): B.SuffixAutomatonBuilder {
    B.SuffixAutomatonBuilder(a, [])
  }

  // ----- createNew, createClone, init ------------------------------------

  /** `createNew`: appends a state with no suffix link and a map of its own,
      and returns the old `size`. */
  function CreateNew(js: Js, maxLength: nat): (r: (Js, nat))
    requires js.size == |js.store.states|
    ensures r.1 == js.size && r.0.size == js.size + 1 && r.0.hist == js.hist
    ensures |r.0.store.states| == r.0.size && r.0.store.states[..r.1] == js.store.states
    ensures r.0.store.states[r.1] == State(r.1, maxLength, -1, |js.store.tables|, false)
    ensures r.0.store.tables == js.store.tables + [[]]
    ensures r.0.store.root == js.store.root && r.0.store.last == js.store.last
    ensures Valid(js.store) ==> Valid(r.0.store)
  {
    var created := B.CreateNewState(Ts(js.store), maxLength);
    assert created.0.automaton.states[..js.size] == js.store.states;
    (Js(created.0.automaton, js.size + 1, js.hist), js.size)
  }

  /** `createClone`: appends a state with the source's suffix link and the
      source's very map (no new table), and returns the old `size`. */
  function CreateCloneOf(js: Js, from: nat, maxLength: nat): (r: (Js, nat))
    requires JsValid(js) && from < js.size
    ensures r.1 == js.size && r.0.size == js.size + 1 && r.0.hist == js.hist
    ensures JsValid(r.0)
    ensures var f := js.store.states[from];
            r.0.store.states == js.store.states + [State(r.1, maxLength, f.suffixLink, f.table, false)]
    ensures r.0.store.tables == js.store.tables
    ensures TableOf(r.0.store, r.1) == TableOf(js.store, from)
    ensures r.0.store.root == js.store.root && r.0.store.last == js.store.last
  {
    assert StateOk(js.store.states, |js.store.tables|, from);
    var cloned := B.CreateClonedState(Ts(js.store), from, maxLength);
    (Js(cloned.0.automaton, js.size + 1, js.hist), js.size)
  }

  /** `init`: a single root state, `last = root = 0`, and one record. */
  function Init(): (js: Js)
    ensures JsValid(js) && js.size == 1
    ensures js.store.states == [State(0, 0, -1, 0, false)] && js.store.tables == [[]]
    ensures js.store.root == 0 && js.store.last == 0
    ensures js.hist == [CreateNode(0)]
  {
    var r := CreateNew(Js(SuffixAutomaton([], [], 0, 0), 0, []), 0);
    var js := r.0.(store := r.0.store.(root := r.1, last := r.1), hist := r.0.hist + [CreateNode(r.1)]);
    assert StateOk(js.store.states, |js.store.tables|, 0);
    js
  }

  // ----- what add does -----------------------------------------------------

  /** The store when the clone branch starts: the clone of `q` appended with
      the length one more than `p`'s, `q`'s suffix link and `q`'s map. Unlike
      the TypeScript builder's stage, `q` keeps its suffix link here: this
      builder moves it to the clone only after the redirecting loop. */
  function CloneAppended(w: SuffixAutomaton, p: nat, q: nat, clone: nat): SuffixAutomaton
    requires q < |w.states|
  {
    w.(states := w.states + [State(clone, B.LengthOf(w, p) + 1, w.states[q].suffixLink, w.states[q].table, false)])
  }

  /** The redirecting walk of the clone branch: from `p`, in the clone
      stage, over states whose tables are distinct and map `c` to `q`. */
  ghost predicate RedirectWalk(w: SuffixAutomaton, n: nat, c: char, p: nat, q: nat, rewired: seq<nat>) {
    && q <= n && n + 1 == |w.states|
    && var s := CloneAppended(w, p, q, n + 1);
    && B.IsChain(s, rewired, p)
    && B.AllTables(s, rewired, PointingTo(c, q)) && B.DistinctTables(s, rewired)
  }

  /** The store the branch of a step leaves, given the store `w` its first
      walk left and `n` the new state: `n` links to the root, to `q`, or to
      the clone, and becomes `last`. In the clone branch the tables the
      redirecting walk passed map `c` to the clone, and `q` links to the
      clone too. */
  ghost function LinkedStore(w: SuffixAutomaton, n: nat, c: char, branch: B.Branch): SuffixAutomaton
    requires n < |w.states| && (branch.Cloned? ==> branch.q < |w.states|)
  {
    match branch
    case Exhausted => w.(states := w.states[n := w.states[n].(suffixLink := 0)], last := n)
    case Found(_, q) => w.(states := w.states[n := w.states[n].(suffixLink := q)], last := n)
    case Cloned(p, q, rewired) =>
      var r := B.WithEdges(CloneAppended(w, p, q, n + 1), rewired, c, n + 1);
      r.(states := r.states[q := r.states[q].(suffixLink := n + 1)][n := r.states[n].(suffixLink := n + 1)], last := n)
  }

  /** What the branch of a step does to the store `w` its first walk left. */
  ghost predicate Linked(w: SuffixAutomaton, a': SuffixAutomaton, n: nat, c: char, branch: B.Branch) {
    && n < |w.states|
    && (branch.Cloned? ==> branch.q <= n && n + 1 == |w.states|)
    && a' == LinkedStore(w, n, c, branch)
  }

  /** The store the first walk of `add(c)` leaves: the new state appended,
      and `c` set to it in every table the walk over `chain` passed. */
  ghost function Walked(a: SuffixAutomaton, chain: seq<nat>, c: char): SuffixAutomaton
    requires Valid(a)
  {
    B.WithEdges(B.WithNewState(a, a.states[a.last].maxLength + 1), chain, c, |a.states|)
  }

  /** `x` in focus around `mid`. */
  function Bracket(x: nat, mid: seq<JsEvent>): seq<JsEvent> {
    [Focus(x)] + mid + [RemoveFocus(x)]
  }

  /** The records of the clone branch from the clone's creation on: the
      clone and its suffix link (to `q`'s old target), one `create-link` per
      entry of its map, and then, with the clone in focus, the redirections,
      `q`'s suffix link moved to the clone and `n`'s suffix link. */
  function CloneEvents(w: SuffixAutomaton, n: nat, c: char, q: nat, rewired: seq<nat>): seq<JsEvent> {
    var clone := n + 1;
    [CreateClone(clone, q), CreateSuffixLink(clone, B.LinkOf(w, q))]
    + Translate(B.EntryEvents(clone, TableOf(w, q)))
    + Bracket(clone, Translate(B.RewireEvents(rewired, q, clone, c))
                     + [RemoveSuffixLink(q, B.LinkOf(w, q)), CreateSuffixLink(q, clone), CreateSuffixLink(n, clone)])
  }

  /** The records after the first walk, given the store `w` it left. */
  function TailEvents(w: SuffixAutomaton, n: nat, c: char, branch: B.Branch): seq<JsEvent> {
    match branch
    case Exhausted => Bracket(0, [CreateSuffixLink(n, 0)])
    case Found(p, q) => Bracket(p, []) + Bracket(q, [CreateSuffixLink(n, q)])
    case Cloned(p, q, rewired) => Bracket(p, []) + Bracket(q, []) + CloneEvents(w, n, c, q, rewired)
  }

  /** Everything one `add` appends to `hist`: the node, then, with it in
      focus, the walk and the branch's records. */
  function AddEvents(w: SuffixAutomaton, n: nat, chain: seq<nat>, c: char, branch: B.Branch): seq<JsEvent> {
    [CreateNode(n)] + Bracket(n, Translate(B.WalkEvents(chain, n, c)) + TailEvents(w, n, c, branch))
  }

  /** `add(c)` from `js` walked `chain`, ended as `branch` says, and left `js'`. */
  ghost predicate AddSpec(js: Js, c: char, js': Js, chain: seq<nat>, branch: B.Branch)
    requires Valid(js.store)
  {
    var n := |js.store.states|;
    var w := Walked(js.store, chain, c);
    && B.ChainPart(Ts(js.store), c, chain, branch)
    && (branch.Cloned? ==> RedirectWalk(w, n, c, branch.p, branch.q, branch.rewired))
    && Linked(w, js'.store, n, c, branch)
    && js'.hist == js.hist + AddEvents(w, n, chain, c, branch)
  }

  /** Outside the exhausted branch, `p` maps `c` to `q` in the store the
      first walk left. */
  lemma ChainPartTarget(b: B.SuffixAutomatonBuilder, c: char, chain: seq<nat>, branch: B.Branch)
    requires Valid(b.automaton) && B.ChainPart(b, c, chain, branch) && !branch.Exhausted?
    ensures Get(TableOf(Walked(b.automaton, chain, c), branch.p), c) == Some(branch.q)
  {
    WalkedIs(b.automaton, chain, c);
  }

  lemma WalkedIs(a: SuffixAutomaton, chain: seq<nat>, c: char)
    requires Valid(a)
    ensures Walked(a, chain, c) == B.WithEdges(B.WithNewState(a, a.states[a.last].maxLength + 1), chain, c, |a.states|)
  {
  }

  /** The records `add` pushes before its branch: the node, its focus, and
      the walk. */
  function StartEvents(n: nat, chain: seq<nat>, c: char): seq<JsEvent> {
    [CreateNode(n), Focus(n)] + Translate(B.WalkEvents(chain, n, c))
  }

  /** How a step goes on once its first walk stopped at `p` in `w`: off the
      root, onto a `q` one longer than `p`, or into the clone branch (whose
      redirected states are not known yet). */
  ghost function BranchAt(w: SuffixAutomaton, p: int, c: char): B.Branch
    requires p >= 0 ==> Has(TableOf(w, p), c)
  {
    if p < 0 then B.Exhausted
    else
      var q := Get(TableOf(w, p), c).value;
      if B.LengthOf(w, q) == B.LengthOf(w, p) + 1 then B.Found(p, q) else B.Cloned(p, q, [])
  }

  /** `BranchAt` is the branch the source takes after the walk stopped at
      `p`: none at the end of the chain, otherwise found or cloned according
      to the length of `p`'s `c` target. */
  lemma BranchAtFacts(w: SuffixAutomaton, p: int, c: char)
    requires p >= 0 ==> Has(TableOf(w, p), c)
    ensures var branch := BranchAt(w, p, c);
            && (branch.Exhausted? <==> p < 0)
            && (!branch.Exhausted? ==>
                  && branch.p == p && Get(TableOf(w, p), c) == Some(branch.q)
                  && (branch.Found? <==> B.LengthOf(w, branch.q) == B.LengthOf(w, p) + 1))
  {
  }

  // ----- add ---------------------------------------------------------------

  /** What the first half of `add` leaves: the new state `n` with its
      records, the walk over `chain` that set `c` to `n` in every table it
      passed and stopped at `p`, and the chain facts for the branch the step
      takes from there. */
  ghost predicate StartOk(js: Js, c: char, js1: Js, n: nat, p: int, chain: seq<nat>)
    requires Valid(js.store)
  {
    && n == |js.store.states| && -1 <= p < n && JsValid(js1) && js1.size == n + 1
    && js1.store == Walked(js.store, chain, c)
    && js1.hist == js.hist + StartEvents(n, chain, c)
    && (p >= 0 ==> Has(TableOf(js1.store, p), c))
    && B.ChainPart(Ts(js.store), c, chain, BranchAt(js1.store, p, c))
  }

  /** The chain facts `Started` gives, for the branch `BranchAt` names. */
  lemma StartChain(js: Js, c: char, b1: B.SuffixAutomatonBuilder, n: nat, p: int, chain: seq<nat>)
    requires Valid(js.store) && B.Started(Ts(js.store), c, b1, n, p, chain)
    ensures p >= 0 ==> Has(TableOf(b1.automaton, p), c)
    ensures B.ChainPart(Ts(js.store), c, chain, BranchAt(b1.automaton, p, c))
  {
    assert p >= 0 ==> Has(TableOf(b1.automaton, p), c);
    BranchAtFacts(b1.automaton, p, c);
    B.ChainPartHolds(Ts(js.store), c, b1, n, p, chain, BranchAt(b1.automaton, p, c));
  }

  /** `Started` in the terms of this module. */
  lemma StartFacts(js: Js, c: char, js1: Js, b1: B.SuffixAutomatonBuilder, n: nat, p: int, chain: seq<nat>)
    requires JsValid(js) && B.Started(Ts(js.store), c, b1, n, p, chain)
    requires js1 == Js(b1.automaton, n + 1, js.hist + Translate(b1.history))
    ensures StartOk(js, c, js1, n, p, chain)
  {
    StartStore(js, c, b1, n, p, chain);
    StartChain(js, c, b1, n, p, chain);
  }

  /** The store and records `Started` gives. */
  lemma StartStore(js: Js, c: char, b1: B.SuffixAutomatonBuilder, n: nat, p: int, chain: seq<nat>)
    requires JsValid(js) && B.Started(Ts(js.store), c, b1, n, p, chain)
    ensures n == |js.store.states| && -1 <= p < n && Valid(b1.automaton) && |b1.automaton.states| == n + 1
    ensures b1.automaton == Walked(js.store, chain, c)
    ensures Translate(b1.history) == StartEvents(n, chain, c)
  {
    var len := js.store.states[js.store.last].maxLength + 1;
    assert Ts(js.store).automaton == js.store;
    assert b1.automaton == B.WithEdges(B.WithNewState(js.store, len), chain, c, n);
    WalkedIs(js.store, chain, c);
    StartRecords(b1.history, n, len, chain, c);
  }

  /** The first half of `add`: the new state `n`, its records, and the walk
      up the suffix chain, which is the TypeScript builder's. */
  method Start(js: Js, c: char) returns (js1: Js, n: nat, p: int, ghost chain: seq<nat>)
    requires JsValid(js)
    ensures StartOk(js, c, js1, n, p, chain)
    ensures n == |js.store.states| && js1.size == n + 1 && |js1.store.states| == n + 1 && -1 <= p < n
    ensures js1.store.states[n].maxLength == js.store.states[js.store.last].maxLength + 1
    ensures p >= 0 ==> Has(TableOf(js1.store, p), c)
  {
    var b1;
    b1, n, p, chain := B.StartExtend(Ts(js.store), c);
    js1 := Js(b1.automaton, n + 1, js.hist + Translate(b1.history));
    StartFacts(js, c, js1, b1, n, p, chain);
  }

  /** The records of `Start`: the node, its focus, the walk. */
  lemma StartRecords(h: seq<E.Event>, n: nat, len: nat, chain: seq<nat>, c: char)
    requires h == [] + [E.CreateNewState(n, len), E.Focus(n)] + B.WalkEvents(chain, n, c)
    ensures Translate(h) == StartEvents(n, chain, c)
  {
    assert h == [E.CreateNewState(n, len), E.Focus(n)] + B.WalkEvents(chain, n, c);
    TranslateAppend([E.CreateNewState(n, len), E.Focus(n)], B.WalkEvents(chain, n, c));
    assert Translate([E.CreateNewState(n, len), E.Focus(n)]) == [CreateNode(n), Focus(n)] by {
      assert [E.CreateNewState(n, len), E.Focus(n)][..1] == [E.CreateNewState(n, len)];
    }
  }

  /** The records of a step: those of `Start`, the branch's, and the node's
      unfocus. */
  lemma Records(h: seq<JsEvent>, n: nat, chain: seq<nat>, c: char, tail: seq<JsEvent>)
    ensures h + StartEvents(n, chain, c) + tail + [RemoveFocus(n)]
            == h + ([CreateNode(n)] + Bracket(n, Translate(B.WalkEvents(chain, n, c)) + tail))
  {
    var walk := Translate(B.WalkEvents(chain, n, c));
    calc {
      h + StartEvents(n, chain, c) + tail + [RemoveFocus(n)];
      { assert StartEvents(n, chain, c) == [CreateNode(n)] + ([Focus(n)] + walk); }
      h + ([CreateNode(n)] + ([Focus(n)] + walk)) + tail + [RemoveFocus(n)];
      { assert h + ([CreateNode(n)] + ([Focus(n)] + walk)) + tail == h + [CreateNode(n)] + ([Focus(n)] + (walk + tail)); }
      h + [CreateNode(n)] + ([Focus(n)] + (walk + tail)) + [RemoveFocus(n)];
    }
  }

  /** The records the exhausted branch pushes, one by one, are its tail. */
  lemma RootRecords(h: seq<JsEvent>, w: SuffixAutomaton, n: nat, c: char)
    ensures h + [Focus(0), CreateSuffixLink(n, 0)] + [RemoveFocus(0)] + [RemoveFocus(n)]
            == h + TailEvents(w, n, c, B.Exhausted) + [RemoveFocus(n)]
  {
    assert TailEvents(w, n, c, B.Exhausted) == [Focus(0), CreateSuffixLink(n, 0), RemoveFocus(0)];
  }

  /** The records the found branch pushes, one by one, are its tail. */
  lemma FoundRecords(h: seq<JsEvent>, w: SuffixAutomaton, n: nat, c: char, p: nat, q: nat)
    ensures h + [Focus(p), RemoveFocus(p), Focus(q)] + [CreateSuffixLink(n, q)] + [RemoveFocus(q)] + [RemoveFocus(n)]
            == h + TailEvents(w, n, c, B.Found(p, q)) + [RemoveFocus(n)]
  {
    assert TailEvents(w, n, c, B.Found(p, q)) == [Focus(p), RemoveFocus(p), Focus(q), CreateSuffixLink(n, q), RemoveFocus(q)];
  }

  /** The exhausted branch, from the store `js1.store` the first walk left:
      `n` links to the root. */
  method FinishRoot(js1: Js, n: nat, c: char) returns (js': Js)
    requires JsValid(js1) && 1 <= n && js1.size == n + 1
    ensures JsValid(js') && js'.size == js1.size
    ensures Linked(js1.store, js'.store, n, c, B.Exhausted)
    ensures js'.hist == js1.hist + TailEvents(js1.store, n, c, B.Exhausted) + [RemoveFocus(n)]
  {
    var root := js1.store.root;
    js' := js1.(hist := js1.hist + [Focus(root), CreateSuffixLink(n, root)]);
    js' := js'.(store := B.AddSuffixLink(Ts(js'.store), n, root).automaton);
    js' := js'.(hist := js'.hist + [RemoveFocus(root)] + [RemoveFocus(n)], store := js'.store.(last := n));
    RootRecords(js1.hist, js1.store, n, c);
  }

  /** The found branch: `n` links to `q`. */
  method FinishFound(js1: Js, n: nat, p: nat, q: nat, c: char) returns (js': Js)
    requires JsValid(js1) && 1 <= n && js1.size == n + 1 && 1 <= q <= n
    ensures JsValid(js') && js'.size == js1.size
    ensures Linked(js1.store, js'.store, n, c, B.Found(p, q))
    ensures js'.hist == js1.hist + TailEvents(js1.store, n, c, B.Found(p, q)) + [RemoveFocus(n)]
  {
    js' := js1.(hist := js1.hist + [Focus(p), RemoveFocus(p), Focus(q)]);
    js' := js'.(store := B.AddSuffixLink(Ts(js'.store), n, q).automaton, hist := js'.hist + [CreateSuffixLink(n, q)]);
    js' := js'.(hist := js'.hist + [RemoveFocus(q)] + [RemoveFocus(n)], store := js'.store.(last := n));
    FoundRecords(js1.hist, js1.store, n, c, p, q);
  }

  // ----- the clone branch --------------------------------------------------

  /** The `for` loop over the clone's map: one `create-link` record per
      entry, in iteration order. */
  method PushEntries(js: Js, clone: nat, t: Table) returns (js': Js)
    ensures js'.store == js.store && js'.size == js.size
    ensures js'.hist == js.hist + Translate(B.EntryEvents(clone, t))
  {
    js' := js;
    var i := 0;
    while i < |t|
      invariant i <= |t|
      invariant js'.store == js.store && js'.size == js.size
      invariant js'.hist == js.hist + Translate(B.EntryEvents(clone, t[..i]))
    {
      var e := E.CreateLink(clone, t[i].value, t[i].key);
      assert t[..i + 1][..i] == t[..i];
      assert B.EntryEvents(clone, t[..i + 1]) == B.EntryEvents(clone, t[..i]) + [e];
      TranslateAppend(B.EntryEvents(clone, t[..i]), [e]);
      assert Translate([e]) == [CreateLink(clone, t[i].value, t[i].key)] by {
        assert [e][..0] == [];
      }
      js' := js'.(hist := js'.hist + [CreateLink(clone, t[i].value, t[i].key)]);
      i := i + 1;
    }
    assert t[..|t|] == t;
  }

  /** The clone branch up to the redirecting loop: the clone of `q` with the
      length one more than `p`'s, its records, and its focus. */
  method CloneHead(js1: Js, n: nat, p: nat, q: nat) returns (js2: Js)
    requires JsValid(js1) && js1.size == n + 1 && p < n && 1 <= q <= n
    ensures JsValid(js2) && js2.size == n + 2
    ensures js2.store == CloneAppended(js1.store, p, q, n + 1)
    ensures js2.hist == js1.hist + [CreateClone(n + 1, q), CreateSuffixLink(n + 1, B.LinkOf(js1.store, q))]
                        + Translate(B.EntryEvents(n + 1, TableOf(js1.store, q))) + [Focus(n + 1)]
  {
    var cloned := CreateCloneOf(js1, q, js1.store.states[p].maxLength + 1);
    var clone := cloned.1;
    js2 := cloned.0.(hist := cloned.0.hist + [CreateClone(clone, q), CreateSuffixLink(clone, cloned.0.store.states[clone].suffixLink)]);
    js2 := PushEntries(js2, clone, TableOf(js2.store, clone));
    js2 := js2.(hist := js2.hist + [Focus(clone)]);
  }

  /** Redirecting the `c` edge of `p` (in its shared table) to the clone is
      the one-state walk of the redirecting loop. */
  lemma OneRedirect(a: SuffixAutomaton, p: nat, c: char, clone: nat)
    requires Valid(a) && p < |a.states|
    ensures var t := a.states[p].table;
            t < |a.tables| && B.WithEdges(a, [p], c, clone) == a.(tables := a.tables[t := Set(a.tables[t], c, clone)])
  {
    assert StateOk(a.states, |a.tables|, p);
    var t := a.states[p].table;
    assert B.ChainTables(a, [p]) == {} + {t} by {
      assert [p][..0] == [];
    }
    assert B.SetEdges(a.tables, {}, c, clone) == a.tables;
    B.SetEdgesAdd(a.tables, {}, t, c, clone);
  }

  /** The records of one round of the redirecting loop. */
  lemma OneRedirectRecords(p: nat, q: nat, clone: nat, c: char)
    ensures Translate(B.RewireEvents([p], q, clone, c)) == [RemoveLink(p, q), CreateLink(p, clone, c)]
  {
    assert [p][..0] == [];
    assert B.RewireEvents([p], q, clone, c) == [E.RemoveLink(p, q), E.CreateLink(p, clone, c)];
    assert [E.RemoveLink(p, q), E.CreateLink(p, clone, c)][..1] == [E.RemoveLink(p, q)];
  }

  /** The redirecting loop as written: `p` is never advanced, so after the
      first round `p`'s edge leads to the clone and the loop stops. It
      redirects exactly the one state `p`. */
  method RedirectLoopAsWritten(js2: Js, p: int, q: nat, clone: nat, c: char) returns (js3: Js, ghost rewired: seq<nat>)
    requires JsValid(js2) && 0 <= p < js2.size && 1 <= clone < js2.size && clone != q
    requires Get(TableOf(js2.store, p), c) == Some(q)
    ensures rewired == [p]
    ensures JsValid(js3) && js3.size == js2.size
    ensures js3.store == B.WithEdges(js2.store, rewired, c, clone)
    ensures js3.hist == js2.hist + Translate(B.RewireEvents(rewired, q, clone, c))
  {
    js3 := js2;
    rewired := [];
    OneRedirect(js2.store, p, c, clone);
    OneRedirectRecords(p, q, clone, c);
    while p != -1 && GetNextState(js3.store, p, c) == q
      invariant JsValid(js3) && js3.size == js2.size
      invariant js3.store.states == js2.store.states && |js3.store.tables| == |js2.store.tables|
      invariant rewired == [] ==> js3 == js2
      invariant rewired != [] ==> rewired == [p] && GetNextState(js3.store, p, c) == clone
      invariant rewired != [] ==> js3.store == B.WithEdges(js2.store, [p], c, clone)
      invariant rewired != [] ==> js3.hist == js2.hist + [RemoveLink(p, q), CreateLink(p, clone, c)]
      decreases 1 - |rewired|
    {
      js3 := js3.(hist := js3.hist + [RemoveLink(p, q)]);
      js3 := js3.(store := B.AddLink(Ts(js3.store), p, clone, c).automaton);
      js3 := js3.(hist := js3.hist + [CreateLink(p, clone, c)]);
      GetSet(js2.store.tables[js2.store.states[p].table], c, clone, c);
      rewired := rewired + [p];
    }
  }

  /** The as-written loop on the clone stage of `w`. */
  method RedirectAsWritten(ghost w: SuffixAutomaton, js2: Js, n: nat, p: int, q: nat, c: char) returns (js3: Js, ghost rewired: seq<nat>)
    requires n + 1 == |w.states| && 0 <= p < n && 1 <= q <= n
    requires JsValid(js2) && js2.store == CloneAppended(w, p, q, n + 1)
    requires Get(TableOf(w, p), c) == Some(q)
    ensures rewired == [p] && RedirectWalk(w, n, c, p, q, rewired)
    ensures JsValid(js3) && js3.size == js2.size
    ensures js3.store == B.WithEdges(CloneAppended(w, p, q, n + 1), rewired, c, n + 1)
    ensures js3.hist == js2.hist + Translate(B.RewireEvents(rewired, q, n + 1, c))
  {
    SingleChain(js2.store, p, c, q);
    js3, rewired := RedirectLoopAsWritten(js2, p, q, n + 1, c);
  }

  /** In the clone branch taken from the store `w` the first walk left,
      the redirecting walk stopped where it had to. */
  ghost predicate Stopped(w: SuffixAutomaton, n: nat, c: char, branch: B.Branch) {
    branch.Cloned? ==>
      && branch.q < |w.states|
      && B.RewireStopped(CloneAppended(w, branch.p, branch.q, n + 1), branch.rewired, branch.p, c, branch.q)
  }

  /** The redirecting loop with `p` advanced along suffix links, which is
      the TypeScript builder's. */
  method Redirect(ghost w: SuffixAutomaton, js2: Js, n: nat, p: nat, q: nat, c: char) returns (js3: Js, ghost rewired: seq<nat>)
    requires n + 1 == |w.states| && p < n && 1 <= q <= n
    requires JsValid(js2) && js2.store == CloneAppended(w, p, q, n + 1)
    ensures RedirectWalk(w, n, c, p, q, rewired) && B.RewireStopped(CloneAppended(w, p, q, n + 1), rewired, p, c, q)
    ensures JsValid(js3) && js3.size == js2.size
    ensures js3.store == B.WithEdges(CloneAppended(w, p, q, n + 1), rewired, c, n + 1)
    ensures js3.hist == js2.hist + Translate(B.RewireEvents(rewired, q, n + 1, c))
  {
    var b3, end;
    b3, end, rewired := B.Rewire(Ts(js2.store), p, q, n + 1, c);
    js3 := Js(b3.automaton, js2.size, js2.hist + Translate(b3.history));
    assert b3.history == B.RewireEvents(rewired, q, n + 1, c);
  }

  /** The end of the clone branch: `q`'s suffix link moved to the clone,
      `n` linked to the clone, and the clone's focus removed. */
  method CloseClone(js3: Js, n: nat, q: nat, clone: nat) returns (js': Js)
    requires JsValid(js3) && 1 <= q < js3.size && 1 <= n < js3.size && clone < js3.size
    ensures JsValid(js') && js'.size == js3.size && js'.store.tables == js3.store.tables
    ensures js'.store == js3.store.(states := js3.store.states[q := js3.store.states[q].(suffixLink := clone)]
                                                             [n := js3.store.states[n].(suffixLink := clone)])
    ensures js'.hist == js3.hist + [RemoveSuffixLink(q, B.LinkOf(js3.store, q)), CreateSuffixLink(q, clone),
                                    CreateSuffixLink(n, clone), RemoveFocus(clone)]
  {
    js' := js3.(hist := js3.hist + [RemoveSuffixLink(q, js3.store.states[q].suffixLink)]);
    js' := js'.(store := B.AddSuffixLink(Ts(js'.store), q, clone).automaton, hist := js'.hist + [CreateSuffixLink(q, clone)]);
    js' := js'.(store := B.AddSuffixLink(Ts(js'.store), n, clone).automaton, hist := js'.hist + [CreateSuffixLink(n, clone)]);
    js' := js'.(hist := js'.hist + [RemoveFocus(clone)]);
  }

  /** Regrouping of the nine pieces the clone branch pushes. */
  lemma Regroup<T>(h: seq<T>, x1: seq<T>, x2: seq<T>, x3: seq<T>, x4: seq<T>, x5: seq<T>, x6: seq<T>,
                   k: seq<T>, r: seq<T>, z: seq<T>)
    ensures h + x1 + x2 + x3 + x4 + x5 + x6 + (k + r) + z
            == h + ((x1 + x2) + (x3 + x4 + (x5 + (x6 + k) + r))) + z
  {
  }

  /** The records the clone branch pushes, piece by piece, are its tail. */
  lemma CloneRecords(h: seq<JsEvent>, w: SuffixAutomaton, n: nat, c: char, p: nat, q: nat, rewired: seq<nat>)
    ensures var clone := n + 1;
            var link := B.LinkOf(w, q);
            h + [Focus(p), RemoveFocus(p), Focus(q)] + [RemoveFocus(q)]
            + [CreateClone(clone, q), CreateSuffixLink(clone, link)] + Translate(B.EntryEvents(clone, TableOf(w, q))) + [Focus(clone)]
            + Translate(B.RewireEvents(rewired, q, clone, c))
            + [RemoveSuffixLink(q, link), CreateSuffixLink(q, clone), CreateSuffixLink(n, clone), RemoveFocus(clone)]
            + [RemoveFocus(n)]
            == h + TailEvents(w, n, c, B.Cloned(p, q, rewired)) + [RemoveFocus(n)]
  {
    var clone := n + 1;
    var link := B.LinkOf(w, q);
    var head := [CreateClone(clone, q), CreateSuffixLink(clone, link)];
    var entries := Translate(B.EntryEvents(clone, TableOf(w, q)));
    var redirects := Translate(B.RewireEvents(rewired, q, clone, c));
    var moves := [RemoveSuffixLink(q, link), CreateSuffixLink(q, clone), CreateSuffixLink(n, clone)];
    assert [RemoveSuffixLink(q, link), CreateSuffixLink(q, clone), CreateSuffixLink(n, clone), RemoveFocus(clone)]
           == moves + [RemoveFocus(clone)];
    Regroup(h, [Focus(p), RemoveFocus(p), Focus(q)], [RemoveFocus(q)], head, entries, [Focus(clone)], redirects,
            moves, [RemoveFocus(clone)], [RemoveFocus(n)]);
    assert [Focus(p), RemoveFocus(p), Focus(q)] + [RemoveFocus(q)] == Bracket(p, []) + Bracket(q, []);
    assert [Focus(clone)] + (redirects + moves) + [RemoveFocus(clone)] == Bracket(clone, redirects + moves);
  }

  /** A single state whose `c` edge leads to `q` is a one-state redirecting
      walk from itself. */
  lemma SingleChain(s: SuffixAutomaton, p: nat, c: char, q: nat)
    requires p < |s.states| && Get(TableOf(s, p), c) == Some(q)
    ensures B.IsChain(s, [p], p) && B.AllTables(s, [p], PointingTo(c, q)) && B.DistinctTables(s, [p])
  {
    assert [p][..0] == [];
  }

  /** The store the clone branch leaves: the clone stage with the walk's
      tables redirected to the clone, and `q` and `n` linked to it. */
  lemma CloneLinked(w: SuffixAutomaton, a3: SuffixAutomaton, a': SuffixAutomaton, n: nat, c: char, p: nat, q: nat, rewired: seq<nat>)
    requires 1 <= q <= n && n + 1 == |w.states| && p < n
    requires a3 == B.WithEdges(CloneAppended(w, p, q, n + 1), rewired, c, n + 1)
    requires a' == a3.(states := a3.states[q := a3.states[q].(suffixLink := n + 1)][n := a3.states[n].(suffixLink := n + 1)], last := n)
    ensures Linked(w, a', n, c, B.Cloned(p, q, rewired))
  {
  }

  /** The clone branch after its redirecting loop: `q` and `n` linked to the
      clone, the clone's focus removed and `n` made `last`. */
  method CloseBranch(js1: Js, js3: Js, n: nat, p: nat, q: nat, c: char, ghost rewired: seq<nat>) returns (js': Js)
    requires n + 1 == |js1.store.states| && p < n && 1 <= q <= n
    requires JsValid(js3) && js3.size == n + 2
    requires js3.store == B.WithEdges(CloneAppended(js1.store, p, q, n + 1), rewired, c, n + 1)
    requires js3.hist == js1.hist + [Focus(p), RemoveFocus(p), Focus(q)] + [RemoveFocus(q)]
                         + [CreateClone(n + 1, q), CreateSuffixLink(n + 1, B.LinkOf(js1.store, q))]
                         + Translate(B.EntryEvents(n + 1, TableOf(js1.store, q))) + [Focus(n + 1)]
                         + Translate(B.RewireEvents(rewired, q, n + 1, c))
    ensures JsValid(js') && js'.size == n + 2
    ensures Linked(js1.store, js'.store, n, c, B.Cloned(p, q, rewired))
    ensures js'.hist == js1.hist + TailEvents(js1.store, n, c, B.Cloned(p, q, rewired)) + [RemoveFocus(n)]
  {
    js' := CloseClone(js3, n, q, n + 1);
    js' := js'.(hist := js'.hist + [RemoveFocus(n)], store := js'.store.(last := n));
    CloneLinked(js1.store, js3.store, js'.store, n, c, p, q, rewired);
    CloneRecords(js1.hist, js1.store, n, c, p, q, rewired);
  }

  /** The clone branch as written: the redirecting loop stops after `p`. */
  method FinishCloneAsWritten(js1: Js, n: nat, p: nat, q: nat, c: char) returns (js': Js, ghost rewired: seq<nat>)
    requires JsValid(js1) && 1 <= n && js1.size == n + 1 && p < n && 1 <= q <= n
    requires Get(TableOf(js1.store, p), c) == Some(q)
    ensures rewired == [p] && RedirectWalk(js1.store, n, c, p, q, rewired)
    ensures JsValid(js') && js'.size == n + 2
    ensures Linked(js1.store, js'.store, n, c, B.Cloned(p, q, rewired))
    ensures js'.hist == js1.hist + TailEvents(js1.store, n, c, B.Cloned(p, q, rewired)) + [RemoveFocus(n)]
  {
    var js := js1.(hist := js1.hist + [Focus(p), RemoveFocus(p), Focus(q)] + [RemoveFocus(q)]);
    var js2 := CloneHead(js, n, p, q);
    var js3;
    js3, rewired := RedirectAsWritten(js1.store, js2, n, p, q, c);
    js' := CloseBranch(js1, js3, n, p, q, c, rewired);
  }

  /** The clone branch with the redirecting loop advancing along suffix
      links: it stops where the walk has to. */
  method FinishClone(js1: Js, n: nat, p: nat, q: nat, c: char) returns (js': Js, ghost rewired: seq<nat>)
    requires JsValid(js1) && 1 <= n && js1.size == n + 1 && p < n && 1 <= q <= n
    ensures RedirectWalk(js1.store, n, c, p, q, rewired)
    ensures Stopped(js1.store, n, c, B.Cloned(p, q, rewired))
    ensures JsValid(js') && js'.size == n + 2
    ensures Linked(js1.store, js'.store, n, c, B.Cloned(p, q, rewired))
    ensures js'.hist == js1.hist + TailEvents(js1.store, n, c, B.Cloned(p, q, rewired)) + [RemoveFocus(n)]
  {
    var js := js1.(hist := js1.hist + [Focus(p), RemoveFocus(p), Focus(q)] + [RemoveFocus(q)]);
    var js2 := CloneHead(js, n, p, q);
    var js3;
    js3, rewired := Redirect(js1.store, js2, n, p, q, c);
    js' := CloseBranch(js1, js3, n, p, q, c, rewired);
  }

  // ----- add, assembled ----------------------------------------------------

  /** Two branches of the same kind at the same `p` and `q`; they may differ
      in the states the redirecting walk passed. */
  predicate SameKind(br: B.Branch, br': B.Branch) {
    && br.Exhausted? == br'.Exhausted? && br.Found? == br'.Found?
    && (!br.Exhausted? ==> br.p == br'.p && br.q == br'.q)
  }

  /** `ChainPart` looks only at the kind of the branch and its `p` and `q`. */
  lemma ChainPartOfKind(b: B.SuffixAutomatonBuilder, c: char, chain: seq<nat>, br: B.Branch, br': B.Branch)
    requires Valid(b.automaton) && B.ChainPart(b, c, chain, br) && SameKind(br, br')
    ensures B.ChainPart(b, c, chain, br')
  {
  }

  /** The halves of `add` make up the whole. */
  lemma AddDone(js: Js, c: char, js1: Js, n: nat, p: int, chain: seq<nat>, js': Js, branch: B.Branch)
    requires JsValid(js) && StartOk(js, c, js1, n, p, chain)
    requires SameKind(BranchAt(js1.store, p, c), branch)
    requires Linked(js1.store, js'.store, n, c, branch)
    requires branch.Cloned? ==> RedirectWalk(js1.store, n, c, branch.p, branch.q, branch.rewired)
    requires js'.hist == js1.hist + TailEvents(js1.store, n, c, branch) + [RemoveFocus(n)]
    ensures AddSpec(js, c, js', chain, branch)
  {
    ChainPartOfKind(Ts(js.store), c, chain, BranchAt(js1.store, p, c), branch);
    Records(js.hist, n, chain, c, TailEvents(js1.store, n, c, branch));
  }

  /** `add(c)` with the redirecting loop advancing along suffix links: the
      step the TypeScript builder takes, recorded in this builder's terms,
      and a redirecting walk that stops where it has to. */
  method Add(js: Js, c: char) returns (js': Js, ghost chain: seq<nat>, ghost branch: B.Branch)
    requires JsValid(js)
    ensures JsValid(js') && AddSpec(js, c, js', chain, branch)
    ensures Stopped(Walked(js.store, chain, c), |js.store.states|, c, branch)
  {
    var js1, n, p;
    js1, n, p, chain := Start(js, c);
    if p == -1 {
      js' := FinishRoot(js1, n, c);
      branch := B.Exhausted;
    } else {
      var q := GetNextState(js1.store, p, c);
      if js1.store.states[q].maxLength == js1.store.states[p].maxLength + 1 {
        js' := FinishFound(js1, n, p, q, c);
        branch := B.Found(p, q);
      } else {
        ghost var rewired;
        js', rewired := FinishClone(js1, n, p, q, c);
        branch := B.Cloned(p, q, rewired);
      }
    }
    AddDone(js, c, js1, n, p, chain, js', branch);
    if !branch.Cloned? {
      assert Stopped(js1.store, n, c, branch);
    }
  }

  /** `add(c)` as written: in the clone branch only `p` is redirected. */
  method AddAsWritten(js: Js, c: char) returns (js': Js, ghost chain: seq<nat>, ghost branch: B.Branch)
    requires JsValid(js)
    ensures JsValid(js') && AddSpec(js, c, js', chain, branch)
    ensures branch.Cloned? ==> branch.rewired == [branch.p]
  {
    var js1, n, p;
    js1, n, p, chain := Start(js, c);
    if p == -1 {
      js' := FinishRoot(js1, n, c);
      branch := B.Exhausted;
    } else {
      var q := GetNextState(js1.store, p, c);
      if js1.store.states[q].maxLength == js1.store.states[p].maxLength + 1 {
        js' := FinishFound(js1, n, p, q, c);
        branch := B.Found(p, q);
      } else {
        ghost var rewired;
        js', rewired := FinishCloneAsWritten(js1, n, p, q, c);
        branch := B.Cloned(p, q, rewired);
      }
    }
    AddDone(js, c, js1, n, p, chain, js', branch);
  }
}
