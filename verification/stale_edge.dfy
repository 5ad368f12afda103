/** The stale edge the older JavaScript builder leaves behind. Its
    redirecting loop never advances `p`, so when the state `l` that `p`'s
    suffix link leads to has a table of its own that also maps `c` to `q`,
    that edge keeps leading to `q` although it should lead to the clone.
    `StaleAt` states this for any clone step whose redirecting walk stopped
    after `p`, `RedirectedAt` that a walk that stops where it has to
    redirects the edge, and the `Aabab` members show the case occurs when
    "aabab" is built: its last step starts from the store "aaba" leaves. */
module StaleEdge {
  import opened Wrappers
  import opened OrderedMap
  import opened Counting
  import opened Automaton
  import B = Builder
  import opened JsBuilder

  /** `p`'s suffix link leads to a state with a table of its own that also
      maps `c` to `q`, so a redirecting walk from `p` has to pass it. */
  ghost predicate LinkSharesTarget(w: SuffixAutomaton, c: char, p: nat, q: nat) {
    var l := B.LinkOf(w, p);
    && p < |w.states| && 0 <= l < |w.states|
    && B.TableId(w, l) != B.TableId(w, p)
    && Get(TableOf(w, l), c) == Some(q)
  }

  // ----- chains ------------------------------------------------------------

  /** A walk starts at its start, and its second state is the first one's
      suffix-link target. */
  lemma {:induction false} ChainHead(a: SuffixAutomaton, chain: seq<nat>, start: int)
    requires B.IsChain(a, chain, start) && |chain| >= 1
    ensures chain[0] == start
    ensures |chain| >= 2 ==> chain[1] == B.LinkOf(a, chain[0])
  {
    var prefix := chain[..|chain| - 1];
    if |chain| == 1 {
      assert prefix == [];
    } else {
      ChainHead(a, prefix, start);
      if |chain| == 2 {
        assert prefix[..0] == [];
      }
    }
  }

  /** Every state of a walk contributes its table to the walk's tables. */
  lemma {:induction false} InChainTables(a: SuffixAutomaton, chain: seq<nat>, k: nat)
    requires k < |chain|
    ensures B.TableId(a, chain[k]) in B.ChainTables(a, chain)
  {
    if k < |chain| - 1 {
      InChainTables(a, chain[..|chain| - 1], k);
    }
  }

  /** Every state of a walk meets the walk's guard. */
  lemma {:induction false} AllTablesAt(a: SuffixAutomaton, chain: seq<nat>, g: Guard, k: nat)
    requires B.AllTables(a, chain, g) && k < |chain|
    ensures Holds(g, TableOf(a, chain[k]))
  {
    if k < |chain| - 1 {
      AllTablesAt(a, chain[..|chain| - 1], g, k);
    }
  }

  /** A redirecting walk from `p` that stopped where it had to has passed the
      table of `p`'s suffix-link target when that table maps `c` to `q`. */
  lemma WalkPassesLink(s: SuffixAutomaton, rewired: seq<nat>, p: nat, c: char, q: nat)
    requires B.IsChain(s, rewired, p) && B.RewireStopped(s, rewired, p, c, q)
    requires Get(TableOf(s, p), c) == Some(q) && LinkSharesTarget(s, c, p, q)
    ensures B.TableId(s, B.LinkOf(s, p)) in B.ChainTables(s, rewired)
  {
    if |rewired| >= 2 {
      ChainHead(s, rewired, p);
      InChainTables(s, rewired, 1);
    } else {
      assert false;
    }
  }

  // ----- the step ----------------------------------------------------------

  /** What the clone stage keeps of the store the first walk left. */
  lemma StageKeeps(w: SuffixAutomaton, n: nat, c: char, p: nat, q: nat)
    requires n + 1 == |w.states| && p < n && q <= n
    ensures var s := CloneAppended(w, p, q, n + 1);
            && s.tables == w.tables
            && (forall x: nat :: x < |w.states| ==> TableOf(s, x) == TableOf(w, x) && B.TableId(s, x) == B.TableId(w, x))
            && B.LinkOf(s, p) == B.LinkOf(w, p)
  {
  }

  /** The table of a state below the clone after the step: the one of the
      store the first walk left, with `c` set to the clone where the
      redirecting walk passed. */
  lemma TableAfter(w: SuffixAutomaton, a': SuffixAutomaton, n: nat, c: char, p: nat, q: nat, rewired: seq<nat>, x: nat)
    requires n + 1 == |w.states| && p < n && q <= n && x < |w.states| && w.states[x].table < |w.tables|
    requires a' == LinkedStore(w, n, c, B.Cloned(p, q, rewired))
    ensures var s := CloneAppended(w, p, q, n + 1);
            TableOf(a', x) == if B.TableId(s, x) in B.ChainTables(s, rewired) then Set(TableOf(w, x), c, n + 1)
                              else TableOf(w, x)
  {
  }

  /** A clone step from the store `w` its first walk left: `p` maps `c` to
      `q`, the redirecting walk went along suffix links from `p`, and `a'`
      is the store the step leaves. */
  ghost predicate Cloning(w: SuffixAutomaton, a': SuffixAutomaton, n: nat, c: char, branch: B.Branch) {
    && branch.Cloned? && branch.p < n && Get(TableOf(w, branch.p), c) == Some(branch.q)
    && RedirectWalk(w, n, c, branch.p, branch.q, branch.rewired)
    && a' == LinkedStore(w, n, c, branch)
  }

  /** With the redirecting walk cut after `p`, `l`'s `c` edge still leads to
      `q` after the step, and the walk stopped where it may not. Both follow
      directly from `CloneStored`; the lemma names them. */
  lemma StaleAt(w: SuffixAutomaton, a': SuffixAutomaton, n: nat, c: char, branch: B.Branch)
    requires Cloning(w, a', n, c, branch) && branch.rewired == [branch.p]
    requires LinkSharesTarget(w, c, branch.p, branch.q)
    ensures Get(TableOf(a', B.LinkOf(w, branch.p)), c) == Some(branch.q)
    ensures !Stopped(w, n, c, branch)
  {
    var p, q := branch.p, branch.q;
    var l := B.LinkOf(w, p);
    var s := CloneAppended(w, p, q, n + 1);
    StageKeeps(w, n, c, p, q);
    assert [p][..0] == [];
    assert B.ChainTables(s, [p]) == {B.TableId(s, p)};
    assert w.states[l].table < |w.tables|;
    TableAfter(w, a', n, c, p, q, [p], l);
  }

  /** Where the redirecting walk stopped where it had to, `l`'s `c` edge
      leads to the clone after the step. */
  lemma RedirectedAt(w: SuffixAutomaton, a': SuffixAutomaton, n: nat, c: char, branch: B.Branch)
    requires Cloning(w, a', n, c, branch) && Stopped(w, n, c, branch)
    requires LinkSharesTarget(w, c, branch.p, branch.q)
    ensures Get(TableOf(a', B.LinkOf(w, branch.p)), c) == Some(n + 1)
  {
    var p, q, rewired := branch.p, branch.q, branch.rewired;
    var l := B.LinkOf(w, p);
    var s := CloneAppended(w, p, q, n + 1);
    StageKeeps(w, n, c, p, q);
    assert LinkSharesTarget(s, c, p, q);
    WalkPassesLink(s, rewired, p, c, q);
    assert w.states[l].table < |w.tables|;
    TableAfter(w, a', n, c, p, q, rewired, l);
    GetSet(TableOf(w, l), c, n + 1, c);
  }

  /** What a clone step states about the store its first walk left. */
  lemma ClonedParts(js: Js, c: char, js': Js, chain: seq<nat>, branch: B.Branch)
    requires JsValid(js) && AddSpec(js, c, js', chain, branch) && branch.Cloned?
    ensures Cloning(Walked(js.store, chain, c), js'.store, |js.store.states|, c, branch)
  {
    ChainPartTarget(Ts(js.store), c, chain, branch);
  }

  // ----- "aabab" -----------------------------------------------------------

  /** The store "aaba" leaves: no step so far has cloned, so both loops
      agree on it. */
  function AabaStore(): SuffixAutomaton {
    SuffixAutomaton(
      [State(0, 0, -1, 0, false), State(1, 1, 0, 1, false), State(2, 2, 1, 2, false),
       State(3, 3, 0, 3, false), State(4, 4, 1, 4, false)],
      [[Entry('a', 1), Entry('b', 3)], [Entry('a', 2), Entry('b', 3)], [Entry('b', 3)], [Entry('a', 4)], []],
      0, 4)
  }

  lemma AabaValid()
    ensures Valid(AabaStore())
  {
    var a := AabaStore();
    forall t | 0 <= t < |a.tables|
      ensures TableOkAt(a.tables, |a.states|, t)
    {
      assert a.tables[t] in {[Entry('a', 1), Entry('b', 3)], [Entry('a', 2), Entry('b', 3)], [Entry('b', 3)], [Entry('a', 4)], []};
    }
  }

  /** Adding 'b' to "aaba": the first walk passes state 4 only and stops at
      state 1, whose 'b' edge leads to state 3 of length 3, so the step
      clones 3. */
  lemma AababChain(chain: seq<nat>, branch: B.Branch)
    requires Valid(AabaStore()) && B.ChainPart(Ts(AabaStore()), 'b', chain, branch)
    ensures chain == [4] && branch.Cloned? && branch.p == 1 && branch.q == 3
  {
    var a1 := B.WithNewState(AabaStore(), 5);
    assert TableOf(a1, 4) == [];
    if |chain| >= 2 {
      ChainHead(a1, chain, 4);
      AllTablesAt(a1, chain, Lacking('b'), 1);
      assert false;
    } else if |chain| == 1 {
      ChainHead(a1, chain, 4);
      assert chain[..0] == [];
      assert B.ChainTables(a1, chain) == {4};
      assert Get(TableOf(a1, 1), 'b') == Some(3);
    }
  }

  /** State 1's suffix link leads to the root, whose own table also maps 'b'
      to 3. */
  lemma AababLink()
    requires Valid(AabaStore())
    ensures B.LinkOf(Walked(AabaStore(), [4], 'b'), 1) == 0
    ensures LinkSharesTarget(Walked(AabaStore(), [4], 'b'), 'b', 1, 3)
  {
    var w := Walked(AabaStore(), [4], 'b');
    assert [4][..0] == [];
    assert B.ChainTables(B.WithNewState(AabaStore(), 5), [4]) == {4};
    assert TableOf(w, 0) == [Entry('a', 1), Entry('b', 3)];
  }

  /** The older builder as written, adding 'b' to "aaba": the root's 'b' edge
      stays at state 3, the state of "aab", where it should lead to the
      clone, so 'b' alone is read as if it were as long as "aab". */
  method AababAsWritten() returns (js': Js)
    ensures JsValid(js') && Get(TableOf(js'.store, 0), 'b') == Some(3)
  {
    AabaValid();
    var js := Js(AabaStore(), 5, []);
    ghost var chain, branch;
    js', chain, branch := AddAsWritten(js, 'b');
    AababChain(chain, branch);
    AababLink();
    ClonedParts(js, 'b', js', chain, branch);
    StaleAt(Walked(AabaStore(), [4], 'b'), js'.store, 5, 'b', branch);
  }

  /** The corrected builder adding 'b' to "aaba": the root's 'b' edge leads
      to the clone, state 6. */
  method AababCorrected() returns (js': Js)
    ensures JsValid(js') && Get(TableOf(js'.store, 0), 'b') == Some(6)
  {
    AabaValid();
    var js := Js(AabaStore(), 5, []);
    ghost var chain, branch;
    js', chain, branch := Add(js, 'b');
    AababChain(chain, branch);
    AababLink();
    ClonedParts(js, 'b', js', chain, branch);
    RedirectedAt(Walked(AabaStore(), [4], 'b'), js'.store, 5, 'b', branch);
  }

  /** Cloning state 3 after the first walk of that step leaves state 1
      linked to the root, whose 'b' edge leads where state 1's does. */
  lemma AababStage()
    ensures var w := Walked(AabaStore(), [4], 'b');
            var s := B.CloneStage(w, 1, 3, 6);
            && B.LinkOf(s, 1) == 0 && TableOf(s, 0) == TableOf(w, 0)
            && LinkSharesTarget(s, 'b', 1, 3)
  {
    AabaValid();
    AababLink();
    var w := Walked(AabaStore(), [4], 'b');
    var s := B.CloneStage(w, 1, 3, 6);
    assert B.LinkOf(s, 1) == 0 && TableOf(s, 0) == TableOf(w, 0) && TableOf(s, 1) == TableOf(w, 1);
    assert B.TableId(s, 0) == B.TableId(w, 0) && B.TableId(s, 1) == B.TableId(w, 1);
  }

  /** The TypeScript builder adding 'b' to "aaba": its redirecting walk
      stops where it has to, so the root's 'b' edge leads to the clone,
      state 6, as in the corrected JavaScript step. */
  method AababTypeScript() returns (b': B.SuffixAutomatonBuilder)
    ensures Valid(b'.automaton) && Get(TableOf(b'.automaton, 0), 'b') == Some(6)
  {
    AabaValid();
    ghost var chain, branch;
    b', chain, branch := B.Extend(Ts(AabaStore()), 'b');
    AababChain(chain, branch);
    var w := Walked(AabaStore(), [4], 'b');
    var s := B.CloneStage(w, 1, 3, 6);
    AababStage();
    ChainPartTarget(Ts(AabaStore()), 'b', chain, branch);
    WalkPassesLink(s, branch.rewired, 1, 'b', 3);
    assert b'.automaton.states[0] == AabaStore().states[0];
    GetSet(TableOf(w, 0), 'b', 6, 'b');
  }
}
