/** What one `Extend` step, and a whole build, leave in the history: which
    states the step creates and how its focus events pair up. */
module History {
  import opened Automaton
  import opened Builder
  import E = Events

  /** The focus and creation counts of a trace of one or more single events. */
  lemma Single(e: E.Event)
    ensures E.Focused([e]) == if e.Focus? then multiset{e.stateID} else multiset{}
    ensures E.Unfocused([e]) == if e.RemoveFocus? then multiset{e.stateID} else multiset{}
    ensures E.CreatedIds([e]) == if e.CreateNewState? || e.CreateClonedState? then [e.stateID] else []
  {
    assert [e][..0] == [];
  }

  lemma Snoc(h: seq<E.Event>, e: E.Event)
    ensures E.Focused(h + [e]) == E.Focused(h) + E.Focused([e])
    ensures E.Unfocused(h + [e]) == E.Unfocused(h) + E.Unfocused([e])
    ensures E.CreatedIds(h + [e]) == E.CreatedIds(h) + E.CreatedIds([e])
  {
    E.FocusCountsAppend(h, [e]);
    E.CreatedIdsAppend(h, [e]);
    Single(e);
  }

  /** The counts of a short literal trace are the sums over its events. */
  lemma Two(a: E.Event, b: E.Event)
    ensures E.Focused([a, b]) == E.Focused([a]) + E.Focused([b])
    ensures E.Unfocused([a, b]) == E.Unfocused([a]) + E.Unfocused([b])
    ensures E.CreatedIds([a, b]) == E.CreatedIds([a]) + E.CreatedIds([b])
  {
    assert [a, b] == [a] + [b];
    Snoc([a], b);
  }

  lemma Three(a: E.Event, b: E.Event, c: E.Event)
    ensures E.Focused([a, b, c]) == E.Focused([a]) + E.Focused([b]) + E.Focused([c])
    ensures E.Unfocused([a, b, c]) == E.Unfocused([a]) + E.Unfocused([b]) + E.Unfocused([c])
    ensures E.CreatedIds([a, b, c]) == E.CreatedIds([a]) + E.CreatedIds([b]) + E.CreatedIds([c])
  {
    assert [a, b, c] == [a, b] + [c];
    Two(a, b);
    Snoc([a, b], c);
  }

  lemma Four(a: E.Event, b: E.Event, c: E.Event, d: E.Event)
    ensures E.Focused([a, b, c, d]) == E.Focused([a]) + E.Focused([b]) + E.Focused([c]) + E.Focused([d])
    ensures E.Unfocused([a, b, c, d]) == E.Unfocused([a]) + E.Unfocused([b]) + E.Unfocused([c]) + E.Unfocused([d])
    ensures E.CreatedIds([a, b, c, d]) == E.CreatedIds([a]) + E.CreatedIds([b]) + E.CreatedIds([c]) + E.CreatedIds([d])
  {
    assert [a, b, c, d] == [a, b, c] + [d];
    Three(a, b, c);
    Snoc([a, b, c], d);
  }

  lemma Five(a: E.Event, b: E.Event, c: E.Event, d: E.Event, e: E.Event)
    ensures E.Focused([a, b, c, d, e]) == E.Focused([a]) + E.Focused([b]) + E.Focused([c]) + E.Focused([d]) + E.Focused([e])
    ensures E.Unfocused([a, b, c, d, e]) == E.Unfocused([a]) + E.Unfocused([b]) + E.Unfocused([c]) + E.Unfocused([d]) + E.Unfocused([e])
    ensures E.CreatedIds([a, b, c, d, e]) == E.CreatedIds([a]) + E.CreatedIds([b]) + E.CreatedIds([c]) + E.CreatedIds([d]) + E.CreatedIds([e])
  {
    assert [a, b, c, d, e] == [a, b, c, d] + [e];
    Four(a, b, c, d);
    Snoc([a, b, c, d], e);
  }

  /** The events of one walk step focus the state and take the focus off it. */
  lemma VisitCounts(p: nat, n: nat, c: char)
    ensures var t := [E.Focus(p), E.CreateLink(p, n, c), E.RemoveFocus(p)];
            && E.Focused(t) == multiset{p} && E.Unfocused(t) == multiset{p} && E.CreatedIds(t) == []
  {
    Three(E.Focus(p), E.CreateLink(p, n, c), E.RemoveFocus(p));
    Single(E.Focus(p));
    Single(E.CreateLink(p, n, c));
    Single(E.RemoveFocus(p));
  }

  /** Each step of the first walk focuses a state and takes the focus off
      it again, and the walk creates nothing. */
  lemma {:induction false} WalkEventsCounts(chain: seq<nat>, n: nat, c: char)
    ensures E.Focused(WalkEvents(chain, n, c)) == multiset(chain)
    ensures E.Unfocused(WalkEvents(chain, n, c)) == multiset(chain)
    ensures E.CreatedIds(WalkEvents(chain, n, c)) == []
  {
    if chain != [] {
      var prefix := chain[..|chain| - 1];
      var p := chain[|chain| - 1];
      assert chain == prefix + [p];
      var t := [E.Focus(p), E.CreateLink(p, n, c), E.RemoveFocus(p)];
      WalkEventsCounts(prefix, n, c);
      VisitCounts(p, n, c);
      E.FocusCountsAppend(WalkEvents(prefix, n, c), t);
      E.CreatedIdsAppend(WalkEvents(prefix, n, c), t);
    }
  }

  /** The rewiring only moves edges. */
  lemma {:induction false} RewireEventsQuiet(rewired: seq<nat>, q: nat, clone: nat, c: char)
    ensures forall i :: 0 <= i < |RewireEvents(rewired, q, clone, c)| ==> E.IsLinkEvent(RewireEvents(rewired, q, clone, c)[i])
  {
    if rewired != [] {
      RewireEventsQuiet(rewired[..|rewired| - 1], q, clone, c);
    }
  }

  /** The clone's own events: its creation and the copies of its table's
      edges and suffix link, which move no focus. */
  lemma CloneEventsCounts(clone: nat, source: nat, len: nat, t: Table, link: int)
    ensures var h := CloneEvents(clone, source, len, t, link);
            E.Focused(h) == multiset{} && E.Unfocused(h) == multiset{} && E.CreatedIds(h) == [clone]
  {
    var b := [E.CreateClonedState(clone, source, len)];
    var entries := EntryEvents(clone, t);
    var d := [E.CreateSuffixLink(clone, link)];
    assert CloneEvents(clone, source, len, t, link) == b + entries + d;
    EntryEventsFollowTable(clone, t);
    E.LinkEventsAreQuiet(entries);
    Single(E.CreateClonedState(clone, source, len));
    Single(E.CreateSuffixLink(clone, link));
    E.FocusCountsAppend(b, entries);
    E.CreatedIdsAppend(b, entries);
    E.FocusCountsAppend(b + entries, d);
    E.CreatedIdsAppend(b + entries, d);
  }

  /** The three events every non-exhausted branch starts with. */
  lemma LookupCounts(p: nat, q: nat)
    ensures var h := [E.Focus(p), E.RemoveFocus(p), E.Focus(q)];
            E.Focused(h) == multiset{p, q} && E.Unfocused(h) == multiset{p} && E.CreatedIds(h) == []
  {
    Three(E.Focus(p), E.RemoveFocus(p), E.Focus(q));
    Single(E.Focus(p));
    Single(E.RemoveFocus(p));
    Single(E.Focus(q));
  }

  /** `q` relinked to the clone, the focus moved from `q` to the clone. */
  lemma RelinkCounts(q: nat, link: int, clone: nat)
    ensures var h := [E.RemoveSuffixLink(q, link), E.CreateSuffixLink(q, clone), E.RemoveFocus(q), E.Focus(clone)];
            E.Focused(h) == multiset{clone} && E.Unfocused(h) == multiset{q} && E.CreatedIds(h) == []
  {
    Four(E.RemoveSuffixLink(q, link), E.CreateSuffixLink(q, clone), E.RemoveFocus(q), E.Focus(clone));
    Single(E.RemoveSuffixLink(q, link));
    Single(E.CreateSuffixLink(q, clone));
    Single(E.RemoveFocus(q));
    Single(E.Focus(clone));
  }

  /** `n` linked to the clone, the clone's focus removed. */
  lemma CloseCounts(n: nat, clone: nat)
    ensures var h := [E.CreateSuffixLink(n, clone), E.RemoveFocus(clone)];
            E.Focused(h) == multiset{} && E.Unfocused(h) == multiset{clone} && E.CreatedIds(h) == []
  {
    Two(E.CreateSuffixLink(n, clone), E.RemoveFocus(clone));
    Single(E.CreateSuffixLink(n, clone));
    Single(E.RemoveFocus(clone));
  }

  /** The counts of four traces run one after another: the clone's events,
      the relinking of `q`, the rewiring and the closing link. */
  lemma Join4(x1: seq<E.Event>, x2: seq<E.Event>, x3: seq<E.Event>, x4: seq<E.Event>, q: nat, clone: nat)
    requires E.Focused(x1) == multiset{} && E.Unfocused(x1) == multiset{} && E.CreatedIds(x1) == [clone]
    requires E.Focused(x2) == multiset{clone} && E.Unfocused(x2) == multiset{q} && E.CreatedIds(x2) == []
    requires E.Focused(x3) == multiset{} && E.Unfocused(x3) == multiset{} && E.CreatedIds(x3) == []
    requires E.Focused(x4) == multiset{} && E.Unfocused(x4) == multiset{clone} && E.CreatedIds(x4) == []
    ensures E.Focused(x1 + x2 + x3 + x4) == multiset{clone}
    ensures E.Unfocused(x1 + x2 + x3 + x4) == multiset{q} + multiset{clone}
    ensures E.CreatedIds(x1 + x2 + x3 + x4) == [clone]
  {
    E.FocusCountsAppend(x1, x2);
    E.CreatedIdsAppend(x1, x2);
    E.FocusCountsAppend(x1 + x2, x3);
    E.CreatedIdsAppend(x1 + x2, x3);
    E.FocusCountsAppend(x1 + x2 + x3, x4);
    E.CreatedIdsAppend(x1 + x2 + x3, x4);
  }

  /** From the clone's creation on, the clone branch focuses the clone and
      takes the focus off `q` and off the clone. */
  lemma CloneTailCounts(w: SuffixAutomaton, n: nat, c: char, p: nat, q: nat, rewired: seq<nat>)
    ensures var h := CloneTail(w, n, c, p, q, rewired);
            && E.Focused(h) == multiset{n + 1} && E.Unfocused(h) == multiset{q} + multiset{n + 1}
            && E.CreatedIds(h) == [n + 1]
  {
    var clone := n + 1;
    var link := LinkOf(w, q);
    var cl := CloneEvents(clone, q, LengthOf(w, p) + 1, TableOf(w, q), link);
    var g := [E.RemoveSuffixLink(q, link), E.CreateSuffixLink(q, clone), E.RemoveFocus(q), E.Focus(clone)];
    var r := RewireEvents(rewired, q, clone, c);
    var i := [E.CreateSuffixLink(n, clone), E.RemoveFocus(clone)];
    assert CloneTail(w, n, c, p, q, rewired) == cl + g + r + i;
    CloneEventsCounts(clone, q, LengthOf(w, p) + 1, TableOf(w, q), link);
    RelinkCounts(q, link, clone);
    RewireEventsQuiet(rewired, q, clone, c);
    E.LinkEventsAreQuiet(r);
    CloseCounts(n, clone);
    Join4(cl, g, r, i, q, clone);
  }

  /** Joining the three events before the clone with the clone's tail. */
  lemma JoinCloned(a: seq<E.Event>, t: seq<E.Event>, p: nat, q: nat, clone: nat)
    requires E.Focused(a) == multiset{p, q} && E.Unfocused(a) == multiset{p} && E.CreatedIds(a) == []
    requires E.Focused(t) == multiset{clone} && E.Unfocused(t) == multiset{q} + multiset{clone} && E.CreatedIds(t) == [clone]
    ensures E.Focused(a + t) == E.Unfocused(a + t) && E.CreatedIds(a + t) == [clone]
  {
    E.FocusCountsAppend(a, t);
    E.CreatedIdsAppend(a, t);
    assert multiset{p, q} + multiset{clone} == multiset{p} + (multiset{q} + multiset{clone});
  }

  /** Whatever branch a step takes, the events after the first walk take
      every focus they set off again, and only the clone branch creates a
      state (the clone, `n + 1`). */
  lemma TailCounts(w: SuffixAutomaton, n: nat, c: char, branch: Branch)
    ensures E.Focused(TailEvents(w, n, c, branch)) == E.Unfocused(TailEvents(w, n, c, branch))
    ensures E.CreatedIds(TailEvents(w, n, c, branch)) == if branch.Cloned? then [n + 1] else []
  {
    match branch
    case Exhausted =>
      Single(E.CreateSuffixLink(n, 0));
    case Found(p, q) =>
      FoundCounts(n, p, q);
    case Cloned(p, q, rewired) =>
      LookupCounts(p, q);
      CloneTailCounts(w, n, c, p, q, rewired);
      JoinCloned([E.Focus(p), E.RemoveFocus(p), E.Focus(q)], CloneTail(w, n, c, p, q, rewired), p, q, n + 1);
  }

  /** The tail of a step that found a long-enough state. */
  lemma FoundCounts(n: nat, p: nat, q: nat)
    ensures var h := [E.Focus(p), E.RemoveFocus(p), E.Focus(q), E.CreateSuffixLink(n, q), E.RemoveFocus(q)];
            E.Focused(h) == E.Unfocused(h) && E.CreatedIds(h) == []
  {
    Five(E.Focus(p), E.RemoveFocus(p), E.Focus(q), E.CreateSuffixLink(n, q), E.RemoveFocus(q));
    Single(E.Focus(p));
    Single(E.RemoveFocus(p));
    Single(E.Focus(q));
    Single(E.CreateSuffixLink(n, q));
    Single(E.RemoveFocus(q));
    assert multiset{p} + multiset{} + multiset{q} + multiset{} + multiset{} == multiset{} + multiset{p} + multiset{} + multiset{} + multiset{q};
  }

  /** Joining the start of a step, its first walk and its tail. */
  lemma JoinStep(s: seq<E.Event>, k: seq<E.Event>, t: seq<E.Event>, n: nat, chain: seq<nat>, created: seq<nat>)
    requires E.Focused(s) == multiset{n} && E.Unfocused(s) == multiset{} && E.CreatedIds(s) == [n]
    requires E.Focused(k) == multiset(chain) && E.Unfocused(k) == multiset(chain) && E.CreatedIds(k) == []
    requires E.Focused(t) == E.Unfocused(t) && E.CreatedIds(t) == created
    ensures E.Focused(s + k + t) == E.Unfocused(s + k + t) + multiset{n}
    ensures E.CreatedIds(s + k + t) == [n] + created
  {
    E.CreatedIdsAppend(s, k);
    E.CreatedIdsAppend(s + k, t);
    assert E.CreatedIds(s + k) == [n];
    E.FocusCountsAppend(s, k);
    E.FocusCountsAppend(s + k, t);
    assert E.Unfocused(s + k) == multiset(chain);
  }

  /** The ids one `Extend` step creates: the new state, then the clone. */
  function StepIds(n: nat, branch: Branch): seq<nat> {
    if branch.Cloned? then [n, n + 1] else [n]
  }

  /** One `Extend` step takes off every focus it sets except the new
      state's own, and creates the new state `n`, then the clone `n + 1`
      when it clones. */
  lemma ExtendEventsCounts(w: SuffixAutomaton, n: nat, len: nat, chain: seq<nat>, c: char, branch: Branch)
    ensures var h := ExtendEvents(w, n, len, chain, c, branch);
            && E.Focused(h) == E.Unfocused(h) + multiset{n}
            && E.CreatedIds(h) == StepIds(n, branch)
  {
    var s := [E.CreateNewState(n, len), E.Focus(n)];
    HeadCounts(n, len);
    WalkEventsCounts(chain, n, c);
    TailCounts(w, n, c, branch);
    JoinStep(s, WalkEvents(chain, n, c), TailEvents(w, n, c, branch), n, chain,
             if branch.Cloned? then [n + 1] else []);
  }

  /** The start of a step: the new state and its focus. */
  lemma HeadCounts(n: nat, len: nat)
    ensures var s := [E.CreateNewState(n, len), E.Focus(n)];
            E.Focused(s) == multiset{n} && E.Unfocused(s) == multiset{} && E.CreatedIds(s) == [n]
  {
    Two(E.CreateNewState(n, len), E.Focus(n));
    Single(E.CreateNewState(n, len));
    Single(E.Focus(n));
  }

  /** The ids `0 .. k - 1` in order. */
  function Upto(k: nat): (r: seq<nat>)
    ensures |r| == k && forall i :: 0 <= i < k ==> r[i] == i
  {
    seq(k, i requires 0 <= i => i)
  }

  /** What one `Extend` step does to the store: the new last state is one
      longer than the old one, and the store grows by two states when the
      step clones and by one otherwise. These facts follow directly from
      `ExtendSpec`; the lemma collects them for the history proofs. */
  lemma ExtendGrowth(b: SuffixAutomatonBuilder, c: char, b': SuffixAutomatonBuilder, chain: seq<nat>, branch: Branch)
    requires Valid(b.automaton) && StorePart(b, c, b', chain, branch)
    ensures var n := |b.automaton.states|;
            && |b'.automaton.states| == n + |StepIds(n, branch)|
            && b'.automaton.last == n
            && b'.automaton.states[n].maxLength == b.automaton.states[b.automaton.last].maxLength + 1
  {
  }

  /** A step keeps the length of every state it found: only suffix links
      of old states change. It follows directly from `StorePart`. */
  lemma ExtendKeepsLengths(b: SuffixAutomatonBuilder, c: char, b': SuffixAutomatonBuilder, chain: seq<nat>, branch: Branch)
    requires Valid(b.automaton) && StorePart(b, c, b', chain, branch)
    ensures forall i :: 0 <= i < |b.automaton.states| ==> b'.automaton.states[i].maxLength == b.automaton.states[i].maxLength
  {
  }

  /** Appending the events of a step that leaves only `n` in focus. */
  lemma AppendStep(h: seq<E.Event>, d: seq<E.Event>, h': seq<E.Event>, n: nat, created: seq<nat>)
    requires h' == h + d
    requires E.Focused(d) == E.Unfocused(d) + multiset{n} && E.CreatedIds(d) == created
    ensures |h| <= |h'| && h'[..|h|] == h
    ensures E.CreatedIds(h') == E.CreatedIds(h) + created
    ensures E.Focused(h') + E.Unfocused(h) == E.Focused(h) + E.Unfocused(h') + multiset{n}
  {
    assert h'[..|h|] == h;
    E.FocusCountsAppend(h, d);
    E.CreatedIdsAppend(h, d);
  }

  /** What one `Extend` step adds to the history: the old history stays a
      prefix; the step creates the new state and, when it clones, the clone,
      in index order; and it takes off every focus it sets except the new
      state's. */
  lemma ExtendTrace(b: SuffixAutomatonBuilder, c: char, b': SuffixAutomatonBuilder, chain: seq<nat>, branch: Branch)
    requires Valid(b.automaton) && TracePart(b, c, b', chain, branch)
    ensures |b.history| <= |b'.history| && b'.history[..|b.history|] == b.history
    ensures var n := |b.automaton.states|;
            && E.CreatedIds(b'.history) == E.CreatedIds(b.history) + StepIds(n, branch)
            && E.Focused(b'.history) + E.Unfocused(b.history) == E.Focused(b.history) + E.Unfocused(b'.history) + multiset{n}
  {
    var a := b.automaton;
    var n := |a.states|;
    var len := a.states[a.last].maxLength + 1;
    var w := WithEdges(WithNewState(a, len), chain, c, n);
    ExtendEventsCounts(w, n, len, chain, c, branch);
    AppendStep(b.history, ExtendEvents(w, n, len, chain, c, branch), b'.history, n,
               StepIds(n, branch));
  }

  /** The history of building the automaton of `word` one symbol at a time,
      with the builder it leaves: the last state is as long as the word,
      every symbol adds one or two states, the history starts with the
      root's creation and creates each state exactly once in index order,
      and every focus it sets is taken off again except one per symbol, on
      the state that symbol created: `news[k]`, of length `k + 1`, created
      after `news[k - 1]`, and the last of them is `last`. */
  method BuildHistory(word: string) returns (h: seq<E.Event>, b: SuffixAutomatonBuilder, ghost news: seq<nat>)
    ensures h == b.history && Valid(b.automaton)
    ensures b.automaton.states[b.automaton.last].maxLength == |word|
    ensures |word| + 1 <= |b.automaton.states| <= 2 * |word| + 1
    ensures |h| >= 1 && h[0] == E.CreateNewState(0, 0)
    ensures E.CreatedIds(h) == Upto(|b.automaton.states|)
    ensures |news| == |word| && E.Focused(h) == E.Unfocused(h) + multiset(news)
    ensures forall k :: 0 <= k < |news| ==> news[k] < |b.automaton.states| && b.automaton.states[news[k]].maxLength == k + 1
    ensures forall k, j :: 0 <= k < j < |news| ==> news[k] < news[j]
    ensures |news| > 0 ==> news[|news| - 1] == b.automaton.last
  {
    b := NewBuilder();
    news := [];
    var i := 0;
    while i < |word|
      invariant 0 <= i <= |word|
      invariant Valid(b.automaton)
      invariant b.automaton.states[b.automaton.last].maxLength == i
      invariant i + 1 <= |b.automaton.states| <= 2 * i + 1
      invariant |b.history| >= 1 && b.history[0] == E.CreateNewState(0, 0)
      invariant E.CreatedIds(b.history) == Upto(|b.automaton.states|)
      invariant |news| == i && E.Focused(b.history) == E.Unfocused(b.history) + multiset(news)
      invariant forall k :: 0 <= k < i ==> news[k] < |b.automaton.states| && b.automaton.states[news[k]].maxLength == k + 1
      invariant forall k, j :: 0 <= k < j < i ==> news[k] < news[j]
      invariant i > 0 ==> news[i - 1] == b.automaton.last
    {
      ghost var n: nat := |b.automaton.states|;
      ghost var a := b.automaton;
      b := ExtendCounted(b, word[i], news);
      NewsStep(news, a, b.automaton, news + [n]);
      news, i := news + [n], i + 1;
    }
    h := b.history;
  }

  /** The states `BuildHistory` records as each symbol's, one step on: the
      step's new state `n`, one longer than the last, joins them, and the
      old ones keep their lengths. */
  lemma NewsStep(news: seq<nat>, a: SuffixAutomaton, a': SuffixAutomaton, news': seq<nat>)
    requires forall k :: 0 <= k < |news| ==> news[k] < |a.states| && a.states[news[k]].maxLength == k + 1
    requires forall k, j :: 0 <= k < j < |news| ==> news[k] < news[j]
    requires |a.states| < |a'.states| && a'.states[|a.states|].maxLength == |news| + 1
    requires forall x :: 0 <= x < |a.states| ==> a'.states[x].maxLength == a.states[x].maxLength
    requires news' == news + [|a.states|]
    ensures forall k :: 0 <= k < |news'| ==> news'[k] < |a'.states| && a'.states[news'[k]].maxLength == k + 1
    ensures forall k, j :: 0 <= k < j < |news'| ==> news'[k] < news'[j]
  {
  }

  /** One `Extend` step with its effect on the counts `BuildHistory` keeps:
      the new last state `n` is one longer than the old, the store grows by
      one or two states, the ids created stay `0, 1, 2, ...` in order, and
      the focus surplus gains `n`. */
  method ExtendCounted(b: SuffixAutomatonBuilder, c: char, ghost news: seq<nat>) returns (b': SuffixAutomatonBuilder)
    requires Valid(b.automaton)
    requires E.CreatedIds(b.history) == Upto(|b.automaton.states|)
    requires E.Focused(b.history) == E.Unfocused(b.history) + multiset(news)
    ensures Valid(b'.automaton)
    ensures var n := |b.automaton.states|;
            && b'.automaton.last == n
            && b'.automaton.states[n].maxLength == b.automaton.states[b.automaton.last].maxLength + 1
            && n + 1 <= |b'.automaton.states| <= n + 2
            && E.CreatedIds(b'.history) == Upto(|b'.automaton.states|)
            && E.Focused(b'.history) == E.Unfocused(b'.history) + multiset(news + [n])
    ensures forall i :: 0 <= i < |b.automaton.states| ==> b'.automaton.states[i].maxLength == b.automaton.states[i].maxLength
    ensures |b.history| <= |b'.history| && b'.history[..|b.history|] == b.history
  {
    ghost var chain, branch;
    b', chain, branch := Extend(b, c);
    ExtendGrowth(b, c, b', chain, branch);
    ExtendKeepsLengths(b, c, b', chain, branch);
    ExtendTrace(b, c, b', chain, branch);
    StepKeepsCounts(b.history, b'.history, |b.automaton.states|, branch, news);
  }

  /** The loop step of `BuildHistory` for the counts: created ids stay the
      ids in order and the focus surplus gains the new state. */
  lemma StepKeepsCounts(h: seq<E.Event>, h': seq<E.Event>, n: nat, branch: Branch, news: seq<nat>)
    requires E.CreatedIds(h) == Upto(n)
    requires E.Focused(h) == E.Unfocused(h) + multiset(news)
    requires E.CreatedIds(h') == E.CreatedIds(h) + StepIds(n, branch)
    requires E.Focused(h') + E.Unfocused(h) == E.Focused(h) + E.Unfocused(h') + multiset{n}
    ensures E.CreatedIds(h') == Upto(n + |StepIds(n, branch)|)
    ensures E.Focused(h') == E.Unfocused(h') + multiset(news + [n])
  {
    UptoGrows(n, StepIds(n, branch));
    Surplus(E.Focused(h'), E.Unfocused(h), E.Focused(h), E.Unfocused(h'), multiset(news), n);
    assert multiset(news + [n]) == multiset(news) + multiset{n};
  }

  lemma UptoGrows(n: nat, ids: seq<nat>)
    requires forall k :: 0 <= k < |ids| ==> ids[k] == n + k
    ensures Upto(n) + ids == Upto(n + |ids|)
  {
    var l, r := Upto(n) + ids, Upto(n + |ids|);
    assert forall k :: 0 <= k < |l| ==> l[k] == r[k];
  }

  /** Cancelling the old counts: `f' + u == f + u' + {n}` and `f == u + m`
      give `f' == u' + m + {n}`. */
  lemma Surplus(f': multiset<nat>, u: multiset<nat>, f: multiset<nat>, u': multiset<nat>, m: multiset<nat>, n: nat)
    requires f' + u == f + u' + multiset{n} && f == u + m
    ensures f' == u' + (m + multiset{n})
  {
    forall x
      ensures f'[x] == (u' + (m + multiset{n}))[x]
    {
      assert (f' + u)[x] == (f + u' + multiset{n})[x];
    }
  }
}
