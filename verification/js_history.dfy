/** What one `add` of the older JavaScript builder, and a whole `build`,
    leave in `hist`: every focus is taken off again, and the nodes and
    clones are created in index order. */
module JsHistory {
  import opened Automaton
  import B = Builder
  import E = Events
  import H = History
  import opened JsEvents
  import opened JsBuilder

  /** The focus and creation counts of a record list. */
  datatype Tally = Tally(focused: multiset<nat>, unfocused: multiset<nat>, created: seq<nat>)

  function TallyOf(h: seq<JsEvent>): Tally {
    Tally(Focused(h), Unfocused(h), Created(h))
  }

  function Plus(x: Tally, y: Tally): Tally {
    Tally(x.focused + y.focused, x.unfocused + y.unfocused, x.created + y.created)
  }

  const Quiet := Tally(multiset{}, multiset{}, [])

  lemma TallyAppend(a: seq<JsEvent>, b: seq<JsEvent>)
    ensures TallyOf(a + b) == Plus(TallyOf(a), TallyOf(b))
  {
    FocusAppend(a, b);
    CreatedAppend(a, b);
  }

  lemma TallySingle(e: JsEvent)
    ensures TallyOf([e]) == Tally(if e.Focus? then multiset{e.stateID} else multiset{},
                                  if e.RemoveFocus? then multiset{e.stateID} else multiset{},
                                  if e.CreateNode? || e.CreateClone? then [e.stateID] else [])
  {
    assert [e][..0] == [];
    assert Focused([e]) == Focused([]) + (if e.Focus? then multiset{e.stateID} else multiset{});
    assert Unfocused([e]) == Unfocused([]) + (if e.RemoveFocus? then multiset{e.stateID} else multiset{});
    assert Created([e]) == Created([]) + (if e.CreateNode? || e.CreateClone? then [e.stateID] else []);
  }

  /** A record list counts as the TypeScript events it translates. */
  lemma TallyTranslate(h: seq<E.Event>)
    ensures TallyOf(Translate(h)) == Tally(E.Focused(h), E.Unfocused(h), E.CreatedIds(h))
  {
    TranslateKeepsFocus(h);
    TranslateKeepsCreated(h);
  }

  /** A record list in brackets of `x` focuses `x` once more and takes the
      focus off it once more. */
  lemma TallyBracket(x: nat, mid: seq<JsEvent>)
    ensures TallyOf(Bracket(x, mid)) == Plus(TallyOf(mid), Tally(multiset{x}, multiset{x}, []))
  {
    TallyAppend([Focus(x)], mid);
    TallyAppend([Focus(x)] + mid, [RemoveFocus(x)]);
    TallySingle(Focus(x));
    TallySingle(RemoveFocus(x));
  }

  /** Records that only add or remove links count nothing. */
  lemma TallyLinks(h: seq<E.Event>)
    requires forall i :: 0 <= i < |h| ==> E.IsLinkEvent(h[i])
    ensures TallyOf(Translate(h)) == Quiet
  {
    E.LinkEventsAreQuiet(h);
    TallyTranslate(h);
  }

  /** The clone and its suffix link. */
  lemma CloneHeadTally(clone: nat, q: nat, link: int)
    ensures TallyOf([CreateClone(clone, q), CreateSuffixLink(clone, link)]) == Tally(multiset{}, multiset{}, [clone])
  {
    assert [CreateClone(clone, q), CreateSuffixLink(clone, link)] == [CreateClone(clone, q)] + [CreateSuffixLink(clone, link)];
    TallyAppend([CreateClone(clone, q)], [CreateSuffixLink(clone, link)]);
    TallySingle(CreateClone(clone, q));
    TallySingle(CreateSuffixLink(clone, link));
  }

  /** `q`'s suffix link moved to the clone, and `n`'s set to it. */
  lemma RelinkTally(q: nat, n: nat, clone: nat, link: int)
    ensures TallyOf([RemoveSuffixLink(q, link), CreateSuffixLink(q, clone), CreateSuffixLink(n, clone)]) == Quiet
  {
    var a, b, d := RemoveSuffixLink(q, link), CreateSuffixLink(q, clone), CreateSuffixLink(n, clone);
    assert [a, b, d] == [a] + [b] + [d];
    TallyAppend([a], [b]);
    TallyAppend([a] + [b], [d]);
    TallySingle(a);
    TallySingle(b);
    TallySingle(d);
  }

  /** The records of the clone branch from the clone's creation on create
      the clone and nothing else, and take off every focus they set. */
  lemma CloneEventsTally(w: SuffixAutomaton, n: nat, c: char, q: nat, rewired: seq<nat>)
    ensures var t := TallyOf(CloneEvents(w, n, c, q, rewired));
            t.focused == t.unfocused && t.created == [n + 1]
  {
    var clone := n + 1;
    var link := B.LinkOf(w, q);
    var head := [CreateClone(clone, q), CreateSuffixLink(clone, link)];
    var entries := Translate(B.EntryEvents(clone, TableOf(w, q)));
    var moves := Translate(B.RewireEvents(rewired, q, clone, c));
    var links := [RemoveSuffixLink(q, link), CreateSuffixLink(q, clone), CreateSuffixLink(n, clone)];
    CloneHeadTally(clone, q, link);
    B.EntryEventsFollowTable(clone, TableOf(w, q));
    TallyLinks(B.EntryEvents(clone, TableOf(w, q)));
    H.RewireEventsQuiet(rewired, q, clone, c);
    TallyLinks(B.RewireEvents(rewired, q, clone, c));
    RelinkTally(q, n, clone, link);
    TallyAppend(moves, links);
    TallyBracket(clone, moves + links);
    TallyAppend(head, entries);
    TallyAppend(head + entries, Bracket(clone, moves + links));
  }

  /** Balanced, creating what `created` lists. */
  predicate Counts(h: seq<JsEvent>, created: seq<nat>) {
    Balanced(h) && Created(h) == created
  }

  lemma ExhaustedTally(n: nat)
    ensures Counts(Bracket(0, [CreateSuffixLink(n, 0)]), [])
  {
    TallySingle(CreateSuffixLink(n, 0));
    TallyBracket(0, [CreateSuffixLink(n, 0)]);
  }

  lemma FoundTally(n: nat, p: nat, q: nat)
    ensures Counts(Bracket(p, []) + Bracket(q, [CreateSuffixLink(n, q)]), [])
  {
    assert TallyOf([]) == Quiet;
    TallyBracket(p, []);
    TallySingle(CreateSuffixLink(n, q));
    TallyBracket(q, [CreateSuffixLink(n, q)]);
    TallyAppend(Bracket(p, []), Bracket(q, [CreateSuffixLink(n, q)]));
  }

  lemma ClonedTally(w: SuffixAutomaton, n: nat, c: char, p: nat, q: nat, rewired: seq<nat>)
    ensures Counts(Bracket(p, []) + Bracket(q, []) + CloneEvents(w, n, c, q, rewired), [n + 1])
  {
    assert TallyOf([]) == Quiet;
    TallyBracket(p, []);
    TallyBracket(q, []);
    CloneEventsTally(w, n, c, q, rewired);
    TallyAppend(Bracket(p, []), Bracket(q, []));
    TallyAppend(Bracket(p, []) + Bracket(q, []), CloneEvents(w, n, c, q, rewired));
  }

  /** The records of a step made of the node, its focus, records that
      count nothing but focus pairs, and its removal. */
  lemma StepTally(n: nat, walk: seq<JsEvent>, tail: seq<JsEvent>, created: seq<nat>)
    requires Counts(walk, []) && Counts(tail, created)
    ensures Counts([CreateNode(n)] + Bracket(n, walk + tail), [n] + created)
  {
    TallyAppend(walk, tail);
    TallyBracket(n, walk + tail);
    TallySingle(CreateNode(n));
    TallyAppend([CreateNode(n)], Bracket(n, walk + tail));
  }

  /** The first walk's records count nothing but focus pairs. */
  lemma WalkTally(chain: seq<nat>, n: nat, c: char)
    ensures Counts(Translate(B.WalkEvents(chain, n, c)), [])
  {
    H.WalkEventsCounts(chain, n, c);
    TallyTranslate(B.WalkEvents(chain, n, c));
  }

  /** One `add` takes off every focus it sets, and creates the new node `n`,
      then the clone `n + 1` when it clones. */
  lemma AddEventsTally(w: SuffixAutomaton, n: nat, chain: seq<nat>, c: char, branch: B.Branch)
    ensures Counts(AddEvents(w, n, chain, c, branch), H.StepIds(n, branch))
  {
    WalkTally(chain, n, c);
    var walk := Translate(B.WalkEvents(chain, n, c));
    match branch
    case Exhausted =>
      ExhaustedTally(n);
      StepTally(n, walk, Bracket(0, [CreateSuffixLink(n, 0)]), []);
    case Found(p, q) =>
      FoundTally(n, p, q);
      StepTally(n, walk, Bracket(p, []) + Bracket(q, [CreateSuffixLink(n, q)]), []);
    case Cloned(p, q, rewired) =>
      ClonedTally(w, n, c, p, q, rewired);
      StepTally(n, walk, Bracket(p, []) + Bracket(q, []) + CloneEvents(w, n, c, q, rewired), [n + 1]);
  }

  /** What one `add` does to the store's size and its last state: the new
      last state `n` is one longer than the old one, and the store grows by
      two states when the step clones and by one otherwise. */
  lemma AddGrowth(js: Js, c: char, js': Js, chain: seq<nat>, branch: B.Branch)
    requires JsValid(js) && AddSpec(js, c, js', chain, branch)
    ensures var n := |js.store.states|;
            && |js'.store.states| == n + |H.StepIds(n, branch)|
            && js'.store.last == n
            && js'.store.states[n].maxLength == js.store.states[js.store.last].maxLength + 1
  {
    var n := |js.store.states|;
    var w := Walked(js.store, chain, c);
    assert Linked(w, js'.store, n, c, branch);
    assert w.states[n].maxLength == js.store.states[js.store.last].maxLength + 1;
  }

  /** What one `add` does to `hist`: the old records stay a prefix, the
      step creates `n` and, when it clones, `n + 1`, and a balanced `hist`
      stays balanced. */
  lemma AddTrace(js: Js, c: char, js': Js, chain: seq<nat>, branch: B.Branch)
    requires JsValid(js) && AddSpec(js, c, js', chain, branch)
    ensures |js.hist| <= |js'.hist| && js'.hist[..|js.hist|] == js.hist
    ensures Created(js'.hist) == Created(js.hist) + H.StepIds(|js.store.states|, branch)
    ensures Balanced(js.hist) ==> Balanced(js'.hist)
  {
    var n := |js.store.states|;
    var d := AddEvents(Walked(js.store, chain, c), n, chain, c, branch);
    assert js'.hist == js.hist + d;
    AddEventsTally(Walked(js.store, chain, c), n, chain, c, branch);
    assert Balanced(d) && Created(d) == H.StepIds(n, branch);
    CreatedAppend(js.hist, d);
    if Balanced(js.hist) {
      BalancedAppend(js.hist, d);
    }
  }

  /** The counts `Build` keeps, carried over one step that creates `n`,
      then `n + 1` when it clones. */
  lemma StepCounts(h: seq<JsEvent>, h': seq<JsEvent>, n: nat, size': nat, branch: B.Branch)
    requires Created(h) == H.Upto(n) && Balanced(h)
    requires Created(h') == Created(h) + H.StepIds(n, branch) && (Balanced(h) ==> Balanced(h'))
    requires size' == n + |H.StepIds(n, branch)|
    ensures n + 1 <= size' <= n + 2 && Created(h') == H.Upto(size') && Balanced(h')
  {
    H.UptoGrows(n, H.StepIds(n, branch));
  }

  /** One `add`, as written or corrected, with its effect on the counts
      `Build` keeps. */
  method AddCounted(js: Js, c: char, asWritten: bool) returns (js': Js)
    requires JsValid(js) && Created(js.hist) == H.Upto(|js.store.states|) && Balanced(js.hist)
    ensures JsValid(js')
    ensures var n := |js.store.states|;
            && js'.store.last == n
            && js'.store.states[n].maxLength == js.store.states[js.store.last].maxLength + 1
            && n + 1 <= |js'.store.states| <= n + 2
            && Created(js'.hist) == H.Upto(|js'.store.states|)
            && Balanced(js'.hist)
    ensures |js.hist| <= |js'.hist| && js'.hist[..|js.hist|] == js.hist
  {
    ghost var chain, branch;
    if asWritten {
      js', chain, branch := AddAsWritten(js, c);
    } else {
      js', chain, branch := Add(js, c);
    }
    AddGrowth(js, c, js', chain, branch);
    AddTrace(js, c, js', chain, branch);
    StepCounts(js.hist, js'.hist, |js.store.states|, |js'.store.states|, branch);
  }

  /** `build(s)`: `init`, then one `add` per character, as written or
      corrected. Either way the last state is as long as the word, the store
      holds between `|word| + 1` and `2|word| + 1` states, `hist` creates
      `0, 1, 2, ...` in order, and every focus it sets is taken off again. */
  method Build(word: string, asWritten: bool) returns (js: Js)
    ensures JsValid(js) && js.store.states[js.store.last].maxLength == |word|
    ensures |word| + 1 <= |js.store.states| <= 2 * |word| + 1
    ensures |js.hist| >= 1 && js.hist[0] == CreateNode(0)
    ensures Created(js.hist) == H.Upto(|js.store.states|)
    ensures Balanced(js.hist)
  {
    js := Init();
    TallySingle(CreateNode(0));
    assert H.Upto(1) == [0];
    var i := 0;
    while i < |word|
      invariant 0 <= i <= |word| && JsValid(js)
      invariant js.store.states[js.store.last].maxLength == i
      invariant i + 1 <= |js.store.states| <= 2 * i + 1
      invariant |js.hist| >= 1 && js.hist[0] == CreateNode(0)
      invariant Created(js.hist) == H.Upto(|js.store.states|)
      invariant Balanced(js.hist)
    {
      js := AddCounted(js, word[i], asWritten);
      i := i + 1;
    }
  }
}
