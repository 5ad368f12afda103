/** The construction trace of the TypeScript builder. Each kind of event
    carries exactly the attributes that kind needs; in the source every
    attribute is optional, so the datatype is what fixes them. Targets are
    integers because a suffix-link event can name the absent link -1. */
module Events {

  datatype Event =
    | CreateNewState(stateID: nat, depth: nat)
    | CreateClonedState(stateID: nat, source: nat, depth: nat)
    | CreateLink(source: nat, target: int, symbol: char)
    | RemoveLink(source: nat, target: int)
    | CreateSuffixLink(source: nat, target: int)
    | RemoveSuffixLink(source: nat, target: int)
    | Focus(stateID: nat)
    | RemoveFocus(stateID: nat)

  /** The states a trace puts into focus, with multiplicity. */
  function Focused(h: seq<Event>): multiset<nat> {
    if h == [] then multiset{}
    else
      var e := h[|h| - 1];
      Focused(h[..|h| - 1]) + (if e.Focus? then multiset{e.stateID} else multiset{})
  }

  /** The states a trace takes out of focus, with multiplicity. */
  function Unfocused(h: seq<Event>): multiset<nat> {
    if h == [] then multiset{}
    else
      var e := h[|h| - 1];
      Unfocused(h[..|h| - 1]) + (if e.RemoveFocus? then multiset{e.stateID} else multiset{})
  }

  lemma {:induction false} FocusCountsAppend(a: seq<Event>, b: seq<Event>)
    ensures Focused(a + b) == Focused(a) + Focused(b)
    ensures Unfocused(a + b) == Unfocused(a) + Unfocused(b)
  {
    if b != [] {
      var k := |b| - 1;
      assert (a + b)[..|a + b| - 1] == a + b[..k];
      FocusCountsAppend(a, b[..k]);
    } else {
      assert a + b == a;
    }
  }

  /** The states a trace creates (fresh or cloned), in creation order. */
  function CreatedIds(h: seq<Event>): seq<nat> {
    if h == [] then []
    else
      var e := h[|h| - 1];
      CreatedIds(h[..|h| - 1])
        + (if e.CreateNewState? || e.CreateClonedState? then [e.stateID] else [])
  }

  lemma {:induction false} CreatedIdsAppend(a: seq<Event>, b: seq<Event>)
    ensures CreatedIds(a + b) == CreatedIds(a) + CreatedIds(b)
  {
    if b != [] {
      var k := |b| - 1;
      assert (a + b)[..|a + b| - 1] == a + b[..k];
      CreatedIdsAppend(a, b[..k]);
    } else {
      assert a + b == a;
    }
  }

  /** Events that only add or remove edges: they neither create a state nor
      move the focus. */
  predicate IsLinkEvent(e: Event) {
    e.CreateLink? || e.RemoveLink? || e.CreateSuffixLink? || e.RemoveSuffixLink?
  }

  lemma {:induction false} LinkEventsAreQuiet(h: seq<Event>)
    requires forall i :: 0 <= i < |h| ==> IsLinkEvent(h[i])
    ensures Focused(h) == multiset{} && Unfocused(h) == multiset{}
    ensures CreatedIds(h) == []
  {
    if h != [] {
      LinkEventsAreQuiet(h[..|h| - 1]);
    }
  }
}
