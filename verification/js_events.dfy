/** The `hist` records of the older JavaScript builder. They carry the same
    information as the TypeScript events minus the depths: a created node
    or clone names only itself (and, for a clone, its source). The free-text
    `info` attribute some records carry is not modelled. */
module JsEvents {
  import E = Events

  datatype JsEvent =
    | CreateNode(stateID: nat)
    | CreateClone(stateID: nat, source: nat)
    | Focus(stateID: nat)
    | RemoveFocus(stateID: nat)
    | CreateLink(source: nat, target: int, symbol: char)
    | RemoveLink(source: nat, target: int)
    | CreateSuffixLink(source: nat, target: int)
    | RemoveSuffixLink(source: nat, target: int)

  /** The record the JavaScript builder pushes where the TypeScript builder
      logs `e`. */
  function FromTs(e: E.Event): JsEvent {
    match e
    case CreateNewState(id, _) => CreateNode(id)
    case CreateClonedState(id, source, _) => CreateClone(id, source)
    case CreateLink(source, target, symbol) => CreateLink(source, target, symbol)
    case RemoveLink(source, target) => RemoveLink(source, target)
    case CreateSuffixLink(source, target) => CreateSuffixLink(source, target)
    case RemoveSuffixLink(source, target) => RemoveSuffixLink(source, target)
    case Focus(id) => Focus(id)
    case RemoveFocus(id) => RemoveFocus(id)
  }

  function Translate(h: seq<E.Event>): (r: seq<JsEvent>)
    ensures |r| == |h|
  {
    if h == [] then [] else Translate(h[..|h| - 1]) + [FromTs(h[|h| - 1])]
  }

  lemma {:induction false} TranslateAppend(a: seq<E.Event>, b: seq<E.Event>)
    ensures Translate(a + b) == Translate(a) + Translate(b)
  {
    if b != [] {
      var k := |b| - 1;
      assert (a + b)[..|a + b| - 1] == a + b[..k];
      TranslateAppend(a, b[..k]);
    } else {
      assert a + b == a;
    }
  }

  /** The states a record list puts into focus, with multiplicity. */
  function Focused(h: seq<JsEvent>): multiset<nat> {
    if h == [] then multiset{}
    else
      var e := h[|h| - 1];
      Focused(h[..|h| - 1]) + (if e.Focus? then multiset{e.stateID} else multiset{})
  }

  /** The states a record list takes out of focus, with multiplicity. */
  function Unfocused(h: seq<JsEvent>): multiset<nat> {
    if h == [] then multiset{}
    else
      var e := h[|h| - 1];
      Unfocused(h[..|h| - 1]) + (if e.RemoveFocus? then multiset{e.stateID} else multiset{})
  }

  /** The nodes and clones a record list creates, in order. */
  function Created(h: seq<JsEvent>): seq<nat> {
    if h == [] then []
    else
      var e := h[|h| - 1];
      Created(h[..|h| - 1]) + (if e.CreateNode? || e.CreateClone? then [e.stateID] else [])
  }

  lemma {:induction false} FocusAppend(a: seq<JsEvent>, b: seq<JsEvent>)
    ensures Focused(a + b) == Focused(a) + Focused(b)
    ensures Unfocused(a + b) == Unfocused(a) + Unfocused(b)
  {
    if b != [] {
      var k := |b| - 1;
      assert (a + b)[..|a + b| - 1] == a + b[..k];
      FocusAppend(a, b[..k]);
    } else {
      assert a + b == a;
    }
  }

  lemma {:induction false} CreatedAppend(a: seq<JsEvent>, b: seq<JsEvent>)
    ensures Created(a + b) == Created(a) + Created(b)
  {
    if b != [] {
      var k := |b| - 1;
      assert (a + b)[..|a + b| - 1] == a + b[..k];
      CreatedAppend(a, b[..k]);
    } else {
      assert a + b == a;
    }
  }

  /** Translation keeps focus: the JavaScript records focus and unfocus
      exactly the states the TypeScript events do. */
  lemma {:induction false} TranslateKeepsFocus(h: seq<E.Event>)
    ensures Focused(Translate(h)) == E.Focused(h)
    ensures Unfocused(Translate(h)) == E.Unfocused(h)
  {
    if h != [] {
      var t := Translate(h);
      TranslateKeepsFocus(h[..|h| - 1]);
      assert t[..|t| - 1] == Translate(h[..|h| - 1]);
    }
  }

  /** Translation keeps creation: the JavaScript records create exactly the
      states the TypeScript events do, in the same order. */
  lemma {:induction false} TranslateKeepsCreated(h: seq<E.Event>)
    ensures Created(Translate(h)) == E.CreatedIds(h)
  {
    if h != [] {
      TranslateKeepsCreated(h[..|h| - 1]);
    }
  }

  /** Every focus set is taken off again. */
  predicate Balanced(h: seq<JsEvent>) {
    Focused(h) == Unfocused(h)
  }

  lemma BalancedAppend(a: seq<JsEvent>, b: seq<JsEvent>)
    requires Balanced(a) && Balanced(b)
    ensures Balanced(a + b)
  {
    FocusAppend(a, b);
  }
}
