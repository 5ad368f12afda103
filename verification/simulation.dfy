/** The replayer's bookkeeping: the node list and link list it rebuilds from
    a builder's events, one event at a time. The pure list updates are
    modelled, and of the redrawing after each event only the one way it can
    fail: the link force looks up both ends of every link by position in the
    node list, and throws when there is no node there. */
module Simulation {
  import opened Wrappers
  import opened Decimal
  import E = Events
  import H = History

  /** A drawn state: its id is the state's index as text. */
  datatype Node = Node(id: string, depth: nat, focus: bool)

  datatype LinkType = Transition | SuffixLink

  /** A drawn edge; only transitions carry a label. */
  datatype Link = Link(id: string, source: nat, target: int, kind: LinkType, symbol: Option<char>)

  datatype Sim = Sim(nodes: seq<Node>, links: seq<Link>)

  /** A focus event for a position past the end of the node list (the
      array access finds no node there), or a new link with an end that is
      not a position in the node list (the link force finds no node for it
      when the step redraws). */
  datatype StepError = NoNode(stateID: nat) | NoEnd(source: nat, target: int)

  predicate Creates(e: E.Event) {
    e.CreateNewState? || e.CreateClonedState?
  }

  predicate Adds(e: E.Event) {
    e.CreateLink? || e.CreateSuffixLink?
  }

  predicate Removes(e: E.Event) {
    e.RemoveLink? || e.RemoveSuffixLink?
  }

  predicate Moves(e: E.Event) {
    e.Focus? || e.RemoveFocus?
  }

  /** The nodes `e` names are among the first `m`: the state of a focus
      event, and both ends of a link creation, a link target being at least
      `lowest`. The replayer needs `lowest == 0`; a builder that emits a
      suffix link to -1 (no state) only meets `lowest == -1`. */
  predicate EndsWithin(e: E.Event, m: nat, lowest: int) {
    && (Moves(e) ==> e.stateID < m)
    && (Adds(e) ==> e.source < m && lowest <= e.target < m)
  }

  /** The lists the replayer starts from. */
  const Empty := Sim([], [])

  /** `Clean` drops every node and every link. */
  function Clean(s: Sim): (r: Sim)
    ensures r.nodes == [] && r.links == []
  {
    Empty
  }

  /** The links of `links` whose id is not `id`, in their order. */
  function Without(links: seq<Link>, id: string): (r: seq<Link>)
    ensures |r| <= |links|
  {
    if links == [] then []
    else
      var l := links[|links| - 1];
      Without(links[..|links| - 1], id) + (if l.id == id then [] else [l])
  }

  /** What removal keeps: exactly the links with another id. */
  lemma {:induction false} WithoutMembers(links: seq<Link>, id: string)
    ensures forall l :: l in Without(links, id) <==> l in links && l.id != id
  {
    if links != [] {
      var k := |links| - 1;
      WithoutMembers(links[..k], id);
      assert links == links[..k] + [links[k]];
    }
  }

  /** A creation appends one node, named by the state's index, with the
      event's depth and focus off; the links stay. */
  function AddNode(s: Sim, id: nat, depth: nat): (r: Sim)
    ensures r.links == s.links
    ensures |r.nodes| == |s.nodes| + 1 && r.nodes[..|s.nodes|] == s.nodes
    ensures AllDigits(r.nodes[|s.nodes|].id) && ParseNat(r.nodes[|s.nodes|].id) == id
    ensures r.nodes[|s.nodes|].depth == depth && !r.nodes[|s.nodes|].focus
  {
    ParseNatToString(id);
    Sim(s.nodes + [Node(NatToString(id), depth, false)], s.links)
  }

  /** A link creation appends one link whose id reads back as its two
      ends; only a transition is labelled. The nodes stay. */
  function AddLink(s: Sim, source: nat, target: int, kind: LinkType, symbol: Option<char>): (r: Sim)
    requires symbol.Some? <==> kind == Transition
    ensures r.nodes == s.nodes
    ensures |r.links| == |s.links| + 1 && r.links[..|s.links|] == s.links
    ensures var l := r.links[|s.links|];
            && SplitLinkId(l.id) == Some((source, target))
            && l.source == source && l.target == target && l.kind == kind
            && (l.symbol.Some? <==> kind == Transition)
  {
    SplitLinkIdOfLinkId(source, target);
    Sim(s.nodes, s.links + [Link(LinkId(source, target), source, target, kind, symbol)])
  }

  /** Both removal events drop every link with id `source-target`, whatever
      its kind, and keep the rest; the nodes stay. */
  function RemoveBy(s: Sim, source: nat, target: int): (r: Sim)
    ensures r.nodes == s.nodes
    ensures forall l :: l in r.links <==> l in s.links && l.id != LinkId(source, target)
  {
    WithoutMembers(s.links, LinkId(source, target));
    Sim(s.nodes, Without(s.links, LinkId(source, target)))
  }

  /** A focus event sets the focus of the node at position `i` and changes
      nothing else; there being no node there is an error. */
  function SetFocus(s: Sim, i: nat, on: bool): (r: Result<Sim, StepError>)
    ensures r.Failure? <==> i >= |s.nodes|
    ensures r.Success? ==>
              && r.value.links == s.links && |r.value.nodes| == |s.nodes|
              && r.value.nodes[i].focus == on
              && r.value.nodes[i].id == s.nodes[i].id && r.value.nodes[i].depth == s.nodes[i].depth
              && forall j :: 0 <= j < |s.nodes| && j != i ==> r.value.nodes[j] == s.nodes[j]
  {
    if i < |s.nodes| then Success(Sim(s.nodes[i := s.nodes[i].(focus := on)], s.links))
    else Failure(NoNode(i))
  }

  /** A new link, after which the step redraws: the link force looks both
      ends up by position. Links added earlier had their ends looked up
      when they were added, and the node list only grows, so only the new
      link's ends are looked up. */
  function Linked(s: Sim, source: nat, target: int, kind: LinkType, symbol: Option<char>): (r: Result<Sim, StepError>)
    requires symbol.Some? <==> kind == Transition
    ensures r.Failure? <==> !(source < |s.nodes| && 0 <= target < |s.nodes|)
    ensures r.Success? ==> r.value == AddLink(s, source, target, kind, symbol)
  {
    if source < |s.nodes| && 0 <= target < |s.nodes| then Success(AddLink(s, source, target, kind, symbol))
    else Failure(NoEnd(source, target))
  }

  /** One replayed event. It fails exactly when it names a node that is
      not there: a focus event past the end of the node list, or a new
      link with an end outside it. Both creations add a node, both link
      creations add a link (only a transition labelled), both removals
      drop by id, and both focus events set the focus flag. */
  function Step(s: Sim, e: E.Event): (r: Result<Sim, StepError>)
    ensures r.Success? <==> EndsWithin(e, |s.nodes|, 0)
  {
    if Creates(e) then Success(AddNode(s, e.stateID, e.depth))
    else if e.CreateLink? then Linked(s, e.source, e.target, Transition, Some(e.symbol))
    else if e.CreateSuffixLink? then Linked(s, e.source, e.target, SuffixLink, None)
    else if Removes(e) then Success(RemoveBy(s, e.source, e.target))
    else SetFocus(s, e.stateID, e.Focus?)
  }

  // ----- removal -----------------------------------------------------------

  /** Removal keeps the order of what it keeps: it works on the parts of a
      list one by one. */
  lemma {:induction false} WithoutAppend(a: seq<Link>, b: seq<Link>, id: string)
    ensures Without(a + b, id) == Without(a, id) + Without(b, id)
  {
    if b == [] {
      assert a + b == a;
    } else {
      var k := |b| - 1;
      assert (a + b)[..|a + b| - 1] == a + b[..k];
      WithoutAppend(a, b[..k], id);
    }
  }

  /** Removing an id no link carries changes nothing. */
  lemma {:induction false} WithoutAbsent(links: seq<Link>, id: string)
    requires forall i :: 0 <= i < |links| ==> links[i].id != id
    ensures Without(links, id) == links
  {
    if links != [] {
      var prefix := links[..|links| - 1];
      forall i | 0 <= i < |prefix|
        ensures prefix[i].id != id
      {
        assert prefix[i] == links[i];
      }
      WithoutAbsent(prefix, id);
      assert prefix + [links[|links| - 1]] == links;
    }
  }

  /** Removing the same id twice is removing it once. */
  lemma WithoutTwice(links: seq<Link>, id: string)
    ensures Without(Without(links, id), id) == Without(links, id)
  {
    var r := Without(links, id);
    WithoutMembers(links, id);
    assert forall i :: 0 <= i < |r| ==> r[i] in r;
    WithoutAbsent(r, id);
  }

  // ----- inverses ----------------------------------------------------------

  /** Every link's id is the one its two ends give it. */
  predicate IdsMatch(s: Sim) {
    forall l :: l in s.links ==> l.id == LinkId(l.source, l.target)
  }

  /** Replaying an event keeps link ids matching their ends. It follows from
      the definitions of `Step` and `IdsMatch` alone. */
  lemma StepKeepsIdsMatch(s: Sim, e: E.Event)
    requires IdsMatch(s) && Step(s, e).Success?
    ensures IdsMatch(Step(s, e).value)
  {
  }

  /** Where ids match their ends, a removal drops exactly the links between
      its two states, transitions and suffix links alike. */
  lemma RemoveDropsEnds(s: Sim, e: E.Event)
    requires IdsMatch(s) && Removes(e)
    ensures Step(s, e).Success?
    ensures forall l :: l in Step(s, e).value.links <==> l in s.links && (l.source, l.target) != (e.source, e.target)
  {
    forall l | l in s.links && l.id == LinkId(e.source, e.target)
      ensures (l.source, l.target) == (e.source, e.target)
    {
      LinkIdInjective(l.source, l.target, e.source, e.target);
    }
  }

  /** Appending a link with a new id and removing its id again restores
      the lists. */
  lemma AddLinkThenRemove(s: Sim, source: nat, target: int, kind: LinkType, symbol: Option<char>)
    requires symbol.Some? <==> kind == Transition
    requires forall l :: l in s.links ==> l.id != LinkId(source, target)
    ensures RemoveBy(AddLink(s, source, target, kind, symbol), source, target) == s
  {
    var id := LinkId(source, target);
    var l := Link(id, source, target, kind, symbol);
    WithoutAppend(s.links, [l], id);
    assert forall i :: 0 <= i < |s.links| ==> s.links[i] in s.links;
    WithoutAbsent(s.links, id);
    assert [l][..0] == [];
  }

  /** Creating a link whose id is new between two nodes that are there and
      removing it again restores the lists, for transitions and suffix
      links. */
  lemma AddThenRemove(s: Sim, add: E.Event, remove: E.Event)
    requires Adds(add) && Removes(remove) && (add.source, add.target) == (remove.source, remove.target)
    requires add.CreateLink? <==> remove.RemoveLink?
    requires forall l :: l in s.links ==> l.id != LinkId(add.source, add.target)
    ensures Step(s, add).Success? <==> add.source < |s.nodes| && 0 <= add.target < |s.nodes|
    ensures Step(s, add).Success? ==> Step(Step(s, add).value, remove) == Success(s)
  {
    var kind := if add.CreateLink? then Transition else SuffixLink;
    var symbol := if add.CreateLink? then Some(add.symbol) else None;
    assert Step(s, add) == Linked(s, add.source, add.target, kind, symbol);
    if Step(s, add).Success? {
      var t := Step(s, add).value;
      assert t == AddLink(s, add.source, add.target, kind, symbol);
      RemoveStep(t, remove);
      AddLinkThenRemove(s, add.source, add.target, kind, symbol);
    }
  }

  /** Removing a link always succeeds. */
  lemma RemoveStep(s: Sim, e: E.Event)
    requires Removes(e)
    ensures Step(s, e) == Success(RemoveBy(s, e.source, e.target))
  {
  }

  /** Focusing a node that is out of focus and removing the focus again
      restores the lists. */
  lemma FocusThenUnfocus(s: Sim, i: nat)
    requires i < |s.nodes| && !s.nodes[i].focus
    ensures Step(s, E.Focus(i)).Success?
    ensures Step(Step(s, E.Focus(i)).value, E.RemoveFocus(i)) == Success(s)
  {
    var s2 := Step(Step(s, E.Focus(i)).value, E.RemoveFocus(i)).value;
    assert s2.nodes[i] == s.nodes[i];
    assert s2.nodes == s.nodes;
  }

  // ----- replaying a trace -------------------------------------------------

  /** The events of `h` replayed in order from `s`, stopping at the first
      that fails. */
  function Replay(s: Sim, h: seq<E.Event>): Result<Sim, StepError> {
    if h == [] then Success(s)
    else
      match Replay(s, h[..|h| - 1])
      case Failure(err) => Failure(err)
      case Success(t) => Step(t, h[|h| - 1])
  }

  function Names(nodes: seq<Node>): (r: seq<string>)
    ensures |r| == |nodes| && forall i :: 0 <= i < |nodes| ==> r[i] == nodes[i].id
  {
    seq(|nodes|, i requires 0 <= i < |nodes| => nodes[i].id)
  }

  function Texts(ids: seq<nat>): (r: seq<string>)
    ensures |r| == |ids| && forall i :: 0 <= i < |ids| ==> r[i] == NatToString(ids[i])
  {
    seq(|ids|, i requires 0 <= i < |ids| => NatToString(ids[i]))
  }

  /** The state ids `e` creates: its own for a creation, none otherwise. */
  function CreatedBy(e: E.Event): seq<nat> {
    if Creates(e) then [e.stateID] else []
  }

  /** A successful step appends a node named after the state it creates,
      if any, and keeps the other names. */
  lemma StepNames(s: Sim, e: E.Event, t: Sim)
    requires Step(s, e) == Success(t)
    ensures Names(t.nodes) == Names(s.nodes) + Texts(CreatedBy(e))
  {
    if Creates(e) {
      assert Names(t.nodes) == Names(s.nodes) + [NatToString(e.stateID)];
    } else {
      assert t.nodes == s.nodes || (Moves(e) && |t.nodes| == |s.nodes|);
      assert Names(t.nodes) == Names(s.nodes);
    }
  }

  lemma TextsAppend(a: seq<nat>, b: seq<nat>)
    ensures Texts(a + b) == Texts(a) + Texts(b)
  {
  }

  /** Replaying a trace appends one node per created state, named by that
      state's index, in creation order. */
  lemma {:induction false} ReplayNames(s: Sim, h: seq<E.Event>, t: Sim)
    requires Replay(s, h) == Success(t)
    ensures Names(t.nodes) == Names(s.nodes) + Texts(E.CreatedIds(h))
  {
    if h == [] {
      assert Texts([]) == [];
    } else {
      var h0, e := h[..|h| - 1], h[|h| - 1];
      var t0 := Replay(s, h0).value;
      ReplayNames(s, h0, t0);
      assert Replay(s, h) == Step(t0, e);
      StepNames(t0, e, t);
      assert E.CreatedIds(h) == E.CreatedIds(h0) + CreatedBy(e);
      TextsAppend(E.CreatedIds(h0), CreatedBy(e));
    }
  }

  /** When a trace creates the states `0 .. k - 1` in order, as the
      builder's does, replaying it from empty lists names the node at
      position `x` after state `x`. */
  lemma NodesInOrder(h: seq<E.Event>, k: nat, t: Sim)
    requires E.CreatedIds(h) == H.Upto(k) && Replay(Empty, h) == Success(t)
    ensures |t.nodes| == k && forall i :: 0 <= i < k ==> t.nodes[i].id == NatToString(i)
  {
    ReplayNames(Empty, h, t);
    assert Names(t.nodes) == Texts(H.Upto(k));
  }

  /** So a focus event for `x` reaches the node of state `x`, the only node
      named after it. */
  lemma NodeAtOwnPosition(h: seq<E.Event>, k: nat, t: Sim, x: nat, i: nat)
    requires E.CreatedIds(h) == H.Upto(k) && Replay(Empty, h) == Success(t)
    requires x < k && i < k
    ensures i < |t.nodes| && (t.nodes[i].id == NatToString(x) <==> i == x)
  {
    NodesInOrder(h, k, t);
    NatToStringInjective(i, x);
  }

  /** Every event of `h` names only nodes that exist when it is replayed
      after `m` nodes, link targets being at least `lowest`: each event is
      within the `m` nodes plus those the events before it created. */
  predicate NamesWithin(h: seq<E.Event>, m: nat, lowest: int)
    decreases |h|
  {
    h == [] ||
    var h0 := h[..|h| - 1];
    NamesWithin(h0, m, lowest) && EndsWithin(h[|h| - 1], m + |E.CreatedIds(h0)|, lowest)
  }

  /** The condition splits over the parts of a trace: the second part is
      replayed after the nodes the first created. */
  lemma {:induction false} NamesWithinAppend(a: seq<E.Event>, b: seq<E.Event>, m: nat, lowest: int)
    ensures NamesWithin(a + b, m, lowest) <==> NamesWithin(a, m, lowest) && NamesWithin(b, m + |E.CreatedIds(a)|, lowest)
  {
    if b == [] {
      assert a + b == a;
    } else {
      var b0 := b[..|b| - 1];
      assert (a + b)[..|a + b| - 1] == a + b0 && (a + b)[|a + b| - 1] == b[|b| - 1];
      NamesWithinAppend(a, b0, m, lowest);
      E.CreatedIdsAppend(a, b0);
    }
  }

  /** A trace replays without error exactly when every event names only
      nodes that are there when it is replayed; it then adds one node per
      created state. */
  lemma {:induction false} ReplayDefined(s: Sim, h: seq<E.Event>)
    ensures Replay(s, h).Success? <==> NamesWithin(h, |s.nodes|, 0)
    ensures Replay(s, h).Success? ==> |Replay(s, h).value.nodes| == |s.nodes| + |E.CreatedIds(h)|
  {
    if h != [] {
      var h0, e := h[..|h| - 1], h[|h| - 1];
      ReplayDefined(s, h0);
      match Replay(s, h0)
      case Failure(_) =>
      case Success(t0) =>
        assert Replay(s, h) == Step(t0, e);
    }
    if Replay(s, h).Success? {
      ReplayNames(s, h, Replay(s, h).value);
    }
  }
}
