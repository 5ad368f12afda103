# Suffix automaton builders and their replayer, in Dafny

This project models the core of a suffix-automaton visualiser. The core has
three parts:

- **The TypeScript builder** (`src/suffix-automaton.ts`). `Extend(c)` runs
  the classical online construction. It creates a state, walks the suffix
  chain adding `c`-edges, then links the new state to the root or to `q`, or
  clones `q` and redirects the chain. Every mutation is logged as an event
  (`src/events.ts`).
- **The older JavaScript builder** (`js/main.js`: `createNew`,
  `createClone`, `init`, `add`, `build`). It runs the same construction and
  logs its own `hist` records.
- **The replayer** (`src/simulation.ts`: `Step` and `Clean`). It rebuilds a
  node list and a link list from the events, one event at a time.

The store is modelled as the source keeps it: an append-only sequence of
states. A clone is handed its source's very `Map`. So each state names a
transition table by id, and a clone reuses its source's id: an edge set
through either state is seen from both. Tables are insertion-ordered maps
(`OrderedMap`), because a clone emits one `CreateLink` per entry in the
map's iteration order.

That sharing is a defect of both builders (`src/suffix-automaton.ts:75`,
`js/main.js:31`). On "abba" the last step's first walk sets an `a` edge in
the table the clone of "ab" shares with state 2, so the automaton also reads
"aba". `SharedTable` proves this, and proves that a clone holding a copy of
its source's map (`SharedTable.CloneCopy`) keeps the edges of every other
state as they were.

Both chain walks are shown to end on every input. The measure is the number
of tables lacking `c` (first walk) or mapping `c` to `q` (redirecting walk),
not the states' lengths. With shared tables, lengths alone do not bound the
walk.

Modules:

| module | what it holds |
|---|---|
| `Wrappers` | `Option` and `Result` |
| `OrderedMap` | insertion-ordered map with `Get`/`Set` and their laws |
| `Automaton` | states, tables, the store invariant `Valid`, the accessors |
| `Counting` | the termination measure of the walks |
| `Events` | the eight event kinds and counts over traces |
| `Builder` | the TypeScript builder, operation by operation, and `Extend` |
| `History` | what `Extend` and the whole build append to `history` |
| `JsEvents` | the JavaScript `hist` records and their translation from events |
| `JsBuilder` | `createNew`, `createClone`, `init`, and `add` both as written and corrected |
| `JsHistory` | what `add` and `build` append to `hist` |
| `StaleEdge` | the edge the as-written `add` fails to redirect |
| `SharedTable` | the table a clone shares with its source, and the copy that was intended |
| `Decimal` | JavaScript's decimal `toString` and the replayer's link ids |
| `Simulation` | `Step`, `Clean`, and replaying a trace |
| `Playback` | the TypeScript builder's history replayed |

## Model

| member | source | states |
|---|---|---|
| OrderedMap.GetSet | src/suffix-automaton.ts:101-102 | after `set(k, v)` the map yields `v` for `k`, and every other key keeps its old lookup |
| OrderedMap.KeysOfSet | src/suffix-automaton.ts:86-91 | `set` overwrites a present key in place and appends a new one, so iteration follows first insertion |
| OrderedMap.SetKeepsUniqueKeys | src/suffix-automaton.ts:102 | a map built with `set` never holds a key twice |
| Automaton.GetNextState | src/suffix-automaton.ts:30-33 | -1 exactly when `from` has no `label` edge; otherwise the edge's target, which in a valid store is an existing non-root state |
| Automaton.GetState | src/suffix-automaton.ts:22-24 | the state stored at `index` carries that index, an existing table and a suffix link that is -1 or an existing state |
| Automaton.GetLastState | src/suffix-automaton.ts:26-28 | the state returned is the one `last` names |
| Automaton.SetKeepsTableOk | src/suffix-automaton.ts:101-102 | setting an edge to an existing non-root state keeps a table a partial function into the states |
| Counting.CountWhereReplace | src/suffix-automaton.ts:126-141 | a walk step that makes one table stop satisfying the walk's guard lowers the count by exactly one, which bounds both walks |
| Builder.CreateNewState | src/suffix-automaton.ts:47-66 | returns the next index; the state has no suffix link and a table of its own; one `CreateNewState` event; the store stays valid |
| Builder.CreateClonedState | src/suffix-automaton.ts:68-99 | the clone is appended with the source's suffix link and the source's table id (shared, not copied); events are creation, one link per entry, then the suffix link |
| Builder.EntryEventsFollowTable | src/suffix-automaton.ts:86-91 | the clone's i-th `CreateLink` event is the i-th entry of the shared table |
| Builder.CloneLooksUpAsSource | src/suffix-automaton.ts:71-77 | a fresh clone answers every lookup as its source does |
| Builder.AddLink | src/suffix-automaton.ts:101-108 | sets the edge in the source's table and logs one `CreateLink`; the store stays valid for a non-root target |
| Builder.AddLinkIsShared | src/suffix-automaton.ts:75 | an edge set through one state is seen from every state sharing its table, and no other edge changes |
| Builder.AddSuffixLink | src/suffix-automaton.ts:110-117 | changes only `source`'s suffix link and logs one `CreateSuffixLink` |
| Builder.NewBuilder | src/suffix-automaton.ts:40-45 | one root state of length 0 without a suffix link, `root = last = 0`, and the history holds one creation event |
| Builder.WalkChain | src/suffix-automaton.ts:126-141 | the walk follows suffix links from the old last state over tables lacking `c`, sets `c` to the new state in each, and logs Focus/CreateLink/RemoveFocus per state; it stops at -1 or at a state whose table has `c` |
| Builder.Rewire | src/suffix-automaton.ts:200-216 | the redirecting walk follows suffix links from `p` over tables whose `c` edge leads to `q`, redirects each to the clone, logs RemoveLink/CreateLink per state, and stops where the edge leads elsewhere |
| Builder.StartExtend | src/suffix-automaton.ts:119-141 | the new state is one longer than the old last state and is focused, followed by the first walk |
| Builder.CloneState | src/suffix-automaton.ts:176-199 | the clone of `q` gets length `len(p) + 1`, `q` is linked to it, and the focus moves from `q` to the clone |
| Builder.CloneAndRewire | src/suffix-automaton.ts:175-223 | the clone branch from `q` found to the clone's focus removed keeps the store valid and does what the clone branch's relation describes: clone, suffix links, and a redirected walk that stops only at -1, at a state whose `c` edge leads elsewhere, or at a table it already redirected |
| Builder.RewireAndLink | src/suffix-automaton.ts:200-223 | the redirecting walk passes only tables whose `c` edge leads to `q` and stops where the next one does not (or at -1, or at a table already passed); then the new state is linked to the clone and the clone's focus is removed |
| Builder.FinishExhausted | src/suffix-automaton.ts:143-144 | with the chain run out, the new state links to the root |
| Builder.FinishFound | src/suffix-automaton.ts:145-174 | when `q` is exactly one longer than `p`, the new state links to `q` |
| Builder.FinishCloned | src/suffix-automaton.ts:175-224 | otherwise `q` is cloned, `q` and the new state link to the clone, and the chain from `p` is redirected until the walk reaches -1 or a state whose `c` edge no longer leads to `q` |
| Builder.Extend | src/suffix-automaton.ts:119-228 | the whole step: the chain walked, the branch taken, the store and the events appended, all stated against the store the step started from; both walks stop exactly where the loop guards fail |
| History.ExtendGrowth | src/suffix-automaton.ts:119-228 | a step adds one state, or two when it clones; the new state is last and one longer than the old last |
| History.ExtendTrace | src/suffix-automaton.ts:119-228 | a step keeps the old history as a prefix and creates the new state, then the clone, in index order; it takes off every focus it sets except the new state's |
| History.ExtendEventsCounts | src/suffix-automaton.ts:119-228 | the same counts, for the events of one step in each branch |
| History.WalkEventsCounts | src/suffix-automaton.ts:126-141 | the first walk focuses and unfocuses each walked state once and creates nothing |
| History.RewireEventsQuiet | src/suffix-automaton.ts:200-216 | the redirecting walk logs only link events |
| History.ExtendCounted | src/suffix-automaton.ts:235-237 | one loop step of the build keeps the created ids `0, 1, 2, ...` in order and adds the new state to the states left in focus |
| History.BuildHistory | src/suffix-automaton.ts:231-239 | the last state is as long as the word; the states created for the symbols have lengths `1, 2, ...`, increasing ids, and the last of them is `last`; the store holds between `|word|+1` and `2|word|+1` states; the history starts with the root's creation, creates each state once in index order, and leaves exactly one focus per symbol set |
| JsEvents.TranslateKeepsFocus | js/main.js:53-153 | the JavaScript records focus and unfocus the same states as the TypeScript events they stand for |
| JsEvents.TranslateKeepsCreated | js/main.js:53-93 | the JavaScript records create the same states in the same order as the TypeScript events they stand for |
| JsBuilder.CreateNew | js/main.js:17-25 | appends a state with no suffix link and a map of its own and returns the old `size`, which grows by one |
| JsBuilder.CreateCloneOf | js/main.js:27-35 | appends a state with the source's suffix link and the source's very map; the clone looks up as its source |
| JsBuilder.Init | js/main.js:37-48 | a single root state, `root = last = 0`, `size = 1`, and one `create-node` record |
| JsBuilder.Start | js/main.js:50-61 | the new node and its focus, then the first walk, which is the TypeScript builder's |
| JsBuilder.FinishRoot | js/main.js:62-71 | with the chain run out, the new state links to the root with the root in focus around it |
| JsBuilder.FinishFound | js/main.js:72-85 | when `q` is one longer than `p`, the new state links to `q` |
| JsBuilder.PushEntries | js/main.js:99-106 | one `create-link` record per entry of the clone's map, in iteration order |
| JsBuilder.CloneHead | js/main.js:86-110 | the clone of `q` with length `len(p) + 1`, its records, and its focus; `q` keeps its suffix link for now |
| JsBuilder.RedirectLoopAsWritten | js/main.js:111-124 | the loop as written redirects exactly the one state `p`, since `p` never advances |
| JsBuilder.Redirect | js/main.js:111-124 | the loop with `p` advanced along suffix links redirects the whole walk and stops where it has to |
| JsBuilder.CloseClone | js/main.js:125-147 | `q`'s suffix link moves to the clone, the new state links to the clone, and the clone's focus is removed |
| JsBuilder.FinishCloneAsWritten | js/main.js:86-148 | the clone branch as written, whose redirecting walk is `[p]` |
| JsBuilder.FinishClone | js/main.js:86-148 | the corrected clone branch, whose redirecting walk stops where it has to |
| JsBuilder.AddAsWritten | js/main.js:50-156 | `add(c)` as written: the TypeScript step's walk and branch with a redirecting walk of just `p`, recorded in this builder's terms |
| JsBuilder.Add | js/main.js:50-156 | `add(c)` with the redirecting loop advancing, so its walk stops where it has to |
| JsHistory.AddEventsTally | js/main.js:50-156 | one `add` takes off every focus it sets and creates the new node, then the clone |
| JsHistory.AddTrace | js/main.js:50-156 | `add` keeps the old records as a prefix, creates the step's ids, and keeps `hist` balanced |
| JsHistory.AddCounted | js/main.js:160-162 | one loop step of `build` keeps ids in order and `hist` balanced, as written and corrected |
| JsHistory.Build | js/main.js:158-163 | `build(s)` as written or corrected: the last state is as long as the word; between `|s|+1` and `2|s|+1` states; records start with the root's creation, create `0, 1, 2, ...` in order, and every focus is taken off |
| StaleEdge.StaleAt | js/main.js:111-124 | if the redirecting walk is cut after `p` and `p`'s suffix-link target has its own table mapping `c` to `q`, that edge still leads to `q` after the step, and the walk did not stop where it had to |
| StaleEdge.RedirectedAt | js/main.js:111-124 | a walk that stops where it has to leaves that edge leading to the clone |
| StaleEdge.AababChain | js/main.js:55-77 | adding `b` to the store of "aaba": the first walk passes state 4 only and stops at state 1, whose `b` edge leads to state 3, of length 3, so the step clones |
| StaleEdge.AababAsWritten | js/main.js:111-124 | `add('b')` as written on the store of "aaba": the root's `b` edge still leads to state 3 |
| StaleEdge.AababCorrected | js/main.js:111-124 | the corrected `add('b')` on the same store: the root's `b` edge leads to the clone, state 6 |
| StaleEdge.AababTypeScript | src/suffix-automaton.ts:200-216 | the TypeScript `Extend('b')` on the same store: the redirecting walk goes on past `p` to the root, whose `b` edge leads to the clone, state 6 |
| SharedTable.UnshareKeepsLookups | src/suffix-automaton.ts:71-77 | giving a state a copy of its map as a table of its own keeps the store valid and changes no lookup of any state |
| SharedTable.CloneCopy | src/suffix-automaton.ts:68-99 | `CreateClonedState` with a copied map: one state more, the store valid, the clone looking up as its source, no old lookup changed, the same events, and no table shared if none was before |
| SharedTable.SharedCloneLeaks | src/suffix-automaton.ts:75 | as written, an edge set through a fresh clone is seen from its source |
| SharedTable.CopyIsIndependent | src/suffix-automaton.ts:68-108 | with the copy, an edge set through the fresh clone leaves every other state's lookups as they were |
| SharedTable.AbbaChain | src/suffix-automaton.ts:126-148 | adding `a` to the store of "abb": the first walk passes states 3 and 4 and stops at the root, whose `a` edge leads to state 1, one longer, so the step links to it |
| SharedTable.AbbaStep | src/suffix-automaton.ts:119-174 | that step appends state 5 of length 4 linked to state 1 and sets the `a` edge in the tables of states 3 and 4 only |
| SharedTable.AbbaAsWritten | src/suffix-automaton.ts:75 | the TypeScript `Extend('a')` on the store "abb" leaves: state 2 shares its table with the clone, state 4, and so gains an `a` edge; the automaton reads "aba", which is no factor of "abba" |
| SharedTable.AbbaCorrected | src/suffix-automaton.ts:68-99 | the same step on the store with a copied clone table: no table is shared, "aba" is not read, and every suffix link leads to a shorter state |
| Decimal.ParseNatToString | src/simulation.ts:106 | a state id's decimal text reads back as the id |
| Decimal.NatToStringInjective | src/simulation.ts:106 | different ids have different text |
| Decimal.SplitLinkIdOfLinkId | src/simulation.ts:115-116 | the link id `source-target` reads back as its two ends, negative targets included |
| Decimal.LinkIdInjective | src/simulation.ts:115-116 | different pairs of ends have different link ids |
| Simulation.Clean | src/simulation.ts:38-42 | both lists end up empty |
| Simulation.AddNode | src/simulation.ts:103-111 | a creation appends one node, whose id reads back as the state id, with the event's depth and focus off; nothing else changes |
| Simulation.AddLink | src/simulation.ts:113-129 | a link creation appends one link, whose id reads back as its ends; it is a transition with a label for `CreateLink` and an unlabelled suffix link otherwise; nothing else changes |
| Simulation.RemoveBy | src/simulation.ts:131-139 | a removal keeps exactly the links with another id, and the nodes |
| Simulation.WithoutMembers | src/simulation.ts:135-137 | the filter keeps a link exactly when it was there and has another id |
| Simulation.WithoutAppend | src/simulation.ts:135-137 | the filter keeps the relative order of the links it keeps |
| Simulation.WithoutAbsent | src/simulation.ts:135-137 | removing an id no link carries changes nothing |
| Simulation.WithoutTwice | src/simulation.ts:131-139 | removing the same link twice is removing it once |
| Simulation.SetFocus | src/simulation.ts:141-147 | a focus event sets the focus of the node at that position and changes nothing else; with no node there it fails |
| Simulation.Linked | src/simulation.ts:89-99 | the redraw after a link creation fails exactly when an end of the new link is not a position in the node list, as the link force finds no node there; otherwise the link is added |
| Simulation.Step | src/simulation.ts:101-151 | a step fails exactly when its event names a node that is not there: a focus event past the end of the node list, or a link creation with an end outside it |
| Simulation.StepKeepsIdsMatch | src/simulation.ts:113-139 | replaying keeps every link's id equal to the id of its ends |
| Simulation.RemoveDropsEnds | src/simulation.ts:131-139 | where ids match ends, a removal drops exactly the links between its two states, of either kind |
| Simulation.AddThenRemove | src/simulation.ts:113-139 | creating a link with a new id succeeds exactly when both ends are nodes, and removing it again then restores both lists |
| Simulation.FocusThenUnfocus | src/simulation.ts:141-147 | focusing a node out of focus and removing the focus restores both lists |
| Simulation.StepNames | src/simulation.ts:103-111 | a step adds a node exactly for a creation event, named after the created state, and keeps the others |
| Simulation.ReplayNames | src/simulation.ts:103-111 | replaying a trace appends one node per created state, named after it, in creation order |
| Simulation.NodesInOrder | src/simulation.ts:103-111 | a trace creating `0 .. k-1` in order, replayed from empty lists, names the node at position `x` after state `x` |
| Simulation.NodeAtOwnPosition | src/simulation.ts:141-147 | for such a trace, the node at position `x` is the only one named after state `x`, so a focus event by position reaches that state's node |
| Simulation.NamesWithinAppend | src/simulation.ts:101-151 | "every event names only nodes that exist when it is replayed" splits over the parts of a trace, the second part counting the nodes the first created |
| Simulation.ReplayDefined | src/simulation.ts:101-151 | a trace replays without error exactly when every focus event and every new link names only nodes that exist at that point; it then adds one node per created state |
| Playback.ExtendBelow | src/suffix-automaton.ts:119-228 | every event of one step names only states created before it, except that a link target may be -1 |
| Playback.StepBelow | src/suffix-automaton.ts:119-228 | one `Extend` keeps every event of the whole history on states created before it, link targets of -1 aside |
| Playback.ExtendReplayable | src/suffix-automaton.ts:235-237 | one build step keeps states created in index order and every event on states created before it, link targets of -1 aside |
| Playback.LinkToNoneOnly | src/simulation.ts:89-99 | of a history whose events name only states created before them, link targets of -1 aside, those naming only existing nodes are exactly those without a link to -1 |
| Playback.Play | src/suffix-automaton.ts:231-239 | in the history of building any word every event names a state created before it, link targets of -1 aside; it replays without error exactly when it holds no link to -1, and then the node at each position belongs to the state with that index |

## Left out

- Drawing: the force layout, `Refresh` and the `Update*Force` methods
  (`src/simulation.ts` outside `Clean` and `Step`). The d3 playback, SVG and
  dragging in `js/main.js:165-505`. `src/animation.ts`, `src/index.ts` and
  `src/animation_runner.ts`. These are graphics and timers over floats.
- `Refresh`: of the redraw after each step only the link force's lookup of
  a new link's ends is modelled (`src/simulation.ts:92`), which throws when
  an end is not a node position. The lists handed to the drawing and the
  layout forces are not modelled. A link added earlier keeps the nodes it
  was resolved to, and nodes are only appended, so only the new link is
  looked up.
- Attributes: `maxWord` and `info` are never consumed by the replayer and
  are not modelled. `isTerminal` is always false in both builders.
- Characters: `for (let c of word)` iterates code points; the model takes
  the word as a sequence of Dafny characters.
- Decimal text: `NatToString` writes plain decimal digits. JavaScript
  switches to exponent notation from 10^21, which state ids never reach.
- Simulation.Step: its own contract states only when it fails. What each
  kind of event does is stated by the member it dispatches to (`AddNode`,
  `AddLink`, `RemoveBy`, `SetFocus`), to keep proofs about replay small.
- Simulation.Replay: the source replays events one at a time from a timer,
  and a failing event throws inside that callback. The model stops a
  replay at the first failing event.
- Playback.Play: it does not promise that the history of every word
  replays without error, only that it does exactly when no suffix link to
  -1 is drawn. A clone copies its source's suffix link, and with tables
  shared as the source shares them the state cloned can be the new state,
  whose link is still -1 then. Which words lead to that is not derived.
- StaleEdge.AabaStore is written out by hand as the store the four steps of
  "aaba" leave: lengths 0-4, suffix links -1, 0, 1, 0, 1, and tables
  `{a:1, b:3}`, `{a:2, b:3}`, `{b:3}`, `{a:4}`, `{}`. No step of "aaba"
  clones, so both forms of `add` agree on it. The model proves it valid but
  does not derive it by running `add` four times.
- Automaton.Valid: the store invariant does not include that every suffix
  link leads to a shorter state or that the links form a tree rooted at the
  root, nor that the automaton reads exactly the factors of the word. With
  tables shared as the source shares them these do not hold:
  `SharedTable.AbbaAsWritten` shows "abba" reading "aba". The model proves
  the defect on "abba" only; what the corrupted tables do to the suffix
  links on longer words is not derived.
- SharedTable.AbbStore is written out by hand as the store three steps of
  "abb" leave: lengths 0, 1, 2, 3, 1; suffix links -1, 0, 4, 4, 0; state 4
  (the clone of state 2) sharing table 2. `SharedTable.AbbCopied` is the
  same store with state 4's table copied. The model proves both valid but
  does not derive them by running `Extend` three times.
- SharedTable: the copying clone is stated for the TypeScript builder. The
  JavaScript `createClone` shares its map in the same way
  (`js/main.js:31`), and `JsBuilder.CreateCloneOf` models that sharing, but
  no copying variant of it is written.
- JsHistory.Build: it states the record counts and the store's size for
  both forms of `add`. The stale edge itself is stated by the `StaleEdge`
  members.

## Findings

| source | as written | input that shows it | evidently intended | confidence | as-written member | corrected member |
|---|---|---|---|---|---|---|
| src/suffix-automaton.ts:75 | `CreateClonedState` hands the clone its source's very `go` map (and `createClone` at `js/main.js:31` does the same), so an edge later set through either state is seen from both | `"abba"`: the clone of state 2 ("ab") made in the third step, state 4, shares table 2; in the fourth step the first walk sets `a` to the new state 5 in state 4's table, so state 2 gains that edge and "aba" is read, which does not occur in "abba" | the clone gets a copy of the source's map, so no two states share a table | not executed | SharedTable.AbbaAsWritten | SharedTable.AbbaCorrected |
| js/main.js:111-124 | the redirecting loop never advances `p`, so it redirects only `p`'s `c` edge to the clone | `build("aabab")`: in the last step `p = 1` and `q = 3`, and the root also maps `b` to 3; as written, the root's `b` edge stays at state 3 (the state of "aab"), so reading `b` alone lands in a state whose length is 3 | `p = states[p].suffixLink` at the end of each round, as the TypeScript builder does (`src/suffix-automaton.ts:214-215`), so the root's `b` edge leads to the clone, state 6 | not executed | StaleEdge.AababAsWritten | StaleEdge.AababCorrected |
