# MatchingMarkets matching engine, in Dafny

A verified model of the matching engine of MatchingMarkets.py, a simulator of
dynamic matching markets (Akbarpour, Li and Gharan's "Dynamic Matching Market
Design"). Agents arrive in a market, score each other through compatibility
and utility callbacks, age, and either get matched or perish once they become
critical. Each period a scheduling rule (a "meta-algorithm") chooses which
agents are submitted to a matching algorithm. The model covers:

- `agents.dfy` (modules `Seqs`, `Agents`): the agent as the engine sees it.
  An agent has a name, a type, a sojourn, a deadline, and the preference maps
  `match_util` and `match_fail_prob`, whose keys keep their insertion order.
  It also provides `neighbors()`, `update()` and `addNewToMap`.
- `scc.dfy` (module `Scc`): Tarjan's strongly-connected-components search
  (`strongly_connected_components`). All three revisions share it. The
  `index_counter`, `stack`, `lowlinks`, `index` and `result` variables are a
  state threaded through `strongconnect` and its successor and pop loops.
- `ttc.dfy`, `ttc_rounds.dfy` (modules `Ttc`, `TtcRounds`): Top Trading
  Cycles in its three revisions. This covers the neighbour purge, each
  agent's top choice under the sort-then-scan, the `preference_graph`, the
  settling of components, and the `while` loop over rounds. Tarjan's search
  pops a cycle against its edges, and `matched[cycle[i-1]] = cycle[i]` then
  matches each member with the agent whose top choice it is, not with its
  own top choice. The model keeps this direction.
- `bilateral.dfy` (module `Bilateral`): `arbitraryMatch` in its three
  revisions and `serialDictatorship`.
- `da.dfy` (module `Da`): `gale_shapley` deferred acceptance.
- `market.dfy` (module `Markets`): the `Market` class, with its constructor,
  `update` and the intended `critical` count.
- `meta.dfy` (module `Meta`): `meta_Always`, `meta_Patient` and
  `meta_Greedy`.
- `generators.dfy`, `utilities.dfy` (modules `Generators`, `Utilities`): type
  generators, compatibility tests and utility callbacks.

Every random source is an input:
- the Poisson arrival count is the length of `arrivals`;
- each newcomer's deadline and type are an `Arrival`;
- `random.choice` takes the draw `draws[i] % n`;
- the uniform draws of `rngDraw` and `stochastic_neighborSameType` are
  parameters.

The matching algorithm that `Market.update` calls, and the callbacks
`matchUtilFct`, `neighborFct` and `utilFct`, are function parameters.

## Model

| member | source | states |
|---|---|---|
| Agents.Agent.NeighborsMeans | matchingmarkets/algorithms/basic.py:59 | an agent's neighbours are exactly its keys with a positive success probability |
| Agents.Agent.Update | matchingmarkets/market.py:141-142 | one period makes the agent one period older and changes nothing else |
| Agents.Agent.AddNewToMap | matchingmarkets/market.py:113-122 | recording a counterpart sets both map entries, adds the key once at the end if it is new, keeps the maps keyed by the key list, and changes nothing else |
| Scc.StronglyConnectedComponents | matchingmarkets/algorithms/TTC.py:19-82 | the components are non-empty, no node is in two of them, every key of the graph is in one, every successor of a covered node is covered, every node is a key or a listed successor; a single-node component's successors other than itself all lie in earlier components (the reverse topological order, for singletons), so the first component is a cycle or a node with no successor but itself; when every key has one successor, each component of two or more nodes runs against the edges (each node's successor is the node before it, the first node's the last); the other two revisions (algorithms/algorithms.py:72-135, algorithms.py:54-117) are the same search |
| Scc.VisitRoot | matchingmarkets/algorithms/TTC.py:78-80 | one turn of `for node in graph` ends with an empty stack, every node visited so far with its successors visited, and this node visited too |
| Scc.Collected | matchingmarkets/algorithms/TTC.py:78-82 | once every key is visited and the stack is empty, the components have all the properties `StronglyConnectedComponents` promises |
| Scc.StrongConnect | matchingmarkets/algorithms/TTC.py:43-76 | `strongconnect(v)` keeps the search invariant (fresh indices, lowlinks at most the index, a stack ordered by index, visited nodes split between the stack and emitted components); it only extends the state; started from an empty stack it returns with an empty stack |
| Scc.Enter | matchingmarkets/algorithms/TTC.py:43-63 | numbering `v` and visiting its successors leaves `v` on the stack at its old height with its fresh index, every successor visited and bounding its lowlink, and every newly visited node's successors visited |
| Scc.TakeLowlink | matchingmarkets/algorithms/TTC.py:56-59 | after recursing on an unvisited successor, `v`'s lowlink becomes the smaller of its own and the successor's, and nothing else changes |
| Scc.Push | matchingmarkets/algorithms/TTC.py:45-48 | `v` gets the next counter value as index and lowlink, the counter grows by one, and `v` goes on top of the stack |
| Scc.PushKeepsIndexOk | matchingmarkets/algorithms/TTC.py:45-48 | numbering and pushing an unvisited node keeps indices fresh and increasing along the stack |
| Scc.VisitAll | matchingmarkets/algorithms/TTC.py:51-63 | after the successor loop, every successor is visited and those still on the stack bound `v`'s lowlink from above; `v` stays at its stack position |
| Scc.VisitNext | matchingmarkets/algorithms/TTC.py:55-63 | one turn of the successor loop keeps the loop invariant: the state only grows, `v` keeps its stack position, and one more successor is visited and, if still on the stack, bounds `v`'s lowlink |
| Scc.VisitSuccessor | matchingmarkets/algorithms/TTC.py:55-63 | one successor: its lowlink only lowers `v`'s, and a successor still on the stack bounds `v`'s lowlink by its index |
| Scc.Descend | matchingmarkets/algorithms/TTC.py:56-59 | recursing on an unvisited successor visits it and takes at most its lowlink |
| Scc.Lower | matchingmarkets/algorithms/TTC.py:59-63 | lowering a lowlink changes only that lowlink and keeps the invariant |
| Scc.Finish | matchingmarkets/algorithms/TTC.py:66-76 | when `v`'s lowlink equals its index, the stack is cut back to below `v` and exactly the popped nodes are appended to `result` as one component; otherwise the state is left unchanged; either way the search invariant holds and indices are untouched |
| Scc.PopComponent | matchingmarkets/algorithms/TTC.py:66-76 | the stack is cut to below the root and exactly the popped nodes are appended to `result` as one component |
| Scc.PopThrough | matchingmarkets/algorithms/TTC.py:69-73 | the pop loop returns the nodes above and including `v`, from the top down, and the stack below them |
| Scc.PopKeepsInvariants | matchingmarkets/algorithms/TTC.py:66-76 | emitting a popped suffix keeps every node on the stack or in exactly one component |
| Scc.PoppedDistinct | matchingmarkets/algorithms/TTC.py:69-73 | a popped component has no repeats and shares no node with what stays on the stack |
| Scc.SingletonPointsBack | matchingmarkets/algorithms/TTC.py:64-76 | a root popped alone has every successor other than itself already in an emitted component |
| Scc.OrderedFirst | matchingmarkets/algorithms/TTC.py:64-82 | in components listed in reverse topological order, the first one is a cycle or a node with no successor but itself |
| Scc.FlatMember | matchingmarkets/algorithms/TTC.py:74-76 | a node of the flattened `result` lies in one of the components |
| Scc.RootCycleIsCycle | matchingmarkets/algorithms/TTC.py:140-154 | when every node has one successor, the first component is a cycle: two or more nodes, or a node pointing at itself |
| Scc.Emptied | matchingmarkets/algorithms/TTC.py:78-82 | once the stack is empty, the components hold every visited node exactly once and nothing else, and, when every key has one successor, each runs against the edges |
| Scc.LinkedDown | matchingmarkets/algorithms/TTC.py:55-63 | when every node above takes the smaller of its index and the lowlink above it, and the top node takes the smaller of its index and `t`'s, each of those nodes takes the smaller of its index and `t`'s |
| Scc.TopPointsAtRoot | matchingmarkets/algorithms/TTC.py:64-76 | when a root pops, the node on top of the stack has the root as its one successor |
| Scc.RootRing | matchingmarkets/algorithms/TTC.py:64-76 | a popped component of two or more nodes, listed from the top of the stack down, runs against the edges |
| Ttc.BestIsTop | matchingmarkets/algorithms/TTC.py:121-129 | the scan finds a key in the pool exactly when one exists, and that key has the top score, ties going to the earlier key |
| Ttc.ChoiceIsTop | matchingmarkets/algorithms/TTC.py:119-129 | an agent has no choice exactly when none of its keys is in the pool; otherwise its choice is the first key in the pool under a stable descending sort by score |
| Ttc.ChoiceInPool | matchingmarkets/algorithms/TTC.py:126-128 | a choice is a name still in the pool |
| Ttc.TopAtUnique | matchingmarkets/algorithms/TTC.py:121-124 | the top choice is unique |
| Ttc.TopChoice | matchingmarkets/algorithms/TTC.py:121-129 | the loop over the keys returns the agent's top choice in the pool |
| Ttc.PreferenceGraph | matchingmarkets/algorithms/TTC.py:119-129 | `preference_graph` has exactly the agents with a choice as keys, each pointing at its top choice and nothing else; its keys are listed in pool order (the names of the pool's agents that are keys, in the order of the pool) |
| Ttc.ChoosersKeyed | matchingmarkets/algorithms/TTC.py:119-129 | where every agent is a key exactly when it has a choice, the keys in pool order are the names of the agents with a choice, in pool order |
| Ttc.KeysInOrderDistinct | matchingmarkets/algorithms/TTC.py:119-129 | the keys listed in pool order are names of the pool, each listed once |
| Ttc.OrderDistinct | matchingmarkets/algorithms/TTC.py:119-129 | the keys of `preference_graph` are the agents with a choice left, each once, in pool order |
| Ttc.EntriesKeys | matchingmarkets/algorithms/TTC.py:119-129 | the entries the loop adds for a prefix of the pool are keyed by its agents with a choice, each sending a pool name to one name among the round's names |
| Ttc.EntriesPoint | matchingmarkets/algorithms/TTC.py:119-129 | in the entries the loop adds for a prefix of the pool, every agent of the prefix is a key exactly when it has a choice, and then points at its top choice |
| Ttc.EveryoneChoosing | matchingmarkets/algorithms/TTC.py:119-129 | when every agent has a choice, every node has exactly one successor and that successor is a key |
| Ttc.SelfListedChooses | matchingmarkets/algorithms/TTC.py:126-129 | an agent that ranks itself always has a choice |
| Ttc.DisjointMeans | matchingmarkets/algorithms/TTC.py:113 | the empty-intersection test holds exactly when no neighbour is among the names |
| Ttc.Purge | matchingmarkets/algorithms/TTC.py:111-117 | the backward purge loop leaves exactly what `Kept` defines: each agent is dropped when no neighbour is among the names still listed at its turn |
| Ttc.KeptLength | matchingmarkets/algorithms/TTC.py:111-117 | the purge never lengthens the pool, and keeps all of it only when it drops nobody |
| Ttc.KeptRoster | matchingmarkets/algorithms/TTC.py:111-117 | the purge keeps the names distinct |
| Ttc.DroppedIsIsolated | matchingmarkets/algorithms/TTC.py:111-117 | a dropped agent has no neighbour among the agents kept |
| Ttc.IsolatedIsDropped | matchingmarkets/algorithms/TTC.py:111-117 | an agent with no neighbour anywhere in the pool is dropped |
| TtcRounds.WithoutNames | matchingmarkets/algorithms/TTC.py:146-150 | deleting the agent with a given name removes that name and no other, and keeps the names distinct |
| TtcRounds.RemoveNamed | matchingmarkets/algorithms/TTC.py:146-150 | the index scan deletes the first agent with that name, or nothing when nobody has it |
| TtcRounds.SubWithout | matchingmarkets/algorithms/TTC.py:146-150 | deleting an agent keeps every other agent of `to_match` in its order |
| TtcRounds.PoolFixed | matchingmarkets/algorithms/TTC.py:146-158 | what is left of a pool of distinct names, in order, is fixed by the names left: two such remainders with the same names are the same list |
| TtcRounds.Rotate | matchingmarkets/algorithms/TTC.py:153-154 | `matched[cycle[i-1]] = cycle[i]` sends each member to the next one along the tuple, the last one to the first, and leaves the other entries alone |
| TtcRounds.RotatedOneToOne | matchingmarkets/algorithms/TTC.py:153-154 | members of a cycle with no repeats are sent to different members |
| TtcRounds.RotateKeepsPerm | matchingmarkets/algorithms/TTC.py:153-154 | rotating a fresh cycle into a permutation of its keys leaves a permutation |
| TtcRounds.PairUp | matchingmarkets/algorithms/TTC.py:142-155 | a matched singleton is sent to itself and a longer cycle's members each to the next along the tuple; other entries are kept and `matched` stays a permutation |
| TtcRounds.RemoveCycle | matchingmarkets/algorithms/TTC.py:155-158 | exactly the cycle's members leave the pool, the others stay in their order, and the pool shrinks when the cycle names one of its agents |
| TtcRounds.MatchCycle | matchingmarkets/algorithms/TTC.py:140-158 | a matched component leaves the pool and nobody else does, the others keeping their order; `matched` gains its members, each sent to the next along the tuple, and stays a permutation |
| TtcRounds.SettleOne | matchingmarkets/algorithms/TTC.py:140-158 | one component raises exactly when it is a singleton that is not a key of the graph; otherwise a cycle is matched and leaves, the rest of the pool keeping its order, and any other singleton changes nothing |
| TtcRounds.SettlingStep | matchingmarkets/algorithms/TTC.py:140-158 | after each component, earlier cycles are matched along their order, earlier non-cycles are still in the pool, later components are untouched, and every name is in the pool or in `matched` |
| TtcRounds.Settle | matchingmarkets/algorithms/TTC.py:140-158 | the `for cycle in cycles` loop raises exactly when some component is stray; otherwise every cycle is matched and every other component stays, and the pool left is the old pool without the matched agents, in its order |
| TtcRounds.ComponentsFit | matchingmarkets/algorithms/TTC.py:135-140 | the components of a preference graph are non-empty, without repeats, pairwise disjoint and made of pool agents |
| TtcRounds.Purged | matchingmarkets/algorithms/TTC.py:111-117 | the purge keeps a roster drawn from the pool and never lengthens it |
| TtcRounds.AllChoosing | matchingmarkets/algorithms/TTC.py:119-129 | when every agent ranks itself, the preference graph gives everyone one successor that is a key |
| TtcRounds.Progress | matchingmarkets/algorithms/TTC.py:135-158 | when every agent ranks itself, no component raises and the first one is a cycle |
| TtcRounds.RotatedRing | matchingmarkets/algorithms/TTC.py:140-154 | rotating a component that runs against the edges matches every member with the member whose one successor it is |
| TtcRounds.PointedStep | matchingmarkets/algorithms/TTC.py:140-158 | after each component, every newly matched name is matched with a node pointing at it |
| TtcRounds.EdgeRanksFirst | matchingmarkets/algorithms/TTC.py:119-133 | the one successor of a node of the preference graph is that agent's top choice among the round's pool |
| TtcRounds.PointedRanksFirst | matchingmarkets/algorithms/TTC.py:119-158 | every name a round newly matches is matched with an agent of that round's pool whose top choice it is |
| TtcRounds.StrayMeans | matchingmarkets/algorithms/TTC.py:119-143 | some component is a singleton that is no key of the preference graph exactly when some agent of the pool has a top choice with no choice left itself |
| TtcRounds.StrayStranded | matchingmarkets/algorithms/TTC.py:119-143 | a node of the preference graph that is no key is some agent's top choice and has no choice itself |
| TtcRounds.PointsStranded | matchingmarkets/algorithms/TTC.py:119-143 | an agent pointing at an agent that is no key makes the pool one where a top choice has no choice left |
| TtcRounds.StrandedStray | matchingmarkets/algorithms/TTC.py:119-143 | an agent's top choice with no choice of its own is alone in a component that is no key, so `preference_graph[cycle[0]]` fails on it |
| TtcRounds.SettledFacts | matchingmarkets/algorithms/TTC.py:119-158 | a round that does not raise leaves a pool drawn from its purged pool, matches each new name with an agent that ranks it first, and leaves no cycle of top choices behind |
| TtcRounds.Components | matchingmarkets/algorithms/TTC.py:119-143 | the round's preference graph is built from its pool, and its components are disjoint, drawn from the pool, each a ring, in reverse topological order for singletons, and covering every key; when everyone ranks themselves, none raises and the first is a cycle; some component raises (a singleton that is no key) exactly when some agent's top choice has no choice left itself |
| TtcRounds.Round | matchingmarkets/algorithms/TTC.py:101-158 | one round raises `KeyError` exactly when, in its purged pool, some agent's top choice is an agent with no choice left; otherwise it keeps the pool and `matched` disjoint and `matched` a permutation, adds keys only from the pool, and removes at least one agent when everyone ranks themselves; its pool is the input, purged when asked; the pool it leaves is that purged pool with the matched agents taken out, the rest in their order; afterwards a name is matched or still in the pool exactly when it was matched before or is in that purged pool, so the only names lost are those the purge dropped; every newly matched name `k` is matched with an agent of that pool whose top choice is `k`; and every agent left in the pool has a depth (its component's position) greater than that of its top choice if that choice is still in the pool, so no cycle of top choices stays |
| TtcRounds.Extended | matchingmarkets/algorithms/TTC.py:101-158 | recording a round keeps the pools of the rounds nested sub-rosters of the input, the first one the (purged) input, and the current pool what the last round left of its pool, in order |
| TtcRounds.NestedExtended | matchingmarkets/algorithms/TTC.py:101-117 | appending a round's pool drawn from the current pool keeps the rounds' pools nested sub-rosters of the input |
| TtcRounds.PoolExtended | matchingmarkets/algorithms/TTC.py:101-117 | logging a round's pool before the purge keeps that log: it starts with the input, each entry's purge is that round's pool, and each entry is what the round before left of its pool, in order |
| TtcRounds.Covered | matchingmarkets/algorithms/TTC.py:101-158 | after a round every input name is still matched, in the pool, or dropped by the purge of this or an earlier round |
| TtcRounds.Gone | matchingmarkets/algorithms/TTC.py:111-158 | after a round no name dropped by a purge is matched or back in the pool |
| TtcRounds.Recorded | matchingmarkets/algorithms/TTC.py:101-158 | after a round that does not raise, the pool and `matched` stay disjoint, `matched` a permutation of input names, and without the purge every input name is matched or still in the pool |
| TtcRounds.NoneLost | matchingmarkets/algorithms/TTC.py:101-158 | without the purge a round loses no input name |
| TtcRounds.RecordedLog | matchingmarkets/algorithms/TTC.py:101-158 | logging a round keeps the pools before and after the purge as the log describes them |
| TtcRounds.RecordedLeavers | matchingmarkets/algorithms/TTC.py:101-158 | logging a round keeps every input name matched, in the pool or dropped, and every dropped name out of both |
| TtcRounds.GoneAt | matchingmarkets/algorithms/TTC.py:111-158 | a name dropped in any round so far, this one included, is neither matched nor in the pool after this round |
| TtcRounds.CoveredAt | matchingmarkets/algorithms/TTC.py:111-117 | an input name neither matched nor in the purged pool was dropped in an earlier round or by this round's purge |
| TtcRounds.Finished | matchingmarkets/algorithms/TTC.py:101-160 | once the pool is empty, every input name is matched or was dropped, and no dropped name is matched |
| TtcRounds.Trade | matchingmarkets/algorithms/TTC.py:97-160 | a returned result is a permutation of names of input agents, and of all of them when nobody is purged; a run raises `KeyError` exactly when some round's purged pool holds an agent whose top choice has no choice left, and that round is then the last one logged, every earlier round free of such agents; a run in which everyone ranks themselves always returns; each round's pool before the purge is the input or what the round before left of its pool, in the same order, and its purge gives that round's pool; those pools are nested sub-rosters of the input; a returned result matches exactly the input names that no purge dropped; every name that leaves round `r` is matched with an agent that ranks it first in round `r` and leaves in the same round, every matched name left in some round, and the agents that stay after round `r` carry depths that fall along their top choices, so no cycle of top choices stays behind |
| TtcRounds.TopTradingCycles | matchingmarkets/algorithms/TTC.py:85-160 | TTC ranked by expected utility, with the purge: returns a permutation of input agents' names, raises exactly in a round whose purged pool holds an agent whose top choice (by expected utility) has no choice left, that round being the last logged, and always returns when everyone ranks themselves; each round's pool is the purge of what the round before left of its pool, in the same order, the first the purged input; a returned result matches exactly the input names that no purge dropped; the names leaving each round are matched with partners that rank them first by expected utility in that round and leave with them, and no cycle of that round's top choices stays |
| TtcRounds.TopTradingCyclesByUtility | matchingmarkets/algorithms/algorithms.py:138-188 | TTC ranked by utility without the purge, as in this revision and the oldest one (algorithms.py:120-170): a returned result is a permutation of exactly the input agents' names; the run raises exactly in a round whose pool holds an agent whose top choice (by utility) has no choice left, that round being the last logged; the names leaving each round are matched with partners that rank them first by utility in that round and leave with them, and no cycle of that round's top choices stays; the pools of the rounds are nested, the first the whole input |
| TtcRounds.StayersAcyclic | matchingmarkets/algorithms/TTC.py:140-158 | a set of agents left in the pool by a round, in which everyone ranks some member first in that round, is empty: every cycle of top choices leaves |
| TtcRounds.NoCycleStays | matchingmarkets/algorithms/TTC.py:101-158 | the same, for every round of a logged run |
| TtcRounds.Descending | matchingmarkets/algorithms/TTC.py:140-158 | in a set where each member has a member of smaller depth, every depth is at least any `d`; so such a set is empty |
| TtcRounds.StayersWait | matchingmarkets/algorithms/TTC.py:135-158 | after settling, every agent still in the pool has a greater depth than its top choice if that choice is still in the pool |
| TtcRounds.StayerWaits | matchingmarkets/algorithms/TTC.py:119-158 | one stayer: its one successor in the preference graph is its top choice, and that choice lies in an earlier component |
| TtcRounds.SingletonBefore | matchingmarkets/algorithms/TTC.py:140-154 | a node not matched by settling is a single-node component without a self-loop, so its successor lies in an earlier component |
| TtcRounds.UnmatchedAlone | matchingmarkets/algorithms/TTC.py:140-154 | a node that settling left unmatched is alone in its component, and that component is no cycle |
| TtcRounds.Calm | matchingmarkets/algorithms/TTC.py:101-160 | logging a round with no agent whose top choice has no choice left keeps every logged round free of such agents |
| TtcRounds.RaisedLogged | matchingmarkets/algorithms/TTC.py:101-143 | logging the round that raises keeps the pools and purged pools described, and makes it the only logged round with an agent whose top choice has no choice left |
| TtcRounds.Advanced | matchingmarkets/algorithms/TTC.py:101-158 | one round of the `while` loop keeps the run invariant, with the pool, the purged pool and the depths of the round appended to the logs |
| TtcRounds.AdvancedKept | matchingmarkets/algorithms/TTC.py:101-158 | one round keeps the pool and `matched` disjoint and drawn from the input, the logs describing the pools, and every input name matched, in the pool or dropped |
| TtcRounds.Begun | matchingmarkets/algorithms/TTC.py:97-100 | before the first round, with the whole input in the pool, nothing matched and nothing logged, the run invariant holds |
| TtcRounds.RecordedDepartures | matchingmarkets/algorithms/TTC.py:140-158 | logging a round keeps who left in which round: earlier leavers as they were, and this round's leavers matched with partners that rank them first in it and leave with them |
| TtcRounds.LeftThen | matchingmarkets/algorithms/TTC.py:140-158 | a name that leaves some logged round is matched with a partner that ranks it first in that round and leaves with it |
| TtcRounds.LeftEarlier | matchingmarkets/algorithms/TTC.py:140-158 | the same, for a round logged before this one |
| TtcRounds.LeftNow | matchingmarkets/algorithms/TTC.py:140-158 | a name gone from the pool that logging keeps left in the same earlier round |
| TtcRounds.KeyLeft | matchingmarkets/algorithms/TTC.py:140-158 | every key of `matched` after a round left in this round or an earlier one |
| TtcRounds.KeyLeftEarlier | matchingmarkets/algorithms/TTC.py:140-158 | a key matched before the round left in an earlier round |
| TtcRounds.KeyLeftNow | matchingmarkets/algorithms/TTC.py:140-158 | a name of the round's pool gone from the pool it leaves left in this round |
| TtcRounds.RecordedWaiting | matchingmarkets/algorithms/TTC.py:140-158 | logging a round whose stayers wait keeps every logged round's stayers waiting |
| Bilateral.AvailableMeans | matchingmarkets/algorithms/basic.py:64-68 | the cleaning keeps exactly the neighbours that are not market agents who have left the pool |
| Bilateral.DropTaken | matchingmarkets/algorithms/basic.py:64-68 | the reversed removal loop, here and in algorithms/algorithms.py:42-46, leaves exactly the available neighbours, in order |
| Bilateral.DropTakenForward | matchingmarkets/algorithms.py:35-39 | the forward removal loop leaves exactly what `Skipping` defines: after each removal the next name is not examined |
| Bilateral.SkippingDropsOnlyTaken | matchingmarkets/algorithms.py:36-39 | the forward loop removes only market agents that have left the pool, and keeps only names of the list |
| Bilateral.SkippingKeepsTaken | matchingmarkets/algorithms.py:36-39 | a witness: for the neighbour list [1, 2] of a market [1, 2] whose pool is empty, both names are taken, yet the forward loop keeps 2 |
| Bilateral.Partner | matchingmarkets/algorithms/basic.py:75-76 | the chosen partner is one of the cleaned neighbours |
| Bilateral.Cleaned | matchingmarkets/algorithms/basic.py:59-68 | every cleaned name is a neighbour with a positive success probability; in the later revisions none has left the pool while still in the market |
| Bilateral.TurnMutual | matchingmarkets/algorithms/basic.py:55-87 | one turn keeps every result key out of the pool and every market pair pointing both ways; the pool only shrinks, and a market agent's entry is never overwritten |
| Bilateral.WalkMutual | matchingmarkets/algorithms/basic.py:55-87 | over the whole walk, no market agent is matched twice and each market match is recorded both ways |
| Bilateral.LegacyMatchesTwice | matchingmarkets/algorithms.py:30-50 | in the oldest revision, a three-agent market ends with agent 1 pointing at 2 while 2 points at 3 |
| Bilateral.ArbitraryMatch | matchingmarkets/algorithms/basic.py:23-91 | all three revisions (also algorithms/algorithms.py:19-69, and algorithms.py:19-51 with `legacy` set): the result is the walk's; in the two later revisions every market pair points both ways, and every key is an initiator or not a market agent |
| Bilateral.SortBy | matchingmarkets/algorithms/basic.py:131 | sorting neither adds nor loses an agent |
| Bilateral.InsertAscending | matchingmarkets/algorithms/basic.py:131 | inserting before the first agent whose key is not smaller keeps keys ascending |
| Bilateral.SortByAscending | matchingmarkets/algorithms/basic.py:131 | `AgentOrder.sort(key=order)` gives a permutation of the agents in ascending key order |
| Bilateral.InsertStable | matchingmarkets/algorithms/basic.py:131 | inserting an agent puts it before every agent with the same key and leaves their order alone |
| Bilateral.SortByStable | matchingmarkets/algorithms/basic.py:131 | the sort is stable: the agents sharing a key come out in their input order |
| Bilateral.DepartedNeighbors | matchingmarkets/algorithms/basic.py:59 | in the witness market, agents 1 and 3 have the departed agent 2 as their only neighbour |
| Bilateral.DepartedTurns | matchingmarkets/algorithms/basic.py:55-87 | in the later revisions, agents 1 and 3 of the market [1, 3] both take the departed agent 2, and 2's entry is overwritten |
| Bilateral.DepartedTakenTwice | matchingmarkets/algorithms/basic.py:64-68 | a witness: the cleaning keeps a neighbour outside the market, so in the market [1, 3] agent 1 points at 2 while 2 points at 3, under both rules |
| Bilateral.WalkWithin | matchingmarkets/algorithms/basic.py:55-87 | when the cleaning also drops names outside the market, every key and every partner is a market agent |
| Bilateral.InPoolMutual | matchingmarkets/algorithms/basic.py:55-87 | when the cleaning also drops names outside the market, every match points both ways, for either rule |
| Bilateral.ArbitraryMatchInPool | matchingmarkets/algorithms/basic.py:23-91 | `arbitraryMatch` with a cleaning that also drops names outside the market: the result is a matching among market agents, each pair recorded both ways |
| Bilateral.SerialDictatorshipInPool | matchingmarkets/algorithms/basic.py:94-188 | `serialDictatorship` with a cleaning that also drops names outside the market: the result is a matching among market agents, each pair recorded both ways |
| Bilateral.DictatorTurn | matchingmarkets/algorithms/basic.py:140-184 | one pass of the loop is the model's turn: an initiator still in the pool with a cleaned neighbour is paired both ways with its best one, and both leave the pool; otherwise nothing changes |
| Bilateral.SerialDictatorship | matchingmarkets/algorithms/basic.py:94-188 | the agents are walked in ascending `order`; no market agent is matched twice; every market pair points both ways; every key is an initiator or not a market agent |
| Bilateral.DictatorPicksBest | matchingmarkets/algorithms/basic.py:163-173 | the dictator's pick is a cleaned neighbour with positive success probability; no other scores higher, and every earlier key scores strictly lower |
| Da.SidesSplit | matchingmarkets/algorithms/DA.py:62-74 | there are no sides exactly when neither is given; a scalar side is that one type; with an empty side, every type present falls on exactly one side |
| Da.MembersMeans | matchingmarkets/algorithms/DA.py:87-88 | `men` and `fem` are exactly the agents whose type is on that side |
| Da.PartiesReady | matchingmarkets/algorithms/DA.py:87-88 | both sides of a roster in which everybody ranks everybody are rosters that rank each other |
| Da.Start | matchingmarkets/algorithms/DA.py:91-95 | every proposer starts with an empty rejection list and there are no matches |
| Da.TopIsFirstBest | matchingmarkets/algorithms/DA.py:116 | `max(..., key=...)` over a dict returns a name no other scores above, and every name before its first occurrence scores strictly lower |
| Da.OpenMeans | matchingmarkets/algorithms/DA.py:113-115 | a proposer may propose exactly to the acceptors that have not rejected it |
| Da.PickIsBest | matchingmarkets/algorithms/DA.py:112-116 | a proposer has no pick exactly when every acceptor has rejected it; otherwise no acceptor that has not rejected it scores higher |
| Da.Propose | matchingmarkets/algorithms/DA.py:111-116 | the proposer loop gives the proposals of the round |
| Da.ProposalsMeans | matchingmarkets/algorithms/DA.py:111-116 | the proposals are missing exactly when some proposer has nobody left; otherwise each proposer proposes to its pick |
| Da.RoundProposes | matchingmarkets/algorithms/DA.py:111-116 | a round's proposals are missing exactly when some proposer has been rejected by every acceptor, and are otherwise each proposer's pick |
| Da.ProposersMeans | matchingmarkets/algorithms/DA.py:120-121 | `myproposals` holds exactly the proposers to that acceptor |
| Da.ChoiceIsBest | matchingmarkets/algorithms/DA.py:119-122 | an acceptor has no choice exactly when nobody proposed to her; otherwise her choice proposed to her and no proposer scores higher |
| Da.ChosenMeans | matchingmarkets/algorithms/DA.py:119-124 | the pairs are missing exactly when some acceptor has no proposal; otherwise each acceptor is paired with her choice |
| Da.RecordBothWays | matchingmarkets/algorithms/DA.py:123-124 | pairs over distinct names are recorded in both directions |
| Da.RecordOverrides | matchingmarkets/algorithms/DA.py:123-124 | a round's writes override the earlier matches |
| Da.RecordTwice | matchingmarkets/algorithms/DA.py:123-124 | writing the same pairs twice is writing them once |
| Da.RejectLosers | matchingmarkets/algorithms/DA.py:126-128 | the loser loop adds the acceptor to the list of every proposer except the chosen one |
| Da.RejectingMeans | matchingmarkets/algorithms/DA.py:126-128 | for distinct losers, each loser other than the chosen proposer gets the acceptor appended, and every other list is unchanged |
| Da.RejectGrown | matchingmarkets/algorithms/DA.py:126-128 | rejection lists only grow, each by the acceptor its proposer proposed to |
| Da.GrownPairs | matchingmarkets/algorithms/DA.py:126-128 | growing lists by acceptors not yet on them strictly increases the set of rejected pairs, unless nothing changed |
| Da.Choose | matchingmarkets/algorithms/DA.py:119-128 | the acceptor loop gives the choices of the round, applied to matches and rejections |
| Da.Round | matchingmarkets/algorithms/DA.py:107-128 | one iteration is the proposer loop followed by the acceptor loop |
| Da.RoundKeepsBest | matchingmarkets/algorithms/DA.py:119-124 | after a round that does not raise, each acceptor holds her best proposer, who holds her back |
| Da.RoundGrows | matchingmarkets/algorithms/DA.py:126-128 | a round appends to each list only an acceptor that had not rejected that proposer, so the rejected pairs grow whenever a list changes |
| Da.RoundRepeats | matchingmarkets/algorithms/DA.py:99-128 | a round's writes do not depend on the starting matches, so a round that rejects nobody is a fixed point |
| Da.StuckForever | matchingmarkets/algorithms/DA.py:99 | from a fixed point that the loop continues from, every later iteration gives the same state |
| Da.Iterate | matchingmarkets/algorithms/DA.py:99-128 | one iteration either ends the run with its outcome or gives the next state with strictly more rejected pairs |
| Da.Rounds | matchingmarkets/algorithms/DA.py:97-128 | the `while` loop ends where the run from the start leads; a finished run with both sides present and no agent on both sides pairs every acceptor with a proposer who holds her back |
| Da.GaleShapley | matchingmarkets/algorithms/DA.py:61-132 | no result exactly when no side is given; otherwise the outcome of running rounds from the start while the number of match entries differs from both side sizes |
| Markets.Market.constructor | matchingmarkets/market.py:46-56 | an empty market at period 0 with the given rate, probability and cap |
| Markets.Market.Critical | matchingmarkets/market.py:172-181 | the count is the number of critical active agents, the ones `Patient` submits by default |
| Markets.Newcomers | matchingmarkets/market.py:100-109 | one newcomer per arrival, with consecutive names from the admission count, sojourn 0 and empty maps |
| Markets.NewcomersJoin | matchingmarkets/market.py:100-109 | newcomers named from the admission count keep the active list's names distinct and below the new count |
| Markets.Market.Arrive | matchingmarkets/market.py:100-109 | the newcomers are appended and the admission count grows by the number of arrivals |
| Markets.ExtendedKeeps | matchingmarkets/market.py:113-122 | extending an agent's maps keeps its identity and its earlier keys in order, and adds exactly the counterparts' names |
| Markets.ExtendedLeaves | matchingmarkets/market.py:113-122 | entries for names that are not counterparts are unchanged |
| Markets.ExtendedScores | matchingmarkets/market.py:113-122 | each counterpart gets the callbacks' utility and success scores |
| Markets.AddAll | matchingmarkets/market.py:112-122 | the inner `addNewToMap` loop extends the agent by every counterpart in turn |
| Markets.Split | matchingmarkets/market.py:111-112 | `Agents[-k:]` is the last `k` agents, and the whole list when `k` is 0 |
| Markets.FilledMeans | matchingmarkets/market.py:110-138 | earlier agents are scored against every newcomer; each newcomer is scored against every agent, itself included; all other entries are kept |
| Markets.FilledBelow | matchingmarkets/market.py:110-138 | map filling keeps names distinct and below the admission count |
| Markets.Market.FillMaps | matchingmarkets/market.py:110-138 | both filling loops leave the active list as `Filled` defines it |
| Markets.Market.Admit | matchingmarkets/market.py:96-138 | arrivals are admitted and maps filled only while the admission count is below the cap |
| Markets.Market.Age | matchingmarkets/market.py:141-142 | every active agent ages by one period |
| Markets.Market.Tick | matchingmarkets/market.py:139-142 | time advances by exactly one and every active agent ages |
| Markets.GreedyAfterAging | matchingmarkets/market.py:139-144 | the schedule reads the aged agents, so `Greedy` submits nobody from within an update |
| Markets.StripSelf | matchingmarkets/market.py:145-150 | exactly the self-pointing entries are deleted and every other entry is kept |
| Markets.Market.Match | matchingmarkets/market.py:143-154 | the matches are the schedule's run, stripped of self-matches unless allowed, and are merged into `matched_dict` |
| Markets.SiftMeans | matchingmarkets/market.py:157-165 | each list holds exactly the agents of its fate, with no agent twice |
| Markets.SiftSplits | matchingmarkets/market.py:157-165 | matched, perished and staying agents account for every active agent |
| Markets.WelfareGrows | matchingmarkets/market.py:158-159 | non-negative gains give non-negative welfare |
| Markets.Market.Classify | matchingmarkets/market.py:157-165 | a matched agent moves to `matched` and adds its gain to welfare; otherwise a critical agent moves to `perished`; both are listed for removal in market order |
| Markets.Without | matchingmarkets/market.py:166-167 | `list.remove` of a listed agent shortens the list by one |
| Markets.WithoutKeep | matchingmarkets/market.py:166-167 | removing one more listed agent excludes it as well |
| Markets.RemoveStep | matchingmarkets/market.py:166-167 | the `j`-th `remove` excludes the first `j + 1` leavers |
| Markets.KeepStays | matchingmarkets/market.py:166-167 | excluding exactly the leavers keeps exactly the agents that stay |
| Markets.Market.RemoveAll | matchingmarkets/market.py:166-167 | the `remove` loop leaves exactly the staying agents, in order |
| Markets.SettleFits | matchingmarkets/market.py:157-167 | the leavers are distinct active agents, exactly those who do not stay; those who stay have distinct names; the three fates account for everyone |
| Markets.Market.Settle | matchingmarkets/market.py:156-167 | matched and perished agents move to their histories, welfare grows by the gains, and the active list keeps the rest; every admitted agent is still active, matched or perished |
| Markets.Fraction.Value | matchingmarkets/market.py:169-170 | the loss ratio lies between 0 and 1 |
| Markets.Market.Account | matchingmarkets/market.py:168-170 | after period 10 the loss is the perished share of all admitted agents; before then it is unchanged |
| Markets.Market.Enter | matchingmarkets/market.py:96-142 | admission below the cap, then time and every agent advance by one period |
| Markets.Market.Resolve | matchingmarkets/market.py:143-170 | the matches come from the schedule and are merged; agents are split into matched, perished and staying; welfare and loss are updated |
| Markets.Market.Update | matchingmarkets/market.py:58-170 | one period: admission below the cap, ageing, the scheduled matches, the three-way split of the active agents, welfare and loss; the admitted agents stay split between active, matched and perished |
| Meta.Submitted | matchingmarkets/metaalgorithms.py:24-26 | the submitted agents are, in market order, exactly those the schedule selects: all of them, those critical or of sojourn `a`, or those of sojourn 0 |
| Meta.AlwaysAll | matchingmarkets/metaalgorithms.py:11-15 | `meta_Always` submits the whole active list |
| Meta.PatientDefault | matchingmarkets/metaalgorithms.py:18-26 | with the default infinite patience, exactly the critical agents are submitted |
| Meta.Selects | matchingmarkets/metaalgorithms.py:11-33 | `Always` submits everyone, every schedule but `Greedy` submits a critical agent, and `Greedy` submits exactly the agents of sojourn 0 |
| Meta.Run | matchingmarkets/metaalgorithms.py:11-33 | the algorithm's result on the submitted agents is returned unchanged, and under `Always` the algorithm sees the whole market |
| Generators.PyMod | matchingmarkets/generators/basic.py:62 | Python's `%` takes the sign of the divisor and agrees with Dafny's for a positive divisor |
| Generators.TypeCounter.constructor | matchingmarkets/generators/basic.py:56-58 | the counter starts at -1 |
| Generators.TypeCounter.Next | matchingmarkets/generators/basic.py:56-62 | each call increments the counter first and returns it modulo `numTypes`; dividing by zero gives no type |
| Generators.AlternatingTypes | matchingmarkets/generators/basic.py:48-62 | successive calls on a fresh counter give 0, 1, 2, … modulo `numTypes` |
| Generators.StochasticNeighborSameType | matchingmarkets/generators/basic.py:90-101 | 1 exactly when the draw is at or below the cutoff and the agents are distinct and of the same type, otherwise 0 |
| Generators.RngDraw | matchingmarkets/generators/basic.py:104-116 | as written this is 1 exactly when `utilities.rngDraw` gives 0 |
| Generators.StdCompat | matchingmarkets/generators/basic.py:119-124 | the compatibility is the cutoff itself, whoever the two agents are |
| Generators.UtilSameType | matchingmarkets/generators/basic.py:134-139 | the cutoff (what `std_compat` returns) for a same-type pair, oneself included, and 0 otherwise |
| Generators.TransplantCompatibility | matchingmarkets/generators/basic.py:158-186 | no result for an unrecognised donor; otherwise the cutoff exactly when the donor's ABO antigens are all on the recipient, ignoring Rhesus |
| Generators.BloodCompatibilityAsWritten | matchingmarkets/generators/basic.py:189-237 | no result exactly for an unrecognised donor; otherwise the cutoff or 0, and for every donor but A+ the cutoff exactly when the donor is red-cell compatible with the recipient |
| Generators.BloodAgreesOffAPlus | matchingmarkets/generators/basic.py:189-237 | for every donor but A+, the table as written equals the corrected one |
| Generators.BloodTableExtremes | matchingmarkets/generators/basic.py:198-234 | an O- donor gives to everyone, and an AB+ donor only to AB+ |
| Generators.BloodAsWrittenAcceptsAPlusToOPlus | matchingmarkets/generators/basic.py:220-224 | the A+ row accepts an O+ recipient, which red-cell compatibility rejects |
| Generators.BloodCompatibility | matchingmarkets/generators/basic.py:189-237 | with the A+ row corrected, the table is exactly red-cell compatibility: ABO antigens contained, Rh+ only to Rh+ |
| Generators.BloodImpliesTransplant | matchingmarkets/generators/basic.py:158-237 | a red-cell compatible donor is also transplant compatible |
| Utilities.NeighborSameType | matchingmarkets/utilities.py:14-21 | true exactly for the same type and different names, so never for an agent with itself; the copy in generators/basic.py:72-79 is the same test |
| Utilities.NeighborSameTypeWithSelf | matchingmarkets/utilities.py:24-29 | always true of an agent with itself (the copy at generators/basic.py:82-87 is the same test) |
| Utilities.UtilSameType | matchingmarkets/utilities.py:32-40 | 1 exactly for a same-type partner other than oneself, so self-utility is 0 |
| Utilities.UtilSameTypeWithSelf | matchingmarkets/utilities.py:43-49 | 1 exactly for the same type, oneself included, and never below `utilSameType` |
| Utilities.SameTypeSymmetric | matchingmarkets/utilities.py:14-49 | both same-type tests, the one including oneself too, and both utilities do not depend on argument order |
| Utilities.RngDraw | matchingmarkets/utilities.py:52-64 | 1 exactly when the draw is at or below the cutoff, otherwise 0 |

## Left out

- Random sources are inputs: `poisson.rvs`, `random.choice`, `np.random.*`, `randomType` and `blood_types`. `blood_types` is float-threshold sampling and is not modelled.
- Printing and every `verbose` branch are left out; they have no effect on state.
- The networkx wrappers `max_weight_matching` and `max_cardinality_matching` are left out. They call a foreign library and need a `Mrkt.Graph` that the market never builds.
- The simulation harness, the kidney solvers, the tests, the demo scripts and the packaging are not part of this model.
- `matchingmarkets/agent.py` is not part of this model. The agent is an abstract value with the attributes the engine reads.
- The discount rate is not modelled; no modelled code reads it. `utilFct()` is the `gain` parameter of `Market.Update`.
- Markets.Extended: every callback sees the agents as they were before this period's map filling. In the source, a callback may see entries that were already added in the same period. The source's callbacks read only types and names, which filling does not change.
- Markets.Market.Update: the loss is the exact fraction `len(perished) / total_agents`, not a floating-point quotient. Division by a zero count is excluded by a precondition, which the source does not check.
- Markets.Market.Critical: models the intended count of critical agents. The source reads a nonexistent `self.agents` and would raise.
- The zero-arrival refill is modelled as written: `Agents[:-0]` is empty and `Agents[-0:]` is the whole list. So is each newcomer's entry for itself: `i != newAgent` compares an index with an agent and is always true.
- `matched_dict.update(matches)` runs twice in the source, and `Markets.Market.Match` merges twice as well. The second merge of the same map changes nothing.
- Markets.GreedyAfterAging: the source ages agents before scheduling, so `meta_Greedy` inside `update` submits nobody. This is modelled as written.
- Da.GaleShapley: models the intended reading of `gale_shapley`:
  - the proposers and acceptors are the agents whose type is on each side, where the source compares names with types;
  - dictionaries are keyed by agent names, where the source mixes agents and names;
  - an acceptor keeps the proposer she ranks highest by her own `match_util`, where the source's `max` compares equal values and would keep the first proposer.
- Da.GaleShapley: `for man, v in proposals` (matchingmarkets/algorithms/DA.py:120) iterates over the dictionary's keys and, as written, cannot unpack an agent into two names; it raises `TypeError` as soon as an acceptor looks at a non-empty `proposals`. The model reads it as `proposals.items()`, the evident intent.
- Da.GaleShapley: leaves out the `m_order` and `f_order` parameters and the two sorts they drive (matchingmarkets/algorithms/DA.py:80-81). By then `m` and `f` are lists of agent types, with a missing side turned into `[None]`. The default keys read `time_to_critical` and `sojourn` of each element, so as written the sort raises `AttributeError` on every non-empty side before any proposal. Under the intended reading the sort changes nothing that matters, because the proposers and acceptors are rebuilt in the order of the input agents (DA.py:87-88). The model takes them in input order.
- Da.GaleShapley: a `max` over an empty dictionary raises in Python; the model returns `Raised`. A round that rejects nobody repeats forever; the model returns `Diverges`.
- Da.GaleShapley: requires every agent to rank every agent, where the source would raise `KeyError` on a missing entry. Agents of a market after map filling meet this requirement.
- TtcRounds.Trade: a singleton that is not a key of the preference graph raises `KeyError` in the source; the model returns `Raised`, and proves that this happens exactly in a round where some agent's top choice has no choice left. A round that removes nobody repeats forever; the model returns `Diverges`. Termination is proved only when every agent ranks itself, which map filling guarantees in a market; for other inputs the model does not characterise when a round removes nobody. The same holds for TtcRounds.TopTradingCycles and TtcRounds.TopTradingCyclesByUtility, which call it.
- Scc.StronglyConnectedComponents: does not prove that each component is a maximal strongly connected set, nor the reverse topological order of components of two or more nodes. It proves the partition, that every successor of a covered node is covered, the invariants of the search, the reverse topological order for single-node components (which makes the first component closed), and, when every key has one successor, that each component of two or more nodes runs against the edges, which is what TTC needs.
- Scc.StrongConnect: `strongconnect` recurses once per level of the depth-first search (matchingmarkets/algorithms/TTC.py:43-58), so a chain of top choices deeper than Python's recursion limit raises `RecursionError`. The model's recursion has no such limit.
- Bilateral.ArbitraryMatch: `random.choice` is the draw `draws[i] % n` of the `i`-th initiator, not a uniform distribution.
- Bilateral.ArbitraryMatch: the working pool `AgentCopy` is modelled as the set of its names. The rules only ask whether an agent is still in it, and input names are distinct.
- Bilateral.ArbitraryMatch: symmetry is proved only for pairs of market agents. The cleaning keeps neighbours outside the market, so two initiators can take the same departed agent and the second overwrites its entry (Bilateral.DepartedTakenTwice). Bilateral.ArbitraryMatchInPool proves full symmetry for a cleaning that also drops names outside the market.
- Bilateral.SerialDictatorship: the same holds for the dictator's walk. Bilateral.DepartedTakenTwice covers both rules, and Bilateral.SerialDictatorshipInPool proves full symmetry for the stricter cleaning.
- Bilateral.SortBy: `order` returns integers, where the source allows any real-valued key.
- Ttc.Score: utilities, success probabilities and their products are exact `real` values, where the source multiplies Python floats. Under rounding two products can tie or swap, and the stable sort then picks a different top choice. Ttc.ChoiceIsTop, Ttc.BestIsTop and the `util` and `prob` maps of `Agents.Agent` share this exact reading.
- Agents.Agent.Neighbors, Agents.Agent.IsCritical, Agents.Agent.Update and Agents.Agent.AddNewToMap are assumed behaviour of the agent class, which is not part of this model: the neighbours are the keys with a positive success probability, an agent is critical once its sojourn reaches its time to critical, one period adds one to the sojourn, and recording a counterpart assigns both dictionary entries and appends the key at the end of the key order when it is new. Bilateral.Cleaned, Bilateral.DictatorPicksBest, Ttc.Purge, Markets.Market.Classify, Markets.GreedyAfterAging and Markets.Market.FillMaps rest on these four definitions.
- Generators.TransplantCompatibility, Generators.BloodCompatibilityAsWritten and Generators.BloodCompatibility take the two blood types as strings. They leave out the `assert type(...) is str` checks and their AssertionError. They read the donor's `type2` against the recipient's `type`, as the source does. The model's `Agents.Agent.kind` is an integer, so in the model's own market these tests would raise in the source; they are modelled apart from the market.
- Scheduling policies named only in the tests (`meta_periodic`, `meta_agents_critical`) are not part of this model.

## Findings

| source | as written | input that shows it | evidently intended | confidence | as-written member | corrected member |
|---|---|---|---|---|---|---|
| matchingmarkets/algorithms.py:36-39 | removing from `myNeighbors` while iterating forward skips the name after each removal, so a market agent who already left the pool can be chosen again | agents 1 (neighbour 2), 2 (no neighbours), 3 (neighbours 1, 2), all drawing index 0: agent 1 takes 2, then agent 3 also takes 2, so 1 points at 2 while 2 points at 3 | every neighbour who has left the pool is removed, as the later revisions do by iterating in reverse | not executed; high | Bilateral.LegacyMatchesTwice | Bilateral.WalkMutual |
| matchingmarkets/generators/basic.py:220-224 | the A+ donor row accepts AB+, A+, B+ and O+ recipients (it repeats the O+ row) | donor "A+", recipient "O+" gives the cutoff | an A+ donor gives only to AB+ and A+ recipients | not executed; high | Generators.BloodAsWrittenAcceptsAPlusToOPlus | Generators.BloodCompatibility |
| matchingmarkets/generators/basic.py:112-116 | `rngDraw` returns 1 when the draw exceeds the cutoff | draw 0.2, cutoff 0.9 gives 0 | 1 when the draw is at or below the cutoff, as the docstring and `utilities.rngDraw` say | not executed; medium | Generators.RngDraw | Utilities.RngDraw |
