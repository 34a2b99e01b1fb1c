/**
 * The bilateral rules `arbitraryMatch` (three revisions) and
 * `serialDictatorship`. The input agents are walked in turn; an agent
 * already taken out of the working pool `AgentCopy` is skipped; otherwise
 * its neighbour list is cleaned of market agents that have left the pool,
 * a partner is picked from what is left, the match is recorded in both
 * directions, and both parties leave the pool.
 *
 * The pool is modelled as the set of names of `AgentCopy`: the rules only
 * ever ask whether an agent, or a name, is still in it, and the input
 * agents carry distinct names.
 */
module Bilateral {
  import opened Seqs
  import opened Agents
  import opened Ttc

  // ---------------------------------------------------------------------
  // Cleaning a neighbour list
  // ---------------------------------------------------------------------

  /** A name the cleaning drops: an agent of the market that is no longer in the pool. */
  predicate Taken(n: Name, market: seq<Name>, pool: set<Name>)
  {
    n in market && n !in pool
  }

  /** The names of `ns` that are not taken, in order. */
  function Available(ns: seq<Name>, market: seq<Name>, pool: set<Name>): seq<Name>
  {
    if ns == [] then []
    else
      var head := if Taken(ns[0], market, pool) then [] else [ns[0]];
      head + Available(ns[1..], market, pool)
  }

  /** `Available` keeps exactly the names that are not taken. */
  lemma {:induction false} AvailableMeans(ns: seq<Name>, market: seq<Name>, pool: set<Name>)
    ensures forall n :: n in Available(ns, market, pool) <==> n in ns && !Taken(n, market, pool)
  {
    if ns != [] {
      AvailableMeans(ns[1..], market, pool);
      assert ns == [ns[0]] + ns[1..];
    }
  }

  /**
   * The cleaning loop of the two later revisions: walk the list from the
   * back and remove every taken name. Neighbour names are dictionary keys,
   * so the value `remove` deletes is the one at the current position.
   */
  method DropTaken(ns: seq<Name>, market: seq<Name>, pool: set<Name>) returns (r: seq<Name>)
    ensures r == Available(ns, market, pool)
  {
    r := ns;
    var i := |ns|;
    while i > 0
      invariant 0 <= i <= |ns|
      invariant r == ns[..i] + Available(ns[i..], market, pool)
    {
      i := i - 1;
      assert ns[i..] == [ns[i]] + ns[i + 1..];
      assert ns[..i + 1] == ns[..i] + [ns[i]];
      if Taken(r[i], market, pool) {
        r := r[..i] + r[i + 1..];
      }
    }
  }

  /**
   * What the forward cleaning loop of the oldest revision keeps: removing
   * the current name while iterating shifts the next one into its place,
   * so the iteration never looks at it.
   */
  function Skipping(ns: seq<Name>, market: seq<Name>, pool: set<Name>): seq<Name>
  {
    if ns == [] then []
    else if !Taken(ns[0], market, pool) then [ns[0]] + Skipping(ns[1..], market, pool)
    else if |ns| == 1 then []
    else [ns[1]] + Skipping(ns[2..], market, pool)
  }

  /** The forward cleaning loop of the oldest revision, removing from the list it iterates over. */
  method DropTakenForward(ns: seq<Name>, market: seq<Name>, pool: set<Name>) returns (r: seq<Name>)
    ensures r == Skipping(ns, market, pool)
  {
    r := ns;
    var i := 0;
    while i < |r|
      invariant 0 <= i <= |r|
      invariant Skipping(ns, market, pool) == r[..i] + Skipping(r[i..], market, pool)
      decreases |r| - i
    {
      SkippingAt(r, i, market, pool);
      if Taken(r[i], market, pool) {
        if i + 1 < |r| {
          r, i := r[..i] + r[i + 1..], i + 1;
        } else {
          r := r[..i];
        }
      } else {
        i := i + 1;
      }
    }
    assert r[..i] == r && r[i..] == [];
  }

  /** One pass of the forward loop at position `i` of `r`: what is settled and what is left. */
  lemma SkippingAt(r: seq<Name>, i: nat, market: seq<Name>, pool: set<Name>)
    requires i < |r|
    ensures var whole := r[..i] + Skipping(r[i..], market, pool);
      && (!Taken(r[i], market, pool) ==> whole == r[..i + 1] + Skipping(r[i + 1..], market, pool))
      && (Taken(r[i], market, pool) && i + 1 < |r| ==>
            var r' := r[..i] + r[i + 1..]; whole == r'[..i + 1] + Skipping(r'[i + 1..], market, pool))
      && (Taken(r[i], market, pool) && i + 1 == |r| ==>
            whole == r[..i][..i] + Skipping(r[..i][i..], market, pool))
  {
    var t := r[i..];
    assert t[0] == r[i] && t[1..] == r[i + 1..];
    assert r[..i + 1] == r[..i] + [r[i]];
    if i + 1 < |r| {
      assert t[1] == r[i + 1] && t[2..] == r[i + 2..];
      var r' := r[..i] + r[i + 1..];
      assert r'[..i + 1] == r[..i] + [r[i + 1]] && r'[i + 1..] == r[i + 2..];
    } else {
      assert r[..i][..i] == r[..i] && r[..i][i..] == [];
    }
  }

  /** The forward cleaning drops only taken names, and keeps every name it does not drop in order. */
  lemma {:induction false} SkippingDropsOnlyTaken(ns: seq<Name>, market: seq<Name>, pool: set<Name>)
    ensures forall n :: n in Skipping(ns, market, pool) ==> n in ns
    ensures forall n :: n in ns && n !in Skipping(ns, market, pool) ==> Taken(n, market, pool)
  {
    if ns != [] {
      if !Taken(ns[0], market, pool) || |ns| == 1 {
        SkippingDropsOnlyTaken(ns[1..], market, pool);
        assert ns == [ns[0]] + ns[1..];
      } else {
        SkippingDropsOnlyTaken(ns[2..], market, pool);
        assert ns == [ns[0], ns[1]] + ns[2..];
      }
    }
  }

  /** Two taken neighbours in a row: the forward cleaning keeps the second. */
  lemma SkippingKeepsTaken()
    ensures Taken(2, [1, 2], {}) && Skipping([1, 2], [1, 2], {}) == [2]
  {
    assert Skipping([2], [1, 2], {}) == [];
  }

  // ---------------------------------------------------------------------
  // One walk over the initiating agents
  // ---------------------------------------------------------------------

  /** How a partner is picked among the cleaned neighbours. */
  datatype Rule =
    | Random(draws: seq<nat>)  // `random.choice`, the `i`-th initiator drawing `draws[i]`
    | Dictator                 // the highest `match_util`, ties to the first key

  /** The working pool and the result dictionary as the walk goes. */
  datatype Pass = Pass(pool: set<Name>, matched: map<Name, Name>)

  /** What the walk needs of the initiators and the draws. */
  ghost predicate Fit(agents: seq<Agent>, rule: Rule)
  {
    (forall a :: a in agents ==> a.Valid()) && (rule.Random? ==> |rule.draws| >= |agents|)
  }

  /** The partner initiator `a`, the `i`-th, picks among the cleaned neighbours `ns`. */
  function Partner(a: Agent, ns: seq<Name>, rule: Rule, i: nat): (b: Name)
    requires a.Valid() && ns != [] && (forall n :: n in ns ==> n in a.keys)
    requires rule.Random? ==> i < |rule.draws|
    ensures b in ns
  {
    match rule
    case Random(draws) => ns[draws[i] % |ns|]
    case Dictator =>
      ChoiceIsTop(a, ns, Utility);
      ChoiceInPool(a, ns, Utility);
      assert ns[0] in a.keys && ns[0] in ns;
      Choice(a, ns, Utility).value
  }

  /** The neighbours of `a` left after cleaning, by the forward loop when `legacy` is set. */
  function Cleaned(a: Agent, legacy: bool, market: seq<Name>, pool: set<Name>): (r: seq<Name>)
    ensures forall n :: n in r ==> n in a.keys && n in a.prob && a.prob[n] > 0.0
    ensures !legacy ==> forall n :: n in r ==> !Taken(n, market, pool)
  {
    a.NeighborsMeans();
    if legacy then
      SkippingDropsOnlyTaken(a.Neighbors(), market, pool);
      Skipping(a.Neighbors(), market, pool)
    else
      AvailableMeans(a.Neighbors(), market, pool);
      Available(a.Neighbors(), market, pool)
  }

  /** The turn of the `i`-th initiator `a`. */
  function Turn(a: Agent, i: nat, rule: Rule, legacy: bool, market: seq<Name>, p: Pass): Pass
    requires a.Valid() && (rule.Random? ==> i < |rule.draws|)
  {
    if a.name !in p.pool then p
    else
      var ns := Cleaned(a, legacy, market, p.pool);
      if ns == [] then p
      else
        var b := Partner(a, ns, rule, i);
        Pass(p.pool - {a.name} - {b}, p.matched[a.name := b][b := a.name])
  }

  /** The turns of `agents[i..]`, one after the other. */
  function Walk(agents: seq<Agent>, i: nat, rule: Rule, legacy: bool, market: seq<Name>, p: Pass): Pass
    requires i <= |agents| && Fit(agents, rule)
    decreases |agents| - i
  {
    if i == |agents| then p
    else
      assert agents[i] in agents;
      Walk(agents, i + 1, rule, legacy, market, Turn(agents[i], i, rule, legacy, market, p))
  }

  /** The names of some agents, as a set: the pool before the walk. */
  function Pool(s: seq<Agent>): set<Name>
  {
    set n | n in Names(s)
  }

  // ---------------------------------------------------------------------
  // What the walk keeps
  // ---------------------------------------------------------------------

  /**
   * Between turns: every key of the result has left the pool, and among
   * market agents the result pairs them both ways.
   */
  ghost predicate Mutual(market: seq<Name>, p: Pass)
  {
    && (forall k :: k in p.matched ==> k !in p.pool)
    && (forall k :: k in p.matched && k in market && p.matched[k] in market ==>
          p.matched[k] in p.matched && p.matched[p.matched[k]] == k)
  }

  /**
   * From `p` to `q`: the pool only shrinks, a market agent's entry is never
   * overwritten, and every new key was in the pool or is no market agent.
   */
  ghost predicate Settles(market: seq<Name>, p: Pass, q: Pass)
  {
    && q.pool <= p.pool
    && (forall k :: k in p.matched && k in market ==> k in q.matched && q.matched[k] == p.matched[k])
    && (forall k :: k in q.matched ==> k in p.matched || k in p.pool || k !in market)
  }

  /** One turn of the later revisions keeps `Mutual` and `Settles`. */
  lemma TurnMutual(a: Agent, i: nat, rule: Rule, market: seq<Name>, p: Pass)
    requires a.Valid() && (rule.Random? ==> i < |rule.draws|) && Mutual(market, p)
    ensures Mutual(market, Turn(a, i, rule, false, market, p))
    ensures Settles(market, p, Turn(a, i, rule, false, market, p))
  {
    if a.name in p.pool {
      var ns := Cleaned(a, false, market, p.pool);
      if ns != [] {
        var b := Partner(a, ns, rule, i);
        assert b in ns;
        assert b in p.pool || b !in market;
      }
    }
  }

  /** The whole walk of the later revisions keeps `Mutual` and `Settles`. */
  lemma {:induction false} WalkMutual(agents: seq<Agent>, i: nat, rule: Rule, market: seq<Name>, p: Pass)
    requires i <= |agents| && Fit(agents, rule) && Mutual(market, p)
    decreases |agents| - i
    ensures Mutual(market, Walk(agents, i, rule, false, market, p))
    ensures Settles(market, p, Walk(agents, i, rule, false, market, p))
  {
    if i < |agents| {
      assert agents[i] in agents;
      var q := Turn(agents[i], i, rule, false, market, p);
      TurnMutual(agents[i], i, rule, market, p);
      WalkMutual(agents, i + 1, rule, market, q);
    }
  }

  /**
   * Three agents of one market: 1 likes 2, 2 likes nobody, 3 likes 1 and 2,
   * each with a positive success probability.
   */
  function Example(): seq<Agent>
  {
    [ Agent(1, 0, 0, 0, [2], map[2 := 1.0], map[2 := 0.5]),
      Agent(2, 0, 0, 0, [], map[], map[]),
      Agent(3, 0, 0, 0, [1, 2], map[1 := 1.0, 2 := 1.0], map[1 := 0.5, 2 := 0.5]) ]
  }

  lemma ExampleFit()
    ensures Fit(Example(), Random([0, 0, 0]))
  {
    var e := Example();
    assert e[0].Valid() && e[1].Valid() && e[2].Valid();
  }

  lemma ExampleNeighbors()
    ensures Example()[0].Neighbors() == [2] && Example()[2].Neighbors() == [1, 2]
    ensures Example()[1].name == 2
  {
    var e := Example();
    assert Likely([2], e[2].prob) == [2];
    assert Likely([1, 2], e[2].prob) == [1] + Likely([2], e[2].prob);
  }

  /** The oldest revision's turns on `Example()`: 1 takes 2, 2 is skipped, and 3 takes 2 again. */
  lemma ExampleTurns()
    ensures Fit(Example(), Random([0, 0, 0]))
    ensures var e, rule, market := Example(), Random([0, 0, 0]), [1, 2, 3];
      && Turn(e[0], 0, rule, true, market, Pass({1, 2, 3}, map[])) == Pass({3}, map[1 := 2, 2 := 1])
      && Turn(e[1], 1, rule, true, market, Pass({3}, map[1 := 2, 2 := 1])) == Pass({3}, map[1 := 2, 2 := 1])
      && Turn(e[2], 2, rule, true, market, Pass({3}, map[1 := 2, 2 := 1])) == Pass({}, map[1 := 2, 2 := 3, 3 := 2])
  {
    ExampleFit();
    ExampleNeighbors();
    var market := [1, 2, 3];
    assert Skipping([2], market, {1, 2, 3}) == [2];
    assert Skipping([1, 2], market, {3}) == [2];
  }

  /**
   * The oldest revision's cleaning can leave a market agent who already
   * left the pool: on `Example()`, agent 1 is matched with agent 2, and
   * agent 3, whose neighbours are 1 and 2, is then matched with 2 as well,
   * overwriting 2's entry, so that 1 points at 2 while 2 points at 3.
   */
  lemma LegacyMatchesTwice()
    ensures Fit(Example(), Random([0, 0, 0]))
    ensures var m := Walk(Example(), 0, Random([0, 0, 0]), true, [1, 2, 3], Pass({1, 2, 3}, map[])).matched;
      1 in m && 2 in m && m[1] == 2 && m[2] == 3
  {
    ExampleTurns();
    var e, rule, market := Example(), Random([0, 0, 0]), [1, 2, 3];
    var p1, p3 := Pass({3}, map[1 := 2, 2 := 1]), Pass({}, map[1 := 2, 2 := 3, 3 := 2]);
    assert Walk(e, 3, rule, true, market, p3) == p3;
    assert Walk(e, 2, rule, true, market, p1) == p3;
    assert Walk(e, 1, rule, true, market, p1) == p3;
  }

  /**
   * Two initiators of a market `[1, 3]` whose only neighbour is agent 2,
   * who has already left the market.
   */
  function Departed(): seq<Agent>
  {
    [ Agent(1, 0, 0, 0, [2], map[2 := 1.0], map[2 := 0.5]),
      Agent(3, 0, 0, 0, [2], map[2 := 1.0], map[2 := 0.5]) ]
  }

  lemma DepartedNeighbors()
    ensures Departed()[0].Valid() && Departed()[1].Valid()
    ensures Departed()[0].Neighbors() == [2] && Departed()[1].Neighbors() == [2]
    ensures Departed()[0].name == 1 && Departed()[1].name == 3
  {
    var e := Departed();
    assert Likely([2], e[0].prob) == [2] && Likely([2], e[1].prob) == [2];
  }

  /** Under either rule, 1 takes agent 2, and then 3 takes agent 2 as well. */
  lemma DepartedTurns(rule: Rule)
    requires rule == Random([0, 0]) || rule == Dictator
    ensures Fit(Departed(), rule)
    ensures var e := Departed();
      && Turn(e[0], 0, rule, false, [1, 3], Pass({1, 3}, map[])) == Pass({3}, map[1 := 2, 2 := 1])
      && Turn(e[1], 1, rule, false, [1, 3], Pass({3}, map[1 := 2, 2 := 1])) == Pass({}, map[1 := 2, 2 := 3, 3 := 2])
  {
    DepartedNeighbors();
    var e := Departed();
    assert Available([2], [1, 3], {1, 3}) == [2] && Available([2], [1, 3], {3}) == [2];
    assert Partner(e[0], [2], rule, 0) in [2] && Partner(e[1], [2], rule, 1) in [2];
  }

  /**
   * The later cleaning keeps a neighbour who is no market agent at all, so
   * both initiators of `Departed()` take agent 2, under either rule, and
   * the second overwrites 2's entry: 1 points at 2 while 2 points at 3.
   */
  lemma DepartedTakenTwice(rule: Rule)
    requires rule == Random([0, 0]) || rule == Dictator
    ensures Fit(Departed(), rule)
    ensures var m := Walk(Departed(), 0, rule, false, [1, 3], Pass({1, 3}, map[])).matched;
      1 in m && 2 in m && m[1] == 2 && m[2] == 3
  {
    DepartedTurns(rule);
    var e := Departed();
    var p1, p2 := Pass({3}, map[1 := 2, 2 := 1]), Pass({}, map[1 := 2, 2 := 3, 3 := 2]);
    assert Walk(e, 2, rule, false, [1, 3], p2) == p2;
    assert Walk(e, 1, rule, false, [1, 3], p1) == p2;
  }

  /**
   * Every name the initiators can meet: their own names and their keys.
   * Cleaning against these instead of the market's names keeps exactly the
   * neighbours still in the pool.
   */
  function Seen(s: seq<Agent>): seq<Name>
  {
    if s == [] then [] else [s[0].name] + s[0].keys + Seen(s[1..])
  }

  lemma {:induction false} SeenHolds(s: seq<Agent>, a: Agent)
    requires a in s
    ensures a.name in Seen(s) && forall n :: n in a.keys ==> n in Seen(s)
  {
    if a != s[0] {
      SeenHolds(s[1..], a);
    }
  }

  /** The walk only records initiators and their keys, on both sides of each entry. */
  lemma {:induction false} WalkWithin(agents: seq<Agent>, i: nat, rule: Rule, market: seq<Name>, p: Pass)
    requires i <= |agents| && Fit(agents, rule)
    requires forall k :: k in p.matched ==> k in Seen(agents) && p.matched[k] in Seen(agents)
    decreases |agents| - i
    ensures var m := Walk(agents, i, rule, false, market, p).matched;
      forall k :: k in m ==> k in Seen(agents) && m[k] in Seen(agents)
  {
    if i < |agents| {
      var a := agents[i];
      assert a in agents;
      SeenHolds(agents, a);
      WalkWithin(agents, i + 1, rule, market, Turn(a, i, rule, false, market, p));
    }
  }

  /** With the pool-only cleaning, every entry of the result points both ways. */
  lemma InPoolMutual(agents: seq<Agent>, rule: Rule, pool: set<Name>)
    requires Fit(agents, rule)
    ensures var m := Walk(agents, 0, rule, false, Seen(agents), Pass(pool, map[])).matched;
      forall k :: k in m ==> m[k] in m && m[m[k]] == k
  {
    WalkMutual(agents, 0, rule, Seen(agents), Pass(pool, map[]));
    WalkWithin(agents, 0, rule, Seen(agents), Pass(pool, map[]));
  }

  // ---------------------------------------------------------------------
  // The rules
  // ---------------------------------------------------------------------

  /**
   * `arbitraryMatch`: the `i`-th initiator still in the pool takes the
   * cleaned neighbour at `draws[i] % n`, where `n` counts the cleaned
   * neighbours. With `legacy` set the cleaning is the forward loop of the
   * oldest revision. In the later revisions no market agent is matched
   * twice and every market pair points both ways.
   */
  method ArbitraryMatch(market: seq<Agent>, agents: seq<Agent>, draws: seq<nat>, legacy: bool)
    returns (matched: map<Name, Name>)
    requires Roster(agents) && |draws| >= |agents|
    ensures matched == Walk(agents, 0, Random(draws), legacy, Names(market), Pass(Pool(agents), map[])).matched
    ensures !legacy ==> Mutual(Names(market), Walk(agents, 0, Random(draws), false, Names(market), Pass(Pool(agents), map[])))
    ensures !legacy ==> forall k :: k in matched ==> k in Names(agents) || k !in Names(market)
  {
    var allAgentNames := Names(market);
    var pool := Pool(agents);
    matched := map[];
    ghost var rule := Random(draws);
    for i := 0 to |agents|
      invariant Walk(agents, i, rule, legacy, allAgentNames, Pass(pool, matched))
             == Walk(agents, 0, rule, legacy, allAgentNames, Pass(Pool(agents), map[]))
    {
      var a := agents[i];
      assert a in agents;
      if a.name in pool {
        a.NeighborsMeans();
        var ns;
        if legacy {
          ns := DropTakenForward(a.Neighbors(), allAgentNames, pool);
        } else {
          ns := DropTaken(a.Neighbors(), allAgentNames, pool);
        }
        if |ns| > 0 {
          var b := ns[draws[i] % |ns|];
          matched := matched[a.name := b][b := a.name];
          pool := pool - {a.name} - {b};
        }
      }
    }
    if !legacy {
      WalkMutual(agents, 0, rule, allAgentNames, Pass(Pool(agents), map[]));
    }
  }

  /**
   * `arbitraryMatch` with the cleaning corrected to drop every neighbour no
   * longer in the pool, market agent or not: the result is a matching.
   */
  method ArbitraryMatchInPool(agents: seq<Agent>, draws: seq<nat>) returns (matched: map<Name, Name>)
    requires Roster(agents) && |draws| >= |agents|
    ensures matched == Walk(agents, 0, Random(draws), false, Seen(agents), Pass(Pool(agents), map[])).matched
    ensures forall k :: k in matched ==> matched[k] in matched && matched[matched[k]] == k
    ensures forall k :: k in matched ==> k in Seen(agents)
  {
    var seen := Seen(agents);
    var pool := Pool(agents);
    matched := map[];
    ghost var rule := Random(draws);
    for i := 0 to |agents|
      invariant Walk(agents, i, rule, false, seen, Pass(pool, matched))
             == Walk(agents, 0, rule, false, seen, Pass(Pool(agents), map[]))
    {
      var a := agents[i];
      assert a in agents;
      if a.name in pool {
        a.NeighborsMeans();
        var ns := DropTaken(a.Neighbors(), seen, pool);
        if |ns| > 0 {
          var b := ns[draws[i] % |ns|];
          matched := matched[a.name := b][b := a.name];
          pool := pool - {a.name} - {b};
        }
      }
    }
    InPoolMutual(agents, rule, Pool(agents));
    WalkWithin(agents, 0, rule, seen, Pass(Pool(agents), map[]));
  }

  /** Sorting key: `order(a)` for every agent. */
  function SortBy(s: seq<Agent>, order: Agent -> int): (r: seq<Agent>)
    ensures multiset(r) == multiset(s)
    ensures forall a :: a in r <==> a in s
  {
    if s == [] then []
    else
      assert s == [s[0]] + s[1..];
      Insert(s[0], SortBy(s[1..], order), order)
  }

  /** Inserts `x` before the first agent whose key is not smaller, which keeps equal keys in input order. */
  function Insert(x: Agent, s: seq<Agent>, order: Agent -> int): (r: seq<Agent>)
    ensures multiset(r) == multiset(s) + multiset{x}
    ensures forall y :: y in r <==> y in s || y == x
  {
    if s == [] || order(x) <= order(s[0]) then [x] + s
    else
      assert s == [s[0]] + s[1..];
      [s[0]] + Insert(x, s[1..], order)
  }

  /** Keys ascend along `s`. */
  ghost predicate Ascending(s: seq<Agent>, order: Agent -> int)
  {
    forall i, j :: 0 <= i < j < |s| ==> order(s[i]) <= order(s[j])
  }

  lemma {:induction false} InsertAscending(x: Agent, s: seq<Agent>, order: Agent -> int)
    requires Ascending(s, order)
    ensures Ascending(Insert(x, s, order), order)
  {
    if s != [] && order(x) > order(s[0]) {
      InsertAscending(x, s[1..], order);
      var t := Insert(x, s[1..], order);
      forall j | 0 <= j < |t| ensures order(s[0]) <= order(t[j]) {
        assert t[j] in t;
        if t[j] != x {
          var q :| 0 <= q < |s[1..]| && s[1..][q] == t[j];
          assert s[q + 1] == t[j];
        }
      }
      assert Insert(x, s, order) == [s[0]] + t;
    }
  }

  /** `list.sort(key=order)`: the agents in ascending order of key, and no agent gained or lost. */
  lemma {:induction false} SortByAscending(s: seq<Agent>, order: Agent -> int)
    ensures Ascending(SortBy(s, order), order) && multiset(SortBy(s, order)) == multiset(s)
  {
    if s != [] {
      SortByAscending(s[1..], order);
      InsertAscending(s[0], SortBy(s[1..], order), order);
    }
  }

  /** The agents of `s` whose key is `k`, in their order in `s`. */
  function Ties(s: seq<Agent>, order: Agent -> int, k: int): seq<Agent>
  {
    if s == [] then []
    else (if order(s[0]) == k then [s[0]] else []) + Ties(s[1..], order, k)
  }

  /** Inserting `x` puts it ahead of every agent of `s` that shares its key. */
  lemma {:induction false} InsertStable(x: Agent, s: seq<Agent>, order: Agent -> int, k: int)
    ensures Ties(Insert(x, s, order), order, k) == (if order(x) == k then [x] else []) + Ties(s, order, k)
  {
    if s != [] && order(x) > order(s[0]) {
      var t := Insert(x, s[1..], order);
      InsertStable(x, s[1..], order, k);
      assert Insert(x, s, order) == [s[0]] + t;
      assert s == [s[0]] + s[1..];
      TiesPast(x, s[0], s[1..], t, order, k);
    } else {
      TiesCons(x, s, order, k);
    }
  }

  /** Moving `x` past a head of smaller key leaves the ties where `x` sits ahead of the head's. */
  lemma TiesPast(x: Agent, a: Agent, rest: seq<Agent>, t: seq<Agent>, order: Agent -> int, k: int)
    requires order(x) > order(a)
    requires Ties(t, order, k) == (if order(x) == k then [x] else []) + Ties(rest, order, k)
    ensures Ties([a] + t, order, k) == (if order(x) == k then [x] else []) + Ties([a] + rest, order, k)
  {
    TiesCons(a, t, order, k);
    TiesCons(a, rest, order, k);
    if order(a) == k {
      assert order(x) != k;
    }
  }

  /** The ties of a list with a head: the head when its key is `k`, then the ties of the rest. */
  lemma TiesCons(a: Agent, t: seq<Agent>, order: Agent -> int, k: int)
    ensures Ties([a] + t, order, k) == (if order(a) == k then [a] else []) + Ties(t, order, k)
  {
    assert ([a] + t)[1..] == t;
  }

  /**
   * `list.sort` is stable: for every key, the agents sharing it come out in
   * the order they went in, so ties between equally urgent agents are
   * broken by their position in the input.
   */
  lemma {:induction false} SortByStable(s: seq<Agent>, order: Agent -> int, k: int)
    ensures Ties(SortBy(s, order), order, k) == Ties(s, order, k)
  {
    if s != [] {
      SortByStable(s[1..], order, k);
      InsertStable(s[0], SortBy(s[1..], order), order, k);
    }
  }

  /** The default priority: the periods an agent has left before it perishes. */
  function Urgency(a: Agent): int
  {
    a.timeToCritical - a.sojourn
  }

  /**
   * `serialDictatorship`: the initiators in ascending order of `order`; the
   * one still in the pool takes its cleaned neighbour of highest
   * `match_util` (ties to the first key). No market agent is matched twice
   * and every market pair points both ways.
   */
  method SerialDictatorship(market: seq<Agent>, agents: seq<Agent>, order: Agent -> int)
    returns (result: map<Name, Name>)
    requires Roster(agents)
    ensures result == Walk(SortBy(agents, order), 0, Dictator, false, Names(market), Pass(Pool(agents), map[])).matched
    ensures Mutual(Names(market), Walk(SortBy(agents, order), 0, Dictator, false, Names(market), Pass(Pool(agents), map[])))
    ensures forall k :: k in result ==> k in Names(agents) || k !in Names(market)
  {
    var allAgentNames := Names(market);
    var agentOrder := SortBy(agents, order);
    var pool := Pool(agents);
    result := map[];
    for i := 0 to |agentOrder|
      invariant Walk(agentOrder, i, Dictator, false, allAgentNames, Pass(pool, result))
             == Walk(agentOrder, 0, Dictator, false, allAgentNames, Pass(Pool(agents), map[]))
    {
      var a := agentOrder[i];
      assert a in agentOrder;
      pool, result := DictatorTurn(a, i, allAgentNames, pool, result);
    }
    WalkMutual(agentOrder, 0, Dictator, allAgentNames, Pass(Pool(agents), map[]));
  }

  /**
   * One pass of the `serialDictatorship` loop: an initiator still in the
   * pool takes its best cleaned neighbour, and both leave the pool.
   */
  method DictatorTurn(a: Agent, i: nat, market: seq<Name>, pool: set<Name>, result: map<Name, Name>)
    returns (pool': set<Name>, result': map<Name, Name>)
    requires a.Valid()
    ensures Pass(pool', result') == Turn(a, i, Dictator, false, market, Pass(pool, result))
  {
    pool', result' := pool, result;
    if a.name in pool {
      a.NeighborsMeans();
      var ns := DropTaken(a.Neighbors(), market, pool);
      assert ns == Cleaned(a, false, market, pool);
      if |ns| > 0 {
        var c := TopChoice(a, ns, Utility);
        ChoiceIsTop(a, ns, Utility);
        assert ns[0] in a.keys && ns[0] in ns;
        var b: Name := c.value;
        assert b == Partner(a, ns, Dictator, i);
        result' := result[a.name := b];
        result' := result'[b := a.name];
        pool' := pool - {a.name} - {b};
      }
    }
  }

  /**
   * `serialDictatorship` with the cleaning corrected to drop every
   * neighbour no longer in the pool: the result is a matching.
   */
  method SerialDictatorshipInPool(agents: seq<Agent>, order: Agent -> int) returns (result: map<Name, Name>)
    requires Roster(agents)
    ensures result == Walk(SortBy(agents, order), 0, Dictator, false, Seen(SortBy(agents, order)), Pass(Pool(agents), map[])).matched
    ensures forall k :: k in result ==> result[k] in result && result[result[k]] == k
  {
    var agentOrder := SortBy(agents, order);
    var seen := Seen(agentOrder);
    var pool := Pool(agents);
    result := map[];
    for i := 0 to |agentOrder|
      invariant Walk(agentOrder, i, Dictator, false, seen, Pass(pool, result))
             == Walk(agentOrder, 0, Dictator, false, seen, Pass(Pool(agents), map[]))
    {
      var a := agentOrder[i];
      assert a in agentOrder;
      pool, result := DictatorTurn(a, i, seen, pool, result);
    }
    InPoolMutual(agentOrder, Dictator, Pool(agents));
  }

  /**
   * The dictator's pick: a cleaned neighbour with positive success
   * probability whose `match_util` no other cleaned neighbour beats, and
   * which every earlier key among them falls strictly short of.
   */
  lemma DictatorPicksBest(a: Agent, ns: seq<Name>, i: nat)
    requires a.Valid() && ns != [] && (forall n :: n in ns ==> n in a.keys && a.prob[n] > 0.0)
    ensures var b := Partner(a, ns, Dictator, i);
      && b in ns && a.prob[b] > 0.0
      && (forall n :: n in ns ==> a.util[n] <= a.util[b])
      && (exists t :: 0 <= t < |a.keys| && a.keys[t] == b &&
            forall j :: 0 <= j < t && a.keys[j] in ns ==> a.util[a.keys[j]] < a.util[b])
  {
    ChoiceIsTop(a, ns, Utility);
    assert ns[0] in a.keys && ns[0] in ns;
    var t := Best(a, ns, Utility, |a.keys|).value;
    forall n | n in ns ensures a.util[n] <= a.util[a.keys[t]] {
      var j :| 0 <= j < |a.keys| && a.keys[j] == n;
    }
  }
}
