/**
 * Top Trading Cycles (`TTC`) in its three revisions. Each round, every agent
 * still in the market points at its top remaining choice. The resulting
 * `preference_graph` is split into strongly connected components, and every
 * component that is a cycle is matched along its tuple order and leaves the
 * market. The revisions differ in the ranking (utility, or utility times
 * success probability) and in whether agents with no neighbour left are
 * dropped at the start of a round.
 */
module Ttc {
  import opened Seqs
  import opened Agents
  import opened Scc

  /** What an agent sorts its `match_util` keys by. */
  datatype Ranking =
    | Utility          // `match_util[k]`
    | ExpectedUtility  // `match_util[k] * match_fail_prob[k]`

  function Score(a: Agent, k: Name, rk: Ranking): real
    requires a.Valid() && k in a.keys
  {
    match rk
    case Utility => a.util[k]
    case ExpectedUtility => a.util[k] * a.prob[k]
  }

  /**
   * `a.keys[i]` is the first name of `pool` in
   * `sorted(match_util, key=score, reverse=True)`: no key in the pool scores
   * higher, and, the sort being stable, every earlier key in the pool scores
   * lower.
   */
  ghost predicate TopAt(a: Agent, pool: seq<Name>, rk: Ranking, i: nat)
    requires a.Valid()
  {
    && i < |a.keys| && a.keys[i] in pool
    && (forall j :: 0 <= j < |a.keys| && a.keys[j] in pool ==> Score(a, a.keys[j], rk) <= Score(a, a.keys[i], rk))
    && (forall j :: 0 <= j < i && a.keys[j] in pool ==> Score(a, a.keys[j], rk) < Score(a, a.keys[i], rk))
  }

  /**
   * The position among `a.keys[..i]` of the best key still in `pool`, ties
   * going to the earlier key; `None` when none of them is in the pool.
   */
  function Best(a: Agent, pool: seq<Name>, rk: Ranking, i: nat): (r: Option<nat>)
    requires a.Valid() && i <= |a.keys|
    ensures r.Some? ==> r.value < i
  {
    if i == 0 then None
    else
      var b := Best(a, pool, rk, i - 1);
      var k := a.keys[i - 1];
      if k in pool && (b.None? || Score(a, k, rk) > Score(a, a.keys[b.value], rk)) then Some(i - 1) else b
  }

  /** `a`'s top choice in `pool`, if it has any key there. */
  function Choice(a: Agent, pool: seq<Name>, rk: Ranking): Option<Name>
    requires a.Valid()
  {
    var b := Best(a, pool, rk, |a.keys|);
    if b.Some? then Some(a.keys[b.value]) else None
  }

  /** `Best` finds a key of the pool exactly when there is one, and that key is the top one. */
  lemma BestIsTop(a: Agent, pool: seq<Name>, rk: Ranking, i: nat)
    requires a.Valid() && i <= |a.keys|
    ensures Best(a, pool, rk, i).None? <==> forall j :: 0 <= j < i ==> a.keys[j] !in pool
    ensures Best(a, pool, rk, i).Some? ==>
      var t := Best(a, pool, rk, i).value;
      && a.keys[t] in pool
      && (forall j :: 0 <= j < i && a.keys[j] in pool ==> Score(a, a.keys[j], rk) <= Score(a, a.keys[t], rk))
      && (forall j :: 0 <= j < t && a.keys[j] in pool ==> Score(a, a.keys[j], rk) < Score(a, a.keys[t], rk))
  {
    BestFound(a, pool, rk, i);
    BestFirst(a, pool, rk, i);
  }

  /** `Best` misses only when no key is in the pool; what it finds is in the pool and scores highest. */
  lemma {:induction false} BestFound(a: Agent, pool: seq<Name>, rk: Ranking, i: nat)
    requires a.Valid() && i <= |a.keys|
    ensures Best(a, pool, rk, i).None? <==> forall j :: 0 <= j < i ==> a.keys[j] !in pool
    ensures Best(a, pool, rk, i).Some? ==>
      var t := Best(a, pool, rk, i).value;
      && a.keys[t] in pool
      && (forall j :: 0 <= j < i && a.keys[j] in pool ==> Score(a, a.keys[j], rk) <= Score(a, a.keys[t], rk))
  {
    if i > 0 {
      BestFound(a, pool, rk, i - 1);
      var b := Best(a, pool, rk, i - 1);
      if Best(a, pool, rk, i).None? {
        assert b.None? && a.keys[i - 1] !in pool;
      }
    }
  }

  /** Every key before the one `Best` finds either is not in the pool or scores strictly lower. */
  lemma {:induction false} BestFirst(a: Agent, pool: seq<Name>, rk: Ranking, i: nat)
    requires a.Valid() && i <= |a.keys|
    ensures Best(a, pool, rk, i).Some? ==>
      var t := Best(a, pool, rk, i).value;
      forall j :: 0 <= j < t && a.keys[j] in pool ==> Score(a, a.keys[j], rk) < Score(a, a.keys[t], rk)
  {
    if i > 0 {
      BestFirst(a, pool, rk, i - 1);
      BestFound(a, pool, rk, i - 1);
    }
  }

  /**
   * `Choice` is what the sort-then-scan of the source selects: `None` when
   * no key is in the pool, and otherwise the key at the unique top position.
   */
  lemma ChoiceIsTop(a: Agent, pool: seq<Name>, rk: Ranking)
    requires a.Valid()
    ensures Choice(a, pool, rk).None? <==> forall k :: k in a.keys ==> k !in pool
    ensures Choice(a, pool, rk).Some? ==>
      var t := Best(a, pool, rk, |a.keys|).value;
      TopAt(a, pool, rk, t) && Choice(a, pool, rk).value == a.keys[t] && a.keys[t] in pool
  {
    BestIsTop(a, pool, rk, |a.keys|);
    if Choice(a, pool, rk).None? {
      forall k | k in a.keys ensures k !in pool {
        var j :| 0 <= j < |a.keys| && a.keys[j] == k;
      }
    }
  }

  /** A choice is always a name of the pool. */
  lemma ChoiceInPool(a: Agent, pool: seq<Name>, rk: Ranking)
    requires a.Valid()
    ensures Choice(a, pool, rk).Some? ==> Choice(a, pool, rk).value in pool
  {
    BestIsTop(a, pool, rk, |a.keys|);
  }

  /** The top choice is unique: ties in score go to the earlier key. */
  lemma TopAtUnique(a: Agent, pool: seq<Name>, rk: Ranking, i: nat, j: nat)
    requires a.Valid() && TopAt(a, pool, rk, i) && TopAt(a, pool, rk, j)
    ensures i == j
  {
  }

  /**
   * The scan over `preferenceList` for the first name still in the pool,
   * done as one pass over the keys in dictionary order that keeps the
   * strictly best score seen so far.
   */
  method TopChoice(a: Agent, pool: seq<Name>, rk: Ranking) returns (r: Option<Name>)
    requires a.Valid()
    ensures r == Choice(a, pool, rk)
  {
    r := None;
    var best := 0.0;
    ghost var at := 0;
    for i := 0 to |a.keys|
      invariant r.None? <==> Best(a, pool, rk, i).None?
      invariant r.Some? ==> Best(a, pool, rk, i) == Some(at) && r.value == a.keys[at] && best == Score(a, r.value, rk)
    {
      var k := a.keys[i];
      if k in pool && (r.None? || Score(a, k, rk) > best) {
        r, best, at := Some(k), Score(a, k, rk), i;
      }
    }
  }

  /**
   * `g` is the round's `preference_graph` over `pool`: exactly the agents
   * with a choice left are keys, in pool order, each pointing at its top
   * choice.
   */
  ghost predicate IsPreferenceGraph(pool: seq<Agent>, rk: Ranking, g: Graph)
    requires Roster(pool)
  {
    var names := Names(pool);
    && g.order == KeysInOrder(pool, g.edges)
    && (forall n :: n in g.order <==> n in g.edges)
    && (forall i :: 0 <= i < |pool| ==> Points(pool[i], names, rk, g.edges))
    && (forall n :: n in g.edges ==> n in names && |g.edges[n]| == 1 && g.edges[n][0] in names)
  }

  /** The names of the agents of `s` that have a choice left among `names`, in the order of `s`. */
  ghost function Choosers(s: seq<Agent>, names: seq<Name>, rk: Ranking): seq<Name>
    requires forall a :: a in s ==> a.Valid()
  {
    if s == [] then []
    else
      var init, last := s[..|s| - 1], s[|s| - 1];
      assert forall a :: a in init ==> a in s;
      if Choice(last, names, rk).Some? then Choosers(init, names, rk) + [last.name] else Choosers(init, names, rk)
  }

  /** Extending the prefix `s[..i]` by one agent adds its name exactly when it has a choice left. */
  lemma ChoosersStep(s: seq<Agent>, names: seq<Name>, rk: Ranking, i: nat)
    requires Roster(s) && i < |s|
    ensures Choosers(s[..i + 1], names, rk)
      == if Choice(s[i], names, rk).Some? then Choosers(s[..i], names, rk) + [s[i].name] else Choosers(s[..i], names, rk)
  {
    assert s[..i + 1][..i] == s[..i] && s[..i + 1][i] == s[i];
  }

  /** The names of the agents of `s` that are keys of `edges`, in the order of `s`. */
  ghost function KeysInOrder(s: seq<Agent>, edges: map<Node, seq<Node>>): seq<Name>
  {
    if s == [] then []
    else
      var init, last := s[..|s| - 1], s[|s| - 1];
      if last.name in edges then KeysInOrder(init, edges) + [last.name] else KeysInOrder(init, edges)
  }

  /** Where every agent points right, the keys in the order of `s` are its choosers. */
  lemma {:induction false} ChoosersKeyed(s: seq<Agent>, names: seq<Name>, rk: Ranking, edges: map<Node, seq<Node>>)
    requires forall a :: a in s ==> a.Valid()
    requires forall j :: 0 <= j < |s| ==> Points(s[j], names, rk, edges)
    ensures Choosers(s, names, rk) == KeysInOrder(s, edges)
  {
    if s != [] {
      var init, last := s[..|s| - 1], s[|s| - 1];
      assert forall a :: a in init ==> a in s;
      forall j | 0 <= j < |init| ensures Points(init[j], names, rk, edges) {
        assert init[j] == s[j];
      }
      ChoosersKeyed(init, names, rk, edges);
      assert Points(s[|s| - 1], names, rk, edges);
    }
  }

  /** The agents of a roster that are keys are listed once each, by names of the roster. */
  lemma {:induction false} KeysInOrderDistinct(s: seq<Agent>, edges: map<Node, seq<Node>>)
    requires Roster(s)
    ensures forall n :: n in KeysInOrder(s, edges) ==> n in Names(s)
    ensures Distinct(KeysInOrder(s, edges))
  {
    if s != [] {
      var init, last := s[..|s| - 1], s[|s| - 1];
      assert Roster(init) by {
        forall a | a in init ensures a in s {
        }
      }
      KeysInOrderDistinct(init, edges);
      var c := KeysInOrder(init, edges);
      forall n | n in c ensures n in Names(s) && n != last.name {
        var q :| 0 <= q < |init| && Names(init)[q] == n;
        assert s[q] == init[q];
        assert Names(s)[q] == n;
      }
      assert Names(s)[|s| - 1] == last.name;
      if last.name in edges {
        var r := c + [last.name];
        forall i, j | 0 <= i < j < |r| ensures r[i] != r[j] {
          assert r[i] == c[i] && c[i] in c;
          if j < |c| {
            assert r[j] == c[j];
          }
        }
      }
    }
  }

  /** The keys of the preference graph are its choosers, listed once each, in pool order. */
  lemma OrderDistinct(pool: seq<Agent>, rk: Ranking, g: Graph)
    requires Roster(pool) && IsPreferenceGraph(pool, rk, g)
    ensures g.order == Choosers(pool, Names(pool), rk) && Distinct(g.order)
  {
    ChoosersKeyed(pool, Names(pool), rk, g.edges);
    KeysInOrderDistinct(pool, g.edges);
  }

  /** `a` is a key of `edges` exactly when it has a choice left, and then points at its top choice. */
  ghost predicate Points(a: Agent, names: seq<Name>, rk: Ranking, edges: map<Node, seq<Node>>)
    requires a.Valid()
  {
    && (a.name in edges <==> Choice(a, names, rk).Some?)
    && (a.name in edges ==> edges[a.name] == [Choice(a, names, rk).value])
  }

  /** Setting another agent's entry leaves what `a` points at alone. */
  lemma PointsFrame(a: Agent, names: seq<Name>, rk: Ranking, edges: map<Node, seq<Node>>, k: Node, v: seq<Node>)
    requires a.Valid() && Points(a, names, rk, edges) && a.name != k
    ensures Points(a, names, rk, edges[k := v])
  {
  }

  /** The entries of `preference_graph` for the agents of `s`: each chooser points at its top choice. */
  ghost function Entries(s: seq<Agent>, names: seq<Name>, rk: Ranking): map<Node, seq<Node>>
    requires forall a :: a in s ==> a.Valid()
  {
    if s == [] then map[]
    else
      var init, last := s[..|s| - 1], s[|s| - 1];
      assert forall a :: a in init ==> a in s;
      var c := Choice(last, names, rk);
      if c.Some? then Entries(init, names, rk)[last.name := [c.value]] else Entries(init, names, rk)
  }

  /** Extending the prefix `s[..i]` by one agent adds its entry exactly when it has a choice left. */
  lemma EntriesStep(s: seq<Agent>, names: seq<Name>, rk: Ranking, i: nat)
    requires Roster(s) && i < |s|
    ensures var c := Choice(s[i], names, rk);
      Entries(s[..i + 1], names, rk)
        == if c.Some? then Entries(s[..i], names, rk)[s[i].name := [c.value]] else Entries(s[..i], names, rk)
  {
    assert s[..i + 1][..i] == s[..i] && s[..i + 1][i] == s[i];
  }

  /** The entries are keyed by the choosers, and each maps a name of `s` to one name of `names`. */
  lemma {:induction false} EntriesKeys(s: seq<Agent>, names: seq<Name>, rk: Ranking)
    requires forall a :: a in s ==> a.Valid()
    ensures forall n :: n in Choosers(s, names, rk) <==> n in Entries(s, names, rk)
    ensures forall n :: n in Entries(s, names, rk) ==>
      n in Names(s) && |Entries(s, names, rk)[n]| == 1 && Entries(s, names, rk)[n][0] in names
  {
    if s != [] {
      var init, last := s[..|s| - 1], s[|s| - 1];
      assert forall a :: a in init ==> a in s;
      EntriesKeys(init, names, rk);
      ChoiceInPool(last, names, rk);
      var c, e := Choosers(init, names, rk), Entries(init, names, rk);
      forall n ensures n in Choosers(s, names, rk) <==> n in Entries(s, names, rk) {
        assert n in c + [last.name] <==> n in c || n == last.name;
      }
      forall n | n in e ensures n in Names(s) {
        var q :| 0 <= q < |init| && Names(init)[q] == n;
        assert Names(s)[q] == s[q].name == init[q].name;
      }
      assert Names(s)[|s| - 1] == last.name;
    }
  }

  /** In the entries of a roster, every agent points at its top choice and a non-chooser at nothing. */
  lemma {:induction false} EntriesPoint(s: seq<Agent>, names: seq<Name>, rk: Ranking)
    requires Roster(s)
    ensures forall j :: 0 <= j < |s| ==> Points(s[j], names, rk, Entries(s, names, rk))
  {
    if s != [] {
      var init, last := s[..|s| - 1], s[|s| - 1];
      assert Roster(init) by {
        forall a | a in init ensures a in s {
        }
      }
      EntriesPoint(init, names, rk);
      EntriesKeys(init, names, rk);
      var e := Entries(init, names, rk);
      var c := Choice(last, names, rk);
      forall q | 0 <= q < |init| ensures Names(init)[q] != last.name {
        assert s[q].name == init[q].name;
      }
      assert last.name !in Names(init);
      forall j | 0 <= j < |s| ensures Points(s[j], names, rk, Entries(s, names, rk)) {
        if j < |init| {
          assert s[j] == init[j] && s[j].name != last.name;
          if c.Some? {
            PointsFrame(s[j], names, rk, e, last.name, [c.value]);
          }
        }
      }
    }
  }

  /** Builds `preference_graph`: each agent with a choice left points at its top choice. */
  method PreferenceGraph(pool: seq<Agent>, rk: Ranking) returns (g: Graph)
    requires Roster(pool)
    ensures IsPreferenceGraph(pool, rk, g)
  {
    var names := Names(pool);
    var order: seq<Node> := [];
    var edges: map<Node, seq<Node>> := map[];
    for i := 0 to |pool|
      invariant order == Choosers(pool[..i], names, rk)
      invariant edges == Entries(pool[..i], names, rk)
    {
      var choice := TopChoice(pool[i], names, rk);
      ChoosersStep(pool, names, rk, i);
      EntriesStep(pool, names, rk, i);
      if choice.Some? {
        order := order + [pool[i].name];
        edges := edges[pool[i].name := [choice.value]];
      }
    }
    assert pool[..|pool|] == pool;
    EntriesKeys(pool, names, rk);
    EntriesPoint(pool, names, rk);
    ChoosersKeyed(pool, names, rk, edges);
    g := Graph(order, edges);
  }

  /**
   * When every agent of the pool has a choice left, the preference graph
   * gives each of them exactly one successor, itself a key.
   */
  lemma EveryoneChoosing(pool: seq<Agent>, rk: Ranking, g: Graph)
    requires Roster(pool) && IsPreferenceGraph(pool, rk, g)
    requires forall i :: 0 <= i < |pool| ==> Choice(pool[i], Names(pool), rk).Some?
    ensures Functional(g)
    ensures pool != [] ==> g.order != []
  {
    var names := Names(pool);
    forall n | n in g.edges ensures |g.edges[n]| == 1 && g.edges[n][0] in g.edges {
      var j :| 0 <= j < |names| && names[j] == g.edges[n][0];
      ChoosingKey(pool, rk, g, j);
    }
    if pool != [] {
      ChoosingKey(pool, rk, g, 0);
    }
  }

  /** An agent with a choice is a key of the preference graph. */
  lemma ChoosingKey(pool: seq<Agent>, rk: Ranking, g: Graph, j: nat)
    requires Roster(pool) && IsPreferenceGraph(pool, rk, g)
    requires j < |pool| && Choice(pool[j], Names(pool), rk).Some?
    ensures pool[j].name in g.edges && pool[j].name in g.order
  {
    assert Points(pool[j], Names(pool), rk, g.edges);
  }

  /** An agent that lists itself, and is in the pool, always has a choice. */
  lemma SelfListedChooses(a: Agent, pool: seq<Name>, rk: Ranking)
    requires a.Valid() && a.name in a.keys && a.name in pool
    ensures Choice(a, pool, rk).Some?
  {
    ChoiceIsTop(a, pool, rk);
  }

  /** No name of `ns` is among `names`, checked one name at a time. */
  predicate Disjoint(ns: seq<Name>, names: seq<Name>)
  {
    ns == [] || (ns[0] !in names && Disjoint(ns[1..], names))
  }

  /** `Disjoint` is the empty intersection of the two lists, as sets. */
  lemma {:induction false} DisjointMeans(ns: seq<Name>, names: seq<Name>)
    ensures Disjoint(ns, names) <==> forall n :: n in ns ==> n !in names
  {
    if ns != [] {
      DisjointMeans(ns[1..], names);
      assert ns == [ns[0]] + ns[1..];
    }
  }

  /** None of the agent's neighbours is among `names`: its neighbour set meets them nowhere. */
  predicate Isolated(a: Agent, names: seq<Name>)
  {
    Disjoint(a.Neighbors(), names)
  }

  /**
   * What the backward scan over `to_match` keeps of `s[j..]`: the agent at
   * `j` is dropped when none of its neighbours is among the names still
   * listed at its turn, which are those of `s[..j + 1]` and of what was kept
   * after it.
   */
  ghost function Kept(s: seq<Agent>, j: nat): seq<Agent>
    requires j <= |s|
    decreases |s| - j
  {
    if j == |s| then []
    else
      var t := Kept(s, j + 1);
      if Isolated(s[j], Names(s[..j + 1] + t)) then t else [s[j]] + t
  }

  /** The purge loop: scan `to_match` from the back, removing each isolated agent and its name. */
  method Purge(toMatch: seq<Agent>) returns (kept: seq<Agent>)
    ensures kept == Kept(toMatch, 0)
  {
    kept := toMatch;
    var names := Names(toMatch);
    var i := |toMatch|;
    while i > 0
      invariant 0 <= i <= |toMatch|
      invariant kept == toMatch[..i] + Kept(toMatch, i)
      invariant names == Names(kept)
    {
      i := i - 1;
      PurgeStep(toMatch, i, kept);
      if Isolated(kept[i], names) {
        NamesRemoveAt(kept, i);
        kept := kept[..i] + kept[i + 1..];
        names := names[..i] + names[i + 1..];
      }
    }
  }

  /** One turn of the purge loop, at position `i`, against the definition of `Kept`. */
  lemma PurgeStep(s: seq<Agent>, i: nat, kept: seq<Agent>)
    requires i < |s| && kept == s[..i + 1] + Kept(s, i + 1)
    ensures i < |kept| && kept[i] == s[i]
    ensures Isolated(s[i], Names(kept)) ==> kept[..i] + kept[i + 1..] == s[..i] + Kept(s, i)
    ensures !Isolated(s[i], Names(kept)) ==> kept == s[..i] + Kept(s, i)
  {
    var t := Kept(s, i + 1);
    assert s[..i + 1] == s[..i] + [s[i]];
    assert kept == s[..i] + ([s[i]] + t);
    assert kept[..i] == s[..i];
    assert kept[i + 1..] == t;
  }

  /** Each turn of the purge either drops the agent at `j` or keeps it in front of the rest. */
  lemma KeptStep(s: seq<Agent>, j: nat)
    requires j < |s|
    ensures Kept(s, j) == Kept(s, j + 1) || Kept(s, j) == [s[j]] + Kept(s, j + 1)
  {
  }

  /** The purge never lengthens `s[j..]`, and keeps all of it only when it drops nobody. */
  lemma {:induction false} KeptLength(s: seq<Agent>, j: nat)
    requires j <= |s|
    decreases |s| - j
    ensures |Kept(s, j)| <= |s| - j
    ensures |Kept(s, j)| == |s| - j ==> Kept(s, j) == s[j..]
  {
    if j < |s| {
      KeptLength(s, j + 1);
      KeptStep(s, j);
      assert s[j..] == [s[j]] + s[j + 1..];
    }
  }

  /** Every agent kept of `s[j..]` is one of `s[j..]`. */
  lemma {:induction false} KeptMembers(s: seq<Agent>, j: nat)
    requires j <= |s|
    decreases |s| - j
    ensures forall a :: a in Kept(s, j) ==> a in s[j..]
  {
    if j < |s| {
      KeptMembers(s, j + 1);
      KeptStep(s, j);
      assert s[j..] == [s[j]] + s[j + 1..];
    }
  }

  /** The purge keeps a roster a roster. */
  lemma {:induction false} KeptRoster(s: seq<Agent>, j: nat)
    requires j <= |s| && Roster(s)
    decreases |s| - j
    ensures Roster(Kept(s, j))
  {
    if j < |s| {
      KeptRoster(s, j + 1);
      KeptMembers(s, j + 1);
      KeptStep(s, j);
      var t := Kept(s, j + 1);
      forall a | a in t ensures a.name != s[j].name && a.Valid() {
        var q :| 0 <= q < |s[j + 1..]| && s[j + 1..][q] == a;
        assert s[j + 1 + q] == a;
      }
      assert s[j] in s;
      RosterCons(s[j], t);
    }
  }

  /** Everything kept of `s[j..]` sits in `s[j..k]` or among what is kept of `s[k..]`. */
  lemma {:induction false} KeptWithin(s: seq<Agent>, j: nat, k: nat)
    requires j <= k <= |s|
    decreases k - j
    ensures forall a :: a in Kept(s, j) ==> a in s[j..k] || a in Kept(s, k)
  {
    if j < k {
      KeptWithin(s, j + 1, k);
      KeptStep(s, j);
      assert s[j..k] == [s[j]] + s[j + 1..k];
    }
  }

  /** Nothing kept of `s[k..]` is lost by the later turns, at positions below `k`. */
  lemma {:induction false} KeptSuffix(s: seq<Agent>, j: nat, k: nat)
    requires j <= k <= |s|
    decreases k - j
    ensures forall a :: a in Kept(s, k) ==> a in Kept(s, j)
  {
    if j < k {
      KeptSuffix(s, j + 1, k);
      KeptStep(s, j);
      var t := Kept(s, j + 1);
      forall a | a in Kept(s, k) ensures a in Kept(s, j) {
        assert a in t;
        if Kept(s, j) != t {
          assert a in [s[j]] + t;
        }
      }
    }
  }

  /** Fewer names can only leave an agent more isolated. */
  lemma IsolatedWithin(x: Agent, small: seq<Agent>, big: seq<Agent>)
    requires forall a :: a in small ==> a in big
    requires Isolated(x, Names(big))
    ensures Isolated(x, Names(small))
  {
    DisjointMeans(x.Neighbors(), Names(big));
    DisjointMeans(x.Neighbors(), Names(small));
    NamesWithin(small, big);
  }

  /** An agent the purge drops has no neighbour among the agents it keeps. */
  lemma DroppedIsIsolated(s: seq<Agent>, k: nat)
    requires k < |s| && s[k] !in Kept(s, 0)
    ensures Isolated(s[k], Names(Kept(s, 0)))
  {
    KeptSuffix(s, 0, k);
    KeptWithin(s, 0, k + 1);
    var t := Kept(s, k + 1);
    assert Isolated(s[k], Names(s[..k + 1] + t));
    IsolatedWithin(s[k], Kept(s, 0), s[..k + 1] + t);
  }

  /** With distinct names, the agent at `k` is not among what is kept after it. */
  lemma NotKeptLater(s: seq<Agent>, k: nat)
    requires Roster(s) && k < |s|
    ensures s[k] !in Kept(s, k + 1)
  {
    KeptMembers(s, k + 1);
    forall a | a in Kept(s, k + 1) ensures a.name != s[k].name {
      var q :| 0 <= q < |s[k + 1..]| && s[k + 1..][q] == a;
      assert s[k + 1 + q] == a;
    }
  }

  /** The names listed at the turn of `k` are all names of the pool. */
  lemma TurnWithinPool(s: seq<Agent>, k: nat)
    requires k < |s|
    ensures forall a :: a in s[..k + 1] + Kept(s, k + 1) ==> a in s
  {
    KeptMembers(s, k + 1);
    forall a | a in s[..k + 1] + Kept(s, k + 1) ensures a in s {
      if a in Kept(s, k + 1) {
        var q :| 0 <= q < |s[k + 1..]| && s[k + 1..][q] == a;
        assert s[k + 1 + q] == a;
      } else {
        var q :| 0 <= q < k + 1 && s[..k + 1][q] == a;
        assert s[q] == a;
      }
    }
  }

  /** With distinct names, an agent with no neighbour in the whole pool is dropped. */
  lemma IsolatedIsDropped(s: seq<Agent>, k: nat)
    requires Roster(s) && k < |s| && Isolated(s[k], Names(s))
    ensures s[k] !in Kept(s, 0)
  {
    TurnWithinPool(s, k);
    IsolatedWithin(s[k], s[..k + 1] + Kept(s, k + 1), s);
    assert Kept(s, k) == Kept(s, k + 1);
    NotKeptLater(s, k);
    KeptWithin(s, 0, k);
    forall q | 0 <= q < k ensures s[..k][q] != s[k] {
      assert s[q].name != s[k].name;
    }
  }
}
