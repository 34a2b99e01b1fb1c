/**
 * The market's per-period state machine. One update admits the period's
 * arrivals while the population cap is not reached, fills everyone's
 * preference maps, ages every active agent, runs a schedule and a matching
 * algorithm, strips self-matches when they are not allowed, and moves every
 * matched or critical agent out of the active list into the matched or
 * perished history. The random draws (the arrival count, the newcomers'
 * deadlines and types, the compatibility draws) and the matching algorithm
 * are parameters.
 */
module Markets {
  import opened Seqs
  import opened Agents
  import opened Meta

  /** What the injected generators give one newcomer: its deadline and its type. */
  datatype Arrival = Arrival(timeToCritical: int, kind: int)

  /** A utility or compatibility callback: two agents and a numeric input. */
  type Score = (Agent, Agent, real) -> real

  /**
   * The callbacks that fill the preference maps, with the inputs the market
   * passes them: `utilInput` to the utility callback, the market's
   * acceptable probability to the compatibility callback.
   */
  datatype Scoring = Scoring(util: Score, utilInput: real, fail: Score, failInput: real)

  /** The agent created for `arrival` under the name `name`: no sojourn, empty maps. */
  function Newcomer(name: Name, arrival: Arrival): (a: Agent)
    ensures a.Valid() && a.name == name && a.sojourn == 0 && a.keys == []
    ensures a.kind == arrival.kind && a.timeToCritical == arrival.timeToCritical
  {
    Agent(name, arrival.kind, 0, arrival.timeToCritical, [], map[], map[])
  }

  /** The period's newcomers, named consecutively from `start`. */
  function Newcomers(start: Name, arrivals: seq<Arrival>): (r: seq<Agent>)
    ensures |r| == |arrivals|
    ensures forall i :: 0 <= i < |r| ==> r[i] == Newcomer(start + i, arrivals[i])
  {
    seq(|arrivals|, i requires 0 <= i < |arrivals| => Newcomer(start + i, arrivals[i]))
  }

  /** Newcomers named from `start` join a roster whose names are all below `start`. */
  lemma NewcomersJoin(s: seq<Agent>, start: Name, arrivals: seq<Arrival>)
    requires Roster(s) && forall a :: a in s ==> a.name < start
    ensures Roster(s + Newcomers(start, arrivals))
    ensures forall a :: a in s + Newcomers(start, arrivals) ==> a.name < start + |arrivals|
  {
    var t := s + Newcomers(start, arrivals);
    forall i, j | 0 <= i < j < |t| ensures t[i].name != t[j].name {
      if j < |s| {
        assert t[i] == s[i] && t[j] == s[j];
      } else if i < |s| {
        assert t[i] in s;
      }
    }
    forall a | a in t ensures a.Valid() && a.name < start + |arrivals| {
      var q :| 0 <= q < |t| && t[q] == a;
      if q < |s| {
        assert a in s;
      }
    }
  }

  /**
   * Agent `a` after `addNewToMap` for each of `others` in turn, every entry
   * scored against `a` as it was before the first one.
   */
  function Extended(a: Agent, others: seq<Agent>, sc: Scoring): (r: Agent)
    requires a.Valid()
    ensures r.Valid()
    decreases |others|
  {
    if others == [] then a
    else
      var o := others[|others| - 1];
      Extended(a, others[..|others| - 1], sc).AddNewToMap(o.name, sc.util(a, o, sc.utilInput), sc.fail(a, o, sc.failInput))
  }

  /**
   * Extending keeps the agent's identity, keeps its earlier keys in their
   * order, and adds exactly the names of `others`.
   */
  lemma {:induction false} ExtendedKeeps(a: Agent, others: seq<Agent>, sc: Scoring)
    requires a.Valid()
    ensures var r := Extended(a, others, sc);
      && SameAgent(r, a)
      && |a.keys| <= |r.keys| && r.keys[..|a.keys|] == a.keys
      && (forall n :: n in r.keys <==> n in a.keys || n in Names(others))
    decreases |others|
  {
    if others != [] {
      var init, o := others[..|others| - 1], others[|others| - 1];
      ExtendedKeeps(a, init, sc);
      var r0 := Extended(a, init, sc);
      var r := r0.AddNewToMap(o.name, sc.util(a, o, sc.utilInput), sc.fail(a, o, sc.failInput));
      assert Extended(a, others, sc) == r;
      NamesLast(others);
      assert r.keys[..|r0.keys|] == r0.keys;
      assert r.keys[..|a.keys|] == r0.keys[..|a.keys|];
    }
  }

  /** Extending leaves the entries of every name not among `others` as they were. */
  lemma {:induction false} ExtendedLeaves(a: Agent, others: seq<Agent>, sc: Scoring)
    requires a.Valid()
    ensures var r := Extended(a, others, sc);
      forall n :: n in a.util && n !in Names(others) ==> Kept(r, a, n) && r.prob[n] == a.prob[n]
    decreases |others|
  {
    if others != [] {
      var init, o := others[..|others| - 1], others[|others| - 1];
      ExtendedLeaves(a, init, sc);
      var r0 := Extended(a, init, sc);
      var r := r0.AddNewToMap(o.name, sc.util(a, o, sc.utilInput), sc.fail(a, o, sc.failInput));
      assert Extended(a, others, sc) == r;
      NamesLast(others);
      forall n | n in a.util && n !in Names(others)
        ensures Kept(r, a, n) && r.prob[n] == a.prob[n]
      {
        assert n !in Names(init) && n != o.name;
      }
    }
  }

  /** The names of a non-empty list: those of all but the last agent, then the last one's. */
  lemma NamesLast(s: seq<Agent>)
    requires s != []
    ensures Names(s) == Names(s[..|s| - 1]) + [s[|s| - 1].name]
  {
    var r := Names(s[..|s| - 1]) + [s[|s| - 1].name];
    forall i | 0 <= i < |s| ensures r[i] == s[i].name {
      if i < |s| - 1 {
        assert r[i] == Names(s[..|s| - 1])[i] == s[..|s| - 1][i].name;
      }
    }
    NamesPointwise(s, r);
  }

  /** When the names of `others` are distinct, each gets the scores of `a` against it. */
  lemma ExtendedScores(a: Agent, others: seq<Agent>, sc: Scoring)
    requires a.Valid()
    requires forall i, j :: 0 <= i < j < |others| ==> others[i].name != others[j].name
    ensures var r := Extended(a, others, sc);
      forall i :: 0 <= i < |others| ==>
        && others[i].name in r.util && r.util[others[i].name] == sc.util(a, others[i], sc.utilInput)
        && others[i].name in r.prob && r.prob[others[i].name] == sc.fail(a, others[i], sc.failInput)
  {
    ExtendedUtil(a, others, sc);
    ExtendedProb(a, others, sc);
  }

  /** The utility half of `ExtendedScores`. */
  lemma ExtendedUtil(a: Agent, others: seq<Agent>, sc: Scoring)
    requires a.Valid()
    requires forall i, j :: 0 <= i < j < |others| ==> others[i].name != others[j].name
    ensures var r := Extended(a, others, sc);
      forall i :: 0 <= i < |others| ==> others[i].name in r.util && r.util[others[i].name] == sc.util(a, others[i], sc.utilInput)
  {
    forall i | 0 <= i < |others| ensures var r := Extended(a, others, sc); others[i].name in r.util && r.util[others[i].name] == sc.util(a, others[i], sc.utilInput) {
      ExtendedUtilAt(a, others, sc, i);
    }
  }

  /** One agent of `others` at a time. */
  lemma {:induction false} ExtendedUtilAt(a: Agent, others: seq<Agent>, sc: Scoring, i: nat)
    requires a.Valid()
    requires forall i, j :: 0 <= i < j < |others| ==> others[i].name != others[j].name
    requires i < |others|
    ensures var r := Extended(a, others, sc); others[i].name in r.util && r.util[others[i].name] == sc.util(a, others[i], sc.utilInput)
    decreases |others|
  {
    var init, o := others[..|others| - 1], others[|others| - 1];
    var r0, r := Extended(a, init, sc), Extended(a, others, sc);
    assert r.util == r0.util[o.name := sc.util(a, o, sc.utilInput)];
    if i < |init| {
      ExtendedUtilAt(a, init, sc, i);
      assert others[i] == init[i] && others[i].name != o.name;
    }
  }

  /** The success-probability half of `ExtendedScores`. */
  lemma ExtendedProb(a: Agent, others: seq<Agent>, sc: Scoring)
    requires a.Valid()
    requires forall i, j :: 0 <= i < j < |others| ==> others[i].name != others[j].name
    ensures var r := Extended(a, others, sc);
      forall i :: 0 <= i < |others| ==> others[i].name in r.prob && r.prob[others[i].name] == sc.fail(a, others[i], sc.failInput)
  {
    forall i | 0 <= i < |others| ensures var r := Extended(a, others, sc); others[i].name in r.prob && r.prob[others[i].name] == sc.fail(a, others[i], sc.failInput) {
      ExtendedProbAt(a, others, sc, i);
    }
  }

  /** One agent of `others` at a time. */
  lemma {:induction false} ExtendedProbAt(a: Agent, others: seq<Agent>, sc: Scoring, i: nat)
    requires a.Valid()
    requires forall i, j :: 0 <= i < j < |others| ==> others[i].name != others[j].name
    requires i < |others|
    ensures var r := Extended(a, others, sc); others[i].name in r.prob && r.prob[others[i].name] == sc.fail(a, others[i], sc.failInput)
    decreases |others|
  {
    var init, o := others[..|others| - 1], others[|others| - 1];
    var r0, r := Extended(a, init, sc), Extended(a, others, sc);
    assert r.prob == r0.prob[o.name := sc.fail(a, o, sc.failInput)];
    if i < |init| {
      ExtendedProbAt(a, init, sc, i);
      assert others[i] == init[i] && others[i].name != o.name;
    }
  }

  /** The inner map-filling loop: `addNewToMap` for each counterpart in turn. */
  method AddAll(a: Agent, others: seq<Agent>, sc: Scoring) returns (r: Agent)
    requires a.Valid()
    ensures r == Extended(a, others, sc)
  {
    r := a;
    for j := 0 to |others|
      invariant r == Extended(a, others[..j], sc)
    {
      assert others[..j + 1][..j] == others[..j];
      r := r.AddNewToMap(others[j].name, sc.util(a, others[j], sc.utilInput), sc.fail(a, others[j], sc.failInput));
    }
    assert others[..|others|] == others;
  }

  /**
   * Where Python's `Agents[-k:]` starts: the last `k` agents, except that
   * `-0` is `0`, so with no arrivals it is the whole list (and
   * `Agents[:-0]` is empty).
   */
  function Split(n: nat, k: nat): (s: nat)
    requires k <= n
    ensures s <= n
    ensures k == 0 ==> s == 0
    ensures k > 0 ==> n - s == k
  {
    if k == 0 then 0 else n - k
  }

  /** The counterparts agent `i` of `s` is scored against, when the last `k` are new. */
  function Counterparts(s: seq<Agent>, k: nat, i: nat): seq<Agent>
    requires k <= |s|
  {
    if i < Split(|s|, k) then s[Split(|s|, k)..] else s
  }

  /** The agents of `s` after map filling, when the last `k` of them are new. */
  function Filled(s: seq<Agent>, k: nat, sc: Scoring): seq<Agent>
    requires k <= |s| && forall a :: a in s ==> a.Valid()
  {
    seq(|s|, i requires 0 <= i < |s| => Extended(s[i], Counterparts(s, k, i), sc))
  }

  /** `r` is agent `a` under another state: same name, type, sojourn and deadline. */
  predicate SameAgent(r: Agent, a: Agent) {
    r.name == a.name && r.kind == a.kind && r.sojourn == a.sojourn && r.timeToCritical == a.timeToCritical
  }

  /** `r`, which was `a`, holds the callbacks' scores of `a` against `b`. */
  predicate Scored(r: Agent, a: Agent, b: Agent, sc: Scoring) {
    && b.name in r.util && r.util[b.name] == sc.util(a, b, sc.utilInput)
    && b.name in r.prob && r.prob[b.name] == sc.fail(a, b, sc.failInput)
  }

  /** The names of a slice of a roster are distinct. */
  lemma SliceNames(s: seq<Agent>, q: nat)
    requires Roster(s) && q <= |s|
    ensures forall a, b :: 0 <= a < b < |s| - q ==> s[q..][a].name != s[q..][b].name
  {
    forall a, b | 0 <= a < b < |s| - q ensures s[q..][a].name != s[q..][b].name {
      assert s[q..][a] == s[q + a] && s[q..][b] == s[q + b];
    }
  }

  /** Map filling for agent `i` alone. */
  lemma FilledAt(s: seq<Agent>, k: nat, sc: Scoring, i: nat)
    requires k <= |s| && Roster(s) && i < |s|
    ensures FilledOne(s, Split(|s|, k), i, Filled(s, k, sc)[i], sc)
  {
    var r, p := Filled(s, k, sc), Split(|s|, k);
    var q := if i < p then p else 0;
    var others := s[q..];
    assert others == Counterparts(s, k, i);
    assert s[i] in s;
    assert r[i] == Extended(s[i], others, sc);
    SliceNames(s, q);
    ScoredFrom(s[i], s, q, sc);
    ExtendedKeeps(s[i], others, sc);
    ExtendedLeaves(s[i], others, sc);
  }

  /** Extending by a slice with distinct names scores against each agent of the slice. */
  lemma ScoredFrom(a: Agent, s: seq<Agent>, q: nat, sc: Scoring)
    requires a.Valid() && q <= |s|
    requires forall x, y :: 0 <= x < y < |s| - q ==> s[q..][x].name != s[q..][y].name
    ensures forall j :: q <= j < |s| ==> Scored(Extended(a, s[q..], sc), a, s[j], sc)
  {
    ExtendedScores(a, s[q..], sc);
    forall j | q <= j < |s| ensures Scored(Extended(a, s[q..], sc), a, s[j], sc) {
      assert s[j] == s[q..][j - q];
    }
  }

  /**
   * Agent `i` of `s` after map filling, when the newcomers start at `p`: the
   * same agent, well formed, scored against every newcomer if it is an
   * earlier agent and against every agent (itself included) if it is new,
   * with each entry that is not refreshed unchanged.
   */
  ghost predicate FilledOne(s: seq<Agent>, p: nat, i: nat, r: Agent, sc: Scoring)
    requires p <= |s| && i < |s|
  {
    && SameAgent(r, s[i]) && r.Valid()
    && (forall j :: (if i < p then p else 0) <= j < |s| ==> Scored(r, s[i], s[j], sc))
    && (i < p ==> forall n :: n in s[i].util && n !in Names(s[p..]) ==> Kept(r, s[i], n))
  }

  /** `r`, which was `a`, still holds the entry of `a` for `n`. */
  predicate Kept(r: Agent, a: Agent, n: Name) {
    n in r.util && n in a.util && r.util[n] == a.util[n]
  }

  /**
   * Map filling keeps the roster and fills every agent's maps as `FilledOne`
   * says: earlier agents gain the newcomers, newcomers gain everyone.
   */
  lemma FilledMeans(s: seq<Agent>, k: nat, sc: Scoring)
    requires k <= |s| && Roster(s)
    ensures var r := Filled(s, k, sc);
      && |r| == |s| && Roster(r)
      && forall i :: 0 <= i < |s| ==> FilledOne(s, Split(|s|, k), i, r[i], sc)
  {
    var r := Filled(s, k, sc);
    forall i | 0 <= i < |s| ensures FilledOne(s, Split(|s|, k), i, r[i], sc) {
      FilledAt(s, k, sc, i);
    }
    RosterPointwise(s, r);
  }

  /** Map filling keeps a roster a roster, under the same bound on its names. */
  lemma FilledBelow(s: seq<Agent>, k: nat, sc: Scoring, bound: nat)
    requires k <= |s| && Roster(s) && forall a :: a in s ==> a.name < bound
    ensures Roster(Filled(s, k, sc)) && forall a :: a in Filled(s, k, sc) ==> a.name < bound
  {
    var r := Filled(s, k, sc);
    FilledMeans(s, k, sc);
    forall a | a in r ensures a.name < bound {
      var q :| 0 <= q < |r| && r[q] == a;
      assert SameAgent(r[q], s[q]) && s[q] in s;
    }
  }

  /** A list that names the same agents position by position, each well formed, is a roster. */
  lemma RosterPointwise(s: seq<Agent>, t: seq<Agent>)
    requires Roster(s) && |t| == |s|
    requires forall i :: 0 <= i < |s| ==> t[i].name == s[i].name && t[i].Valid()
    ensures Roster(t)
  {
    forall a | a in t ensures a.Valid() {
      var q :| 0 <= q < |t| && t[q] == a;
    }
  }

  /**
   * The active list after admission: while `total` is below `cap`, the
   * newcomers follow the agents of `s` and all maps are filled; otherwise
   * `s` unchanged.
   */
  ghost function Admitted(s: seq<Agent>, total: nat, cap: int, arrivals: seq<Arrival>, sc: Scoring): seq<Agent>
    requires Roster(s) && forall a :: a in s ==> a.name < total
  {
    if total < cap then
      NewcomersJoin(s, total, arrivals);
      Filled(s + Newcomers(total, arrivals), |arrivals|, sc)
    else s
  }

  /** Every agent one period older. */
  function Aged(s: seq<Agent>): seq<Agent> {
    seq(|s|, i requires 0 <= i < |s| => s[i].Update())
  }

  /**
   * The schedule reads the agents after ageing, so an agent that starts with
   * sojourn 0 is never submitted by `Greedy` from within a market update.
   */
  lemma GreedyAfterAging(s: seq<Agent>)
    ensures Submitted(Greedy, Aged(s)) == []
  {
    var r := Submitted(Greedy, Aged(s));
    forall x | x in Aged(s) ensures x.sojourn > 0 {
      var q :| 0 <= q < |s| && Aged(s)[q] == x;
    }
    assert forall i :: 0 <= i < |r| ==> r[i] in r;
  }

  /** What becomes of an active agent this period. */
  datatype Fate = Matched | Perished | Stays

  /**
   * A matched agent (its name is a key of the matches) leaves with its
   * partner; otherwise a critical agent perishes; anyone else stays.
   */
  function FateOf(x: Agent, matches: map<Name, Name>): Fate {
    if x.name in matches then Matched
    else if x.IsCritical() then Perished
    else Stays
  }

  /** The agents of `s` whose fate is one of `fates`, in their order. */
  function Sift(s: seq<Agent>, matches: map<Name, Name>, fates: set<Fate>): seq<Agent> {
    if s == [] then []
    else
      var last := s[|s| - 1];
      Sift(s[..|s| - 1], matches, fates) + (if FateOf(last, matches) in fates then [last] else [])
  }

  /** `Sift` keeps exactly the agents of those fates, and no agent twice. */
  lemma {:induction false} SiftMeans(s: seq<Agent>, matches: map<Name, Name>, fates: set<Fate>)
    ensures forall x :: x in Sift(s, matches, fates) <==> x in s && FateOf(x, matches) in fates
    ensures Distinct(s) ==> Distinct(Sift(s, matches, fates))
  {
    if s != [] {
      var init, last := s[..|s| - 1], s[|s| - 1];
      var tail := if FateOf(last, matches) in fates then [last] else [];
      SiftMeans(init, matches, fates);
      assert s == init + [last];
      assert Sift(s, matches, fates) == Sift(init, matches, fates) + tail;
      if Distinct(s) {
        assert Distinct(init) && last !in init;
        DistinctAppend(Sift(init, matches, fates), tail);
      }
    }
  }

  /** Two duplicate-free lists with nothing in common join into one. */
  lemma DistinctAppend(a: seq<Agent>, b: seq<Agent>)
    requires Distinct(a) && Distinct(b) && forall x :: x in a ==> x !in b
    ensures Distinct(a + b)
  {
    forall i, j | 0 <= i < j < |a + b| ensures (a + b)[i] != (a + b)[j] {
      if i < |a| <= j {
        assert (a + b)[i] in a && (a + b)[j] == b[j - |a|];
      }
    }
  }

  /** Every active agent has exactly one fate: the three lists split the market. */
  lemma {:induction false} SiftSplits(s: seq<Agent>, matches: map<Name, Name>)
    ensures |Sift(s, matches, {Matched})| + |Sift(s, matches, {Perished})| + |Sift(s, matches, {Stays})| == |s|
    ensures Sift(s, matches, {Matched, Perished}) == MergedLeaving(s, matches)
  {
    if s != [] {
      SiftSplits(s[..|s| - 1], matches);
    }
  }

  /** The leavers in market order, as the matched and perished lists interleave them. */
  function MergedLeaving(s: seq<Agent>, matches: map<Name, Name>): seq<Agent> {
    if s == [] then []
    else
      var last := s[|s| - 1];
      MergedLeaving(s[..|s| - 1], matches) + (if FateOf(last, matches) != Stays then [last] else [])
  }

  /** The welfare gained from the matched agents of `s`. */
  function Welfare(s: seq<Agent>, matches: map<Name, Name>, gain: Agent -> real): real {
    if s == [] then 0.0
    else
      var last := s[|s| - 1];
      Welfare(s[..|s| - 1], matches, gain) + (if last.name in matches then gain(last) else 0.0)
  }

  /** A gain that is never negative makes welfare never negative. */
  lemma {:induction false} WelfareGrows(s: seq<Agent>, matches: map<Name, Name>, gain: Agent -> real)
    requires forall x :: x in s ==> gain(x) >= 0.0
    ensures Welfare(s, matches, gain) >= 0.0
  {
    if s != [] {
      WelfareGrows(s[..|s| - 1], matches, gain);
      assert s[|s| - 1] in s;
    }
  }

  /** Python's `list.remove`: drops the first occurrence of `x`. */
  function Without(s: seq<Agent>, x: Agent): (r: seq<Agent>)
    ensures x in s ==> |r| == |s| - 1
  {
    if s == [] then []
    else if s[0] == x then s[1..]
    else [s[0]] + Without(s[1..], x)
  }

  /** The agents of `s` not listed in `xs`. */
  function Keep(s: seq<Agent>, xs: seq<Agent>): (r: seq<Agent>)
    ensures forall y :: y in r <==> y in s && y !in xs
  {
    if s == [] then []
    else
      var last := s[|s| - 1];
      Keep(s[..|s| - 1], xs) + (if last in xs then [] else [last])
  }

  /** With nothing listed, everything is kept. */
  lemma {:induction false} KeepNothing(s: seq<Agent>)
    ensures Keep(s, []) == s
  {
    if s != [] {
      KeepNothing(s[..|s| - 1]);
      assert s == s[..|s| - 1] + [s[|s| - 1]];
    }
  }

  /** Removing `x` from the front part of a list leaves the rest alone. */
  lemma {:induction false} WithoutFront(a: seq<Agent>, b: seq<Agent>, x: Agent)
    requires x in a
    ensures Without(a + b, x) == Without(a, x) + b
  {
    if a[0] != x {
      WithoutFront(a[1..], b, x);
      assert (a + b)[1..] == a[1..] + b;
    }
  }

  /** Removing the last element, when it occurs only there, gives the rest. */
  lemma {:induction false} WithoutLast(a: seq<Agent>, x: Agent)
    requires x !in a
    ensures Without(a + [x], x) == a
  {
    if a != [] {
      WithoutLast(a[1..], x);
      assert (a + [x])[1..] == a[1..] + [x];
    }
  }

  /** Listing names of agents absent from `s` changes nothing. */
  lemma {:induction false} KeepIgnores(s: seq<Agent>, xs: seq<Agent>, x: Agent)
    requires x !in s
    ensures Keep(s, xs + [x]) == Keep(s, xs)
  {
    if s != [] {
      KeepIgnores(s[..|s| - 1], xs, x);
    }
  }

  /** One `remove` of a listed agent extends the exclusion list by that agent. */
  lemma {:induction false} WithoutKeep(s: seq<Agent>, xs: seq<Agent>, x: Agent)
    requires Distinct(s) && x in s && x !in xs
    ensures Without(Keep(s, xs), x) == Keep(s, xs + [x])
  {
    var init, last := s[..|s| - 1], s[|s| - 1];
    assert s == init + [last];
    assert Distinct(init);
    if last == x {
      assert x !in init;
      assert x !in Keep(init, xs);
      WithoutLast(Keep(init, xs), x);
      KeepIgnores(init, xs, x);
    } else {
      WithoutKeep(init, xs, x);
      var tail := if last in xs then [] else [last];
      assert x in Keep(init, xs);
      WithoutFront(Keep(init, xs), tail, x);
    }
  }

  /** In a duplicate-free list, the `j`-th element is not among the first `j`. */
  lemma NotBefore(xs: seq<Agent>, j: nat)
    requires Distinct(xs) && j < |xs|
    ensures xs[j] !in xs[..j]
  {
    forall q | 0 <= q < j ensures xs[..j][q] != xs[j] {
      assert xs[..j][q] == xs[q];
    }
  }

  /** The `j`-th `remove` of a duplicate-free list of agents of `s`. */
  lemma RemoveStep(s: seq<Agent>, xs: seq<Agent>, j: nat)
    requires Distinct(s) && Distinct(xs) && j < |xs| && xs[j] in s
    ensures Without(Keep(s, xs[..j]), xs[j]) == Keep(s, xs[..j + 1])
  {
    assert xs[..j + 1] == xs[..j] + [xs[j]];
    NotBefore(xs, j);
    WithoutKeep(s, xs[..j], xs[j]);
  }

  /** Excluding exactly the leavers keeps exactly the agents that stay. */
  lemma {:induction false} KeepStays(s: seq<Agent>, xs: seq<Agent>, matches: map<Name, Name>)
    requires forall x :: x in s ==> (x in xs <==> FateOf(x, matches) != Stays)
    ensures Keep(s, xs) == Sift(s, matches, {Stays})
  {
    if s != [] {
      KeepStays(s[..|s| - 1], xs, matches);
      assert s[|s| - 1] in s;
    }
  }

  /** A roster lists no agent twice. */
  lemma RosterDistinct(s: seq<Agent>)
    requires Roster(s)
    ensures Distinct(s)
  {
  }

  /** A duplicate-free list of agents taken from a roster is a roster. */
  lemma RosterWithin(r: seq<Agent>, s: seq<Agent>)
    requires Roster(s) && Distinct(r) && forall x :: x in r ==> x in s
    ensures Roster(r)
  {
    forall i, j | 0 <= i < j < |r| ensures r[i].name != r[j].name {
      assert r[i] in s && r[j] in s;
      var p :| 0 <= p < |s| && s[p] == r[i];
      var q :| 0 <= q < |s| && s[q] == r[j];
    }
  }

  /** One step of the settling loop: each list grows by agent `i` if that is its fate. */
  lemma SettleStep(s: seq<Agent>, i: nat, matches: map<Name, Name>, gain: Agent -> real)
    requires i < |s|
    ensures var t, x, f := s[..i + 1], s[i], FateOf(s[i], matches);
      && Sift(t, matches, {Matched}) == Sift(s[..i], matches, {Matched}) + (if f == Matched then [x] else [])
      && Sift(t, matches, {Perished}) == Sift(s[..i], matches, {Perished}) + (if f == Perished then [x] else [])
      && MergedLeaving(t, matches) == MergedLeaving(s[..i], matches) + (if f != Stays then [x] else [])
      && Welfare(t, matches, gain) == Welfare(s[..i], matches, gain) + (if f == Matched then gain(x) else 0.0)
  {
    assert s[..i + 1][..i] == s[..i];
  }

  /**
   * Settling a roster: the leavers, in market order, are distinct agents of
   * it, exactly those that do not stay; the agents that stay form a roster;
   * and the three fates account for every agent.
   */
  lemma SettleFits(s: seq<Agent>, matches: map<Name, Name>)
    requires Roster(s)
    ensures var out := MergedLeaving(s, matches);
      && Distinct(s) && Distinct(out)
      && (forall x :: x in out ==> x in s)
      && (forall x :: x in s ==> (x in out <==> FateOf(x, matches) != Stays))
    ensures Roster(Sift(s, matches, {Stays})) && forall x :: x in Sift(s, matches, {Stays}) ==> x in s
    ensures |Sift(s, matches, {Matched})| + |Sift(s, matches, {Perished})| + |Sift(s, matches, {Stays})| == |s|
  {
    SiftSplits(s, matches);
    SiftMeans(s, matches, {Matched, Perished});
    SiftMeans(s, matches, {Stays});
    RosterDistinct(s);
    RosterWithin(Sift(s, matches, {Stays}), s);
  }

  /**
   * The loss ratio, kept as the exact fraction `num / den`; its value is
   * what Python's true division of the two counts approximates.
   */
  datatype Fraction = Fraction(num: nat, den: nat) {
    /** A share of a whole. */
    predicate Proper() {
      den > 0 && num <= den
    }

    /** The quotient; a share of a whole lies between 0 and 1. */
    function Value(): (r: real)
      requires den > 0
      ensures num <= den ==> 0.0 <= r <= 1.0
      ensures num == 0 ==> r == 0.0
    {
      var r := num as real / den as real;
      assert r * den as real == num as real;
      r
    }
  }

  /** The algorithm's matches with every self-match deleted. */
  method StripSelf(matches: map<Name, Name>) returns (r: map<Name, Name>)
    ensures forall n :: n in r <==> n in matches && matches[n] != n
    ensures forall n :: n in r ==> r[n] == matches[n]
  {
    r := matches;
    var todo := matches.Keys;
    while todo != {}
      invariant todo <= matches.Keys
      invariant forall n :: n in r <==> n in matches && (n in todo || matches[n] != n)
      invariant forall n :: n in r ==> r[n] == matches[n]
      decreases |todo|
    {
      var n :| n in todo;
      if matches[n] == n {
        r := r - {n};
      }
      todo := todo - {n};
    }
  }

  class Market {
    var agents: seq<Agent>
    var arrivalRate: real
    var acceptableProb: real
    var maxAgents: int
    var perished: seq<Agent>
    var matched: seq<Agent>
    var matchedDict: map<Name, Name>
    var time: nat
    var welfare: real
    var totalAgents: nat
    var loss: Fraction

    /**
     * Every agent ever admitted is active, matched or perished; the active
     * agents form a roster named below the admission count; the loss ratio
     * is a fraction.
     */
    ghost predicate Valid()
      reads this`agents, this`matched, this`perished, this`totalAgents, this`loss
    {
      && totalAgents == |agents| + |matched| + |perished|
      && Roster(agents)
      && (forall a :: a in agents ==> a.name < totalAgents)
      && loss.Proper()
    }

    /** An empty market at period 0. */
    constructor (arrivalRate: real, averageProb: real, maxAgents: int)
      ensures Valid()
      ensures agents == [] && matched == [] && perished == [] && matchedDict == map[]
      ensures time == 0 && welfare == 0.0 && totalAgents == 0 && loss == Fraction(0, 1)
      ensures this.arrivalRate == arrivalRate && acceptableProb == averageProb
      ensures this.maxAgents == maxAgents
    {
      agents := [];
      this.arrivalRate := arrivalRate;
      acceptableProb := averageProb;
      this.maxAgents := maxAgents;
      perished := [];
      matched := [];
      matchedDict := map[];
      time := 0;
      welfare := 0.0;
      totalAgents := 0;
      loss := Fraction(0, 1);
    }

    /** The number of critical active agents. */
    method Critical() returns (count: nat)
      ensures count == |Submitted(Patient(None), agents)|
    {
      count := 0;
      for i := 0 to |agents|
        invariant count == |Submitted(Patient(None), agents[..i])|
      {
        assert agents[..i + 1][..i] == agents[..i];
        if agents[i].IsCritical() {
          count := count + 1;
        }
      }
      assert agents[..|agents|] == agents;
    }

    /** Admits one newcomer per arrival, named by the running admission count. */
    method Arrive(arrivals: seq<Arrival>)
      requires Valid()
      modifies this`agents, this`totalAgents
      ensures Valid()
      ensures agents == old(agents) + Newcomers(old(totalAgents), arrivals)
      ensures totalAgents == old(totalAgents) + |arrivals|
    {
      NewcomersJoin(agents, totalAgents, arrivals);
      for i := 0 to |arrivals|
        invariant agents == old(agents) + Newcomers(old(totalAgents), arrivals[..i])
        invariant totalAgents == old(totalAgents) + i
      {
        assert Newcomers(old(totalAgents), arrivals[..i + 1])
          == Newcomers(old(totalAgents), arrivals[..i]) + [Newcomer(totalAgents, arrivals[i])];
        agents := agents + [Newcomer(totalAgents, arrivals[i])];
        totalAgents := totalAgents + 1;
      }
      assert arrivals[..|arrivals|] == arrivals;
    }

    /** Fills the preference maps when the last `k` active agents are new. */
    method FillMaps(k: nat, sc: Scoring)
      requires Valid() && k <= |agents|
      modifies this`agents
      ensures Valid()
      ensures agents == Filled(old(agents), k, sc)
    {
      var before := agents;
      for i := 0 to |before|
        invariant |agents| == |before|
        invariant forall j :: 0 <= j < i ==> agents[j] == Filled(before, k, sc)[j]
        invariant forall j :: i <= j < |before| ==> agents[j] == before[j]
      {
        assert before[i] in before;
        var a := AddAll(before[i], Counterparts(before, k, i), sc);
        agents := agents[i := a];
      }
      assert agents == Filled(before, k, sc);
      FilledBelow(before, k, sc, totalAgents);
    }

    /** Every active agent's `update()`: one period older. */
    method Age()
      requires Valid()
      modifies this`agents
      ensures Valid()
      ensures agents == Aged(old(agents))
    {
      var before := agents;
      for i := 0 to |before|
        invariant |agents| == |before|
        invariant forall j :: 0 <= j < i ==> agents[j] == before[j].Update()
        invariant forall j :: i <= j < |before| ==> agents[j] == before[j]
      {
        agents := agents[i := agents[i].Update()];
      }
      assert agents == Aged(before);
      forall i | 0 <= i < |before| ensures agents[i].name == before[i].name && agents[i].Valid() {
        assert before[i] in before;
      }
      RosterPointwise(before, agents);
      forall a | a in agents ensures a.name < totalAgents {
        var q :| 0 <= q < |agents| && agents[q] == a;
        assert before[q] in before;
      }
    }

    /**
     * Moves each matched agent to the matched history (crediting its gain to
     * welfare) and each unmatched critical agent to the perished history,
     * then removes them all from the active list one `remove` at a time.
     */
    method Settle(matches: map<Name, Name>, gain: Agent -> real)
      requires Valid()
      modifies this`agents, this`matched, this`perished, this`welfare
      ensures Valid()
      ensures agents == Sift(old(agents), matches, {Stays})
      ensures matched == old(matched) + Sift(old(agents), matches, {Matched})
      ensures perished == old(perished) + Sift(old(agents), matches, {Perished})
      ensures welfare == old(welfare) + Welfare(old(agents), matches, gain)
    {
      var before := agents;
      var toRemove := Classify(matches, gain);
      SettleFits(before, matches);
      RemoveAll(before, toRemove, matches);
    }

    /**
     * The settling loop: appends each matched agent to the matched history,
     * crediting its gain, and each unmatched critical agent to the perished
     * history; returns both kinds of leaver in market order.
     */
    method Classify(matches: map<Name, Name>, gain: Agent -> real) returns (toRemove: seq<Agent>)
      modifies this`matched, this`perished, this`welfare
      ensures matched == old(matched) + Sift(agents, matches, {Matched})
      ensures perished == old(perished) + Sift(agents, matches, {Perished})
      ensures welfare == old(welfare) + Welfare(agents, matches, gain)
      ensures toRemove == MergedLeaving(agents, matches)
    {
      toRemove := [];
      for i := 0 to |agents|
        invariant matched == old(matched) + Sift(agents[..i], matches, {Matched})
        invariant perished == old(perished) + Sift(agents[..i], matches, {Perished})
        invariant toRemove == MergedLeaving(agents[..i], matches)
        invariant welfare == old(welfare) + Welfare(agents[..i], matches, gain)
      {
        var a := agents[i];
        SettleStep(agents, i, matches, gain);
        if a.name in matches {
          welfare := welfare + gain(a);
          matched := matched + [a];
          toRemove := toRemove + [a];
          continue;
        }
        if a.IsCritical() {
          perished := perished + [a];
          toRemove := toRemove + [a];
        }
      }
      assert agents[..|agents|] == agents;
    }

    /** The `remove` loop: takes each listed leaver out of the active list. */
    method RemoveAll(ghost before: seq<Agent>, toRemove: seq<Agent>, ghost matches: map<Name, Name>)
      requires agents == before && Distinct(before) && Distinct(toRemove)
      requires forall x :: x in toRemove ==> x in before
      requires forall x :: x in before ==> (x in toRemove <==> FateOf(x, matches) != Stays)
      modifies this`agents
      ensures agents == Sift(before, matches, {Stays})
    {
      KeepNothing(before);
      for j := 0 to |toRemove|
        invariant agents == Keep(before, toRemove[..j])
      {
        RemoveStep(before, toRemove, j);
        agents := Without(agents, toRemove[j]);
      }
      assert toRemove[..|toRemove|] == toRemove;
      KeepStays(before, toRemove, matches);
    }

    /** Admission: below the cap, the arrivals join and everyone's maps are filled. */
    method Admit(arrivals: seq<Arrival>, sc: Scoring)
      requires Valid()
      modifies this`agents, this`totalAgents
      ensures Valid()
      ensures agents == Admitted(old(agents), old(totalAgents), maxAgents, arrivals, sc)
      ensures totalAgents == old(totalAgents) + (if old(totalAgents) < maxAgents then |arrivals| else 0)
    {
      if totalAgents < maxAgents {
        Arrive(arrivals);
        FillMaps(|arrivals|, sc);
      }
    }

    /** The clock advances and every active agent ages by one period. */
    method Tick()
      requires Valid()
      modifies this`time, this`agents
      ensures Valid()
      ensures time == old(time) + 1 && agents == Aged(old(agents))
    {
      time := time + 1;
      Age();
    }

    /**
     * Runs the schedule and the algorithm, deletes self-matches unless they
     * are allowed, and merges the rest into the cumulative match record.
     */
    method Match(schedule: Schedule, algorithm: Matcher, selfMatch: bool) returns (kept: map<Name, Name>)
      modifies this`matchedDict
      ensures var found := Run(schedule, agents, algorithm);
        && (forall n :: n in kept <==> n in found && (selfMatch || found[n] != n))
        && (forall n :: n in kept ==> kept[n] == found[n])
      ensures matchedDict == old(matchedDict) + kept
    {
      var found := Run(schedule, agents, algorithm);
      kept := found;
      if !selfMatch {
        kept := StripSelf(found);
      }
      matchedDict := matchedDict + kept;
      matchedDict := matchedDict + kept;
    }

    /** After the warm-up periods, the loss is the perished share of all admitted agents. */
    method Account()
      requires Valid() && (time > 10 ==> totalAgents > 0)
      modifies this`loss
      ensures Valid()
      ensures loss == if time > 10 then Fraction(|perished|, totalAgents) else old(loss)
    {
      if time > 10 {
        loss := Fraction(|perished|, totalAgents);
      }
    }

    /**
     * The first half of a period: admission, then the clock and the agents
     * advance by one period.
     */
    method Enter(arrivals: seq<Arrival>, sc: Scoring)
      requires Valid()
      modifies this`agents, this`totalAgents, this`time
      ensures Valid()
      ensures time == old(time) + 1
      ensures totalAgents == old(totalAgents) + (if old(totalAgents) < maxAgents then |arrivals| else 0)
      ensures agents == Aged(Admitted(old(agents), old(totalAgents), maxAgents, arrivals, sc))
    {
      Admit(arrivals, sc);
      Tick();
    }

    /**
     * The second half of a period: the schedule and the algorithm choose the
     * matches, the market settles them and records the loss.
     */
    method Resolve(schedule: Schedule, algorithm: Matcher, gain: Agent -> real, selfMatch: bool)
      returns (ghost matches: map<Name, Name>)
      requires Valid() && (time > 10 ==> totalAgents > 0)
      modifies this`agents, this`matched, this`perished, this`welfare, this`matchedDict, this`loss
      ensures Valid()
      ensures var found := Run(schedule, old(agents), algorithm);
        && (forall n :: n in matches <==> n in found && (selfMatch || found[n] != n))
        && (forall n :: n in matches ==> matches[n] == found[n])
      ensures matchedDict == old(matchedDict) + matches
      ensures agents == Sift(old(agents), matches, {Stays})
      ensures matched == old(matched) + Sift(old(agents), matches, {Matched})
      ensures perished == old(perished) + Sift(old(agents), matches, {Perished})
      ensures welfare == old(welfare) + Welfare(old(agents), matches, gain)
      ensures loss == if time > 10 then Fraction(|perished|, totalAgents) else old(loss)
    {
      var kept := Match(schedule, algorithm, selfMatch);
      matches := kept;
      Settle(kept, gain);
      Account();
    }

    /**
     * One period. The market admits the arrivals only while fewer than
     * `maxAgents` agents were ever admitted; `present` is the active list
     * the schedule reads and `matches` what the market acts on.
     */
    method Update(arrivals: seq<Arrival>, schedule: Schedule, algorithm: Matcher,
                  sc: Scoring, gain: Agent -> real, selfMatch: bool)
      returns (ghost present: seq<Agent>, ghost matches: map<Name, Name>)
      requires Valid() && sc.failInput == acceptableProb
      requires time >= 10 ==> totalAgents > 0 || (totalAgents < maxAgents && arrivals != [])
      modifies this`agents, this`totalAgents, this`time, this`matched, this`perished, this`welfare
      modifies this`matchedDict, this`loss
      ensures Valid()
      ensures time == old(time) + 1
      ensures totalAgents == old(totalAgents) + (if old(totalAgents) < maxAgents then |arrivals| else 0)
      ensures present == Aged(Admitted(old(agents), old(totalAgents), maxAgents, arrivals, sc))
      ensures var found := Run(schedule, present, algorithm);
        && (forall n :: n in matches <==> n in found && (selfMatch || found[n] != n))
        && (forall n :: n in matches ==> matches[n] == found[n])
      ensures matchedDict == old(matchedDict) + matches
      ensures agents == Sift(present, matches, {Stays})
      ensures matched == old(matched) + Sift(present, matches, {Matched})
      ensures perished == old(perished) + Sift(present, matches, {Perished})
      ensures welfare == old(welfare) + Welfare(present, matches, gain)
      ensures loss == if time > 10 then Fraction(|perished|, totalAgents) else old(loss)
    {
      Enter(arrivals, sc);
      present := agents;
      matches := Resolve(schedule, algorithm, gain, selfMatch);
    }
  }
}
