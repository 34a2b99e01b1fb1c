/**
 * `gale_shapley`: deferred acceptance between proposers (the agents whose
 * type is on side `m`) and acceptors (side `f`). Every dictionary is read
 * with agent names as keys: proposers are the agents whose type is listed
 * in `m`, rejection lists are kept per proposer, a proposer ranks
 * acceptors by its own `match_util`, and an acceptor ranks her proposers
 * by hers. Every `max` over an empty dictionary, which raises in Python,
 * gives the outcome `Raised`; a round that rejects nobody repeats itself
 * for ever, which gives `Diverges`.
 */
module Da {
  import opened Seqs
  import opened Agents

  // ---------------------------------------------------------------------
  // The two sides
  // ---------------------------------------------------------------------

  /** The `m` and `f` arguments: `None`, a single type, or a list of types. */
  datatype Side = Absent | One(kind: int) | Many(kinds: seq<int>)

  /**
   * The types a side lists once wrapped into a list: `None` becomes
   * `[None]`, which no agent's type equals, and a scalar becomes a
   * one-element list.
   */
  function Listed(s: Side): set<int>
  {
    match s
    case Absent => {}
    case One(t) => {t}
    case Many(ts) => set t | t in ts
  }

  /** `agentTypes`: the types present among the agents. */
  function Kinds(agents: seq<Agent>): set<int>
  {
    set a | a in agents :: a.kind
  }

  /**
   * The proposer and acceptor types: none at all when neither side is
   * given; a side given as an empty list defaults to the present types the
   * other side does not list, `m` first.
   */
  function Sides(agents: seq<Agent>, m: Side, f: Side): Option<(set<int>, set<int>)>
  {
    if m.Absent? && f.Absent? then None
    else
      var ms := if m == Many([]) then Kinds(agents) - Listed(f) else Listed(m);
      var fs := if f == Many([]) then Kinds(agents) - ms else Listed(f);
      Some((ms, fs))
  }

  /**
   * Only calling with neither side gives no sides; a scalar side is the
   * one-type list; and when either side is an empty list, every type
   * present falls on exactly one side.
   */
  lemma SidesSplit(agents: seq<Agent>, m: Side, f: Side)
    ensures Sides(agents, m, f).None? <==> m.Absent? && f.Absent?
    ensures Sides(agents, m, f).Some? && m.One? ==> Sides(agents, m, f).value.0 == {m.kind}
    ensures Sides(agents, m, f).Some? && f.One? ==> Sides(agents, m, f).value.1 == {f.kind}
    ensures m == Many([]) || f == Many([]) ==>
      var s := Sides(agents, m, f).value;
      && s.0 * s.1 == {}
      && forall t :: t in Kinds(agents) ==> t in s.0 || t in s.1
  {
  }

  /** The agents whose type is among `kinds`, in input order: `men` and `fem`. */
  function Members(agents: seq<Agent>, kinds: set<int>): seq<Agent>
  {
    if agents == [] then []
    else
      var head := if agents[0].kind in kinds then [agents[0]] else [];
      head + Members(agents[1..], kinds)
  }

  lemma {:induction false} MembersMeans(agents: seq<Agent>, kinds: set<int>)
    ensures forall a :: a in Members(agents, kinds) <==> a in agents && a.kind in kinds
  {
    if agents != [] {
      MembersMeans(agents[1..], kinds);
      assert agents == [agents[0]] + agents[1..];
    }
  }

  /** A side of a roster is a roster. */
  lemma {:induction false} MembersRoster(agents: seq<Agent>, kinds: set<int>)
    requires Roster(agents)
    ensures Roster(Members(agents, kinds))
  {
    if agents != [] {
      RosterTail(agents);
      MembersRoster(agents[1..], kinds);
      MembersMeans(agents[1..], kinds);
      if agents[0].kind in kinds {
        assert agents[0] in agents;
        RosterCons(agents[0], Members(agents[1..], kinds));
      }
    }
  }

  /** The proposers and the acceptors, or none when no side is given. */
  function Parties(agents: seq<Agent>, m: Side, f: Side): Option<(seq<Agent>, seq<Agent>)>
  {
    match Sides(agents, m, f)
    case None => None
    case Some((ms, fs)) => Some((Members(agents, ms), Members(agents, fs)))
  }

  /** Every agent's `match_util` has an entry for every agent. */
  ghost predicate Complete(agents: seq<Agent>)
  {
    forall a, b :: a in agents && b in agents ==> b.name in a.util
  }

  /** Every agent of `xs` ranks every name of `ns`. */
  ghost predicate Ranks(xs: seq<Agent>, ns: seq<Name>)
  {
    forall a, n :: a in xs && n in ns ==> n in a.util
  }

  lemma CompleteRanks(agents: seq<Agent>, xs: seq<Agent>, ys: seq<Agent>)
    requires Complete(agents)
    requires (forall a :: a in xs ==> a in agents) && (forall a :: a in ys ==> a in agents)
    ensures Ranks(xs, Names(ys))
  {
    forall a, n | a in xs && n in Names(ys) ensures n in a.util {
      var j :| 0 <= j < |ys| && Names(ys)[j] == n;
      assert ys[j] in ys;
    }
  }

  /** No agent is both a proposer and an acceptor. */
  ghost predicate Apart(men: seq<Agent>, fem: seq<Agent>)
  {
    forall n :: n in Names(men) ==> n !in Names(fem)
  }

  // ---------------------------------------------------------------------
  // `max(d, key=d.get)`
  // ---------------------------------------------------------------------

  /** The first name of `ns` with the highest score in `u`; `None` for no names. */
  function Top(ns: seq<Name>, u: map<Name, real>): (r: Option<Name>)
    requires forall n :: n in ns ==> n in u
    ensures r.None? <==> ns == []
    ensures r.Some? ==> r.value in ns
  {
    if ns == [] then None
    else
      var init := ns[..|ns| - 1];
      assert forall n :: n in init ==> n in ns;
      var t := Top(init, u);
      var k := ns[|ns| - 1];
      if t.None? || u[k] > u[t.value] then Some(k) else t
  }

  /** `Top` is the first name of highest score: none scores higher, and every earlier one scores lower. */
  lemma TopIsFirstBest(ns: seq<Name>, u: map<Name, real>)
    requires forall n :: n in ns ==> n in u
    ensures Top(ns, u).Some? ==>
      var b := Top(ns, u).value;
      && (forall n :: n in ns ==> u[n] <= u[b])
      && exists t :: 0 <= t < |ns| && ns[t] == b && forall j :: 0 <= j < t ==> u[ns[j]] < u[b]
  {
    TopIsBest(ns, u);
    TopIsFirst(ns, u);
  }

  /** No name scores higher than `Top`. */
  lemma {:induction false} TopIsBest(ns: seq<Name>, u: map<Name, real>)
    requires forall n :: n in ns ==> n in u
    ensures Top(ns, u).Some? ==> forall n :: n in ns ==> u[n] <= u[Top(ns, u).value]
  {
    if ns != [] {
      var init := ns[..|ns| - 1];
      assert forall n :: n in init ==> n in ns;
      TopIsBest(init, u);
      var k := ns[|ns| - 1];
      var t := Top(init, u);
      var b := Top(ns, u).value;
      forall n | n in ns ensures u[n] <= u[b] {
        if n != k {
          assert n in init by {
            var q :| 0 <= q < |ns| && ns[q] == n;
            assert init[q] == n;
          }
          assert u[n] <= u[t.value];
        }
      }
    }
  }

  /** Every name before `Top`'s first occurrence scores lower. */
  lemma {:induction false} TopIsFirst(ns: seq<Name>, u: map<Name, real>)
    requires forall n :: n in ns ==> n in u
    ensures Top(ns, u).Some? ==>
      var b := Top(ns, u).value;
      exists t :: 0 <= t < |ns| && ns[t] == b && forall j :: 0 <= j < t ==> u[ns[j]] < u[b]
  {
    if ns != [] {
      var init := ns[..|ns| - 1];
      assert forall n :: n in init ==> n in ns;
      TopIsFirst(init, u);
      TopIsBest(init, u);
      var k := ns[|ns| - 1];
      var t := Top(init, u);
      if t.Some? && u[k] <= u[t.value] {
        var q :| 0 <= q < |init| && init[q] == t.value && forall j :: 0 <= j < q ==> u[init[j]] < u[t.value];
        assert ns[q] == t.value;
        assert forall j :: 0 <= j < q ==> ns[j] == init[j];
      } else {
        forall j | 0 <= j < |ns| - 1 ensures u[ns[j]] < u[k] {
          assert ns[j] == init[j] && init[j] in init;
        }
      }
    }
  }

  // ---------------------------------------------------------------------
  // Proposals
  // ---------------------------------------------------------------------

  /** The acceptors a proposer may still propose to: `potential_matches`, in acceptor order. */
  function Open(ws: seq<Name>, rejected: seq<Name>): seq<Name>
  {
    if ws == [] then []
    else
      var head := if ws[0] in rejected then [] else [ws[0]];
      head + Open(ws[1..], rejected)
  }

  lemma {:induction false} OpenMeans(ws: seq<Name>, rejected: seq<Name>)
    ensures forall w :: w in Open(ws, rejected) <==> w in ws && w !in rejected
  {
    if ws != [] {
      OpenMeans(ws[1..], rejected);
      assert ws == [ws[0]] + ws[1..];
    }
  }

  /** A proposer's pick: its best acceptor by its own `match_util` among those that have not rejected it. */
  function Pick(man: Agent, ws: seq<Name>, rejected: seq<Name>): (r: Option<Name>)
    requires forall w :: w in ws ==> w in man.util
    ensures r.Some? ==> r.value in ws && r.value !in rejected
  {
    OpenMeans(ws, rejected);
    Top(Open(ws, rejected), man.util)
  }

  /** The proposals of `men[i..]` added to `acc`; `None` once a proposer has nobody left. */
  function Proposals(men: seq<Agent>, i: nat, ws: seq<Name>, rej: map<Name, seq<Name>>, acc: map<Name, Name>)
    : Option<map<Name, Name>>
    requires i <= |men| && Ranks(men, ws) && forall a :: a in men ==> a.name in rej
    decreases |men| - i
  {
    if i == |men| then Some(acc)
    else
      var man := men[i];
      assert man in men;
      var p := Pick(man, ws, rej[man.name]);
      if p.None? then None else Proposals(men, i + 1, ws, rej, acc[man.name := p.value])
  }

  /**
   * The proposals, when every proposer has somebody left, map each
   * proposer to its pick, and `None` exactly when some proposer has
   * nobody left.
   */
  lemma ProposalsMeans(men: seq<Agent>, i: nat, ws: seq<Name>, rej: map<Name, seq<Name>>, acc: map<Name, Name>)
    requires i <= |men| && Ranks(men, ws) && (forall a :: a in men ==> a.name in rej)
    requires forall j, k :: 0 <= j < k < |men| ==> men[j].name != men[k].name
    requires forall j :: 0 <= j < i ==> men[j].name in acc && Pick(men[j], ws, rej[men[j].name]) == Some(acc[men[j].name])
    ensures Proposals(men, i, ws, rej, acc).None? <==>
      exists j :: i <= j < |men| && Pick(men[j], ws, rej[men[j].name]).None?
    ensures Proposals(men, i, ws, rej, acc).Some? ==>
      var ps := Proposals(men, i, ws, rej, acc).value;
      forall j :: 0 <= j < |men| ==> men[j].name in ps && Pick(men[j], ws, rej[men[j].name]) == Some(ps[men[j].name])
  {
    ProposalsFail(men, i, ws, rej, acc);
    ProposalsPick(men, i, ws, rej, acc);
  }

  /** The proposals fail exactly when some remaining proposer has nobody left. */
  lemma {:induction false} ProposalsFail(men: seq<Agent>, i: nat, ws: seq<Name>, rej: map<Name, seq<Name>>, acc: map<Name, Name>)
    requires i <= |men| && Ranks(men, ws) && (forall a :: a in men ==> a.name in rej)
    decreases |men| - i
    ensures Proposals(men, i, ws, rej, acc).None? <==>
      exists j :: i <= j < |men| && Pick(men[j], ws, rej[men[j].name]).None?
  {
    if i < |men| {
      var man := men[i];
      assert man in men;
      var p := Pick(man, ws, rej[man.name]);
      if p.Some? {
        var acc' := acc[man.name := p.value];
        assert Proposals(men, i, ws, rej, acc) == Proposals(men, i + 1, ws, rej, acc');
        ProposalsFail(men, i + 1, ws, rej, acc');
        if Proposals(men, i, ws, rej, acc).None? {
          var j :| i + 1 <= j < |men| && Pick(men[j], ws, rej[men[j].name]).None?;
          assert i <= j;
        } else {
          forall j | i <= j < |men| ensures Pick(men[j], ws, rej[men[j].name]).Some? {
            if j == i {
              assert Pick(men[j], ws, rej[men[j].name]) == p;
            } else {
              assert i + 1 <= j;
            }
          }
        }
      } else {
        assert Proposals(men, i, ws, rej, acc).None?;
        assert Pick(men[i], ws, rej[men[i].name]).None?;
      }
    }
  }

  /** Successful proposals record each proposer's pick under their own name. */
  lemma {:induction false} ProposalsPick(men: seq<Agent>, i: nat, ws: seq<Name>, rej: map<Name, seq<Name>>, acc: map<Name, Name>)
    requires i <= |men| && Ranks(men, ws) && (forall a :: a in men ==> a.name in rej)
    requires forall j, k :: 0 <= j < k < |men| ==> men[j].name != men[k].name
    requires forall j :: 0 <= j < i ==> men[j].name in acc && Pick(men[j], ws, rej[men[j].name]) == Some(acc[men[j].name])
    decreases |men| - i
    ensures Proposals(men, i, ws, rej, acc).Some? ==>
      var ps := Proposals(men, i, ws, rej, acc).value;
      forall j :: 0 <= j < |men| ==> men[j].name in ps && Pick(men[j], ws, rej[men[j].name]) == Some(ps[men[j].name])
  {
    if i < |men| {
      var man := men[i];
      assert man in men;
      var p := Pick(man, ws, rej[man.name]);
      if p.Some? {
        var acc' := acc[man.name := p.value];
        PickRecorded(men, i, ws, rej, acc, p.value);
        assert Proposals(men, i, ws, rej, acc) == Proposals(men, i + 1, ws, rej, acc');
        ProposalsPick(men, i + 1, ws, rej, acc');
      }
    }
  }

  /** Recording the pick of `men[i]` keeps the picks of the proposers before it. */
  lemma PickRecorded(men: seq<Agent>, i: nat, ws: seq<Name>, rej: map<Name, seq<Name>>, acc: map<Name, Name>, w: Name)
    requires i < |men| && Ranks(men, ws) && (forall a :: a in men ==> a.name in rej)
    requires forall j, k :: 0 <= j < k < |men| ==> men[j].name != men[k].name
    requires forall j :: 0 <= j < i ==> men[j].name in acc && Pick(men[j], ws, rej[men[j].name]) == Some(acc[men[j].name])
    requires men[i] in men && Pick(men[i], ws, rej[men[i].name]) == Some(w)
    ensures forall j :: 0 <= j < i + 1 ==>
      men[j].name in acc[men[i].name := w] && Pick(men[j], ws, rej[men[j].name]) == Some(acc[men[i].name := w][men[j].name])
  {
    forall j | 0 <= j < i + 1
      ensures men[j].name in acc[men[i].name := w] && Pick(men[j], ws, rej[men[j].name]) == Some(acc[men[i].name := w][men[j].name])
    {
      if j < i {
        assert men[j].name != men[i].name;
      }
    }
  }

  /** `proposals`: every proposer has a pick, with no proposer left out. */
  lemma {:induction false} ProposalsCover(men: seq<Agent>, i: nat, ws: seq<Name>, rej: map<Name, seq<Name>>, acc: map<Name, Name>)
    requires i <= |men| && Ranks(men, ws) && (forall a :: a in men ==> a.name in rej)
    requires forall j :: 0 <= j < i ==> men[j].name in acc
    requires forall n :: n in acc ==> n in rej && acc[n] in ws && acc[n] !in rej[n]
    decreases |men| - i
    ensures Proposals(men, i, ws, rej, acc).Some? ==>
      var ps := Proposals(men, i, ws, rej, acc).value;
      && (forall j :: 0 <= j < |men| ==> men[j].name in ps)
      && (forall n :: n in ps ==> n in rej && ps[n] in ws && ps[n] !in rej[n])
  {
    if i < |men| {
      var man := men[i];
      assert man in men;
      var p := Pick(man, ws, rej[man.name]);
      if p.Some? {
        var acc' := acc[man.name := p.value];
        assert forall j :: 0 <= j < i + 1 ==> men[j].name in acc';
        ProposalsCover(men, i + 1, ws, rej, acc');
      }
    }
  }

  /** The proposers loop: each proposer in turn proposes to its pick. */
  method Propose(men: seq<Agent>, ws: seq<Name>, rej: map<Name, seq<Name>>) returns (ps: Option<map<Name, Name>>)
    requires Ranks(men, ws) && forall a :: a in men ==> a.name in rej
    ensures ps == Proposals(men, 0, ws, rej, map[])
  {
    var acc: map<Name, Name> := map[];
    for i := 0 to |men|
      invariant Proposals(men, 0, ws, rej, map[]) == Proposals(men, i, ws, rej, acc)
    {
      var man := men[i];
      assert man in men;
      var best := Pick(man, ws, rej[man.name]);
      if best.None? {
        return None;
      }
      acc := acc[man.name := best.value];
    }
    return Some(acc);
  }

  // ---------------------------------------------------------------------
  // Choices
  // ---------------------------------------------------------------------

  /** `myproposals`: the proposers to `w`, in proposer order. */
  function Proposers(ns: seq<Name>, ps: map<Name, Name>, w: Name): (r: seq<Name>)
    requires forall n :: n in ns ==> n in ps
    ensures forall n :: n in r ==> n in ns
  {
    if ns == [] then []
    else
      var head := if ps[ns[0]] == w then [ns[0]] else [];
      head + Proposers(ns[1..], ps, w)
  }

  lemma {:induction false} ProposersMeans(ns: seq<Name>, ps: map<Name, Name>, w: Name)
    requires forall n :: n in ns ==> n in ps
    ensures forall n :: n in Proposers(ns, ps, w) <==> n in ns && ps[n] == w
  {
    if ns != [] {
      ProposersMeans(ns[1..], ps, w);
      assert ns == [ns[0]] + ns[1..];
    }
  }

  /** An acceptor's choice: her best proposer by her own `match_util`; `None` when nobody proposed. */
  function Choice(woman: Agent, ns: seq<Name>, ps: map<Name, Name>): Option<Name>
    requires forall n :: n in ns ==> n in ps && n in woman.util
  {
    ProposersMeans(ns, ps, woman.name);
    Top(Proposers(ns, ps, woman.name), woman.util)
  }

  /** Each acceptor's choice, in acceptor order. */
  function Bests(fem: seq<Agent>, ns: seq<Name>, ps: map<Name, Name>): (r: seq<Option<Name>>)
    requires Ranks(fem, ns) && forall n :: n in ns ==> n in ps
    ensures |r| == |fem|
  {
    if fem == [] then []
    else
      assert fem[0] in fem && forall a :: a in fem[1..] ==> a in fem;
      [Choice(fem[0], ns, ps)] + Bests(fem[1..], ns, ps)
  }

  lemma {:induction false} BestsAt(fem: seq<Agent>, ns: seq<Name>, ps: map<Name, Name>)
    requires Ranks(fem, ns) && forall n :: n in ns ==> n in ps
    ensures forall j :: 0 <= j < |fem| ==> fem[j] in fem && Bests(fem, ns, ps)[j] == Choice(fem[j], ns, ps)
  {
    forall j | 0 <= j < |fem| ensures fem[j] in fem && Bests(fem, ns, ps)[j] == Choice(fem[j], ns, ps) {
      BestAt(fem, ns, ps, j);
    }
  }

  lemma {:induction false} BestAt(fem: seq<Agent>, ns: seq<Name>, ps: map<Name, Name>, j: nat)
    requires Ranks(fem, ns) && (forall n :: n in ns ==> n in ps) && j < |fem|
    ensures fem[j] in fem && Bests(fem, ns, ps)[j] == Choice(fem[j], ns, ps)
  {
    if j > 0 {
      var t := fem[1..];
      assert forall a :: a in t ==> a in fem;
      BestAt(t, ns, ps, j - 1);
      assert t[j - 1] == fem[j];
    }
  }

  /**
   * The (acceptor, choice) pairs of the first `i` acceptors named `ws`
   * with choices `bs`; `None` once an acceptor has no proposal.
   */
  function Chosen(ws: seq<Name>, bs: seq<Option<Name>>, i: nat): Option<seq<(Name, Name)>>
    requires i <= |ws| == |bs|
  {
    if i == 0 then Some([])
    else
      var prev := Chosen(ws, bs, i - 1);
      if prev.None? || bs[i - 1].None? then None else Some(prev.value + [(ws[i - 1], bs[i - 1].value)])
  }

  /** The pairs are missing exactly when some acceptor has no proposal, and otherwise pair each acceptor with her choice. */
  lemma {:induction false} ChosenMeans(ws: seq<Name>, bs: seq<Option<Name>>, i: nat)
    requires i <= |ws| == |bs|
    ensures Chosen(ws, bs, i).None? <==> exists j :: 0 <= j < i && bs[j].None?
    ensures Chosen(ws, bs, i).Some? ==>
      var cs := Chosen(ws, bs, i).value;
      |cs| == i && forall j :: 0 <= j < i ==> bs[j].Some? && cs[j] == (ws[j], bs[j].value)
  {
    if i > 0 {
      ChosenMeans(ws, bs, i - 1);
    }
  }

  lemma {:induction false} ChosenNone(ws: seq<Name>, bs: seq<Option<Name>>, i: nat, k: nat)
    requires i <= k <= |ws| == |bs|
    requires Chosen(ws, bs, i).None?
    decreases k
    ensures Chosen(ws, bs, k).None?
  {
    if i < k {
      ChosenNone(ws, bs, i, k - 1);
    }
  }

  /** The matches after writing each pair of `cs` in both directions, in order. */
  function Record(m: map<Name, Name>, cs: seq<(Name, Name)>): map<Name, Name>
  {
    if cs == [] then m
    else
      var (w, b) := cs[|cs| - 1];
      Record(m, cs[..|cs| - 1])[w := b][b := w]
  }

  /** The writes override the starting matches. */
  lemma {:induction false} RecordOverrides(m: map<Name, Name>, cs: seq<(Name, Name)>)
    ensures Record(m, cs) == m + Record(map[], cs)
  {
    if cs != [] {
      RecordOverrides(m, cs[..|cs| - 1]);
    }
  }

  /** Writing the same pairs twice is writing them once. */
  lemma RecordTwice(m: map<Name, Name>, cs: seq<(Name, Name)>)
    ensures Record(Record(m, cs), cs) == Record(m, cs)
  {
    RecordOverrides(m, cs);
    RecordOverrides(Record(m, cs), cs);
    assert m + Record(map[], cs) + Record(map[], cs) == m + Record(map[], cs);
  }

  /** Pairs over distinct names, none on both sides, all end up recorded both ways. */
  lemma {:induction false} RecordBothWays(m: map<Name, Name>, cs: seq<(Name, Name)>)
    requires forall i, j :: 0 <= i < j < |cs| ==> cs[i].0 != cs[j].0 && cs[i].1 != cs[j].1
    requires forall i, j :: 0 <= i < |cs| && 0 <= j < |cs| ==> cs[i].0 != cs[j].1
    ensures forall j :: 0 <= j < |cs| ==>
      var r := Record(m, cs);
      cs[j].0 in r && cs[j].1 in r && r[cs[j].0] == cs[j].1 && r[cs[j].1] == cs[j].0
  {
    if cs != [] {
      var init := cs[..|cs| - 1];
      RecordBothWays(m, init);
      forall j | 0 <= j < |init| ensures init[j] == cs[j] {
      }
    }
  }

  // ---------------------------------------------------------------------
  // Rejections
  // ---------------------------------------------------------------------

  /** The `for loser in myproposals` loop: every proposer but the chosen one adds `w` to its list. */
  function Rejecting(rej: map<Name, seq<Name>>, losers: seq<Name>, w: Name, best: Name): (r: map<Name, seq<Name>>)
    requires forall n :: n in losers ==> n in rej
    ensures r.Keys == rej.Keys
  {
    if losers == [] then rej
    else
      var l := losers[0];
      var next := if l != best then rej[l := rej[l] + [w]] else rej;
      Rejecting(next, losers[1..], w, best)
  }

  /**
   * What the loop does to each list when no proposer is listed twice:
   * every loser other than the chosen proposer gets `w` appended once, and
   * every other list is left alone.
   */
  lemma {:induction false} RejectingMeans(rej: map<Name, seq<Name>>, losers: seq<Name>, w: Name, best: Name)
    requires forall n :: n in losers ==> n in rej
    requires Distinct(losers)
    ensures forall n :: n in rej ==>
      Rejecting(rej, losers, w, best)[n] == if n in losers && n != best then rej[n] + [w] else rej[n]
  {
    if losers != [] {
      var l := losers[0];
      var next := if l != best then rej[l := rej[l] + [w]] else rej;
      assert Distinct(losers[1..]);
      RejectingMeans(next, losers[1..], w, best);
      assert l !in losers[1..];
      assert Rejecting(rej, losers, w, best) == Rejecting(next, losers[1..], w, best);
      assert losers == [l] + losers[1..];
      forall n | n in rej
        ensures Rejecting(rej, losers, w, best)[n] == if n in losers && n != best then rej[n] + [w] else rej[n]
      {
        assert n in next;
        if n != l {
          assert next[n] == rej[n];
          assert n in losers <==> n in losers[1..];
        }
      }
    }
  }

  /** The rejection lists after each choice of `cs` in order. */
  function Reject(rej: map<Name, seq<Name>>, cs: seq<(Name, Name)>, ns: seq<Name>, ps: map<Name, Name>): (r: map<Name, seq<Name>>)
    requires forall n :: n in ns ==> n in rej && n in ps
    ensures r.Keys == rej.Keys
  {
    if cs == [] then rej
    else
      var (w, b) := cs[|cs| - 1];
      var prev := Reject(rej, cs[..|cs| - 1], ns, ps);
      ProposersMeans(ns, ps, w);
      Rejecting(prev, Proposers(ns, ps, w), w, b)
  }

  /** `ys` is `xs` followed by copies of `p`. */
  ghost predicate Extends(xs: seq<Name>, ys: seq<Name>, p: Name)
  {
    |xs| <= |ys| && ys[..|xs|] == xs && forall k :: |xs| <= k < |ys| ==> ys[k] == p
  }

  /** Every rejection list only grew, each by the acceptor its proposer proposed to. */
  ghost predicate Grown(rej: map<Name, seq<Name>>, rej': map<Name, seq<Name>>, ps: map<Name, Name>)
  {
    && rej'.Keys == rej.Keys
    && forall n :: n in rej ==> n in ps && Extends(rej[n], rej'[n], ps[n])
  }

  lemma GrownTrans(r0: map<Name, seq<Name>>, r1: map<Name, seq<Name>>, r2: map<Name, seq<Name>>, ps: map<Name, Name>)
    requires Grown(r0, r1, ps) && Grown(r1, r2, ps)
    ensures Grown(r0, r2, ps)
  {
    forall n | n in r0 ensures Extends(r0[n], r2[n], ps[n]) {
      var xs, ys, zs := r0[n], r1[n], r2[n];
      assert zs[..|xs|] == zs[..|ys|][..|xs|];
    }
  }

  lemma {:induction false} RejectingGrown(rej: map<Name, seq<Name>>, losers: seq<Name>, w: Name, best: Name, ps: map<Name, Name>)
    requires forall n :: n in losers ==> n in rej && n in ps && ps[n] == w
    requires forall n :: n in rej ==> n in ps
    ensures Grown(rej, Rejecting(rej, losers, w, best), ps)
  {
    if losers == [] {
      assert forall n :: n in rej ==> rej[n][..|rej[n]|] == rej[n];
    } else {
      var l := losers[0];
      var next := if l != best then rej[l := rej[l] + [w]] else rej;
      assert forall n :: n in rej ==> rej[n][..|rej[n]|] == rej[n];
      assert Grown(rej, next, ps) by {
        if l != best {
          assert (rej[l] + [w])[..|rej[l]|] == rej[l];
        }
      }
      RejectingGrown(next, losers[1..], w, best, ps);
      GrownTrans(rej, next, Rejecting(next, losers[1..], w, best), ps);
    }
  }

  lemma {:induction false} RejectGrown(rej: map<Name, seq<Name>>, cs: seq<(Name, Name)>, ns: seq<Name>, ps: map<Name, Name>)
    requires forall n :: n in ns ==> n in rej && n in ps
    requires forall n :: n in rej ==> n in ps
    ensures Grown(rej, Reject(rej, cs, ns, ps), ps)
  {
    if cs == [] {
      assert forall n :: n in rej ==> rej[n][..|rej[n]|] == rej[n];
    } else {
      var (w, b) := cs[|cs| - 1];
      var prev := Reject(rej, cs[..|cs| - 1], ns, ps);
      RejectGrown(rej, cs[..|cs| - 1], ns, ps);
      ProposersMeans(ns, ps, w);
      RejectingGrown(prev, Proposers(ns, ps, w), w, b, ps);
      GrownTrans(rej, prev, Reject(rej, cs, ns, ps), ps);
    }
  }

  /** The (proposer, acceptor) rejections recorded so far. */
  ghost function Pairs(rej: map<Name, seq<Name>>): set<(Name, Name)>
  {
    set n, w | n in rej && w in rej[n] :: (n, w)
  }

  /** Lists that grew by acceptors not yet on them record strictly more rejections, unless nothing changed. */
  lemma GrownPairs(rej: map<Name, seq<Name>>, rej': map<Name, seq<Name>>, ps: map<Name, Name>)
    requires Grown(rej, rej', ps)
    requires forall n :: n in rej ==> ps[n] !in rej[n]
    ensures Pairs(rej) <= Pairs(rej')
    ensures rej' != rej ==> Pairs(rej) < Pairs(rej')
  {
    forall n, w | n in rej && w in rej[n] ensures w in rej'[n] {
      var k :| 0 <= k < |rej[n]| && rej[n][k] == w;
      assert rej'[n][..|rej[n]|][k] == w;
    }
    if rej' != rej {
      var n :| n in rej && rej'[n] != rej[n];
      assert |rej'[n]| > |rej[n]|;
      assert rej'[n][|rej[n]|] == ps[n];
      assert (n, ps[n]) in Pairs(rej') - Pairs(rej);
    }
  }

  /** The acceptor loop, inner part: the losers of one choice add the acceptor to their lists. */
  method RejectLosers(rej: map<Name, seq<Name>>, losers: seq<Name>, w: Name, best: Name) returns (r: map<Name, seq<Name>>)
    requires forall n :: n in losers ==> n in rej
    ensures r == Rejecting(rej, losers, w, best)
  {
    r := rej;
    for i := 0 to |losers|
      invariant r.Keys == rej.Keys
      invariant Rejecting(rej, losers, w, best) == Rejecting(r, losers[i..], w, best)
    {
      var loser := losers[i];
      assert losers[i..][1..] == losers[i + 1..];
      if loser != best {
        r := r[loser := r[loser] + [w]];
      }
    }
  }

  // ---------------------------------------------------------------------
  // One round
  // ---------------------------------------------------------------------

  /** The state the `while` loop carries: `matches` and `rejections`. */
  datatype State = State(matches: map<Name, Name>, rejections: map<Name, seq<Name>>)

  /** Exactly the proposers have rejection lists. */
  ghost predicate Keyed(men: seq<Agent>, rej: map<Name, seq<Name>>)
  {
    forall n :: n in rej <==> n in Names(men)
  }

  /** The rejection lists of the proposers hold acceptors only. */
  ghost predicate Tracked(men: seq<Agent>, fem: seq<Agent>, rej: map<Name, seq<Name>>)
  {
    Keyed(men, rej) && forall n, w :: n in rej && w in rej[n] ==> w in Names(fem)
  }

  /** What one round needs: both sides rank each other, and the rejection lists are the proposers'. */
  ghost predicate Ready(men: seq<Agent>, fem: seq<Agent>, rej: map<Name, seq<Name>>)
  {
    Ranks(men, Names(fem)) && Ranks(fem, Names(men)) && Keyed(men, rej)
  }

  lemma NamesHave(s: seq<Agent>)
    ensures forall a :: a in s ==> a.name in Names(s)
  {
    forall a | a in s ensures a.name in Names(s) {
      var i :| 0 <= i < |s| && s[i] == a;
      assert Names(s)[i] == a.name;
    }
  }

  /** The proposals of one round. */
  function Offers(men: seq<Agent>, fem: seq<Agent>, rej: map<Name, seq<Name>>): Option<map<Name, Name>>
    requires Ready(men, fem, rej)
  {
    NamesHave(men);
    Proposals(men, 0, Names(fem), rej, map[])
  }

  lemma OffersCover(men: seq<Agent>, fem: seq<Agent>, rej: map<Name, seq<Name>>)
    requires Ready(men, fem, rej) && Offers(men, fem, rej).Some?
    ensures var ps := Offers(men, fem, rej).value;
      forall n :: n in Names(men) ==> n in ps && n in rej && ps[n] in Names(fem) && ps[n] !in rej[n]
  {
    NamesHave(men);
    ProposalsCover(men, 0, Names(fem), rej, map[]);
    var ps := Offers(men, fem, rej).value;
    forall n | n in Names(men) ensures n in ps {
      var j :| 0 <= j < |men| && Names(men)[j] == n;
    }
  }

  /** The choices of one acceptor loop, applied to the state. */
  function Choices(fem: seq<Agent>, ns: seq<Name>, ps: map<Name, Name>, st: State): (r: Option<State>)
    requires Ranks(fem, ns) && forall n :: n in ns ==> n in ps && n in st.rejections
    ensures r.Some? ==> r.value.rejections.Keys == st.rejections.Keys
  {
    match Chosen(Names(fem), Bests(fem, ns, ps), |fem|)
    case None => None
    case Some(cs) => Some(State(Record(st.matches, cs), Reject(st.rejections, cs, ns, ps)))
  }

  /** One iteration of the `while` loop: every proposer proposes, then every acceptor chooses. */
  function RoundOf(men: seq<Agent>, fem: seq<Agent>, st: State): (r: Option<State>)
    requires Ready(men, fem, st.rejections)
    ensures r.Some? ==> r.value.rejections.Keys == st.rejections.Keys
  {
    var ps := Offers(men, fem, st.rejections);
    if ps.None? then None
    else
      OffersCover(men, fem, st.rejections);
      Choices(fem, Names(men), ps.value, st)
  }

  /** The acceptor loop. */
  method Choose(fem: seq<Agent>, ns: seq<Name>, ps: map<Name, Name>, st: State) returns (r: Option<State>)
    requires Ranks(fem, ns) && forall n :: n in ns ==> n in ps && n in st.rejections
    ensures r == Choices(fem, ns, ps, st)
  {
    var matches, rej := st.matches, st.rejections;
    ghost var cs: seq<(Name, Name)> := [];
    ghost var ws, bs := Names(fem), Bests(fem, ns, ps);
    BestsAt(fem, ns, ps);
    for i := 0 to |fem|
      invariant Chosen(ws, bs, i) == Some(cs)
      invariant matches == Record(st.matches, cs) && rej == Reject(st.rejections, cs, ns, ps)
    {
      var woman := fem[i];
      assert woman in fem;
      ProposersMeans(ns, ps, woman.name);
      var mine := Proposers(ns, ps, woman.name);
      var best := Top(mine, woman.util);
      if best.None? {
        ChosenNone(ws, bs, i + 1, |fem|);
        return None;
      }
      Appended(st, cs, (woman.name, best.value), ns, ps);
      matches := matches[woman.name := best.value][best.value := woman.name];
      rej := RejectLosers(rej, mine, woman.name, best.value);
      cs := cs + [(woman.name, best.value)];
    }
    return Some(State(matches, rej));
  }

  /** One more pair extends the matches and the rejection lists by that acceptor's choice. */
  lemma Appended(st: State, cs: seq<(Name, Name)>, c: (Name, Name), ns: seq<Name>, ps: map<Name, Name>)
    requires forall n :: n in ns ==> n in ps && n in st.rejections
    ensures Record(st.matches, cs + [c]) == Record(st.matches, cs)[c.0 := c.1][c.1 := c.0]
    ensures Reject(st.rejections, cs + [c], ns, ps)
         == Rejecting(Reject(st.rejections, cs, ns, ps), Proposers(ns, ps, c.0), c.0, c.1)
  {
    assert (cs + [c])[..|cs|] == cs;
  }

  /** One round: the proposer loop, then the acceptor loop. */
  method Round(men: seq<Agent>, fem: seq<Agent>, st: State) returns (r: Option<State>)
    requires Ready(men, fem, st.rejections)
    ensures r == RoundOf(men, fem, st)
  {
    NamesHave(men);
    var ps := Propose(men, Names(fem), st.rejections);
    if ps.None? {
      return None;
    }
    OffersCover(men, fem, st.rejections);
    r := Choose(fem, Names(men), ps.value, st);
  }

  // ---------------------------------------------------------------------
  // What one round does
  // ---------------------------------------------------------------------

  /**
   * A proposer has no pick exactly when every acceptor has rejected it;
   * otherwise its pick has not rejected it and it ranks no such acceptor
   * higher.
   */
  lemma PickIsBest(man: Agent, ws: seq<Name>, rejected: seq<Name>)
    requires forall w :: w in ws ==> w in man.util
    ensures Pick(man, ws, rejected).None? <==> forall w :: w in ws ==> w in rejected
    ensures Pick(man, ws, rejected).Some? ==>
      var p := Pick(man, ws, rejected).value;
      forall w :: w in ws && w !in rejected ==> man.util[w] <= man.util[p]
  {
    var open := Open(ws, rejected);
    OpenMeans(ws, rejected);
    TopIsFirstBest(open, man.util);
    if open != [] {
      assert open[0] in open;
    }
  }

  /**
   * An acceptor has no choice exactly when nobody proposed to her;
   * otherwise her choice proposed to her and she ranks no proposer higher.
   */
  lemma ChoiceIsBest(woman: Agent, ns: seq<Name>, ps: map<Name, Name>)
    requires forall n :: n in ns ==> n in ps && n in woman.util
    ensures Choice(woman, ns, ps).None? <==> forall n :: n in ns ==> ps[n] != woman.name
    ensures Choice(woman, ns, ps).Some? ==>
      var b := Choice(woman, ns, ps).value;
      && b in ns && ps[b] == woman.name
      && forall n :: n in ns && ps[n] == woman.name ==> woman.util[n] <= woman.util[b]
  {
    var mine := Proposers(ns, ps, woman.name);
    ProposersMeans(ns, ps, woman.name);
    TopIsFirstBest(mine, woman.util);
    if mine != [] {
      assert mine[0] in mine;
    }
  }

  /**
   * The proposals of a round: missing exactly when some proposer has been
   * rejected by every acceptor, and otherwise each proposer's pick.
   */
  lemma RoundProposes(men: seq<Agent>, fem: seq<Agent>, rej: map<Name, seq<Name>>)
    requires Ready(men, fem, rej) && Roster(men)
    ensures forall a :: a in men ==> a.name in rej
    ensures Offers(men, fem, rej).None? <==>
      exists j :: 0 <= j < |men| && Pick(men[j], Names(fem), rej[men[j].name]).None?
    ensures Offers(men, fem, rej).Some? ==>
      var ps := Offers(men, fem, rej).value;
      forall j :: 0 <= j < |men| ==> men[j].name in ps && Pick(men[j], Names(fem), rej[men[j].name]) == Some(ps[men[j].name])
  {
    NamesHave(men);
    ProposalsMeans(men, 0, Names(fem), rej, map[]);
  }

  /** Each acceptor holds her choice, and her choice holds her. */
  ghost predicate Keeps(fem: seq<Agent>, ns: seq<Name>, ps: map<Name, Name>, matches: map<Name, Name>)
    requires Ranks(fem, ns) && forall n :: n in ns ==> n in ps
  {
    forall j :: 0 <= j < |fem| ==>
      && fem[j] in fem
      && Choice(fem[j], ns, ps).Some?
      && var b := Choice(fem[j], ns, ps).value;
      && fem[j].name in matches && matches[fem[j].name] == b
      && b in matches && matches[b] == fem[j].name
  }

  /** Every acceptor is matched to a proposer who is matched back to her. */
  ghost predicate Paired(men: seq<Agent>, fem: seq<Agent>, matches: map<Name, Name>)
  {
    forall w :: w in Names(fem) ==>
      w in matches && matches[w] in Names(men) && matches[w] in matches && matches[matches[w]] == w
  }

  /**
   * After a round that does not raise, with no agent on both sides, each
   * acceptor keeps her single best proposal, recorded in both directions.
   */
  lemma RoundKeepsBest(men: seq<Agent>, fem: seq<Agent>, st: State)
    requires Ready(men, fem, st.rejections) && Roster(men) && Roster(fem) && Apart(men, fem)
    requires RoundOf(men, fem, st).Some?
    ensures Offers(men, fem, st.rejections).Some?
    ensures var ps := Offers(men, fem, st.rejections).value;
      (forall n :: n in Names(men) ==> n in ps) && Keeps(fem, Names(men), ps, RoundOf(men, fem, st).value.matches)
    ensures Paired(men, fem, RoundOf(men, fem, st).value.matches)
  {
    var ps := Offers(men, fem, st.rejections).value;
    OffersCover(men, fem, st.rejections);
    ChoicesKeep(men, fem, ps, st.matches);
  }

  lemma ChoicesKeep(men: seq<Agent>, fem: seq<Agent>, ps: map<Name, Name>, m: map<Name, Name>)
    requires Ranks(fem, Names(men)) && (forall n :: n in Names(men) ==> n in ps)
    requires Roster(fem) && Apart(men, fem)
    requires Chosen(Names(fem), Bests(fem, Names(men), ps), |fem|).Some?
    ensures var m' := Record(m, Chosen(Names(fem), Bests(fem, Names(men), ps), |fem|).value);
      Keeps(fem, Names(men), ps, m') && Paired(men, fem, m')
  {
    var ns := Names(men);
    var cs := Chosen(Names(fem), Bests(fem, ns, ps), |fem|).value;
    ChoicesPaired(fem, ns, ps, cs);
    ChoicesApart(men, fem, ps, cs);
    RecordBothWays(m, cs);
    var m' := Record(m, cs);
    forall w | w in Names(fem)
      ensures w in m' && m'[w] in ns && m'[w] in m' && m'[m'[w]] == w
    {
      var j :| 0 <= j < |fem| && Names(fem)[j] == w;
      assert cs[j].0 == w;
    }
  }

  /** The pairs of the acceptor loop: each acceptor with her choice, who proposed to her. */
  lemma ChoicesPaired(fem: seq<Agent>, ns: seq<Name>, ps: map<Name, Name>, cs: seq<(Name, Name)>)
    requires Ranks(fem, ns) && forall n :: n in ns ==> n in ps
    requires Chosen(Names(fem), Bests(fem, ns, ps), |fem|) == Some(cs)
    ensures |cs| == |fem|
    ensures forall j :: 0 <= j < |fem| ==>
      && fem[j] in fem && Choice(fem[j], ns, ps).Some?
      && cs[j] == (fem[j].name, Choice(fem[j], ns, ps).value)
    ensures forall j :: 0 <= j < |fem| ==> cs[j].1 in ns && ps[cs[j].1] == fem[j].name
  {
    ChosenMeans(Names(fem), Bests(fem, ns, ps), |fem|);
    BestsAt(fem, ns, ps);
    forall j | 0 <= j < |fem| ensures cs[j].1 in ns && ps[cs[j].1] == fem[j].name {
      assert fem[j] in fem;
      ChoiceIsBest(fem[j], ns, ps);
    }
  }

  /** With distinct acceptors, no agent on both sides, and choices who proposed to them, the pairs can be recorded both ways. */
  lemma ChoicesApart(men: seq<Agent>, fem: seq<Agent>, ps: map<Name, Name>, cs: seq<(Name, Name)>)
    requires Roster(fem) && Apart(men, fem) && |cs| == |fem|
    requires forall j :: 0 <= j < |fem| ==> cs[j].0 == fem[j].name && cs[j].1 in Names(men) && cs[j].1 in ps
    requires forall j :: 0 <= j < |fem| ==> ps[cs[j].1] == fem[j].name
    ensures forall i, j :: 0 <= i < j < |cs| ==> cs[i].0 != cs[j].0 && cs[i].1 != cs[j].1
    ensures forall i, j :: 0 <= i < |cs| && 0 <= j < |cs| ==> cs[i].0 != cs[j].1
  {
    forall i, j | 0 <= i < |cs| && 0 <= j < |cs| ensures cs[i].0 != cs[j].1 {
      assert Names(fem)[i] == cs[i].0;
    }
  }

  /**
   * A round that does not raise only appends to the rejection lists, each
   * time the acceptor its proposer proposed to, who had not rejected it
   * before: so the rejected pairs grow strictly whenever a list changes.
   */
  lemma RoundGrows(men: seq<Agent>, fem: seq<Agent>, st: State)
    requires Ready(men, fem, st.rejections) && Tracked(men, fem, st.rejections)
    requires RoundOf(men, fem, st).Some?
    ensures Offers(men, fem, st.rejections).Some?
    ensures var rej' := RoundOf(men, fem, st).value.rejections;
      && Grown(st.rejections, rej', Offers(men, fem, st.rejections).value)
      && Tracked(men, fem, rej')
      && Pairs(st.rejections) <= Pairs(rej')
      && (rej' != st.rejections ==> Pairs(st.rejections) < Pairs(rej'))
  {
    var ns, rej := Names(men), st.rejections;
    var ps := Offers(men, fem, rej).value;
    OffersCover(men, fem, rej);
    var cs := Chosen(Names(fem), Bests(fem, ns, ps), |fem|).value;
    var rej' := RoundOf(men, fem, st).value.rejections;
    assert rej' == Reject(rej, cs, ns, ps);
    RejectGrown(rej, cs, ns, ps);
    GrownPairs(rej, rej', ps);
    GrownTracked(men, fem, rej, rej', ps);
  }

  lemma GrownTracked(men: seq<Agent>, fem: seq<Agent>, rej: map<Name, seq<Name>>, rej': map<Name, seq<Name>>, ps: map<Name, Name>)
    requires Tracked(men, fem, rej) && Grown(rej, rej', ps)
    requires forall n :: n in rej ==> ps[n] in Names(fem)
    ensures Tracked(men, fem, rej')
  {
    forall n, w | n in rej' && w in rej'[n] ensures w in Names(fem) {
      var k :| 0 <= k < |rej'[n]| && rej'[n][k] == w;
      if k < |rej[n]| {
        assert rej'[n][..|rej[n]|][k] == w;
      }
    }
  }

  /** The writes of the acceptor loop do not depend on the matches they start from. */
  lemma RoundRepeats(men: seq<Agent>, fem: seq<Agent>, st: State)
    requires Ready(men, fem, st.rejections)
    requires RoundOf(men, fem, st).Some? && RoundOf(men, fem, st).value.rejections == st.rejections
    ensures RoundOf(men, fem, RoundOf(men, fem, st).value) == RoundOf(men, fem, st)
  {
    var ns := Names(men);
    var ps := Offers(men, fem, st.rejections).value;
    OffersCover(men, fem, st.rejections);
    var cs := Chosen(Names(fem), Bests(fem, ns, ps), |fem|).value;
    RecordTwice(st.matches, cs);
  }

  // ---------------------------------------------------------------------
  // The whole run
  // ---------------------------------------------------------------------

  /** The outcome of `gale_shapley`. */
  datatype Outcome = NoSides | Done(matches: map<Name, Name>) | Raised | Diverges

  /** The `while` condition. */
  predicate Continues(men: seq<Agent>, fem: seq<Agent>, matches: map<Name, Name>)
  {
    |matches| != |men| && |matches| != |fem|
  }

  /** No matches yet, and an empty rejection list for every proposer. */
  function Start(men: seq<Agent>): (st: State)
    ensures Keyed(men, st.rejections)
  {
    State(map[], map n | n in Names(men) :: [])
  }

  /** The state after `n` iterations of the `while` loop from `st`; `None` once a round raises. */
  ghost function Steps(men: seq<Agent>, fem: seq<Agent>, st: State, n: nat): (r: Option<State>)
    requires Ready(men, fem, st.rejections)
    ensures r.Some? ==> Keyed(men, r.value.rejections)
  {
    if n == 0 then Some(st)
    else
      var prev := Steps(men, fem, st, n - 1);
      if prev.None? || !Continues(men, fem, prev.value.matches) then prev
      else RoundOf(men, fem, prev.value)
  }

  /** A state that the loop continues from and that a round maps to itself is never left. */
  lemma StuckForever(men: seq<Agent>, fem: seq<Agent>, st: State, n: nat, k: nat, s: State)
    requires Ready(men, fem, st.rejections) && n <= k
    requires Steps(men, fem, st, n) == Some(s)
    requires Continues(men, fem, s.matches) && Ready(men, fem, s.rejections) && RoundOf(men, fem, s) == Some(s)
    ensures Steps(men, fem, st, k) == Some(s)
  {
    var i := n;
    while i < k
      invariant n <= i <= k && Steps(men, fem, st, i) == Some(s)
    {
      StuckOnce(men, fem, st, i, s);
      i := i + 1;
    }
  }

  lemma StuckOnce(men: seq<Agent>, fem: seq<Agent>, st: State, k: nat, s: State)
    requires Ready(men, fem, st.rejections) && Steps(men, fem, st, k) == Some(s)
    requires Continues(men, fem, s.matches) && Ready(men, fem, s.rejections) && RoundOf(men, fem, s) == Some(s)
    ensures Steps(men, fem, st, k + 1) == Some(s)
  {
  }

  /** Where the run from the start leads, for each outcome. */
  ghost predicate Reached(men: seq<Agent>, fem: seq<Agent>, r: Outcome)
    requires Ranks(men, Names(fem)) && Ranks(fem, Names(men))
  {
    match r
    case NoSides => false
    case Raised => exists n :: Steps(men, fem, Start(men), n).None?
    case Done(ms) =>
      !Continues(men, fem, ms) && exists n, rej :: Steps(men, fem, Start(men), n) == Some(State(ms, rej))
    case Diverges => exists n, s ::
      && Steps(men, fem, Start(men), n) == Some(s)
      && Continues(men, fem, s.matches)
      && RoundOf(men, fem, s) == Some(s)
  }

  /** The pairs a proposer and an acceptor can form. */
  ghost function All(men: seq<Agent>, fem: seq<Agent>): set<(Name, Name)>
  {
    set n, w | n in Names(men) && w in Names(fem) :: (n, w)
  }

  lemma TrackedWithin(men: seq<Agent>, fem: seq<Agent>, rej: map<Name, seq<Name>>)
    requires Tracked(men, fem, rej)
    ensures Pairs(rej) <= All(men, fem)
  {
  }

  /** Both sides of a roster in which everybody ranks everybody are rosters that rank each other. */
  lemma PartiesReady(agents: seq<Agent>, m: Side, f: Side)
    requires Roster(agents) && Complete(agents) && Parties(agents, m, f).Some?
    ensures var (men, fem) := Parties(agents, m, f).value;
      Roster(men) && Roster(fem) && Ranks(men, Names(fem)) && Ranks(fem, Names(men))
  {
    var (ms, fs) := Sides(agents, m, f).value;
    MembersMeans(agents, ms);
    MembersMeans(agents, fs);
    MembersRoster(agents, ms);
    MembersRoster(agents, fs);
    CompleteRanks(agents, Members(agents, ms), Members(agents, fs));
    CompleteRanks(agents, Members(agents, fs), Members(agents, ms));
  }

  /**
   * The outcome `r` is where running rounds from the start leads; and with
   * no agent on both sides and both sides present, a finished run has every
   * acceptor matched to a proposer who is matched back to her.
   */
  ghost predicate Ran(agents: seq<Agent>, m: Side, f: Side, r: Outcome)
  {
    && Parties(agents, m, f).Some?
    && var (men, fem) := Parties(agents, m, f).value;
    && Ranks(men, Names(fem)) && Ranks(fem, Names(men))
    && Final(men, fem, r)
  }

  /**
   * `gale_shapley`: no outcome without sides; otherwise the outcome of
   * running rounds from empty matches and empty rejection lists while the
   * number of match entries differs from both side sizes.
   */
  method GaleShapley(agents: seq<Agent>, m: Side, f: Side) returns (r: Outcome)
    requires Roster(agents) && Complete(agents)
    ensures r.NoSides? <==> Parties(agents, m, f).None?
    ensures !r.NoSides? ==> Ran(agents, m, f, r)
  {
    var parties := Parties(agents, m, f);
    if parties.None? {
      return NoSides;
    }
    var (men, fem) := parties.value;
    PartiesReady(agents, m, f);
    r := Rounds(men, fem);
    RanBy(agents, m, f, men, fem, r);
  }

  /** The `while` loop of `gale_shapley`, from no matches and empty rejection lists. */
  method Rounds(men: seq<Agent>, fem: seq<Agent>) returns (r: Outcome)
    requires Ranks(men, Names(fem)) && Ranks(fem, Names(men)) && Roster(men) && Roster(fem)
    ensures Final(men, fem, r)
  {
    var start := Start(men);
    var matches, rej := start.matches, start.rejections;
    ghost var k := 0;
    while Continues(men, fem, matches)
      invariant Tracked(men, fem, rej)
      invariant Steps(men, fem, start, k) == Some(State(matches, rej))
      invariant Apart(men, fem) ==> matches == map[] || Paired(men, fem, matches)
      decreases All(men, fem) - Pairs(rej)
    {
      var out;
      out, matches, rej := Iterate(men, fem, k, matches, rej);
      if out.Some? {
        return out.value;
      }
      k := k + 1;
    }
    Finishes(men, fem, k, matches, rej);
    return Done(matches);
  }

  /** The outcome is where the run from the start leads, and a finished run pairs every acceptor when that makes sense. */
  ghost predicate Final(men: seq<Agent>, fem: seq<Agent>, r: Outcome)
    requires Ranks(men, Names(fem)) && Ranks(fem, Names(men))
  {
    && Reached(men, fem, r)
    && (r.Done? && Apart(men, fem) && men != [] && fem != [] ==> Paired(men, fem, r.matches))
  }

  /** The loop ends with the matches it holds. */
  lemma Finishes(men: seq<Agent>, fem: seq<Agent>, k: nat, matches: map<Name, Name>, rej: map<Name, seq<Name>>)
    requires Ranks(men, Names(fem)) && Ranks(fem, Names(men))
    requires Steps(men, fem, Start(men), k) == Some(State(matches, rej)) && !Continues(men, fem, matches)
    requires Apart(men, fem) ==> matches == map[] || Paired(men, fem, matches)
    ensures Final(men, fem, Done(matches))
  {
  }

  /**
   * One iteration of the `while` loop: the outcome when the round raises
   * or repeats itself; otherwise the next state, with strictly more
   * rejected pairs.
   */
  method Iterate(men: seq<Agent>, fem: seq<Agent>, ghost k: nat, matches: map<Name, Name>, rej: map<Name, seq<Name>>)
    returns (out: Option<Outcome>, matches': map<Name, Name>, rej': map<Name, seq<Name>>)
    requires Ranks(men, Names(fem)) && Ranks(fem, Names(men)) && Roster(men) && Roster(fem)
    requires Tracked(men, fem, rej) && Steps(men, fem, Start(men), k) == Some(State(matches, rej))
    requires Continues(men, fem, matches)
    ensures out.Some? ==> Final(men, fem, out.value) && !out.value.NoSides?
    ensures out.None? ==>
      && Tracked(men, fem, rej')
      && Steps(men, fem, Start(men), k + 1) == Some(State(matches', rej'))
      && All(men, fem) - Pairs(rej') < All(men, fem) - Pairs(rej)
      && (Apart(men, fem) ==> Paired(men, fem, matches'))
  {
    var st := State(matches, rej);
    var next := Round(men, fem, st);
    Advance(men, fem, Start(men), k, st);
    matches', rej' := matches, rej;
    if next.None? {
      assert Steps(men, fem, Start(men), k + 1).None?;
      return Some(Raised), matches', rej';
    }
    if next.value.rejections == rej {
      if Continues(men, fem, next.value.matches) {
        assert Steps(men, fem, Start(men), k + 1) == Some(next.value);
        return Some(Diverges), matches', rej';
      }
      assert Steps(men, fem, Start(men), k + 1) == Some(State(next.value.matches, next.value.rejections));
      return Some(Done(next.value.matches)), matches', rej';
    }
    return None, next.value.matches, next.value.rejections;
  }

  lemma RanBy(agents: seq<Agent>, m: Side, f: Side, men: seq<Agent>, fem: seq<Agent>, r: Outcome)
    requires Parties(agents, m, f) == Some((men, fem))
    requires Ranks(men, Names(fem)) && Ranks(fem, Names(men)) && Final(men, fem, r)
    ensures Ran(agents, m, f, r)
  {
  }

  /** One iteration of the `while` loop, as `GaleShapley` needs it. */
  lemma Advance(men: seq<Agent>, fem: seq<Agent>, start: State, k: nat, st: State)
    requires Ready(men, fem, start.rejections) && Roster(men) && Roster(fem)
    requires Tracked(men, fem, st.rejections) && Steps(men, fem, start, k) == Some(st)
    requires Continues(men, fem, st.matches)
    ensures Steps(men, fem, start, k + 1) == RoundOf(men, fem, st)
    ensures RoundOf(men, fem, st).Some? ==>
      var next := RoundOf(men, fem, st).value;
      && Tracked(men, fem, next.rejections)
      && (next.rejections != st.rejections ==> All(men, fem) - Pairs(next.rejections) < All(men, fem) - Pairs(st.rejections))
      && (Apart(men, fem) ==> Paired(men, fem, next.matches))
      && (next.rejections == st.rejections ==> RoundOf(men, fem, next) == Some(next))
  {
    if RoundOf(men, fem, st).Some? {
      var next := RoundOf(men, fem, st).value;
      RoundGrows(men, fem, st);
      TrackedWithin(men, fem, next.rejections);
      if Apart(men, fem) {
        RoundKeepsBest(men, fem, st);
      }
      if next.rejections == st.rejections {
        RoundRepeats(men, fem, st);
      }
    }
  }
}
