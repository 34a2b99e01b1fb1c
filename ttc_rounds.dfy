/**
 * The second half of a `TTC` round and the round loop itself: the
 * components found in the `preference_graph` are settled one by one (a
 * self-pointing singleton is matched with itself, a component of two or more
 * is matched along its tuple order, and matched agents leave `to_match`),
 * and rounds repeat until `to_match` is empty.
 */
module TtcRounds {
  import opened Seqs
  import opened Agents
  import opened Scc
  import opened Ttc

  // ---------------------------------------------------------------------
  // Leaving the pool
  // ---------------------------------------------------------------------

  /** `s` with its first agent named `n` deleted; `s` itself when nobody has that name. */
  function Without(s: seq<Agent>, n: Name): seq<Agent>
  {
    if s == [] then []
    else if s[0].name == n then s[1..]
    else [s[0]] + Without(s[1..], n)
  }

  /** Deleting a name shortens the list by one exactly when the name is listed. */
  lemma {:induction false} WithoutShape(s: seq<Agent>, n: Name)
    ensures n in Names(s) ==> |Without(s, n)| == |s| - 1
    ensures n !in Names(s) ==> Without(s, n) == s
    ensures forall a :: a in Without(s, n) ==> a in s
  {
    if s != [] {
      WithoutShape(s[1..], n);
      assert s == [s[0]] + s[1..];
      assert Names(s) == [s[0].name] + Names(s[1..]);
    }
  }

  /** In a roster, deleting a name removes that name and no other. */
  lemma {:induction false} WithoutNames(s: seq<Agent>, n: Name)
    requires Roster(s)
    ensures Roster(Without(s, n))
    ensures forall m :: m in Names(Without(s, n)) <==> m in Names(s) && m != n
  {
    if s != [] {
      var t := s[1..];
      RosterTail(s);
      WithoutNames(t, n);
      WithoutShape(t, n);
      assert Names(s) == [s[0].name] + Names(t);
      if s[0].name != n {
        InNames(t, s[0].name);
        assert s[0] in s;
        RosterCons(s[0], Without(t, n));
        assert Names(Without(s, n)) == [s[0].name] + Names(Without(t, n));
      }
    }
  }

  /** `Without` skips a prefix that holds no agent of that name. */
  lemma {:induction false} WithoutSkips(s: seq<Agent>, n: Name, i: nat)
    requires i <= |s|
    requires forall j :: 0 <= j < i ==> s[j].name != n
    ensures Without(s, n) == s[..i] + Without(s[i..], n)
  {
    if i > 0 {
      WithoutSkips(s[1..], n, i - 1);
      assert s[1..][..i - 1] == s[1..i];
      assert s[1..][i - 1..] == s[i..];
      assert s[..i] == [s[0]] + s[1..i];
    }
  }

  /** Deleting a name keeps the other agents in their order. */
  lemma {:induction false} SubWithout(s: seq<Agent>, n: Name)
    ensures Sub(Without(s, n), s)
  {
    if s == [] {
      SubRefl(s);
    } else if s[0].name == n {
      SubRefl(s[1..]);
      SubSkip(s[0], s[1..], s[1..]);
      assert [s[0]] + s[1..] == s;
    } else {
      SubWithout(s[1..], n);
      SubCons(s[0], Without(s[1..], n), s[1..]);
      assert [s[0]] + s[1..] == s;
    }
  }

  /** Deleting a name from what is left of `pool` leaves what is left of `pool`. */
  lemma SubLeft(r: seq<Agent>, n: Name, pool: seq<Agent>)
    requires Sub(r, pool)
    ensures Sub(Without(r, n), pool)
  {
    SubWithout(r, n);
    SubTrans(Without(r, n), r, pool);
  }

  /**
   * What is left of a roster is fixed by the names left: two sub-lists of a
   * roster with the same names are the same list, in the same order.
   */
  lemma PoolFixed(s: seq<Agent>, r1: seq<Agent>, r2: seq<Agent>)
    requires Roster(s) && Sub(r1, s) && Sub(r2, s)
    requires forall n :: n in Names(r1) <==> n in Names(r2)
    ensures r1 == r2
  {
    assert Distinct(s);
    SubMembers(r1, s);
    SubMembers(r2, s);
    forall x ensures x in r1 <==> x in r2 {
      if x in r1 {
        SameAgent(s, r1, r2, x);
      }
      if x in r2 {
        SameAgent(s, r2, r1, x);
      }
    }
    SubUnique(r1, r2, s);
  }

  /** In a roster, an agent of one sub-list whose name another sub-list lists is in that one too. */
  lemma SameAgent(s: seq<Agent>, r1: seq<Agent>, r2: seq<Agent>, x: Agent)
    requires Roster(s) && (forall a :: a in r1 ==> a in s) && (forall a :: a in r2 ==> a in s)
    requires forall n :: n in Names(r1) ==> n in Names(r2)
    requires x in r1
    ensures x in r2
  {
    var i :| 0 <= i < |r1| && r1[i] == x;
    assert Names(r1)[i] == x.name;
    assert x.name in Names(r2);
    var j :| 0 <= j < |r2| && Names(r2)[j] == x.name;
    assert r2[j] in s && x in s;
    var p :| 0 <= p < |s| && s[p] == x;
    var q :| 0 <= q < |s| && s[q] == r2[j];
    assert p == q;
  }

  /**
   * Deleting the first agent named `n`: the scan of `to_match` that `del`s
   * the agent of a self-matched singleton, and, in a roster, the removal of
   * each member of a matched cycle.
   */
  method RemoveNamed(s: seq<Agent>, n: Name) returns (r: seq<Agent>)
    ensures r == Without(s, n)
  {
    var i := 0;
    while i < |s| && s[i].name != n
      invariant 0 <= i <= |s|
      invariant forall j :: 0 <= j < i ==> s[j].name != n
    {
      i := i + 1;
    }
    WithoutSkips(s, n, i);
    if i < |s| {
      assert s[i..] == [s[i]] + s[i + 1..];
      r := s[..i] + s[i + 1..];
    } else {
      assert s[..i] == s;
      r := s;
    }
  }

  // ---------------------------------------------------------------------
  // Matching along a cycle
  // ---------------------------------------------------------------------

  /** `m` pairs its keys among themselves one to one: a permutation of its keys. */
  ghost predicate Perm(m: map<Name, Name>)
  {
    && (forall k :: k in m ==> m[k] in m)
    && (forall j, k :: j in m && k in m && j != k ==> m[j] != m[k])
  }

  /** Python's `c[i - 1]`: the position before `i`, the last one for `i == 0`. */
  function Prev(i: nat, n: nat): nat
    requires i < n
  {
    if i == 0 then n - 1 else i - 1
  }

  /** The position after `i`, the first one after the last. */
  function Next(i: nat, n: nat): nat
    requires i < n
  {
    if i == n - 1 then 0 else i + 1
  }

  /** `m` sends every member of `c` to the next one, and the last back to the first. */
  ghost predicate Rotates(m: map<Name, Name>, c: seq<Name>)
  {
    forall k :: 0 <= k < |c| ==> c[k] in m && m[c[k]] == c[Next(k, |c|)]
  }

  /** The loop `matched[cycle[i - 1]] = cycle[i]` over a cycle without repeats. */
  method Rotate(c: seq<Name>, matched: map<Name, Name>) returns (m: map<Name, Name>)
    requires Distinct(c)
    ensures forall k :: k in m <==> k in matched || k in c
    ensures forall k :: k in matched && k !in c ==> m[k] == matched[k]
    ensures Rotates(m, c)
  {
    m := matched;
    var n := |c|;
    for i := 0 to n
      invariant forall k :: k in m <==> k in matched || (0 < i && (k == c[n - 1] || k in c[..i - 1]))
      invariant forall k :: k in matched && k !in c ==> m[k] == matched[k]
      invariant forall j :: 0 <= j < i ==> m[c[Prev(j, n)]] == c[j]
    {
      m := m[c[Prev(i, n)] := c[i]];
      forall j | 0 <= j < i ensures m[c[Prev(j, n)]] == c[j] {
        assert Prev(j, n) != Prev(i, n);
      }
      if i > 0 {
        assert c[..i] == c[..i - 1] + [c[i - 1]];
      }
    }
    forall k | k in c ensures k in m {
      var p :| 0 <= p < n && c[p] == k;
      if p < n - 1 {
        assert c[..n - 1][p] == k;
      }
    }
    forall k | 0 <= k < n ensures c[k] in m && m[c[k]] == c[Next(k, n)] {
      assert Prev(Next(k, n), n) == k;
    }
  }

  /** A rotation sends members of the cycle to members of the cycle. */
  lemma RotatedStaysIn(m: map<Name, Name>, c: seq<Name>, k: Name)
    requires Rotates(m, c) && k in c
    ensures k in m && m[k] in c
  {
    var p :| 0 <= p < |c| && c[p] == k;
  }

  /** A rotation of a cycle without repeats sends different members to different members. */
  lemma RotatedOneToOne(m: map<Name, Name>, c: seq<Name>, j: Name, k: Name)
    requires Rotates(m, c) && Distinct(c) && j in c && k in c && j != k
    ensures m[j] != m[k]
  {
    var n := |c|;
    var p :| 0 <= p < n && c[p] == j;
    var q :| 0 <= q < n && c[q] == k;
    assert Next(p, n) != Next(q, n);
  }

  /** Rotating a fresh cycle into a permutation leaves a permutation. */
  lemma RotateKeepsPerm(m: map<Name, Name>, m': map<Name, Name>, c: seq<Name>)
    requires Perm(m) && Distinct(c)
    requires forall k :: k in c ==> k !in m
    requires forall k :: k in m' <==> k in m || k in c
    requires forall k :: k in m ==> m'[k] == m[k]
    requires Rotates(m', c)
    ensures Perm(m')
  {
    forall k | k in m' ensures m'[k] in m' {
      if k in c {
        RotatedStaysIn(m', c, k);
      }
    }
    forall j, k | j in m' && k in m' && j != k ensures m'[j] != m'[k] {
      if j in c && k in c {
        RotatedOneToOne(m', c, j, k);
      } else if j in c {
        RotatedStaysIn(m', c, j);
      } else if k in c {
        RotatedStaysIn(m', c, k);
      }
    }
  }

  /** What is left of `pool` once the members `c[..k]` of a cycle are taken out. */
  ghost predicate Removing(pool: seq<Agent>, c: seq<Node>, k: nat, r: seq<Agent>)
    requires k <= |c|
  {
    && Roster(r) && (forall a :: a in r ==> a in pool)
    && (forall n :: n in Names(r) <==> n in Names(pool) && n !in c[..k])
    && |r| <= |pool|
    && (k > 0 && c[0] in Names(pool) ==> |r| < |pool|)
  }

  /** Taking out one more member of the cycle keeps `Removing`. */
  lemma RemovingStep(pool: seq<Agent>, c: seq<Node>, k: nat, r: seq<Agent>)
    requires k < |c| && Removing(pool, c, k, r)
    ensures Removing(pool, c, k + 1, Without(r, c[k]))
  {
    WithoutShape(r, c[k]);
    WithoutNames(r, c[k]);
    NamesLeft(pool, c, k, r);
    if k == 0 && c[0] in Names(pool) {
      assert c[0] in Names(r);
    }
  }

  /** Deleting the next member of the cycle leaves the names of `pool` outside one more prefix of it. */
  lemma NamesLeft(pool: seq<Agent>, c: seq<Node>, k: nat, r: seq<Agent>)
    requires k < |c| && Roster(r)
    requires forall n :: n in Names(r) <==> n in Names(pool) && n !in c[..k]
    ensures forall n :: n in Names(Without(r, c[k])) <==> n in Names(pool) && n !in c[..k + 1]
  {
    WithoutNames(r, c[k]);
    assert c[..k + 1] == c[..k] + [c[k]];
    forall n ensures n in Names(Without(r, c[k])) <==> n in Names(pool) && n !in c[..k + 1] {
      assert n in c[..k + 1] <==> n in c[..k] || n == c[k];
    }
  }

  /** The `for i in range(len(cycle))` loop that takes every member of a matched cycle out of `to_match`. */
  method RemoveCycle(pool: seq<Agent>, c: seq<Node>) returns (r: seq<Agent>)
    requires Roster(pool)
    ensures Roster(r) && (forall a :: a in r ==> a in pool) && Sub(r, pool)
    ensures forall n :: n in Names(r) <==> n in Names(pool) && n !in c
    ensures |r| <= |pool|
    ensures c != [] && c[0] in Names(pool) ==> |r| < |pool|
  {
    r := pool;
    SubRefl(pool);
    for k := 0 to |c|
      invariant Removing(pool, c, k, r) && Sub(r, pool)
    {
      RemovingStep(pool, c, k, r);
      SubLeft(r, c[k], pool);
      r := RemoveNamed(r, c[k]);
    }
    assert c[..|c|] == c;
  }

  // ---------------------------------------------------------------------
  // Settling the components
  // ---------------------------------------------------------------------

  /** A singleton that is no key of the graph: looking up its successors raises `KeyError`. */
  ghost predicate Stray(g: Graph, c: seq<Node>)
  {
    |c| == 1 && c[0] !in g.edges
  }

  /**
   * What matching the cycle `c` does: its members leave the pool, and no
   * one else does, the others keeping their order, and `matched` gains them, sending each to the next one
   * along `c`, while staying a permutation.
   */
  ghost predicate Leaves(c: seq<Node>, pool: seq<Agent>, matched: map<Name, Name>,
                         pool': seq<Agent>, matched': map<Name, Name>)
  {
    && Roster(pool') && (forall a :: a in pool' ==> a in pool) && |pool'| < |pool| && Sub(pool', pool)
    && (forall n :: n in Names(pool') <==> n in Names(pool) && n !in c)
    && (forall k :: k in matched' <==> k in matched || k in c)
    && (forall k :: k in matched ==> matched'[k] == matched[k])
    && Rotates(matched', c) && Perm(matched')
  }

  /** What one settled component does: a cycle leaves, anything else changes nothing. */
  ghost predicate Step(g: Graph, c: seq<Node>, pool: seq<Agent>, matched: map<Name, Name>,
                       pool': seq<Agent>, matched': map<Name, Name>)
  {
    && (!Cycle(g, c) ==> pool' == pool && matched' == matched)
    && (Cycle(g, c) ==> Leaves(c, pool, matched, pool', matched'))
  }

  /**
   * Matching a cycle: a singleton is matched with itself and deleted by
   * index; a longer cycle is rotated into `matched` and its members removed.
   */
  method MatchCycle(c: seq<Node>, pool: seq<Agent>, matched: map<Name, Name>)
    returns (pool': seq<Agent>, matched': map<Name, Name>)
    requires Roster(pool) && Perm(matched)
    requires |c| > 0 && Distinct(c)
    requires forall n :: n in c ==> n in Names(pool) && n !in matched
    ensures Leaves(c, pool, matched, pool', matched')
  {
    matched' := PairUp(c, matched);
    pool' := RemoveCycle(pool, c);
    assert c[0] in c;
  }

  /**
   * The writes to `matched` for a cycle: a singleton is matched with
   * itself, a longer cycle is rotated; the result is still a permutation.
   */
  method PairUp(c: seq<Node>, matched: map<Name, Name>) returns (matched': map<Name, Name>)
    requires Perm(matched) && |c| > 0 && Distinct(c)
    requires forall n :: n in c ==> n !in matched
    ensures forall k :: k in matched' <==> k in matched || k in c
    ensures forall k :: k in matched ==> matched'[k] == matched[k]
    ensures Rotates(matched', c) && Perm(matched')
  {
    if |c| == 1 {
      matched' := matched[c[0] := c[0]];
    } else {
      matched' := Rotate(c, matched);
    }
    RotateKeepsPerm(matched, matched', c);
  }

  /**
   * One turn of `for cycle in cycles`: a stray singleton raises; a singleton
   * pointing at itself is matched with itself and leaves; any other singleton
   * stays; a component of two or more is matched along its order and leaves.
   */
  method SettleOne(g: Graph, c: seq<Node>, pool: seq<Agent>, matched: map<Name, Name>)
    returns (raised: bool, pool': seq<Agent>, matched': map<Name, Name>)
    requires Roster(pool) && Perm(matched)
    requires |c| > 0 && Distinct(c)
    requires forall n :: n in c ==> n in Names(pool) && n !in matched
    ensures raised <==> Stray(g, c)
    ensures !raised ==> Step(g, c, pool, matched, pool', matched')
  {
    raised, pool', matched' := false, pool, matched;
    if |c| == 1 {
      if c[0] !in g.edges {
        raised := true;
      } else if g.edges[c[0]] == [c[0]] {
        pool', matched' := MatchCycle(c, pool, matched);
      }
    } else {
      pool', matched' := MatchCycle(c, pool, matched);
    }
  }

  /** The components as the search returns them: non-empty, without repeats, and pairwise disjoint. */
  ghost predicate Separate(cs: seq<seq<Node>>)
  {
    && (forall j :: 0 <= j < |cs| ==> |cs[j]| > 0 && Distinct(cs[j]))
    && (forall i, j, n :: 0 <= i < j < |cs| && n in cs[i] ==> n !in cs[j])
  }

  /** Every node of the components names an agent of the pool. */
  ghost predicate Within(cs: seq<seq<Node>>, pool: seq<Agent>)
  {
    forall j, n :: 0 <= j < |cs| && n in cs[j] ==> n in Names(pool)
  }

  /** Components whose concatenation has no repeats are each without repeats and pairwise disjoint. */
  lemma {:induction false} FlatParts(cs: seq<seq<Node>>)
    requires Distinct(Flat(cs))
    ensures forall j :: 0 <= j < |cs| ==> Distinct(cs[j])
    ensures forall i, j, n :: 0 <= i < j < |cs| && n in cs[i] ==> n !in cs[j]
    ensures forall j, n :: 0 <= j < |cs| && n in cs[j] ==> n in Flat(cs)
  {
    if cs != [] {
      var init, last := cs[..|cs| - 1], cs[|cs| - 1];
      var f := Flat(init);
      assert Flat(cs) == f + last;
      assert Distinct(f) by {
        forall p, q | 0 <= p < q < |f| ensures f[p] != f[q] {
          assert Flat(cs)[p] == f[p] && Flat(cs)[q] == f[q];
        }
      }
      FlatParts(init);
      forall p, q | 0 <= p < q < |last| ensures last[p] != last[q] {
        assert Flat(cs)[|f| + p] == last[p] && Flat(cs)[|f| + q] == last[q];
      }
      forall p, q | 0 <= p < |f| && 0 <= q < |last| ensures f[p] != last[q] {
        assert Flat(cs)[p] == f[p] && Flat(cs)[|f| + q] == last[q];
      }
      forall j, n | 0 <= j < |cs| && n in cs[j] ensures n in Flat(cs) {
        if j < |cs| - 1 {
          assert cs[j] == init[j];
        }
      }
      forall i, j, n | 0 <= i < j < |cs| && n in cs[i] ensures n !in cs[j] {
        if j < |cs| - 1 {
          assert cs[i] == init[i] && cs[j] == init[j];
        } else {
          assert cs[i] == init[i];
          assert n in f;
          var p :| 0 <= p < |f| && f[p] == n;
          forall q | 0 <= q < |last| ensures last[q] != n {
            assert f[p] != last[q];
          }
        }
      }
    }
  }

  /**
   * `pool'` and `matched'` still split between them the names that `pool`
   * and `matched` split, `pool'` is what is left of `pool` in its order,
   * and `matched'` extends `matched` and is a permutation.
   */
  ghost predicate Accounts(pool: seq<Agent>, matched: map<Name, Name>, pool': seq<Agent>, matched': map<Name, Name>)
  {
    && Roster(pool') && (forall a :: a in pool' ==> a in pool) && Sub(pool', pool) && Perm(matched')
    && (forall k :: k in matched ==> k in matched' && matched'[k] == matched[k])
    && (forall k :: k in matched' ==> k !in Names(pool'))
    && (forall n :: n in matched' || n in Names(pool') <==> n in matched || n in Names(pool))
  }

  /** Cycles among `cs[..i]` are matched along their order. */
  ghost predicate Matched(g: Graph, cs: seq<seq<Node>>, i: nat, matched': map<Name, Name>)
    requires i <= |cs|
  {
    forall j :: 0 <= j < i && Cycle(g, cs[j]) ==> Rotates(matched', cs[j])
  }

  /** Components among `cs[..i]` that are no cycles are still in the pool. */
  ghost predicate Stayed(g: Graph, cs: seq<seq<Node>>, i: nat, pool': seq<Agent>)
    requires i <= |cs|
  {
    forall j, n :: 0 <= j < i && !Cycle(g, cs[j]) && n in cs[j] ==> n in Names(pool')
  }

  /** Components from `cs[i]` on are untouched in the pool. */
  ghost predicate Ahead(cs: seq<seq<Node>>, i: nat, pool': seq<Agent>)
    requires i <= |cs|
  {
    forall j, n :: i <= j < |cs| && n in cs[j] ==> n in Names(pool')
  }

  /** The pool only shrinks, it shrinks whenever anything changes, and it has shrunk once `cs[0]` was a cycle. */
  ghost predicate Shrinks(g: Graph, cs: seq<seq<Node>>, i: nat, pool: seq<Agent>, matched: map<Name, Name>,
                          pool': seq<Agent>, matched': map<Name, Name>)
    requires i <= |cs|
  {
    && |pool'| <= |pool| && (|pool'| == |pool| ==> pool' == pool && matched' == matched)
    && (i > 0 && Cycle(g, cs[0]) ==> |pool'| < |pool|)
  }

  /** The state after settling `cs[..i]`, starting from `pool` and `matched`. */
  ghost predicate Settling(g: Graph, cs: seq<seq<Node>>, i: nat, pool: seq<Agent>, matched: map<Name, Name>,
                           pool': seq<Agent>, matched': map<Name, Name>)
    requires i <= |cs|
  {
    && Accounts(pool, matched, pool', matched')
    && Matched(g, cs, i, matched')
    && Stayed(g, cs, i, pool')
    && Ahead(cs, i, pool')
    && Shrinks(g, cs, i, pool, matched, pool', matched')
    && Pointed(g, matched, matched')
  }

  /** Every key `matched'` gains is matched with a node whose one successor is that key. */
  ghost predicate Pointed(g: Graph, matched: map<Name, Name>, matched': map<Name, Name>)
  {
    forall k :: k in matched' && k !in matched ==> Succ(g, matched'[k]) == [k]
  }

  /**
   * Rotating a cycle that runs against the edges matches each member with
   * the member pointing at it: with the one whose single successor it is.
   */
  lemma RotatedRing(g: Graph, c: seq<Node>, m: map<Name, Name>)
    requires Cycle(g, c) && Ring(g, c) && Rotates(m, c)
    ensures forall k :: k in c ==> k in m && Succ(g, m[k]) == [k]
  {
    forall k | k in c ensures k in m && Succ(g, m[k]) == [k] {
      var n := |c|;
      var p :| 0 <= p < n && c[p] == k;
      if n >= 2 {
        if p < n - 1 {
          assert m[k] == c[p + 1] && Succ(g, c[p + 1]) == [c[p]];
        } else {
          assert m[k] == c[0];
        }
      }
    }
  }

  lemma PointedStep(g: Graph, c: seq<Node>, matched: map<Name, Name>,
                    p0: seq<Agent>, m0: map<Name, Name>, p1: seq<Agent>, m1: map<Name, Name>)
    requires Pointed(g, matched, m0) && Step(g, c, p0, m0, p1, m1) && Ring(g, c)
    ensures Pointed(g, matched, m1)
  {
    if Cycle(g, c) {
      RotatedRing(g, c, m1);
      forall k | k in m1 && k !in matched ensures Succ(g, m1[k]) == [k] {
        if k !in c {
          assert k in m0;
        }
      }
    }
  }

  lemma AccountsStep(g: Graph, c: seq<Node>, pool: seq<Agent>, matched: map<Name, Name>,
                     p0: seq<Agent>, m0: map<Name, Name>, p1: seq<Agent>, m1: map<Name, Name>)
    requires Accounts(pool, matched, p0, m0) && Step(g, c, p0, m0, p1, m1)
    requires forall n :: n in c ==> n in Names(p0)
    ensures Accounts(pool, matched, p1, m1)
  {
    if Cycle(g, c) {
      SubTrans(p1, p0, pool);
      forall a | a in p1 ensures a in pool {
        assert a in p0;
      }
      forall k | k in matched ensures k in m1 && m1[k] == matched[k] {
        assert k in m0;
      }
      forall k | k in m1 ensures k !in Names(p1) {
        if k !in c {
          assert k in m0;
        }
      }
      forall n ensures n in m1 || n in Names(p1) <==> n in matched || n in Names(pool) {
        assert n in m1 || n in Names(p1) <==> n in m0 || n in Names(p0);
      }
    }
  }

  lemma MatchedStep(g: Graph, cs: seq<seq<Node>>, i: nat, p0: seq<Agent>, m0: map<Name, Name>,
                    p1: seq<Agent>, m1: map<Name, Name>)
    requires i < |cs| && Separate(cs)
    requires Matched(g, cs, i, m0) && Step(g, cs[i], p0, m0, p1, m1)
    ensures Matched(g, cs, i + 1, m1)
  {
    if Cycle(g, cs[i]) {
      forall j | 0 <= j < i && Cycle(g, cs[j]) ensures Rotates(m1, cs[j]) {
        RotatesKept(m0, m1, cs[j]);
      }
    }
  }

  lemma StayedStep(g: Graph, cs: seq<seq<Node>>, i: nat, p0: seq<Agent>, m0: map<Name, Name>,
                   p1: seq<Agent>, m1: map<Name, Name>)
    requires i < |cs| && Separate(cs)
    requires Stayed(g, cs, i, p0) && Ahead(cs, i, p0) && Step(g, cs[i], p0, m0, p1, m1)
    ensures Stayed(g, cs, i + 1, p1)
  {
    if Cycle(g, cs[i]) {
      forall j, n | 0 <= j < i && !Cycle(g, cs[j]) && n in cs[j] ensures n in Names(p1) {
        assert n !in cs[i];
      }
    }
  }

  /** A rotation survives adding keys outside its cycle. */
  lemma RotatesKept(m0: map<Name, Name>, m1: map<Name, Name>, d: seq<Node>)
    requires Rotates(m0, d)
    requires forall k :: k in m0 ==> k in m1 && m1[k] == m0[k]
    ensures Rotates(m1, d)
  {
    forall k | 0 <= k < |d| ensures d[k] in m1 && m1[d[k]] == d[Next(k, |d|)] {
    }
  }

  lemma AheadStep(g: Graph, cs: seq<seq<Node>>, i: nat, p0: seq<Agent>, m0: map<Name, Name>,
                  p1: seq<Agent>, m1: map<Name, Name>)
    requires i < |cs| && Separate(cs)
    requires Ahead(cs, i, p0) && Step(g, cs[i], p0, m0, p1, m1)
    ensures Ahead(cs, i + 1, p1)
  {
    if Cycle(g, cs[i]) {
      forall j, n | i + 1 <= j < |cs| && n in cs[j] ensures n in Names(p1) {
        assert n !in cs[i];
      }
    }
  }

  lemma ShrinksStep(g: Graph, cs: seq<seq<Node>>, i: nat, pool: seq<Agent>, matched: map<Name, Name>,
                    p0: seq<Agent>, m0: map<Name, Name>, p1: seq<Agent>, m1: map<Name, Name>)
    requires i < |cs| && Shrinks(g, cs, i, pool, matched, p0, m0) && Step(g, cs[i], p0, m0, p1, m1)
    ensures Shrinks(g, cs, i + 1, pool, matched, p1, m1)
  {
  }

  /** Before settling `cs[i]`: `SettleOne` may be called on it. */
  lemma SettlingReady(g: Graph, cs: seq<seq<Node>>, i: nat, pool: seq<Agent>, matched: map<Name, Name>,
                      p0: seq<Agent>, m0: map<Name, Name>)
    requires i < |cs| && Separate(cs) && Settling(g, cs, i, pool, matched, p0, m0)
    ensures Roster(p0) && Perm(m0) && |cs[i]| > 0 && Distinct(cs[i])
    ensures forall n :: n in cs[i] ==> n in Names(p0) && n !in m0
  {
  }

  /** Settling `cs[i]` as `SettleOne` does keeps `Settling`. */
  lemma SettlingStep(g: Graph, cs: seq<seq<Node>>, i: nat, pool: seq<Agent>, matched: map<Name, Name>,
                     p0: seq<Agent>, m0: map<Name, Name>, p1: seq<Agent>, m1: map<Name, Name>)
    requires i < |cs| && Separate(cs) && Settling(g, cs, i, pool, matched, p0, m0)
    requires Step(g, cs[i], p0, m0, p1, m1) && Ring(g, cs[i])
    ensures Settling(g, cs, i + 1, pool, matched, p1, m1)
  {
    PointedStep(g, cs[i], matched, p0, m0, p1, m1);
    AccountsStep(g, cs[i], pool, matched, p0, m0, p1, m1);
    MatchedStep(g, cs, i, p0, m0, p1, m1);
    StayedStep(g, cs, i, p0, m0, p1, m1);
    AheadStep(g, cs, i, p0, m0, p1, m1);
    ShrinksStep(g, cs, i, pool, matched, p0, m0, p1, m1);
  }

  /** Settles `cs[i]` with `SettleOne`, carrying `Settling` from `i` to `i + 1`. */
  method SettleNext(g: Graph, cs: seq<seq<Node>>, i: nat, pool: seq<Agent>, matched: map<Name, Name>,
                    p0: seq<Agent>, m0: map<Name, Name>)
    returns (raised: bool, p1: seq<Agent>, m1: map<Name, Name>)
    requires i < |cs| && Separate(cs) && Settling(g, cs, i, pool, matched, p0, m0) && Ring(g, cs[i])
    ensures raised <==> Stray(g, cs[i])
    ensures !raised ==> Settling(g, cs, i + 1, pool, matched, p1, m1)
  {
    SettlingReady(g, cs, i, pool, matched, p0, m0);
    raised, p1, m1 := SettleOne(g, cs[i], p0, m0);
    if !raised {
      SettlingStep(g, cs, i, pool, matched, p0, m0, p1, m1);
    }
  }

  /** Nothing settled yet. */
  lemma SettlingStart(g: Graph, cs: seq<seq<Node>>, pool: seq<Agent>, matched: map<Name, Name>)
    requires Roster(pool) && Perm(matched) && Within(cs, pool)
    requires forall k :: k in matched ==> k !in Names(pool)
    ensures Settling(g, cs, 0, pool, matched, pool, matched)
  {
    SubRefl(pool);
  }

  /**
   * `for cycle in cycles`, settling each component in turn. Raising stops the
   * round; otherwise every cycle is matched along its order and leaves, every
   * other component stays unmatched in the pool, and nobody leaves unmatched.
   */
  method Settle(g: Graph, cs: seq<seq<Node>>, pool: seq<Agent>, matched: map<Name, Name>)
    returns (raised: bool, pool': seq<Agent>, matched': map<Name, Name>)
    requires Roster(pool) && Perm(matched) && Separate(cs) && Within(cs, pool)
    requires forall k :: k in matched ==> k !in Names(pool)
    requires forall c :: c in cs ==> Ring(g, c)
    ensures raised <==> exists j :: 0 <= j < |cs| && Stray(g, cs[j])
    ensures !raised ==> Settling(g, cs, |cs|, pool, matched, pool', matched')
  {
    SettlingStart(g, cs, pool, matched);
    raised, pool', matched' := false, pool, matched;
    for i := 0 to |cs|
      invariant forall j :: 0 <= j < i ==> !Stray(g, cs[j])
      invariant Settling(g, cs, i, pool, matched, pool', matched')
    {
      assert cs[i] in cs;
      var r, p, m := SettleNext(g, cs, i, pool, matched, pool', matched');
      if r {
        raised := true;
        return;
      }
      pool', matched' := p, m;
    }
  }

  // ---------------------------------------------------------------------
  // Rounds
  // ---------------------------------------------------------------------

  /** The pool and `matched` between rounds: distinct names, a permutation, and no name in both. */
  ghost predicate Between(pool: seq<Agent>, matched: map<Name, Name>)
  {
    Roster(pool) && Perm(matched) && forall k :: k in matched ==> k !in Names(pool)
  }

  /** Every agent ranks itself: its own name is among its `match_util` keys. */
  ghost predicate ListsSelf(pool: seq<Agent>)
  {
    forall a :: a in pool ==> a.name in a.keys
  }

  /** Every node a preference graph can reach names an agent of the pool. */
  lemma GraphWithinPool(pool: seq<Agent>, rk: Ranking, g: Graph)
    requires Roster(pool) && IsPreferenceGraph(pool, rk, g)
    ensures forall n :: n in Universe(g) ==> n in Names(pool)
  {
    forall n | n in Universe(g) ensures n in Names(pool) {
      NodeWithinPool(pool, rk, g, n);
    }
  }

  lemma NodeWithinPool(pool: seq<Agent>, rk: Ranking, g: Graph, n: Node)
    requires Roster(pool) && IsPreferenceGraph(pool, rk, g) && n in Universe(g)
    ensures n in Names(pool)
  {
    if m :| m in g.edges && n in g.edges[m] {
      var e := g.edges[m];
      var i :| 0 <= i < |e| && e[i] == n;
      assert |e| == 1 && e[0] in Names(pool);
      assert i == 0;
    }
  }

  /** The components of a preference graph of `toMatch` are fit for `Settle`. */
  lemma ComponentsFit(toMatch: seq<Agent>, rk: Ranking, g: Graph, cs: seq<seq<Node>>)
    requires Roster(toMatch) && IsPreferenceGraph(toMatch, rk, g)
    requires forall c :: c in cs ==> |c| > 0
    requires Distinct(Flat(cs))
    requires forall n :: n in Flat(cs) ==> n in Universe(g)
    ensures Separate(cs) && Within(cs, toMatch)
    ensures forall j, n :: 0 <= j < |cs| && n in cs[j] ==> n in Flat(cs)
  {
    FlatParts(cs);
    GraphWithinPool(toMatch, rk, g);
    forall j | 0 <= j < |cs| ensures |cs[j]| > 0 {
      assert cs[j] in cs;
    }
  }

  /** When every node has one successor that is a key, every node the search meets is a key. */
  lemma FunctionalUniverse(g: Graph)
    requires Functional(g)
    ensures forall n :: n in Universe(g) ==> n in g.edges
  {
    forall n | n in Universe(g) ensures n in g.edges {
      UniverseKey(g, n);
    }
  }

  lemma UniverseKey(g: Graph, n: Node)
    requires Functional(g) && n in Universe(g)
    ensures n in g.edges
  {
    if m :| m in g.edges && n in g.edges[m] {
      var e := g.edges[m];
      var i :| 0 <= i < |e| && e[i] == n;
      assert |e| == 1 && e[0] in g.edges;
      assert i == 0;
    }
  }

  /** The purge at the start of a round: what it keeps of `pool`. */
  lemma Purged(pool: seq<Agent>)
    requires Roster(pool)
    ensures Roster(Kept(pool, 0)) && (forall a :: a in Kept(pool, 0) ==> a in pool)
    ensures |Kept(pool, 0)| <= |pool| && (|Kept(pool, 0)| == |pool| ==> Kept(pool, 0) == pool)
  {
    KeptLength(pool, 0);
    KeptMembers(pool, 0);
    KeptRoster(pool, 0);
  }

  /**
   * What a round that does not raise leaves: a pool and `matched` fit for
   * the next round, drawn from the old ones; the new pool what is left of
   * the round's pool `round` (the pool after the purge), in its order;
   * keys gained only from the old pool; every name of `round` either
   * matched or still in the pool, and nobody else; and a round that shrinks
   * nothing changes nothing.
   */
  ghost predicate Rounded(pool: seq<Agent>, matched: map<Name, Name>, round: seq<Agent>,
                          pool': seq<Agent>, matched': map<Name, Name>)
  {
    && Between(pool', matched') && (forall a :: a in pool' ==> a in pool) && Sub(pool', round)
    && (forall k :: k in matched ==> k in matched' && matched'[k] == matched[k])
    && (forall k :: k in matched' ==> k in matched || k in Names(pool))
    && (forall n :: n in matched' || n in Names(pool') <==> n in matched || n in Names(round))
    && |pool'| <= |pool| && (|pool'| == |pool| ==> pool' == pool && matched' == matched)
  }

  /** Settling every component of the round's pool `toMatch` makes a `Rounded` state. */
  lemma SettledRound(g: Graph, cs: seq<seq<Node>>, pool: seq<Agent>, matched: map<Name, Name>, purge: bool,
                     toMatch: seq<Agent>, pool': seq<Agent>, matched': map<Name, Name>)
    requires Between(pool, matched) && Roster(toMatch) && (forall a :: a in toMatch ==> a in pool)
    requires |toMatch| <= |pool| && (|toMatch| == |pool| ==> toMatch == pool) && (!purge ==> toMatch == pool)
    requires forall n :: n in Names(toMatch) ==> n in Names(pool)
    requires Settling(g, cs, |cs|, toMatch, matched, pool', matched')
    ensures Rounded(pool, matched, toMatch, pool', matched')
  {
    forall k | k in matched' ensures k in matched || k in Names(pool) {
      assert k in matched || k in Names(toMatch);
    }
  }

  /** Agent `m` of `round` has `k` as its top choice among the names of `round`. */
  ghost predicate RanksFirst(round: seq<Agent>, rk: Ranking, m: Name, k: Name)
  {
    exists i :: 0 <= i < |round| && round[i].name == m && round[i].Valid() && Choice(round[i], Names(round), rk) == Some(k)
  }

  /** Every agent a round matched is matched with an agent that ranks it first. */
  lemma PointedRanksFirst(pool: seq<Agent>, rk: Ranking, g: Graph, matched: map<Name, Name>, matched': map<Name, Name>)
    requires Roster(pool) && IsPreferenceGraph(pool, rk, g) && Pointed(g, matched, matched')
    ensures forall k :: k in matched' && k !in matched ==> RanksFirst(pool, rk, matched'[k], k)
  {
    forall k | k in matched' && k !in matched ensures RanksFirst(pool, rk, matched'[k], k) {
      EdgeRanksFirst(pool, rk, g, matched'[k], k);
    }
  }

  /** In a preference graph, the one successor of a node is that agent's top choice. */
  lemma EdgeRanksFirst(pool: seq<Agent>, rk: Ranking, g: Graph, m: Name, k: Name)
    requires Roster(pool) && IsPreferenceGraph(pool, rk, g) && Succ(g, m) == [k]
    ensures RanksFirst(pool, rk, m, k)
  {
    var names := Names(pool);
    assert m in g.edges;
    var i :| 0 <= i < |names| && names[i] == m;
    assert pool[i] in pool;
    assert Points(pool[i], names, rk, g.edges);
  }

  /**
   * Some agent of `round` has as its top choice an agent that has no choice
   * left: that agent is no key of the preference graph, so its component
   * is a stray singleton, and looking it up raises `KeyError`.
   */
  ghost predicate Stranded(round: seq<Agent>, rk: Ranking)
  {
    exists i, j :: 0 <= i < |round| && 0 <= j < |round| && round[i].Valid() && round[j].Valid()
      && Choice(round[j], Names(round), rk) == Some(round[i].name) && Choice(round[i], Names(round), rk).None?
  }

  /** Some component of the round's graph is stray exactly when the round is `Stranded`. */
  lemma StrayMeans(toMatch: seq<Agent>, rk: Ranking, g: Graph, cs: seq<seq<Node>>)
    requires Roster(toMatch) && IsPreferenceGraph(toMatch, rk, g)
    requires Separate(cs) && (forall c :: c in cs ==> Ring(g, c))
    requires forall j, n :: 0 <= j < |cs| && n in cs[j] ==> n in Flat(cs)
    requires forall n :: n in g.edges ==> n in Flat(cs)
    requires forall n :: n in Flat(cs) ==> n in Universe(g)
    requires forall n, m :: n in Flat(cs) && m in Succ(g, n) ==> m in Flat(cs)
    ensures (exists j :: 0 <= j < |cs| && Stray(g, cs[j])) <==> Stranded(toMatch, rk)
  {
    if j :| 0 <= j < |cs| && Stray(g, cs[j]) {
      StrayStranded(toMatch, rk, g, cs[j][0]);
    }
    if Stranded(toMatch, rk) {
      var i, j :| 0 <= i < |toMatch| && 0 <= j < |toMatch| && toMatch[i].Valid() && toMatch[j].Valid()
        && Choice(toMatch[j], Names(toMatch), rk) == Some(toMatch[i].name) && Choice(toMatch[i], Names(toMatch), rk).None?;
      var k := StrandedStray(toMatch, rk, g, cs, i, j);
    }
  }

  /** A node of the graph that is no key is the top choice of an agent, and has no choice itself. */
  lemma StrayStranded(toMatch: seq<Agent>, rk: Ranking, g: Graph, a: Node)
    requires Roster(toMatch) && IsPreferenceGraph(toMatch, rk, g)
    requires a in Universe(g) && a !in g.edges
    ensures Stranded(toMatch, rk)
  {
    var names := Names(toMatch);
    assert a !in g.order;
    var m :| m in g.edges && a in g.edges[m];
    assert g.edges[m] == [a];
    var q :| 0 <= q < |names| && names[q] == m;
    var i :| 0 <= i < |names| && names[i] == a;
    PointsStranded(toMatch, rk, g.edges, q, i);
  }

  /** An agent pointing at another that is no key makes the pool `Stranded`. */
  lemma PointsStranded(toMatch: seq<Agent>, rk: Ranking, edges: map<Node, seq<Node>>, q: nat, i: nat)
    requires Roster(toMatch) && q < |toMatch| && i < |toMatch|
    requires Points(toMatch[q], Names(toMatch), rk, edges) && Points(toMatch[i], Names(toMatch), rk, edges)
    requires toMatch[q].name in edges && edges[toMatch[q].name] == [toMatch[i].name] && toMatch[i].name !in edges
    ensures Stranded(toMatch, rk)
  {
    assert toMatch[q] in toMatch && toMatch[i] in toMatch;
  }

  /** An agent's top choice that has no choice itself sits alone in a stray component. */
  lemma StrandedStray(toMatch: seq<Agent>, rk: Ranking, g: Graph, cs: seq<seq<Node>>, i: nat, j: nat) returns (k: nat)
    requires Roster(toMatch) && IsPreferenceGraph(toMatch, rk, g)
    requires Separate(cs) && (forall c :: c in cs ==> Ring(g, c))
    requires forall n :: n in g.edges ==> n in Flat(cs)
    requires forall n, m :: n in Flat(cs) && m in Succ(g, n) ==> m in Flat(cs)
    requires i < |toMatch| && j < |toMatch|
    requires Choice(toMatch[j], Names(toMatch), rk) == Some(toMatch[i].name) && Choice(toMatch[i], Names(toMatch), rk).None?
    ensures k < |cs| && Stray(g, cs[k])
  {
    var names := Names(toMatch);
    var a, b := toMatch[i].name, toMatch[j].name;
    assert names[i] == a && names[j] == b;
    assert Points(toMatch[i], names, rk, g.edges) && Points(toMatch[j], names, rk, g.edges);
    assert a !in g.edges && Succ(g, a) == [];
    assert Succ(g, b) == [a];
    FlatMember(cs, a);
    k :| 0 <= k < |cs| && a in cs[k];
    var p :| 0 <= p < |cs[k]| && cs[k][p] == a;
    assert cs[k] in cs;
    assert Succ(g, cs[k][p]) == [];
    assert Succ(g, cs[k][0]) == [] || p > 0;
  }

  /**
   * The round's preference graph and its strongly connected components:
   * disjoint, within the pool, each a ring; some component is stray
   * exactly when the pool is `Stranded`; when every agent of the enclosing
   * pool ranks itself, no component is stray and the first one is a cycle.
   */
  method Components(toMatch: seq<Agent>, rk: Ranking, ghost pool: seq<Agent>) returns (g: Graph, cs: seq<seq<Node>>)
    requires Roster(toMatch) && (forall a :: a in toMatch ==> a in pool)
    ensures IsPreferenceGraph(toMatch, rk, g)
    ensures Separate(cs) && Within(cs, toMatch) && (forall c :: c in cs ==> Ring(g, c))
    ensures Ordered(g, cs) && forall n :: n in g.edges ==> n in Flat(cs)
    ensures pool != [] && ListsSelf(pool) ==>
      (forall j :: 0 <= j < |cs| ==> !Stray(g, cs[j])) && (toMatch != [] ==> cs != [] && Cycle(g, cs[0]))
    ensures (exists j :: 0 <= j < |cs| && Stray(g, cs[j])) <==> Stranded(toMatch, rk)
  {
    g := PreferenceGraph(toMatch, rk);
    cs := StronglyConnectedComponents(g);
    ComponentsFit(toMatch, rk, g, cs);
    assert Single(g);
    StrayMeans(toMatch, rk, g, cs);
    if pool != [] && ListsSelf(pool) {
      Progress(toMatch, pool, rk, g, cs);
    }
  }

  /** What a round that did not raise promises, from what building and settling its components leave. */
  lemma SettledFacts(pool: seq<Agent>, matched: map<Name, Name>, rk: Ranking, purge: bool, toMatch: seq<Agent>,
                     g: Graph, cs: seq<seq<Node>>, pool': seq<Agent>, matched': map<Name, Name>)
    requires Between(pool, matched) && Roster(toMatch) && (forall a :: a in toMatch ==> a in pool)
    requires |toMatch| <= |pool| && (|toMatch| == |pool| ==> toMatch == pool) && (!purge ==> toMatch == pool)
    requires forall n :: n in Names(toMatch) ==> n in Names(pool)
    requires IsPreferenceGraph(toMatch, rk, g)
    requires Separate(cs) && Ordered(g, cs) && forall n :: n in g.edges ==> n in Flat(cs)
    requires Settling(g, cs, |cs|, toMatch, matched, pool', matched')
    ensures Rounded(pool, matched, toMatch, pool', matched')
    ensures forall a :: a in pool' ==> a in toMatch
    ensures forall k :: k in matched' && k !in matched ==> RanksFirst(toMatch, rk, matched'[k], k)
    ensures Acyclic(toMatch, rk, pool', Depths(cs, pool'))
  {
    SettledRound(g, cs, pool, matched, purge, toMatch, pool', matched');
    PointedRanksFirst(toMatch, rk, g, matched, matched');
    StayersWait(toMatch, rk, g, cs, matched, pool', matched');
  }

  /**
   * One iteration of `while len(to_match) > 0`: the optional purge, the
   * preference graph, its components, and settling them. The round raises
   * exactly when its pool is `Stranded`; when every agent ranks itself it
   * cannot raise and someone leaves.
   */
  method Round(pool: seq<Agent>, matched: map<Name, Name>, rk: Ranking, purge: bool)
    returns (raised: bool, pool': seq<Agent>, matched': map<Name, Name>, ghost round: seq<Agent>,
             ghost depth: map<Name, nat>)
    requires Between(pool, matched)
    ensures raised <==> Stranded(round, rk)
    ensures pool != [] && ListsSelf(pool) ==> !raised && |pool'| < |pool|
    ensures !raised ==> Rounded(pool, matched, round, pool', matched')
    ensures round == if purge then Kept(pool, 0) else pool
    ensures Roster(round) && (forall a :: a in round ==> a in pool)
    ensures !raised ==> forall a :: a in pool' ==> a in round
    ensures !raised ==> forall k :: k in matched' && k !in matched ==> RanksFirst(round, rk, matched'[k], k)
    ensures !raised ==> Acyclic(round, rk, pool', depth)
  {
    var toMatch := pool;
    if purge {
      toMatch := Purge(pool);
      Purged(pool);
    }
    NamesWithin(toMatch, pool);
    var g, cs := Components(toMatch, rk, pool);
    round := toMatch;
    raised, pool', matched' := Settle(g, cs, toMatch, matched);
    if !raised {
      SettledFacts(pool, matched, rk, purge, toMatch, g, cs, pool', matched');
      depth := Depths(cs, pool');
    } else {
      depth := map[];
    }
  }

  /**
   * Agent `n` stayed in the pool `rest` that a round with pool `round`
   * leaves, and if it has a top choice that stayed too, that choice has a
   * lower `depth`: so no cycle of top choices stays behind.
   */
  ghost predicate Waits(round: seq<Agent>, rk: Ranking, rest: seq<Agent>, depth: map<Name, nat>, n: Name)
  {
    n in depth && forall k :: RanksFirst(round, rk, n, k) && k in Names(rest) ==> k in depth && depth[k] < depth[n]
  }

  /** Every agent a round leaves in the pool waits, in the sense of `Waits`. */
  ghost predicate Acyclic(round: seq<Agent>, rk: Ranking, rest: seq<Agent>, depth: map<Name, nat>)
  {
    forall n :: n in Names(rest) ==> Waits(round, rk, rest, depth, n)
  }

  /**
   * Membership, as a separate predicate so that quantifiers over the members
   * of a set closed under some step trigger on it rather than on `in`, which
   * every step would feed back.
   */
  ghost predicate Member(S: set<Name>, n: Name)
  {
    n in S
  }

  /** Every member of `S` ranks some member of `S` first in `round`. */
  ghost predicate ChoiceClosed(round: seq<Agent>, rk: Ranking, S: set<Name>)
  {
    forall n {:trigger Member(S, n)} :: Member(S, n) ==> exists k :: k in S && RanksFirst(round, rk, n, k)
  }

  /**
   * No cycle of top choices stays behind: a set of agents left in the pool in
   * which everyone ranks some member first is empty.
   */
  lemma StayersAcyclic(round: seq<Agent>, rk: Ranking, rest: seq<Agent>, depth: map<Name, nat>, S: set<Name>)
    requires Acyclic(round, rk, rest, depth)
    requires (forall n :: n in S ==> n in Names(rest)) && ChoiceClosed(round, rk, S)
    ensures S == {}
  {
    forall n {:trigger Member(S, n)} | Member(S, n) ensures n in depth && exists k :: k in S && k in depth && depth[k] < depth[n] {
      var k :| k in S && RanksFirst(round, rk, n, k);
      assert Waits(round, rk, rest, depth, n);
    }
    if S != {} {
      var n :| n in S;
      assert Member(S, n);
      Descending(depth, S, depth[n] + 1);
    }
  }

  /** Every member of `S` has a member of `S` of smaller depth. */
  ghost predicate Descends(depth: map<Name, nat>, S: set<Name>)
  {
    forall n {:trigger Member(S, n)} :: Member(S, n) ==> n in depth && exists k :: k in S && k in depth && depth[k] < depth[n]
  }

  /** Where depths descend, every depth is at least `d`, for every `d`. */
  lemma {:induction false} Descending(depth: map<Name, nat>, S: set<Name>, d: nat)
    requires Descends(depth, S)
    ensures forall n :: n in S ==> n in depth && depth[n] >= d
  {
    if d > 0 {
      Descending(depth, S, d - 1);
    }
    forall n | n in S ensures n in depth && depth[n] >= d {
      assert Member(S, n);
    }
  }

  /** The position of the first component holding `n`, or the number of components if none does. */
  ghost function Depth(cs: seq<seq<Node>>, n: Node): (d: nat)
    ensures d <= |cs| && (d < |cs| ==> n in cs[d]) && forall j :: 0 <= j < d ==> n !in cs[j]
    decreases |cs|
  {
    if cs == [] then 0 else if n in cs[0] then 0 else 1 + Depth(cs[1..], n)
  }

  /** Each name of `pool` with the position of its component. */
  ghost function Depths(cs: seq<seq<Node>>, pool: seq<Agent>): (depth: map<Name, nat>)
    ensures forall n :: n in depth <==> n in Names(pool)
    ensures forall n :: n in depth ==> depth[n] == Depth(cs, n)
  {
    map n | n in Names(pool) :: Depth(cs, n)
  }

  /**
   * After settling, an agent still in the pool sits in a component that is
   * no cycle, so a singleton; its top choice, if it has one, is another
   * agent, in an earlier component.
   */
  lemma StayersWait(toMatch: seq<Agent>, rk: Ranking, g: Graph, cs: seq<seq<Node>>,
                    matched: map<Name, Name>, pool': seq<Agent>, matched': map<Name, Name>)
    requires Roster(toMatch) && IsPreferenceGraph(toMatch, rk, g)
    requires Separate(cs) && Ordered(g, cs) && forall n :: n in g.edges ==> n in Flat(cs)
    requires Settling(g, cs, |cs|, toMatch, matched, pool', matched')
    ensures Acyclic(toMatch, rk, pool', Depths(cs, pool'))
  {
    var depth := Depths(cs, pool');
    forall n, k | n in Names(pool') && RanksFirst(toMatch, rk, n, k) && k in Names(pool')
      ensures depth[k] < depth[n]
    {
      StayerWaits(toMatch, rk, g, cs, pool', matched', n, k);
    }
  }

  lemma StayerWaits(toMatch: seq<Agent>, rk: Ranking, g: Graph, cs: seq<seq<Node>>,
                    pool': seq<Agent>, matched': map<Name, Name>, n: Name, k: Name)
    requires Roster(toMatch) && IsPreferenceGraph(toMatch, rk, g)
    requires forall j :: 0 <= j < |cs| ==> |cs[j]| > 0
    requires Ordered(g, cs) && forall n :: n in g.edges ==> n in Flat(cs)
    requires Matched(g, cs, |cs|, matched') && forall k :: k in matched' ==> k !in Names(pool')
    requires n in Names(pool') && RanksFirst(toMatch, rk, n, k) && k in Names(pool')
    ensures Depth(cs, k) < Depth(cs, n)
  {
    var i :| 0 <= i < |toMatch| && toMatch[i].name == n && toMatch[i].Valid() && Choice(toMatch[i], Names(toMatch), rk) == Some(k);
    assert Names(toMatch)[i] == n;
    assert Points(toMatch[i], Names(toMatch), rk, g.edges);
    assert n in g.edges && Succ(g, n) == [k];
    SingletonBefore(g, cs, matched', n, k);
  }

  /**
   * A node left unmatched after settling sits in a one-node component that
   * is no cycle, so its one successor `k` lies in an earlier component.
   */
  lemma SingletonBefore(g: Graph, cs: seq<seq<Node>>, matched': map<Name, Name>, n: Node, k: Node)
    requires forall j :: 0 <= j < |cs| ==> |cs[j]| > 0
    requires Ordered(g, cs) && Matched(g, cs, |cs|, matched')
    requires n in Flat(cs) && Succ(g, n) == [k] && n !in matched'
    ensures Depth(cs, k) < Depth(cs, n)
  {
    UnmatchedAlone(g, cs, matched', n);
    var j := Depth(cs, n);
    assert k != n by {
      assert Succ(g, cs[j][0]) != [cs[j][0]];
    }
    assert k in Succ(g, cs[j][0]);
    var i2 :| 0 <= i2 < j && k in cs[i2];
    assert Depth(cs, k) <= i2;
  }

  /** A node left unmatched after settling is alone in its component, which is no cycle. */
  lemma UnmatchedAlone(g: Graph, cs: seq<seq<Node>>, matched': map<Name, Name>, n: Node)
    requires forall j :: 0 <= j < |cs| ==> |cs[j]| > 0
    requires Matched(g, cs, |cs|, matched')
    requires n in Flat(cs) && n !in matched'
    ensures Depth(cs, n) < |cs| && cs[Depth(cs, n)] == [n] && !Cycle(g, cs[Depth(cs, n)])
  {
    FlatMember(cs, n);
    var i0 :| 0 <= i0 < |cs| && n in cs[i0];
    var j := Depth(cs, n);
    assert j <= i0 && n in cs[j];
    var p :| 0 <= p < |cs[j]| && cs[j][p] == n;
    assert cs[j][p] !in matched';
    assert !Rotates(matched', cs[j]);
    assert !Cycle(g, cs[j]);
    assert |cs[j]| == 1 && cs[j][0] == n;
  }

  /** When every agent ranks itself, every agent has a choice, so the preference graph is functional. */
  lemma AllChoosing(toMatch: seq<Agent>, pool: seq<Agent>, rk: Ranking, g: Graph)
    requires Roster(toMatch) && (forall a :: a in toMatch ==> a in pool) && ListsSelf(pool)
    requires IsPreferenceGraph(toMatch, rk, g)
    ensures Functional(g) && (toMatch != [] ==> g.order != [])
  {
    var names := Names(toMatch);
    forall i | 0 <= i < |toMatch| ensures Choice(toMatch[i], names, rk).Some? {
      assert toMatch[i] in toMatch;
      assert names[i] == toMatch[i].name;
      SelfListedChooses(toMatch[i], names, rk);
    }
    EveryoneChoosing(toMatch, rk, g);
  }

  /** When every agent ranks itself, no component is stray and, unless the pool emptied, the first is a cycle. */
  lemma Progress(toMatch: seq<Agent>, pool: seq<Agent>, rk: Ranking, g: Graph, cs: seq<seq<Node>>)
    requires Roster(toMatch) && (forall a :: a in toMatch ==> a in pool) && ListsSelf(pool)
    requires IsPreferenceGraph(toMatch, rk, g)
    requires forall c :: c in cs ==> |c| > 0
    requires forall n :: n in g.order ==> n in Flat(cs)
    requires forall n :: n in Flat(cs) ==> n in Universe(g)
    requires forall j, n :: 0 <= j < |cs| && n in cs[j] ==> n in Flat(cs)
    requires cs != [] ==> RootCycle(g, cs[0])
    ensures forall j :: 0 <= j < |cs| ==> !Stray(g, cs[j])
    ensures toMatch != [] ==> cs != [] && Cycle(g, cs[0])
  {
    AllChoosing(toMatch, pool, rk, g);
    FunctionalUniverse(g);
    forall j | 0 <= j < |cs| ensures !Stray(g, cs[j]) {
      assert cs[j][0] in cs[j];
    }
    if toMatch != [] {
      assert g.order[0] in Flat(cs);
      assert cs[0][0] in cs[0];
      RootCycleIsCycle(g, cs[0]);
    }
  }

  // ---------------------------------------------------------------------
  // The algorithm
  // ---------------------------------------------------------------------

  /**
   * How a run ends: with the `matched` dictionary; with the `KeyError` a
   * stray singleton raises; or never, because a round removed nobody and so
   * left the state (and hence every later round) exactly as it was.
   */
  datatype Outcome = Done(matched: map<Name, Name>) | Raised | Diverges

  /**
   * What the trading loop keeps between rounds, with `toMatch` and
   * `matched` its variables and `pools`, `rounds` and `depths` the ghost log
   * of the rounds so far (each round's pool before and after the purge, and
   * the depths of the agents it left behind):
   * - `toMatch` and `matched` split the names between them and `matched`
   *   is a permutation of input names; without the purge they hold every
   *   input name;
   * - the log is well formed (`Pooled`, `Logged`);
   * - every input name is matched, still in the pool, or was dropped by a
   *   purge, and a dropped name is neither matched nor back (`Covering`,
   *   `Clear`);
   * - every name that left round `r` is matched with an agent that ranks
   *   it first in that round and leaves with it, and every key of `matched`
   *   left in some round (`Departures`);
   * - every agent a round left in the pool waits on an agent of lower depth
   *   or on one that left: no cycle of top choices stays behind (`Waiting`).
   */
  ghost predicate Traded(agents: seq<Agent>, rk: Ranking, purge: bool, pools: seq<seq<Agent>>, rounds: seq<seq<Agent>>,
                         depths: seq<map<Name, nat>>, toMatch: seq<Agent>, matched: map<Name, Name>)
  {
    && Placed(agents, purge, pools, rounds, toMatch, matched)
    && Departures(rk, pools, rounds, toMatch, matched)
    && Waiting(rk, pools, rounds, depths, toMatch)
  }

  /**
   * The part of `Traded` about who is where: the pool and `matched` are
   * disjoint and drawn from the input, the logs describe the pools, and
   * every input name is matched, in the pool or dropped by a purge.
   */
  ghost predicate Placed(agents: seq<Agent>, purge: bool, pools: seq<seq<Agent>>, rounds: seq<seq<Agent>>,
                       toMatch: seq<Agent>, matched: map<Name, Name>)
  {
    && Between(toMatch, matched) && (forall a :: a in toMatch ==> a in agents)
    && (forall k :: k in matched ==> k in Names(agents))
    && (!purge ==> forall n :: n in matched || n in Names(toMatch) <==> n in Names(agents))
    && (ListsSelf(agents) ==> ListsSelf(toMatch))
    && Logged(agents, purge, rounds, toMatch, matched)
    && Pooled(agents, purge, pools, rounds)
    && Covering(agents, pools, rounds, toMatch, matched) && Clear(pools, rounds, toMatch, matched)
  }

  /**
   * `TTC` in all three revisions, ranking by `rk` and, when `purge` is set,
   * dropping agents with no neighbour left at the start of every round.
   * A run in which every agent ranks itself always returns. The ghost
   * `pools`, `rounds` and `depths` log each round's pool before and after
   * the purge and the depths of the agents it left behind. A run that ends
   * leaves `Traded` with an empty pool: it has matched exactly the input
   * names that no purge dropped, as a permutation; each round matched the
   * agents it removed with the agents ranking them first, and left behind
   * no cycle of top choices. A run raises exactly when a round is
   * `Stranded`; that round is then the last one logged, and no earlier
   * round was.
   */
  method Trade(agents: seq<Agent>, rk: Ranking, purge: bool)
    returns (out: Outcome, ghost pools: seq<seq<Agent>>, ghost rounds: seq<seq<Agent>>, ghost depths: seq<map<Name, nat>>)
    requires Roster(agents)
    ensures ListsSelf(agents) ==> out.Done?
    ensures Pooled(agents, purge, pools, rounds) && Nested(agents, purge, rounds) && |depths| == |rounds|
    ensures out.Raised? ==> rounds != []
    ensures forall r {:trigger Stranded(rounds[r], rk)} :: 0 <= r < |rounds| ==> (Stranded(rounds[r], rk) <==> out.Raised? && r == |rounds| - 1)
    ensures out.Done? ==> Traded(agents, rk, purge, pools, rounds, depths, [], out.matched)
    ensures out.Done? ==> Perm(out.matched) && forall k :: k in out.matched ==> k in Names(agents)
    ensures out.Done? && !purge ==> forall n :: n in out.matched <==> n in Names(agents)
  {
    var matched: map<Name, Name> := map[];
    var toMatch := agents;
    pools, rounds, depths := [], [], [];
    Begun(agents, rk, purge);
    while |toMatch| > 0
      invariant Traded(agents, rk, purge, pools, rounds, depths, toMatch, matched)
      invariant forall r {:trigger Stranded(rounds[r], rk)} :: 0 <= r < |rounds| ==> !Stranded(rounds[r], rk)
      decreases |toMatch|
    {
      Halted(agents, rk, purge, pools, rounds, depths, toMatch, matched);
      var raised, p, m, round, depth := Round(toMatch, matched, rk, purge);
      if raised {
        RaisedLogged(agents, rk, purge, pools, rounds, depths, toMatch, matched, round);
        return Raised, pools + [toMatch], rounds + [round], depths + [map[]];
      }
      if |p| == |toMatch| {
        return Diverges, pools, rounds, depths;
      }
      Advanced(agents, rk, purge, pools, rounds, depths, toMatch, matched, round, depth, p, m);
      Calm(rounds, round, rk);
      toMatch, matched, pools, rounds, depths := p, m, pools + [toMatch], rounds + [round], depths + [depth];
    }
    Halted(agents, rk, purge, pools, rounds, depths, toMatch, matched);
    Finished(agents, purge, toMatch, matched);
    out := Done(matched);
  }

  /** Logging a round that did not raise keeps every logged round free of strays. */
  lemma Calm(rounds: seq<seq<Agent>>, round: seq<Agent>, rk: Ranking)
    requires (forall r {:trigger Stranded(rounds[r], rk)} :: 0 <= r < |rounds| ==> !Stranded(rounds[r], rk)) && !Stranded(round, rk)
    ensures forall r :: 0 <= r < |rounds + [round]| ==> !Stranded((rounds + [round])[r], rk)
  {
    forall r | 0 <= r < |rounds| + 1 ensures !Stranded((rounds + [round])[r], rk) {
      if r < |rounds| {
        assert (rounds + [round])[r] == rounds[r];
      }
    }
  }

  /** Logging the round that raised keeps the logs well formed, with that round last. */
  lemma RaisedLogged(agents: seq<Agent>, rk: Ranking, purge: bool, pools: seq<seq<Agent>>, rounds: seq<seq<Agent>>,
                     depths: seq<map<Name, nat>>, toMatch: seq<Agent>, matched: map<Name, Name>, round: seq<Agent>)
    requires Traded(agents, rk, purge, pools, rounds, depths, toMatch, matched)
    requires round == (if purge then Kept(toMatch, 0) else toMatch)
    requires Roster(round) && (forall a :: a in round ==> a in toMatch)
    requires (forall r {:trigger Stranded(rounds[r], rk)} :: 0 <= r < |rounds| ==> !Stranded(rounds[r], rk)) && Stranded(round, rk)
    ensures Pooled(agents, purge, pools + [toMatch], rounds + [round]) && Nested(agents, purge, rounds + [round])
    ensures |depths + [map[]]| == |rounds + [round]|
    ensures forall r :: 0 <= r < |rounds| + 1 ==> (Stranded((rounds + [round])[r], rk) <==> r == |rounds|)
  {
    PoolExtended(agents, purge, pools, rounds, toMatch, round);
    NestedExtended(agents, purge, rounds, toMatch, round);
    forall r | 0 <= r < |rounds| + 1 ensures Stranded((rounds + [round])[r], rk) <==> r == |rounds| {
      if r < |rounds| {
        assert (rounds + [round])[r] == rounds[r];
      }
    }
  }

  /** What `Traded` says about the logs and the pool, wherever the loop stops. */
  lemma Halted(agents: seq<Agent>, rk: Ranking, purge: bool, pools: seq<seq<Agent>>, rounds: seq<seq<Agent>>,
               depths: seq<map<Name, nat>>, toMatch: seq<Agent>, matched: map<Name, Name>)
    requires Traded(agents, rk, purge, pools, rounds, depths, toMatch, matched)
    ensures Pooled(agents, purge, pools, rounds) && Nested(agents, purge, rounds) && |depths| == |rounds|
    ensures Between(toMatch, matched) && (ListsSelf(agents) ==> ListsSelf(toMatch))
    ensures forall k :: k in matched ==> k in Names(agents)
    ensures !purge ==> forall n :: n in matched || n in Names(toMatch) <==> n in Names(agents)
  {
  }

  /** Before the first round, with the whole input in the pool and nothing logged, `Traded` holds. */
  lemma Begun(agents: seq<Agent>, rk: Ranking, purge: bool)
    requires Roster(agents)
    ensures Traded(agents, rk, purge, [], [], [], agents, map[])
  {
  }

  /** A round that does not raise, logged, keeps everything the trading loop keeps. */
  lemma Advanced(agents: seq<Agent>, rk: Ranking, purge: bool, pools: seq<seq<Agent>>, rounds: seq<seq<Agent>>,
                 depths: seq<map<Name, nat>>, toMatch: seq<Agent>, matched: map<Name, Name>,
                 round: seq<Agent>, depth: map<Name, nat>, p: seq<Agent>, m: map<Name, Name>)
    requires Traded(agents, rk, purge, pools, rounds, depths, toMatch, matched)
    requires round == (if purge then Kept(toMatch, 0) else toMatch)
    requires Roster(round) && (forall a :: a in round ==> a in toMatch) && (forall a :: a in p ==> a in round)
    requires Rounded(toMatch, matched, round, p, m)
    requires forall k :: k in m && k !in matched ==> RanksFirst(round, rk, m[k], k)
    requires Acyclic(round, rk, p, depth)
    ensures Traded(agents, rk, purge, pools + [toMatch], rounds + [round], depths + [depth], p, m)
  {
    AdvancedKept(agents, purge, pools, rounds, toMatch, matched, round, p, m);
    RecordedDepartures(rk, pools, rounds, toMatch, matched, round, p, m);
    RecordedWaiting(rk, pools, rounds, depths, toMatch, round, depth, p);
    Assembled(agents, rk, purge, pools + [toMatch], rounds + [round], depths + [depth], p, m);
  }

  /** `Traded` is its three parts. */
  lemma Assembled(agents: seq<Agent>, rk: Ranking, purge: bool, pools: seq<seq<Agent>>, rounds: seq<seq<Agent>>,
                  depths: seq<map<Name, nat>>, toMatch: seq<Agent>, matched: map<Name, Name>)
    requires Placed(agents, purge, pools, rounds, toMatch, matched)
    requires Departures(rk, pools, rounds, toMatch, matched) && Waiting(rk, pools, rounds, depths, toMatch)
    ensures Traded(agents, rk, purge, pools, rounds, depths, toMatch, matched)
  {
  }

  /** One round of the `while` loop keeps `Placed`, with the pool and the purged pool logged. */
  lemma AdvancedKept(agents: seq<Agent>, purge: bool, pools: seq<seq<Agent>>, rounds: seq<seq<Agent>>,
                     toMatch: seq<Agent>, matched: map<Name, Name>, round: seq<Agent>, p: seq<Agent>, m: map<Name, Name>)
    requires Placed(agents, purge, pools, rounds, toMatch, matched)
    requires round == (if purge then Kept(toMatch, 0) else toMatch)
    requires Roster(round) && (forall a :: a in round ==> a in toMatch) && (forall a :: a in p ==> a in round)
    requires Rounded(toMatch, matched, round, p, m)
    ensures Placed(agents, purge, pools + [toMatch], rounds + [round], p, m)
  {
    Recorded(agents, purge, toMatch, matched, round, p, m);
    RecordedLog(agents, purge, pools, rounds, toMatch, matched, round, p, m);
    RecordedLeavers(agents, pools, rounds, toMatch, matched, round, p, m);
    assert ListsSelf(agents) ==> ListsSelf(p);
  }

  /** Once the pool is empty, `matched` is a permutation of input names, all of them without the purge. */
  lemma Finished(agents: seq<Agent>, purge: bool, toMatch: seq<Agent>, matched: map<Name, Name>)
    requires toMatch == [] && Between(toMatch, matched)
    requires forall k :: k in matched ==> k in Names(agents)
    requires !purge ==> forall n :: n in matched || n in Names(toMatch) <==> n in Names(agents)
    ensures Perm(matched) && forall k :: k in matched ==> k in Names(agents)
    ensures !purge ==> forall n :: n in matched <==> n in Names(agents)
  {
    assert Names(toMatch) == [];
  }

  /** A round that does not raise keeps the pools, `matched` and the names of the trading loop in step. */
  lemma Recorded(agents: seq<Agent>, purge: bool, toMatch: seq<Agent>, matched: map<Name, Name>,
                 round: seq<Agent>, p: seq<Agent>, m: map<Name, Name>)
    requires round == (if purge then Kept(toMatch, 0) else toMatch)
    requires forall a :: a in toMatch ==> a in agents
    requires forall k :: k in matched ==> k in Names(agents)
    requires !purge ==> forall n :: n in matched || n in Names(toMatch) <==> n in Names(agents)
    requires Rounded(toMatch, matched, round, p, m)
    ensures Between(p, m) && (forall a :: a in p ==> a in agents)
    ensures forall k :: k in m ==> k in Names(agents)
    ensures !purge ==> forall n :: n in m || n in Names(p) <==> n in Names(agents)
  {
    NamesWithin(toMatch, agents);
    if !purge {
      NoneLost(agents, toMatch, matched, p, m);
    }
  }

  /** A round that does not raise, logged, keeps the log of pools. */
  lemma RecordedLog(agents: seq<Agent>, purge: bool, pools: seq<seq<Agent>>, rounds: seq<seq<Agent>>,
                    toMatch: seq<Agent>, matched: map<Name, Name>, round: seq<Agent>, p: seq<Agent>, m: map<Name, Name>)
    requires round == (if purge then Kept(toMatch, 0) else toMatch)
    requires Roster(round) && (forall a :: a in round ==> a in toMatch) && (forall a :: a in p ==> a in round)
    requires forall a :: a in toMatch ==> a in agents
    requires Logged(agents, purge, rounds, toMatch, matched) && Pooled(agents, purge, pools, rounds)
    requires Rounded(toMatch, matched, round, p, m)
    ensures Logged(agents, purge, rounds + [round], p, m) && Pooled(agents, purge, pools + [toMatch], rounds + [round])
  {
    PoolExtended(agents, purge, pools, rounds, toMatch, round);
    Extended(agents, purge, rounds, toMatch, matched, round, p, m);
  }

  /** A round that does not raise, logged, keeps the account of who has left. */
  lemma RecordedLeavers(agents: seq<Agent>, pools: seq<seq<Agent>>, rounds: seq<seq<Agent>>,
                        toMatch: seq<Agent>, matched: map<Name, Name>, round: seq<Agent>, p: seq<Agent>, m: map<Name, Name>)
    requires |pools| == |rounds| && Between(toMatch, matched) && (forall a :: a in round ==> a in toMatch)
    requires Covering(agents, pools, rounds, toMatch, matched) && Clear(pools, rounds, toMatch, matched)
    requires Rounded(toMatch, matched, round, p, m)
    ensures Covering(agents, pools + [toMatch], rounds + [round], p, m) && Clear(pools + [toMatch], rounds + [round], p, m)
  {
    Covered(agents, pools, rounds, toMatch, matched, round, p, m);
    Gone(pools, rounds, toMatch, matched, round, p, m);
  }

  /** The pool that round `r` leaves behind: the next round's pool before its purge, or `rest` after the last round. */
  ghost function After(pools: seq<seq<Agent>>, r: nat, rest: seq<Agent>): seq<Agent>
  {
    if r + 1 < |pools| then pools[r + 1] else rest
  }

  /** Name `n` was in round `r`'s pool after the purge and is gone from the pool that round leaves. */
  ghost predicate LeftAt(pools: seq<seq<Agent>>, rounds: seq<seq<Agent>>, rest: seq<Agent>, r: nat, n: Name)
  {
    r < |rounds| && n in Names(rounds[r]) && n !in Names(After(pools, r, rest))
  }

  /**
   * Who left in which round: every name that leaves round `r` is matched
   * with an agent that ranks it first in that round and leaves with it (is
   * gone from the pool the round leaves); and every key of `matched` left
   * in some round.
   */
  ghost predicate Departures(rk: Ranking, pools: seq<seq<Agent>>, rounds: seq<seq<Agent>>,
                             toMatch: seq<Agent>, matched: map<Name, Name>)
  {
    && (forall r: nat, n :: LeftAt(pools, rounds, toMatch, r, n) ==>
          n in matched && RanksFirst(rounds[r], rk, matched[n], n) && matched[n] !in Names(After(pools, r, toMatch)))
    && (forall k :: k in matched ==> exists r: nat :: LeftAt(pools, rounds, toMatch, r, k))
  }

  /** Logging a round leaves who left in the earlier rounds as it was. */
  lemma LeftKept(pools: seq<seq<Agent>>, rounds: seq<seq<Agent>>, toMatch: seq<Agent>,
                 round: seq<Agent>, p: seq<Agent>, r: nat, n: Name)
    requires |pools| == |rounds| && r < |rounds|
    ensures After(pools + [toMatch], r, p) == After(pools, r, toMatch)
    ensures LeftAt(pools + [toMatch], rounds + [round], p, r, n) == LeftAt(pools, rounds, toMatch, r, n)
  {
    assert (rounds + [round])[r] == rounds[r];
    if r + 1 < |pools| {
      assert (pools + [toMatch])[r + 1] == pools[r + 1];
    } else {
      assert (pools + [toMatch])[r + 1] == toMatch;
    }
  }

  /** A name that leaves the round's pool is newly matched, with an agent that ranks it first and leaves too. */
  lemma LeftNow(rk: Ranking, toMatch: seq<Agent>, matched: map<Name, Name>,
                round: seq<Agent>, p: seq<Agent>, m: map<Name, Name>, n: Name)
    requires Between(toMatch, matched) && (forall a :: a in round ==> a in toMatch)
    requires Rounded(toMatch, matched, round, p, m)
    requires forall k :: k in m && k !in matched ==> RanksFirst(round, rk, m[k], k)
    requires n in Names(round) && n !in Names(p)
    ensures n in m && RanksFirst(round, rk, m[n], n) && m[n] in Names(round) && m[n] !in Names(p)
  {
    NamesWithin(round, toMatch);
    assert n !in matched;
    assert n in m;
    assert m[n] in m;
    RankerIn(round, rk, m[n], n);
  }

  /** An agent that ranks some name first in a round is one of the round's names. */
  lemma RankerIn(round: seq<Agent>, rk: Ranking, a: Name, k: Name)
    requires RanksFirst(round, rk, a, k)
    ensures a in Names(round)
  {
    var i :| 0 <= i < |round| && round[i].name == a && round[i].Valid() && Choice(round[i], Names(round), rk) == Some(k);
    assert Names(round)[i] == a;
  }

  /** A round that does not raise, logged, keeps the record of who left in which round. */
  lemma RecordedDepartures(rk: Ranking, pools: seq<seq<Agent>>, rounds: seq<seq<Agent>>,
                           toMatch: seq<Agent>, matched: map<Name, Name>, round: seq<Agent>, p: seq<Agent>, m: map<Name, Name>)
    requires |pools| == |rounds| && Between(toMatch, matched) && (forall a :: a in round ==> a in toMatch)
    requires Departures(rk, pools, rounds, toMatch, matched)
    requires Rounded(toMatch, matched, round, p, m)
    requires forall k :: k in m && k !in matched ==> RanksFirst(round, rk, m[k], k)
    ensures Departures(rk, pools + [toMatch], rounds + [round], p, m)
  {
    var ps, rs := pools + [toMatch], rounds + [round];
    forall r: nat, n | LeftAt(ps, rs, p, r, n)
      ensures n in m && RanksFirst(rs[r], rk, m[n], n) && m[n] !in Names(After(ps, r, p))
    {
      LeftThen(rk, pools, rounds, toMatch, matched, round, p, m, r, n);
    }
    forall k | k in m ensures exists r: nat :: LeftAt(ps, rs, p, r, k) {
      KeyLeft(rk, pools, rounds, toMatch, matched, round, p, m, k);
    }
  }

  /** A name that left round `r`, this round or an earlier one, is matched with an agent that ranks it first then. */
  lemma LeftThen(rk: Ranking, pools: seq<seq<Agent>>, rounds: seq<seq<Agent>>, toMatch: seq<Agent>, matched: map<Name, Name>,
                 round: seq<Agent>, p: seq<Agent>, m: map<Name, Name>, r: nat, n: Name)
    requires |pools| == |rounds| && Between(toMatch, matched) && (forall a :: a in round ==> a in toMatch)
    requires Departures(rk, pools, rounds, toMatch, matched)
    requires Rounded(toMatch, matched, round, p, m)
    requires forall k :: k in m && k !in matched ==> RanksFirst(round, rk, m[k], k)
    requires LeftAt(pools + [toMatch], rounds + [round], p, r, n)
    ensures n in m && RanksFirst((rounds + [round])[r], rk, m[n], n) && m[n] !in Names(After(pools + [toMatch], r, p))
  {
    if r < |rounds| {
      LeftEarlier(rk, pools, rounds, toMatch, matched, round, p, m, r, n);
    } else {
      assert After(pools + [toMatch], r, p) == p && (rounds + [round])[r] == round;
      LeftNow(rk, toMatch, matched, round, p, m, n);
    }
  }

  /** A name that left an earlier round is still matched as it was. */
  lemma LeftEarlier(rk: Ranking, pools: seq<seq<Agent>>, rounds: seq<seq<Agent>>, toMatch: seq<Agent>, matched: map<Name, Name>,
                    round: seq<Agent>, p: seq<Agent>, m: map<Name, Name>, r: nat, n: Name)
    requires |pools| == |rounds| && r < |rounds|
    requires Departures(rk, pools, rounds, toMatch, matched)
    requires forall k :: k in matched ==> k in m && m[k] == matched[k]
    requires LeftAt(pools + [toMatch], rounds + [round], p, r, n)
    ensures n in m && RanksFirst((rounds + [round])[r], rk, m[n], n) && m[n] !in Names(After(pools + [toMatch], r, p))
  {
    LeftKept(pools, rounds, toMatch, round, p, r, n);
    assert LeftAt(pools, rounds, toMatch, r, n);
    assert (rounds + [round])[r] == rounds[r];
  }

  /** Every key of `matched` after the round left in this round or an earlier one. */
  lemma KeyLeft(rk: Ranking, pools: seq<seq<Agent>>, rounds: seq<seq<Agent>>, toMatch: seq<Agent>, matched: map<Name, Name>,
                round: seq<Agent>, p: seq<Agent>, m: map<Name, Name>, k: Name)
    requires |pools| == |rounds| && Between(toMatch, matched)
    requires Departures(rk, pools, rounds, toMatch, matched)
    requires Rounded(toMatch, matched, round, p, m)
    requires k in m
    ensures exists r: nat :: LeftAt(pools + [toMatch], rounds + [round], p, r, k)
  {
    if k in matched {
      KeyLeftEarlier(rk, pools, rounds, toMatch, matched, round, p, k);
    } else {
      assert k in Names(round) && k !in Names(p);
      KeyLeftNow(pools, rounds, toMatch, round, p, k);
    }
  }

  lemma KeyLeftEarlier(rk: Ranking, pools: seq<seq<Agent>>, rounds: seq<seq<Agent>>, toMatch: seq<Agent>,
                       matched: map<Name, Name>, round: seq<Agent>, p: seq<Agent>, k: Name)
    requires |pools| == |rounds| && Departures(rk, pools, rounds, toMatch, matched) && k in matched
    ensures exists r: nat :: LeftAt(pools + [toMatch], rounds + [round], p, r, k)
  {
    var r: nat :| LeftAt(pools, rounds, toMatch, r, k);
    LeftKept(pools, rounds, toMatch, round, p, r, k);
    assert LeftAt(pools + [toMatch], rounds + [round], p, r, k);
  }

  lemma KeyLeftNow(pools: seq<seq<Agent>>, rounds: seq<seq<Agent>>, toMatch: seq<Agent>,
                   round: seq<Agent>, p: seq<Agent>, k: Name)
    requires |pools| == |rounds| && k in Names(round) && k !in Names(p)
    ensures LeftAt(pools + [toMatch], rounds + [round], p, |rounds|, k)
  {
    assert After(pools + [toMatch], |rounds|, p) == p && (rounds + [round])[|rounds|] == round;
  }

  /**
   * Every agent left in the pool by round `r` (the pool after the last round
   * being `rest`) waits, in the sense of `Waits`, with the depths logged for
   * that round.
   */
  ghost predicate Waiting(rk: Ranking, pools: seq<seq<Agent>>, rounds: seq<seq<Agent>>,
                          depths: seq<map<Name, nat>>, rest: seq<Agent>)
  {
    |depths| == |rounds| && forall r: nat :: r < |rounds| ==> Acyclic(rounds[r], rk, After(pools, r, rest), depths[r])
  }

  /**
   * Run-level form of `StayersAcyclic`: in every logged round, no cycle of
   * that round's top choices is among the agents the round leaves in the pool.
   */
  lemma NoCycleStays(rk: Ranking, pools: seq<seq<Agent>>, rounds: seq<seq<Agent>>, depths: seq<map<Name, nat>>,
                     rest: seq<Agent>, r: nat, S: set<Name>)
    requires Waiting(rk, pools, rounds, depths, rest) && r < |rounds|
    requires (forall n :: n in S ==> n in Names(After(pools, r, rest))) && ChoiceClosed(rounds[r], rk, S)
    ensures S == {}
  {
    StayersAcyclic(rounds[r], rk, After(pools, r, rest), depths[r], S);
  }

  /** Logging a round whose stayers wait keeps `Waiting`. */
  lemma RecordedWaiting(rk: Ranking, pools: seq<seq<Agent>>, rounds: seq<seq<Agent>>, depths: seq<map<Name, nat>>,
                        toMatch: seq<Agent>, round: seq<Agent>, depth: map<Name, nat>, p: seq<Agent>)
    requires |pools| == |rounds| && Waiting(rk, pools, rounds, depths, toMatch)
    requires Acyclic(round, rk, p, depth)
    ensures Waiting(rk, pools + [toMatch], rounds + [round], depths + [depth], p)
  {
    var ps, rs, ds := pools + [toMatch], rounds + [round], depths + [depth];
    forall r: nat | r < |rs| ensures Acyclic(rs[r], rk, After(ps, r, p), ds[r]) {
      if r < |rounds| {
        LeftKept(pools, rounds, toMatch, round, p, r, 0);
        assert rs[r] == rounds[r] && ds[r] == depths[r];
      } else {
        assert After(ps, r, p) == p && rs[r] == round && ds[r] == depth;
      }
    }
  }

  /** Without the purge, a round loses no input name. */
  lemma NoneLost(agents: seq<Agent>, toMatch: seq<Agent>, matched: map<Name, Name>, p: seq<Agent>, m: map<Name, Name>)
    requires forall n :: n in matched || n in Names(toMatch) <==> n in Names(agents)
    requires Rounded(toMatch, matched, toMatch, p, m)
    ensures forall n :: n in m || n in Names(p) <==> n in Names(agents)
  {
  }

  /** Name `n` was in a round's pool and the purge took it out. */
  ghost predicate Dropped(pool: seq<Agent>, round: seq<Agent>, n: Name)
  {
    n in Names(pool) && n !in Names(round)
  }

  /**
   * The pools of the rounds so far, after the purge: rosters of input
   * agents, each drawn from the one before, the first one the (purged)
   * input.
   */
  ghost predicate Nested(agents: seq<Agent>, purge: bool, rounds: seq<seq<Agent>>)
  {
    && (forall r :: 0 <= r < |rounds| ==> Roster(rounds[r]) && forall a :: a in rounds[r] ==> a in agents)
    && (forall r :: 0 < r < |rounds| ==> forall a :: a in rounds[r] ==> a in rounds[r - 1])
    && (rounds != [] ==> rounds[0] == if purge then Kept(agents, 0) else agents)
  }

  /** The rounds so far are `Nested`, and the current pool is the input or drawn from the last round. */
  ghost predicate Logged(agents: seq<Agent>, purge: bool, rounds: seq<seq<Agent>>,
                         toMatch: seq<Agent>, matched: map<Name, Name>)
  {
    && Nested(agents, purge, rounds)
    && (rounds == [] ==> toMatch == agents && matched == map[])
    && (rounds != [] ==> (forall a :: a in toMatch ==> a in rounds[|rounds| - 1]) && Sub(toMatch, rounds[|rounds| - 1]))
  }

  /** Recording a round that does not raise keeps the log. */
  lemma Extended(agents: seq<Agent>, purge: bool, rounds: seq<seq<Agent>>,
                 toMatch: seq<Agent>, matched: map<Name, Name>, round: seq<Agent>, p: seq<Agent>, m: map<Name, Name>)
    requires Logged(agents, purge, rounds, toMatch, matched) && (forall a :: a in toMatch ==> a in agents)
    requires round == (if purge then Kept(toMatch, 0) else toMatch)
    requires Roster(round) && (forall a :: a in round ==> a in toMatch) && (forall a :: a in p ==> a in round)
    requires Sub(p, round)
    ensures Logged(agents, purge, rounds + [round], p, m)
  {
    NestedExtended(agents, purge, rounds, toMatch, round);
    assert (rounds + [round])[|rounds|] == round;
  }

  /** Appending a round drawn from the current pool keeps the rounds `Nested`. */
  lemma NestedExtended(agents: seq<Agent>, purge: bool, rounds: seq<seq<Agent>>, toMatch: seq<Agent>, round: seq<Agent>)
    requires Nested(agents, purge, rounds) && (forall a :: a in toMatch ==> a in agents)
    requires rounds == [] ==> toMatch == agents
    requires rounds != [] ==> forall a :: a in toMatch ==> a in rounds[|rounds| - 1]
    requires round == (if purge then Kept(toMatch, 0) else toMatch)
    requires Roster(round) && (forall a :: a in round ==> a in toMatch)
    ensures Nested(agents, purge, rounds + [round])
  {
    var rs := rounds + [round];
    assert rs[|rounds|] == round;
    if rounds == [] {
      assert rs == [round];
    } else {
      assert rs[0] == rounds[0];
    }
    forall r | 0 <= r < |rs| ensures Roster(rs[r]) && forall a :: a in rs[r] ==> a in agents {
      if r < |rounds| {
        assert rs[r] == rounds[r];
      }
    }
    forall r | 0 < r < |rs| ensures forall a :: a in rs[r] ==> a in rs[r - 1] {
      if r < |rounds| {
        assert rs[r] == rounds[r] && rs[r - 1] == rounds[r - 1];
      } else {
        assert rs[r - 1] == rounds[|rounds| - 1];
      }
    }
  }

  /**
   * The pools of the rounds so far before the purge: as many as rounds, the
   * first one the input, each one's purge giving that round's pool, and each
   * what is left of the round before's pool, in its order.
   */
  ghost predicate Pooled(agents: seq<Agent>, purge: bool, pools: seq<seq<Agent>>, rounds: seq<seq<Agent>>)
  {
    && |pools| == |rounds|
    && (pools != [] ==> pools[0] == agents)
    && (forall r :: 0 <= r < |rounds| ==> rounds[r] == if purge then Kept(pools[r], 0) else pools[r])
    && (forall r :: 0 < r < |rounds| ==> forall a :: a in pools[r] ==> a in rounds[r - 1])
    && (forall r :: 0 < r < |rounds| ==> Sub(pools[r], rounds[r - 1]))
  }

  /** Logging a round's pool before its purge keeps the pool log. */
  lemma PoolExtended(agents: seq<Agent>, purge: bool, pools: seq<seq<Agent>>, rounds: seq<seq<Agent>>,
                     toMatch: seq<Agent>, round: seq<Agent>)
    requires Pooled(agents, purge, pools, rounds)
    requires rounds == [] ==> toMatch == agents
    requires rounds != [] ==> (forall a :: a in toMatch ==> a in rounds[|rounds| - 1]) && Sub(toMatch, rounds[|rounds| - 1])
    requires round == (if purge then Kept(toMatch, 0) else toMatch)
    ensures Pooled(agents, purge, pools + [toMatch], rounds + [round])
  {
    var ps, rs := pools + [toMatch], rounds + [round];
    assert ps[|rounds|] == toMatch && rs[|rounds|] == round;
    if pools == [] {
      assert ps == [agents];
    } else {
      assert ps[0] == pools[0];
    }
    forall r | 0 <= r < |rs| ensures rs[r] == if purge then Kept(ps[r], 0) else ps[r] {
      if r < |rounds| {
        assert rs[r] == rounds[r] && ps[r] == pools[r];
      }
    }
    LinkedExtended(pools, rounds, toMatch, round);
    SubsExtended(pools, rounds, toMatch, round);
  }

  /** Logging a pool drawn from the last round's pool keeps every logged pool drawn from the round before. */
  lemma LinkedExtended(pools: seq<seq<Agent>>, rounds: seq<seq<Agent>>, toMatch: seq<Agent>, round: seq<Agent>)
    requires |pools| == |rounds|
    requires forall r :: 0 < r < |rounds| ==> forall a :: a in pools[r] ==> a in rounds[r - 1]
    requires rounds != [] ==> forall a :: a in toMatch ==> a in rounds[|rounds| - 1]
    ensures forall r :: 0 < r < |rounds| + 1 ==> forall a :: a in (pools + [toMatch])[r] ==> a in (rounds + [round])[r - 1]
  {
    var ps, rs := pools + [toMatch], rounds + [round];
    forall r | 0 < r < |rs| ensures forall a :: a in ps[r] ==> a in rs[r - 1] {
      if r < |rounds| {
        assert ps[r] == pools[r] && rs[r - 1] == rounds[r - 1];
      } else {
        assert ps[r] == toMatch && rs[r - 1] == rounds[|rounds| - 1];
      }
    }
  }

  /** Logging what the last round left of its pool keeps every logged pool what the round before left. */
  lemma SubsExtended(pools: seq<seq<Agent>>, rounds: seq<seq<Agent>>, toMatch: seq<Agent>, round: seq<Agent>)
    requires |pools| == |rounds|
    requires forall r :: 0 < r < |rounds| ==> Sub(pools[r], rounds[r - 1])
    requires rounds != [] ==> Sub(toMatch, rounds[|rounds| - 1])
    ensures forall r :: 0 < r < |rounds| + 1 ==> Sub((pools + [toMatch])[r], (rounds + [round])[r - 1])
  {
    var ps, rs := pools + [toMatch], rounds + [round];
    forall r | 0 < r < |rs| ensures Sub(ps[r], rs[r - 1]) {
      if r < |rounds| {
        assert ps[r] == pools[r] && rs[r - 1] == rounds[r - 1];
      } else {
        assert ps[r] == toMatch && rs[r - 1] == rounds[|rounds| - 1];
      }
    }
  }

  /**
   * Who has left so far: every input name is matched, still in the pool or
   * dropped by the purge of some round.
   */
  ghost predicate Covering(agents: seq<Agent>, pools: seq<seq<Agent>>, rounds: seq<seq<Agent>>,
                           toMatch: seq<Agent>, matched: map<Name, Name>)
  {
    forall n :: n in Names(agents) ==>
      n in matched || n in Names(toMatch) || exists r :: 0 <= r < |rounds| && r < |pools| && Dropped(pools[r], rounds[r], n)
  }

  /** A name the purge dropped is neither matched nor back in the pool. */
  ghost predicate Clear(pools: seq<seq<Agent>>, rounds: seq<seq<Agent>>, toMatch: seq<Agent>, matched: map<Name, Name>)
  {
    forall r, n :: 0 <= r < |rounds| && r < |pools| && Dropped(pools[r], rounds[r], n) ==> n !in matched && n !in Names(toMatch)
  }

  /** After a round, every input name is still matched, in the pool or dropped. */
  lemma Covered(agents: seq<Agent>, pools: seq<seq<Agent>>, rounds: seq<seq<Agent>>,
                toMatch: seq<Agent>, matched: map<Name, Name>, round: seq<Agent>, p: seq<Agent>, m: map<Name, Name>)
    requires |pools| == |rounds| && Covering(agents, pools, rounds, toMatch, matched)
    requires Rounded(toMatch, matched, round, p, m)
    ensures Covering(agents, pools + [toMatch], rounds + [round], p, m)
  {
    forall n | n in Names(agents) && n !in m && n !in Names(p)
      ensures exists r :: 0 <= r < |rounds + [round]| && Dropped((pools + [toMatch])[r], (rounds + [round])[r], n)
    {
      CoveredAt(pools, rounds, toMatch, round, n);
    }
  }

  /** An input name neither matched nor in the round's pool was dropped in an earlier round or in this one. */
  lemma CoveredAt(pools: seq<seq<Agent>>, rounds: seq<seq<Agent>>, toMatch: seq<Agent>, round: seq<Agent>, n: Name)
    requires |pools| == |rounds| && n !in Names(round)
    requires n in Names(toMatch) || exists r :: 0 <= r < |rounds| && Dropped(pools[r], rounds[r], n)
    ensures exists r :: 0 <= r < |rounds| + 1 && Dropped((pools + [toMatch])[r], (rounds + [round])[r], n)
  {
    var ps, rs := pools + [toMatch], rounds + [round];
    if n in Names(toMatch) {
      assert ps[|rounds|] == toMatch && rs[|rounds|] == round;
      assert Dropped(ps[|rounds|], rs[|rounds|], n);
    } else {
      var r :| 0 <= r < |rounds| && Dropped(pools[r], rounds[r], n);
      assert ps[r] == pools[r] && rs[r] == rounds[r];
      assert Dropped(ps[r], rs[r], n);
    }
  }

  /** After a round, no dropped name is matched or in the pool. */
  lemma Gone(pools: seq<seq<Agent>>, rounds: seq<seq<Agent>>,
             toMatch: seq<Agent>, matched: map<Name, Name>, round: seq<Agent>, p: seq<Agent>, m: map<Name, Name>)
    requires |pools| == |rounds| && Clear(pools, rounds, toMatch, matched)
    requires Between(toMatch, matched) && (forall a :: a in round ==> a in toMatch)
    requires Rounded(toMatch, matched, round, p, m)
    ensures Clear(pools + [toMatch], rounds + [round], p, m)
  {
    forall r, n | 0 <= r < |rounds + [round]| && Dropped((pools + [toMatch])[r], (rounds + [round])[r], n)
      ensures n !in m && n !in Names(p)
    {
      GoneAt(pools, rounds, toMatch, matched, round, p, m, r, n);
    }
  }

  /** A name dropped in round `r`, the newest included, is neither matched nor left in the pool after the round. */
  lemma GoneAt(pools: seq<seq<Agent>>, rounds: seq<seq<Agent>>, toMatch: seq<Agent>, matched: map<Name, Name>,
               round: seq<Agent>, p: seq<Agent>, m: map<Name, Name>, r: nat, n: Name)
    requires |pools| == |rounds| && r < |rounds| + 1
    requires Clear(pools, rounds, toMatch, matched) && Between(toMatch, matched)
    requires forall a :: a in round ==> a in toMatch
    requires Rounded(toMatch, matched, round, p, m)
    requires Dropped((pools + [toMatch])[r], (rounds + [round])[r], n)
    ensures n !in m && n !in Names(p)
  {
    NamesWithin(round, toMatch);
    if r < |rounds| {
      assert (pools + [toMatch])[r] == pools[r] && (rounds + [round])[r] == rounds[r];
    } else {
      assert (pools + [toMatch])[r] == toMatch && (rounds + [round])[r] == round;
    }
    assert n !in matched && n !in Names(round);
  }



  /** `TTC` of the newest revision: ranked by expected utility, isolated agents dropped each round. */
  method TopTradingCycles(agents: seq<Agent>)
    returns (out: Outcome, ghost pools: seq<seq<Agent>>, ghost rounds: seq<seq<Agent>>, ghost depths: seq<map<Name, nat>>)
    requires Roster(agents)
    ensures ListsSelf(agents) ==> out.Done?
    ensures Pooled(agents, true, pools, rounds) && Nested(agents, true, rounds) && |depths| == |rounds|
    ensures out.Raised? ==> rounds != []
    ensures forall r {:trigger Stranded(rounds[r], ExpectedUtility)} :: 0 <= r < |rounds| ==> (Stranded(rounds[r], ExpectedUtility) <==> out.Raised? && r == |rounds| - 1)
    ensures out.Done? ==> Traded(agents, ExpectedUtility, true, pools, rounds, depths, [], out.matched)
    ensures out.Done? ==> Perm(out.matched) && forall k :: k in out.matched ==> k in Names(agents)
  {
    out, pools, rounds, depths := Trade(agents, ExpectedUtility, true);
  }

  /** `TTC` of the two earlier revisions: ranked by utility, nobody dropped, so everyone is matched. */
  method TopTradingCyclesByUtility(agents: seq<Agent>)
    returns (out: Outcome, ghost pools: seq<seq<Agent>>, ghost rounds: seq<seq<Agent>>, ghost depths: seq<map<Name, nat>>)
    requires Roster(agents)
    ensures ListsSelf(agents) ==> out.Done?
    ensures Pooled(agents, false, pools, rounds) && Nested(agents, false, rounds) && |depths| == |rounds|
    ensures out.Raised? ==> rounds != []
    ensures forall r {:trigger Stranded(rounds[r], Utility)} :: 0 <= r < |rounds| ==> (Stranded(rounds[r], Utility) <==> out.Raised? && r == |rounds| - 1)
    ensures out.Done? ==> Traded(agents, Utility, false, pools, rounds, depths, [], out.matched)
    ensures out.Done? ==> Perm(out.matched) && forall n :: n in out.matched <==> n in Names(agents)
  {
    out, pools, rounds, depths := Trade(agents, Utility, false);
  }
}
