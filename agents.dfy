/** Sequence helpers shared by the whole model. */
module Seqs {
  /** No element occurs twice. */
  ghost predicate Distinct<T>(s: seq<T>) {
    forall i, j :: 0 <= i < j < |s| ==> s[i] != s[j]
  }

  /** `r` is `s` with some elements left out, the rest kept in their order. */
  ghost predicate Sub<T>(r: seq<T>, s: seq<T>)
    decreases |s|
  {
    if r == [] then true
    else if s == [] then false
    else if r[|r| - 1] == s[|s| - 1] then Sub(r[..|r| - 1], s[..|s| - 1])
    else Sub(r, s[..|s| - 1])
  }

  /** Every list is a sub-list of itself. */
  lemma {:induction false} SubRefl<T>(s: seq<T>)
    ensures Sub(s, s)
    decreases |s|
  {
    if s != [] {
      SubRefl(s[..|s| - 1]);
    }
  }

  /** A sub-list holds only elements of the whole. */
  lemma {:induction false} SubMembers<T>(r: seq<T>, s: seq<T>)
    requires Sub(r, s)
    ensures forall x :: x in r ==> x in s
    decreases |s|
  {
    if r != [] {
      var r', s' := r[..|r| - 1], s[..|s| - 1];
      assert r == r' + [r[|r| - 1]] && s == s' + [s[|s| - 1]];
      if r[|r| - 1] == s[|s| - 1] {
        SubMembers(r', s');
      } else {
        SubMembers(r, s');
      }
    }
  }

  /** Leaving out the last element of a sub-list keeps a sub-list. */
  lemma {:induction false} SubInit<T>(r: seq<T>, s: seq<T>)
    requires Sub(r, s) && r != []
    ensures Sub(r[..|r| - 1], s)
    decreases |s|
  {
    var r', s' := r[..|r| - 1], s[..|s| - 1];
    if r[|r| - 1] == s[|s| - 1] {
      if r' != [] && r'[|r'| - 1] == s[|s| - 1] {
        SubInit(r', s');
      }
    } else {
      SubInit(r, s');
      if r' != [] && r'[|r'| - 1] == s[|s| - 1] {
        SubInit(r', s');
      }
    }
  }

  /** A sub-list of a sub-list is a sub-list. */
  lemma {:induction false} SubTrans<T>(a: seq<T>, b: seq<T>, c: seq<T>)
    requires Sub(a, b) && Sub(b, c)
    ensures Sub(a, c)
    decreases |c|
  {
    if a != [] && b != [] {
      var a', b', c' := a[..|a| - 1], b[..|b| - 1], c[..|c| - 1];
      if b[|b| - 1] == c[|c| - 1] {
        if a[|a| - 1] == b[|b| - 1] {
          SubTrans(a', b', c');
        } else {
          SubTrans(a, b', c');
        }
      } else {
        SubTrans(a, b, c');
        if a[|a| - 1] == c[|c| - 1] {
          SubInit(a, c');
        }
      }
    }
  }

  /** A sub-list stays a sub-list when both gain the same first element. */
  lemma {:induction false} SubCons<T>(x: T, r: seq<T>, s: seq<T>)
    requires Sub(r, s)
    ensures Sub([x] + r, [x] + s)
    decreases |s|
  {
    if s == [] {
      assert [x] + r == [x] + s;
      SubRefl([x] + s);
    } else {
      var s' := s[..|s| - 1];
      assert ([x] + s)[..|s|] == [x] + s';
      if r == [] {
        SubCons(x, r, s');
      } else {
        var r' := r[..|r| - 1];
        assert ([x] + r)[..|r|] == [x] + r';
        if r[|r| - 1] == s[|s| - 1] {
          SubCons(x, r', s');
        } else {
          SubCons(x, r, s');
        }
      }
    }
  }

  /** A sub-list stays a sub-list when only the whole gains a first element. */
  lemma {:induction false} SubSkip<T>(x: T, r: seq<T>, s: seq<T>)
    requires Sub(r, s)
    ensures Sub(r, [x] + s)
    decreases |s|
  {
    if r != [] {
      var r', s' := r[..|r| - 1], s[..|s| - 1];
      assert ([x] + s)[..|s|] == [x] + s';
      if r[|r| - 1] == s[|s| - 1] {
        SubSkip(x, r', s');
      } else {
        SubSkip(x, r, s');
      }
    }
  }

  /**
   * A list without repeats has one sub-list per set of elements: two
   * sub-lists holding the same elements are equal, order included.
   */
  lemma {:induction false} SubUnique<T>(r1: seq<T>, r2: seq<T>, s: seq<T>)
    requires Distinct(s) && Sub(r1, s) && Sub(r2, s)
    requires forall x :: x in r1 <==> x in r2
    ensures r1 == r2
    decreases |s|
  {
    if s != [] {
      var l, s' := s[|s| - 1], s[..|s| - 1];
      assert Distinct(s') by {
        forall i, j | 0 <= i < j < |s'| ensures s'[i] != s'[j] {
          assert s'[i] == s[i] && s'[j] == s[j];
        }
      }
      assert l !in s' by {
        forall i | 0 <= i < |s'| ensures s'[i] != l {
          assert s'[i] == s[i];
        }
      }
      SubLast(r1, s);
      SubLast(r2, s);
      if l in r1 {
        var r1', r2' := r1[..|r1| - 1], r2[..|r2| - 1];
        assert r1 == r1' + [l] && r2 == r2' + [l];
        SubMembers(r1', s');
        SubMembers(r2', s');
        forall x ensures x in r1' <==> x in r2' {
          if x in r1' {
            assert x != l && x in r1 && x in r2;
            assert x in r2' + [l];
          }
          if x in r2' {
            assert x != l && x in r2 && x in r1;
            assert x in r1' + [l];
          }
        }
        SubUnique(r1', r2', s');
      } else {
        SubUnique(r1, r2, s');
      }
    }
  }

  /**
   * The last element of a non-empty list ends a sub-list exactly when the
   * sub-list holds it, provided it occurs nowhere earlier in the list.
   */
  lemma SubLast<T>(r: seq<T>, s: seq<T>)
    requires Sub(r, s) && s != [] && s[|s| - 1] !in s[..|s| - 1]
    ensures s[|s| - 1] in r ==> r != [] && r[|r| - 1] == s[|s| - 1] && Sub(r[..|r| - 1], s[..|s| - 1])
    ensures s[|s| - 1] !in r ==> Sub(r, s[..|s| - 1])
  {
    if r != [] && r[|r| - 1] != s[|s| - 1] {
      SubMembers(r, s[..|s| - 1]);
    }
  }
}

/**
 * The agent as the matching engine sees it. The agent class itself is not
 * part of this model; an agent is a value with a name, a type, an age
 * (sojourn), a deadline, and its two preference maps `match_util` and
 * `match_fail_prob`, whose keys are kept in insertion order.
 */
module Agents {
  import opened Seqs

  type Name = nat

  datatype Option<T> = None | Some(value: T)

  datatype Agent = Agent(
    name: Name,
    kind: int,
    sojourn: nat,
    timeToCritical: int,
    keys: seq<Name>,
    util: map<Name, real>,
    prob: map<Name, real>)
  {
    /** Both maps are keyed by exactly the names of `keys`, each listed once. */
    ghost predicate Valid() {
      && Distinct(keys)
      && (forall n :: n in util <==> n in keys)
      && (forall n :: n in prob <==> n in keys)
    }

    /** An agent is critical once its sojourn reaches its deadline. */
    predicate IsCritical() {
      sojourn >= timeToCritical
    }

    /** The counterparts with a positive match probability, in key order. */
    function Neighbors(): seq<Name> {
      Likely(keys, prob)
    }

    /** The neighbours are exactly the keys with a positive probability. */
    lemma NeighborsMeans()
      ensures forall n :: n in Neighbors() <==> n in keys && n in prob && prob[n] > 0.0
    {
      LikelyMeans(keys, prob);
    }

    /** One period passes for the agent. */
    function Update(): (a: Agent)
      ensures a.sojourn == sojourn + 1
      ensures a.(sojourn := sojourn) == this
    {
      this.(sojourn := sojourn + 1)
    }

    /** Records (or overwrites) the entries for counterpart `other`. */
    function AddNewToMap(other: Name, u: real, p: real): (a: Agent)
      requires Valid()
      ensures a.Valid()
      ensures a.util == util[other := u] && a.prob == prob[other := p]
      ensures a.name == name && a.kind == kind && a.sojourn == sojourn
      ensures a.timeToCritical == timeToCritical
      ensures other in keys ==> a.keys == keys
      ensures other !in keys ==> a.keys == keys + [other]
    {
      var ks := if other in keys then keys else keys + [other];
      this.(keys := ks, util := util[other := u], prob := prob[other := p])
    }
  }

  /** The names of `ks` to which `prob` gives a positive probability, in order. */
  function Likely(ks: seq<Name>, prob: map<Name, real>): seq<Name> {
    if ks == [] then []
    else
      var head := if ks[0] in prob && prob[ks[0]] > 0.0 then [ks[0]] else [];
      head + Likely(ks[1..], prob)
  }

  lemma {:induction false} LikelyMeans(ks: seq<Name>, prob: map<Name, real>)
    ensures forall n :: n in Likely(ks, prob) <==> n in ks && n in prob && prob[n] > 0.0
  {
    if ks != [] {
      LikelyMeans(ks[1..], prob);
      assert ks == [ks[0]] + ks[1..];
    }
  }

  /** The names of a list of agents, in list order. */
  function Names(s: seq<Agent>): (r: seq<Name>)
    ensures |r| == |s|
    ensures forall i :: 0 <= i < |s| ==> r[i] == s[i].name
  {
    if s == [] then [] else [s[0].name] + Names(s[1..])
  }

  /** Every listed agent is well formed and no two share a name. */
  ghost predicate Roster(s: seq<Agent>) {
    && (forall i, j :: 0 <= i < j < |s| ==> s[i].name != s[j].name)
    && (forall a :: a in s ==> a.Valid())
  }

  /** A name is listed exactly when some agent carries it. */
  lemma InNames(s: seq<Agent>, n: Name)
    ensures n in Names(s) <==> exists i :: 0 <= i < |s| && s[i].name == n
  {
    if n in Names(s) {
      var i :| 0 <= i < |s| && Names(s)[i] == n;
    }
  }

  /** A well-formed agent whose name is not yet listed can join the front of a roster. */
  lemma RosterCons(x: Agent, t: seq<Agent>)
    requires Roster(t) && x.Valid()
    requires forall a :: a in t ==> a.name != x.name
    ensures Roster([x] + t)
  {
    var r := [x] + t;
    forall i, j | 0 <= i < j < |r| ensures r[i].name != r[j].name {
      assert r[j] == t[j - 1];
      if i > 0 {
        assert r[i] == t[i - 1];
      }
    }
  }

  /** The tail of a roster is a roster that does not list its head's name. */
  lemma RosterTail(s: seq<Agent>)
    requires Roster(s) && s != []
    ensures Roster(s[1..])
    ensures forall a :: a in s[1..] ==> a.name != s[0].name
  {
    var t := s[1..];
    forall a | a in t ensures a in s && a.name != s[0].name {
      var q :| 0 <= q < |t| && t[q] == a;
      assert s[q + 1] == a;
    }
  }

  /** The names of a sub-collection of agents are names of the whole. */
  lemma NamesWithin(small: seq<Agent>, big: seq<Agent>)
    requires forall a :: a in small ==> a in big
    ensures forall n :: n in Names(small) ==> n in Names(big)
  {
    forall n | n in Names(small) ensures n in Names(big) {
      InNames(small, n);
      var i :| 0 <= i < |small| && small[i].name == n;
      assert small[i] in small;
      var q :| 0 <= q < |big| && big[q] == small[i];
      assert Names(big)[q] == n;
    }
  }

  /** A sequence holding the name of each agent, position by position, is their `Names`. */
  lemma NamesPointwise(s: seq<Agent>, r: seq<Name>)
    requires |r| == |s| && forall i :: 0 <= i < |s| ==> r[i] == s[i].name
    ensures Names(s) == r
  {
    assert forall i :: 0 <= i < |s| ==> Names(s)[i] == r[i];
  }

  /** Removing the agent at `i` removes its name at `i`. */
  lemma NamesRemoveAt(s: seq<Agent>, i: nat)
    requires i < |s|
    ensures Names(s[..i] + s[i + 1..]) == Names(s)[..i] + Names(s)[i + 1..]
  {
    var t, ns := s[..i] + s[i + 1..], Names(s);
    var r := ns[..i] + ns[i + 1..];
    forall k | 0 <= k < |t| ensures r[k] == t[k].name {
      if k < i {
        assert t[k] == s[k] && r[k] == ns[k];
      } else {
        assert t[k] == s[k + 1] && r[k] == ns[k + 1];
      }
    }
    NamesPointwise(t, r);
  }
}
