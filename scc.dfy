/**
 * Tarjan's strongly-connected-components algorithm, as the three
 * matching-algorithm files implement it (`strongly_connected_components`):
 * an index counter, a stack, and the `index`/`lowlinks` dictionaries,
 * updated by a recursive `strongconnect`.
 */
module Scc {
  import opened Seqs

  type Node = nat

  /** `dict<node, list<node>>`: `order` is the dictionary's key order. */
  datatype Graph = Graph(order: seq<Node>, edges: map<Node, seq<Node>>)

  /** The successors of `n`; a node that is not a key has none. */
  function Succ(g: Graph, n: Node): seq<Node>
  {
    if n in g.edges then g.edges[n] else []
  }

  /** Every node the algorithm can ever meet: keys and listed successors. */
  ghost function Universe(g: Graph): set<Node>
  {
    (set n | n in g.order) + (set m, n | m in g.edges && n in g.edges[m] :: n)
  }

  /** Every key has exactly one successor, and that successor is a key. */
  ghost predicate Functional(g: Graph)
  {
    && (forall n :: n in g.order <==> n in g.edges)
    && (forall n :: n in g.edges ==> |g.edges[n]| == 1 && g.edges[n][0] in g.edges)
  }

  /** A component that is a cycle: two or more nodes, or one node pointing at itself. */
  ghost predicate Cycle(g: Graph, c: seq<Node>)
  {
    |c| >= 2 || (|c| == 1 && Succ(g, c[0]) == [c[0]])
  }

  /** Two or more nodes, or one node none of whose successors lies elsewhere. */
  ghost predicate RootCycle(g: Graph, c: seq<Node>)
  {
    |c| >= 2 || (|c| == 1 && forall t :: t in Succ(g, c[0]) ==> t == c[0])
  }

  /** In a graph where every node has one successor, a root cycle of a node of the graph is a cycle. */
  lemma RootCycleIsCycle(g: Graph, c: seq<Node>)
    requires Functional(g) && RootCycle(g, c) && |c| > 0 && c[0] in Universe(g)
    ensures Cycle(g, c)
  {
    if |c| == 1 {
      assert Succ(g, c[0])[0] in Succ(g, c[0]);
    }
  }

  /** The components laid end to end. */
  function Flat(cs: seq<seq<Node>>): seq<Node>
  {
    if cs == [] then [] else Flat(cs[..|cs| - 1]) + cs[|cs| - 1]
  }

  lemma FlatAppend(cs: seq<seq<Node>>, c: seq<Node>)
    ensures Flat(cs + [c]) == Flat(cs) + c
  {
    assert (cs + [c])[..|cs|] == cs;
  }

  function Min(a: nat, b: nat): nat
  {
    if a <= b then a else b
  }

  /**
   * The search's variables: `index_counter`, `stack`, `lowlinks`, `index`
   * and `result`, which `strongconnect` updates in place.
   */
  datatype State = State(counter: nat, stack: seq<Node>, lowlinks: map<Node, nat>,
    index: map<Node, nat>, result: seq<seq<Node>>)

  /** Indices are fresh, lowlinks never exceed them, and the stack is ordered by index. */
  ghost predicate IndexOk(g: Graph, counter: nat, stack: seq<Node>, lowlinks: map<Node, nat>, index: map<Node, nat>)
  {
    && index.Keys == lowlinks.Keys
    && index.Keys <= Universe(g)
    && (forall v :: v in index ==> index[v] < counter && lowlinks[v] <= index[v])
    && (forall i :: 0 <= i < |stack| ==> stack[i] in index)
    && (forall i, j :: 0 <= i < j < |stack| ==> index[stack[i]] < index[stack[j]])
    && (forall i :: 0 <= i < |stack| ==> lowlinks[stack[i]] >= index[stack[0]])
  }

  /** Every visited node is on the stack or in exactly one emitted component. */
  ghost predicate ResultOk(g: Graph, stack: seq<Node>, index: map<Node, nat>, result: seq<seq<Node>>,
    emitted: seq<Node>)
  {
    && emitted == Flat(result)
    && (forall c :: c in result ==> |c| > 0)
    && Distinct(emitted)
    && (forall n :: n in emitted ==> n !in stack)
    && (forall n :: n in index <==> n in emitted || n in stack)
    && Ordered(g, result)
  }

  /**
   * Components come out in reverse topological order, as far as single
   * nodes go: every successor of a one-node component other than the node
   * itself lies in a component emitted earlier.
   */
  ghost predicate Ordered(g: Graph, result: seq<seq<Node>>)
  {
    forall j, t :: 0 <= j < |result| && |result[j]| == 1 && t in Succ(g, result[j][0]) && t != result[j][0] ==>
      exists i :: 0 <= i < j && t in result[i]
  }

  /** The first component of an ordered result is closed: two or more nodes, or one with no successor but itself. */
  lemma OrderedFirst(g: Graph, result: seq<seq<Node>>)
    requires Ordered(g, result) && result != [] && |result[0]| > 0
    ensures RootCycle(g, result[0])
  {
    if |result[0]| == 1 {
      forall t | t in Succ(g, result[0][0]) ensures t == result[0][0] {
      }
    }
  }

  /** A node of the components laid end to end lies in one of them. */
  lemma {:induction false} FlatMember(cs: seq<seq<Node>>, n: Node)
    requires n in Flat(cs)
    ensures exists i :: 0 <= i < |cs| && n in cs[i]
  {
    var init := cs[..|cs| - 1];
    if n in Flat(init) {
      FlatMember(init, n);
      var i :| 0 <= i < |init| && n in init[i];
      assert cs[i] == init[i];
    } else {
      assert n in cs[|cs| - 1];
    }
  }

  /** `c` lists the suffix `s[p..]` from its top down. */
  ghost predicate PoppedFrom(s: seq<Node>, p: nat, c: seq<Node>)
  {
    p <= |s| && |c| == |s| - p && forall k :: 0 <= k < |c| ==> c[k] == s[|s| - 1 - k]
  }

  lemma PoppedElements(s: seq<Node>, p: nat, c: seq<Node>)
    requires PoppedFrom(s, p, c)
    ensures forall n :: n in c <==> n in s[p..]
    ensures forall n :: n in s <==> n in s[..p] || n in c
  {
    forall n ensures n in c <==> n in s[p..] {
      if n in c {
        var k :| 0 <= k < |c| && c[k] == n;
        assert s[p..][|s| - 1 - k - p] == n;
      }
      if n in s[p..] {
        var k :| 0 <= k < |s| - p && s[p..][k] == n;
        assert c[|s| - 1 - p - k] == n;
      }
    }
    forall n | n in s ensures n in s[..p] || n in c {
      var k :| 0 <= k < |s| && s[k] == n;
      if k >= p { assert s[p..][k - p] == n; } else { assert s[..p][k] == n; }
    }
  }

  lemma DistinctConcat(a: seq<Node>, b: seq<Node>)
    requires Distinct(a) && Distinct(b)
    requires forall n :: n in a ==> n !in b
    ensures Distinct(a + b)
  {
    forall i, j | 0 <= i < j < |a + b| ensures (a + b)[i] != (a + b)[j] {
      if i < |a| && j >= |a| {
        assert (a + b)[i] in a && (a + b)[j] in b;
      }
    }
  }

  /** Indices increase along the stack, so a popped suffix has no repeats. */
  lemma PoppedDistinct(counter: nat, s: seq<Node>, p: nat, lowlinks: map<Node, nat>, index: map<Node, nat>,
      g: Graph, c: seq<Node>)
    requires IndexOk(g, counter, s, lowlinks, index)
    requires PoppedFrom(s, p, c)
    ensures Distinct(c)
    ensures forall i, j :: 0 <= i < p && p <= j < |s| ==> s[i] != s[j]
  {
    forall i, j | 0 <= i < j < |c| ensures c[i] != c[j] {
      assert index[s[|s| - 1 - j]] < index[s[|s| - 1 - i]];
    }
    forall i, j | 0 <= i < p && p <= j < |s| ensures s[i] != s[j] {
      assert index[s[i]] < index[s[j]];
    }
  }

  /**
   * A root alone on top of the stack has no successor on the stack but
   * itself, so each of its other successors was emitted before.
   */
  lemma {:induction false} SingletonPointsBack(g: Graph, counter: nat, s: seq<Node>,
      lowlinks: map<Node, nat>, index: map<Node, nat>, result: seq<seq<Node>>, emitted: seq<Node>)
    requires IndexOk(g, counter, s, lowlinks, index) && ResultOk(g, s, index, result, emitted)
    requires |s| > 0
    requires var v := s[|s| - 1];
      lowlinks[v] == index[v] &&
      forall t :: t in Succ(g, v) ==> t in index && (t in s ==> lowlinks[v] <= index[t])
    ensures var v := s[|s| - 1]; forall t :: t in Succ(g, v) && t != v ==> t in emitted
  {
  }

  lemma PopKeepsIndexOk(g: Graph, counter: nat, s: seq<Node>, p: nat,
      lowlinks: map<Node, nat>, index: map<Node, nat>)
    requires IndexOk(g, counter, s, lowlinks, index) && p <= |s|
    ensures IndexOk(g, counter, s[..p], lowlinks, index)
  {
  }

  /** Emitting the popped nodes as one more component keeps the partition. */
  lemma {:induction false} PopKeepsResultOk(g: Graph, s: seq<Node>, p: nat,
      index: map<Node, nat>, result: seq<seq<Node>>, emitted: seq<Node>, c: seq<Node>)
    requires ResultOk(g, s, index, result, emitted)
    requires p < |s| && Distinct(c)
    requires forall n :: n in c <==> n in s[p..]
    requires forall n :: n in s <==> n in s[..p] || n in c
    requires forall i, j :: 0 <= i < p && p <= j < |s| ==> s[i] != s[j]
    requires |c| == 1 ==> forall t :: t in Succ(g, c[0]) && t != c[0] ==> t in emitted
    ensures ResultOk(g, s[..p], index, result + [c], emitted + c)
  {
    var r := result + [c];
    forall j, t | 0 <= j < |r| && |r[j]| == 1 && t in Succ(g, r[j][0]) && t != r[j][0]
      ensures exists i :: 0 <= i < j && t in r[i]
    {
      if j < |result| {
        var i :| 0 <= i < j && t in result[i];
        assert r[i] == result[i];
      } else {
        FlatMember(result, t);
        var i :| 0 <= i < |result| && t in result[i];
        assert r[i] == result[i];
      }
    }
    FlatAppend(result, c);
    DistinctConcat(emitted, c);
    assert forall x :: x in r ==> |x| > 0 by {
      forall x | x in r ensures |x| > 0 {
        if x != c { assert x in result; } else { assert s[p..][0] in c; }
      }
    }
    assert forall n :: n in emitted + c ==> n !in s[..p] by {
      forall n | n in emitted + c ensures n !in s[..p] {
        if n in c {
          var j :| p <= j < |s| && s[j] == n;
          assert forall i :: 0 <= i < p ==> s[..p][i] != n;
        }
      }
    }
  }

  /** Popping a root's part of the stack keeps every invariant. */
  lemma {:induction false} PopKeepsInvariants(g: Graph, counter: nat, s: seq<Node>, p: nat,
      lowlinks: map<Node, nat>, index: map<Node, nat>, result: seq<seq<Node>>, emitted: seq<Node>,
      c: seq<Node>)
    requires IndexOk(g, counter, s, lowlinks, index) && ResultOk(g, s, index, result, emitted)
    requires p < |s| && PoppedFrom(s, p, c)
    requires lowlinks[s[p]] == index[s[p]]
    requires forall t :: t in Succ(g, s[p]) ==> t in index && (t in s ==> lowlinks[s[p]] <= index[t])
    ensures IndexOk(g, counter, s[..p], lowlinks, index)
    ensures ResultOk(g, s[..p], index, result + [c], emitted + c)
  {
    PoppedElements(s, p, c);
    PoppedDistinct(counter, s, p, lowlinks, index, g, c);
    PopKeepsIndexOk(g, counter, s, p, lowlinks, index);
    if |c| == 1 {
      assert p == |s| - 1;
      SingletonPointsBack(g, counter, s, lowlinks, index, result, emitted);
    }
    PopKeepsResultOk(g, s, p, index, result, emitted, c);
  }

  /** Giving an unvisited node the next index and pushing it keeps the index invariant. */
  lemma PushKeepsIndexOk(g: Graph, counter: nat, s: seq<Node>, lowlinks: map<Node, nat>,
      index: map<Node, nat>, v: Node)
    requires IndexOk(g, counter, s, lowlinks, index)
    requires v !in index && v in Universe(g)
    ensures IndexOk(g, counter + 1, s + [v], lowlinks[v := counter], index[v := counter])
  {
    var s' := s + [v];
    var index' := index[v := counter];
    var lowlinks' := lowlinks[v := counter];
    assert forall i :: 0 <= i < |s'| ==> s'[i] in index' by {
      forall i | 0 <= i < |s'| ensures s'[i] in index' {
        if i < |s| { assert s'[i] == s[i]; }
      }
    }
    assert forall i, j :: 0 <= i < j < |s'| ==> index'[s'[i]] < index'[s'[j]] by {
      forall i, j | 0 <= i < j < |s'| ensures index'[s'[i]] < index'[s'[j]] {
        assert s'[i] == s[i] && s[i] != v;
        if j < |s| { assert s'[j] == s[j] && s[j] != v; }
      }
    }
    assert forall i :: 0 <= i < |s'| ==> lowlinks'[s'[i]] >= index'[s'[0]] by {
      forall i | 0 <= i < |s'| ensures lowlinks'[s'[i]] >= index'[s'[0]] {
        if |s| > 0 {
          assert s'[0] == s[0] && s[0] != v;
          if i < |s| { assert s'[i] == s[i] && s[i] != v; }
        }
      }
    }
  }

  /** Pushing an unvisited node keeps the partition into stack and components. */
  lemma PushKeepsResultOk(g: Graph, s: seq<Node>, index: map<Node, nat>, result: seq<seq<Node>>,
      emitted: seq<Node>, v: Node, k: nat)
    requires ResultOk(g, s, index, result, emitted) && v !in index
    ensures ResultOk(g, s + [v], index[v := k], result, emitted)
  {
  }

  /** Lowering a lowlink, but not below the index at the bottom of the stack, keeps the invariant. */
  lemma LowerKeepsIndexOk(g: Graph, counter: nat, s: seq<Node>, lowlinks: map<Node, nat>,
      index: map<Node, nat>, v: Node, m: nat)
    requires IndexOk(g, counter, s, lowlinks, index)
    requires v in index && m <= lowlinks[v] && (|s| > 0 ==> m >= index[s[0]])
    ensures IndexOk(g, counter, s, lowlinks[v := m], index)
  {
  }

  /** No node on the stack has a smaller index than the bottom one. */
  lemma AboveBase(g: Graph, counter: nat, s: seq<Node>, lowlinks: map<Node, nat>,
      index: map<Node, nat>, w: Node)
    requires IndexOk(g, counter, s, lowlinks, index) && w in s
    ensures index[w] >= index[s[0]]
  {
    var j :| 0 <= j < |s| && s[j] == w;
    if j > 0 { assert index[s[0]] < index[s[j]]; }
  }

  /**
   * From `a` to `b` the search only moved forward: visited nodes keep their
   * index and (except `v`) their lowlink, new nodes got fresh indices, the
   * stack kept its bottom part and gained only new nodes, and no component
   * was taken back.
   */
  ghost predicate Grows(a: State, b: State, v: Node)
  {
    && a.counter <= b.counter
    && (forall n :: n in a.index ==> n in b.index && b.index[n] == a.index[n])
    && (forall n :: n in a.lowlinks && n != v ==> n in b.lowlinks && b.lowlinks[n] == a.lowlinks[n])
    && (forall n :: n in b.index && n !in a.index ==> a.counter <= b.index[n])
    && |a.stack| <= |b.stack| && (forall k :: 0 <= k < |a.stack| ==> b.stack[k] == a.stack[k])
    && (forall k :: |a.stack| <= k < |b.stack| ==> b.stack[k] !in a.index)
    && |a.result| <= |b.result| && (forall k :: 0 <= k < |a.result| ==> b.result[k] == a.result[k])
  }

  /** Numbering and pushing a fresh node only extends the state. */
  lemma GrowsPush(a: State, v: Node)
    requires v !in a.index
    ensures Grows(a, State(a.counter + 1, a.stack + [v], a.lowlinks[v := a.counter],
                           a.index[v := a.counter], a.result), v)
  {
  }

  lemma GrowsTrans(a: State, b: State, c: State, v: Node)
    requires Grows(a, b, v) && Grows(b, c, v)
    ensures Grows(a, c, v)
  {
  }

  /** A call that started on an unvisited node `w` left every earlier lowlink alone. */
  lemma GrowsWiden(a: State, b: State, w: Node, v: Node)
    requires Grows(a, b, w) && w !in a.lowlinks
    ensures Grows(a, b, v)
  {
  }

  /** The successors `succs[..i]` are visited, and those still on the stack bound `low`. */
  ghost predicate SuccsOk(succs: seq<Node>, i: nat, stack: seq<Node>, index: map<Node, nat>, low: nat)
  {
    i <= |succs| && forall j :: 0 <= j < i ==> succs[j] in index && (succs[j] in stack ==> low <= index[succs[j]])
  }

  /** Visiting `succs[i]` extends `SuccsOk` by one. */
  lemma SuccsOkStep(a: State, b: State, v: Node, succs: seq<Node>, i: nat)
    requires i < |succs| && v in a.lowlinks && v in b.lowlinks && Grows(a, b, v)
    requires SuccsOk(succs, i, a.stack, a.index, a.lowlinks[v])
    requires b.lowlinks[v] <= a.lowlinks[v]
    requires succs[i] in b.index && (succs[i] in b.stack ==> b.lowlinks[v] <= b.index[succs[i]])
    ensures SuccsOk(succs, i + 1, b.stack, b.index, b.lowlinks[v])
  {
    forall j | 0 <= j < i && succs[j] in b.stack
      ensures succs[j] in a.stack
    {
      var k :| 0 <= k < |b.stack| && b.stack[k] == succs[j];
      assert k < |a.stack| && a.stack[k] == b.stack[..|a.stack|][k];
    }
  }

  /** Once every successor is visited, `SuccsOk` speaks of every successor. */
  lemma SuccsOkAll(succs: seq<Node>, stack: seq<Node>, index: map<Node, nat>, low: nat)
    requires SuccsOk(succs, |succs|, stack, index, low)
    ensures forall s :: s in succs ==> s in index && (s in stack ==> low <= index[s])
  {
    forall s | s in succs ensures s in index && (s in stack ==> low <= index[s]) {
      var j :| 0 <= j < |succs| && succs[j] == s;
    }
  }

  /** Popping back to the stack height of `a` and emitting one component still moves forward from `a`. */
  lemma GrowsPop(a: State, b: State, v: Node, c: seq<Node>)
    requires Grows(a, b, v)
    ensures Grows(a, b.(stack := b.stack[..|a.stack|], result := b.result + [c]), v)
  {
  }

  /** Popping back to the height the stack had at `a` returns it to exactly `a`'s stack. */
  lemma RootReturns(a: State, b: State, v: Node, p: nat, c: seq<Node>)
    requires Grows(a, b, v) && p == |a.stack| && p < |b.stack| && b.stack[p] == v
    requires a.stack != [] ==> a.stack[0] in a.index && a.index[a.stack[0]] < a.counter
    requires v in b.index && b.index[v] == a.counter && v in b.lowlinks && b.lowlinks[v] == b.index[v]
    ensures var b' := b.(stack := b.stack[..p], result := b.result + [c]);
      && Grows(a, b', v) && b'.stack == a.stack
      && (a.stack != [] ==> b'.lowlinks[v] >= b'.index[b'.stack[0]])
  {
    GrowsPop(a, b, v, c);
    assert b.stack[..p] == a.stack;
  }

  /** A node that is not a root keeps a lowlink no lower than the bottom index. */
  lemma NonRootBound(g: Graph, st: State, p: nat)
    requires IndexOk(g, st.counter, st.stack, st.lowlinks, st.index) && p < |st.stack|
    ensures st.lowlinks[st.stack[p]] >= st.index[st.stack[0]]
  {
  }

  /** Once the stack is empty, `result` holds every visited node exactly once. */
  lemma Emptied(g: Graph, st: State, emitted: seq<Node>)
    requires Inv(g, st, emitted) && st.stack == []
    ensures forall c :: c in st.result ==> |c| > 0
    ensures Distinct(Flat(st.result))
    ensures forall n :: n in st.index <==> n in Flat(st.result)
    ensures forall n :: n in Flat(st.result) ==> n in Universe(g)
    ensures st.result != [] ==> RootCycle(g, st.result[0])
    ensures Ordered(g, st.result)
    ensures Single(g) ==> forall c :: c in st.result ==> Ring(g, c)
  {
    if st.result != [] {
      assert st.result[0] in st.result;
      OrderedFirst(g, st.result);
    }
  }

  /** Every node visited after `a` and by `b` has all its successors visited by `b`. */
  ghost predicate ClosedFrom(g: Graph, a: map<Node, nat>, b: map<Node, nat>)
  {
    forall n, t :: n in b && n !in a && t in Succ(g, n) ==> t in b
  }

  /** Every successor of a visited node is visited. */
  ghost predicate Closed(g: Graph, index: map<Node, nat>)
  {
    forall n, t :: n in index && t in Succ(g, n) ==> t in index
  }

  lemma ClosedTrans(g: Graph, a: map<Node, nat>, b: map<Node, nat>, c: map<Node, nat>)
    requires a.Keys <= b.Keys <= c.Keys
    requires ClosedFrom(g, a, b) && ClosedFrom(g, b, c)
    ensures ClosedFrom(g, a, c)
  {
  }

  /** `v` was numbered first, and every node visited since, `v` included, has its successors visited. */
  lemma ClosedAfterVisit(g: Graph, before: map<Node, nat>, pushed: map<Node, nat>, after: map<Node, nat>, v: Node)
    requires pushed.Keys == before.Keys + {v} && pushed.Keys <= after.Keys
    requires ClosedFrom(g, pushed, after)
    requires forall t :: t in Succ(g, v) ==> t in after
    ensures ClosedFrom(g, before, after)
  {
  }

  lemma ClosedGrow(g: Graph, a: map<Node, nat>, b: map<Node, nat>)
    requires a.Keys <= b.Keys && Closed(g, a) && ClosedFrom(g, a, b)
    ensures Closed(g, b)
  {
  }

  // ---------------------------------------------------------------------
  // Graphs where every key has one successor, as preference graphs do
  // ---------------------------------------------------------------------

  /** Every key has exactly one successor. */
  ghost predicate Single(g: Graph)
  {
    forall n :: n in g.edges ==> |g.edges[n]| == 1
  }

  /** Up the stack, each node's one successor is the node above it. */
  ghost predicate Path(g: Graph, stack: seq<Node>)
  {
    forall i {:trigger Succ(g, stack[i])} :: 0 <= i < |stack| - 1 ==> Succ(g, stack[i]) == [stack[i + 1]]
  }

  /**
   * A component of two or more nodes that runs against the edges: each
   * node's one successor is the node before it, and the first node's is
   * the last.
   */
  ghost predicate Ring(g: Graph, c: seq<Node>)
  {
    |c| >= 2 ==>
      && (forall k {:trigger Succ(g, c[k])} :: 0 < k < |c| ==> Succ(g, c[k]) == [c[k - 1]])
      && Succ(g, c[0]) == [c[|c| - 1]]
  }

  /**
   * The lowlink of the node at stack position `j` once its successor loop
   * is over, when every key has one successor: the smaller of its index and
   * the lowlink of the node above it, if any; else the smaller of its index
   * and its successor's index, if that successor is on the stack; else its
   * own index.
   */
  ghost predicate Linked(g: Graph, st: State, j: int)
  {
    && 0 <= j < |st.stack|
    && st.stack[j] in st.index && st.stack[j] in st.lowlinks
    && var v := st.stack[j];
       if j + 1 < |st.stack| then
         st.stack[j + 1] in st.lowlinks && st.lowlinks[v] == Min(st.index[v], st.lowlinks[st.stack[j + 1]])
       else if Succ(g, v) != [] && Succ(g, v)[0] in st.stack then
         Succ(g, v)[0] in st.index && st.lowlinks[v] == Min(st.index[v], st.index[Succ(g, v)[0]])
       else
         st.lowlinks[v] == st.index[v]
  }

  /** The nodes above stack position `p` have finished their calls without being roots. */
  ghost predicate FinishedAbove(g: Graph, st: State, p: int)
  {
    forall j {:trigger Linked(g, st, j)} :: p < j < |st.stack| ==>
      Linked(g, st, j) && st.lowlinks[st.stack[j]] < st.index[st.stack[j]]
  }

  lemma FinishedAt(g: Graph, st: State, p: int, j: int)
    requires FinishedAbove(g, st, p) && p < j < |st.stack|
    ensures Linked(g, st, j) && st.lowlinks[st.stack[j]] < st.index[st.stack[j]]
  {
    assert Linked(g, st, j);
  }

  /** Below a top node whose lowlink comes from `t`, every linked node's lowlink comes from `t` too. */
  lemma {:induction false} LinkedDown(g: Graph, st: State, j: nat, t: Node)
    requires IndexOk(g, st.counter, st.stack, st.lowlinks, st.index)
    requires j < |st.stack| && t in st.index
    requires forall i :: j <= i < |st.stack| - 1 ==> Linked(g, st, i)
    requires var u := st.stack[|st.stack| - 1]; st.lowlinks[u] == Min(st.index[u], st.index[t])
    decreases |st.stack| - j
    ensures st.lowlinks[st.stack[j]] == Min(st.index[st.stack[j]], st.index[t])
  {
    if j < |st.stack| - 1 {
      LinkedDown(g, st, j + 1, t);
      assert Linked(g, st, j);
    }
  }

  /**
   * A root whose call is over, with finished non-roots above it: the top
   * node's successor is the root itself.
   */
  lemma {:induction false} TopPointsAtRoot(g: Graph, st: State, p: nat)
    requires Single(g) && IndexOk(g, st.counter, st.stack, st.lowlinks, st.index)
    requires p < |st.stack| - 1 && Linked(g, st, p) && FinishedAbove(g, st, p)
    requires st.lowlinks[st.stack[p]] == st.index[st.stack[p]]
    ensures Succ(g, st.stack[|st.stack| - 1]) == [st.stack[p]]
  {
    var s, last := st.stack, |st.stack| - 1;
    var u := s[last];
    assert Linked(g, st, last) && st.lowlinks[u] < st.index[u];
    assert Succ(g, u) != [] && Succ(g, u)[0] in s;
    var t := Succ(g, u)[0];
    assert st.lowlinks[u] == Min(st.index[u], st.index[t]);
    var jt :| 0 <= jt < |s| && s[jt] == t;
    forall i | p <= i < last ensures Linked(g, st, i) {
      if i > p {
        assert Linked(g, st, i) && st.lowlinks[s[i]] < st.index[s[i]];
      }
    }
    LinkedDown(g, st, p, t);
    if jt < p {
      assert false;
    } else if jt > p {
      FinishedAt(g, st, p, jt);
      LinkedDown(g, st, jt, t);
      assert false;
    }
    assert u in g.edges;
  }

  /**
   * A root whose call is over, with finished non-roots above it, pops a
   * ring: the stack from the root up follows the edges, and the top node's
   * successor is the root.
   */
  lemma RootRing(g: Graph, st: State, p: nat, c: seq<Node>)
    requires Single(g) && IndexOk(g, st.counter, st.stack, st.lowlinks, st.index) && Path(g, st.stack)
    requires p < |st.stack| && Linked(g, st, p) && FinishedAbove(g, st, p)
    requires st.lowlinks[st.stack[p]] == st.index[st.stack[p]]
    requires PoppedFrom(st.stack, p, c)
    ensures Ring(g, c)
  {
    var s, last := st.stack, |st.stack| - 1;
    if |c| >= 2 {
      TopPointsAtRoot(g, st, p);
      forall k | 0 < k < |c| ensures Succ(g, c[k]) == [c[k - 1]] {
        assert c[k] == s[last - k] && c[k - 1] == s[last - k + 1];
      }
    }
  }

  /** Changing the lowlink of the node at `p` leaves the finished nodes above it as they were. */
  lemma FinishedAboveLower(g: Graph, st: State, p: nat, m: nat)
    requires IndexOk(g, st.counter, st.stack, st.lowlinks, st.index)
    requires p < |st.stack| && FinishedAbove(g, st, p)
    ensures FinishedAbove(g, st.(lowlinks := st.lowlinks[st.stack[p] := m]), p)
  {
    var st' := st.(lowlinks := st.lowlinks[st.stack[p] := m]);
    forall j | p < j < |st.stack| ensures Linked(g, st', j) && st'.lowlinks[st.stack[j]] < st'.index[st.stack[j]] {
      assert Linked(g, st, j);
      assert st.index[st.stack[p]] < st.index[st.stack[j]];
      if j + 1 < |st.stack| {
        assert st.index[st.stack[p]] < st.index[st.stack[j + 1]];
      }
    }
  }

  /** Before the first call: nothing visited, nothing emitted. */
  lemma Started(g: Graph)
    ensures Inv(g, State(0, [], map[], map[], []), []) && Closed(g, map[])
  {
  }

  /** The invariant of the search; `emitted` is `Flat(st.result)`, carried alongside. */
  ghost predicate Inv(g: Graph, st: State, emitted: seq<Node>)
  {
    && IndexOk(g, st.counter, st.stack, st.lowlinks, st.index)
    && ResultOk(g, st.stack, st.index, st.result, emitted)
    && (Single(g) ==> Path(g, st.stack) && forall c :: c in st.result ==> Ring(g, c))
  }

  /** `index[v] = lowlinks[v] = index_counter; index_counter += 1; stack.append(v)` */
  method Push(g: Graph, st: State, ghost emitted: seq<Node>, v: Node) returns (st': State)
    requires Inv(g, st, emitted) && v !in st.index && v in Universe(g)
    requires Single(g) && st.stack != [] ==> Succ(g, st.stack[|st.stack| - 1]) == [v]
    ensures Inv(g, st', emitted) && Grows(st, st', v)
    ensures st'.index == st.index[v := st.counter] && st'.lowlinks == st.lowlinks[v := st.counter]
    ensures st'.counter == st.counter + 1 && st'.stack == st.stack + [v] && st'.result == st.result
  {
    if Single(g) {
      var s' := st.stack + [v];
      forall i | 0 <= i < |s'| - 1 ensures Succ(g, s'[i]) == [s'[i + 1]] {
        if i + 1 < |st.stack| {
          assert s'[i] == st.stack[i] && s'[i + 1] == st.stack[i + 1];
        }
      }
    }
    PushKeepsIndexOk(g, st.counter, st.stack, st.lowlinks, st.index, v);
    PushKeepsResultOk(g, st.stack, st.index, st.result, emitted, v, st.counter);
    GrowsPush(st, v);
    st' := State(st.counter + 1, st.stack + [v], st.lowlinks[v := st.counter], st.index[v := st.counter], st.result);
  }

  /**
   * `strongconnect(v)`: number `v`, push it, visit its successors, and if
   * `v` turns out to be a root, pop and emit its component.  Called with a
   * non-empty stack, it leaves `v`'s lowlink no lower than the bottom index.
   */
  method StrongConnect(g: Graph, st: State, ghost emitted: seq<Node>, v: Node)
      returns (st': State, ghost emitted': seq<Node>)
    requires Inv(g, st, emitted) && v !in st.index && v in Universe(g)
    requires Single(g) && st.stack != [] ==> Succ(g, st.stack[|st.stack| - 1]) == [v]
    decreases Universe(g) - st.index.Keys, 1
    ensures Inv(g, st', emitted') && Grows(st, st', v) && v in st'.index
    ensures st.stack == [] ==> st'.stack == []
    ensures st.stack != [] ==> |st'.stack| > 0 && v in st'.lowlinks && st'.lowlinks[v] >= st'.index[st'.stack[0]]
    ensures ClosedFrom(g, st.index, st'.index)
    ensures Single(g) && |st'.stack| == |st.stack| ==> v in st'.lowlinks && st'.lowlinks[v] == st'.index[v]
    ensures Single(g) && |st'.stack| > |st.stack| ==> st'.stack[|st.stack|] == v && FinishedAbove(g, st', |st.stack| - 1)
  {
    var s2;
    s2, emitted' := Enter(g, st, emitted, v);
    st', emitted' := Finish(g, st, s2, emitted', v, |st.stack|);
  }

  /** The first part of `strongconnect(v)`: number and push `v`, then visit its successors. */
  method Enter(g: Graph, st: State, ghost emitted: seq<Node>, v: Node)
      returns (st': State, ghost emitted': seq<Node>)
    requires Inv(g, st, emitted) && v !in st.index && v in Universe(g)
    requires Single(g) && st.stack != [] ==> Succ(g, st.stack[|st.stack| - 1]) == [v]
    decreases Universe(g) - st.index.Keys, 0
    ensures Inv(g, st', emitted') && Grows(st, st', v)
    ensures |st.stack| < |st'.stack| && st'.stack[|st.stack|] == v
    ensures v in st'.index && st'.index[v] == st.counter
    ensures v in st'.lowlinks && SuccsOk(Succ(g, v), |Succ(g, v)|, st'.stack, st'.index, st'.lowlinks[v])
    ensures ClosedFrom(g, st.index, st'.index)
    ensures Single(g) ==> Linked(g, st', |st.stack|) && FinishedAbove(g, st', |st.stack|)
  {
    var s1 := Push(g, st, emitted, v);
    ghost var p := |st.stack|;
    st', emitted' := VisitAll(g, s1, emitted, v, p);
    Entered(g, st, s1, st', v);
  }

  /** Pushing `v` and visiting its successors grows the state and leaves every node visited since closed. */
  lemma Entered(g: Graph, st: State, s1: State, s2: State, v: Node)
    requires Grows(st, s1, v) && Grows(s1, s2, v) && s1.index == st.index[v := st.counter]
    requires ClosedFrom(g, s1.index, s2.index) && v in s2.lowlinks
    requires SuccsOk(Succ(g, v), |Succ(g, v)|, s2.stack, s2.index, s2.lowlinks[v])
    ensures Grows(st, s2, v) && ClosedFrom(g, st.index, s2.index)
  {
    GrowsTrans(st, s1, s2, v);
    SuccsOkAll(Succ(g, v), s2.stack, s2.index, s2.lowlinks[v]);
    ClosedAfterVisit(g, st.index, s1.index, s2.index, v);
  }

  /**
   * The successor loop's invariant after `i` successors of `v`: the state
   * grew from `st`, `v` keeps its stack position, and the visited
   * successors still on the stack bound `v`'s lowlink.
   */
  ghost predicate Scanning(g: Graph, st: State, st': State, emitted': seq<Node>, v: Node, p: nat, i: nat)
  {
    && i <= |Succ(g, v)|
    && Inv(g, st', emitted') && Grows(st, st', v) && st.index.Keys <= st'.index.Keys
    && p < |st'.stack| && st'.stack[p] == v
    && v in st'.lowlinks && SuccsOk(Succ(g, v), i, st'.stack, st'.index, st'.lowlinks[v])
    && ClosedFrom(g, st.index, st'.index)
    && (Single(g) ==> p == |st.stack| - 1 && v in st.lowlinks && v in st.index && st.lowlinks[v] == st.index[v])
    && (Single(g) ==> (i == 0 ==> st' == st) && (i > 0 ==> Linked(g, st', p) && FinishedAbove(g, st', p)))
  }

  /** The loop over the successors of `v`, which sits at stack position `p`. */
  method VisitAll(g: Graph, st: State, ghost emitted: seq<Node>, v: Node, ghost p: nat)
      returns (st': State, ghost emitted': seq<Node>)
    requires Inv(g, st, emitted) && p < |st.stack| && st.stack[p] == v && v in st.lowlinks
    requires Single(g) ==> p == |st.stack| - 1 && st.lowlinks[v] == st.index[v]
    decreases Universe(g) - st.index.Keys, 5
    ensures Inv(g, st', emitted') && Grows(st, st', v)
    ensures p < |st'.stack| && st'.stack[p] == v
    ensures v in st'.lowlinks && SuccsOk(Succ(g, v), |Succ(g, v)|, st'.stack, st'.index, st'.lowlinks[v])
    ensures ClosedFrom(g, st.index, st'.index)
    ensures Single(g) ==> Linked(g, st', p) && FinishedAbove(g, st', p)
  {
    st', emitted' := st, emitted;
    var succs := Succ(g, v);
    for i := 0 to |succs|
      invariant Scanning(g, st, st', emitted', v, p, i)
    {
      st', emitted' := VisitNext(g, st, st', emitted', v, p, i);
    }
  }

  /** One turn of the successor loop, from the invariant after `i` successors to the one after `i + 1`. */
  method VisitNext(g: Graph, ghost st: State, st': State, ghost emitted': seq<Node>, v: Node, ghost p: nat, i: nat)
      returns (s2: State, ghost e2: seq<Node>)
    requires i < |Succ(g, v)| && Scanning(g, st, st', emitted', v, p, i)
    decreases Universe(g) - st'.index.Keys, 4
    ensures Scanning(g, st, s2, e2, v, p, i + 1)
  {
    var succs := Succ(g, v);
    assert Single(g) ==> |succs| <= 1;
    s2, e2 := VisitSuccessor(g, st', emitted', v, succs[i], p);
    Visited(g, st, st', s2, v, succs, i);
  }

  /** One more successor visited: the state grows, stays closed, and the visited successors still bound `v`'s lowlink. */
  lemma Visited(g: Graph, st: State, a: State, b: State, v: Node, succs: seq<Node>, i: nat)
    requires st.index.Keys <= a.index.Keys && a.index.Keys <= b.index.Keys
    requires ClosedFrom(g, st.index, a.index) && ClosedFrom(g, a.index, b.index)
    requires Grows(st, a, v) && Grows(a, b, v)
    requires i < |succs| && v in a.lowlinks && v in b.lowlinks
    requires SuccsOk(succs, i, a.stack, a.index, a.lowlinks[v]) && b.lowlinks[v] <= a.lowlinks[v]
    requires succs[i] in b.index && (succs[i] in b.stack ==> b.lowlinks[v] <= b.index[succs[i]])
    ensures ClosedFrom(g, st.index, b.index) && Grows(st, b, v) && st.index.Keys <= b.index.Keys
    ensures SuccsOk(succs, i + 1, b.stack, b.index, b.lowlinks[v])
  {
    ClosedTrans(g, st.index, a.index, b.index);
    GrowsTrans(st, a, b, v);
    SuccsOkStep(a, b, v, succs, i);
  }

  /**
   * One turn of the successor loop: recurse into an unvisited successor and
   * take its lowlink, or take the index of one still on the stack.
   */
  method VisitSuccessor(g: Graph, st: State, ghost emitted: seq<Node>, v: Node, w: Node, ghost p: nat)
      returns (st': State, ghost emitted': seq<Node>)
    requires Inv(g, st, emitted) && p < |st.stack| && st.stack[p] == v && v in st.lowlinks && w in Succ(g, v)
    requires Single(g) ==> p == |st.stack| - 1 && st.lowlinks[v] == st.index[v]
    decreases Universe(g) - st.index.Keys, 3
    ensures Inv(g, st', emitted') && Grows(st, st', v)
    ensures w in st'.index && v in st'.lowlinks && st'.lowlinks[v] <= st.lowlinks[v]
    ensures w in st'.stack ==> st'.lowlinks[v] <= st'.index[w]
    ensures ClosedFrom(g, st.index, st'.index)
    ensures Single(g) ==> Linked(g, st', p) && FinishedAbove(g, st', p)
  {
    assert Single(g) ==> v in g.edges && Succ(g, v) == [w];
    if w !in st.lowlinks {
      st', emitted' := Descend(g, st, emitted, v, w, p);
    } else {
      emitted' := emitted;
      if w in st.stack {
        AboveBase(g, st.counter, st.stack, st.lowlinks, st.index, w);
        st' := Lower(g, st, emitted, v, Min(st.lowlinks[v], st.index[w]));
      } else {
        st' := st;
      }
    }
  }

  /** An unvisited successor `w`: `strongconnect(w)`, then take its lowlink. */
  method Descend(g: Graph, st: State, ghost emitted: seq<Node>, v: Node, w: Node, ghost p: nat)
      returns (st': State, ghost emitted': seq<Node>)
    requires Inv(g, st, emitted) && p < |st.stack| && st.stack[p] == v && v in st.lowlinks && w in Succ(g, v)
    requires w !in st.lowlinks
    requires Single(g) ==> p == |st.stack| - 1 && st.lowlinks[v] == st.index[v]
    decreases Universe(g) - st.index.Keys, 2
    ensures Inv(g, st', emitted') && Grows(st, st', v)
    ensures w in st'.index && v in st'.lowlinks && st'.lowlinks[v] <= st.lowlinks[v]
    ensures w in st'.stack ==> st'.lowlinks[v] <= st'.index[w]
    ensures ClosedFrom(g, st.index, st'.index)
    ensures Single(g) ==> Linked(g, st', p) && FinishedAbove(g, st', p)
  {
    assert Single(g) ==> v in g.edges && Succ(g, v) == [w];
    var s1;
    s1, emitted' := StrongConnect(g, st, emitted, w);
    st' := TakeLowlink(g, st, s1, emitted', v, w, p);
  }

  /** `lowlinks[v] = min(lowlinks[v], lowlinks[w])` once `strongconnect(w)` has taken `st` to `s1`. */
  method TakeLowlink(g: Graph, st: State, s1: State, ghost emitted: seq<Node>, v: Node, w: Node, ghost p: nat)
      returns (st': State)
    requires Inv(g, s1, emitted) && Grows(st, s1, w) && w in s1.index
    requires p < |st.stack| && st.stack[p] == v && v in st.index && st.index[v] < st.counter
    requires v in st.lowlinks && w !in st.lowlinks && w !in st.index && w !in st.stack && w in Succ(g, v)
    requires st.stack != [] ==> |s1.stack| > 0 && w in s1.lowlinks && s1.lowlinks[w] >= s1.index[s1.stack[0]]
    requires Single(g) ==> p == |st.stack| - 1 && st.lowlinks[v] == st.index[v] && Succ(g, v) == [w]
    requires Single(g) && |s1.stack| == |st.stack| ==> w in s1.lowlinks && s1.lowlinks[w] == s1.index[w]
    requires Single(g) && |s1.stack| > |st.stack| ==> s1.stack[|st.stack|] == w && FinishedAbove(g, s1, |st.stack| - 1)
    ensures Inv(g, st', emitted) && Grows(st, st', v) && st'.index == s1.index
    ensures w in st'.index && v in st'.lowlinks && st'.lowlinks[v] <= st.lowlinks[v]
    ensures w in st'.stack ==> st'.lowlinks[v] <= st'.index[w]
    ensures Single(g) ==> Linked(g, st', p) && FinishedAbove(g, st', p)
  {
    GrowsWiden(st, s1, w, v);
    assert s1.stack[p] == v;
    NonRootBound(g, s1, p);
    st' := Lower(g, s1, emitted, v, Min(s1.lowlinks[v], s1.lowlinks[w]));
    GrowsTrans(st, s1, st', v);
    if Single(g) {
      assert v != w && s1.lowlinks[v] == s1.index[v] == st.index[v] < s1.index[w];
      if |s1.stack| == |st.stack| {
        assert s1.stack == st.stack;
        assert w !in st'.stack;
        assert st'.lowlinks[v] == st'.index[v];
      } else {
        assert st'.stack[p + 1] == w && st'.lowlinks[w] == s1.lowlinks[w];
        FinishedAboveLower(g, s1, p, Min(s1.lowlinks[v], s1.lowlinks[w]));
      }
    }
  }

  /** `lowlinks[v] = m`, where `m` lowers it but stays at or above the bottom of the stack. */
  method Lower(g: Graph, st: State, ghost emitted: seq<Node>, v: Node, m: nat) returns (st': State)
    requires Inv(g, st, emitted) && v in st.index && m <= st.lowlinks[v]
    requires |st.stack| > 0 ==> m >= st.index[st.stack[0]]
    ensures Inv(g, st', emitted) && Grows(st, st', v)
    ensures st' == st.(lowlinks := st.lowlinks[v := m])
  {
    LowerKeepsIndexOk(g, st.counter, st.stack, st.lowlinks, st.index, v, m);
    st' := st.(lowlinks := st.lowlinks[v := m]);
  }

  /** After the successor loop: if `v` is a root, pop and emit its component. */
  method Finish(g: Graph, s0: State, st: State, ghost emitted: seq<Node>, v: Node, ghost p: nat)
      returns (st': State, ghost emitted': seq<Node>)
    requires Inv(g, st, emitted) && Grows(s0, st, v)
    requires p == |s0.stack| && p < |st.stack| && st.stack[p] == v
    requires s0.stack != [] ==> s0.stack[0] in s0.index && s0.index[s0.stack[0]] < s0.counter
    requires v in st.index && st.index[v] == s0.counter
    requires v in st.lowlinks && SuccsOk(Succ(g, v), |Succ(g, v)|, st.stack, st.index, st.lowlinks[v])
    requires Single(g) ==> Linked(g, st, p) && FinishedAbove(g, st, p)
    ensures Inv(g, st', emitted') && Grows(s0, st', v) && st'.index == st.index
    ensures s0.stack == [] ==> st'.stack == []
    ensures s0.stack != [] ==> |st'.stack| > 0 && v in st'.lowlinks && st'.lowlinks[v] >= st'.index[st'.stack[0]]
    ensures Single(g) && |st'.stack| == p ==> v in st'.lowlinks && st'.lowlinks[v] == st'.index[v]
    ensures Single(g) && |st'.stack| > p ==> st'.stack[p] == v && FinishedAbove(g, st', p - 1)
    ensures st.lowlinks[v] == st.index[v] ==>
      st'.stack == st.stack[..p] && exists c :: PoppedFrom(st.stack, p, c) && st'.result == st.result + [c]
    ensures st.lowlinks[v] != st.index[v] ==> st' == st
  {
    SuccsOkAll(Succ(g, v), st.stack, st.index, st.lowlinks[v]);
    if st.lowlinks[v] == st.index[v] {
      var component;
      st', emitted', component := PopComponent(g, st, emitted, v, p);
      RootReturns(s0, st, v, p, component);
    } else {
      st', emitted' := st, emitted;
      NonRootBound(g, st, p);
    }
  }

  /** Pops `stack` down to and including `v`, collecting the nodes in pop order. */
  method PopThrough(stack: seq<Node>, v: Node, ghost p: nat) returns (rest: seq<Node>, component: seq<Node>)
    requires p < |stack| && stack[p] == v
    requires forall k :: p < k < |stack| ==> stack[k] != v
    ensures rest == stack[..p] && PoppedFrom(stack, p, component)
  {
    rest := stack;
    component := [];
    var popped := false;
    while !popped
      invariant p <= |rest| <= |stack|
      invariant rest == stack[..|rest|]
      invariant popped <==> |rest| == p
      invariant PoppedFrom(stack, |rest|, component)
      decreases |rest|
    {
      var w := rest[|rest| - 1];
      rest := rest[..|rest| - 1];
      component := component + [w];
      popped := w == v;
    }
  }

  /**
   * `v`, at stack position `p`, is a root: pop the stack down to and
   * including `v` and append the popped nodes, in pop order, to `result`.
   */
  method PopComponent(g: Graph, st: State, ghost emitted: seq<Node>, v: Node, ghost p: nat)
      returns (st': State, ghost emitted': seq<Node>, component: seq<Node>)
    requires Inv(g, st, emitted)
    requires p < |st.stack| && st.stack[p] == v
    requires v in st.lowlinks && st.lowlinks[v] == st.index[v]
    requires forall s :: s in Succ(g, v) ==> s in st.index && (s in st.stack ==> st.lowlinks[v] <= st.index[s])
    requires Single(g) ==> Linked(g, st, p) && FinishedAbove(g, st, p)
    ensures Inv(g, st', emitted')
    ensures st' == st.(stack := st.stack[..p], result := st.result + [component])
    ensures PoppedFrom(st.stack, p, component)
  {
    assert forall k :: p < k < |st.stack| ==> st.stack[k] != v by {
      forall k | p < k < |st.stack| ensures st.stack[k] != v {
        assert st.index[st.stack[p]] < st.index[st.stack[k]];
      }
    }
    var rest;
    rest, component := PopThrough(st.stack, v, p);
    PopKeepsInvariants(g, st.counter, st.stack, p, st.lowlinks, st.index, st.result, emitted, component);
    if Single(g) {
      RootRing(g, st, p, component);
    }
    st' := st.(stack := rest, result := st.result + [component]);
    emitted' := emitted + component;
  }

  /**
   * `strongly_connected_components(graph)`: run `strongconnect` from every
   * key, in key order, that no earlier call has reached.  The components
   * partition the nodes met, every key among them, and the first component
   * emitted is closed: two or more nodes, or one with no successor but itself.
   */
  method StronglyConnectedComponents(g: Graph) returns (cs: seq<seq<Node>>)
    ensures forall c :: c in cs ==> |c| > 0
    ensures Distinct(Flat(cs))
    ensures forall n :: n in g.order ==> n in Flat(cs)
    ensures forall n :: n in Flat(cs) ==> n in Universe(g)
    ensures cs != [] ==> RootCycle(g, cs[0])
    ensures Ordered(g, cs)
    ensures forall n, m :: n in Flat(cs) && m in Succ(g, n) ==> m in Flat(cs)
    ensures Single(g) ==> forall c :: c in cs ==> Ring(g, c)
  {
    var st := State(0, [], map[], map[], []);
    ghost var emitted: seq<Node> := [];
    Started(g);
    for i := 0 to |g.order|
      invariant Searched(g, st, emitted, i)
    {
      var s1, e1 := VisitRoot(g, st, emitted, i);
      st, emitted := s1, e1;
    }
    Collected(g, st, emitted);
    cs := st.result;
  }

  /** Between top-level calls: the stack is empty, the first `i` keys are visited, and visiting is closed under successors. */
  ghost predicate Searched(g: Graph, st: State, emitted: seq<Node>, i: nat)
    requires i <= |g.order|
  {
    Inv(g, st, emitted) && st.stack == [] && Closed(g, st.index) && forall k :: 0 <= k < i ==> g.order[k] in st.index
  }

  /** `if node not in lowlinks: strongconnect(node)` for the `i`-th key, from an empty stack. */
  method VisitRoot(g: Graph, st: State, ghost emitted: seq<Node>, i: nat)
      returns (st': State, ghost emitted': seq<Node>)
    requires i < |g.order| && Searched(g, st, emitted, i)
    ensures Searched(g, st', emitted', i + 1)
  {
    var node := g.order[i];
    assert node in Universe(g);
    if node !in st.lowlinks {
      st', emitted' := StrongConnect(g, st, emitted, node);
      ClosedGrow(g, st.index, st'.index);
    } else {
      st', emitted' := st, emitted;
    }
  }

  /** The components of a finished search: `Emptied`, and every successor of a covered node is covered. */
  lemma Collected(g: Graph, st: State, emitted: seq<Node>)
    requires Inv(g, st, emitted) && st.stack == [] && Closed(g, st.index)
    ensures forall c :: c in st.result ==> |c| > 0
    ensures Distinct(Flat(st.result))
    ensures forall n :: n in st.index <==> n in Flat(st.result)
    ensures forall n :: n in Flat(st.result) ==> n in Universe(g)
    ensures st.result != [] ==> RootCycle(g, st.result[0])
    ensures Ordered(g, st.result)
    ensures forall n, m :: n in Flat(st.result) && m in Succ(g, n) ==> m in Flat(st.result)
    ensures Single(g) ==> forall c :: c in st.result ==> Ring(g, c)
  {
    Emptied(g, st, emitted);
  }
}
