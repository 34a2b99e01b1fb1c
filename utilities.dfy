/**
 * Compatibility and utility callbacks of `matchingmarkets/utilities.py`.
 * Each one compares the types (and names) of two agents; the random draw
 * of `rngDraw` is passed in.
 */
module Utilities {
  import opened Agents

  /** Same type, an agent with itself included: always true of an agent with itself. */
  function NeighborSameTypeWithSelf(a: Agent, b: Agent): (r: bool)
    ensures a == b ==> r
  {
    a.kind == b.kind
  }

  /** Same type, different agent: never true of an agent with itself. */
  function NeighborSameType(a: Agent, b: Agent): (r: bool)
    ensures r <==> NeighborSameTypeWithSelf(a, b) && a.name != b.name
    ensures a.name == b.name ==> !r
  {
    a.kind == b.kind && a.name != b.name
  }

  /** Utility 1 for a same-type partner other than oneself, 0 otherwise. */
  function UtilSameType(a: Agent, b: Agent): (r: real)
    ensures r == 1.0 || r == 0.0
    ensures r == 1.0 <==> NeighborSameType(a, b)
    ensures a.name == b.name ==> r == 0.0
  {
    if a.kind == b.kind && a.name != b.name then 1.0 else 0.0
  }

  /** Utility 1 for any same-type partner, oneself included. */
  function UtilSameTypeWithSelf(a: Agent, b: Agent): (r: real)
    ensures r == 1.0 || r == 0.0
    ensures r == 1.0 <==> NeighborSameTypeWithSelf(a, b)
    ensures UtilSameType(a, b) <= r
  {
    if a.kind == b.kind then 1.0 else 0.0
  }

  /** Both same-type tests and both same-type utilities are symmetric. */
  lemma SameTypeSymmetric(a: Agent, b: Agent)
    ensures NeighborSameType(a, b) == NeighborSameType(b, a)
    ensures UtilSameType(a, b) == UtilSameType(b, a)
    ensures UtilSameTypeWithSelf(a, b) == UtilSameTypeWithSelf(b, a)
    ensures NeighborSameTypeWithSelf(a, b) == NeighborSameTypeWithSelf(b, a)
  {
  }

  /** 1 when the uniform draw falls at or below the cutoff, else 0. */
  function RngDraw(draw: real, cutoff: real): (r: int)
    ensures r == 0 || r == 1
    ensures r == 1 <==> draw <= cutoff
  {
    if draw > cutoff then 0 else 1
  }
}
