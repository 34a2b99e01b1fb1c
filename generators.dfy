/**
 * Type generators and compatibility tables of
 * `matchingmarkets/generators/basic.py`. Random draws are parameters.
 * Blood types are strings such as "AB-" or "O+".
 */
module Generators {
  import opened Agents
  import Utilities

  /** Python's `%`: the result takes the sign of the divisor. */
  function PyMod(x: int, n: int): (r: int)
    requires n != 0
    ensures n > 0 ==> 0 <= r < n
    ensures n < 0 ==> n < r <= 0
    ensures n > 0 ==> r == x % n
  {
    var e := x % n;
    if n < 0 && e != 0 then e + n else e
  }

  /**
   * The process-wide counter behind `alternatingType`, as an object owned
   * by its caller. It starts at -1; each call increments it first.
   */
  class TypeCounter {
    var count: int

    constructor ()
      ensures count == -1
    {
      count := -1;
    }

    /** The next alternating type; `None` where Python divides by zero. */
    method Next(numTypes: int) returns (t: Option<int>)
      modifies this
      ensures count == old(count) + 1
      ensures numTypes == 0 ==> t == None
      ensures numTypes != 0 ==> t == Some(PyMod(count, numTypes))
    {
      count := count + 1;
      if numTypes == 0 {
        t := None;
      } else {
        t := Some(PyMod(count, numTypes));
      }
    }
  }

  /**
   * The first `m` types a fresh counter hands out: 0, 1, 2, ... taken
   * modulo `numTypes`.
   */
  method AlternatingTypes(m: nat, numTypes: int) returns (ts: seq<int>)
    requires numTypes > 0
    ensures |ts| == m
    ensures forall i :: 0 <= i < m ==> ts[i] == i % numTypes
    ensures forall i :: 0 <= i < m ==> 0 <= ts[i] < numTypes
  {
    var counter := new TypeCounter();
    ts := [];
    while |ts| < m
      invariant |ts| <= m
      invariant counter.count == |ts| - 1
      invariant forall i :: 0 <= i < |ts| ==> ts[i] == i % numTypes
    {
      var t := counter.Next(numTypes);
      ts := ts + [t.value];
    }
  }

  /** `stochastic_neighborSameType`: 1 only for a low draw and a same-type other agent. */
  function StochasticNeighborSameType(a: Agent, b: Agent, draw: real, cutoff: real): (r: int)
    ensures r == 0 || r == 1
    ensures r == 1 <==> draw <= cutoff && Utilities.NeighborSameType(a, b)
  {
    if draw > cutoff then 0
    else if a.kind == b.kind && a.name != b.name then 1
    else 0
  }

  /** The generators' `rngDraw`: 1 when the draw EXCEEDS the cutoff. */
  function RngDraw(draw: real, cutoff: real): (r: int)
    ensures r == 1 - Utilities.RngDraw(draw, cutoff)
  {
    if draw > cutoff then 1 else 0
  }

  /** `std_compat`: the cutoff itself, whoever the agents are. */
  function StdCompat(a: Agent, b: Agent, cutoff: real): (r: real)
    ensures r == cutoff
  {
    cutoff
  }

  /** `utilSameType`: the cutoff for a same-type pair (oneself included), else 0. */
  function UtilSameType(a: Agent, b: Agent, cutoff: real): (r: real)
    ensures Utilities.NeighborSameTypeWithSelf(a, b) ==> r == StdCompat(a, b, cutoff)
    ensures !Utilities.NeighborSameTypeWithSelf(a, b) ==> r == 0.0
    ensures r == cutoff * Utilities.UtilSameTypeWithSelf(a, b)
  {
    if a.kind == b.kind then cutoff else 0.0
  }

  // ---------------------------------------------------------------------
  // Blood-group tables. The donor's type is read from its second type
  // attribute, the recipient's from its first.

  datatype Antigen = A | B

  /** ABO antigens on a recipient's cells; unknown strings carry none. */
  function RecipientAntigens(t: string): set<Antigen>
  {
    if t == "AB+" || t == "AB-" then {A, B}
    else if t == "A+" || t == "A-" then {A}
    else if t == "B+" || t == "B-" then {B}
    else {}
  }

  /** Rhesus-positive recipient (one of the four standard "+" types). */
  predicate RecipientRhPositive(t: string)
  {
    t == "AB+" || t == "A+" || t == "B+" || t == "O+"
  }

  /** The donor group as the transplant table reads it: by first letter for O and B. */
  function TransplantDonorAntigens(d: string): Option<set<Antigen>>
  {
    if |d| > 0 && d[0] == 'O' then Some({})
    else if |d| > 0 && d[0] == 'B' then Some({B})
    else if d == "A-" || d == "A+" then Some({A})
    else if d == "AB-" || d == "AB+" then Some({A, B})
    else None
  }

  /**
   * `transplant_compatibility`: `None` where the source raises on an
   * unrecognised donor type. A donor is compatible exactly when its ABO
   * antigens are all present in the recipient; Rhesus is ignored.
   */
  function TransplantCompatibility(donor: string, recipient: string, cutoff: real): (r: Option<real>)
    ensures r.None? <==> TransplantDonorAntigens(donor).None?
    ensures r.Some? ==>
      r.value == (if TransplantDonorAntigens(donor).value <= RecipientAntigens(recipient) then cutoff else 0.0)
  {
    if |donor| == 0 then None  // indexing an empty string raises
    else if donor[0] == 'O' then Some(cutoff)
    else if donor[0] == 'B' then
      (if recipient in ["AB+", "AB-", "B+", "B-"] then Some(cutoff) else Some(0.0))
    else if donor == "A-" || donor == "A+" then
      (if recipient in ["AB+", "AB-", "A+", "A-"] then Some(cutoff) else Some(0.0))
    else if donor == "AB-" || donor == "AB+" then
      (if recipient in ["AB+", "AB-"] then Some(cutoff) else Some(0.0))
    else None
  }

  /** The donor group as the red-cell table reads it: the eight exact types. */
  function BloodDonorAntigens(d: string): Option<set<Antigen>>
  {
    if d == "O-" || d == "O+" then Some({})
    else if d == "A-" || d == "A+" then Some({A})
    else if d == "B-" || d == "B+" then Some({B})
    else if d == "AB-" || d == "AB+" then Some({A, B})
    else None
  }

  /**
   * Red-cell compatibility: every ABO antigen of the donor is present in
   * the recipient, and a Rhesus-positive donor needs a Rhesus-positive
   * recipient.
   */
  predicate RedCellCompatible(donor: string, recipient: string)
    requires BloodDonorAntigens(donor).Some?
  {
    && BloodDonorAntigens(donor).value <= RecipientAntigens(recipient)
    && (donor[|donor| - 1] == '+' ==> RecipientRhPositive(recipient))
  }

  /** `blood_compatibility` exactly as written, including its "A+" row. */
  function BloodCompatibilityAsWritten(donor: string, recipient: string, cutoff: real): (r: Option<real>)
    ensures r.None? <==> BloodDonorAntigens(donor).None?
    ensures r.Some? ==> r.value == cutoff || r.value == 0.0
    ensures r.Some? && donor != "A+" ==> r.value == (if RedCellCompatible(donor, recipient) then cutoff else 0.0)
  {
    if donor == "O-" then Some(cutoff)
    else if donor == "O+" then
      (if recipient in ["AB+", "A+", "B+", "O+"] then Some(cutoff) else Some(0.0))
    else if donor == "B-" then
      (if recipient in ["AB+", "AB-", "B+", "B-"] then Some(cutoff) else Some(0.0))
    else if donor == "B+" then
      (if recipient in ["AB+", "B+"] then Some(cutoff) else Some(0.0))
    else if donor == "A-" then
      (if recipient in ["AB+", "AB-", "A+", "A-"] then Some(cutoff) else Some(0.0))
    else if donor == "A+" then
      (if recipient in ["AB+", "A+", "B+", "O+"] then Some(cutoff) else Some(0.0))
    else if donor == "AB-" then
      (if recipient in ["AB+", "AB-"] then Some(cutoff) else Some(0.0))
    else if donor == "AB+" then
      (if recipient in ["AB+"] then Some(cutoff) else Some(0.0))
    else None
  }

  /** The source's own table: an O- donor gives to anyone, an AB+ donor only to AB+. */
  lemma BloodTableExtremes(recipient: string, cutoff: real)
    requires cutoff != 0.0
    ensures BloodCompatibilityAsWritten("O-", recipient, cutoff) == Some(cutoff)
    ensures BloodCompatibilityAsWritten("AB+", recipient, cutoff) == Some(cutoff) <==> recipient == "AB+"
  {
  }

  /** Off the "A+" row, the table as written and the corrected one agree. */
  lemma BloodAgreesOffAPlus(donor: string, recipient: string, cutoff: real)
    requires donor != "A+"
    ensures BloodCompatibilityAsWritten(donor, recipient, cutoff) == BloodCompatibility(donor, recipient, cutoff)
  {
  }

  /** The "A+" row of the source accepts an O+ recipient, whose plasma rejects A cells. */
  lemma BloodAsWrittenAcceptsAPlusToOPlus()
    ensures BloodCompatibilityAsWritten("A+", "O+", 1.0) == Some(1.0)
    ensures !RedCellCompatible("A+", "O+")
  {
  }

  /**
   * `blood_compatibility` with its "A+" row corrected to AB+ and A+
   * recipients; every other row is the source's.
   */
  function BloodCompatibility(donor: string, recipient: string, cutoff: real): (r: Option<real>)
    ensures r.None? <==> BloodDonorAntigens(donor).None?
    ensures r.Some? ==> r.value == (if RedCellCompatible(donor, recipient) then cutoff else 0.0)
  {
    if donor == "A+" then
      (if recipient in ["AB+", "A+"] then Some(cutoff) else Some(0.0))
    else BloodCompatibilityAsWritten(donor, recipient, cutoff)
  }

  /** A red-cell compatible donor is also compatible for transplant. */
  lemma {:induction false} BloodImpliesTransplant(donor: string, recipient: string, cutoff: real)
    requires BloodCompatibility(donor, recipient, cutoff) == Some(cutoff)
    requires cutoff != 0.0
    ensures TransplantCompatibility(donor, recipient, cutoff) == Some(cutoff)
  {
  }
}
