/**
 * The scheduling layer ("meta-algorithms"): each period it chooses which of
 * the market's active agents are submitted to the matching algorithm, and it
 * hands the algorithm's result back unchanged. The market is passed in as
 * its list of active agents, the only part of it a schedule reads.
 */
module Meta {
  import opened Seqs
  import opened Agents

  /** A matching algorithm, given the market's agents and the submitted ones. */
  type Matcher = (seq<Agent>, seq<Agent>) -> map<Name, Name>

  /**
   * `Always` submits everyone; `Patient(a)` the critical agents and those
   * whose sojourn is exactly `a` (`None` stands for the default, infinity,
   * which no sojourn equals); `Greedy` the agents that have just entered.
   */
  datatype Schedule = Always | Patient(a: Option<int>) | Greedy

  /**
   * Whether `schedule` submits agent `x`: every schedule but `Greedy`
   * submits a critical agent, and `Always` submits everyone.
   */
  function Selects(schedule: Schedule, x: Agent): (r: bool)
    ensures schedule.Always? ==> r
    ensures x.IsCritical() && !schedule.Greedy? ==> r
    ensures schedule.Greedy? ==> (r <==> x.sojourn == 0)
  {
    match schedule
    case Always => true
    case Patient(a) => x.IsCritical() || (a.Some? && x.sojourn == a.value)
    case Greedy => x.sojourn == 0
  }

  /** The agents `schedule` submits, in market order. */
  function Submitted(schedule: Schedule, agents: seq<Agent>): (r: seq<Agent>)
    ensures Sub(r, agents)
    ensures forall x :: x in r <==> x in agents && Selects(schedule, x)
  {
    if agents == [] then []
    else
      var init, last := agents[..|agents| - 1], agents[|agents| - 1];
      var rest := Submitted(schedule, init);
      assert agents == init + [last];
      if Selects(schedule, last) then rest + [last] else rest
  }

  /**
   * One scheduled matching: the algorithm's answer on the submitted agents,
   * handed back unchanged; under `Always` the algorithm sees the whole market.
   */
  function Run(schedule: Schedule, agents: seq<Agent>, algorithm: Matcher): (r: map<Name, Name>)
    ensures r == algorithm(agents, Submitted(schedule, agents))
    ensures schedule.Always? ==> r == algorithm(agents, agents)
  {
    AlwaysAll(agents);
    algorithm(agents, Submitted(schedule, agents))
  }

  /** `Always` submits the whole list, so the algorithm sees the market as it is. */
  lemma {:induction false} AlwaysAll(agents: seq<Agent>)
    ensures Submitted(Always, agents) == agents
  {
    if agents != [] {
      AlwaysAll(agents[..|agents| - 1]);
      assert agents == agents[..|agents| - 1] + [agents[|agents| - 1]];
    }
  }

  /** With the default infinite patience, exactly the critical agents are submitted. */
  lemma PatientDefault(agents: seq<Agent>)
    ensures forall x :: x in Submitted(Patient(None), agents) <==> x in agents && x.IsCritical()
  {
  }
}
