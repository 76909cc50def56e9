/** What the computation reports, what a reported maximum promises, and how
    the two searches' results combine into one flow per original edge. */
module Outcomes {
  import opened Network
  import opened Residual
  import opened Search
  import opened Reconstruction
  import opened Cuts

  datatype Outcome =
    | Feasible(value: int, flows: map<(int, int), int>)
    | Infeasible(achieved: int)
    | Unbounded
    | MissingNode

  /** What a reported maximum promises: one flow per original edge and, on
      networks the reduction represents exactly, a feasible flow that no
      feasible flow beats, whose value is what leaves the source when nothing
      enters it. */
  ghost predicate MaximumFound(G: Graph, value: int, flows: map<(int, int), int>)
  {
    && flows.Keys == G.edges.Keys
    && (Simple(G) ==>
          && FeasibleFlow(G, flows)
          && forall F :: FeasibleFlow(G, F) ==> NetValue(F, G.n) <= NetValue(flows, G.n))
    && (Simple(G) && NoEdgeIntoSource(G) ==> value == OutFlow(flows, 0, G.n))
  }

  /** What the second phase may report: a maximum as MaximumFound describes
      it, or a refusal that only a pair of nodes with more than half the
      "infinite" value as capacity can cause. */
  ghost predicate SecondPhaseOk(G: Graph, r: Outcome)
  {
    && (r.Feasible? || r.Unbounded?)
    && (r.Feasible? ==> MaximumFound(G, r.value, r.flows))
    && (r.Unbounded? ==> WidePair(G))
  }

  /** The combination of the baseline and the second search's result: each
      original edge gets its recorded baseline plus the second flow on its
      arc, and the value is the second search's value plus the baseline
      recorded on the edges leaving the source. */
  function Combine(G: Graph, R1: Arcs, second: Solve): Outcome
  {
    if second.Unbounded? then
      Outcome.Unbounded
    else
      var rec := Recorded(G, Detach(R1, G.n));
      Feasible(second.value + OutFlow(rec, 0, G.n), FinalFlows(G, rec, second.residual))
  }
}
