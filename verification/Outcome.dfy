/** The check of the outcome an EndEpisode answer carries, before it is shown agent by agent. */
module Outcome {
  import opened Wrappers
  import opened ActionReceipt

  datatype TerminationReason =
    | Unspecified | Active | GoalReached | TimeLimit | ClientAbort | ChainFailure | OtherReason(code: int)

  datatype AgentOutcome =
    AgentOutcome(id: nat, reason: TerminationReason, hasFinalPosition: bool, goalRankGroup: Option<int>)

  datatype EpisodeOutcome = EpisodeOutcome(episodeId: string, agents: seq<AgentOutcome>)

  function Ids(agents: seq<AgentOutcome>): set<nat> {
    set a | a in agents :: a.id
  }

  /** A terminal result; exactly those who reached the goal are ranked. */
  predicate Terminal(a: AgentOutcome) {
    && a.hasFinalPosition && !a.reason.Unspecified? && !a.reason.Active?
    && (a.reason.GoalReached? <==> a.goalRankGroup.Some?)
  }

  function Range(low: nat, high: nat): (r: set<nat>)
    requires low <= high
    ensures |r| == high - low && forall x :: x in r <==> low <= x < high
  {
    if low == high then {} else Range(low, high - 1) + {high - 1}
  }

  /** One terminal result for each of the agents 0, 1, ..., count - 1. */
  ghost predicate OneEach(agents: seq<AgentOutcome>, count: nat) {
    |agents| == count && Ids(agents) == Range(0, count) && forall a | a in agents :: Terminal(a)
  }

  /** The first i results are terminal and of different known agents. */
  ghost predicate FineSoFar(agents: seq<AgentOutcome>, count: nat, i: nat, seen: set<nat>) {
    && i <= |agents| == count
    && seen == Ids(agents[..i]) && |seen| == i && seen <= Range(0, count)
    && forall j | 0 <= j < i :: Terminal(agents[j])
  }

  lemma {:induction false} IdsBound(agents: seq<AgentOutcome>)
    ensures |Ids(agents)| <= |agents|
  {
    if agents != [] {
      var rest, last := agents[..|agents| - 1], agents[|agents| - 1];
      IdsBound(rest);
      IdsOneMore(rest, last);
      assert agents == rest + [last];
    }
  }

  lemma IdsOneMore(agents: seq<AgentOutcome>, a: AgentOutcome)
    ensures Ids(agents + [a]) == Ids(agents) + {a.id}
  {
    assert a in agents + [a];
    assert forall b | b in agents :: b in agents + [a];
  }

  /** The ids are different and known, and every result is terminal. */
  ghost predicate Fine(agents: seq<AgentOutcome>, count: nat) {
    && |agents| == count
    && (forall i, j | 0 <= i < j < |agents| :: agents[i].id != agents[j].id)
    && forall a | a in agents ::
         && a.id < count && a.hasFinalPosition && a.reason != Unspecified && a.reason != Active
         && (a.reason == GoalReached <==> a.goalRankGroup != None)
  }

  lemma FineMeansOneEach(agents: seq<AgentOutcome>, count: nat)
    ensures Fine(agents, count) <==> OneEach(agents, count)
  {
    if Fine(agents, count) {
      DifferentIds(agents);
      SubsetOfSameSize(Ids(agents), Range(0, count));
    }
    if OneEach(agents, count) {
      forall i, j | 0 <= i < j < |agents|
        ensures agents[i].id != agents[j].id
      {
        if agents[i].id == agents[j].id {
          assert agents[..j][i] in agents[..j];
          TooFewIds(agents, j);
        }
      }
      forall a | a in agents
        ensures a.id < count && Terminal(a)
      {
        assert a.id in Ids(agents);
      }
    }
  }

  lemma {:induction false} DifferentIds(agents: seq<AgentOutcome>)
    requires forall i, j | 0 <= i < j < |agents| :: agents[i].id != agents[j].id
    ensures |Ids(agents)| == |agents|
  {
    if agents != [] {
      var rest, last := agents[..|agents| - 1], agents[|agents| - 1];
      DifferentIds(rest);
      assert agents == rest + [last];
      IdsOneMore(rest, last);
    }
  }

  /** Accepted iff it is the outcome of this Episode with one terminal result for every agent: as many results
      as agents, each for another agent, can only be all of them. */
  method CheckEpisodeOutcome(outcome: Option<EpisodeOutcome>, episodeId: string, count: nat) returns (ok: bool)
    ensures ok <==> outcome.Some? && outcome.value.episodeId == episodeId && Fine(outcome.value.agents, count)
    ensures ok <==> outcome.Some? && outcome.value.episodeId == episodeId && OneEach(outcome.value.agents, count)
  {
    if outcome.Some? {
      FineMeansOneEach(outcome.value.agents, count);
    }
    if outcome.None? || outcome.value.episodeId != episodeId || |outcome.value.agents| != count {
      return false;
    }
    var agents := outcome.value.agents;
    var seen: set<nat> := {};
    for i := 0 to count
      invariant FineSoFar(agents, count, i, seen)
    {
      var a := agents[i];
      var goal := a.reason.GoalReached?;
      if a.id >= count || a.id in seen || !a.hasFinalPosition || a.reason.Unspecified? || a.reason.Active?
         || goal != a.goalRankGroup.Some? {
        CannotBeComplete(agents, count, i, seen);
        return false;
      }
      OneMoreFine(agents, count, i, seen);
      seen := seen + {a.id};
    }
    AllFine(agents, count, seen);
    return true;
  }

  lemma OneMoreFine(agents: seq<AgentOutcome>, count: nat, i: nat, seen: set<nat>)
    requires FineSoFar(agents, count, i, seen) && i < count
    requires agents[i].id < count && agents[i].id !in seen && Terminal(agents[i])
    ensures FineSoFar(agents, count, i + 1, seen + {agents[i].id})
  {
    assert agents[..i + 1] == agents[..i] + [agents[i]];
    IdsOneMore(agents[..i], agents[i]);
  }

  lemma AllFine(agents: seq<AgentOutcome>, count: nat, seen: set<nat>)
    requires FineSoFar(agents, count, count, seen)
    ensures OneEach(agents, count)
  {
    assert agents[..count] == agents;
    SubsetOfSameSize(seen, Range(0, count));
  }

  lemma CannotBeComplete(agents: seq<AgentOutcome>, count: nat, i: nat, seen: set<nat>)
    requires FineSoFar(agents, count, i, seen) && i < count
    requires agents[i].id >= count || agents[i].id in seen || !Terminal(agents[i])
    ensures !OneEach(agents, count)
  {
    assert agents[i] in agents && agents[i].id in Ids(agents);
    if agents[i].id in seen {
      TooFewIds(agents, i);
    }
  }

  lemma TooFewIds(agents: seq<AgentOutcome>, i: nat)
    requires i < |agents| && agents[i].id in Ids(agents[..i])
    ensures |Ids(agents)| < |agents|
  {
    var others := agents[..i] + agents[i + 1..];
    assert agents == agents[..i] + [agents[i]] + agents[i + 1..];
    forall x | x in Ids(agents)
      ensures x in Ids(others)
    {
      var a :| a in agents && a.id == x;
      if a !in others {
        var b :| b in agents[..i] && b.id == agents[i].id;
        assert b in others;
      }
    }
    assert Ids(agents) <= Ids(others);
    SubsetSize(Ids(agents), Ids(others));
    IdsBound(others);
  }

  /** Sorted by id, the result of agent i stands at place i. */
  lemma SortedShowsEveryAgent(agents: seq<AgentOutcome>, count: nat, sorted: seq<AgentOutcome>, i: nat)
    requires OneEach(agents, count) && i < count
    requires multiset(sorted) == multiset(agents) && Ascending(sorted)
    ensures |sorted| == count && sorted[i].id == i
  {
    assert |sorted| == |multiset(sorted)| == |multiset(agents)| == count;
    forall a
      ensures a in sorted <==> a in agents
    {
      assert a in sorted <==> a in multiset(sorted);
      assert a in agents <==> a in multiset(agents);
    }
    assert Ids(sorted) == Ids(agents);
    NotAbove(sorted, i);
    NotBelow(sorted, count, i);
  }

  ghost predicate Ascending(sorted: seq<AgentOutcome>) {
    forall j, k | 0 <= j < k < |sorted| :: sorted[j].id <= sorted[k].id
  }

  lemma SmallerStandBefore(sorted: seq<AgentOutcome>, i: nat, x: nat)
    requires i < |sorted| && Ascending(sorted) && x in Ids(sorted) && x < sorted[i].id
    ensures x in Ids(sorted[..i])
  {
    var k :| 0 <= k < |sorted| && sorted[k].id == x;
    assert sorted[..i][k] in sorted[..i];
  }

  lemma GreaterStandAfter(sorted: seq<AgentOutcome>, i: nat, x: nat)
    requires i < |sorted| && Ascending(sorted) && x in Ids(sorted) && x > sorted[i].id
    ensures x in Ids(sorted[i + 1..])
  {
    var k :| 0 <= k < |sorted| && sorted[k].id == x;
    assert sorted[i + 1..][k - i - 1] in sorted[i + 1..];
  }

  /** The ids up to i need more than the places before i. */
  lemma NotAbove(sorted: seq<AgentOutcome>, i: nat)
    requires i < |sorted| && Range(0, i + 1) <= Ids(sorted) && Ascending(sorted)
    ensures sorted[i].id <= i
  {
    if sorted[i].id > i {
      forall x | x in Range(0, i + 1)
        ensures x in Ids(sorted[..i])
      {
        SmallerStandBefore(sorted, i, x);
      }
      SubsetSize(Range(0, i + 1), Ids(sorted[..i]));
      IdsBound(sorted[..i]);
    }
  }

  /** The ids from i on need more than the places after i. */
  lemma NotBelow(sorted: seq<AgentOutcome>, count: nat, i: nat)
    requires i < |sorted| == count && Range(i, count) <= Ids(sorted) && Ascending(sorted)
    ensures sorted[i].id >= i
  {
    if sorted[i].id < i {
      forall x | x in Range(i, count)
        ensures x in Ids(sorted[i + 1..])
      {
        GreaterStandAfter(sorted, i, x);
      }
      SubsetSize(Range(i, count), Ids(sorted[i + 1..]));
      IdsBound(sorted[i + 1..]);
    }
  }
}
