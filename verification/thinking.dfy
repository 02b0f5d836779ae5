/**
 * The thinking gate (`setThinking`): mark the agents of a list of players as
 * busy so that a batch is not dispatched twice for the same agent.
 */
module ThinkingGate {
  import opened Wrappers
  import opened Store

  /** Some id of `ids` resolves to a player whose agent is `a`. */
  ghost predicate Marked(players: map<PlayerId, Player>, ids: seq<PlayerId>, a: AgentId)
  {
    exists i :: 0 <= i < |ids| && ids[i] in players && players[ids[i]].agentId == Some(a)
  }

  /** Every id that resolves to a player names an agent present in the agent table. */
  ghost predicate AllResolvable(s: Store, ids: seq<PlayerId>)
  {
    forall i :: 0 <= i < |ids| && ids[i] in s.players ==>
      s.players[ids[i]].agentId.Some? && s.players[ids[i]].agentId.value in s.agents
  }

  /** Fetch each id, dropping the ones with no player document, keeping their order. */
  function Resolve(players: map<PlayerId, Player>, ids: seq<PlayerId>): (r: seq<Player>)
    ensures |r| <= |ids|
    ensures forall p :: p in r <==> exists i :: 0 <= i < |ids| && ids[i] in players && players[ids[i]] == p
  {
    if ids == [] then []
    else
      var rest := Resolve(players, ids[1..]);
      if ids[0] in players then [players[ids[0]]] + rest else rest
  }

  /**
   * Patch `thinking := true` on the agent of each resolved player, in order;
   * the first player without an agent, or whose agent document is missing,
   * makes the whole mutation fail.
   */
  function Patch(agents: map<AgentId, Agent>, resolved: seq<Player>): (r: Result<map<AgentId, Agent>, Error>)
    ensures r.Success? <==> forall p :: p in resolved ==> p.agentId.Some? && p.agentId.value in agents
    ensures r.Success? ==> r.value.Keys == agents.Keys
    ensures r.Success? ==> forall a :: a in agents ==>
      r.value[a] == if (exists p :: p in resolved && p.agentId == Some(a)) then agents[a].(thinking := true) else agents[a]
  {
    if resolved == [] then Success(agents)
    else
      var p := resolved[0];
      assert forall q :: q in resolved <==> q == p || q in resolved[1..];
      match p.agentId
      case None => Failure(MissingAgent(p.id))
      case Some(a) =>
        if a !in agents then Failure(MissingAgent(p.id))
        else Patch(agents[a := agents[a].(thinking := true)], resolved[1..])
  }

  /**
   * `setThinking`: on success every agent reached through `ids` is marked
   * thinking and nothing else in the store changes; a failure rolls the
   * mutation back, so the caller keeps its store.
   */
  function SetThinking(s: Store, ids: seq<PlayerId>): (r: Result<Store, Error>)
    ensures r.Success? <==> AllResolvable(s, ids)
    ensures r.Success? ==>
      && r.value.latestWorld == s.latestWorld
      && r.value.roster == s.roster
      && r.value.players == s.players
      && r.value.journal == s.journal
      && r.value.agents.Keys == s.agents.Keys
    ensures r.Success? ==> forall a :: a in s.agents ==>
      && r.value.agents[a].worldId == s.agents[a].worldId
      && r.value.agents[a].thinking == (s.agents[a].thinking || Marked(s.players, ids, a))
  {
    var resolved := Resolve(s.players, ids);
    match Patch(s.agents, resolved)
    case Failure(e) => Failure(e)
    case Success(agents) => Success(s.(agents := agents))
  }

  /** Marking the same ids twice leaves the store as marking them once. */
  lemma SetThinkingIdempotent(s: Store, ids: seq<PlayerId>)
    requires SetThinking(s, ids).Success?
    ensures SetThinking(SetThinking(s, ids).value, ids) == SetThinking(s, ids)
  {
    var s1 := SetThinking(s, ids).value;
    var s2 := SetThinking(s1, ids).value;
    assert s2.agents == s1.agents;
  }
}
