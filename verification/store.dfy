/**
 * The abstract database the test harness reads and writes: the latest world,
 * its player roster, the player and agent tables and the journal.
 */
module Store {
  import opened Wrappers

  type PlayerId = nat
  type AgentId = nat
  type WorldId = nat

  /** A player document; `agentId` is absent for players not driven by an agent. */
  datatype Player = Player(id: PlayerId, agentId: Option<AgentId>)

  /** An agent document; `thinking` marks an outstanding decision request. */
  datatype Agent = Agent(worldId: WorldId, thinking: bool)

  /** The payload of a journal entry, tagged by its type; only `Talking` matters here. */
  datatype EntryData =
    | Talking(audience: seq<PlayerId>, content: string)
    | Other(kind: string)

  /** One journal entry, written by a player. */
  datatype Entry = Entry(playerId: PlayerId, ts: int, data: EntryData)

  /** The display form of a talking entry, as produced by the chat message mapper. */
  datatype ClientMessage = ClientMessage(ts: int, from: PlayerId, content: string)

  /**
   * A snapshot of the database. `roster` is the ordered player list of the
   * latest world, as the player-listing collaborator returns it; `players`
   * is the whole player table, used when single ids are resolved.
   */
  datatype Store = Store(
    latestWorld: Option<WorldId>,
    roster: seq<Player>,
    players: map<PlayerId, Player>,
    agents: map<AgentId, Agent>,
    journal: seq<Entry>
  )

  /** Everything an entry point of the harness can throw. */
  datatype Error =
    | NoWorld                      // no world exists yet
    | EmptyRoster                  // `players[0]` read from an empty roster
    | MissingAgent(player: PlayerId) // a patch through an absent or dangling agent id
    | InteractionFailed(index: nat)  // the interaction handler threw on call `index`

  /** The ids of a roster, in roster order. */
  function RosterIds(roster: seq<Player>): (ids: seq<PlayerId>)
    ensures |ids| == |roster|
    ensures forall i :: 0 <= i < |roster| ==> ids[i] == roster[i].id
  {
    seq(|roster|, i requires 0 <= i < |roster| => roster[i].id)
  }

  /** No two players of the roster share an agent. */
  predicate DistinctAgents(roster: seq<Player>)
  {
    forall i, j :: 0 <= i < j < |roster| && roster[i].agentId.Some? ==> roster[i].agentId != roster[j].agentId
  }
}
