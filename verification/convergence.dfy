/**
 * The convergence director: stop the first player of the roster, then walk
 * every other agent-driven player toward it.
 */
module Convergence {
  import opened Wrappers
  import opened Store

  /** A movement command handed to the movement executor. */
  datatype Command =
    | Stop(playerId: PlayerId)
    | Walk(agentId: AgentId, ignore: seq<PlayerId>, target: PlayerId)

  /** The indices in `[1, k)` of roster players that have an agent. */
  ghost function AgentIndices(roster: seq<Player>, k: nat): set<nat>
  {
    set i: nat | 1 <= i < k && i < |roster| && roster[i].agentId.Some?
  }

  /** The command, if any, issued for one non-target player. */
  function WalkFor(p: Player, target: PlayerId): seq<Command>
  {
    match p.agentId
    case Some(a) => [Walk(a, [], target)]
    case None => []
  }

  /**
   * The walk commands issued for roster players `1 .. k-1`, in roster order:
   * the state of the source's loop after it has visited those players.
   */
  function Walks(roster: seq<Player>, k: nat): (r: seq<Command>)
    requires 1 <= k <= |roster|
    ensures |r| == |AgentIndices(roster, k)|
    ensures forall c :: c in r ==> c.Walk? && c.ignore == [] && c.target == roster[0].id
  {
    if k == 1 then
      assert AgentIndices(roster, k) == {};
      []
    else
      var prev := Walks(roster, k - 1);
      var p := roster[k - 1];
      assert AgentIndices(roster, k) == AgentIndices(roster, k - 1) + (if p.agentId.Some? then {k - 1} else {});
      prev + WalkFor(p, roster[0].id)
  }

  /** `converge`: the commands issued, or the error thrown before any is issued. */
  function Converge(s: Store): (r: Result<seq<Command>, Error>)
    ensures s.latestWorld.None? ==> r == Failure(NoWorld)
    ensures s.latestWorld.Some? && s.roster == [] ==> r == Failure(EmptyRoster)
    ensures s.latestWorld.Some? && s.roster != [] ==>
      && r.Success?
      && 1 <= |r.value|
      && r.value[0] == Stop(s.roster[0].id)
      && |r.value| == 1 + |AgentIndices(s.roster, |s.roster|)|
      && (forall i :: 1 <= i < |r.value| ==>
            r.value[i].Walk? && r.value[i].ignore == [] && r.value[i].target == s.roster[0].id)
  {
    if s.latestWorld.None? then Failure(NoWorld)
    else if s.roster == [] then Failure(EmptyRoster)
    else
      var walks := Walks(s.roster, |s.roster|);
      assert forall i :: 1 <= i < 1 + |walks| ==> ([Stop(s.roster[0].id)] + walks)[i] == walks[i - 1];
      Success([Stop(s.roster[0].id)] + walks)
  }

  /** An agent is walked exactly when one of the players `1 .. k-1` carries it. */
  lemma {:induction false} WalksMembership(roster: seq<Player>, k: nat, a: AgentId)
    requires 1 <= k <= |roster|
    ensures Walk(a, [], roster[0].id) in Walks(roster, k) <==>
      exists i :: 1 <= i < k && roster[i].agentId == Some(a)
  {
    if k > 1 {
      WalksMembership(roster, k - 1, a);
    }
  }

  /** Walks are issued in roster order: those of earlier players come first. */
  lemma {:induction false} WalksInRosterOrder(roster: seq<Player>, j: nat, k: nat)
    requires 1 <= j <= k <= |roster|
    ensures Walks(roster, j) <= Walks(roster, k)
    decreases k - j
  {
    if j < k {
      WalksInRosterOrder(roster, j, k - 1);
      assert Walks(roster, k) == Walks(roster, k - 1) + WalkFor(roster[k - 1], roster[0].id);
      PrefixExtends(Walks(roster, j), Walks(roster, k - 1), WalkFor(roster[k - 1], roster[0].id));
    }
  }

  lemma PrefixExtends<T>(a: seq<T>, b: seq<T>, c: seq<T>)
    requires a <= b
    ensures a <= b + c
  {
  }

  /** Exactly one command is a stop, and it targets the first roster player. */
  lemma ConvergeStopsOnce(s: Store)
    requires s.latestWorld.Some? && s.roster != []
    ensures Converge(s).Success?
    ensures forall i :: 0 <= i < |Converge(s).value| ==>
      (Converge(s).value[i].Stop? <==> i == 0)
  {
  }

  /** A one-player roster yields only the stop. */
  lemma ConvergeSinglePlayer(s: Store)
    requires s.latestWorld.Some? && |s.roster| == 1
    ensures Converge(s) == Success([Stop(s.roster[0].id)])
  {
    assert Walks(s.roster, 1) == [];
    assert [Stop(s.roster[0].id)] + [] == [Stop(s.roster[0].id)];
  }

  /**
   * An agent is walked toward the target exactly when some player after the
   * first carries it; with distinct agents, the target's own agent never is.
   */
  lemma {:induction false} ConvergeWalksExactly(s: Store, a: AgentId)
    requires s.latestWorld.Some? && s.roster != []
    ensures Converge(s).Success?
    ensures Walk(a, [], s.roster[0].id) in Converge(s).value <==>
      exists i :: 1 <= i < |s.roster| && s.roster[i].agentId == Some(a)
    ensures DistinctAgents(s.roster) && s.roster[0].agentId == Some(a) ==>
      forall c :: c in Converge(s).value ==> !(c.Walk? && c.agentId == a)
  {
    var walks := Walks(s.roster, |s.roster|);
    assert Converge(s).value == [Stop(s.roster[0].id)] + walks;
    WalksMembership(s.roster, |s.roster|, a);
    if DistinctAgents(s.roster) && s.roster[0].agentId == Some(a) {
      forall c | c in Converge(s).value
        ensures !(c.Walk? && c.agentId == a)
      {
      }
    }
  }
}
