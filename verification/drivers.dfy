/**
 * The loop and conversation drivers (`runAgentLoop`, `runConversation` and
 * their `...Clear` variants), modelled as the ordered trace of collaborator
 * calls they make.
 */
module Drivers {
  import opened Wrappers
  import opened Store

  /** One call into a collaborator. */
  datatype Event =
    | SetThinkingCall(playerIds: seq<PlayerId>)
    | AgentBatch(playerIds: seq<PlayerId>, noSchedule: bool)
    | ResetFrozen
    | Interaction(playerIds: seq<PlayerId>)

  /** The calls made, in order, and the error the driver ended with, if any. */
  datatype Run = Run(trace: seq<Event>, error: Option<Error>)

  /** How often `e` occurs in `t`. */
  function Occurrences(t: seq<Event>, e: Event): nat
  {
    multiset(t)[e]
  }

  /**
   * `numberOfLoops || 100`: an absent count and an explicit `0` are both
   * falsy, so both mean 100.
   */
  function LoopCount(numberOfLoops: Option<int>): int
  {
    match numberOfLoops
    case None => 100
    case Some(n) => if n == 0 then 100 else n
  }

  /**
   * `conversationCount ?? 1`: only an absent count means 1; an explicit `0`
   * stays 0.
   */
  function ConversationCount(conversationCount: Option<int>): int
  {
    match conversationCount
    case None => 1
    case Some(c) => c
  }

  /** How many times `conversationIdx < (conversationCount ?? 1)` lets the loop body run. */
  function ConversationRuns(conversationCount: Option<int>): nat
  {
    var count := ConversationCount(conversationCount);
    if count < 0 then 0 else count
  }

  /** The calls of `n` loop iterations, each marking the ids then dispatching one batch. */
  function LoopTrace(ids: seq<PlayerId>, n: nat): (t: seq<Event>)
    ensures |t| == 2 * n
    ensures forall i :: 0 <= i < |t| ==>
      t[i] == if i % 2 == 0 then SetThinkingCall(ids) else AgentBatch(ids, true)
  {
    if n == 0 then []
    else LoopTrace(ids, n - 1) + [SetThinkingCall(ids), AgentBatch(ids, true)]
  }

  /** `runAgentLoop`: fails without a world, otherwise runs `numberOfLoops || 100` iterations. */
  function RunAgentLoop(s: Store, numberOfLoops: Option<int>): (r: Run)
    requires numberOfLoops.Some? ==> numberOfLoops.value >= 0
    ensures s.latestWorld.None? ==> r == Run([], Some(NoWorld))
    ensures s.latestWorld.Some? ==>
      && r.error == None
      && |r.trace| == 2 * LoopCount(numberOfLoops)
      && forall i :: 0 <= i < |r.trace| ==>
           r.trace[i] == if i % 2 == 0 then SetThinkingCall(RosterIds(s.roster))
                         else AgentBatch(RosterIds(s.roster), true)
    ensures s.latestWorld.Some? && (numberOfLoops == None || numberOfLoops == Some(0)) ==> |r.trace| == 200
    ensures s.latestWorld.Some? && numberOfLoops.Some? && numberOfLoops.value > 0 ==>
      |r.trace| == 2 * numberOfLoops.value
  {
    if s.latestWorld.None? then Run([], Some(NoWorld))
    else Run(LoopTrace(RosterIds(s.roster), LoopCount(numberOfLoops)), None)
  }

  /** Every batch of the loop is dispatched exactly once per iteration, never scheduled. */
  lemma {:induction false} LoopTraceCounts(ids: seq<PlayerId>, n: nat)
    ensures Occurrences(LoopTrace(ids, n), AgentBatch(ids, true)) == n
    ensures Occurrences(LoopTrace(ids, n), SetThinkingCall(ids)) == n
    ensures Occurrences(LoopTrace(ids, n), ResetFrozen) == 0
  {
    if n > 0 {
      LoopTraceCounts(ids, n - 1);
      var prev := LoopTrace(ids, n - 1);
      assert multiset(LoopTrace(ids, n)) == multiset(prev) + multiset{SetThinkingCall(ids), AgentBatch(ids, true)} by {
        assert LoopTrace(ids, n) == prev + [SetThinkingCall(ids), AgentBatch(ids, true)];
      }
    }
  }

  /** `runAgentLoopClear`: reset the agents once, then run the plain loop. */
  function RunAgentLoopClear(s: Store, numberOfLoops: Option<int>): (r: Run)
    requires numberOfLoops.Some? ==> numberOfLoops.value >= 0
    ensures |r.trace| >= 1 && r.trace[0] == ResetFrozen
    ensures r.trace[1..] == RunAgentLoop(s, numberOfLoops).trace
    ensures r.error == RunAgentLoop(s, numberOfLoops).error
    ensures forall i :: 1 <= i < |r.trace| ==> r.trace[i] != ResetFrozen
  {
    var inner := RunAgentLoop(s, numberOfLoops);
    Run([ResetFrozen] + inner.trace, inner.error)
  }

  /**
   * The calls of `k` conversations when the handler throws on call
   * `failsAt` (if ever): each call receives the whole roster, and a throwing
   * call ends the run.
   */
  function Conversations(ids: seq<PlayerId>, k: nat, failsAt: Option<nat>): (r: Run)
    ensures failsAt.Some? && failsAt.value < k ==>
      && r.error == Some(InteractionFailed(failsAt.value))
      && |r.trace| == failsAt.value + 1
    ensures !(failsAt.Some? && failsAt.value < k) ==>
      && r.error == None
      && |r.trace| == k
    ensures forall i :: 0 <= i < |r.trace| ==> r.trace[i] == Interaction(ids)
  {
    if k == 0 then Run([], None)
    else
      var prev := Conversations(ids, k - 1, failsAt);
      if prev.error.Some? then prev
      else if failsAt == Some(k - 1) then Run(prev.trace + [Interaction(ids)], Some(InteractionFailed(k - 1)))
      else Run(prev.trace + [Interaction(ids)], None)
  }

  /**
   * `runConversation`: fails without a world, otherwise calls the interaction
   * handler `conversationCount ?? 1` times (none for a count below 1).
   * `maxMessages` is accepted and ignored, as in the source.
   */
  function RunConversation(s: Store, maxMessages: Option<int>, conversationCount: Option<int>,
                           failsAt: Option<nat>): (r: Run)
    ensures s.latestWorld.None? ==> r == Run([], Some(NoWorld))
    ensures s.latestWorld.Some? ==> forall i :: 0 <= i < |r.trace| ==> r.trace[i] == Interaction(RosterIds(s.roster))
    ensures s.latestWorld.Some? && !(failsAt.Some? && failsAt.value < ConversationRuns(conversationCount)) ==>
      r.error == None && |r.trace| == ConversationRuns(conversationCount)
    ensures s.latestWorld.Some? && conversationCount == None ==> |r.trace| == 1
    ensures s.latestWorld.Some? && conversationCount == Some(0) ==> r == Run([], None)
    ensures s.latestWorld.Some? && failsAt.Some? && failsAt.value < ConversationRuns(conversationCount) ==>
      r.error == Some(InteractionFailed(failsAt.value)) && |r.trace| == failsAt.value + 1
  {
    if s.latestWorld.None? then Run([], Some(NoWorld))
    else
      Conversations(RosterIds(s.roster), ConversationRuns(conversationCount), failsAt)
  }

  /**
   * `runConversationClear`: reset the agents once, then run one conversation;
   * only `maxMessages` is forwarded, so the count is always the default.
   */
  function RunConversationClear(s: Store, maxMessages: Option<int>, failsAt: Option<nat>): (r: Run)
    ensures |r.trace| >= 1 && r.trace[0] == ResetFrozen
    ensures r.trace[1..] == RunConversation(s, maxMessages, None, failsAt).trace
    ensures r.error == RunConversation(s, maxMessages, None, failsAt).error
    ensures forall i :: 1 <= i < |r.trace| ==> r.trace[i] != ResetFrozen
    ensures s.latestWorld.Some? ==> r.trace == [ResetFrozen, Interaction(RosterIds(s.roster))]
  {
    var inner := RunConversation(s, maxMessages, None, failsAt);
    Run([ResetFrozen] + inner.trace, inner.error)
  }
}
