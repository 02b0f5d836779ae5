# ai-town test harness, modelled in Dafny

This project models the test harness of the ai-town simulation (`convex/testing.ts`).
The harness drives autonomous agents through decision cycles and builds reproducible
scenarios. Each entry point is modelled as a pure function over an abstract snapshot
of the database. An entry point returns either a result value or the ordered trace of
the calls it makes into its collaborators.

- `Store` (store.dfy) is the abstract database. It holds the latest world (if any) and
  that world's roster: an ordered `seq` of players, each with an optional agent id. It
  also holds the player table, which resolves single ids, and the agent table, which
  maps an agent id to an agent with a `thinking` flag. The last part is the journal of
  typed, timestamped entries.
- `Convergence` (convergence.dfy) models `converge`. It stops the first roster player,
  then walks every later agent-driven player toward it.
- `ThinkingGate` (thinking.dfy) models `setThinking`, which marks agents as busy.
- `Drivers` (drivers.dfy) models `runAgentLoop`, `runAgentLoopClear`, `runConversation`
  and `runConversationClear` as traces of collaborator events.
- `Sorting` and `Messages` (sorting.dfy, messages.dfy) model `listMessages`. It
  collects the "talking" entries of the roster, maps them to display messages and sorts
  them by timestamp.

JavaScript's optional numbers are `Option<int>`. The two defaulting operators are
modelled separately. `numberOfLoops || 100` (`Drivers.LoopCount`) treats both an absent
value and `0` as 100. `conversationCount ?? 1` (`Drivers.ConversationCount`) only
replaces an absent value, so an explicit `0` means no conversation at all.

The interaction handler is a collaborator. Whether it throws is a parameter,
`failsAt: Option<nat>`, which gives the index of the first call that throws. The chat
message mapper is a parameter too: a function from an entry to a message that carries
a `ts`.

Behaviours of `testing.ts` that are easy to misread, and how the model treats them:

- `runAgentLoop` with `numberOfLoops = 0` runs 100 iterations, not zero, because `||`
  treats `0` as absent.
- A negative loop count never reaches zero under `index-- != 0`, so the loop never
  ends. The model therefore requires the count to be non-negative.
- `setThinking` skips ids that resolve to no player. However, it patches
  `player.agentId!` without a check. A resolved player with no agent, or with an agent id
  whose document is missing, makes the mutation throw. The mutation is transactional, so
  nothing is changed. The model returns `Failure(MissingAgent(..))` in that case.
- `converge` on an empty roster reads `players[0]._id` from `undefined`, which throws.
  The model reports this as `Failure(EmptyRoster)`.
- `runConversationClear` forwards only `maxMessages`. The conversation count is
  therefore always the default, and exactly one conversation runs.

## Model

| member | source | states |
|---|---|---|
| Convergence.Converge | convex/testing.ts:13-26 | With no world it fails with NoWorld, and with an empty roster it fails with EmptyRoster. Otherwise the first command is `stop(players[0])`. Every later command is a walk with an empty ignore list toward `players[0]`. The number of walks equals the number of agent-bearing players after index 0. |
| Convergence.Walks | convex/testing.ts:21-25 | After visiting players `1..k-1`, the loop has issued one walk per agent-bearing player among them. Every walk has an empty ignore list and targets `players[0]`. |
| Convergence.WalksMembership | convex/testing.ts:21-25 | Agent `a` is walked toward the target exactly when some player in `1..k-1` carries `a`. |
| Convergence.WalksInRosterOrder | convex/testing.ts:21-25 | Walks are issued in roster order: the walks for the first `j` players form a prefix of the walks for the first `k`. |
| Convergence.ConvergeStopsOnce | convex/testing.ts:19-20 | Exactly one command is a stop, and it comes first. |
| Convergence.ConvergeSinglePlayer | convex/testing.ts:19-25 | A one-player roster yields only `stop(players[0])`. |
| Convergence.ConvergeWalksExactly | convex/testing.ts:21-25 | An agent is walked exactly when a player after index 0 carries it. If agents are distinct, the target's own agent is never walked. |
| ThinkingGate.Resolve | convex/testing.ts:117 | `pruneNull(asyncMap(ids, db.get))` keeps exactly the players the ids resolve to, and has no more entries than the ids. |
| ThinkingGate.Patch | convex/testing.ts:118-120 | The patches succeed exactly when every resolved player has an agent present in the agent table. On success, those agents, and only those, have `thinking` set. No agent is added or removed. |
| ThinkingGate.SetThinking | convex/testing.ts:114-122 | It succeeds exactly when every resolving id leads to an existing agent. On success, `thinking` becomes true for the agents reached through the ids. Every other agent, each agent's other fields, and the rest of the store are unchanged. |
| ThinkingGate.SetThinkingIdempotent | convex/testing.ts:117-120 | Applying `setThinking` twice with the same ids gives the same store as applying it once. |
| Drivers.LoopTrace | convex/testing.ts:150-153 | `n` iterations make exactly `2n` calls, alternating: setThinking(ids) at even positions and runAgentBatch(ids, noSchedule = true) at odd ones. Each setThinking therefore directly precedes its batch. |
| Drivers.RunAgentLoop | convex/testing.ts:138-153 | With no world it fails before any call. Otherwise it makes `LoopCount(numberOfLoops)` iterations over the full roster id list: the count, or 100 when the count is absent or falsy. An absent count and `0` both give 200 calls, and a positive count `n` gives `2n`. |
| Drivers.LoopTraceCounts | convex/testing.ts:150-153 | A loop of `n` iterations makes exactly `n` batch calls and `n` setThinking calls, and no reset. |
| Drivers.RunAgentLoopClear | convex/testing.ts:124-131 | resetFrozen comes first and occurs exactly once. The rest of the trace, and the outcome, are those of the plain loop. |
| Drivers.Conversations | convex/testing.ts:175-183 | Each handler call receives the full roster. If the call at index `j < k` throws, exactly `j + 1` calls are made and the run ends with that error. Otherwise exactly `k` calls are made. |
| Drivers.RunConversation | convex/testing.ts:166-184 | With no world it fails before any call. Otherwise, unless a call within the count throws, the handler is called `conversationCount ?? 1` times without error, or not at all for a count below 1. An absent count gives exactly one call, and an explicit `0` makes no call. A call that throws ends the run with its error after exactly that many calls, and the remaining calls are not made. |
| Drivers.RunConversationClear | convex/testing.ts:157-164 | resetFrozen comes first and occurs exactly once, and the rest is the plain driver with no conversation count. With a world, the trace is exactly reset followed by one interaction. |
| Sorting.InsertPermutation | convex/testing.ts:110 | Inserting adds exactly the inserted message and lengthens the sequence by one. |
| Sorting.InsertSorted | convex/testing.ts:110 | Inserting into a `ts`-sorted sequence keeps it sorted. |
| Sorting.SortByTs | convex/testing.ts:110 | `sort((a, b) => a.ts - b.ts)` returns a permutation of its input that is nondecreasing in `ts`. |
| Messages.TalkingOfCount | convex/testing.ts:97-103 | The per-player index query returns each talking entry of that player as often as the journal holds it, and nothing else. |
| Messages.CollectedCount | convex/testing.ts:95-107 | The flattened per-player results hold a talking entry once for each roster occurrence of its player. They never hold an entry of another type. |
| Messages.CollectedMember | convex/testing.ts:95-107 | An entry is collected exactly when it is a talking entry of a roster player. |
| Messages.MapPermutation | convex/testing.ts:105-109 | Mapping two permutations of each other through the message mapper gives two permutations of each other. |
| Messages.ListMessages | convex/testing.ts:88-111 | With no world the result is empty, with no error. Otherwise it is sorted nondecreasing by `ts` and is a permutation of the mapped, collected talking entries. |
| Messages.ListMessagesMembership | convex/testing.ts:93-110 | A message is listed exactly when it is the mapping of a talking journal entry written by a roster player. Other entry types and other players never contribute. |
| Messages.ListMessagesIsSortedPermutation | convex/testing.ts:93-110 | For a roster of distinct players, the listing is sorted. It is a permutation of the journal's talking entries whose player is in the roster, mapped. |

## Left out

- Database plumbing (`ctx.db.query`, `withIndex`, `order('desc').first()`, `runQuery`, `runMutation`, `runAction`) is abstracted into the `Store` snapshot. The latest world is an `Option`, and the roster is the ordered sequence the player-listing collaborator returns.
- The internals of collaborators (`getAllPlayers`, `getPlayer`, `stop`, `walk`, `runAgentBatch`, `resetFrozen`, `handleAgentInteraction`, `clientMessageMapper`) are not modelled. They appear only as trace events or as a parameter. The player id that `getPlayer` reports is taken to be the player document's id.
- `MemoryDB(ctx)` and the activity callback of `runConversation` only create a handle and log, so they are not modelled.
- `console.log` output is not modelled, and neither is the unused `randomX`/`displacement` computation in `runAgentLoop`. Neither has an observable effect.
- The read-only debug accessors `agentState`, `getDebugPlayers`, `allPlayers`, `latestPlayer` and `debugPlayerIdSnapshot` are not modelled, because they have no logic of their own. `debugAgentSnapshotWithThinking` is not modelled either; it is a single non-null-asserted patch. Of `getDebugPlayers`, only the NoWorld failure and the roster id list are used, through the drivers.
- `asyncMap` concurrency is modelled as a sequential map, because only the collected result is observable.
- JavaScript numbers that are not integers are not modelled. `NaN` is falsy, so it gives 100 loops. A fractional loop count never reaches 0. A fractional conversation count rounds up.
- Drivers.RunAgentLoop: setThinking and runAgentBatch are opaque events that are assumed to succeed. A failure inside them, such as an agent-less roster player making setThinking throw, is not threaded into the loop's trace.
- Convergence.Converge: `stop` and `walk` are assumed to succeed. Their own failures are not modelled.
- Sorting.SortByTs: sort stability is not stated. The source relies on the engine's `Array.prototype.sort` and promises only ascending `ts`. The result is proved sorted and a permutation.
- The `maxMessages` argument of `runConversation` and `runConversationClear` is accepted and ignored, as in the source.
