# Maze client, lifecycle protocol and map generator: a verified model

This project models four parts of the repository in Dafny 4.11 and proves what they are for.

**The lifecycle protocol** (`Lifecycle`, `ServerCommand`, `Network`, `Session`, `TaskSession`). A synchronous
client sends commands numbered 1, 2, 3, ...; the server remembers one applied command. `ServerCommand` holds the
replay window and the command helpers as classes, `Session` and `TaskSession` hold the client's exchange loop,
command methods and session order as classes. `Network` joins client and server over a network that may lose,
duplicate and delay every RPC attempt for as long as it likes; runs are lists of events, and the theorems are
about every run. Handlers are a free choice: commit any phase and body, reject, or answer WAIT.

**The environment and the Episode loop** (`Moves`, `ShortestPath`, `MazeEnv`, `ActionReceipt`, `Episode`,
`Outcome`). The grid simulator is a class; one agent's life, one frame's batch and a whole Episode are described
by functions and predicates on values, and every method is proved against them.

**The map generator** (`Rooms`, `Sparing`, `Expansion`, `Obstacles`, `Generator`, `Segments`, `Bitmap`). Every random draw is
an arbitrary choice or an arbitrary function, so each theorem speaks of every outcome of the random generator.

**The replay server's line index** (`LineIndex`).

## What turned out false, and when it holds

- *A failed command was not applied.* Over every run of the network a rejected, stopped or expired verdict is right
  iff none of the command's own attempts was applied when nobody waited for it any more, and a confirmed one is right
  iff no attempt of an earlier command with the same number was (`Network.VerdictsExactly`). Late processing that is
  only replayed or refused does no harm, and without late processing all verdicts are right
  (`Network.VerdictsAreSound`). A run that goes wrong: a stopped Begin is applied late by a handler that commits
  phase CLOSED; since request bytes do not name the RPC, the Close sent next is answered from the window and
  confirmed (`Network.LateBeginConfirmsClose`). Had the handler committed a phase of Begin, the client would judge
  that Close Unknown (`Network.ReplayedBeginIsUnknown`). `Network.ExactlyOncePerRpc` gives conditions under which the bytes do identify the RPC.
- *A session that could be cleaned up ends CLOSED.* It does iff it did not stop in EPISODE_TERMINAL, a phase in
  which neither Abort nor Close is sent (`TaskSession.Binding.Finish`). A session gets there by a confirmed Update
  whose EndEpisode is refused (`TaskSession.TerminalIsReached`).
- *Generated maps are always solvable*, as the generator's description promises
  (tools/map_generator/generate_maze.py:853-855). A map has a positive length whatever is carved, opened and drawn
  iff start and goal room differ and one of four things holds: rooms are not two cells wide; there are no obstacles;
  start and goal room are at most two apart in both directions; the extra opening leaves fewer walls than stand
  between the two cleared squares (`Generator.SuccessIsCertain`). In the default mode this means: except for two-cell rooms with obstacles and
  four rooms or more along each side; then draws exist for which all hundred attempts fail
  (`Generator.GenerateReachableMap`).
- *The incremental line index equals a full scan.* For a file that grows in any number of steps it does iff at every
  step the text before ended with a whole line or the appended text starts with a blank line; a wrong entry is never
  mended until the file is cut short (`LineIndex.IndexedExactly`).
- *The border of a map is blocked.* So it is after the expansion (`Expansion.BorderIsBlocked`). In the finished map it
  is iff neither clearing reaches it: rooms have three cells and more, or both rooms keep away from the upper and
  right edge, and with one-cell rooms from all edges (`Obstacles.BorderStaysBlocked`); in the default mode iff rooms
  have three cells and more (`Obstacles.DefaultBorder`).

## Model

| member | source | states |
|---|---|---|
| Network.CheckMeans | proto/rl_sdk/include/rl_sdk/server_command.h:28-82 | In every server state that belongs to a log: a command proceeds iff it is the next number; the last one is replayed with its stored response iff the bytes agree and is a payload conflict otherwise; older ones are out of order |
| Network.CheckAdmits | proto/rl_sdk/include/rl_sdk/server_command.h:66-81 | For any request at all, also of another session: it proceeds iff its number is the next and both identities match; the next number under another session is InvalidIdentity, under another epoch StaleEpoch, and no refusal moves number or phase |
| Network.LastIsReplayed | proto/rl_sdk/include/rl_sdk/server_command.h:34-59 | The last number is answered by its bytes alone, before any identity is looked at: the same bytes give the stored response marked ALREADY_APPLIED with phase, number, pause and body unchanged, other bytes a payload conflict |
| Network.LookupInLog | proto/rl_sdk/include/rl_sdk/replay_window.h:21-44 | The window remembers exactly the last applied command, the reference memory every command of the log |
| Network.CommitKeeps | proto/rl_sdk/include/rl_sdk/server_command.h:84-98 | Applying the next command keeps all invariants of client, server, log and replies |
| Network.ReceiveKeeps | proto/rl_sdk/include/rl_sdk/session.h:100-129 | Whatever the client concludes from a reply keeps them too |
| Network.StepKeeps | proto/rl_sdk/include/rl_sdk/transport.h:22-44 | Every event of client, server or network, with retransmission, keeps them |
| Network.Reachable | proto/rl_sdk/include/rl_sdk/session.h:100-129 | They hold after every run |
| Network.ExactlyOnce | proto/rl_sdk/include/rl_sdk/session.h:45-56 | After every run the confirmed commands are a prefix of the applied log with the same identity, task fields and response body, the log is at most one longer and numbered 1, 2, 3, ..., and the client's phase is the one committed for the last confirmed command |
| Network.ExactlyOncePerRpc | proto/rl_sdk/include/rl_sdk/server_command.h:34-36 | With empty task fields in Begin, End and Close only, and handlers that commit phases of their own command, the confirmed requests equal the applied ones with their RPC |
| Network.VerdictsExactly | proto/rl_sdk/include/rl_sdk/session.h:58-79 | Over every run: a rejected, stopped or expired verdict is sound (no attempt of the command is ever applied) iff none of its attempts was applied late; a confirmed one is sound (applied once, by its own attempts) iff no attempt of an earlier command with its number was applied late |
| Network.VerdictsAreSound | proto/rl_sdk/include/rl_sdk/session.h:58-79 | Hence, when each attempt is processed at most once and not after its RPC ended, every verdict is sound, and an idle client has confirmed the whole log |
| Network.ConfirmedIsCommitted | proto/rl_sdk/include/rl_sdk/session.h:123-124 | After a confirmed command and until the next is sent, whatever still arrives late, the server has applied exactly the confirmed commands and is in the client's phase; with an Applied session, in CLOSED |
| Network.AcceptingAnswerConfirms | proto/rl_sdk/include/rl_sdk/task_client.h:85-158 | After every run: an accepting answer to the awaited command, first or replayed, confirms it iff the payload is in order and the phase is READY for Init and End, EPISODE_RUNNING or TASK_COMPLETE for Begin, EPISODE_RUNNING or EPISODE_TERMINAL for Update, ABORTED for Abort, CLOSED for Close, with no pause attached for Update and Abort; otherwise the outcome is Unknown |
| Network.CommitIsConfirmed | proto/rl_sdk/include/rl_sdk/server_command.h:84-98 | After every run: a command the server lets through and its handler commits is confirmed by that reply iff the phase is one of the same table and the payload is in order, else Unknown |
| Network.PostponedIsRetried | proto/rl_sdk/include/rl_sdk/session.h:111-121 | A handler that answers WAIT to a Begin, or with a positive pause to an Update or Abort, makes the client send the same request again; WAIT without such a pause ends Unknown |
| Network.RejectionIsConclusive | proto/rl_sdk/include/rl_sdk/server_command.h:100-108 | A handler's rejection of a command that was let through is always judged Rejected by the client |
| Network.FailedCheckIsUnknown | proto/rl_sdk/include/rl_sdk/server_command.h:37-45 | For the awaited command the check itself refuses only with a payload conflict, and the client judges that Unknown |
| Network.OneSlotRefinesHistory | proto/rl_sdk/include/rl_sdk/replay_window.h:14-19 | The one-slot server and a server that remembers everything admit the same runs, and after each run client, verdicts, log and awaited replies are equal |
| Network.LateDuplicatesAreInert | proto/rl_sdk/include/rl_sdk/replay_window.h:21-35 | Processing a command that was already passed changes nothing but the set of replies |
| Network.LateBeginConfirmsClose | proto/rl_sdk/include/rl_sdk/server_command.h:34-36 | A concrete run in which a stopped Begin is applied late and a Close is confirmed that was never applied |
| ServerCommand.LifecycleReplayWindow.Classify | proto/rl_sdk/include/rl_sdk/replay_window.h:21-35 | Decides as the search through a memory of one command does |
| ServerCommand.LifecycleReplayWindow.Store | proto/rl_sdk/include/rl_sdk/replay_window.h:37-44 | Afterwards the memory is this command alone |
| ServerCommand.SessionState.CheckCommand | proto/rl_sdk/include/rl_sdk/server_command.h:28-82 | Decision and response are those the protocol model uses, for every state |
| ServerCommand.SessionState.CommitCommand | proto/rl_sdk/include/rl_sdk/server_command.h:84-98 | New state and response are those of the protocol model's commit |
| ServerCommand.SessionState.RejectCommand | proto/rl_sdk/include/rl_sdk/server_command.h:100-108 | The response is that of the protocol model's rejection and the state is unchanged |
| Session.Session.AcceptCommandReply | proto/rl_sdk/include/rl_sdk/session.h:45-56 | Accepts iff the result is Applied or AlreadyApplied without error, the number is the expected one and the phase is one of the seven known; only then the cursor moves, by one and to that phase |
| Lifecycle.JudgeMeans | proto/rl_sdk/include/rl_sdk/session.h:58-79 | The verdict on an answer, in terms of what it proves: a pause iff it echoes the cursor with WAIT and a positive delay (100 ms for Begin, the one it names for Update and Abort), Confirmed and Refused iff it proves so; any other answer is Unknown |
| Session.Session.CappedDelay | proto/rl_sdk/include/rl_sdk/session.h:114-119 | The pause never exceeds the request and ends less than one millisecond after the budget; nothing is left once the budget is used up |
| Session.Session.Conclude | proto/rl_sdk/include/rl_sdk/session.h:123-126 | An answer that is no WAIT is Confirmed iff it proves the command applied (accepted, the right number, a listed phase, a payload in order, no pause), Refused iff it proves that nothing was applied, Unknown otherwise; the cursor moves iff it confirms |
| Session.Session.Exchange | proto/rl_sdk/include/rl_sdk/session.h:100-129 | All invocations carry the same request; confirmed iff the last answer proves the command applied, refused iff it proves nothing was. Exactly an answer that asks for a positive pause is followed by that pause and then by another invocation, unless the caller stops it or the budget is used up. Within a budget of B ms no invocation is made on a clock reading at B or later, at most B are made, no pause, counted from the reading it was cut by, reaches B+1 ms, and the loop ends by itself however often the stop callback says go on; WaitExpired only after the budget, Stopped iff the callback said so |
| TaskSession.TaskClient.Open | proto/rl_sdk/include/rl_sdk/task_client.h:58-83 | Applied iff the answer accepts with phase OPEN and number 0, names session, epoch and server, and the payload is in order: then the cursor is that session at number 1; Rejected iff the answer does not accept; otherwise Unknown with the cursor untouched |
| TaskSession.TaskClient.Exchange | proto/rl_sdk/include/rl_sdk/task_client.h:180-203 | What goes on the wire: every invocation names the RPC and body and carries session, epoch, number and Episode of the cursor before it; the next number is one higher iff confirmed. The error text is empty iff the command was applied and else tells the stop, the budget, the transport, the payload, the receipt or the server's own words |
| TaskSession.TaskClient.Send | proto/rl_sdk/include/rl_sdk/task_client.h:85-132 | The same for Init, Begin, Update and End, which never expire; nothing but phase, number and Episode changes, and the trace gains this command with exactly the invocations made for it |
| TaskSession.TaskClient.CleanUp | proto/rl_sdk/include/rl_sdk/task_client.h:134-165 | Abort and Close likewise; they keep an earlier error text as a prefix and extend it iff they fail themselves. An Abort keeps to its budget and ends without a stop; a Close never expires |
| TaskSession.TaskClient.PreserveFailure | proto/rl_sdk/include/rl_sdk/task_client.h:160-165 | An earlier error text stays, with the name of the cleanup command and its own error behind it iff that failed |
| TaskSession.TracedOneMore | proto/rl_sdk/include/rl_sdk/task_client.h:185-185 | One more command, allowed after the last one and carrying the cursor, keeps the trace: the invocations are those of its commands in order, and the number of each command is one more than the commands confirmed before it |
| TaskSession.MainPathIsDisciplined | proto/rl_sdk/include/rl_sdk/session.h:169-180 | A main path that stops at its first failure is disciplined and keeps that failure's text |
| TaskSession.CleanUpKeeps | proto/rl_sdk/include/rl_sdk/session.h:155-168 | One more cleanup command keeps the discipline and the first failing command's text |
| TaskSession.Binding.Finish | proto/rl_sdk/include/rl_sdk/session.h:155-168 | Unknown sends nothing; a rejected or expired main path is returned whatever cleanup does; with all cleanup confirmed the phase is CLOSED iff the main path did not stop in EPISODE_TERMINAL |
| TaskSession.TerminalIsReached | proto/rl_sdk/include/rl_sdk/task_client.h:43-56 | From every running Episode: an Update answered with EPISODE_TERMINAL is confirmed, the EndEpisode after it can be refused, and then neither Abort nor Close may be sent |
| TaskSession.Binding.RunSession | proto/rl_sdk/include/rl_sdk/session.h:151-181 | Over every run: the outcome is Applied iff every command is confirmed, the adapter declines nothing and nobody stops it, and then the phase is CLOSED. The invocations are exactly those of the commands sent, in an order of Open, Init, Begin, Update..., End, Begin, ..., Abort, Close; numbers start at 1 after Open and rise by one exactly after each confirmed command; no command after an Unknown, Abort only in EPISODE_RUNNING, Close only from a closable phase; the error text starts with that of the first failing command; the cursor names an Episode exactly while one runs or waits for its end |
| Moves.MoveIsReversible | src/maze/environment/maze_env.h:29-39 | Every available action is taken back by action ((a+3) mod 8)+1 from where it led, which is available there |
| Moves.WalkIsReversible | src/maze/environment/maze_env.cpp:281-294 | Every sequence of actions is taken back by one of the same length |
| Moves.DistanceIsSymmetric | src/maze/environment/maze_env.cpp:123-156 | The distance from start to goal is the distance from goal to start on every grid |
| Moves.MovesGoClockwise | src/maze/environment/maze_env.h:29-39 | Action 0 stays, 1 is up (y + 1), and the eight moves follow clockwise, each two on a quarter turn and each diagonal the sum of its neighbours |
| Moves.AvailableMeans | src/maze/environment/maze_env.cpp:281-294 | From an open cell an action is available iff its target and both cells beside a diagonal are open |
| ShortestPath.WalksAreCovered | src/maze/environment/maze_env.cpp:132-154 | Below its current level the distance table is right about every action sequence |
| ShortestPath.LevelIsDistance | src/maze/environment/maze_env.cpp:132-136 | The cell taken from the queue has its exact distance |
| ShortestPath.ExhaustedIsUnreachable | src/maze/environment/maze_env.cpp:155-155 | With the queue empty no action sequence leads to an undiscovered goal |
| ShortestPath.BreadthFirst | src/maze/environment/maze_env.cpp:123-156 | The result is the least number of actions of the real move rule, or -1 iff none leads there |
| MazeEnv.MazeEnv.Init | src/maze/environment/maze_env.cpp:73-104 | Succeeds iff there are agents and the goal is reachable from a different open start; then every agent is fresh and the stored length is the distance |
| MazeEnv.MazeEnv.ComputeShortestActionSteps | src/maze/environment/maze_env.cpp:123-156 | Distance or -1, on every grid including an empty one |
| MazeEnv.MazeEnv.Reset | src/maze/environment/maze_env.cpp:159-168 | All agents are fresh and the frame is 0 |
| MazeEnv.MazeEnv.IsActionAvailable | src/maze/environment/maze_env.cpp:281-294 | True iff the agent is not done and the corner-cut-free move rule on the open cells allows the action |
| MazeEnv.MazeEnv.GetActionMask | src/maze/environment/maze_env.cpp:248-259 | Nine flags, true exactly for the available actions of a live agent |
| MazeEnv.MazeEnv.Step | src/maze/environment/maze_env.cpp:171-218 | Refused with its reason and no change, or the agent alone acts: it moves iff the action is available, the bumped flag is set iff the action was not 0 and the agent stayed, it is done with GoalReached iff it stands on the goal and else with TimeLimit iff the frame reaches the limit |
| MazeEnv.LifeIsWalk | src/maze/environment/maze_env.cpp:201-216 | An agent stands where its actions walk to; it ended with GoalReached iff it stands on the goal, with TimeLimit iff it does not and its actions reach the limit |
| MazeEnv.BumpedMeansStayed | src/maze/environment/maze_env.cpp:201-207 | After any accepted actions the flag is set iff the last of them was not 0 and left the agent where it was |
| MazeEnv.GoalTakesDistance | src/maze/environment/maze_env.cpp:210-216 | No agent reaches the goal in fewer frames than the distance, and none acts more than max(1, max_steps) times |
| MazeEnv.GoalInDistance | src/maze/environment/maze_env.cpp:171-218 | If the limit allows the distance, actions exist that Step accepts one by one and that reach the goal in exactly that many frames |
| MazeEnv.ApplyAgent | src/maze/environment/maze_env.cpp:171-218 | After a batch each addressed agent took its own step and every other is untouched |
| MazeEnv.OrderIsIrrelevant | src/maze/protocol/client_adapter.cpp:369-387 | Any order of the same accepted actions gives the same environment |
| ActionReceipt.ActiveAgentCount | src/maze/action/action_receipt.h:26-33 | The size of the set of unretired agents |
| ActionReceipt.AttachExecutedActionReceipt | src/maze/action/action_receipt.h:35-50 | Attaches the remembered action iff the cursor fits the frame, else reports failure |
| ActionReceipt.RecordExecutedAction | src/maze/action/action_receipt.h:52-60 | Records iff the agent is not retired, no receipt is pending and the action exists |
| ActionReceipt.ExecuteAssignedAction | src/maze/action/action_receipt.h:64-78 | Succeeds iff Step accepts and the receipt can be recorded; then environment and cursor hold that action |
| ActionReceipt.CheckStates | src/maze/action/action_receipt.h:91-118 | Passes iff the Update names exactly the unretired agents, each once and with its own receipt (equal counts and distinct ids suffice) |
| ActionReceipt.CheckActions | src/maze/action/action_receipt.h:120-144 | Passes iff the answer holds one known action for exactly each agent not done, not forbidden by a mask; a missing mask forbids nothing |
| ActionReceipt.AcceptsMeans | src/maze/action/action_receipt.h:83-144 | The acceptance of an answer in terms of lists, without set counts: distinct known agents with matching receipts, and exactly one allowed action for each agent not done |
| ActionReceipt.PrepareAppliedAgentUpdate | src/maze/action/action_receipt.h:83-153 | Accepts iff all of that holds, written out over the lists themselves; the candidate clears the receipts of the reported agents, retires exactly the done ones and leaves the others |
| Episode.StatesMeaning | src/maze/protocol/client_adapter.cpp:302-341 | An observation reports exactly the unretired agents, each once and as it is |
| Episode.ReportSays | src/maze/protocol/client_adapter.cpp:308-339 | Each reported state carries the agent as it stands with its bumped flag, no receipt at frame 0 and the remembered action later, and nine mask flags of what is available for a live agent, if masks are required |
| Episode.ObservationContinues | src/maze/protocol/client_adapter.cpp:327-339 | Between frames no receipt can fail to attach, at least one agent is reported, and the receipts are agent by agent the actions of the batch before |
| Episode.AcceptedContinues | src/maze/protocol/client_adapter.cpp:347-350 | A confirmed answer can be executed in full and orders exactly the agents not done |
| Episode.AcceptedCursors | src/maze/action/action_receipt.h:146-151 | After it exactly the live agents are unretired, with cleared receipts |
| Episode.AcceptedMasks | src/maze/protocol/client_adapter.cpp:319-326 | With required masks every confirmed action is available where it is executed |
| Episode.AcceptsExactly | src/maze/action/action_receipt.h:83-144 | Between frames the client accepts an answer iff the reply is accepted and there is a batch with distinct ids, for exactly the agents not done, of actions 0 to 8, each available where it is executed if masks are required; without masks nothing more is asked |
| Episode.FrameContinues | src/maze/protocol/client_adapter.cpp:362-445 | Executing the whole batch and advancing the frame restores the invariant between frames |
| Episode.LiveSoFar | src/maze/protocol/client_adapter.cpp:304-307 | An agent reported in Update n was reported live in all Updates before and has executed n actions |
| Episode.GoneAfter | src/maze/action/action_receipt.h:147-151 | An agent once reported done is never reported again |
| Episode.FinalFacts | proto/rl_sdk/include/rl_sdk/session.h:134-148 | In a finished Episode each agent is reported in Updates 0..m and no later, is done in Update m only, and executed exactly m actions |
| Episode.GoalReportsAreEarned | src/maze/environment/maze_env.cpp:209-216 | Its last report is the state its own actions lead to; a goal report at frame m means m is at least the distance, a time-limit report that the limit was used up |
| Episode.Adapter.Begin | src/maze/protocol/client_adapter.cpp:279-282 | For every horizon, also one that SetMaxSteps ignores: fresh environment, empty history, and the invariant unless the chain failed before |
| Episode.Adapter.Observe | src/maze/protocol/client_adapter.cpp:301-343 | Builds the observation, or marks the chain failed iff some receipt cannot be attached |
| Episode.Adapter.Exchange | src/maze/protocol/client_adapter.cpp:344-360 | The cursors advance and a round is recorded iff the Update is confirmed and its answer acceptable |
| Episode.Adapter.Execute | src/maze/protocol/client_adapter.cpp:362-445 | An executable batch is executed in full: environment, frame and receipts are those of the batch |
| Episode.Adapter.Frame | proto/rl_sdk/include/rl_sdk/session.h:139-146 | One turn keeps the invariant and counts one frame, or ends with the outcome of its Update; the final one is confirmed iff its report is answered well; execution never fails |
| Episode.Adapter.RunEpisode | proto/rl_sdk/include/rl_sdk/session.h:134-148 | Confirmed iff nobody stops it and every Update is answered well; otherwise it ends as its last Update did or by the stop callback. At most max(1, max_steps) action rounds and one more Update, sent at frames 0, 1, ..., F, with F action rounds when applied; with masks no agent ever bumped into a wall |
| Outcome.CheckEpisodeOutcome | src/maze/protocol/client_adapter.cpp:85-117 | Passes iff it is this Episode's outcome and names every agent once with a terminal result, ranked iff it reached the goal |
| Outcome.SortedShowsEveryAgent | src/maze/protocol/client_adapter.cpp:118-121 | Sorted by id, the result of agent i stands at place i |
| Rooms.WallEdgeSet.constructor | tools/map_generator/generate_maze.py:145-158 | Every pair of neighbouring rooms has a wall; there are 2n(n-1) of them |
| Rooms.WallEdgeSet.RemoveWall | tools/map_generator/generate_maze.py:164-166 | Exactly the wall between the two rooms goes, in whichever order they are named |
| Rooms.ConnectedNeedsDoors | tools/map_generator/generate_maze.py:185-226 | A connected maze has at least one door fewer than rooms |
| Rooms.FewDoorsMakeATree | tools/map_generator/generate_maze.py:185-226 | A connected maze with just that many doors is a spanning tree: closing any door separates its two sides |
| Rooms.CarveOn | tools/map_generator/generate_maze.py:220-224 | Breaking through to an unvisited room keeps the carving invariant |
| Rooms.BackOut | tools/map_generator/generate_maze.py:216-218 | Leaving a room without unvisited neighbours keeps it |
| Rooms.UnvisitedNeighbours | tools/map_generator/generate_maze.py:210-214 | Exactly the unvisited neighbouring rooms |
| Rooms.EveryCarvingIsATree | tools/map_generator/generate_maze.py:206-226 | Every set of walls that some sequence of choices leaves is that of a spanning tree with (n-1)(n-1) walls |
| Rooms.GenerateMazeEdges | tools/map_generator/generate_maze.py:185-226 | For every sequence of choices it terminates, with walls that such a sequence leaves: a spanning tree of all n*n rooms and (n-1)(n-1) walls |
| Sparing.SomeCarvingSpares | tools/map_generator/generate_maze.py:206-226 | Some sequence of choices opens the walls between two neighbouring strips of rooms on one given end line only |
| Rooms.Opened | tools/map_generator/generate_maze.py:241-243 | The number of walls a ratio opens: the ratio's share rounded down, none at or below 0 and all from 1 on |
| Rooms.ExtraOpenWalls | tools/map_generator/generate_maze.py:229-245 | That many walls go, no wall appears, and a connected maze stays connected |
| Rooms.ClearSafeZone | tools/map_generator/generate_maze.py:252-271 | Exactly the walls with both sides in the clipped square go; a connected maze stays connected |
| Expansion.PlacesAreInside | tools/map_generator/generate_maze.py:368-385 | Rooms and corridors lie strictly inside the border |
| Expansion.BorderIsBlocked | tools/map_generator/generate_maze.py:372-405 | Every border cell of the expanded grid is blocked, for every wall set and room size |
| Expansion.MoveKeepsRooms | tools/map_generator/generate_maze.py:545-554 | A corner-cut-free move, straight or diagonal, stays among linked rooms |
| Expansion.WalkKeepsRooms | tools/map_generator/generate_maze.py:545-558 | So does every sequence of actions |
| Expansion.LinkedCorners | tools/map_generator/generate_maze.py:389-405 | Linked rooms are connected as long as the lowest row and leftmost column of every strip stay open |
| Expansion.ExpansionKeepsConnectivity | tools/map_generator/generate_maze.py:347-407 | Two room cells are connected by the agents' moves iff their rooms are linked by doors, for every wall set and room size |
| Expansion.EdgesToBlockedGrid | tools/map_generator/generate_maze.py:347-407 | The grid of booleans has n(K+1)+1 cells a side and is open exactly in rooms and in corridors without wall |
| Expansion.OpenGridMeans | tools/map_generator/generate_maze.py:372-405 | In coordinates: room (i, j) is open at columns i(K+1)+1 to i(K+1)+K and likewise rows, the K cells between two neighbours iff their wall is gone, the crossings and the border are blocked, and nothing else is open |
| Obstacles.ConnectedMonotone | tools/map_generator/generate_maze.py:801-803 | Opening more cells keeps every connection, although single action sequences may end elsewhere |
| Obstacles.MarginKeepsConnected | tools/map_generator/generate_maze.py:324-340 | With rooms of one or of three and more cells, or no obstacles, start and goal are connected for every draw |
| Obstacles.OverlapKeepsConnected | tools/map_generator/generate_maze.py:317-322 | With overlapping safe squares they are connected for every room size and draw |
| Obstacles.SeparatedIsUnreachable | tools/map_generator/generate_maze.py:333-340 | With two-cell rooms, no door between the squares and every draw below the density, the goal is unreachable |
| Obstacles.BarrierIsAnOutcome | tools/map_generator/generate_maze.py:754-784 | If at least as many walls are kept as stand between the two squares, some carving, opening and clearing leave all of those standing |
| Obstacles.GapKeepsConnected | tools/map_generator/generate_maze.py:387-397 | One open wall between the two squares connects start and goal for every draw |
| Obstacles.ReachabilityIsCertain | tools/map_generator/generate_maze.py:754-810 | For every pair of rooms and every ratio: the goal is reachable for all choices of carving, opening and drawing iff rooms are not two cells wide, or the density is not positive, or the squares overlap, or fewer walls are kept than stand between the squares |
| Obstacles.ObstructedExactly | tools/map_generator/generate_maze.py:316-340 | Before the clearing: the same in coordinates, for every room size |
| Obstacles.RoomsOfTheMap | tools/map_generator/generate_maze.py:316-340 | In the finished map a cell of a room is blocked iff rooms have two cells or more, its draw is below a positive density, its room is farther than one from start and goal, and in rooms of three cells and more it is not an outermost one |
| Obstacles.CorridorsOfTheMap | tools/map_generator/generate_maze.py:789-803 | In the finished map a cell between two rooms is open iff their wall is gone or it lies in the three by three cells around the middle of start or goal room |
| Obstacles.CrossingsOfTheMap | tools/map_generator/generate_maze.py:789-803 | Where the lines of the walls cross, and at their ends on the border, only those two squares are open |
| Obstacles.BorderStaysBlocked | tools/map_generator/generate_maze.py:801-803 | For all walls and draws: the border of the finished map is blocked iff the cleared cells around start and goal do not reach it |
| Obstacles.DefaultBorder | tools/map_generator/generate_maze.py:778-780 | For the opposite corners of the default mode that means rooms of three cells and more |
| Generator.AddRoomObstacles | tools/map_generator/generate_maze.py:293-340 | For a room r farther than one from start and goal and a positive density exactly the cells with a draw below it become blocked: for K >= 3 those at columns r.x(K+1)+2 to r.x(K+1)+K-1 and likewise rows, for K <= 2 all of the room; no other cell changes |
| Generator.ClearBlockedSafeZone | tools/map_generator/generate_maze.py:274-290 | Exactly the cells of the clipped square become open |
| Generator.ShortestActionSteps | tools/map_generator/generate_maze.py:522-559 | The distance on the final grid; -1 iff an end is blocked or no actions lead to the goal |
| Generator.RoomDim | tools/map_generator/generate_maze.py:744-749 | As many full strips of room and wall as fit the given size, and at least two |
| Generator.RoomOf | tools/map_generator/generate_maze.py:766-771 | A configured cell inside a room gives that room; any other gives the room before it, as far as there is one, and always a room of the maze |
| Generator.GenerateRandomStartEnd | tools/map_generator/generate_maze.py:579-603 | For every sequence of draws: the first of 500 that is far enough apart; nothing iff all 500 are too close |
| Generator.FarEnoughIsDistance | tools/map_generator/generate_maze.py:598-599 | Comparing squares is comparing the distance with the minimum |
| Generator.BuildMap | tools/map_generator/generate_maze.py:782-810 | The final grid is the one of the theorems, and the length is measured on it |
| Generator.GenerateMap | tools/map_generator/generate_maze.py:711-842 | Nothing iff rooms are to be drawn and none of 500 draws is far enough apart, else the corners, the configured rooms or the first draw that fits. For every choice of the carving: length 0 iff the rooms coincide, positive whenever the theorem says so, -1 whenever the draw shuts the start off |
| Generator.SuccessIsCertain | tools/map_generator/generate_maze.py:806-810 | The code's own test of success, a positive measured length, holds for all choices of carving, opening and drawing iff the rooms differ and the condition of reachability holds |
| Generator.GenerateReachableMap | tools/map_generator/generate_maze.py:851-891 | The first of up to 100 attempts whose measured length is positive, nothing iff there is none. With default or fixed rooms: attempt 0 succeeds if success is certain, all fail if the rooms coincide or are shut off each time; in the default mode attempt 0 succeeds except with obstacles in two-cell rooms on four rooms a side and more; rooms drawn apart, where two-cell rooms have no obstacles, fail only in attempts that drew no two rooms; what is returned is solvable |
| Segments.VerticalSegments | tools/map_generator/generate_maze.py:431-454 | One segment for each maximal vertical run and no other, and every blocked cell is used |
| Segments.HorizontalSegments | tools/map_generator/generate_maze.py:456-478 | Covers exactly what is not used yet, hence nothing when all is used |
| Segments.BlockedToWallSegments | tools/map_generator/generate_maze.py:410-480 | The emitted segments are exactly the maximal vertical runs, each once; the second pass adds none |
| Segments.RunsAreDisjoint | tools/map_generator/generate_maze.py:434-441 | Two maximal runs that share a cell are the same |
| Segments.SegmentsPartitionTheWalls | tools/map_generator/generate_maze.py:410-480 | The segments redraw the grid, no blocked cell lies in two of them, and their lengths add up to the number of blocked cells |
| Bitmap.FlattenAt | tools/map_generator/generate_maze.py:568-572 | Cell (x, y) is at place y * columns + x |
| Bitmap.BlockedBitmapBytes | tools/map_generator/generate_maze.py:562-572 | One byte for each cell, 1 where it is blocked and else 0, that of cell (x, y) at place y * columns + x; an error iff the dimensions do not fit |
| Bitmap.EncodedAt | tools/map_generator/generate_maze.py:837-838 | The text of a cell is 00 where it is open and 01 where it is blocked |
| Bitmap.DecodeBitmap | src/maze/environment/maze_env.cpp:477-490 | Returns the grid whose encoding the text is; refuses iff no grid of this size encodes to it |
| Bitmap.EncodingIsInjective | tools/map_generator/generate_maze.py:837-838 | Different grids have different texts, so decoding inverts encoding |
| Bitmap.ClientSeesTheSameMap | src/maze/environment/maze_env.cpp:477-490 | The client's open cells are the generator's, and both programs measure the same length |
| LineIndex.LinesLoseNothing | tools/viz_player/maze_viz_server.py:150-157 | The lines of a file put together are the file |
| LineIndex.OffsetsIncrease | tools/viz_player/maze_viz_server.py:150-157 | The offsets are strictly increasing and inside the file |
| LineIndex.OffsetsPointAtLines | tools/viz_player/maze_viz_server.py:150-157 | They lead to the non-blank lines, each once and in order |
| LineIndex.SpacesByCode | tools/viz_player/maze_viz_server.py:156-156 | The blank characters are codes 9 to 13 and 32 |
| LineIndex.IncrementalAgrees | tools/viz_player/maze_viz_server.py:141-157 | Scanning only the appended text agrees with a full scan iff the old text ended with a whole line or the new one starts with a blank line |
| LineIndex.AccumulatedExactly | tools/viz_player/maze_viz_server.py:141-157 | Over any number of appends the index agrees with a full scan iff every piece was joined at a whole line or starts with a blank one |
| LineIndex.IndexedExactly | tools/viz_player/maze_viz_server.py:136-169 | The same for every history of looks at a file that grows or starts anew, with hits, increments and rebuilds |
| LineIndex.VizReplayServer.BuildLineIndex | tools/viz_player/maze_viz_server.py:123-170 | For every interleaving of looks at files the offsets are those their histories lead to, and those of a full scan iff the pieces are well joined |
| LineIndex.VizReplayServer.LoadFramesPaged | tools/viz_player/maze_viz_server.py:181-210 | A page is the parsed lines its part of the index leads to, for a well joined file those of all non-blank lines |
| LineIndex.NothingIsSkipped | tools/viz_player/maze_viz_server.py:201-202 | No non-blank line is skipped as empty when it is read |
| LineIndex.StripTrims | tools/viz_player/maze_viz_server.py:201-201 | Stripping cuts exactly blank characters off both ends, and what is left neither starts nor ends with one |
| LineIndex.EveryLineGivesItsFrame | tools/viz_player/maze_viz_server.py:199-204 | When all lines parse, frame k is what line k parses to after stripping |
| LineIndex.UnparsedIsSkipped | tools/viz_player/maze_viz_server.py:205-206 | A line that does not parse is left out and the others keep their order |
| LineIndex.PagesGiveEverything | tools/viz_player/maze_viz_server.py:181-210 | Reading page after page of any positive size gives every frame once and in order |

## Left out

- Generated message classes, gRPC channels, deadlines and the two-attempt loop's status codes: an invocation answers or fails, and retransmission is an event of the network model. Serialisation is an arbitrary injective function of identity and task fields.
- The AIServer's handlers, policy and rewards: any handler may commit, reject or postpone.
- 64-bit wrap-around of sequence numbers: numbers are unbounded.
- Session.Session.Exchange: without a budget the stop callback may say "go on" only finitely often (`Host.patience`, an arbitrary number), so an unlimited wait for a server that answers WAIT for ever is modelled by every finite part of it. The clock may advance between the budget check and the start of an invocation or a pause, so the budget bounds the readings and not the starts. Millisecond arithmetic of pauses is not cut to 64 bits.
- TaskSession.TaskClient.Send: the stop callback is asked for every command, also for Init and End, where the client passes one that never stops; Update bodies, episode ids and what the adapter decides around a command are free choices, and an applied Begin without assignment or task_complete, which its validator excludes, is not modelled.
- TaskSession.TaskClient.CleanUp: likewise the stop callback may stop an Abort or Close, which the client never does; the reason and message of an Abort are left open.
- LineIndex.VizReplayServer.BuildLineIndex: the full-scan statement is about files that grow or become shorter between looks; a file rewritten in place is indexed as modelled but nothing more is said of it. Locking, changes during a call, read errors and the carriage-return and Unicode rules of text mode are not modelled.
- Segments.BlockedToWallSegments: segments are in cell coordinates; scaling and rounding to centimetres are left out.
- Generator.GenerateMap: fixed start and goal are given as cells, the division of coordinates by the cell size is left out; the room size is at least 1, as the command line enforces.
- Generator.GenerateRandomStartEnd: the square root is exact, the source's is rounded to a double.
- MazeEnv.MazeEnv.Init: starts from a parsed map; JSON field scanning, coordinates and the cross-check of start and goal positions are left out.
- Outcome.CheckEpisodeOutcome: positions, ranks' values and the rendered text are left out.
- `bfs_reachable`, ASCII and HTML previews, ray casting, the visualisation recorder, logging, configuration loading, the HTTP server and scripts: input, output or single-branch facts.
