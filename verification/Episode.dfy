/** One Episode of the Maze adapter: report, exchange, execute, advance - and what a whole run reports. */
module Episode {
  import opened Wrappers
  import opened Moves
  import opened MazeEnv
  import opened ActionReceipt
  import Lifecycle

  /** One confirmed Update: what was reported and the actions that came back. */
  datatype Round = Round(request: UpdateReq, batch: seq<AgentAction>)

  function Mask(env: Env, i: nat): seq<bool>
    requires env.maze.Valid() && i < |env.agents|
  {
    seq(9, a requires 0 <= a < 9 => !env.agents[i].done && Available(env.maze.Open(), env.agents[i].cell, a))
  }

  function StateOf(env: Env, cursors: seq<ExecutionCursor>, masks: bool, i: nat): AgentState
    requires env.maze.Valid() && i < |env.agents| == |cursors|
  {
    var a := env.agents[i];
    AgentState(a.id, a.cell, a.done, a.reason, a.lastMoveBlocked,
               if env.frame == 0 then None else cursors[i].last,
               if !a.done && masks then Mask(env, i) else [])
  }

  /** The states of the unretired agents among the first n. */
  function States(env: Env, cursors: seq<ExecutionCursor>, masks: bool, n: nat): seq<AgentState>
    requires env.maze.Valid() && n <= |env.agents| == |cursors|
  {
    if n == 0 then []
    else States(env, cursors, masks, n - 1)
         + if cursors[n - 1].retired then [] else [StateOf(env, cursors, masks, n - 1)]
  }

  function Observation(env: Env, cursors: seq<ExecutionCursor>, masks: bool): UpdateReq
    requires env.maze.Valid() && |env.agents| == |cursors|
  {
    UpdateReq(env.frame, States(env, cursors, masks, |env.agents|))
  }

  ghost predicate AttachFails(frame: nat, cursors: seq<ExecutionCursor>, n: nat) {
    exists i | 0 <= i < n && i < |cursors| :: !cursors[i].retired && !CanAttach(frame, cursors[i])
  }

  // ---- What a run reports ----

  /** The actions a batch gives to agent i: one or none when the batch has distinct agents. */
  function OrdersIn(batch: seq<AgentAction>, i: nat): seq<int> {
    if batch == [] then []
    else (if batch[0].id == i then [batch[0].action] else []) + OrdersIn(batch[1..], i)
  }

  /** Every action agent i has executed, in order. */
  function Orders(history: seq<Round>, i: nat): seq<int> {
    if history == [] then []
    else Orders(history[..|history| - 1], i) + OrdersIn(history[|history| - 1].batch, i)
  }

  lemma {:induction false} OneOrder(batch: seq<AgentAction>, i: nat)
    requires Distinct(batch)
    ensures i !in Commanded(batch) ==> OrdersIn(batch, i) == []
    ensures forall a | AgentAction(i, a) in batch :: OrdersIn(batch, i) == [a]
    decreases |batch|
  {
    if batch != [] {
      OneOrder(batch[1..], i);
      assert batch[0] in batch && batch == [batch[0]] + batch[1..];
      assert Commanded(batch) == {batch[0].id} + Commanded(batch[1..]);
    }
  }

  /** The agent that lives by exactly the actions given to it so far. */
  ghost predicate LivesBy(env: Env, i: nat, orders: seq<int>)
    requires i < |env.agents| && env.maze.Valid()
  {
    && Lives(env.maze.Open(), env.maze.start, env.maze.goal, env.maxSteps, i, orders)
    && env.agents[i] == Life(env.maze.Open(), env.maze.start, env.maze.goal, env.maxSteps, i, orders)
    && (!env.agents[i].done ==> |orders| == env.frame)
  }

  /** The environment is what the confirmed actions made of it. */
  ghost predicate TrueTo(env: Env, history: seq<Round>) {
    env.maze.Valid() && forall i | 0 <= i < |env.agents| :: LivesBy(env, i, Orders(history, i))
  }

  /** A reported state is the state the agent's own actions led to. */
  ghost predicate StateTrue(maze: Maze, maxSteps: int, s: AgentState, orders: seq<int>)
    requires maze.Valid()
  {
    && Lives(maze.Open(), maze.start, maze.goal, maxSteps, s.id, orders)
    && var a := Life(maze.Open(), maze.start, maze.goal, maxSteps, s.id, orders);
       s.cell == a.cell && s.isDone == a.done && s.reason == a.reason && s.lastMoveBlocked == a.lastMoveBlocked
  }

  ghost predicate Truthful(maze: Maze, maxSteps: int, history: seq<Round>)
    requires maze.Valid()
  {
    forall k {:trigger history[k]} | 0 <= k < |history| ::
      forall s | s in history[k].request.agents :: StateTrue(maze, maxSteps, s, Orders(history[..k], s.id))
  }

  /** A round that reports a true environment keeps the history truthful. */
  lemma TruthfulOneMore(env: Env, cursors: seq<ExecutionCursor>, masks: bool, history: seq<Round>,
                        batch: seq<AgentAction>)
    requires env.Valid() && |cursors| == |env.agents| && TrueTo(env, history)
              && Truthful(env.maze, env.maxSteps, history)
    ensures Truthful(env.maze, env.maxSteps, history + [Round(Observation(env, cursors, masks), batch)])
  {
    var longer := history + [Round(Observation(env, cursors, masks), batch)];
    StatesMeaning(env, cursors, masks, |env.agents|);
    forall k | 0 <= k < |longer|
      ensures forall s | s in longer[k].request.agents ::
                StateTrue(env.maze, env.maxSteps, s, Orders(longer[..k], s.id))
    {
      assert longer[..k] == history[..k];
      if k == |history| {
        assert history[..k] == history;
        assert forall s | s in longer[k].request.agents :: LivesBy(env, s.id, Orders(history, s.id));
      }
    }
  }

  /** Executing the batch that was just confirmed keeps the environment true to the history. */
  lemma TrueOneMore(env: Env, history: seq<Round>, round: Round)
    requires env.agents != [] && TrueTo(env, history) && Runnable(env, round.batch)
    requires forall i: nat :: i in Commanded(round.batch) <==> i < |env.agents| && !env.agents[i].done
    ensures TrueTo(Apply(env, round.batch).(frame := env.frame + 1), history + [round])
  {
    ApplyAgent(env, round.batch, 0);
    forall i | 0 <= i < |env.agents|
      ensures LivesBy(Apply(env, round.batch).(frame := env.frame + 1), i, Orders(history + [round], i))
    {
      AgentTrueOneMore(env, history, round, i);
    }
  }

  lemma AgentTrueOneMore(env: Env, history: seq<Round>, round: Round, i: nat)
    requires TrueTo(env, history) && Runnable(env, round.batch) && i < |env.agents|
    requires i in Commanded(round.batch) <==> !env.agents[i].done
    ensures |Apply(env, round.batch).agents| == |env.agents| && Apply(env, round.batch).maze.Valid()
    ensures LivesBy(Apply(env, round.batch).(frame := env.frame + 1), i, Orders(history + [round], i))
  {
    assert (history + [round])[..|history|] == history;
    ApplyAgent(env, round.batch, i);
    assert LivesBy(env, i, Orders(history, i));
    if i in Commanded(round.batch) {
      var x := OrderOf(env, round.batch, i);
      OneMoreAction(env, i, Orders(history, i), x.action);
    } else {
      NoOrder(round.batch, i);
      assert Orders(history + [round], i) == Orders(history, i);
    }
  }

  /** The one action ordered for an agent. */
  lemma OrderOf(env: Env, batch: seq<AgentAction>, i: nat) returns (x: AgentAction)
    requires env.maze.Valid() && Runnable(env, batch) && i in Commanded(batch)
    ensures x in batch && x == AgentAction(i, x.action) && IsAction(x.action) && OrdersIn(batch, i) == [x.action]
  {
    OneOrder(batch, i);
    x :| x in batch && x.id == i;
    assert x == AgentAction(i, x.action);
    var k :| 0 <= k < |batch| && batch[k] == x;
    assert env.Check(batch[k].id, batch[k].action).Ok?;
  }

  lemma NoOrder(batch: seq<AgentAction>, i: nat)
    requires Distinct(batch) && i !in Commanded(batch)
    ensures OrdersIn(batch, i) == [] && forall a :: AgentAction(i, a) !in batch
  {
    OneOrder(batch, i);
    assert forall a | AgentAction(i, a) in batch :: AgentAction(i, a).id in Commanded(batch);
  }

  lemma OneMoreAction(env: Env, i: nat, orders: seq<int>, a: int)
    requires env.maze.Valid() && i < |env.agents| && LivesBy(env, i, orders) && !env.agents[i].done && IsAction(a)
    ensures Lives(env.maze.Open(), env.maze.start, env.maze.goal, env.maxSteps, i, orders + [a])
    ensures Life(env.maze.Open(), env.maze.start, env.maze.goal, env.maxSteps, i, orders + [a])
         == Stepped(env.maze.Open(), env.maze.goal, env.maxSteps, env.frame, env.agents[i], a)
  {
    var longer := orders + [a];
    assert longer[..|orders|] == orders;
    forall k | 0 <= k < |longer|
      ensures !Life(env.maze.Open(), env.maze.start, env.maze.goal, env.maxSteps, i, longer[..k]).done
    {
      if k < |orders| {
        assert longer[..k] == orders[..k];
      }
    }
  }

  /** The receipts of an Update are, agent by agent, the actions of the batch before it. */
  ghost predicate CarriesReceipts(request: UpdateReq, batch: seq<AgentAction>) {
    && Reported(request.agents) == Commanded(batch)
    && forall s | s in request.agents :: s.executed.Some? && AgentAction(s.id, s.executed.value) in batch
  }

  ghost predicate Follows(history: seq<Round>, k: nat)
    requires 0 < k < |history|
  {
    CarriesReceipts(history[k].request, history[k - 1].batch)
  }

  ghost predicate RoundOk(round: Round, frame: nat, masks: bool) {
    && round.request.frame == frame
    && DistinctStates(round.request.agents) && round.request.agents != []
    && Distinct(round.batch) && Commanded(round.batch) == LiveIds(round.request.agents)
    && (masks ==> forall s | s in round.request.agents :: !s.lastMoveBlocked)
  }

  /** Frames 0, 1, 2, ... in order; everyone is reported at frame 0 and without receipt; each later
      Update reports exactly the agents that acted, with their receipts. */
  ghost predicate Chronicle(history: seq<Round>, agentCount: nat, masks: bool) {
    && (forall k {:trigger history[k]} | 0 <= k < |history| :: RoundOk(history[k], k, masks))
    && (history != [] ==>
          && (forall i: nat :: i in Reported(history[0].request.agents) <==> i < agentCount)
          && forall s | s in history[0].request.agents :: s.executed.None?)
    && (forall k {:trigger Follows(history, k)} | 0 < k < |history| :: Follows(history, k))
  }

  function Limit(maxSteps: int): nat {
    if maxSteps > 1 then maxSteps else 1
  }

  // ---- The invariant between two frames ----

  /** A cursor between frames: a live agent is not retired, and from frame 1 on an unretired one
      holds the action of the last batch. */
  ghost predicate CursorOk(env: Env, cursors: seq<ExecutionCursor>, i: nat)
    requires i < |env.agents| == |cursors|
  {
    && (!env.agents[i].done ==> !cursors[i].retired)
    && (!cursors[i].retired ==>
          if env.frame == 0 then cursors[i].last.None?
          else cursors[i].last.Some? && IsAction(cursors[i].last.value))
  }

  ghost predicate EpisodeInv(env: Env, cursors: seq<ExecutionCursor>, history: seq<Round>, masks: bool) {
    && env.Valid() && |cursors| == |env.agents| > 0
    && |history| == env.frame <= Limit(env.maxSteps)
    && (env.frame == Limit(env.maxSteps) ==> env.AllDone())
    && (forall i | 0 <= i < |cursors| :: CursorOk(env, cursors, i))
    && Unretired(cursors) != {}
    && (masks ==> forall i | 0 <= i < |env.agents| :: !env.agents[i].lastMoveBlocked)
    && Chronicle(history, |env.agents|, masks)
    && (if history == [] then forall i | 0 <= i < |cursors| :: !cursors[i].retired
        else
          var last := history[|history| - 1].batch;
          && Unretired(cursors) == Commanded(last)
          && forall i | 0 <= i < |cursors| && !cursors[i].retired ::
               cursors[i].last.Some? && AgentAction(i, cursors[i].last.value) in last)
  }

  lemma StatesLast(env: Env, cursors: seq<ExecutionCursor>, masks: bool, n: nat)
    requires env.Valid() && 0 < n <= |env.agents| == |cursors|
    ensures var before, t := States(env, cursors, masks, n - 1), StateOf(env, cursors, masks, n - 1);
            && t.id == n - 1
            && States(env, cursors, masks, n) == if cursors[n - 1].retired then before else before + [t]
  {
    assert env.agents[n - 1].id == n - 1;
  }

  function UnretiredBelow(cursors: seq<ExecutionCursor>, n: nat): (ids: set<nat>)
    requires n <= |cursors|
    ensures forall i: nat :: i in ids <==> i < n && !cursors[i].retired
  {
    if n == 0 then {} else UnretiredBelow(cursors, n - 1) + if cursors[n - 1].retired then {} else {n - 1}
  }

  /** The ids of a list of states: all different, and exactly these. */
  ghost predicate Names(states: seq<AgentState>, ids: set<nat>) {
    DistinctStates(states) && Reported(states) == ids
  }

  lemma NamesOneMore(states: seq<AgentState>, ids: set<nat>, t: AgentState)
    requires Names(states, ids) && t.id !in ids
    ensures Names(states + [t], ids + {t.id})
  {
    DistinctOneMore(states, t);
    ReportedOneMore(states, t);
  }

  lemma {:induction false} StatesNames(env: Env, cursors: seq<ExecutionCursor>, masks: bool, n: nat)
    requires env.Valid() && n <= |env.agents| == |cursors|
    ensures Names(States(env, cursors, masks, n), UnretiredBelow(cursors, n))
  {
    if n == 0 {
      assert Reported([]) == {};
    } else {
      StatesNames(env, cursors, masks, n - 1);
      StatesLast(env, cursors, masks, n);
      if !cursors[n - 1].retired {
        NamesOneMore(States(env, cursors, masks, n - 1), UnretiredBelow(cursors, n - 1),
            StateOf(env, cursors, masks, n - 1));
      } else {
        assert UnretiredBelow(cursors, n) == UnretiredBelow(cursors, n - 1);
      }
    }
  }

  lemma {:induction false} StatesContents(env: Env, cursors: seq<ExecutionCursor>, masks: bool, n: nat, t: AgentState)
    requires env.Valid() && n <= |env.agents| == |cursors|
    ensures t in States(env, cursors, masks, n) <==>
              t.id < n && !cursors[t.id].retired && t == StateOf(env, cursors, masks, t.id)
  {
    if n > 0 {
      StatesContents(env, cursors, masks, n - 1, t);
      assert env.agents[n - 1].id == n - 1;
    }
  }

  /** What the observation reports, in terms of the agents. */
  lemma StatesMeaning(env: Env, cursors: seq<ExecutionCursor>, masks: bool, n: nat)
    requires env.Valid() && n <= |env.agents| == |cursors|
    ensures var s := States(env, cursors, masks, n);
            && DistinctStates(s)
            && (forall i: nat :: i in Reported(s) <==> i < n && !cursors[i].retired)
            && (forall t | t in s :: t.id < n && !cursors[t.id].retired && t == StateOf(env, cursors, masks, t.id))
            && (forall i | 0 <= i < n && !cursors[i].retired :: StateOf(env, cursors, masks, i) in s)
  {
    StatesNames(env, cursors, masks, n);
    forall t: AgentState
      ensures t in States(env, cursors, masks, n) <==>
                t.id < n && !cursors[t.id].retired && t == StateOf(env, cursors, masks, t.id)
    {
      StatesContents(env, cursors, masks, n, t);
    }
    forall i | 0 <= i < n && !cursors[i].retired
      ensures StateOf(env, cursors, masks, i) in States(env, cursors, masks, n)
    {
      assert StateOf(env, cursors, masks, i).id == i;
    }
  }

  /** What one reported state says: the agent as it stands, the action its cursor remembers, and for a live agent,
      where masks are required, exactly the actions it may take there. */
  lemma ReportSays(env: Env, cursors: seq<ExecutionCursor>, masks: bool, s: AgentState)
    requires env.Valid() && |env.agents| == |cursors| && s in Observation(env, cursors, masks).agents
    ensures Observation(env, cursors, masks).frame == env.frame && s.id < |env.agents|
    ensures var a := env.agents[s.id];
            && s.cell == a.cell && s.isDone == a.done && s.reason == a.reason
            && s.lastMoveBlocked == a.lastMoveBlocked
            && s.executed == (if env.frame == 0 then None else cursors[s.id].last)
            && if a.done || !masks then s.mask == []
               else |s.mask| == 9 && forall k | 0 <= k < 9 :: s.mask[k] <==> Available(env.maze.Open(), a.cell, k)
  {
    StatesMeaning(env, cursors, masks, |env.agents|);
  }

  /** Observing never fails between frames, and continues the chronicle. */
  lemma ObservationContinues(env: Env, cursors: seq<ExecutionCursor>, history: seq<Round>, masks: bool)
    requires EpisodeInv(env, cursors, history, masks)
    ensures !AttachFails(env.frame, cursors, |cursors|)
    ensures var request := Observation(env, cursors, masks);
            && DistinctStates(request.agents) && request.agents != []
            && Reported(request.agents) == Unretired(cursors)
            && (forall i: nat :: i in LiveIds(request.agents) <==> i < |env.agents| && !env.agents[i].done)
            && (masks ==> forall s | s in request.agents :: !s.lastMoveBlocked)
            && (if history == [] then
                  && (forall i: nat :: i in Reported(request.agents) <==> i < |env.agents|)
                  && forall s | s in request.agents :: s.executed.None?
                else CarriesReceipts(request, history[|history| - 1].batch))
  {
    StatesMeaning(env, cursors, masks, |env.agents|);
    var states := States(env, cursors, masks, |env.agents|);
    assert Reported(states) == Unretired(cursors);
    forall i | 0 <= i < |cursors| && !cursors[i].retired
      ensures CanAttach(env.frame, cursors[i])
    {
      assert CursorOk(env, cursors, i);
    }
    forall i: nat
      ensures i in LiveIds(states) <==> i < |env.agents| && !env.agents[i].done
    {
      if i < |env.agents| && !env.agents[i].done {
        assert CursorOk(env, cursors, i);
        assert StateOf(env, cursors, masks, i) in states;
      }
    }
  }

  /** A confirmed Update adds a round, and its batch can be run. */
  lemma AcceptedContinues(env: Env, cursors: seq<ExecutionCursor>, history: seq<Round>, masks: bool,
                          response: UpdateRsp)
    requires EpisodeInv(env, cursors, history, masks)
    requires Accepts(Observation(env, cursors, masks), response, cursors)
    ensures var request, batch := Observation(env, cursors, masks), response.batch.value;
            && Chronicle(history + [Round(request, batch)], |env.agents|, masks)
            && Runnable(env, batch)
            && (forall i: nat :: i in Commanded(batch) <==> i < |env.agents| && !env.agents[i].done)
  {
    ObservationContinues(env, cursors, history, masks);
    var batch := response.batch.value;
    var longer := history + [Round(Observation(env, cursors, masks), batch)];
    forall k | 0 < k < |longer|
      ensures Follows(longer, k)
    {
      assert k < |history| ==> Follows(history, k);
    }
    forall i | 0 <= i < |batch|
      ensures env.Check(batch[i].id, batch[i].action).Ok?
    {
      assert batch[i] in batch && batch[i].id in Commanded(batch);
    }
  }

  /** After a confirmed Update exactly the live agents are unretired, and their receipts are cleared. */
  lemma AcceptedCursors(env: Env, cursors: seq<ExecutionCursor>, history: seq<Round>, masks: bool)
    requires EpisodeInv(env, cursors, history, masks)
    ensures var after := AfterUpdate(cursors, Observation(env, cursors, masks).agents);
            forall i | 0 <= i < |cursors| ::
              && (after[i].retired <==> env.agents[i].done)
              && (!after[i].retired ==> after[i].last.None?)
  {
    ObservationContinues(env, cursors, history, masks);
    StatesMeaning(env, cursors, masks, |env.agents|);
    var states := Observation(env, cursors, masks).agents;
    forall i: nat | i < |cursors|
      ensures var c := AfterUpdate(cursors, states)[i];
              (c.retired <==> env.agents[i].done) && (!c.retired ==> c.last.None?)
    {
      assert CursorOk(env, cursors, i);
      if !cursors[i].retired {
        assert StateOf(env, cursors, masks, i) in states;
        assert i in DoneIds(states) ==> env.agents[i].done;
      }
    }
  }

  /** What the state of a live agent allows: everything without masks, and with them what is available. */
  lemma MaskOfState(env: Env, cursors: seq<ExecutionCursor>, masks: bool, i: nat, a: int)
    requires env.maze.Valid() && i < |env.agents| == |cursors| && !env.agents[i].done && IsAction(a)
    ensures MaskAllows(StateOf(env, cursors, masks, i), a) <==>
              !masks || Available(env.maze.Open(), env.agents[i].cell, a)
  {
    assert |Mask(env, i)| == 9;
  }

  /** With masks every confirmed action is available where it is executed. */
  lemma AcceptedMasks(env: Env, cursors: seq<ExecutionCursor>, history: seq<Round>, response: UpdateRsp)
    requires EpisodeInv(env, cursors, history, true)
    requires Accepts(Observation(env, cursors, true), response, cursors)
    ensures forall x | x in response.batch.value ::
              x.id < |env.agents| && IsAction(x.action) && Available(env.maze.Open(), env.agents[x.id].cell, x.action)
  {
    ObservationContinues(env, cursors, history, true);
    StatesMeaning(env, cursors, true, |env.agents|);
    var states := Observation(env, cursors, true).agents;
    forall x | x in response.batch.value
      ensures x.id < |env.agents| && IsAction(x.action) && Available(env.maze.Open(), env.agents[x.id].cell, x.action)
    {
      assert x.id in LiveIds(states);
      var s :| s in states && s.id == x.id;
      assert MaskAllows(s, x.action);
      MaskOfState(env, cursors, true, x.id, x.action);
    }
  }

  /** An agent and its cursor after its batch was executed. */
  ghost predicate AgentAdvanced(env: Env, next: Env, cursor: ExecutionCursor, batch: seq<AgentAction>, masks: bool,
                                i: nat)
    requires i < |env.agents| == |next.agents|
  {
    && next.agents[i].id == i
    && (env.agents[i].done ==> cursor.retired && next.agents[i].done)
    && (env.frame + 1 >= Limit(env.maxSteps) ==> next.agents[i].done)
    && (!env.agents[i].done ==>
          && !cursor.retired && cursor.last.Some? && IsAction(cursor.last.value)
          && AgentAction(i, cursor.last.value) in batch)
    && (masks ==> !next.agents[i].lastMoveBlocked)
  }

  /** The batch was executed: every live agent holds the receipt of its own action. */
  ghost predicate Executed(env: Env, after: seq<ExecutionCursor>, batch: seq<AgentAction>, masks: bool) {
    && env.Valid() && |after| == |env.agents| > 0
    && (masks ==> forall i | 0 <= i < |env.agents| :: !env.agents[i].lastMoveBlocked)
    && Runnable(env, batch)
    && (forall i: nat :: i in Commanded(batch) <==> i < |env.agents| && !env.agents[i].done)
    && (forall i | 0 <= i < |after| :: after[i].retired <==> env.agents[i].done)
    && (forall x | x in batch :: x.id < |after| && after[x.id].last == Some(x.action))
    && (masks ==> forall x | x in batch ::
          x.id < |env.agents| && IsAction(x.action) && Available(env.maze.Open(), env.agents[x.id].cell, x.action))
  }

  lemma AgentAdvances(env: Env, after: seq<ExecutionCursor>, batch: seq<AgentAction>, masks: bool, i: nat)
    requires Executed(env, after, batch, masks) && i < |env.agents|
    ensures |Apply(env, batch).agents| == |env.agents|
              && AgentAdvanced(env, Apply(env, batch), after[i], batch, masks, i)
  {
    ApplyAgent(env, batch, i);
    if i in Commanded(batch) {
      var x :| x in batch && x.id == i;
      var k :| 0 <= k < |batch| && batch[k] == x;
      assert env.Check(batch[k].id, batch[k].action).Ok?;
      assert x == AgentAction(i, x.action);
    } else {
      assert forall a :: AgentAction(i, a) !in batch;
    }
  }

  lemma AllAdvance(env: Env, after: seq<ExecutionCursor>, batch: seq<AgentAction>, masks: bool)
    requires Executed(env, after, batch, masks)
    ensures var next := Apply(env, batch);
            && |next.agents| == |env.agents| && next.maze == env.maze && next.maxSteps == env.maxSteps
            && forall i | 0 <= i < |env.agents| :: AgentAdvanced(env, next, after[i], batch, masks, i)
  {
    ApplyAgent(env, batch, 0);
    forall i | 0 <= i < |env.agents|
      ensures AgentAdvanced(env, Apply(env, batch), after[i], batch, masks, i)
    {
      AgentAdvances(env, after, batch, masks, i);
    }
  }

  lemma CursorsContinue(env: Env, next: Env, after: seq<ExecutionCursor>, batch: seq<AgentAction>, masks: bool)
    requires |next.agents| == |env.agents| == |after| && next.frame > 0
    requires forall i | 0 <= i < |env.agents| :: AgentAdvanced(env, next, after[i], batch, masks, i)
    requires forall i | 0 <= i < |after| :: after[i].retired <==> env.agents[i].done
    ensures forall i | 0 <= i < |after| :: CursorOk(next, after, i)
  {
    forall i | 0 <= i < |after|
      ensures CursorOk(next, after, i)
    {
      assert AgentAdvanced(env, next, after[i], batch, masks, i);
    }
  }

  lemma ReceiptsContinue(env: Env, after: seq<ExecutionCursor>, batch: seq<AgentAction>, masks: bool)
    requires Executed(env, after, batch, masks) && !env.AllDone()
    requires |Apply(env, batch).agents| == |env.agents|
    requires forall i | 0 <= i < |env.agents| :: AgentAdvanced(env, Apply(env, batch), after[i], batch, masks, i)
    ensures Unretired(after) == Commanded(batch) != {}
    ensures forall i | 0 <= i < |after| && !after[i].retired ::
              after[i].last.Some? && AgentAction(i, after[i].last.value) in batch
  {
    var alive :| 0 <= alive < |env.agents| && !env.agents[alive].done;
    assert alive in Unretired(after);
    forall i | 0 <= i < |after| && !after[i].retired
      ensures after[i].last.Some? && AgentAction(i, after[i].last.value) in batch
    {
      assert AgentAdvanced(env, Apply(env, batch), after[i], batch, masks, i);
    }
  }

  /** Executing the whole batch and advancing the frame re-establishes the invariant. */
  lemma FrameContinues(env: Env, after: seq<ExecutionCursor>, frames: seq<Round>, round: Round, masks: bool)
    requires |frames| == env.frame < Limit(env.maxSteps) && !env.AllDone()
    requires Chronicle(frames + [round], |env.agents|, masks)
    requires Executed(env, after, round.batch, masks)
    ensures EpisodeInv(Apply(env, round.batch).(frame := env.frame + 1), after, frames + [round], masks)
  {
    var next := Apply(env, round.batch).(frame := env.frame + 1);
    AllAdvance(env, after, round.batch, masks);
    assert forall i | 0 <= i < |env.agents| :: AgentAdvanced(env, next, after[i], round.batch, masks, i);
    CursorsContinue(env, next, after, round.batch, masks);
    ReceiptsContinue(env, after, round.batch, masks);
    forall i | 0 <= i < |env.agents|
      ensures next.agents[i].id == i && (next.frame == Limit(env.maxSteps) ==> next.agents[i].done)
      ensures masks ==> !next.agents[i].lastMoveBlocked
    {
      assert AgentAdvanced(env, next, after[i], round.batch, masks, i);
    }
  }

  // ---- The facts a complete Episode reports ----

  /** A finished Episode: everyone reported by the last Update is done. */
  ghost predicate Complete(history: seq<Round>, agentCount: nat, masks: bool) {
    && Chronicle(history, agentCount, masks)
    && history != []
    && LiveIds(history[|history| - 1].request.agents) == {}
  }

  lemma DoneOrLive(states: seq<AgentState>)
    requires DistinctStates(states)
    ensures Reported(states) == DoneIds(states) + LiveIds(states) && DoneIds(states) !! LiveIds(states)
  {
  }

  /** An agent reported after frame 0 was live in the round before and executed one action in it. */
  lemma ActedBefore(history: seq<Round>, agentCount: nat, masks: bool, i: nat, n: nat)
    requires Chronicle(history, agentCount, masks) && 0 < n < |history|
    requires i in Reported(history[n].request.agents)
    ensures i in Reported(history[n - 1].request.agents) && i in LiveIds(history[n - 1].request.agents)
    ensures |OrdersIn(history[n - 1].batch, i)| == 1
  {
    assert RoundOk(history[n - 1], n - 1, masks) && Follows(history, n);
    DoneOrLive(history[n - 1].request.agents);
    OneOrder(history[n - 1].batch, i);
    var x :| x in history[n - 1].batch && x.id == i;
    assert x == AgentAction(i, x.action);
  }

  lemma OrdersUpTo(history: seq<Round>, i: nat, n: nat)
    requires 0 < n <= |history|
    ensures Orders(history[..n], i) == Orders(history[..n - 1], i) + OrdersIn(history[n - 1].batch, i)
  {
    assert history[..n][..n - 1] == history[..n - 1];
  }

  /** Up to round n an agent that is still reported live has acted in every round and was never done. */
  lemma {:induction false} LiveSoFar(history: seq<Round>, agentCount: nat, masks: bool, i: nat, n: nat)
    requires Chronicle(history, agentCount, masks) && n < |history|
    requires i in Reported(history[n].request.agents)
    ensures i < agentCount && |Orders(history[..n], i)| == n
    ensures forall k | 0 <= k < n ::
              i in Reported(history[k].request.agents) && i in LiveIds(history[k].request.agents)
  {
    if n > 0 {
      ActedBefore(history, agentCount, masks, i, n);
      LiveSoFar(history, agentCount, masks, i, n - 1);
      OrdersUpTo(history, i, n);
    }
  }

  /** Once an agent was reported done it is never reported again, and never acts again. */
  lemma {:induction false} GoneAfter(history: seq<Round>, agentCount: nat, masks: bool, i: nat, m: nat, n: nat)
    requires Chronicle(history, agentCount, masks) && m < n < |history|
    requires i !in LiveIds(history[m].request.agents)
    ensures i !in Reported(history[n].request.agents)
  {
    assert Follows(history, n) && RoundOk(history[n - 1], n - 1, masks);
    if m < n - 1 {
      GoneAfter(history, agentCount, masks, i, m, n - 1);
      DoneOrLive(history[n - 1].request.agents);
    }
  }

  lemma IdleAfter(history: seq<Round>, agentCount: nat, masks: bool, i: nat, m: nat, k: nat)
    requires Chronicle(history, agentCount, masks) && m <= k < |history|
    requires i !in LiveIds(history[m].request.agents)
    ensures OrdersIn(history[k].batch, i) == []
  {
    assert RoundOk(history[k], k, masks);
    if m < k {
      GoneAfter(history, agentCount, masks, i, m, k);
      DoneOrLive(history[k].request.agents);
    }
    OneOrder(history[k].batch, i);
  }

  lemma {:induction false} NoMoreActions(history: seq<Round>, i: nat, m: nat, n: nat)
    requires m <= n <= |history|
    requires forall k {:trigger history[k]} | m <= k < n :: OrdersIn(history[k].batch, i) == []
    ensures Orders(history[..n], i) == Orders(history[..m], i)
  {
    if m < n {
      assert history[..n][..n - 1] == history[..n - 1];
      NoMoreActions(history, i, m, n - 1);
    }
  }

  /** Over a finished Episode every agent is reported in the first updates 0..m only, done in the last
      of them and in no other, and m is the number of actions it executed. */
  lemma FinalFacts(history: seq<Round>, agentCount: nat, masks: bool, i: nat) returns (m: nat)
    requires Complete(history, agentCount, masks) && i < agentCount
    ensures m < |history| && history[m].request.frame == m
    ensures forall k | 0 <= k < |history| ::
              && (i in Reported(history[k].request.agents) <==> k <= m)
              && (i in DoneIds(history[k].request.agents) <==> k == m)
    ensures |Orders(history, i)| == m && Orders(history[..m], i) == Orders(history, i)
  {
    m := LastReport(history, agentCount, masks, i, |history| - 1);
    LiveSoFar(history, agentCount, masks, i, m);
    assert history[..|history|] == history;
    forall k | 0 <= k < |history|
      ensures i in Reported(history[k].request.agents) <==> k <= m
      ensures i in DoneIds(history[k].request.agents) <==> k == m
    {
      assert RoundOk(history[k], k, masks);
      DoneOrLive(history[k].request.agents);
      if k > m {
        GoneAfter(history, agentCount, masks, i, m, k);
      }
    }
    forall k {:trigger history[k]} | m <= k < |history|
      ensures OrdersIn(history[k].batch, i) == []
    {
      IdleAfter(history, agentCount, masks, i, m, k);
    }
    NoMoreActions(history, i, m, |history|);
    assert RoundOk(history[m], m, masks);
  }

  /** What a finished Episode reports of an agent is true: its last Update shows the state its own m
      actions led to, and a goal report at frame m means m is at least the distance to the goal. */
  lemma GoalReportsAreEarned(maze: Maze, maxSteps: int, history: seq<Round>, agentCount: nat, masks: bool, i: nat,
                             d: nat)
    returns (m: nat, last: AgentState)
    requires maze.Valid() && Complete(history, agentCount, masks) && Truthful(maze, maxSteps, history)
    requires i < agentCount && IsDistance(maze.Open(), maze.start, maze.goal, d)
    ensures m < |history| && last in history[m].request.agents && last.id == i && last.isDone
    ensures StateTrue(maze, maxSteps, last, Orders(history, i)) && |Orders(history, i)| == m
    ensures last.reason.GoalReached? ==> last.cell == maze.goal && m >= d
    ensures last.reason.TimeLimit? ==> last.cell != maze.goal && m >= maxSteps
    ensures m <= Limit(maxSteps)
  {
    m := FinalFacts(history, agentCount, masks, i);
    last :| last in history[m].request.agents && last.id == i && last.isDone;
    assert StateTrue(maze, maxSteps, last, Orders(history[..m], last.id));
    LifeIsWalk(maze.Open(), maze.start, maze.goal, maxSteps, i, Orders(history, i));
    GoalTakesDistance(maze.Open(), maze.start, maze.goal, maxSteps, i, Orders(history, i), d);
  }

  lemma {:induction false} LastReport(history: seq<Round>, agentCount: nat, masks: bool, i: nat, n: nat)
    returns (m: nat)
    requires Chronicle(history, agentCount, masks) && n < |history| && i < agentCount
    requires i !in LiveIds(history[n].request.agents)
    ensures m <= n && i in Reported(history[m].request.agents) && i !in LiveIds(history[m].request.agents)
  {
    if i in Reported(history[n].request.agents) {
      return n;
    }
    assert n > 0;
    assert Follows(history, n) && RoundOk(history[n - 1], n - 1, masks);
    m := LastReport(history, agentCount, masks, i, n - 1);
  }

  // ---- One answered Update ----

  /** A confirmed Update: its batch can be run, exactly the live agents hold a cleared cursor, and the
      history with its round is a truthful chronicle. */
  ghost predicate Answered(env: Env, cursors: seq<ExecutionCursor>, frames: seq<Round>, request: UpdateReq,
                           batch: seq<AgentAction>, masks: bool)
  {
    && env.Valid() && |cursors| == |env.agents| > 0
    && |frames| == env.frame <= Limit(env.maxSteps)
    && (env.frame == Limit(env.maxSteps) ==> env.AllDone())
    && TrueTo(env, frames)
    && Chronicle(frames + [Round(request, batch)], |env.agents|, masks)
    && Truthful(env.maze, env.maxSteps, frames + [Round(request, batch)])
    && Runnable(env, batch)
    && (forall i: nat :: i in LiveIds(request.agents) <==> i < |env.agents| && !env.agents[i].done)
    && Commanded(batch) == LiveIds(request.agents)
    && (forall i | 0 <= i < |cursors| ::
          (cursors[i].retired <==> env.agents[i].done) && (!cursors[i].retired ==> cursors[i].last.None?))
    && (masks ==> forall i | 0 <= i < |env.agents| :: !env.agents[i].lastMoveBlocked)
    && (masks ==> forall x | x in batch ::
          x.id < |env.agents| && IsAction(x.action) && Available(env.maze.Open(), env.agents[x.id].cell, x.action))
  }

  lemma AnswerContinues(env: Env, cursors: seq<ExecutionCursor>, frames: seq<Round>, masks: bool, response: UpdateRsp)
    requires EpisodeInv(env, cursors, frames, masks) && TrueTo(env, frames) && Truthful(env.maze, env.maxSteps, frames)
    requires Accepts(Observation(env, cursors, masks), response, cursors)
    ensures var request := Observation(env, cursors, masks);
            Answered(env, AfterUpdate(cursors, request.agents), frames, request, response.batch.value, masks)
  {
    AcceptedContinues(env, cursors, frames, masks, response);
    TruthfulOneMore(env, cursors, masks, frames, response.batch.value);
    AcceptedCursors(env, cursors, frames, masks);
    if masks {
      AcceptedMasks(env, cursors, frames, response);
    }
  }

  // ---- Which answers are accepted ----

  /** An answer a server may give to a report of this environment: it accepts the command and holds one action for
      exactly each agent not done, known and, where masks are required, available where that agent stands. */
  ghost predicate WellAnswered(env: Env, masks: bool, response: UpdateRsp)
    requires env.maze.Valid()
  {
    && response.reply.result in {Lifecycle.Applied, Lifecycle.AlreadyApplied}
    && response.reply.errorCode == Lifecycle.ErrorUnspecified
    && response.batch.Some?
    && var batch := response.batch.value;
       && (forall i, j | 0 <= i < j < |batch| :: batch[i].id != batch[j].id)
       && (forall x | x in batch :: x.id < |env.agents| && !env.agents[x.id].done && 0 <= x.action <= 8)
       && (forall i | 0 <= i < |env.agents| && !env.agents[i].done :: exists x | x in batch :: x.id == i)
       && (masks ==> forall x | x in batch :: Available(env.maze.Open(), env.agents[x.id].cell, x.action))
  }

  /** Between frames the client accepts exactly those answers. */
  lemma AcceptsExactly(env: Env, cursors: seq<ExecutionCursor>, history: seq<Round>, masks: bool, response: UpdateRsp)
    requires EpisodeInv(env, cursors, history, masks)
    ensures Accepts(Observation(env, cursors, masks), response, cursors) <==> WellAnswered(env, masks, response)
  {
    ObservationContinues(env, cursors, history, masks);
    if Accepts(Observation(env, cursors, masks), response, cursors) {
      AcceptedIsWell(env, cursors, history, masks, response);
    }
    if WellAnswered(env, masks, response) {
      ReportIsAccepted(env, cursors, history, masks);
      AnswerFits(env, cursors, history, masks, response.batch.value);
    }
  }

  lemma AcceptedIsWell(env: Env, cursors: seq<ExecutionCursor>, history: seq<Round>, masks: bool, response: UpdateRsp)
    requires EpisodeInv(env, cursors, history, masks)
    requires Accepts(Observation(env, cursors, masks), response, cursors)
    ensures WellAnswered(env, masks, response)
  {
    AcceptedContinues(env, cursors, history, masks, response);
    if masks {
      AcceptedMasks(env, cursors, history, response);
    }
    var batch := response.batch.value;
    forall x | x in batch
      ensures x.id < |env.agents| && !env.agents[x.id].done
    {
      assert x.id in Commanded(batch);
    }
    forall i | 0 <= i < |env.agents| && !env.agents[i].done
      ensures exists x | x in batch :: x.id == i
    {
      assert i in Commanded(batch);
    }
  }

  /** What the client reports is always in order. */
  lemma ReportIsAccepted(env: Env, cursors: seq<ExecutionCursor>, history: seq<Round>, masks: bool)
    requires EpisodeInv(env, cursors, history, masks)
    ensures StatesAccepted(Observation(env, cursors, masks), cursors)
  {
    ObservationContinues(env, cursors, history, masks);
    StatesMeaning(env, cursors, masks, |env.agents|);
    var request := Observation(env, cursors, masks);
    forall s | s in request.agents
      ensures Fits(request.frame, s, cursors)
    {
      assert CursorOk(env, cursors, s.id);
    }
  }

  lemma AnswerFits(env: Env, cursors: seq<ExecutionCursor>, history: seq<Round>, masks: bool, batch: seq<AgentAction>)
    requires EpisodeInv(env, cursors, history, masks)
    requires forall i, j | 0 <= i < j < |batch| :: batch[i].id != batch[j].id
    requires forall x | x in batch :: x.id < |env.agents| && !env.agents[x.id].done && 0 <= x.action <= 8
    requires forall i | 0 <= i < |env.agents| && !env.agents[i].done :: exists x | x in batch :: x.id == i
    requires masks ==> forall x | x in batch :: Available(env.maze.Open(), env.agents[x.id].cell, x.action)
    ensures var states := Observation(env, cursors, masks).agents; ActionsFit(states, batch, LiveIds(states))
  {
    ObservationContinues(env, cursors, history, masks);
    StatesMeaning(env, cursors, masks, |env.agents|);
    var states := Observation(env, cursors, masks).agents;
    forall i: nat
      ensures i in Commanded(batch) <==> i in LiveIds(states)
    {
      if i in Commanded(batch) {
        var x :| x in batch && x.id == i;
      }
    }
    assert Commanded(batch) == LiveIds(states);
    forall x | x in batch
      ensures ActionFits(states, x)
    {
      forall s | s in states && s.id == x.id
        ensures MaskAllows(s, x.action)
      {
        MaskOfState(env, cursors, masks, x.id, x.action);
      }
    }
  }

  /** One Update that was sent: the environment it reported, what the exchange came to before the payload was looked
      at, and the answer. */
  datatype Asked = Asked(env: Env, answer: Lifecycle.CommandOutcome, response: UpdateRsp)

  ghost predicate Well(asked: Asked, masks: bool) {
    asked.answer.Confirmed? && asked.env.maze.Valid() && WellAnswered(asked.env, masks, asked.response)
  }

  /** What holds when a run ends. */
  ghost predicate Ended(env: Env, history: seq<Round>, masks: bool, outcome: Lifecycle.CommandOutcome) {
    && |history| <= Limit(env.maxSteps) + 1
    && env.maze.Valid() && Truthful(env.maze, env.maxSteps, history)
    && Chronicle(history, |env.agents|, masks)
    && (outcome.Confirmed? ==>
          && Complete(history, |env.agents|, masks) && env.AllDone()
          && |history| == env.frame + 1)
    && (masks ==> forall i | 0 <= i < |env.agents| :: !env.agents[i].lastMoveBlocked)
  }

  /** The answer to the report that everyone is done completes the Episode. */
  lemma AnswerCompletes(env: Env, cursors: seq<ExecutionCursor>, frames: seq<Round>, request: UpdateReq,
                        batch: seq<AgentAction>, masks: bool)
    requires Answered(env, cursors, frames, request, batch, masks) && env.AllDone()
    ensures Ended(env, frames + [Round(request, batch)], masks, Lifecycle.Confirmed)
  {
    var history := frames + [Round(request, batch)];
    assert history[|history| - 1].request == request;
  }

  // ---- The adapter ----

  /** The Updates of one Episode go out at frames 0, 1, 2, ... */
  ghost predicate InFrames(asked: seq<Asked>) {
    forall k | 0 <= k < |asked| :: asked[k].env.frame == k
  }

  ghost predicate AllWell(asked: seq<Asked>, masks: bool) {
    forall k | 0 <= k < |asked| :: Well(asked[k], masks)
  }

  lemma AskedOneMore(asked: seq<Asked>, one: Asked, masks: bool)
    requires InFrames(asked) && AllWell(asked, masks) && one.env.frame == |asked|
    ensures InFrames(asked + [one]) && (AllWell(asked + [one], masks) <==> Well(one, masks))
    ensures (asked + [one])[..|asked|] == asked
  {
    assert Well((asked + [one])[|asked|], masks) <==> Well(one, masks);
  }

  class Adapter {
    const env: MazeEnv
    const masksRequired: bool
    var cursors: seq<ExecutionCursor>
    var chainFailed: bool
    ghost var history: seq<Round>
    /** What the stop callback answered last. */
    ghost var saidStop: bool

    constructor (env: MazeEnv, masksRequired: bool)
      ensures this.env == env && this.masksRequired == masksRequired && !chainFailed
    {
      this.env, this.masksRequired, cursors, chainFailed, history := env, masksRequired, [], false, [];
    }

    ghost predicate Between()
      reads this, env
    {
      && !chainFailed && EpisodeInv(env.View(), cursors, history, masksRequired)
      && TrueTo(env.View(), history) && Truthful(env.maze, env.maxSteps, history)
    }

    /** The part of Begin after the assignment was accepted. */
    method Begin(maxSteps: int)
      requires env.View().Valid() && env.agents != []
      modifies this, env
      ensures history == [] && chainFailed == old(chainFailed) && (!chainFailed ==> Between())
      ensures env.View() == old(env.View()).(maxSteps := if maxSteps > 0 then maxSteps else old(env.maxSteps)).Reset()
    {
      env.SetMaxSteps(maxSteps);
      env.Reset();
      cursors := seq(|env.agents|, _ => ExecutionCursor(false, None));
      history := [];
      assert 0 in Unretired(cursors);
    }

    method Observe() returns (request: UpdateReq)
      requires env.View().Valid() && |cursors| == |env.agents|
      modifies this`chainFailed
      ensures chainFailed <==> old(chainFailed) || AttachFails(env.frameId, cursors, |cursors|)
      ensures !AttachFails(env.frameId, cursors, |cursors|) ==>
                request == Observation(env.View(), cursors, masksRequired)
    {
      var states: seq<AgentState> := [];
      for index := 0 to |env.agents|
        invariant chainFailed == old(chainFailed) && !AttachFails(env.frameId, cursors, index)
        invariant states == States(env.View(), cursors, masksRequired, index)
      {
        if cursors[index].retired {
          continue;
        }
        var agent := env.agents[index];
        var mask := [];
        if !agent.done && masksRequired {
          mask := env.GetActionMask(index);
          assert mask == Mask(env.View(), index);
        }
        var state := AgentState(agent.id, agent.cell, agent.done, agent.reason, agent.lastMoveBlocked, None, mask);
        var ok;
        ok, state := AttachExecutedActionReceipt(env.frameId, cursors[index], state);
        if !ok {
          chainFailed := true;
          break;
        }
        states := states + [state];
      }
      request := UpdateReq(env.frameId, states);
    }

    /** The Update exchange; `sent` is the outcome of the command itself, if one was sent. */
    method Exchange(request: UpdateReq)
      returns (outcome: Lifecycle.CommandOutcome, batch: seq<AgentAction>, ghost sent: Option<Lifecycle.CommandOutcome>,
               ghost answer: Lifecycle.CommandOutcome, ghost response: UpdateRsp)
      modifies this`cursors, this`chainFailed, this`history
      ensures !old(chainFailed) ==>
                (outcome.Confirmed? <==> answer.Confirmed? && Accepts(request, response, old(cursors)))
      ensures !old(chainFailed) && !outcome.Confirmed? ==>
                outcome == if answer.Confirmed? then Lifecycle.Unknown else answer
      ensures history == if outcome.Confirmed? then old(history) + [Round(request, batch)] else old(history)
      ensures sent == if old(chainFailed) then None else Some(outcome)
      ensures old(chainFailed) ==> outcome.Refused?
      ensures outcome.Confirmed? ==>
                && !chainFailed && Accepts(request, response, old(cursors)) && batch == response.batch.value
                && cursors == AfterUpdate(old(cursors), request.agents)
      ensures !outcome.Confirmed? ==> cursors == old(cursors)
    {
      batch, sent := [], None;
      var received: UpdateRsp := *;
      answer, response := Lifecycle.Refused, received;
      if chainFailed {
        return Lifecycle.Refused, batch, sent, answer, response;
      }
      outcome := *;
      answer := outcome;
      var ok, candidate := PrepareAppliedAgentUpdate(request, received, cursors);
      if outcome.Confirmed? && !ok {
        outcome := Lifecycle.Unknown;
      }
      sent := Some(outcome);
      if outcome.Confirmed? {
        cursors := candidate;
        batch := received.batch.value;
        history := history + [Round(request, batch)];
      } else if !outcome.Stopped? {
        chainFailed := true;
      }
    }

    /** Execute one frame's actions in the order they came back, then advance the frame. */
    method Execute(batch: seq<AgentAction>) returns (ok: bool)
      requires env.View().Valid() && !chainFailed && forall k | 0 <= k < |batch| :: batch[k].id < |cursors|
      modifies this`cursors, this`chainFailed, env
      ensures ok <==> !chainFailed
      ensures env.View().Valid() && |cursors| == |old(cursors)|
      ensures Executable(old(env.View()), old(cursors), batch) ==>
                && ok && env.View() == Apply(old(env.View()), batch).(frame := old(env.frameId) + 1)
                && (forall i | 0 <= i < |cursors| :: cursors[i].retired == old(cursors)[i].retired)
                && forall x | x in batch :: x.id < |cursors| && cursors[x.id].last == Some(x.action)
    {
      ghost var before, start := env.View(), cursors;
      ghost var ready := Executable(before, start, batch);
      assert batch[0..] == batch;
      for j := 0 to |batch|
        invariant env.View().Valid() && |cursors| == |start| && !chainFailed
        invariant ready ==> Halfway(before, env.View(), batch, j, start, cursors)
      {
        var action := batch[j];
        if ready {
          HalfwayStep(before, env.View(), batch, j, start, cursors);
        }
        var done, cursor, error := ExecuteAssignedAction(env, cursors[action.id], action);
        if !done {
          chainFailed := true;
          return false;
        }
        cursors := cursors[action.id := cursor];
      }
      if chainFailed {
        return false;
      }
      env.AdvanceFrame();
      return true;
    }

    /** Report what is true now and exchange it. */
    method Submit()
      returns (outcome: Lifecycle.CommandOutcome, request: UpdateReq, batch: seq<AgentAction>, ghost asked: Asked)
      requires Between()
      modifies this`cursors, this`chainFailed, this`history
      ensures asked.env == env.View() && request == Observation(env.View(), old(cursors), masksRequired)
      ensures outcome.Confirmed? <==> Well(asked, masksRequired)
      ensures !outcome.Confirmed? ==> outcome == if asked.answer.Confirmed? then Lifecycle.Unknown else asked.answer
      ensures history == if outcome.Confirmed? then old(history) + [Round(request, batch)] else old(history)
      ensures outcome.Confirmed? ==>
                && !chainFailed && Accepts(request, asked.response, old(cursors)) && batch == asked.response.batch.value
                && cursors == AfterUpdate(old(cursors), request.agents)
    {
      ObservationContinues(env.View(), cursors, history, masksRequired);
      request := Observe();
      ghost var current, frames, sent, answer, response := cursors, history, None, Lifecycle.Refused, *;
      outcome, batch, sent, answer, response := Exchange(request);
      AcceptsExactly(env.View(), current, frames, masksRequired, response);
      asked := Asked(env.View(), answer, response);
    }

    /** One turn of the loop: report, exchange, and unless the run ends here execute the answer. */
    method Frame() returns (ended: bool, outcome: Lifecycle.CommandOutcome, ghost asked: Asked)
      requires Between()
      modifies this`cursors, this`chainFailed, this`history, env
      ensures env.maxSteps == old(env.maxSteps) && |env.agents| == |old(env.agents)|
      ensures asked.env == old(env.View())
      ensures !ended ==>
                && Well(asked, masksRequired)
                && Between() && env.frameId == old(env.frameId) + 1 && !old(env.View()).AllDone()
      ensures ended ==> Ended(env.View(), history, masksRequired, outcome)
      ensures ended ==> (outcome.Confirmed? <==> Well(asked, masksRequired))
      ensures ended && !outcome.Confirmed? ==>
                outcome == if asked.answer.Confirmed? then Lifecycle.Unknown else asked.answer
    {
      var final := env.AllDone();
      ghost var before, current, frames := env.View(), cursors, history;
      var request, batch;
      outcome, request, batch, asked := Submit();
      if !outcome.Confirmed? {
        return true, outcome, asked;
      }
      AnswerContinues(before, current, frames, masksRequired, asked.response);
      if final {
        AnswerCompletes(before, cursors, frames, request, batch, masksRequired);
        return true, outcome, asked;
      }
      var ok := Act(frames, request, batch);
      return !ok, if ok then outcome else Lifecycle.Refused, asked;
    }

    method Act(ghost frames: seq<Round>, ghost request: UpdateReq, batch: seq<AgentAction>) returns (ok: bool)
      requires !chainFailed && history == frames + [Round(request, batch)] && !env.View().AllDone()
      requires Answered(env.View(), cursors, frames, request, batch, masksRequired)
      modifies this`cursors, this`chainFailed, env
      ensures env.maxSteps == old(env.maxSteps) && |env.agents| == |old(env.agents)|
      ensures ok && Between() && env.frameId == old(env.frameId) + 1
    {
      ghost var before := env.View();
      ReadyToExecute(before, cursors, batch);
      ApplyAgent(before, batch, 0);
      TrueOneMore(before, frames, Round(request, batch));
      ok := Execute(batch);
      FrameContinues(before, cursors, frames, Round(request, batch), masksRequired);
    }

    method Stopped() returns (stop: bool)
      modifies this`saidStop
      ensures saidStop == stop
    {
      stop := *;
      saidStop := stop;
    }

    /** The Episode loop. `asked` tells every Update it sent, at frames 0, 1, 2, ..., and `saidStop` whether the stop
        callback ended it between two of them. It makes at most Limit(maxSteps) action rounds and one more Update. It
        is confirmed exactly when nobody stops it and every report is answered well; otherwise it ends as its last
        Update did or by the stop callback: never because a receipt could not be attached or an action not executed. */
    method RunEpisode() returns (outcome: Lifecycle.CommandOutcome, ghost asked: seq<Asked>)
      requires Between() && history == []
      modifies this, env
      ensures env.maxSteps == old(env.maxSteps) && |env.agents| == |old(env.agents)|
      ensures Ended(env.View(), history, masksRequired, outcome)
      ensures |asked| <= Limit(env.maxSteps) + 1 && InFrames(asked)
      ensures saidStop ==> outcome.Stopped? && AllWell(asked, masksRequired)
      ensures !saidStop ==> asked != [] && AllWell(asked[..|asked| - 1], masksRequired)
      ensures outcome.Confirmed? <==> !saidStop && AllWell(asked, masksRequired)
      ensures !saidStop && !outcome.Confirmed? ==>
                var answer := asked[|asked| - 1].answer;
                outcome == if answer.Confirmed? then Lifecycle.Unknown else answer
    {
      asked := [];
      var stop := Stopped();
      while !stop
        invariant stop == saidStop && Between()
        invariant env.maxSteps == old(env.maxSteps) && |env.agents| == |old(env.agents)|
        invariant |asked| == env.frameId && InFrames(asked) && AllWell(asked, masksRequired)
        decreases Limit(env.maxSteps) - env.frameId, !stop
      {
        var ended;
        ghost var one;
        ended, outcome, one := Frame();
        AskedOneMore(asked, one, masksRequired);
        asked := asked + [one];
        if ended {
          return;
        }
        stop := Stopped();
      }
      outcome := Lifecycle.Stopped;
    }
  }

  /** The actions after j address other agents than action j. */
  lemma LaterAgents(batch: seq<AgentAction>, j: nat)
    requires j < |batch| && Distinct(batch[j..])
    ensures forall x | x in batch[j + 1..] :: x.id != batch[j].id && x in batch[j..]
  {
    forall x | x in batch[j + 1..]
      ensures x.id != batch[j].id && x in batch[j..]
    {
      var k :| 0 <= k < |batch[j + 1..]| && batch[j + 1..][k] == x;
      assert batch[j..][0].id != batch[j..][k + 1].id;
    }
  }

  /** Nothing can go wrong with this batch: live agents, valid actions, cleared receipts. */
  ghost predicate Executable(env: Env, cursors: seq<ExecutionCursor>, batch: seq<AgentAction>) {
    && Runnable(env, batch)
    && forall x | x in batch :: x.id < |cursors| && cursors[x.id] == ExecutionCursor(false, None)
  }

  /** The first j actions of the batch were executed. */
  ghost predicate Halfway(before: Env, now: Env, batch: seq<AgentAction>, j: nat, start: seq<ExecutionCursor>,
                          cursors: seq<ExecutionCursor>)
  {
    && j <= |batch| && |cursors| == |start|
    && Executable(now, cursors, batch[j..]) && Runnable(before, batch)
    && Apply(now, batch[j..]) == Apply(before, batch) && now.frame == before.frame
    && (forall i | 0 <= i < |cursors| :: cursors[i].retired == start[i].retired)
    && forall k | 0 <= k < j :: batch[k].id < |cursors| && cursors[batch[k].id].last == Some(batch[k].action)
  }

  /** Executing the first action of a batch leaves the rest executable. */
  lemma ExecutableTail(env: Env, cursors: seq<ExecutionCursor>, batch: seq<AgentAction>)
    requires Executable(env, cursors, batch) && batch != []
    ensures env.maze.Valid() && env.Check(batch[0].id, batch[0].action).Ok?
    ensures batch[0].id < |cursors| && cursors[batch[0].id] == ExecutionCursor(false, None)
    ensures Executable(env.Step(batch[0].id, batch[0].action),
                       cursors[batch[0].id := ExecutionCursor(false, Some(batch[0].action))], batch[1..])
  {
    RunnableTail(env, batch);
    assert batch[0..] == batch;
    LaterAgents(batch, 0);
    assert batch[0] in batch && env.Check(batch[0].id, batch[0].action).Ok?;
  }

  lemma HalfwayStep(before: Env, now: Env, batch: seq<AgentAction>, j: nat, start: seq<ExecutionCursor>,
                    cursors: seq<ExecutionCursor>)
    requires Halfway(before, now, batch, j, start, cursors) && j < |batch|
    ensures now.maze.Valid() && now.Check(batch[j].id, batch[j].action).Ok?
    ensures batch[j].id < |cursors| && cursors[batch[j].id] == ExecutionCursor(false, None)
    ensures Halfway(before, now.Step(batch[j].id, batch[j].action), batch, j + 1, start,
                    cursors[batch[j].id := ExecutionCursor(false, Some(batch[j].action))])
  {
    assert batch[j..][1..] == batch[j + 1..] && batch[j..][0] == batch[j];
    ExecutableTail(now, cursors, batch[j..]);
  }

  lemma ReadyToExecute(env: Env, cursors: seq<ExecutionCursor>, batch: seq<AgentAction>)
    requires |cursors| == |env.agents| && Runnable(env, batch)
    requires forall i | 0 <= i < |cursors| ::
               (cursors[i].retired <==> env.agents[i].done) && (!cursors[i].retired ==> cursors[i].last.None?)
    ensures Executable(env, cursors, batch)
  {
    forall x | x in batch
      ensures x.id < |cursors| && cursors[x.id] == ExecutionCursor(false, None)
    {
      var k :| 0 <= k < |batch| && batch[k] == x;
      assert env.Check(batch[k].id, batch[k].action).Ok?;
    }
  }
}
