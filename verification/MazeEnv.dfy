/** The multi-agent grid environment: one action per live agent and frame, a goal cell and a time limit. */
module MazeEnv {
  import opened Moves
  import opened ShortestPath

  datatype Reason = Active | GoalReached | TimeLimit

  datatype Agent = Agent(id: nat, cell: Cell, done: bool, lastMoveBlocked: bool, reason: Reason)

  /** A parsed map: row-major obstacles, start and goal. */
  datatype Maze = Maze(cols: nat, rows: nat, blocked: seq<bool>, start: Cell, goal: Cell) {
    predicate Valid() {
      |blocked| == cols * rows
    }

    predicate Walkable(c: Cell)
      requires Valid()
    {
      if c.x < 0 || c.x >= cols || c.y < 0 || c.y >= rows then false
      else
        NumberInRange(cols, rows, c);
        !blocked[Number(cols, c)]
    }

    function Open(): (open: set<Cell>)
      requires Valid()
      ensures forall c :: c in open <==> Walkable(c)
    {
      OpenCells(cols, rows, (c: Cell) requires Valid() => Walkable(c))
    }
  }

  function Fresh(id: nat, start: Cell): Agent {
    Agent(id, start, false, false, Active)
  }

  function FreshAgents(count: nat, start: Cell): seq<Agent> {
    seq(count, (i: nat) => Fresh(i, start))
  }

  /** What Step does to a live agent with a valid action in the given frame. */
  function Stepped(open: set<Cell>, goal: Cell, maxSteps: int, frame: nat, agent: Agent, action: int): Agent
    requires IsAction(action)
  {
    var can := !agent.done && Available(open, agent.cell, action);
    var cell := if can then Go(agent.cell, action) else agent.cell;
    var moved := agent.(cell := cell, lastMoveBlocked := action != 0 && !can);
    if cell == goal then moved.(done := true, reason := GoalReached)
    else if frame + 1 >= maxSteps then moved.(done := true, reason := TimeLimit)
    else moved
  }

  /** A step written out: the agent moves iff it may, was bumped iff it wanted to move and could not, and is done
      when it stands on the goal or its steps are used up. */
  ghost predicate StepMeans(open: set<Cell>, goal: Cell, frame: nat, maxSteps: int, before: Agent, action: int,
                            after: Agent)
    requires IsAction(action)
  {
    && after.id == before.id
    && after.cell == Move(open, before.cell, action)
    && (after.lastMoveBlocked <==> action != 0 && !Available(open, before.cell, action))
    && (after.done <==> after.cell == goal || frame + 1 >= maxSteps)
    && after.reason == (if after.cell == goal then GoalReached else if frame + 1 >= maxSteps then TimeLimit
                       else before.reason)
  }

  lemma SteppedMeans(open: set<Cell>, goal: Cell, maxSteps: int, frame: nat, agent: Agent, action: int)
    requires IsAction(action) && !agent.done
    ensures var after := Stepped(open, goal, maxSteps, frame, agent, action);
            && StepMeans(open, goal, frame, maxSteps, agent, action, after)
            && (after.lastMoveBlocked <==> action != 0 && after.cell == agent.cell)
  {
    MoveLeaves(open, agent.cell, action);
  }

  datatype StepResult = Ok | Invalid(error: string)

  /** The environment as a value. */
  datatype Env = Env(maze: Maze, agents: seq<Agent>, maxSteps: int, frame: nat) {
    predicate Valid() {
      && maze.Valid()
      && forall i | 0 <= i < |agents| :: agents[i].id == i
    }

    predicate AllDone() {
      forall i | 0 <= i < |agents| :: agents[i].done
    }

    /** Why an action is refused, if it is. */
    function Check(id: int, action: int): StepResult {
      if id < 0 || id >= |agents| then Invalid("agent_id is outside the environment assignment")
      else if agents[id].done then Invalid("AIServer returned an action for a terminal Agent")
      else if !IsAction(action) then Invalid("action_id is outside the Maze action contract")
      else Ok
    }

    function Step(id: int, action: int): Env
      requires maze.Valid() && Check(id, action).Ok?
    {
      this.(agents := agents[id := Stepped(maze.Open(), maze.goal, maxSteps, frame, agents[id], action)])
    }

    function Reset(): Env {
      this.(agents := FreshAgents(|agents|, maze.start), frame := 0)
    }
  }

  class MazeEnv {
    const maze: Maze
    var agents: seq<Agent>
    var maxSteps: int
    var frameId: nat
    var shortestActionSteps: int

    function View(): Env
      reads this
    {
      Env(maze, agents, maxSteps, frameId)
    }

    constructor (maze: Maze)
      requires maze.Valid()
      ensures View() == Env(maze, [], 0, 0) && shortestActionSteps == -1
    {
      this.maze, agents, maxSteps, frameId, shortestActionSteps := maze, [], 0, 0, -1;
    }

    predicate IsWalkable(c: Cell)
      requires maze.Valid()
      reads this
    {
      maze.Walkable(c)
    }

    /** Init after the map is loaded: refused unless the goal can be reached from a different start. */
    method Init(agentCount: int, steps: int) returns (ok: bool)
      requires View().Valid()
      modifies this
      ensures ok <==>
                && agentCount > 0 && maze.start in maze.Open() && maze.goal in maze.Open()
                && maze.start != maze.goal && Connected(maze.Open(), maze.start, maze.goal)
      ensures View().Valid()
      ensures ok ==> View() == Env(maze, FreshAgents(agentCount, maze.start), steps, 0)
      ensures ok ==> shortestActionSteps > 0 && IsDistance(maze.Open(), maze.start, maze.goal, shortestActionSteps)
      ensures !ok ==> agents == old(agents)
    {
      if agentCount <= 0 {
        return false;
      }
      maxSteps, shortestActionSteps := steps, -1;
      if !IsWalkable(maze.start) || !IsWalkable(maze.goal) {
        return false;
      }
      var computed := ComputeShortestActionSteps();
      DistanceFacts(maze.Open(), maze.start, maze.goal, computed);
      if computed <= 0 {
        return false;
      }
      shortestActionSteps := computed;
      agents := FreshAgents(agentCount, maze.start);
      frameId := 0;
      return true;
    }

    method ComputeShortestActionSteps() returns (steps: int)
      requires maze.Valid()
      requires maze.cols > 0 && maze.rows > 0 ==>
                 InBounds(maze.cols, maze.rows, maze.start) && InBounds(maze.cols, maze.rows, maze.goal)
      ensures maze.cols == 0 || maze.rows == 0 ==> steps == -1
      ensures maze.cols > 0 && maze.rows > 0 && steps >= 0 ==> IsDistance(maze.Open(), maze.start, maze.goal, steps)
      ensures maze.cols > 0 && maze.rows > 0 && steps < 0 ==>
                steps == -1 && Unreachable(maze.Open(), maze.start, maze.goal)
    {
      if maze.cols <= 0 || maze.rows <= 0 {
        return -1;
      }
      var m := maze;
      steps := BreadthFirst(m.cols, m.rows, (c: Cell) requires m.Valid() => m.Walkable(c), m.start, m.goal);
    }

    method SetMaxSteps(steps: int)
      modifies this`maxSteps
      ensures maxSteps == if steps > 0 then steps else old(maxSteps)
    {
      if steps > 0 {
        maxSteps := steps;
      }
    }

    method Reset()
      requires View().Valid()
      modifies this`agents, this`frameId
      ensures |agents| == |old(agents)| && frameId == 0 && maxSteps == old(maxSteps)
      ensures forall i | 0 <= i < |agents| :: agents[i] == Agent(i, maze.start, false, false, Active)
      ensures View() == old(View()).Reset() && View().Valid()
    {
      var n := 0;
      while n < |agents|
        invariant 0 <= n <= |agents| == |old(agents)|
        invariant forall i | 0 <= i < |agents| :: agents[i] == if i < n then Fresh(i, maze.start) else old(agents)[i]
      {
        var agent := agents[n].(cell := maze.start, done := false, lastMoveBlocked := false, reason := Active);
        agents := agents[n := agent];
        n := n + 1;
      }
      frameId := 0;
    }

    predicate IsActionAvailable(agent: Agent, action: int)
      requires maze.Valid()
      reads this
      ensures IsActionAvailable(agent, action) <==>
                !agent.done && IsAction(action) && Available(maze.Open(), agent.cell, action)
      ensures agent.cell in maze.Open() && IsActionAvailable(agent, action) ==>
                var target := Go(agent.cell, action);
                && target in maze.Open()
                && Cell(target.x, agent.cell.y) in maze.Open() && Cell(agent.cell.x, target.y) in maze.Open()
    {
      if agent.done || action < 0 || action >= 9 then false
      else
        var (dx, dy) := DIRECTIONS[action];
        var target := Cell(agent.cell.x + dx, agent.cell.y + dy);
        if !IsWalkable(target) then false
        else !(dx != 0 && dy != 0
               && (!IsWalkable(Cell(agent.cell.x + dx, agent.cell.y))
                   || !IsWalkable(Cell(agent.cell.x, agent.cell.y + dy))))
    }

    method GetActionMask(id: int) returns (mask: seq<bool>)
      requires maze.Valid()
      ensures |mask| == 9
      ensures forall a | 0 <= a < 9 ::
                mask[a] <==> 0 <= id < |agents| && !agents[id].done && Available(maze.Open(), agents[id].cell, a)
    {
      mask := seq(9, _ => false);
      if id < 0 || id >= |agents| {
        return;
      }
      for action := 0 to 9
        invariant |mask| == 9
        invariant forall a | 0 <= a < action ::
                    mask[a] <==> !agents[id].done && Available(maze.Open(), agents[id].cell, a)
      {
        mask := mask[action := IsActionAvailable(agents[id], action)];
      }
    }

    predicate CheckGoalReached(agent: Agent)
      reads this
    {
      agent.cell.x == maze.goal.x && agent.cell.y == maze.goal.y
    }

    predicate CheckTimeout()
      reads this
    {
      frameId + 1 >= maxSteps
    }

    method Step(id: int, action: int) returns (ok: bool, error: string)
      requires View().Valid()
      modifies this`agents
      ensures ok <==> 0 <= id < |old(agents)| && !old(agents)[id].done && 0 <= action <= 8
      ensures !ok ==>
                error == if id < 0 || id >= |old(agents)| then "agent_id is outside the environment assignment"
                         else if old(agents)[id].done then "AIServer returned an action for a terminal Agent"
                         else "action_id is outside the Maze action contract"
      ensures ok ==>
                && |agents| == |old(agents)| && agents == old(agents)[id := agents[id]]
                && StepMeans(maze.Open(), maze.goal, frameId, maxSteps, old(agents)[id], action, agents[id])
                && (agents[id].lastMoveBlocked <==> action != 0 && agents[id].cell == old(agents)[id].cell)
      ensures ok <==> old(View()).Check(id, action).Ok?
      ensures if ok then error == "" && View() == old(View()).Step(id, action)
              else old(View()).Check(id, action) == Invalid(error) && View() == old(View())
      ensures View().Valid()
    {
      error := "";
      if id < 0 || id >= |agents| {
        return false, "agent_id is outside the environment assignment";
      }
      var agent := agents[id];
      if agent.done {
        return false, "AIServer returned an action for a terminal Agent";
      }
      if action < 0 || action > 8 {
        return false, "action_id is outside the Maze action contract";
      }
      SteppedMeans(maze.Open(), maze.goal, maxSteps, frameId, agent, action);
      var (dx, dy) := DIRECTIONS[action];
      var newCell := Cell(agent.cell.x + dx, agent.cell.y + dy);
      var canMove := IsActionAvailable(agent, action);
      if canMove {
        agent := agent.(cell := newCell);
      }
      agent := agent.(lastMoveBlocked := action != 0 && !canMove);
      if CheckGoalReached(agent) {
        agent := agent.(done := true, reason := GoalReached);
      } else if CheckTimeout() {
        agent := agent.(done := true, reason := TimeLimit);
      }
      agents := agents[id := agent];
      return true, error;
    }

    method AdvanceFrame()
      modifies this`frameId
      ensures frameId == old(frameId) + 1
    {
      frameId := frameId + 1;
    }

    method AllDone() returns (all: bool)
      ensures all <==> View().AllDone()
    {
      for i := 0 to |agents|
        invariant forall j | 0 <= j < i :: agents[j].done
      {
        if !agents[i].done {
          return false;
        }
      }
      return true;
    }
  }

  lemma DistanceFacts(open: set<Cell>, from: Cell, to: Cell, steps: int)
    requires steps >= 0 ==> IsDistance(open, from, to, steps)
    requires steps < 0 ==> Unreachable(open, from, to)
    ensures steps > 0 <==> from != to && Connected(open, from, to)
  {
    if steps >= 0 {
      assert Reaches(open, from, from, []);
    }
  }

  // ---- One agent's life ----

  /** The agent after its first actions, one per frame from frame 0 on. */
  function Life(open: set<Cell>, start: Cell, goal: Cell, maxSteps: int, id: nat, actions: seq<int>): Agent
    requires AreActions(actions)
  {
    if actions == [] then Fresh(id, start)
    else
      var n := |actions| - 1;
      Stepped(open, goal, maxSteps, n, Life(open, start, goal, maxSteps, id, actions[..n]), actions[n])
  }

  /** Step accepts every one of these actions: the agent is not done before the last of them. */
  ghost predicate Lives(open: set<Cell>, start: Cell, goal: Cell, maxSteps: int, id: nat, actions: seq<int>) {
    && AreActions(actions)
    && forall k | 0 <= k < |actions| :: !Life(open, start, goal, maxSteps, id, actions[..k]).done
  }

  lemma {:induction false} LifeIsWalk(open: set<Cell>, start: Cell, goal: Cell, maxSteps: int, id: nat,
                                      actions: seq<int>)
    requires Lives(open, start, goal, maxSteps, id, actions)
    ensures var agent := Life(open, start, goal, maxSteps, id, actions);
            && agent.cell == Walk(open, start, actions)
            && (agent.reason.GoalReached? <==> actions != [] && agent.cell == goal)
            && (agent.reason.TimeLimit? <==> actions != [] && agent.cell != goal && |actions| >= maxSteps)
            && (agent.done <==> !agent.reason.Active?)
  {
    if actions != [] {
      var before := actions[..|actions| - 1];
      forall k | 0 <= k < |before|
        ensures !Life(open, start, goal, maxSteps, id, before[..k]).done
      {
        assert before[..k] == actions[..k];
      }
      LifeIsWalk(open, start, goal, maxSteps, id, before);
    }
  }

  /** A live agent was bumped in its last step iff that was to be a move and left it where it was; a fresh one was
      never bumped. */
  lemma BumpedMeansStayed(open: set<Cell>, start: Cell, goal: Cell, maxSteps: int, id: nat, actions: seq<int>)
    requires Lives(open, start, goal, maxSteps, id, actions)
    ensures var n := |actions| - 1;
            Life(open, start, goal, maxSteps, id, actions).lastMoveBlocked <==>
              n >= 0 && actions[n] != 0 && Walk(open, start, actions) == Walk(open, start, actions[..n])
  {
    if actions != [] {
      var n := |actions| - 1;
      assert !Life(open, start, goal, maxSteps, id, actions[..n]).done;
      LifeIsWalk(open, start, goal, maxSteps, id, actions);
      LivesBefore(open, start, goal, maxSteps, id, actions);
      LifeIsWalk(open, start, goal, maxSteps, id, actions[..n]);
      MoveLeaves(open, Walk(open, start, actions[..n]), actions[n]);
    }
  }

  lemma LivesBefore(open: set<Cell>, start: Cell, goal: Cell, maxSteps: int, id: nat, actions: seq<int>)
    requires Lives(open, start, goal, maxSteps, id, actions) && actions != []
    ensures Lives(open, start, goal, maxSteps, id, actions[..|actions| - 1])
  {
    var before := actions[..|actions| - 1];
    forall k | 0 <= k < |before|
      ensures !Life(open, start, goal, maxSteps, id, before[..k]).done
    {
      assert before[..k] == actions[..k];
    }
  }

  /** No agent reaches the goal before frame d, the distance from start to goal, or acts more than
      max(1, maxSteps) times. */
  lemma GoalTakesDistance(open: set<Cell>, start: Cell, goal: Cell, maxSteps: int, id: nat, actions: seq<int>, d: nat)
    requires IsDistance(open, start, goal, d)
    requires Lives(open, start, goal, maxSteps, id, actions)
    ensures Life(open, start, goal, maxSteps, id, actions).reason.GoalReached? ==> |actions| >= d
    ensures |actions| <= maxSteps || |actions| <= 1
  {
    LifeIsWalk(open, start, goal, maxSteps, id, actions);
    if |actions| > 1 {
      var before := actions[..|actions| - 1];
      forall k | 0 <= k < |before|
        ensures !Life(open, start, goal, maxSteps, id, before[..k]).done
      {
        assert before[..k] == actions[..k];
      }
      LifeIsWalk(open, start, goal, maxSteps, id, before);
      assert !Life(open, start, goal, maxSteps, id, before).done;
    }
  }

  /** When the time limit allows d actions, some agent reaches the goal at frame d exactly. */
  lemma GoalInDistance(open: set<Cell>, start: Cell, goal: Cell, maxSteps: int, id: nat, d: nat)
    returns (actions: seq<int>)
    requires start != goal && IsDistance(open, start, goal, d) && maxSteps >= d
    ensures |actions| == d && Lives(open, start, goal, maxSteps, id, actions)
    ensures Life(open, start, goal, maxSteps, id, actions).reason.GoalReached?
  {
    actions :| |actions| == d && Reaches(open, start, goal, actions);
    ShortestLives(open, start, goal, maxSteps, id, actions, |actions|);
    assert actions[..|actions|] == actions;
    LifeIsWalk(open, start, goal, maxSteps, id, actions);
  }

  lemma NotThereYet(open: set<Cell>, start: Cell, goal: Cell, actions: seq<int>, n: nat)
    requires AreActions(actions) && n < |actions| && IsDistance(open, start, goal, |actions|)
    ensures Walk(open, start, actions[..n]) != goal
  {
    assert !Reaches(open, start, goal, actions[..n]);
  }

  /** An agent that is not done after its actions can take one more. */
  lemma LivesOn(open: set<Cell>, start: Cell, goal: Cell, maxSteps: int, id: nat, actions: seq<int>, n: nat)
    requires AreActions(actions) && 0 < n <= |actions|
    requires Lives(open, start, goal, maxSteps, id, actions[..n - 1])
    requires !Life(open, start, goal, maxSteps, id, actions[..n - 1]).done
    ensures Lives(open, start, goal, maxSteps, id, actions[..n])
  {
    forall k | 0 <= k < n
      ensures !Life(open, start, goal, maxSteps, id, actions[..n][..k]).done
    {
      assert actions[..n][..k] == actions[..k];
      assert k < n - 1 ==> actions[..n - 1][..k] == actions[..k];
    }
  }

  lemma {:induction false} ShortestLives(open: set<Cell>, start: Cell, goal: Cell, maxSteps: int, id: nat,
                                         actions: seq<int>, n: nat)
    requires AreActions(actions) && n <= |actions| <= maxSteps && start != goal
    requires IsDistance(open, start, goal, |actions|)
    ensures Lives(open, start, goal, maxSteps, id, actions[..n])
  {
    if n > 0 {
      ShortestLives(open, start, goal, maxSteps, id, actions, n - 1);
      LifeIsWalk(open, start, goal, maxSteps, id, actions[..n - 1]);
      NotThereYet(open, start, goal, actions, n - 1);
      LivesOn(open, start, goal, maxSteps, id, actions, n);
    }
  }

  // ---- One frame's batch ----

  datatype AgentAction = AgentAction(id: nat, action: int)

  ghost predicate Distinct(batch: seq<AgentAction>) {
    forall i, j | 0 <= i < j < |batch| :: batch[i].id != batch[j].id
  }

  /** Distinct live agents, valid actions: every Step of the batch succeeds. */
  ghost predicate Runnable(env: Env, batch: seq<AgentAction>) {
    && env.Valid() && Distinct(batch)
    && forall i | 0 <= i < |batch| :: env.Check(batch[i].id, batch[i].action).Ok?
  }

  lemma RunnableTail(env: Env, batch: seq<AgentAction>)
    requires Runnable(env, batch) && batch != []
    ensures Runnable(env.Step(batch[0].id, batch[0].action), batch[1..])
  {
    var tail := batch[1..];
    forall i | 0 <= i < |tail|
      ensures env.Step(batch[0].id, batch[0].action).Check(tail[i].id, tail[i].action).Ok?
    {
      assert tail[i] == batch[i + 1];
    }
  }

  /** The steps of the batch, one after the other. */
  ghost function Apply(env: Env, batch: seq<AgentAction>): Env
    requires Runnable(env, batch)
    decreases |batch|
  {
    if batch == [] then env
    else
      RunnableTail(env, batch);
      Apply(env.Step(batch[0].id, batch[0].action), batch[1..])
  }

  /** After the batch an addressed agent has taken its own action, every other agent is untouched. */
  lemma {:induction false} ApplyAgent(env: Env, batch: seq<AgentAction>, i: nat)
    requires Runnable(env, batch) && i < |env.agents|
    ensures var after := Apply(env, batch);
            && after == env.(agents := after.agents) && after.Valid() && |after.agents| == |env.agents|
            && (forall a | AgentAction(i, a) in batch ::
                  after.agents[i] == Stepped(env.maze.Open(), env.maze.goal, env.maxSteps, env.frame, env.agents[i], a))
            && ((forall a :: AgentAction(i, a) !in batch) ==> after.agents[i] == env.agents[i])
    decreases |batch|
  {
    if batch != [] {
      RunnableTail(env, batch);
      var next := env.Step(batch[0].id, batch[0].action);
      ApplyAgent(next, batch[1..], i);
      assert batch == [batch[0]] + batch[1..];
      assert batch[0].id == i ==> forall a :: AgentAction(i, a) !in batch[1..];
    }
  }

  /** The result of a frame does not depend on the order of the actions in its batch. */
  lemma OrderIsIrrelevant(env: Env, a: seq<AgentAction>, b: seq<AgentAction>)
    requires Runnable(env, a) && Runnable(env, b) && multiset(a) == multiset(b)
    ensures Apply(env, a) == Apply(env, b)
  {
    if a == [] {
      assert |multiset(b)| == 0;
    } else {
      assert env.Check(a[0].id, a[0].action).Ok?;
      SameAgent(env, a, b, 0);
      var s, t := Apply(env, a).agents, Apply(env, b).agents;
      forall i | 0 <= i < |s|
        ensures s[i] == t[i]
      {
        SameAgent(env, a, b, i);
      }
      assert s == t;
    }
  }

  lemma SameAgent(env: Env, a: seq<AgentAction>, b: seq<AgentAction>, i: nat)
    requires Runnable(env, a) && Runnable(env, b) && multiset(a) == multiset(b) && i < |env.agents|
    ensures Apply(env, a) == Apply(env, b).(agents := Apply(env, a).agents)
    ensures |Apply(env, a).agents| == |Apply(env, b).agents| == |env.agents|
    ensures Apply(env, a).agents[i] == Apply(env, b).agents[i]
  {
    ApplyAgent(env, a, i);
    ApplyAgent(env, b, i);
    if x :| AgentAction(i, x) in a {
      assert AgentAction(i, x) in multiset(b);
    } else {
      assert forall x :: AgentAction(i, x) in b ==> AgentAction(i, x) in multiset(a);
    }
  }
}
