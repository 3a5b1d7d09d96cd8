/** Per-agent execution cursors and the receipt each Update carries for the action of the frame before. */
module ActionReceipt {
  import opened Wrappers
  import opened Moves
  import opened MazeEnv
  import Lifecycle

  datatype ExecutionCursor = ExecutionCursor(retired: bool, last: Option<int>)

  datatype AgentState = AgentState(
    id: nat, cell: Cell, isDone: bool, reason: Reason, lastMoveBlocked: bool, executed: Option<int>, mask: seq<bool>)

  datatype UpdateReq = UpdateReq(frame: nat, agents: seq<AgentState>)
  datatype UpdateRsp = UpdateRsp(reply: Lifecycle.CommandReply, batch: Option<seq<AgentAction>>)

  function Unretired(cursors: seq<ExecutionCursor>): set<nat> {
    set i: nat | i < |cursors| && !cursors[i].retired
  }

  function Reported(states: seq<AgentState>): set<nat> {
    set s | s in states :: s.id
  }

  function DoneIds(states: seq<AgentState>): set<nat> {
    set s | s in states && s.isDone :: s.id
  }

  function LiveIds(states: seq<AgentState>): set<nat> {
    set s | s in states && !s.isDone :: s.id
  }

  function Commanded(batch: seq<AgentAction>): set<nat> {
    set x | x in batch :: x.id
  }

  ghost predicate DistinctStates(states: seq<AgentState>) {
    forall i, j | 0 <= i < j < |states| :: states[i].id != states[j].id
  }

  /** Frame 0 carries no receipt; later frames carry exactly the action the cursor remembers. */
  predicate ReceiptMatches(frame: nat, state: AgentState, cursor: ExecutionCursor) {
    if frame == 0 then state.executed.None? && cursor.last.None?
    else state.executed.Some? && IsAction(state.executed.value) && cursor.last == state.executed
  }

  /** A state the client may report: a known, unretired agent with the receipt its cursor holds. */
  predicate Fits(frame: nat, state: AgentState, cursors: seq<ExecutionCursor>) {
    state.id < |cursors| && !cursors[state.id].retired && ReceiptMatches(frame, state, cursors[state.id])
  }

  ghost predicate AllFit(frame: nat, states: seq<AgentState>, cursors: seq<ExecutionCursor>) {
    forall s | s in states :: Fits(frame, s, cursors)
  }

  predicate MaskAllows(state: AgentState, action: int) {
    state.mask == [] || (0 <= action < |state.mask| && state.mask[action])
  }

  ghost predicate StatesAccepted(request: UpdateReq, current: seq<ExecutionCursor>) {
    && DistinctStates(request.agents) && Reported(request.agents) == Unretired(current)
    && AllFit(request.frame, request.agents, current)
  }

  /** An Update the client may commit: it reports exactly the unretired agents, each once and with its
      own receipt, and is answered by one valid, allowed action for exactly each agent not done. */
  ghost predicate Accepts(request: UpdateReq, response: UpdateRsp, current: seq<ExecutionCursor>) {
    && current != []
    && response.batch.Some? && Lifecycle.CommandAccepted(response.reply)
    && StatesAccepted(request, current)
    && ActionsFit(request.agents, response.batch.value, LiveIds(request.agents))
  }

  lemma AfterUpdateMeans(request: UpdateReq, current: seq<ExecutionCursor>)
    requires StatesAccepted(request, current)
    ensures CandidateSettles(current, request.agents, AfterUpdate(current, request.agents))
  {
  }

  /** The reported agents' receipts are cleared, the done ones are retired, the others are as they were. */
  ghost predicate CandidateSettles(current: seq<ExecutionCursor>, states: seq<AgentState>,
                                   candidate: seq<ExecutionCursor>)
  {
    && |candidate| == |current|
    && (forall i | 0 <= i < |current| && !(exists s | s in states :: s.id == i) :: candidate[i] == current[i])
    && forall s | s in states :: s.id < |candidate| && candidate[s.id].last == None
                                 && (candidate[s.id].retired <==> exists t | t in states :: t.id == s.id && t.isDone)
  }

  // The same, written out in ids, receipts and flags.

  /** Every unretired agent is reported once and nobody else is, each with the receipt of its own action: none at
      frame 0. */
  ghost predicate StatesSettle(frame: nat, states: seq<AgentState>, current: seq<ExecutionCursor>) {
    && (forall i, j | 0 <= i < j < |states| :: states[i].id != states[j].id)
    && (forall s | s in states :: s.id < |current| && !current[s.id].retired)
    && (forall i | 0 <= i < |current| && !current[i].retired :: exists s | s in states :: s.id == i)
    && (forall s | s in states ::
          if frame == 0 then s.executed == None && current[s.id].last == None
          else s.executed.Some? && 0 <= s.executed.value <= 8 && current[s.id].last == s.executed)
  }

  /** One known action for each agent not done and for nobody else; a state without mask forbids nothing. */
  ghost predicate ActionsSettle(states: seq<AgentState>, batch: seq<AgentAction>) {
    && (forall i, j | 0 <= i < j < |batch| :: batch[i].id != batch[j].id)
    && (forall x | x in batch :: 0 <= x.action <= 8)
    && (forall x, s | x in batch && s in states && s.id == x.id && s.mask != [] ::
          0 <= x.action < |s.mask| && s.mask[x.action])
    && (forall x | x in batch :: exists s | s in states :: s.id == x.id && !s.isDone)
    && (forall s | s in states && !s.isDone :: exists x | x in batch :: x.id == s.id)
  }

  ghost predicate Settles(request: UpdateReq, response: UpdateRsp, current: seq<ExecutionCursor>) {
    && current != [] && StatesSettle(request.frame, request.agents, current)
    && response.reply.result in {Lifecycle.Applied, Lifecycle.AlreadyApplied}
    && response.reply.errorCode == Lifecycle.ErrorUnspecified
    && response.batch.Some? && ActionsSettle(request.agents, response.batch.value)
  }

  lemma StatesMean(request: UpdateReq, current: seq<ExecutionCursor>)
    ensures StatesAccepted(request, current) <==> StatesSettle(request.frame, request.agents, current)
  {
    if StatesAccepted(request, current) {
      forall i | 0 <= i < |current| && !current[i].retired
        ensures exists s | s in request.agents :: s.id == i
      {
        assert i in Reported(request.agents);
      }
    }
    if StatesSettle(request.frame, request.agents, current) {
      assert Reported(request.agents) == Unretired(current);
    }
  }

  lemma ActionsMean(states: seq<AgentState>, batch: seq<AgentAction>)
    ensures ActionsFit(states, batch, LiveIds(states)) <==> ActionsSettle(states, batch)
  {
    if ActionsSettle(states, batch) {
      assert Commanded(batch) == LiveIds(states);
    }
    if ActionsFit(states, batch, LiveIds(states)) {
      forall x | x in batch
        ensures ActionFits(states, x) && exists s | s in states :: s.id == x.id && !s.isDone
      {
        assert x.id in LiveIds(states);
      }
      forall s | s in states && !s.isDone
        ensures exists x | x in batch :: x.id == s.id
      {
        assert s.id in Commanded(batch);
      }
    }
  }

  lemma AcceptsMeans(request: UpdateReq, response: UpdateRsp, current: seq<ExecutionCursor>)
    ensures Accepts(request, response, current) <==> Settles(request, response, current)
  {
    StatesMean(request, current);
    if response.batch.Some? {
      ActionsMean(request.agents, response.batch.value);
    }
  }

  /** Receipts are cleared for every reported agent and cursors retired for those reported done. */
  function AfterUpdate(current: seq<ExecutionCursor>, states: seq<AgentState>): (after: seq<ExecutionCursor>)
    ensures |after| == |current|
  {
    seq(|current|, i requires 0 <= i < |current| =>
      if i in Reported(states) then ExecutionCursor(current[i].retired || i in DoneIds(states), None) else current[i])
  }

  lemma SubsetOfSameSize<T>(a: set<T>, b: set<T>)
    requires a <= b && |a| == |b|
    ensures a == b
  {
    if a != b {
      var x :| x in b && x !in a;
      assert a <= b - {x};
      SubsetSize(a, b - {x});
    }
  }

  lemma SubsetSize<T>(a: set<T>, b: set<T>)
    requires a <= b
    ensures |a| <= |b|
  {
    assert b == a + (b - a);
  }

  lemma {:induction false} DistinctCount(states: seq<AgentState>)
    requires DistinctStates(states)
    ensures |Reported(states)| == |states|
  {
    if states != [] {
      var n := |states| - 1;
      assert states[..n + 1] == states;
      ReportedPrefix(states, n);
      DistinctCount(states[..n]);
    }
  }

  lemma ReportedOneMore(states: seq<AgentState>, s: AgentState)
    ensures Reported(states + [s]) == Reported(states) + {s.id}
    ensures LiveIds(states + [s]) == if s.isDone then LiveIds(states) else LiveIds(states) + {s.id}
    ensures DoneIds(states + [s]) == if s.isDone then DoneIds(states) + {s.id} else DoneIds(states)
  {
    assert s in states + [s];
    assert forall t | t in states :: t in states + [s];
  }

  /** The reported, live and done agents of one more state. */
  lemma ReportedPrefix(states: seq<AgentState>, i: nat)
    requires i < |states|
    ensures Reported(states[..i + 1]) == Reported(states[..i]) + {states[i].id}
    ensures LiveIds(states[..i + 1]) == LiveIds(states[..i]) + if states[i].isDone then {} else {states[i].id}
    ensures DoneIds(states[..i + 1]) == DoneIds(states[..i]) + if states[i].isDone then {states[i].id} else {}
    ensures DistinctStates(states[..i + 1]) <==>
              DistinctStates(states[..i]) && states[i].id !in Reported(states[..i])
    ensures DistinctStates(states) ==> DistinctStates(states[..i + 1])
  {
    assert states[..i + 1] == states[..i] + [states[i]];
    ReportedOneMore(states[..i], states[i]);
    DistinctOneMore(states[..i], states[i]);
  }

  lemma DistinctOneMore(states: seq<AgentState>, s: AgentState)
    ensures DistinctStates(states + [s]) <==> DistinctStates(states) && s.id !in Reported(states)
  {
    var all := states + [s];
    if DistinctStates(all) {
      forall i, j | 0 <= i < j < |states|
        ensures states[i].id != states[j].id
      {
        assert all[i].id != all[j].id;
      }
      forall i | 0 <= i < |states|
        ensures states[i].id != s.id
      {
        assert all[i].id != all[|states|].id;
      }
    }
    if s.id !in Reported(states) {
      forall i | 0 <= i < |states|
        ensures states[i].id != s.id
      {
        assert states[i] in states;
      }
    }
  }

  lemma CommandedPrefix(batch: seq<AgentAction>, i: nat)
    requires i < |batch|
    ensures Commanded(batch[..i + 1]) == Commanded(batch[..i]) + {batch[i].id}
    ensures Distinct(batch[..i + 1]) <==> Distinct(batch[..i]) && batch[i].id !in Commanded(batch[..i])
    ensures Distinct(batch) ==> Distinct(batch[..i + 1])
  {
    var all := batch[..i + 1];
    assert all == batch[..i] + [batch[i]];
    CommandedOneMore(batch[..i], batch[i]);
    if batch[i].id !in Commanded(batch[..i]) {
      forall j | 0 <= j < i
        ensures batch[j].id != batch[i].id
      {
        assert batch[..i][j] in batch[..i];
      }
    }
    if Distinct(all) {
      forall j, k | 0 <= j < k <= i
        ensures batch[j].id != batch[k].id
      {
        assert all[j].id != all[k].id;
      }
    }
  }

  lemma {:induction false} DistinctActions(batch: seq<AgentAction>)
    requires Distinct(batch)
    ensures |Commanded(batch)| == |batch|
  {
    if batch != [] {
      var n := |batch| - 1;
      assert batch[..n + 1] == batch;
      CommandedPrefix(batch, n);
      DistinctActions(batch[..n]);
    }
  }

  lemma CommandedOneMore(batch: seq<AgentAction>, x: AgentAction)
    ensures Commanded(batch + [x]) == Commanded(batch) + {x.id}
  {
    assert x in batch + [x];
    assert forall y | y in batch :: y in batch + [x];
  }

  method ActiveAgentCount(cursors: seq<ExecutionCursor>) returns (active: nat)
    ensures active == |Unretired(cursors)|
  {
    active := 0;
    for i := 0 to |cursors|
      invariant active == |Unretired(cursors[..i])|
    {
      assert Unretired(cursors[..i + 1]) == Unretired(cursors[..i]) + if cursors[i].retired then {} else {i};
      if !cursors[i].retired {
        active := active + 1;
      }
    }
    assert cursors[..|cursors|] == cursors;
  }

  predicate CanAttach(frame: nat, cursor: ExecutionCursor) {
    !cursor.retired && if frame == 0 then cursor.last.None? else cursor.last.Some? && IsAction(cursor.last.value)
  }

  method AttachExecutedActionReceipt(frame: nat, cursor: ExecutionCursor, state: AgentState)
    returns (ok: bool, attached: AgentState)
    ensures ok <==>
              && !cursor.retired && (frame == 0 ==> cursor.last == None)
              && (frame != 0 ==> cursor.last.Some? && 0 <= cursor.last.value <= 8)
    ensures ok <==> CanAttach(frame, cursor)
    ensures attached == if ok && frame != 0 then state.(executed := cursor.last) else state
  {
    attached := state;
    if cursor.retired {
      return false, attached;
    }
    if frame == 0 {
      return cursor.last.None?, attached;
    }
    if cursor.last.None? || !IsAction(cursor.last.value) {
      return false, attached;
    }
    return true, attached.(executed := cursor.last);
  }

  method RecordExecutedAction(cursor: ExecutionCursor, action: int) returns (ok: bool, recorded: ExecutionCursor)
    ensures ok <==> !cursor.retired && cursor.last == None && 0 <= action <= 8
    ensures recorded == if ok then cursor.(last := Some(action)) else cursor
  {
    recorded := cursor;
    if cursor.retired || cursor.last.Some? || !IsAction(action) {
      return false, recorded;
    }
    return true, recorded.(last := Some(action));
  }

  method ExecuteAssignedAction(env: MazeEnv, cursor: ExecutionCursor, action: AgentAction)
    returns (ok: bool, recorded: ExecutionCursor, error: string)
    requires env.View().Valid()
    modifies env`agents
    ensures ok <==> && old(env.View()).Check(action.id, action.action).Ok?
                    && !cursor.retired && cursor.last.None?
    ensures ok ==> recorded == cursor.(last := Some(action.action))
    ensures ok ==> env.View() == old(env.View()).Step(action.id, action.action)
    ensures !ok ==> recorded == cursor
    ensures env.View().Valid()
  {
    recorded := cursor;
    ok, error := env.Step(action.id, action.action);
    if !ok {
      return;
    }
    ok, recorded := RecordExecutedAction(cursor, action.action);
    if !ok {
      error := "executed action cannot be committed to the Agent receipt";
    }
  }

  lemma AllFitOneMore(frame: nat, states: seq<AgentState>, i: nat, cursors: seq<ExecutionCursor>)
    requires i < |states| && AllFit(frame, states[..i], cursors) && Fits(frame, states[i], cursors)
    ensures AllFit(frame, states[..i + 1], cursors)
  {
    assert states[..i + 1] == states[..i] + [states[i]];
  }

  lemma RejectState(request: UpdateReq, current: seq<ExecutionCursor>, i: nat)
    requires i < |request.agents|
    requires !Fits(request.frame, request.agents[i], current) || request.agents[i].id in Reported(request.agents[..i])
    ensures !StatesAccepted(request, current)
  {
    assert request.agents[i] in request.agents;
    ReportedPrefix(request.agents, i);
  }

  lemma AcceptStates(request: UpdateReq, current: seq<ExecutionCursor>)
    requires |request.agents| == |Unretired(current)|
    requires DistinctStates(request.agents) && AllFit(request.frame, request.agents, current)
    ensures StatesAccepted(request, current)
  {
    DistinctCount(request.agents);
    SubsetOfSameSize(Reported(request.agents), Unretired(current));
  }

  lemma AfterUpdateOneMore(current: seq<ExecutionCursor>, states: seq<AgentState>, i: nat)
    requires i < |states| && states[i].id < |current|
    ensures var cursor := AfterUpdate(current, states[..i])[states[i].id].(last := None);
            AfterUpdate(current, states[..i + 1])
            == AfterUpdate(current, states[..i])[states[i].id :=
                 if states[i].isDone then cursor.(retired := true) else cursor]
  {
    ReportedPrefix(states, i);
    var before, after := AfterUpdate(current, states[..i]), AfterUpdate(current, states[..i + 1]);
    assert DoneIds(states[..i]) <= Reported(states[..i]);
    assert forall k | 0 <= k < |current| && k != states[i].id :: after[k] == before[k];
  }

  /** Check the reported states; `expected` collects the agents that still need an action. */
  method CheckStates(request: UpdateReq, current: seq<ExecutionCursor>) returns (ok: bool, expected: set<nat>)
    requires |request.agents| == |Unretired(current)|
    ensures ok <==> StatesAccepted(request, current)
    ensures ok ==> expected == LiveIds(request.agents)
  {
    var reported: set<nat> := {};
    expected := {};
    for i := 0 to |request.agents|
      invariant reported == Reported(request.agents[..i])
      invariant expected == LiveIds(request.agents[..i])
      invariant DistinctStates(request.agents[..i])
      invariant AllFit(request.frame, request.agents[..i], current)
    {
      var state := request.agents[i];
      if state.id >= |current| || current[state.id].retired || state.id in reported
         || !ReceiptMatches(request.frame, state, current[state.id]) {
        RejectState(request, current, i);
        return false, expected;
      }
      ReportedPrefix(request.agents, i);
      AllFitOneMore(request.frame, request.agents, i, current);
      reported := reported + {state.id};
      if !state.isDone {
        expected := expected + {state.id};
      }
    }
    assert request.agents[..|request.agents|] == request.agents;
    AcceptStates(request, current);
    ok := true;
  }

  /** A known action that the mask of its agent allows. */
  ghost predicate ActionFits(states: seq<AgentState>, x: AgentAction) {
    IsAction(x.action) && forall s | s in states && s.id == x.id :: MaskAllows(s, x.action)
  }

  /** One known action that the masks allow for exactly each of the expected agents. */
  ghost predicate ActionsFit(states: seq<AgentState>, batch: seq<AgentAction>, expected: set<nat>) {
    && Distinct(batch) && Commanded(batch) == expected
    && forall x | x in batch :: ActionFits(states, x)
  }

  /** The first i actions are fit and of different expected agents. */
  ghost predicate FitSoFar(states: seq<AgentState>, batch: seq<AgentAction>, expected: set<nat>, i: nat,
                           returned: set<nat>)
  {
    && i <= |batch| && Distinct(batch[..i])
    && returned == Commanded(batch[..i]) && |returned| == i && returned <= expected
    && forall j | 0 <= j < i :: ActionFits(states, batch[j])
  }

  lemma OneMoreFit(states: seq<AgentState>, batch: seq<AgentAction>, expected: set<nat>, i: nat, returned: set<nat>)
    requires FitSoFar(states, batch, expected, i, returned) && i < |batch|
    requires batch[i].id in expected && batch[i].id !in returned && ActionFits(states, batch[i])
    ensures FitSoFar(states, batch, expected, i + 1, returned + {batch[i].id})
  {
    CommandedPrefix(batch, i);
  }

  lemma AllFitting(states: seq<AgentState>, batch: seq<AgentAction>, expected: set<nat>, returned: set<nat>)
    requires FitSoFar(states, batch, expected, |batch|, returned) && |batch| == |expected|
    ensures ActionsFit(states, batch, expected)
  {
    assert batch[..|batch|] == batch;
    SubsetOfSameSize(returned, expected);
  }

  lemma UnfitAction(states: seq<AgentState>, batch: seq<AgentAction>, expected: set<nat>, i: nat, returned: set<nat>)
    requires FitSoFar(states, batch, expected, i, returned) && i < |batch|
    requires batch[i].id !in expected || batch[i].id in returned || !ActionFits(states, batch[i])
    ensures !ActionsFit(states, batch, expected)
  {
    assert batch[i] in batch && batch[i].id in Commanded(batch);
    CommandedPrefix(batch, i);
  }

  /** Check the returned actions against the agents that need one. */
  method CheckActions(request: UpdateReq, batch: seq<AgentAction>, expected: set<nat>) returns (ok: bool)
    requires DistinctStates(request.agents) && expected == LiveIds(request.agents) && |batch| == |expected|
    ensures ok <==> ActionsFit(request.agents, batch, expected)
  {
    var returned: set<nat> := {};
    for i := 0 to |batch|
      invariant FitSoFar(request.agents, batch, expected, i, returned)
    {
      var x := batch[i];
      if !IsAction(x.action) || x.id !in expected || x.id in returned {
        UnfitAction(request.agents, batch, expected, i, returned);
        return false;
      }
      var allowed := MaskCheck(request.agents, x);
      if !allowed {
        UnfitAction(request.agents, batch, expected, i, returned);
        return false;
      }
      OneMoreFit(request.agents, batch, expected, i, returned);
      returned := returned + {x.id};
    }
    AllFitting(request.agents, batch, expected, returned);
    ok := true;
  }

  method MaskCheck(states: seq<AgentState>, x: AgentAction) returns (ok: bool)
    requires DistinctStates(states) && IsAction(x.action)
    ensures ok <==> forall s | s in states && s.id == x.id :: MaskAllows(s, x.action)
  {
    for k := 0 to |states|
      invariant forall j | 0 <= j < k :: states[j].id == x.id ==> MaskAllows(states[j], x.action)
    {
      if states[k].id != x.id || |states[k].mask| == 0 {
        continue;
      }
      assert states[k] in states;
      if x.action >= |states[k].mask| || !states[k].mask[x.action] {
        return false;
      }
      break;
    }
    return true;
  }

  /** The whole Agent transaction, checked without touching the live cursors. */
  method PrepareAppliedAgentUpdate(request: UpdateReq, response: UpdateRsp, current: seq<ExecutionCursor>)
    returns (ok: bool, candidate: seq<ExecutionCursor>)
    ensures ok <==> Settles(request, response, current)
    ensures ok <==> Accepts(request, response, current)
    ensures ok ==> CandidateSettles(current, request.agents, candidate)
    ensures ok ==> candidate == AfterUpdate(current, request.agents)
  {
    AcceptsMeans(request, response, current);
    candidate := [];
    var active := ActiveAgentCount(current);
    if DistinctStates(request.agents) {
      DistinctCount(request.agents);
    }
    if |current| == 0 || response.batch.None? || !Lifecycle.CommandAccepted(response.reply)
       || |request.agents| != active {
      return false, candidate;
    }
    var expected;
    ok, expected := CheckStates(request, current);
    if !ok {
      return false, candidate;
    }
    if Distinct(response.batch.value) {
      DistinctActions(response.batch.value);
    }
    if |response.batch.value| != |expected| {
      return false, candidate;
    }
    ok := CheckActions(request, response.batch.value, expected);
    if !ok {
      return false, candidate;
    }
    candidate := NextCursors(request, current);
    AfterUpdateMeans(request, current);
  }

  /** The cursors after a committed Update, on a copy. */
  method NextCursors(request: UpdateReq, current: seq<ExecutionCursor>) returns (candidate: seq<ExecutionCursor>)
    requires StatesAccepted(request, current)
    ensures candidate == AfterUpdate(current, request.agents)
  {
    candidate := current;
    for i := 0 to |request.agents|
      invariant candidate == AfterUpdate(current, request.agents[..i])
    {
      var state := request.agents[i];
      assert state in request.agents;
      AfterUpdateOneMore(current, request.agents, i);
      var cursor := candidate[state.id].(last := None);
      if state.isDone {
        cursor := cursor.(retired := true);
      }
      candidate := candidate[state.id := cursor];
    }
    assert request.agents[..|request.agents|] == request.agents;
  }
}
