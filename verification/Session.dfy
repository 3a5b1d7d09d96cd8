/** The client's Session: one cursor, and the WAIT loop that exchanges one immutable request. */
module Session {
  import opened Wrappers
  import opened Lifecycle

  function Nanos(millis: nat): nat { millis * 1_000_000 }

  /** One invocation: the request, when the budget was checked for it, when it started after that, whether the
      transport answered, and the answer. */
  datatype Call =
    Call(request: Request, clearedAt: nat, startedAt: nat, ok: bool, response: Response, taskValid: bool)

  /** One pause: when its length was computed, when it started after that, and its length. */
  datatype Nap = Nap(cutAt: nat, startedAt: nat, millis: nat)

  /** Everything outside the client: the monotone clock, the stop callback, the network and the
      binding's payload check. The clock may advance between any two steps of the client. Where nothing else
      ends a loop, `patience` bounds how often the stop callback may still say "go on". */
  class Host {
    var clock: nat
    var patience: nat
    /** The transport's own error text, empty after an answered invocation. */
    var transportError: string
    ghost var calls: seq<Call>
    ghost var naps: seq<Nap>
    /** What the stop callback answered last, and whether it ever asked to stop. */
    ghost var saidStop: bool
    ghost var everStopped: bool

    method Now() returns (t: nat)
      modifies this`clock
      ensures t == clock >= old(clock)
    {
      t :| t >= clock;
      clock := t;
    }

    method Stopped(bounded: bool := true) returns (stop: bool)
      modifies this`patience, this`saidStop, this`everStopped
      ensures saidStop == stop && everStopped == (old(everStopped) || stop)
      ensures if stop || !bounded then patience == old(patience) else patience == old(patience) - 1
    {
      stop := *;
      if bounded && patience == 0 {
        stop := true;
      } else if bounded && !stop {
        patience := patience - 1;
      }
      saidStop, everStopped := stop, everStopped || stop;
    }

    method Invoke(request: Request, ghost clearedAt: nat)
      returns (ok: bool, response: Response, taskValid: bool, ghost call: Call)
      modifies this`clock, this`calls, this`transportError
      ensures old(clock) <= call.startedAt <= clock
      ensures ok <==> transportError == ""
      ensures call == Call(request, clearedAt, call.startedAt, ok, response, taskValid)
      ensures calls == old(calls) + [call]
    {
      ghost var startedAt := Now();
      ok, response, taskValid := *, *, *;
      transportError := "";
      if !ok {
        var text: string := *;
        transportError := "gRPC status " + text;
      }
      call := Call(request, clearedAt, startedAt, ok, response, taskValid);
      calls := calls + [call];
      var _ := Now();
    }

    method SleepFor(millis: nat, ghost cutAt: nat) returns (ghost nap: Nap)
      modifies this`clock, this`naps
      ensures old(clock) <= nap.startedAt && nap.startedAt + Nanos(millis) <= clock
      ensures nap == Nap(cutAt, nap.startedAt, millis)
      ensures naps == old(naps) + [nap]
    {
      ghost var startedAt := Now();
      nap := Nap(cutAt, startedAt, millis);
      naps := naps + [nap];
      var awake :| awake >= clock + Nanos(millis);
      clock := awake;
    }
  }

  /** Every invocation carried the same request and every one before the last was told to wait. */
  ghost predicate Waited(cursor: Cursor, request: Request, run: seq<Call>, waits: nat) {
    && waits <= |run|
    && (forall k {:trigger run[k]} | 0 <= k < |run| :: run[k].request == request)
    && (forall k {:trigger run[k]} | 0 <= k < waits ::
          run[k].ok && Judge(cursor, request.rpc, run[k].response, run[k].taskValid).Again?)
  }

  /** The verdict of an exchange is the judgement on its last invocation alone. */
  ghost predicate Concludes(cursor: Cursor, request: Request, run: seq<Call>, outcome: CommandOutcome) {
    if outcome.Stopped? || outcome.WaitExpired? then Waited(cursor, request, run, |run|)
    else
      && run != []
      && Waited(cursor, request, run, |run| - 1)
      && var last := run[|run| - 1];
         if last.ok then Judge(cursor, request.rpc, last.response, last.taskValid) == Verdict(outcome)
         else outcome.Unknown?
  }

  lemma ConcludesMeans(cursor: Cursor, request: Request, run: seq<Call>, outcome: CommandOutcome)
    requires Concludes(cursor, request, run, outcome)
    ensures outcome.Confirmed? <==>
              && run != [] && run[|run| - 1].ok
              && ProvesApplied(cursor, request.rpc, run[|run| - 1].response, run[|run| - 1].taskValid)
    ensures outcome.Refused? <==>
              run != [] && run[|run| - 1].ok && ProvesRejected(cursor, run[|run| - 1].response.reply)
    ensures !outcome.Stopped? && !outcome.WaitExpired? && run[|run| - 1].ok ==>
              !AsksToWait(cursor, request.rpc, run[|run| - 1].response)
  {
    if run != [] {
      var last := run[|run| - 1];
      JudgeMeans(cursor, request.rpc, last.response, last.taskValid);
    }
  }

  /** The validate callback saw an accepting reply and turned its phase or payload down. */
  ghost predicate PayloadRejected(rpc: Rpc, call: Call) {
    && call.ok
    && WaitDelay(rpc, call.response) == 0
    && !(PhaseFits(rpc, call.response.reply.phase) && call.taskValid)
    && CommandAccepted(call.response.reply)
  }

  /** No invocation is started on a clock reading at which the budget has elapsed, and no pause, counted from the
      reading it was cut by, reaches a full millisecond past it. */
  ghost predicate WithinBudget(start: nat, budget: nat, run: seq<Call>, naps: seq<Nap>) {
    && |run| <= budget
    && (forall k {:trigger run[k]} | 0 <= k < |run| ::
          start <= run[k].clearedAt < start + Nanos(budget) && run[k].clearedAt <= run[k].startedAt)
    && (forall k {:trigger naps[k]} | 0 <= k < |naps| ::
          && naps[k].cutAt <= naps[k].startedAt
          && (naps[k].millis == 0 || naps[k].cutAt + Nanos(naps[k].millis) < start + Nanos(budget + 1)))
  }

  /** A pause follows an answer that asked for it and is as long as asked, or cut by a budget. */
  ghost predicate PauseAfter(cursor: Cursor, rpc: Rpc, budget: Option<nat>, call: Call, nap: Nap) {
    && call.ok && AsksToWait(cursor, rpc, call.response)
    && nap.millis <= PauseAsked(rpc, call.response)
    && (budget.None? ==> nap.millis == PauseAsked(rpc, call.response))
  }

  ghost predicate CallAfter(nap: Nap, call: Call) {
    call.clearedAt >= nap.startedAt + Nanos(nap.millis)
  }

  /** Every pause follows its answer, and the next invocation comes after the pause. */
  ghost predicate Paused(cursor: Cursor, rpc: Rpc, budget: Option<nat>, run: seq<Call>, naps: seq<Nap>) {
    && |naps| <= |run|
    && (forall k {:trigger naps[k]} | 0 <= k < |naps| :: PauseAfter(cursor, rpc, budget, run[k], naps[k]))
    && (forall k {:trigger CallAfter(naps[k], run[k + 1])} | 0 <= k < |naps| && k + 1 < |run| ::
          CallAfter(naps[k], run[k + 1]))
  }

  /** The last pause, if any, is over. */
  ghost predicate Rested(naps: seq<Nap>, clock: nat) {
    naps != [] ==> var last := naps[|naps| - 1]; clock >= last.startedAt + Nanos(last.millis)
  }

  /** Time spent so far pays for the invocations made so far, unless the budget is used up. */
  ghost predicate Paid(start: nat, budget: nat, clock: nat, calls: nat) {
    clock >= start + Nanos(calls) || clock >= start + Nanos(budget)
  }

  /** Between two turns of the loop: every answer so far asked for a pause, which is over. */
  ghost predicate Going(cursor: Cursor, request: Request, budget: Option<nat>, start: nat, clock: nat, run: seq<Call>,
                        naps: seq<Nap>)
  {
    && start <= clock && |naps| == |run|
    && Waited(cursor, request, run, |run|)
    && Paused(cursor, request.rpc, budget, run, naps) && Rested(naps, clock)
    && (budget.Some? ==> WithinBudget(start, budget.value, run, naps) && Paid(start, budget.value, clock, |run|))
  }

  /** An invocation made after the last pause and, if there is a budget, within it. */
  ghost predicate Follows(request: Request, budget: Option<nat>, start: nat, clock: nat, call: Call) {
    && call.request == request && clock <= call.clearedAt <= call.startedAt
    && (budget.Some? ==> call.clearedAt < start + Nanos(budget.value))
  }

  lemma OneMoreCall(cursor: Cursor, request: Request, budget: Option<nat>, start: nat, clock: nat, run: seq<Call>,
                    naps: seq<Nap>, call: Call)
    requires Going(cursor, request, budget, start, clock, run, naps) && Follows(request, budget, start, clock, call)
    ensures Waited(cursor, request, run + [call], |run|)
    ensures Paused(cursor, request.rpc, budget, run + [call], naps)
    ensures budget.Some? ==> WithinBudget(start, budget.value, run + [call], naps)
  {
    var longer := run + [call];
    forall k | 0 <= k < |naps|
      ensures PauseAfter(cursor, request.rpc, budget, longer[k], naps[k])
    {
      assert PauseAfter(cursor, request.rpc, budget, run[k], naps[k]);
    }
    forall k | 0 <= k < |naps| && k + 1 < |longer|
      ensures CallAfter(naps[k], longer[k + 1])
    {
      assert k + 1 < |run| ==> CallAfter(naps[k], run[k + 1]);
    }
  }

  lemma OneMorePause(cursor: Cursor, request: Request, budget: Option<nat>, start: nat, clock: nat, run: seq<Call>,
                     naps: seq<Nap>, call: Call, nap: Nap, later: nat)
    requires Going(cursor, request, budget, start, clock, run, naps) && Follows(request, budget, start, clock, call)
    requires call.ok && Judge(cursor, request.rpc, call.response, call.taskValid).Again?
    requires nap.cutAt <= nap.startedAt && nap.startedAt + Nanos(nap.millis) <= later && clock <= later
    requires nap.millis <= PauseAsked(request.rpc, call.response)
    requires budget.None? ==> nap.millis == PauseAsked(request.rpc, call.response)
    requires budget.Some? ==>
               && (nap.millis == 0 || nap.cutAt + Nanos(nap.millis) < start + Nanos(budget.value + 1))
               && (later >= clock + Nanos(1) || later >= start + Nanos(budget.value))
    ensures Going(cursor, request, budget, start, later, run + [call], naps + [nap])
  {
    OneMoreCall(cursor, request, budget, start, clock, run, naps, call);
    JudgeMeans(cursor, request.rpc, call.response, call.taskValid);
    var longer, rested := run + [call], naps + [nap];
    forall k | 0 <= k < |rested|
      ensures PauseAfter(cursor, request.rpc, budget, longer[k], rested[k])
    {
      assert k < |naps| ==> PauseAfter(cursor, request.rpc, budget, run[k], naps[k]);
    }
    forall k | 0 <= k < |rested| && k + 1 < |longer|
      ensures CallAfter(rested[k], longer[k + 1])
    {
      assert CallAfter(naps[k], longer[k + 1]);
    }
  }

  /** How an exchange that was not stopped ended, and where that leaves the cursor. */
  ghost predicate Ends(before: Cursor, after: Cursor, request: Request, budget: Option<nat>, start: nat, clock: nat,
                       run: seq<Call>, naps: seq<Nap>, outcome: CommandOutcome, response: Response,
                           invalidPayload: bool)
  {
    && !outcome.Stopped?
    && |naps| == (if outcome.WaitExpired? then |run| else |run| - 1)
    && Concludes(before, request, run, outcome)
    && Paused(before, request.rpc, budget, run, naps)
    && (budget.Some? ==> WithinBudget(start, budget.value, run, naps))
    && (outcome.WaitExpired? ==> budget.Some? && clock >= start + Nanos(budget.value))
    && after == (if outcome.Confirmed? then Advance(before, response.reply) else before)
    && (if outcome.WaitExpired? then !invalidPayload
        else
          var call := run[|run| - 1];
          && response == (if call.ok then call.response else BlankResponse())
          && (invalidPayload <==> PayloadRejected(request.rpc, call)))
  }

  /** The invocations and pauses of one exchange. */
  datatype Trail = Trail(run: seq<Call>, naps: seq<Nap>)

  ghost predicate Recorded(host: Host, earlier: Trail, trail: Trail)
    reads host
  {
    host.calls == earlier.run + trail.run && host.naps == earlier.naps + trail.naps
  }

  /** The transport's error text: that of the last invocation, or what it was when there was none. */
  ghost predicate Told(text: string, before: string, run: seq<Call>) {
    if run == [] then text == before else text == "" <==> run[|run| - 1].ok
  }

  class Session {
    var cursor: Cursor

    constructor ()
      ensures cursor == Cursor("", "", 0, 1, PhaseUnspecified)
    {
      cursor := Cursor("", "", 0, 1, PhaseUnspecified);
    }

    method Bind(id: string, epoch: nat, reply: CommandReply)
      modifies this
      ensures cursor == Cursor(id, old(cursor).episodeId, epoch, reply.appliedSequence + 1, reply.phase)
    {
      cursor := cursor.(sessionId := id, sessionEpoch := epoch);
      cursor := cursor.(nextSequence := reply.appliedSequence + 1);
      cursor := cursor.(phase := reply.phase);
    }

    method SetEpisode(id: string)
      modifies this
      ensures cursor == old(cursor).(episodeId := id)
    {
      cursor := cursor.(episodeId := id);
    }

    method AcceptCommandReply(reply: CommandReply) returns (accepted: bool)
      modifies this
      ensures accepted <==>
                && reply.result in {Applied, AlreadyApplied} && reply.errorCode == ErrorUnspecified
                && reply.appliedSequence == old(cursor).nextSequence && reply.phase in KNOWN_PHASES
      ensures accepted <==> Acceptable(old(cursor), reply)
      ensures accepted ==> cursor == old(cursor).(phase := reply.phase, nextSequence := old(cursor).nextSequence + 1)
      ensures !accepted ==> cursor == old(cursor)
    {
      var expected := cursor.nextSequence;
      if !CommandAccepted(reply) || reply.appliedSequence != expected || !ConcretePhase(reply.phase) {
        return false;
      }
      cursor := cursor.(phase := reply.phase);
      cursor := cursor.(nextSequence := expected + 1);
      return true;
    }

    /** The requested pause, cut to what whole milliseconds remain of the budget. */
    method CappedDelay(host: Host, begin: nat, budget: Option<nat>, delay: nat) returns (sleep: nat)
      requires delay > 0 && begin <= host.clock
      modifies host`clock
      ensures host.clock >= old(host.clock) && sleep <= delay
      ensures budget.None? ==> sleep == delay
      ensures budget.Some? && host.clock >= begin + Nanos(budget.value) ==> sleep == 0
      ensures budget.Some? && host.clock < begin + Nanos(budget.value) ==>
                1 <= sleep && host.clock + Nanos(sleep) < begin + Nanos(budget.value + 1)
    {
      sleep := delay;
      if budget.Some? {
        var now := host.Now();
        var remaining := budget.value - (now - begin) / 1_000_000;
        var capped := if remaining > 0 then remaining else 0;
        sleep := if capped < sleep then capped else sleep;
      }
    }

    method Pause(host: Host, begin: nat, budget: Option<nat>, delay: nat) returns (ghost nap: Nap)
      requires delay > 0 && begin <= host.clock
      modifies host`clock, host`naps
      ensures host.naps == old(host.naps) + [nap] && host.clock >= old(host.clock)
      ensures nap.cutAt <= nap.startedAt && nap.startedAt + Nanos(nap.millis) <= host.clock
      ensures nap.millis <= delay && (budget.None? ==> nap.millis == delay)
      ensures budget.Some? ==> nap.millis == 0 || nap.cutAt + Nanos(nap.millis) < begin + Nanos(budget.value + 1)
      ensures budget.Some? ==> host.clock >= old(host.clock) + Nanos(1) || host.clock >= begin + Nanos(budget.value)
    {
      var sleep := CappedDelay(host, begin, budget, delay);
      nap := host.SleepFor(sleep, host.clock);
    }

    /** What an answer that is no WAIT means for the command. */
    method Conclude(rpc: Rpc, response: Response, taskValid: bool, delay: int)
      returns (outcome: CommandOutcome, invalidPayload: bool)
      requires delay == WaitDelay(rpc, response) && !(delay > 0 && IsCommandWait(cursor, response.reply))
      modifies this
      ensures Judge(old(cursor), rpc, response, taskValid) == Verdict(outcome)
      ensures outcome.Confirmed? <==> ProvesApplied(old(cursor), rpc, response, taskValid)
      ensures outcome.Refused? <==> ProvesRejected(old(cursor), response.reply)
      ensures outcome.Confirmed? || outcome.Refused? || outcome.Unknown?
      ensures cursor == if outcome.Confirmed? then Advance(old(cursor), response.reply) else old(cursor)
      ensures invalidPayload <==>
                delay == 0 && !(PhaseFits(rpc, response.reply.phase) && taskValid) && CommandAccepted(response.reply)
    {
      JudgeMeans(cursor, rpc, response, taskValid);
      var valid := false;
      invalidPayload := false;
      if delay == 0 {
        valid := PhaseFits(rpc, response.reply.phase) && taskValid;
        invalidPayload := !valid && CommandAccepted(response.reply);
      }
      if valid {
        var accepted := AcceptCommandReply(response.reply);
        if accepted {
          return Confirmed, invalidPayload;
        }
      }
      outcome := if IsConclusiveRejected(cursor, response.reply) then Refused else Unknown;
    }

    /** Invokes unless the budget is used up. */
    method InvokeInTime(host: Host, request: Request, budget: Option<nat>, begin: nat, ghost earlier: Trail,
                        ghost before: Trail, ghost text: string)
      returns (clear: bool, ok: bool, response: Response, taskValid: bool, ghost call: Call)
      requires begin <= host.clock && Recorded(host, earlier, before) && Told(host.transportError, text, before.run)
      modifies host`clock, host`calls, host`transportError
      ensures host.clock >= old(host.clock)
      ensures !clear ==>
                && budget.Some? && host.clock >= begin + Nanos(budget.value)
                && Recorded(host, earlier, before) && Told(host.transportError, text, before.run)
      ensures clear ==>
                && Follows(request, budget, begin, old(host.clock), call) && call.startedAt <= host.clock
                && call.ok == ok && call.response == response && call.taskValid == taskValid
                && Recorded(host, earlier, Trail(before.run + [call], before.naps))
                && Told(host.transportError, text, before.run + [call])
    {
      ghost var clearedAt := host.clock;
      if budget.Some? {
        var reading := host.Now();
        clearedAt := reading;
        if reading - begin >= Nanos(budget.value) {
          response, ok, taskValid := BlankResponse(), false, false;
          call := Call(request, 0, 0, ok, response, taskValid);
          return false, ok, response, taskValid, call;
        }
      }
      ok, response, taskValid, call := host.Invoke(request, clearedAt);
      assert (earlier.run + before.run) + [call] == earlier.run + (before.run + [call]);
      clear := true;
    }

    /** One turn of the loop: check the budget, invoke, and pause or conclude. No outcome means to go on. */
    method Turn(host: Host, request: Request, budget: Option<nat>, begin: nat, ghost earlier: Trail,
                ghost before: Trail, ghost text: string)
      returns (outcome: Option<CommandOutcome>, response: Response, invalidPayload: bool, ghost now: Trail)
      requires Going(cursor, request, budget, begin, host.clock, before.run, before.naps)
      requires Recorded(host, earlier, before) && Told(host.transportError, text, before.run)
      modifies this, host`clock, host`calls, host`naps, host`transportError
      ensures begin <= host.clock && Recorded(host, earlier, now) && Told(host.transportError, text, now.run)
      ensures outcome.None? ==>
                && |now.run| == |before.run| + 1 && cursor == old(cursor) && !invalidPayload
                && Going(cursor, request, budget, begin, host.clock, now.run, now.naps)
      ensures outcome.Some? ==>
                && |before.run| <= |now.run|
                && Ends(old(cursor), cursor, request, budget, begin, host.clock, now.run, now.naps, outcome.value,
                        response, invalidPayload)
    {
      response, invalidPayload, now := BlankResponse(), false, before;
      ghost var clock := host.clock;
      var clear, ok, answer, taskValid;
      ghost var call;
      clear, ok, answer, taskValid, call := InvokeInTime(host, request, budget, begin, earlier, before, text);
      if !clear {
        return Some(WaitExpired), response, invalidPayload, now;
      }
      OneMoreCall(cursor, request, budget, begin, clock, before.run, before.naps, call);
      now := Trail(before.run + [call], before.naps);
      if !ok {
        return Some(Unknown), response, invalidPayload, now;
      }
      response := answer;
      JudgeMeans(cursor, request.rpc, response, taskValid);
      var delay := WaitDelay(request.rpc, response);
      if delay > 0 && IsCommandWait(cursor, response.reply) {
        ghost var nap := Pause(host, begin, budget, delay);
        OneMorePause(cursor, request, budget, begin, clock, before.run, before.naps, call, nap, host.clock);
        now := Trail(now.run, now.naps + [nap]);
        return None, response, invalidPayload, now;
      }
      var verdict;
      verdict, invalidPayload := Conclude(request.rpc, response, taskValid, delay);
      outcome := Some(verdict);
    }

    /** The turns until one of them concludes or the caller stops. */
    method Turns(host: Host, request: Request, budget: Option<nat>)
      returns (outcome: CommandOutcome, response: Response, invalidPayload: bool, ghost trail: Trail, ghost start: nat)
      modifies this, host
      ensures Recorded(host, Trail(old(host.calls), old(host.naps)), trail) && old(host.clock) <= start <= host.clock
      ensures outcome.Stopped? <==> host.saidStop
      ensures host.everStopped == (old(host.everStopped) || host.saidStop)
      ensures Told(host.transportError, old(host.transportError), trail.run)
      ensures outcome.Stopped? ==>
                && cursor == old(cursor) && !invalidPayload
                && Going(cursor, request, budget, start, host.clock, trail.run, trail.naps)
      ensures !outcome.Stopped? ==>
                Ends(old(cursor), cursor, request, budget, start, host.clock, trail.run, trail.naps, outcome, response,
                     invalidPayload)
      ensures host.patience <= old(host.patience) <= host.patience + |trail.run| + 1
      ensures budget.Some? ==> host.patience == old(host.patience)
    {
      response, invalidPayload := BlankResponse(), false;
      ghost var earlier, text := Trail(host.calls, host.naps), host.transportError;
      trail := Trail([], []);
      var begin := host.Now();
      start := begin;
      var stop := host.Stopped(budget.None?);
      while !stop
        invariant Told(host.transportError, old(host.transportError), trail.run)
        invariant Recorded(host, earlier, trail) && earlier == Trail(old(host.calls), old(host.naps))
        invariant cursor == old(cursor) && begin == start && !invalidPayload && stop == host.saidStop
        invariant host.everStopped == (old(host.everStopped) || host.saidStop)
        invariant Going(cursor, request, budget, start, host.clock, trail.run, trail.naps)
        invariant host.patience <= old(host.patience) <= host.patience + |trail.run| + if stop then 0 else 1
        invariant budget.Some? ==> host.patience == old(host.patience)
        decreases !stop, if budget.Some? then budget.value - |trail.run| else host.patience
      {
        var verdict;
        verdict, response, invalidPayload, trail := Turn(host, request, budget, begin, earlier, trail, text);
        if verdict.Some? {
          return verdict.value, response, invalidPayload, trail, start;
        }
        stop := host.Stopped(budget.None?);
      }
      outcome := Stopped;
    }

    /** `budget` is None for an unlimited WAIT budget. */
    method Exchange(host: Host, request: Request, budget: Option<nat>)
      returns (outcome: CommandOutcome, response: Response, invalidPayload: bool, ghost run: seq<Call>,
          ghost naps: seq<Nap>, ghost start: nat)
      modifies this, host
      ensures host.calls == old(host.calls) + run && host.naps == old(host.naps) + naps
      ensures old(host.clock) <= start <= host.clock
      ensures Told(host.transportError, old(host.transportError), run)
      ensures Concludes(old(cursor), request, run, outcome)
      ensures outcome.Confirmed? <==>
                && run != [] && run[|run| - 1].ok
                && ProvesApplied(old(cursor), request.rpc, run[|run| - 1].response, run[|run| - 1].taskValid)
      ensures outcome.Refused? <==>
                run != [] && run[|run| - 1].ok && ProvesRejected(old(cursor), run[|run| - 1].response.reply)
      // Exactly an answer that asks for a pause leads to one, and after it to another invocation, unless the
      // caller stops or the budget is used up.
      ensures Paused(old(cursor), request.rpc, budget, run, naps)
      ensures |naps| == if outcome.Stopped? || outcome.WaitExpired? then |run| else |run| - 1
      ensures !outcome.Stopped? && !outcome.WaitExpired? && run[|run| - 1].ok ==>
                !AsksToWait(old(cursor), request.rpc, run[|run| - 1].response)
      ensures outcome.Stopped? <==> host.saidStop
      ensures host.everStopped == (old(host.everStopped) || host.saidStop)
      ensures cursor == if outcome.Confirmed? then Advance(old(cursor), response.reply) else old(cursor)
      ensures !outcome.Stopped? && !outcome.WaitExpired? ==>
                response == if run[|run| - 1].ok then run[|run| - 1].response else BlankResponse()
      ensures invalidPayload <==>
                !outcome.Stopped? && !outcome.WaitExpired? && PayloadRejected(request.rpc, run[|run| - 1])
      ensures budget.Some? ==> WithinBudget(start, budget.value, run, naps)
      ensures outcome.WaitExpired? ==> budget.Some? && host.clock >= start + Nanos(budget.value)
      // A budget ends the loop by itself, however often the stop callback says "go on".
      ensures host.patience <= old(host.patience) <= host.patience + |run| + 1
      ensures budget.Some? ==> host.patience == old(host.patience)
    {
      ghost var trail;
      outcome, response, invalidPayload, trail, start := Turns(host, request, budget);
      run, naps := trail.run, trail.naps;
      ConcludesMeans(old(cursor), request, run, outcome);
    }
  }
}
