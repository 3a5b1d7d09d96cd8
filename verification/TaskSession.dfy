/** TaskClient's command methods and error text, and the Open/Init/Episode/Abort/Close order that
    RunSession drives. */
module TaskSession {
  import opened Wrappers
  import opened Lifecycle
  import S = Session

  datatype Command = OpenSession | Lifecycle(rpc: Rpc)

  /** One command as the trace of a session remembers it: the cursor before it, the client's error text after it and
      the invocations made for it. */
  datatype Sent =
    Sent(command: Command, before: Cursor, outcome: CommandOutcome, error: string, calls: seq<S.Call>)

  datatype OpenResponse =
    OpenResponse(reply: CommandReply, sessionId: string, sessionEpoch: nat, serverNamed: bool)

  /** What the OpenSession call brought back; `taskValid` is the binding's own payload check. */
  datatype OpenAnswer = NoAnswer | Answer(response: OpenResponse, taskValid: bool)

  /** The server grants a fresh session and names it and itself. */
  predicate Grants(answer: OpenAnswer) {
    && answer.Answer? && answer.taskValid
    && var r := answer.response;
       && r.reply.result in {Applied, AlreadyApplied} && r.reply.errorCode == ErrorUnspecified
       && r.reply.appliedSequence == 0 && r.reply.phase == Open
       && r.sessionId != "" && r.sessionEpoch != 0 && r.serverNamed
  }

  predicate TurnsDown(answer: OpenAnswer) {
    answer.Answer? && !(answer.response.reply.result in {Applied, AlreadyApplied}
                        && answer.response.reply.errorCode == ErrorUnspecified)
  }

  predicate ClosablePhase(phase: Phase) {
    phase.Open? || phase.Ready? || phase.Aborted? || phase.TaskComplete?
  }

  /** The text TaskClient.Exchange leaves when a command is not confirmed. */
  function FailureText(outcome: CommandOutcome, transport: string, invalidPayload: bool,
                       reply: CommandReply): (text: string)
    ensures text != ""
  {
    if transport != "" then transport
    else if invalidPayload then "task response payload or lifecycle phase is invalid"
    else if outcome.WaitExpired? then "command WAIT budget expired"
    else if outcome.Stopped? then "command stopped by caller"
    else if outcome.Unknown? && CommandAccepted(reply) then
      "command receipt does not match the requested lifecycle sequence"
    else if reply.message == "" then "command was not confirmed" else reply.message
  }

  /** What the error text says: the stop or the expired budget, the server's refusal, or why the last answer, if
      there was one, proves nothing. */
  ghost predicate Explained(outcome: CommandOutcome, run: seq<S.Call>, transport: string, rpc: Rpc, error: string) {
    match outcome
    case Confirmed => error == ""
    case Stopped => error == "command stopped by caller"
    case WaitExpired => error == "command WAIT budget expired"
    case _ =>
      && run != []
      && var last := run[|run| - 1];
         var reply := last.response.reply;
         var said := if reply.message == "" then "command was not confirmed" else reply.message;
         if outcome.Refused? then last.ok && error == said
         else if !last.ok then error == transport && transport != ""
         else if reply.result !in {Applied, AlreadyApplied} || reply.errorCode != ErrorUnspecified then error == said
         else if S.PayloadRejected(rpc, last) then error == "task response payload or lifecycle phase is invalid"
         else error == "command receipt does not match the requested lifecycle sequence"
  }

  lemma FailureIsExplained(cursor: Cursor, request: Request, run: seq<S.Call>, outcome: CommandOutcome,
                           transport: string, invalidPayload: bool, response: Response)
    requires S.Concludes(cursor, request, run, outcome) && !outcome.Confirmed? && S.Told(transport, "", run)
    requires var decided := !outcome.Stopped? && !outcome.WaitExpired?;
             && (decided ==> response == if run[|run| - 1].ok then run[|run| - 1].response else BlankResponse())
             && (invalidPayload <==> decided && S.PayloadRejected(request.rpc, run[|run| - 1]))
    ensures Explained(outcome, run, transport, request.rpc,
              FailureText(outcome, transport, invalidPayload, response.reply))
  {
    if run != [] {
      var last := run[|run| - 1];
      JudgeMeans(cursor, request.rpc, last.response, last.taskValid);
    }
  }

  /** Abort is sent only while an Episode runs, Close only from a closable phase, and nothing at all
      after a command whose outcome is unknown. */
  ghost predicate Disciplined(trace: seq<Sent>) {
    forall k {:trigger trace[k]} | 0 <= k < |trace| ::
      && (trace[k].command == Lifecycle(AbortEpisode) ==> trace[k].before.phase.EpisodeRunning?)
      && (trace[k].command == Lifecycle(CloseSession) ==> ClosablePhase(trace[k].before.phase))
      && (trace[k].outcome.Unknown? ==> k == |trace| - 1)
  }

  ghost predicate AllConfirmed(trace: seq<Sent>) {
    forall k {:trigger trace[k]} | 0 <= k < |trace| :: trace[k].outcome.Confirmed?
  }

  /** The error text starts with what the first failing command left behind. */
  ghost predicate KeepsFirstError(trace: seq<Sent>, error: string) {
    forall k {:trigger trace[k]} | 0 <= k < |trace| && !trace[k].outcome.Confirmed? && AllConfirmed(trace[..k]) ::
      && trace[k].error <= error
      && (trace[k].command != OpenSession ==> trace[k].error != "")
  }

  // ---- What goes over the wire, and in which order ----

  /** Every invocation made for a command names it, and carries the cursor the client had before it. */
  ghost predicate OnWire(s: Sent) {
    match s.command
    case OpenSession => s.calls == []
    case Lifecycle(rpc) =>
      && (s.outcome.Confirmed? ==> s.calls != [])
      && forall k {:trigger s.calls[k]} | 0 <= k < |s.calls| ::
           var request := s.calls[k].request;
           && request.rpc == rpc && request == s.calls[0].request
           && request.command.sessionId == s.before.sessionId
           && request.command.sessionEpoch == s.before.sessionEpoch
           && request.command.sequence == s.before.nextSequence
           && request.command.episodeId == s.before.episodeId
  }

  /** The same, for the invocations alone. */
  ghost predicate Carries(cursor: Cursor, rpc: Rpc, body: string, run: seq<S.Call>) {
    forall k {:trigger run[k]} | 0 <= k < |run| ::
      var request := run[k].request;
      && request.rpc == rpc && request.body == body
      && request.command.sessionId == cursor.sessionId
      && request.command.sessionEpoch == cursor.sessionEpoch
      && request.command.sequence == cursor.nextSequence
      && request.command.episodeId == cursor.episodeId
  }

  lemma CarriedOnWire(cursor: Cursor, rpc: Rpc, body: string, run: seq<S.Call>, outcome: CommandOutcome, error: string)
    requires Carries(cursor, rpc, body, run) && (outcome.Confirmed? ==> run != [])
    ensures OnWire(Sent(Lifecycle(rpc), cursor, outcome, error, run))
  {
    forall k | 0 <= k < |run|
      ensures run[k].request == run[0].request
    {
      assert run[0].request.rpc == rpc;
    }
  }

  /** Within a budget of B ms at most B invocations are made, all cleared less than B ms after the first. */
  ghost predicate InBudget(run: seq<S.Call>, budget: nat) {
    && |run| <= budget
    && forall k {:trigger run[k]} | 0 <= k < |run| :: run[k].clearedAt < run[0].clearedAt + S.Nanos(budget)
  }

  /** How many commands with a number were confirmed. */
  function Confirmations(trace: seq<Sent>): nat {
    if trace == [] then 0
    else
      var last := trace[|trace| - 1];
      Confirmations(trace[..|trace| - 1]) + if last.command.Lifecycle? && last.outcome.Confirmed? then 1 else 0
  }

  /** Numbers start at 1 and rise by one exactly after each confirmed command; the session stays the same. */
  ghost predicate NumberedAt(trace: seq<Sent>, cursor: Cursor, k: nat)
    requires k < |trace|
  {
    && OnWire(trace[k])
    && (trace[k].command.Lifecycle? ==>
          && trace[k].before.nextSequence == 1 + Confirmations(trace[..k])
          && trace[k].before.sessionId == cursor.sessionId && trace[k].before.sessionEpoch == cursor.sessionEpoch)
  }

  /** Which command may come after which. */
  predicate MayFollow(previous: Command, next: Command) {
    match next
    case OpenSession => false
    case Lifecycle(rpc) =>
      match rpc
      case Init => previous == OpenSession
      case BeginEpisode => previous in {Lifecycle(Init), Lifecycle(EndEpisode)}
      case Update => previous in {Lifecycle(BeginEpisode), Lifecycle(Update)}
      case EndEpisode => previous == Lifecycle(Update)
      case AbortEpisode => previous in {Lifecycle(BeginEpisode), Lifecycle(Update), Lifecycle(EndEpisode)}
      case CloseSession => previous != Lifecycle(CloseSession)
  }

  ghost predicate InTurn(trace: seq<Sent>, k: nat)
    requires k < |trace|
  {
    if k == 0 then trace[0].command == OpenSession else MayFollow(trace[k - 1].command, trace[k].command)
  }

  function Wire(trace: seq<Sent>): seq<S.Call> {
    if trace == [] then [] else Wire(trace[..|trace| - 1]) + trace[|trace| - 1].calls
  }

  /** The trace tells all invocations, in an order and with numbers that the protocol allows. */
  ghost predicate Traced(trace: seq<Sent>, cursor: Cursor, earlier: seq<S.Call>, calls: seq<S.Call>) {
    && calls == earlier + Wire(trace)
    && cursor.nextSequence == 1 + Confirmations(trace)
    && (forall k | 0 <= k < |trace| :: NumberedAt(trace, cursor, k))
    && (forall k | 0 <= k < |trace| :: InTurn(trace, k))
  }

  lemma TracedOneMore(trace: seq<Sent>, cursor: Cursor, after: Cursor, earlier: seq<S.Call>, calls: seq<S.Call>,
                      s: Sent)
    requires Traced(trace, cursor, earlier, calls) && OnWire(s)
    requires if trace == [] then s.command == OpenSession else MayFollow(trace[|trace| - 1].command, s.command)
    requires s.command.Lifecycle? ==>
               && s.before == cursor && after.sessionId == cursor.sessionId && after.sessionEpoch == cursor.sessionEpoch
               && after.nextSequence == cursor.nextSequence + if s.outcome.Confirmed? then 1 else 0
    requires s.command.OpenSession? ==> after.nextSequence == 1
    ensures Traced(trace + [s], after, earlier, calls + s.calls)
  {
    var longer := trace + [s];
    assert longer[..|trace|] == trace;
    forall k | 0 <= k < |longer|
      ensures NumberedAt(longer, after, k) && InTurn(longer, k)
    {
      if k < |trace| {
        assert longer[..k] == trace[..k];
        assert NumberedAt(trace, cursor, k) && InTurn(trace, k);
      }
    }
  }

  lemma TracedIfNext(trace: seq<Sent>, cursor: Cursor, after: Cursor, earlier: seq<S.Call>, calls: seq<S.Call>, s: Sent)
    requires OnWire(s) && s.command.Lifecycle? && s.before == cursor
    requires after.sessionId == cursor.sessionId && after.sessionEpoch == cursor.sessionEpoch
    requires after.nextSequence == cursor.nextSequence + if s.outcome.Confirmed? then 1 else 0
    ensures Traced(trace, cursor, earlier, calls) && trace != [] && MayFollow(trace[|trace| - 1].command, s.command) ==>
              Traced(trace + [s], after, earlier, calls + s.calls)
  {
    if Traced(trace, cursor, earlier, calls) && trace != [] && MayFollow(trace[|trace| - 1].command, s.command) {
      TracedOneMore(trace, cursor, after, earlier, calls, s);
    }
  }

  lemma TracedFirst(cursor: Cursor, after: Cursor, earlier: seq<S.Call>, calls: seq<S.Call>, s: Sent)
    requires s.command == OpenSession && s.calls == []
    requires after.nextSequence == 1 || after == cursor
    ensures Traced([], cursor, earlier, calls) ==> Traced([s], after, earlier, calls)
  {
    if Traced([], cursor, earlier, calls) {
      TracedOneMore([], cursor, after, earlier, calls, s);
      assert [] + [s] == [s] && calls + s.calls == calls;
    }
  }

  class TaskClient {
    const session: S.Session
    const host: S.Host
    const abortBudget: nat
    var error: string
    ghost var trace: seq<Sent>
    /** The invocations made before this client existed. */
    ghost const earlier: seq<S.Call>

    ghost predicate Traces()
      reads this, session, host
    {
      Traced(trace, session.cursor, earlier, host.calls)
    }

    /** The command may come next. */
    ghost predicate Next(rpc: Rpc)
      reads this
    {
      trace != [] && MayFollow(trace[|trace| - 1].command, Lifecycle(rpc))
    }

    constructor (host: S.Host, abortBudget: nat)
      ensures this.host == host && fresh(session) && error == "" && trace == [] && Traces()
      ensures session.cursor.sessionId == "" && session.cursor.episodeId == ""
                && session.cursor.phase == PhaseUnspecified
    {
      this.host, this.abortBudget, error, trace, earlier := host, abortBudget, "", [], host.calls;
      session := new S.Session();
    }

    predicate Active()
      reads session
    {
      session.cursor.phase.EpisodeRunning?
    }

    predicate Complete()
      reads session
    {
      session.cursor.phase.TaskComplete?
    }

    predicate CanClose()
      reads session
    {
      session.cursor.sessionId != "" && ClosablePhase(session.cursor.phase)
    }

    method Open() returns (outcome: CommandOutcome, ghost answer: OpenAnswer)
      modifies this, session, host
      ensures trace == old(trace) + [Sent(OpenSession, old(session.cursor), outcome, error, [])]
      ensures old(Traces()) && old(trace) == [] ==> Traces()
      ensures outcome == if Grants(answer) then Confirmed else if TurnsDown(answer) then Refused else Unknown
      ensures session.cursor == if Grants(answer) then
                Cursor(answer.response.sessionId, old(session.cursor.episodeId), answer.response.sessionEpoch, 1,
                       Lifecycle.Open)
                else old(session.cursor)
      ensures outcome.Confirmed? ==> error == ""
      ensures outcome.Refused? ==> error == answer.response.reply.message
      ensures outcome.Unknown? ==> error != ""
      ensures host.everStopped == old(host.everStopped)
    {
      ghost var before := session.cursor;
      outcome, answer := Ask();
      ghost var sent := Sent(OpenSession, before, outcome, error, []);
      TracedFirst(before, session.cursor, earlier, host.calls, sent);
      trace := trace + [sent];
    }

    /** Sends OpenSession and binds the session it grants. */
    method Ask() returns (outcome: CommandOutcome, ghost answer: OpenAnswer)
      modifies this`error, session
      ensures outcome == if Grants(answer) then Confirmed else if TurnsDown(answer) then Refused else Unknown
      ensures session.cursor == if Grants(answer) then
                Cursor(answer.response.sessionId, old(session.cursor.episodeId), answer.response.sessionEpoch, 1,
                       Lifecycle.Open)
                else old(session.cursor)
      ensures outcome.Confirmed? ==> error == ""
      ensures outcome.Refused? ==> error == answer.response.reply.message
      ensures outcome.Unknown? ==> error != ""
    {
      error := "";
      var ok, response: OpenResponse, taskValid := *, *, *;
      answer := if ok then Answer(response, taskValid) else NoAnswer;
      if !ok {
        var text: string := *;
        error := "gRPC status " + text;
        outcome := Unknown;
      } else if !CommandAccepted(response.reply) {
        error := response.reply.message;
        outcome := Refused;
      } else if response.reply.appliedSequence != 0 || response.reply.phase != Lifecycle.Open
                || response.sessionId == "" || response.sessionEpoch == 0 || !response.serverNamed || !taskValid {
        error := "OpenSession identity or task assignment is invalid";
        outcome := Unknown;
      } else {
        session.Bind(response.sessionId, response.sessionEpoch, response.reply);
        outcome := Confirmed;
      }
    }

    method Exchange(rpc: Rpc, body: string, budget: Option<nat>)
      returns (outcome: CommandOutcome, ghost run: seq<S.Call>)
      modifies this`error, session, host
      ensures host.calls == old(host.calls) + run && (outcome.Confirmed? ==> run != [])
      ensures Carries(old(session.cursor), rpc, body, run)
      ensures outcome.Confirmed? ==> (rpc, session.cursor.phase) in CONFIRMING
      ensures outcome.Confirmed? ==> session.cursor == old(session.cursor).(
                phase := session.cursor.phase, nextSequence := old(session.cursor.nextSequence) + 1)
      ensures !outcome.Confirmed? ==> session.cursor == old(session.cursor)
      ensures outcome.WaitExpired? ==> budget.Some?
      ensures budget.Some? ==> InBudget(run, budget.value) && host.patience == old(host.patience)
      ensures outcome.Stopped? <==> host.saidStop
      ensures host.everStopped == (old(host.everStopped) || host.saidStop)
      ensures host.patience <= old(host.patience)
      ensures outcome.Confirmed? <==> error == ""
      ensures Explained(outcome, run, host.transportError, rpc, error)
    {
      error := "";
      host.transportError := "";
      var request := Request(rpc, FillCommand(session.cursor), body);
      var response, invalidPayload;
      ghost var naps, start;
      outcome, response, invalidPayload, run, naps, start := session.Exchange(host, request, budget);
      if outcome.Confirmed? {
        PhasesListed(rpc, session.cursor.phase);
      } else {
        Explain(old(session.cursor), request, run, outcome, invalidPayload, response);
      }
    }

    /** Leaves the error text of a command that was not confirmed. */
    method Explain(ghost before: Cursor, ghost request: Request, ghost run: seq<S.Call>, outcome: CommandOutcome,
                   invalidPayload: bool, response: Response)
      requires S.Concludes(before, request, run, outcome) && !outcome.Confirmed? && S.Told(host.transportError, "", run)
      requires var decided := !outcome.Stopped? && !outcome.WaitExpired?;
               && (decided ==> response == if run[|run| - 1].ok then run[|run| - 1].response else BlankResponse())
               && (invalidPayload <==> decided && S.PayloadRejected(request.rpc, run[|run| - 1]))
      modifies this`error
      ensures error != "" && Explained(outcome, run, host.transportError, request.rpc, error)
    {
      FailureIsExplained(before, request, run, outcome, host.transportError, invalidPayload, response);
      error := FailureText(outcome, host.transportError, invalidPayload, response.reply);
    }

    method Send(rpc: Rpc, body: string) returns (outcome: CommandOutcome, ghost run: seq<S.Call>)
      requires !rpc.AbortEpisode? && !rpc.CloseSession?
      modifies this, session, host
      ensures trace == old(trace) + [Sent(Lifecycle(rpc), old(session.cursor), outcome, error, run)]
      ensures host.calls == old(host.calls) + run && OnWire(trace[|trace| - 1])
      ensures Carries(old(session.cursor), rpc, body, run)
      ensures old(Traces()) && old(Next(rpc)) ==> Traces()
      ensures session.cursor.nextSequence == old(session.cursor.nextSequence) + if outcome.Confirmed? then 1 else 0
      ensures outcome.Confirmed? ==> (rpc, session.cursor.phase) in CONFIRMING
      ensures outcome.Stopped? <==> host.saidStop
      ensures host.everStopped == (old(host.everStopped) || host.saidStop)
      ensures !outcome.Confirmed? ==> session.cursor == old(session.cursor)
      ensures session.cursor.sessionId == old(session.cursor.sessionId)
      ensures outcome.Confirmed? ==>
                if rpc.BeginEpisode? && session.cursor.phase.EpisodeRunning? then session.cursor.episodeId != ""
                else session.cursor.episodeId == if rpc.EndEpisode? then "" else old(session.cursor.episodeId)
      ensures outcome.Confirmed? <==> error == ""
      ensures !outcome.WaitExpired? && host.patience <= old(host.patience)
    {
      ghost var before, calls := session.cursor, host.calls;
      outcome, run := Exchange(rpc, body, None);
      if outcome.Confirmed? {
        NameEpisode(rpc);
      }
      Note(rpc, body, outcome, before, calls, run);
    }

    /** A running Episode is named when it begins; the name goes when it ends or is aborted. */
    method NameEpisode(rpc: Rpc)
      modifies session
      ensures session.cursor == old(session.cursor).(episodeId := session.cursor.episodeId)
      ensures if rpc.BeginEpisode? && Active() then session.cursor.episodeId != ""
              else session.cursor.episodeId ==
                   if rpc.EndEpisode? || rpc.AbortEpisode? then "" else old(session.cursor.episodeId)
    {
      if rpc.BeginEpisode? && Active() {
        // The validator lets an assignment through only when it names its Episode.
        var first: char, rest: string := *, *;
        session.SetEpisode([first] + rest);
      } else if rpc.EndEpisode? || rpc.AbortEpisode? {
        session.SetEpisode("");
      }
    }

    /** The command just exchanged goes on the trace. */
    ghost method Note(rpc: Rpc, body: string, outcome: CommandOutcome, before: Cursor, calls: seq<S.Call>,
                      run: seq<S.Call>)
      requires host.calls == calls + run && Carries(before, rpc, body, run) && (outcome.Confirmed? ==> run != [])
      requires session.cursor.sessionId == before.sessionId && session.cursor.sessionEpoch == before.sessionEpoch
      requires session.cursor.nextSequence == before.nextSequence + if outcome.Confirmed? then 1 else 0
      modifies this`trace
      ensures trace == old(trace) + [Sent(Lifecycle(rpc), before, outcome, error, run)]
      ensures OnWire(trace[|trace| - 1])
      ensures Traced(old(trace), before, earlier, calls) && old(Next(rpc)) ==> Traces()
    {
      var sent := Sent(Lifecycle(rpc), before, outcome, error, run);
      CarriedOnWire(before, rpc, body, run, outcome, error);
      TracedIfNext(trace, before, session.cursor, earlier, calls, sent);
      trace := trace + [sent];
    }

    /** An earlier failure stays in front of what a cleanup command left behind. */
    method PreserveFailure(original: string, cleanup: string, confirmed: bool)
      modifies this`error
      ensures original == "" ==> error == old(error)
      ensures original != "" && confirmed ==> error == original
      ensures original != "" && !confirmed ==>
                error == original + ("; " + cleanup + " cleanup failed: " + old(error)) && error != original
      ensures original <= error
    {
      if original != "" {
        error := original + if confirmed then "" else "; " + cleanup + " cleanup failed: " + error;
      }
    }

    /** AbortEpisode and CloseSession keep an earlier failure and append their own. */
    method CleanUp(rpc: Rpc, body: string) returns (outcome: CommandOutcome, ghost run: seq<S.Call>)
      requires rpc.AbortEpisode? || rpc.CloseSession?
      modifies this, session, host
      ensures trace == old(trace) + [Sent(Lifecycle(rpc), old(session.cursor), outcome, error, run)]
      ensures host.calls == old(host.calls) + run && OnWire(trace[|trace| - 1])
      ensures Carries(old(session.cursor), rpc, body, run)
      ensures old(Traces()) && old(Next(rpc)) ==> Traces()
      ensures session.cursor.nextSequence == old(session.cursor.nextSequence) + if outcome.Confirmed? then 1 else 0
      ensures outcome.Confirmed? ==> (rpc, session.cursor.phase) in CONFIRMING
      ensures outcome.Stopped? <==> host.saidStop
      ensures host.everStopped == (old(host.everStopped) || host.saidStop)
      ensures !outcome.Confirmed? ==> session.cursor == old(session.cursor)
      ensures session.cursor.sessionId == old(session.cursor.sessionId)
      ensures outcome.Confirmed? ==>
                session.cursor.episodeId == if rpc.AbortEpisode? then "" else old(session.cursor.episodeId)
      ensures old(error) <= error
      ensures outcome.Confirmed? ==> error == old(error)
      // An Abort has a budget and needs no stop to come to an end; a Close has none and cannot expire.
      ensures rpc.AbortEpisode? ==> InBudget(run, abortBudget) && host.patience == old(host.patience)
      ensures outcome.WaitExpired? ==> rpc.AbortEpisode?
      ensures !outcome.Confirmed? ==> error != "" && (old(error) != "" ==> error != old(error))
    {
      var original := error;
      ghost var before, calls := session.cursor, host.calls;
      outcome, run := Exchange(rpc, body, if rpc.AbortEpisode? then Some(abortBudget) else None);
      if outcome.Confirmed? {
        NameEpisode(rpc);
      }
      PreserveFailure(original, if rpc.AbortEpisode? then "AbortEpisode" else "CloseSession", outcome.Confirmed?);
      Note(rpc, body, outcome, before, calls, run);
    }
  }

  /** Only main-path commands so far, all confirmed. */
  ghost predicate Clean(trace: seq<Sent>, error: string) {
    AllConfirmed(trace) && MainOnly(trace) && error == ""
  }

  ghost predicate MainOnly(trace: seq<Sent>) {
    forall k {:trigger trace[k]} | 0 <= k < |trace| ::
      trace[k].command != Lifecycle(AbortEpisode) && trace[k].command != Lifecycle(CloseSession)
  }

  /** The main path ended with `cause`: either its last command failed that way, or every command
      was confirmed and the adapter or the stop callback decided. */
  ghost predicate MainPath(trace: seq<Sent>, error: string, cause: CommandOutcome) {
    || Clean(trace, error)
    || (&& trace != [] && MainOnly(trace)
        && var last := trace[|trace| - 1];
           && AllConfirmed(trace[..|trace| - 1])
           && last.outcome == cause && !cause.Confirmed?
           && last.error == error && (last.command != OpenSession ==> error != ""))
  }

  /** The cursor names an Episode exactly while one runs or waits for its end. */
  predicate NamesEpisode(cursor: Cursor) {
    cursor.episodeId != "" <==> cursor.phase.EpisodeRunning? || cursor.phase.EpisodeTerminal?
  }

  predicate MainPhase(phase: Phase) {
    phase.Open? || phase.Ready? || phase.EpisodeRunning? || phase.EpisodeTerminal? || phase.TaskComplete?
  }

  lemma MainPathIsDisciplined(trace: seq<Sent>, error: string, cause: CommandOutcome)
    requires MainPath(trace, error, cause)
    ensures Disciplined(trace) && KeepsFirstError(trace, error)
  {
    forall k | 0 <= k < |trace|
      ensures trace[k].outcome.Confirmed? || k == |trace| - 1
    {
      if k < |trace| - 1 && !Clean(trace, error) {
        assert trace[k] == trace[..|trace| - 1][k];
      }
    }
  }

  /** One more cleanup command at the end of a disciplined trace. */
  lemma CleanUpKeeps(trace: seq<Sent>, error: string, last: Sent)
    requires Disciplined(trace) && KeepsFirstError(trace, error)
    requires trace != [] ==> !trace[|trace| - 1].outcome.Unknown?
    requires || (last.command == Lifecycle(AbortEpisode) && last.before.phase.EpisodeRunning?)
             || (last.command == Lifecycle(CloseSession) && ClosablePhase(last.before.phase))
    requires error <= last.error && (!last.outcome.Confirmed? ==> last.error != "")
    ensures Disciplined(trace + [last]) && KeepsFirstError(trace + [last], last.error)
  {
    var all := trace + [last];
    forall k | 0 <= k < |all| && !all[k].outcome.Confirmed? && AllConfirmed(all[..k])
      ensures all[k].error <= last.error && (all[k].command != OpenSession ==> all[k].error != "")
    {
      if k < |trace| {
        assert all[..k] == trace[..k];
      }
    }
  }

  /** How `outcome` follows from the main path's `cause`, the phase it ended in and the cleanup
      commands. A session that could be cleaned up ends CLOSED exactly when it did not stop in
      EPISODE_TERMINAL, where neither Abort nor Close is sent. */
  ghost predicate Finished(cause: CommandOutcome, closing: Phase, cleanup: seq<Sent>, outcome: CommandOutcome,
                           phase: Phase)
  {
    if cause.Unknown? then outcome == cause && cleanup == []
    else if AllConfirmed(cleanup) then outcome == cause && (phase.Closed? <==> !closing.EpisodeTerminal?)
    else if cause.Refused? || cause.WaitExpired? then outcome == cause
    else outcome == cleanup[|cleanup| - 1].outcome && !outcome.Confirmed?
  }

  /** A session gets there: an Update of a running Episode answered with EPISODE_TERMINAL is confirmed, the EndEpisode
      sent next can be refused, and in the phase that leaves neither Abort nor Close may be sent. */
  lemma TerminalIsReached(cursor: Cursor) returns (update: Response, refusal: Response)
    requires cursor.phase.EpisodeRunning? && cursor.nextSequence > 0
    ensures Judge(cursor, Update, update, true) == Verdict(Confirmed)
    ensures var terminal := Advance(cursor, update.reply);
            && terminal.phase.EpisodeTerminal? && !terminal.phase.EpisodeRunning? && !ClosablePhase(terminal.phase)
            && forall valid :: Judge(terminal, EndEpisode, refusal, valid) == Verdict(Refused)
  {
    var n := cursor.nextSequence;
    update := Response(CommandReply(Applied, ErrorUnspecified, "", n, EpisodeTerminal), None, "");
    refusal := Response(CommandReply(Rejected, StateConflict, "", n, EpisodeTerminal), None, "");
  }

  /** The binding RunSession drives: the commands above and what the adapter decides around them. */
  class Binding {
    const client: TaskClient
    /** Whether the adapter turned something down that the server had confirmed, or had nothing to send. */
    ghost var declined: bool

    constructor (client: TaskClient)
      ensures this.client == client && !declined
    {
      this.client, declined := client, false;
    }

    /** The last command sent is one of these. */
    ghost predicate After(rpcs: set<Rpc>)
      reads client
    {
      client.trace != [] && var last := client.trace[|client.trace| - 1].command; last.Lifecycle? && last.rpc in rpcs
    }

    ghost predicate Running(phase: Phase)
      reads this, client, client.session, client.host
    {
      && !declined && client.Traces() && client.trace != []
      && Clean(client.trace, client.error)
      && client.session.cursor.sessionId != ""
      && client.session.cursor.phase == phase && NamesEpisode(client.session.cursor)
    }

    /** A main path ends without success for one of three reasons: a command was not confirmed, the adapter declined,
        or the caller stops. */
    ghost predicate Ending(cause: CommandOutcome)
      reads this, client, client.session, client.host
    {
      && (declined ==> cause.Refused?)
      && (AllConfirmed(client.trace) ==> declined || cause.Confirmed? || cause.Stopped?)
      && client.Traces() && client.trace != []
      && (client.Active() ==> After({BeginEpisode, Update, EndEpisode}))
      && MainPath(client.trace, client.error, cause)
      && client.session.cursor.sessionId != ""
      && MainPhase(client.session.cursor.phase) && NamesEpisode(client.session.cursor)
    }

    method Initialize() returns (outcome: CommandOutcome)
      requires Running(Phase.Open) && client.Next(Init)
      modifies this`declined, client, client.session, client.host
      ensures outcome.Confirmed? ==> Running(Ready) && After({Init})
      ensures client.host.everStopped == (old(client.host.everStopped) || outcome.Stopped?)
      ensures !outcome.Confirmed? ==> Ending(outcome) && !outcome.WaitExpired?
      ensures client.host.patience <= old(client.host.patience)
    {
      // The map may be missing from the registry: refused without sending a command.
      var mapFound := *;
      if !mapFound {
        declined := true;
        return Refused;
      }
      ghost var run;
      outcome, run := client.Send(Init, "map");
    }

    method Begin() returns (outcome: CommandOutcome)
      requires Running(Ready) && After({Init, EndEpisode})
      modifies this`declined, client, client.session, client.host
      ensures outcome.Confirmed? ==> (Running(EpisodeRunning) || Running(TaskComplete)) && After({BeginEpisode})
      ensures outcome.Stopped? <==> client.host.saidStop
      ensures client.host.everStopped == (old(client.host.everStopped) || client.host.saidStop)
      ensures !outcome.Confirmed? ==> Ending(outcome) && !outcome.WaitExpired?
      ensures client.host.patience <= old(client.host.patience)
    {
      ghost var run;
      outcome, run := client.Send(BeginEpisode, "");
      if outcome.Confirmed? && !client.Complete() {
        // Assignment identity, mode or horizon, or the replay recorder, may be turned down.
        var assignmentFits := *;
        if !assignmentFits {
          declined := true;
          return Refused;
        }
      }
    }

    method RunEpisode() returns (outcome: CommandOutcome)
      requires Running(EpisodeRunning) && After({BeginEpisode})
      modifies this`declined, client, client.session, client.host
      ensures outcome.Confirmed? ==> (Running(EpisodeRunning) || Running(EpisodeTerminal)) && After({Update})
      ensures outcome.Stopped? <==> client.host.saidStop
      ensures client.host.everStopped == (old(client.host.everStopped) || client.host.saidStop)
      ensures !outcome.Confirmed? ==> Ending(outcome) && !outcome.WaitExpired?
      ensures client.host.patience <= old(client.host.patience)
    {
      var stop := client.host.Stopped();
      while !stop
        invariant (Running(EpisodeRunning) || Running(EpisodeTerminal)) && After({BeginEpisode, Update})
        invariant stop == client.host.saidStop
        invariant client.host.everStopped == (old(client.host.everStopped) || client.host.saidStop)
        invariant client.host.patience <= old(client.host.patience)
        decreases !stop, client.host.patience
      {
        var final;
        final, outcome := Report();
        if final || !outcome.Confirmed? {
          return;
        }
        stop := client.host.Stopped();
      }
      return Stopped;
    }

    /** One Update; `final` when it is the last, whose actions are not applied. */
    method Report() returns (final: bool, outcome: CommandOutcome)
      requires Running(EpisodeRunning) || Running(EpisodeTerminal)
      requires After({BeginEpisode, Update})
      modifies this`declined, client, client.session, client.host
      ensures outcome.Confirmed? ==> (Running(EpisodeRunning) || Running(EpisodeTerminal)) && After({Update})
      ensures outcome.Stopped? <==> client.host.saidStop
      ensures client.host.everStopped == (old(client.host.everStopped) || client.host.saidStop)
      ensures !outcome.Confirmed? ==> Ending(outcome) && !outcome.WaitExpired?
      ensures client.host.patience <= old(client.host.patience)
    {
      var body: string, applied: bool := *, *;
      final := *;
      ghost var run;
      outcome, run := client.Send(Update, body);
      if outcome.Confirmed? && !final && !applied {
        declined := true;
        outcome := Refused;
      }
    }

    method End() returns (outcome: CommandOutcome)
      requires (Running(EpisodeRunning) || Running(EpisodeTerminal)) && After({Update})
      modifies this`declined, client, client.session, client.host
      ensures outcome.Confirmed? ==> Running(Ready) && After({EndEpisode})
      ensures outcome.Stopped? <==> client.host.saidStop
      ensures client.host.everStopped == (old(client.host.everStopped) || client.host.saidStop)
      ensures !outcome.Confirmed? ==> Ending(outcome) && !outcome.WaitExpired?
      ensures client.host.patience <= old(client.host.patience)
    {
      ghost var run;
      outcome, run := client.Send(EndEpisode, "");
    }

    method CleanUp(rpc: Rpc, body: string) returns (outcome: CommandOutcome)
      requires Disciplined(client.trace) && KeepsFirstError(client.trace, client.error)
      requires client.trace != [] ==> !client.trace[|client.trace| - 1].outcome.Unknown?
      requires (rpc.AbortEpisode? && client.Active()) || (rpc.CloseSession? && client.CanClose())
      requires client.Traces() && client.Next(rpc)
      modifies client, client.session, client.host
      ensures client.Traces() && After({rpc})
      ensures client.host.everStopped == (old(client.host.everStopped) || outcome.Stopped?)
      ensures Disciplined(client.trace) && KeepsFirstError(client.trace, client.error)
      ensures |client.trace| == |old(client.trace)| + 1 && old(client.trace) <= client.trace
      ensures client.trace[|old(client.trace)|].outcome == outcome
      ensures old(NamesEpisode(client.session.cursor)) ==> NamesEpisode(client.session.cursor)
      ensures client.session.cursor.sessionId == old(client.session.cursor.sessionId)
      ensures outcome.Confirmed? ==> PhaseFits(rpc, client.session.cursor.phase)
    {
      ghost var run;
      outcome, run := client.CleanUp(rpc, body);
      CleanUpKeeps(old(client.trace), old(client.error), client.trace[|client.trace| - 1]);
    }

    method Finish(cause: CommandOutcome) returns (outcome: CommandOutcome)
      requires Ending(cause) && (cause.Confirmed? ==> Clean(client.trace, client.error))
      modifies client, client.session, client.host
      ensures old(client.trace) <= client.trace && client.Traces()
      ensures old(client.host.everStopped) ==> client.host.everStopped
      ensures AllConfirmed(client.trace[|old(client.trace)|..]) ==>
                client.host.everStopped == old(client.host.everStopped)
      ensures Disciplined(client.trace) && KeepsFirstError(client.trace, client.error)
      ensures NamesEpisode(client.session.cursor)
      ensures Finished(cause, old(client.session.cursor.phase), client.trace[|old(client.trace)|..], outcome,
                       client.session.cursor.phase)
    {
      MainPathIsDisciplined(client.trace, client.error, cause);
      if cause.Unknown? {
        return cause;
      }
      outcome := Settle(cause);
    }

    /** The cleanup commands the phase admits, after a main path whose end is known. */
    method Settle(cause: CommandOutcome) returns (outcome: CommandOutcome)
      requires !cause.Unknown? && Disciplined(client.trace) && KeepsFirstError(client.trace, client.error)
      requires client.Traces() && client.trace != [] && !client.trace[|client.trace| - 1].outcome.Unknown?
      requires client.Active() ==> After({BeginEpisode, Update, EndEpisode})
      requires client.CanClose() ==> client.Next(CloseSession)
      requires client.session.cursor.sessionId != ""
      requires MainPhase(client.session.cursor.phase) && NamesEpisode(client.session.cursor)
      modifies client, client.session, client.host
      ensures old(client.trace) <= client.trace && client.Traces()
      ensures old(client.host.everStopped) ==> client.host.everStopped
      ensures AllConfirmed(client.trace[|old(client.trace)|..]) ==>
                client.host.everStopped == old(client.host.everStopped)
      ensures Disciplined(client.trace) && KeepsFirstError(client.trace, client.error)
      ensures NamesEpisode(client.session.cursor)
      ensures Finished(cause, old(client.session.cursor.phase), client.trace[|old(client.trace)|..], outcome,
                       client.session.cursor.phase)
    {
      if client.Active() {
        var reason: string := *;
        var aborted := CleanUp(AbortEpisode, reason);
        if !aborted.Confirmed? {
          return if cause.Refused? || cause.WaitExpired? then cause else aborted;
        }
      }
      outcome := Close(cause);
    }

    /** Finish's last step: CloseSession, where the phase admits it. */
    method Close(cause: CommandOutcome) returns (outcome: CommandOutcome)
      requires Disciplined(client.trace) && KeepsFirstError(client.trace, client.error)
      requires client.Traces() && client.trace != [] && !client.trace[|client.trace| - 1].outcome.Unknown?
      requires client.CanClose() ==> client.Next(CloseSession)
      modifies client, client.session, client.host
      ensures client.Traces() && (old(client.host.everStopped) ==> client.host.everStopped)
      ensures Disciplined(client.trace) && KeepsFirstError(client.trace, client.error)
      ensures old(NamesEpisode(client.session.cursor)) ==> NamesEpisode(client.session.cursor)
      ensures old(client.trace) <= client.trace && |client.trace| <= |old(client.trace)| + 1
      ensures |client.trace| > |old(client.trace)| <==> old(client.CanClose())
      ensures !old(client.CanClose()) ==> outcome == cause && client.session.cursor == old(client.session.cursor)
      ensures old(client.CanClose()) ==>
                var closed := client.trace[|old(client.trace)|].outcome;
                if closed.Confirmed? then outcome == cause && client.session.cursor.phase.Closed?
                else outcome == if cause.Refused? || cause.WaitExpired? then cause else closed
      ensures client.host.everStopped && !old(client.host.everStopped) ==>
                old(client.CanClose()) && client.trace[|old(client.trace)|].outcome.Stopped?
    {
      if client.CanClose() {
        var closed := CleanUp(CloseSession, "");
        if !closed.Confirmed? {
          return if cause.Refused? || cause.WaitExpired? then cause else closed;
        }
      }
      return cause;
    }

    method Open() returns (outcome: CommandOutcome)
      requires client.trace == [] && client.session.cursor.phase.PhaseUnspecified?
                && client.session.cursor.episodeId == "" && client.Traces() && !declined
      modifies this`declined, client, client.session, client.host
      ensures NamesEpisode(client.session.cursor) && client.Traces()
      ensures outcome.Confirmed? ==> Running(Phase.Open) && client.Next(Init)
      ensures !outcome.Confirmed? ==>
                MainPath(client.trace, client.error, outcome) && (outcome.Refused? || outcome.Unknown?)
      ensures !outcome.Confirmed? && AllConfirmed(client.trace) ==> declined
      ensures client.host.everStopped == old(client.host.everStopped)
    {
      ghost var answer;
      outcome, answer := client.Open();
      if outcome.Confirmed? {
        var workloadNamed := *;
        if !workloadNamed {
          declined := true;
          return Unknown;
        }
      }
    }

    /** `cause` is what the main path ended with, `closing` the phase it ended in. */
    method RunSession() returns (outcome: CommandOutcome, ghost cause: CommandOutcome, ghost closing: Phase,
                                 ghost cleanup: seq<Sent>)
      requires client.trace == [] && client.session.cursor.phase.PhaseUnspecified?
                && client.session.cursor.episodeId == "" && client.Traces() && !declined
      modifies this`declined, client, client.session, client.host
      ensures NamesEpisode(client.session.cursor) && client.Traces()
      ensures cause.Stopped? ==> client.host.everStopped
      // It succeeds exactly when every command is confirmed, the adapter declines nothing and nobody stops it.
      ensures !old(client.host.everStopped) ==>
                (outcome.Confirmed? <==> AllConfirmed(client.trace) && !declined && !client.host.everStopped)
      ensures Disciplined(client.trace) && KeepsFirstError(client.trace, client.error)
      ensures |cleanup| <= |client.trace| && MainOnly(client.trace[..|client.trace| - |cleanup|])
      ensures cleanup == client.trace[|client.trace| - |cleanup|..]
      ensures outcome.Confirmed? ==> client.session.cursor.phase.Closed?
      ensures if closing.PhaseUnspecified? then outcome == cause && cleanup == []
              else Finished(cause, closing, cleanup, outcome, client.session.cursor.phase)
    {
      cleanup := [];
      outcome := Open();
      cause, closing := outcome, PhaseUnspecified;
      if !outcome.Confirmed? {
        MainPathIsDisciplined(client.trace, client.error, cause);
        return;
      }
      outcome := MainPart();
      cause, closing := outcome, client.session.cursor.phase;
      ghost var before := client.trace;
      outcome := Finish(outcome);
      cleanup := client.trace[|before|..];
    }

    /** Init and the Episodes: the outcome handed to Finish. */
    method MainPart() returns (outcome: CommandOutcome)
      requires Running(Phase.Open) && client.Next(Init)
      modifies this`declined, client, client.session, client.host
      ensures Ending(outcome) && !outcome.WaitExpired? && (outcome.Confirmed? ==> Clean(client.trace, client.error))
      ensures outcome.Confirmed? ==> client.session.cursor.phase.TaskComplete?
      ensures client.host.everStopped == (old(client.host.everStopped) || outcome.Stopped?)
    {
      outcome := Initialize();
      if outcome.Confirmed? {
        outcome := Episodes();
      }
    }

    /** The Begin/Run/End loop. */
    method Episodes() returns (outcome: CommandOutcome)
      requires Running(Ready) && After({Init})
      modifies this`declined, client, client.session, client.host
      ensures Ending(outcome) && !outcome.WaitExpired?
      ensures outcome.Confirmed? ==> Running(TaskComplete)
      ensures outcome.Stopped? <==> client.host.saidStop
      ensures client.host.everStopped == (old(client.host.everStopped) || client.host.saidStop)
    {
      var stop := client.host.Stopped();
      while !stop
        invariant Running(Ready) && After({Init, EndEpisode}) && stop == client.host.saidStop
        invariant client.host.everStopped == (old(client.host.everStopped) || client.host.saidStop)
        decreases !stop, client.host.patience
      {
        outcome := Begin();
        if !outcome.Confirmed? || client.Complete() {
          return;
        }
        outcome := RunEpisode();
        if !outcome.Confirmed? {
          return;
        }
        outcome := End();
        if !outcome.Confirmed? {
          return;
        }
        stop := client.host.Stopped();
      }
      outcome := Stopped;
    }
  }
}
