/** Lifecycle messages of one Session and the predicates a client applies to a reply.
    Protobuf enums are open, so every enum keeps a case for a number it does not name.
    Sequence numbers are unbounded. */
module Lifecycle {
  import opened Wrappers

  datatype CommandResult =
    | ResultUnspecified | Applied | AlreadyApplied | Wait | Rejected | OtherResult(code: int)

  datatype ErrorCode =
    | ErrorUnspecified | InvalidIdentity | StaleEpoch | OutOfOrder | PayloadConflict
    | StateConflict | TaskInputInvalid | ModelIdentityMismatch | OtherError(code: int)

  datatype Phase =
    | PhaseUnspecified | Open | Ready | EpisodeRunning | EpisodeTerminal
    | TaskComplete | Closed | Aborted | OtherPhase(code: int)

  datatype Rpc = Init | BeginEpisode | Update | EndEpisode | AbortEpisode | CloseSession

  datatype CommandIdentity =
    CommandIdentity(sessionId: string, sessionEpoch: nat, sequence: nat, episodeId: string)

  datatype CommandReply =
    CommandReply(result: CommandResult, errorCode: ErrorCode, message: string, appliedSequence: nat, phase: Phase)

  /** `body` stands for the payload fields of the message, `wait` for its optional retry_after_ms. */
  datatype Request = Request(rpc: Rpc, command: CommandIdentity, body: string)
  datatype Response = Response(reply: CommandReply, wait: Option<int>, body: string)

  datatype Cursor =
    Cursor(sessionId: string, episodeId: string, sessionEpoch: nat, nextSequence: nat, phase: Phase)

  datatype CommandOutcome = Confirmed | Refused | Unknown | Stopped | WaitExpired

  function BlankResponse(): Response {
    Response(CommandReply(ResultUnspecified, ErrorUnspecified, "", 0, PhaseUnspecified), None, "")
  }

  function FillCommand(cursor: Cursor): CommandIdentity {
    CommandIdentity(cursor.sessionId, cursor.sessionEpoch, cursor.nextSequence, cursor.episodeId)
  }

  predicate ConcretePhase(phase: Phase) {
    !phase.PhaseUnspecified? && !phase.OtherPhase?
  }

  predicate CommandAccepted(reply: CommandReply) {
    (reply.result.Applied? || reply.result.AlreadyApplied?) && reply.errorCode.ErrorUnspecified?
  }

  /** The guard of AcceptCommandReply. */
  predicate Acceptable(cursor: Cursor, reply: CommandReply) {
    && CommandAccepted(reply)
    && reply.appliedSequence == cursor.nextSequence
    && ConcretePhase(reply.phase)
  }

  function Advance(cursor: Cursor, reply: CommandReply): Cursor {
    cursor.(phase := reply.phase, nextSequence := cursor.nextSequence + 1)
  }

  /** The server echoes the committed cursor: nothing was applied at the client's sequence. */
  predicate EchoesCursor(cursor: Cursor, reply: CommandReply) {
    && cursor.nextSequence > 0
    && reply.appliedSequence == cursor.nextSequence - 1
    && ConcretePhase(reply.phase)
    && reply.phase == cursor.phase
  }

  predicate IsCommandWait(cursor: Cursor, reply: CommandReply) {
    EchoesCursor(cursor, reply) && reply.result.Wait? && reply.errorCode.ErrorUnspecified?
  }

  predicate IsConclusiveRejected(cursor: Cursor, reply: CommandReply) {
    EchoesCursor(cursor, reply) && reply.result.Rejected? && !reply.errorCode.ErrorUnspecified?
  }

  /** Phases each command method of TaskClient lets through. */
  predicate PhaseFits(rpc: Rpc, phase: Phase) {
    match rpc
    case Init => phase.Ready?
    case BeginEpisode => phase.EpisodeRunning? || phase.TaskComplete?
    case Update => phase.EpisodeRunning? || phase.EpisodeTerminal?
    case EndEpisode => phase.Ready?
    case AbortEpisode => phase.Aborted?
    case CloseSession => phase.Closed?
  }

  /** The wait callback of each command method: the requested pause in milliseconds. */
  function WaitDelay(rpc: Rpc, response: Response): int {
    match rpc
    case BeginEpisode => if response.reply.result.Wait? then 100 else 0
    case Update | AbortEpisode =>
      if response.wait.None? then 0
      else if response.wait.value > 0 then response.wait.value else -1
    case _ => 0
  }

  datatype Judgement = Again(delay: int) | Verdict(outcome: CommandOutcome)

  /** What Exchange concludes from one answered invocation; `taskValid` is the binding's own payload check. */
  function Judge(cursor: Cursor, rpc: Rpc, response: Response, taskValid: bool): Judgement {
    var delay := WaitDelay(rpc, response);
    if delay > 0 && IsCommandWait(cursor, response.reply) then Again(delay)
    else if delay == 0 && PhaseFits(rpc, response.reply.phase) && taskValid && Acceptable(cursor, response.reply) then
      Verdict(Confirmed)
    else if IsConclusiveRejected(cursor, response.reply) then Verdict(Refused)
    else Verdict(Unknown)
  }

  // ---- What a reply proves, written out ----

  const KNOWN_PHASES: set<Phase> := {Open, Ready, EpisodeRunning, EpisodeTerminal, TaskComplete, Closed, Aborted}

  /** The phase each command may lead to. */
  const CONFIRMING: set<(Rpc, Phase)> := {
    (Init, Ready), (BeginEpisode, EpisodeRunning), (BeginEpisode, TaskComplete), (Update, EpisodeRunning),
    (Update, EpisodeTerminal), (EndEpisode, Ready), (AbortEpisode, Aborted), (CloseSession, Closed)
  }

  /** The next command was applied, and its payload is in order. */
  predicate ProvesApplied(cursor: Cursor, rpc: Rpc, response: Response, taskValid: bool) {
    && response.reply.result in {Applied, AlreadyApplied} && response.reply.errorCode == ErrorUnspecified
    && response.reply.appliedSequence == cursor.nextSequence
    && (rpc, response.reply.phase) in CONFIRMING && taskValid
    && (rpc in {Update, AbortEpisode} ==> response.wait == None)
  }

  /** The next command was not applied: the server is where the client left it. */
  predicate ProvesNothingApplied(cursor: Cursor, reply: CommandReply) {
    cursor.nextSequence > 0 && reply.appliedSequence == cursor.nextSequence - 1
    && reply.phase in KNOWN_PHASES && reply.phase == cursor.phase
  }

  predicate ProvesRejected(cursor: Cursor, reply: CommandReply) {
    ProvesNothingApplied(cursor, reply) && reply.result == Rejected && reply.errorCode != ErrorUnspecified
  }

  /** The pause a server may ask for: fixed for Begin, its own for Update and Abort, none for the others. */
  function PauseAsked(rpc: Rpc, response: Response): nat {
    if rpc == BeginEpisode then 100
    else if rpc in {Update, AbortEpisode} && response.wait.Some? && response.wait.value > 0 then response.wait.value
    else 0
  }

  predicate AsksToWait(cursor: Cursor, rpc: Rpc, response: Response) {
    && ProvesNothingApplied(cursor, response.reply)
    && response.reply.result == Wait && response.reply.errorCode == ErrorUnspecified
    && PauseAsked(rpc, response) > 0
  }

  lemma PhasesListed(rpc: Rpc, phase: Phase)
    ensures PhaseFits(rpc, phase) <==> (rpc, phase) in CONFIRMING
    ensures ConcretePhase(phase) <==> phase in KNOWN_PHASES
  {
  }

  /** The client judges a reply by exactly what it proves. */
  lemma JudgeMeans(cursor: Cursor, rpc: Rpc, response: Response, taskValid: bool)
    ensures var judgement := Judge(cursor, rpc, response, taskValid);
            && (judgement.Again? <==> AsksToWait(cursor, rpc, response))
            && (judgement.Again? ==> judgement.delay == PauseAsked(rpc, response))
            && (judgement == Verdict(Confirmed) <==> ProvesApplied(cursor, rpc, response, taskValid))
            && (judgement == Verdict(Refused) <==> ProvesRejected(cursor, response.reply))
  {
    PhasesListed(rpc, response.reply.phase);
  }
}
