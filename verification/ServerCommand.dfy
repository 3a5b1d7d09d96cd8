/** The server's side of a lifecycle command: the one-slot replay window, the check before a
    handler runs, and the commit, reject and wait replies. */
module ServerCommand {
  import opened Wrappers
  import opened Lifecycle

  /** Serialisation of the messages. The request bytes carry the command identity and the payload
      fields, not the name of the RPC they are sent to. */
  datatype Codec = Codec(
    encodeRequest: (CommandIdentity, string) -> string,
    encodeResponse: Response -> string,
    parseResponse: string -> Option<Response>)
  {
    function Bytes(request: Request): string { encodeRequest(request.command, request.body) }

    ghost predicate Faithful() {
      && (forall c, b, c', b' :: encodeRequest(c, b) == encodeRequest(c', b') ==> c == c' && b == b')
      && (forall r :: parseResponse(encodeResponse(r)) == Some(r))
    }
  }

  datatype Slot = Slot(sequence: nat, payload: string, response: string)
  datatype ReplayDecision = Proceed | Replay(response: string) | Conflict | Gap

  /** The remembered command with this sequence, the newest first. */
  function Lookup(memory: seq<Slot>, sequence: nat): Option<Slot> {
    if memory == [] then None
    else if memory[|memory| - 1].sequence == sequence then Some(memory[|memory| - 1])
    else Lookup(memory[..|memory| - 1], sequence)
  }

  function Decide(memory: seq<Slot>, sequence: nat, last: nat, payload: string): ReplayDecision {
    match Lookup(memory, sequence)
    case Some(slot) => if payload != slot.payload then Conflict else Replay(slot.response)
    case None => if sequence != last + 1 then Gap else Proceed
  }

  /** How much a server remembers: the deployed window keeps one command, the reference keeps all. */
  datatype Policy = OneSlot | KeepAll

  function Retain(policy: Policy, memory: seq<Slot>, slot: Slot): seq<Slot> {
    if policy.OneSlot? then [slot] else memory + [slot]
  }

  datatype Server =
    Server(sessionId: string, sessionEpoch: nat, phase: Phase, last: nat, memory: seq<Slot>)

  function ReplyWith(server: Server, applied: nat, result: CommandResult, code: ErrorCode, message: string)
    : CommandReply
  {
    CommandReply(result, code, message, applied, server.phase)
  }

  datatype CommandCheck = MayProceed | Replayed | CheckFailed

  function Refusal(server: Server, code: ErrorCode, message: string): (CommandCheck, Response) {
    (CheckFailed, BlankResponse().(reply := ReplyWith(server, server.last, Rejected, code, message)))
  }

  /** CheckCommand: the decision and the response it leaves behind. */
  function Check(codec: Codec, server: Server, request: Request): (CommandCheck, Response) {
    match Decide(server.memory, request.command.sequence, server.last, codec.Bytes(request))
    case Conflict => Refusal(server, PayloadConflict, "command sequence was reused with a different payload")
    case Replay(bytes) =>
      (match codec.parseResponse(bytes)
       case None => Refusal(server, StateConflict, "idempotent response is unavailable")
       case Some(r) =>
         (Replayed, r.(reply := r.reply.(result := AlreadyApplied, message := "command was already applied"))))
    case Gap => Refusal(server, OutOfOrder, "command sequence is not contiguous")
    case Proceed =>
      if request.command.sessionId != server.sessionId then
        Refusal(server, InvalidIdentity, "session identity does not match")
      else if request.command.sessionEpoch != server.sessionEpoch then
        Refusal(server, StaleEpoch, "Session epoch does not match")
      else (MayProceed, BlankResponse())
  }

  /** What a task handler may do with a command it was allowed to run. */
  datatype Handling =
    | Commit(phase: Phase, wait: Option<int>, body: string, message: string)
    | Reject(code: ErrorCode, message: string)
    | Postpone(wait: Option<int>, message: string)

  function Handle(codec: Codec, policy: Policy, server: Server, request: Request, h: Handling): (Server, Response) {
    match h
    case Commit(phase, wait, body, message) =>
      var s := server.(phase := phase, last := request.command.sequence);
      var response := Response(ReplyWith(s, s.last, Applied, ErrorUnspecified, message), wait, body);
      (s.(memory := Retain(policy, s.memory, Slot(s.last, codec.Bytes(request), codec.encodeResponse(response)))),
       response)
    case Reject(code, message) =>
      (server, BlankResponse().(reply := ReplyWith(server, server.last, Rejected, code, message)))
    case Postpone(wait, message) =>
      (server, BlankResponse().(reply := ReplyWith(server, server.last, Wait, ErrorUnspecified, message), wait := wait))
  }

  class LifecycleReplayWindow {
    var present: bool
    var commandSequence: nat
    var payload: string
    var response: string

    constructor ()
      ensures Memory() == []
    {
      present, commandSequence, payload, response := false, 0, "", "";
    }

    function Memory(): (m: seq<Slot>)
      reads this
      ensures |m| <= 1
    {
      if present then [Slot(commandSequence, payload, response)] else []
    }

    method Classify(sequence: nat, lastApplied: nat, bytes: string) returns (d: ReplayDecision)
      ensures d == Decide(Memory(), sequence, lastApplied, bytes)
    {
      if present && sequence == commandSequence {
        if bytes != payload {
          return Conflict;
        }
        return Replay(response);
      }
      assert Lookup([], sequence) == None;
      assert present ==> Memory()[..|Memory()| - 1] == [];
      if sequence != lastApplied + 1 {
        return Gap;
      }
      return Proceed;
    }

    method Store(sequence: nat, bytes: string, stored: string)
      modifies this
      ensures Memory() == Retain(OneSlot, old(Memory()), Slot(sequence, bytes, stored))
    {
      commandSequence := sequence;
      payload := bytes;
      response := stored;
      present := true;
    }
  }

  class SessionState {
    const sessionId: string
    const sessionEpoch: nat
    const commandReplay: LifecycleReplayWindow
    var phase: Phase
    var lastCommandSequence: nat

    constructor (id: string, epoch: nat)
      ensures State() == Server(id, epoch, Open, 0, [])
      ensures fresh(commandReplay)
    {
      sessionId, sessionEpoch, phase, lastCommandSequence := id, epoch, Open, 0;
      commandReplay := new LifecycleReplayWindow();
    }

    function State(): Server
      reads this, commandReplay
    {
      Server(sessionId, sessionEpoch, phase, lastCommandSequence, commandReplay.Memory())
    }

    method FillReply(applied: nat, result: CommandResult, code: ErrorCode, message: string)
      returns (reply: CommandReply)
      ensures reply == ReplyWith(State(), applied, result, code, message)
    {
      reply := CommandReply(result, code, message, applied, phase);
    }

    method CheckCommand(codec: Codec, request: Request) returns (check: CommandCheck, response: Response)
      ensures (check, response) == Check(codec, State(), request)
    {
      response := BlankResponse();
      var bytes := codec.Bytes(request);
      var decision := commandReplay.Classify(request.command.sequence, lastCommandSequence, bytes);
      if decision.Conflict? {
        var reply := FillReply(lastCommandSequence, Rejected, PayloadConflict,
                               "command sequence was reused with a different payload");
        return CheckFailed, response.(reply := reply);
      }
      if decision.Replay? {
        var parsed := codec.parseResponse(decision.response);
        if parsed.None? {
          var reply := FillReply(lastCommandSequence, Rejected, StateConflict, "idempotent response is unavailable");
          return CheckFailed, response.(reply := reply);
        }
        response := parsed.value;
        response := response.(reply := response.reply.(result := AlreadyApplied));
        response := response.(reply := response.reply.(message := "command was already applied"));
        return Replayed, response;
      }
      if decision.Gap? {
        var reply := FillReply(lastCommandSequence, Rejected, OutOfOrder, "command sequence is not contiguous");
        return CheckFailed, response.(reply := reply);
      }
      if request.command.sessionId != sessionId {
        var reply := FillReply(lastCommandSequence, Rejected, InvalidIdentity, "session identity does not match");
        return CheckFailed, response.(reply := reply);
      }
      if request.command.sessionEpoch != sessionEpoch {
        var reply := FillReply(lastCommandSequence, Rejected, StaleEpoch, "Session epoch does not match");
        return CheckFailed, response.(reply := reply);
      }
      return MayProceed, response;
    }

    /** The handler sets the phase it moves to, fills the payload fields and then commits. */
    method CommitCommand(codec: Codec, request: Request, newPhase: Phase, wait: Option<int>, body: string,
                         message: string)
      returns (response: Response)
      modifies this, commandReplay
      ensures response.reply == CommandReply(Applied, ErrorUnspecified, message, request.command.sequence, newPhase)
      ensures response.wait == wait && response.body == body
      ensures phase == newPhase && lastCommandSequence == request.command.sequence
      ensures commandReplay.Memory()
           == [Slot(request.command.sequence, codec.Bytes(request), codec.encodeResponse(response))]
      ensures (State(), response)
           == Handle(codec, OneSlot, old(State()), request, Commit(newPhase, wait, body, message))
    {
      phase := newPhase;
      lastCommandSequence := request.command.sequence;
      var reply := FillReply(request.command.sequence, Applied, ErrorUnspecified, message);
      response := Response(reply, wait, body);
      commandReplay.Store(request.command.sequence, codec.Bytes(request), codec.encodeResponse(response));
    }

    method RejectCommand(codec: Codec, request: Request, code: ErrorCode, message: string)
      returns (response: Response)
      ensures response.reply == CommandReply(Rejected, code, message, lastCommandSequence, phase)
      ensures response.wait == None && response.body == ""
      ensures (State(), response) == Handle(codec, OneSlot, State(), request, Reject(code, message))
    {
      var reply := FillReply(lastCommandSequence, Rejected, code, message);
      response := BlankResponse().(reply := reply);
    }
  }
}
