/** One client, one server and a network between them.

    Every RPC attempt is kept, so the server may process any attempt at any later time and any
    number of times; a reply belongs to the attempt it answers and may never be read. */
module Network {
  import opened Wrappers
  import opened Lifecycle
  import opened ServerCommand

  /** Prompt delivery: an attempt is processed at most once and only while its RPC is open. */
  datatype Delivery = Arbitrary | Prompt
  datatype Config = Config(codec: Codec, policy: Policy, delivery: Delivery)

  /** `first` is the first attempt of the command, `id` the open one, `tries` its transport attempt. */
  datatype Client = Idle | Awaiting(first: nat, id: nat, tries: nat) | Lost

  datatype Entry = Entry(attempt: nat, request: Request, response: Response)

  /** A command that ended, with the range of its attempts. */
  datatype Ended = Ended(first: nat, last: nat, request: Request, outcome: CommandOutcome)

  datatype World = World(
    cursor: Cursor,
    client: Client,
    server: Server,
    attempts: seq<Request>,
    replies: set<(nat, Response)>,
    log: seq<Entry>,
    confirmed: seq<Entry>,
    ended: seq<Ended>)

  datatype Event =
    | SetEpisode(episodeId: string)
    | Send(rpc: Rpc, body: string)
    | Retransmit
    | TransportFails
    | Serve(attempt: nat, handling: Handling)
    | Receive(response: Response, taskValid: bool)
    | GiveUp(response: Response, reason: CommandOutcome)

  function Start(sessionId: string, epoch: nat): World {
    World(Cursor(sessionId, "", epoch, 1, Open), Idle, Server(sessionId, epoch, Open, 0, []),
          [], {}, [], [], [])
  }

  ghost predicate Enabled(config: Config, w: World, e: Event) {
    match e
    case SetEpisode(_) => w.client.Idle?
    case Send(_, _) => w.client.Idle?
    case Retransmit => w.client.Awaiting? && w.client.tries == 1 && w.client.id < |w.attempts|
    case TransportFails => w.client.Awaiting? && w.client.id < |w.attempts|
    case Serve(i, _) =>
      && i < |w.attempts|
      && (config.delivery.Prompt? ==>
            w.client.Awaiting? && w.client.id == i && forall r :: (i, r) !in w.replies)
    case Receive(r, _) =>
      w.client.Awaiting? && w.client.id < |w.attempts| && (w.client.id, r) in w.replies
    case GiveUp(r, reason) =>
      // The stop callback or the WAIT budget ends a command after a WAIT answer.
      && w.client.Awaiting? && w.client.id < |w.attempts| && (w.client.id, r) in w.replies
      && Judge(w.cursor, w.attempts[w.client.id].rpc, r, false).Again?
      && (reason.Stopped? || reason.WaitExpired?)
  }

  function End(w: World, outcome: CommandOutcome): World
    requires w.client.Awaiting? && w.client.id < |w.attempts|
  {
    w.(client := if outcome.Unknown? then Lost else Idle,
       ended := w.ended + [Ended(w.client.first, w.client.id, w.attempts[w.client.id], outcome)])
  }

  function Resend(w: World, tries: nat): World
    requires w.client.Awaiting? && w.client.id < |w.attempts|
  {
    w.(client := Awaiting(w.client.first, |w.attempts|, tries), attempts := w.attempts + [w.attempts[w.client.id]])
  }

  function Serving(config: Config, w: World, i: nat, h: Handling): World
    requires i < |w.attempts|
  {
    var request := w.attempts[i];
    var (check, response) := Check(config.codec, w.server, request);
    if check.MayProceed? then
      var (server, answer) := Handle(config.codec, config.policy, w.server, request, h);
      w.(server := server,
         replies := w.replies + {(i, answer)},
         log := if h.Commit? then w.log + [Entry(i, request, answer)] else w.log)
    else
      w.(replies := w.replies + {(i, response)})
  }

  function Receiving(w: World, r: Response, taskValid: bool): World
    requires w.client.Awaiting? && w.client.id < |w.attempts|
  {
    var request := w.attempts[w.client.id];
    match Judge(w.cursor, request.rpc, r, taskValid)
    case Again(_) => Resend(w, 1)
    case Verdict(outcome) =>
      if outcome.Confirmed? then
        End(w, outcome).(cursor := Advance(w.cursor, r.reply),
                         confirmed := w.confirmed + [Entry(w.client.id, request, r)])
      else End(w, outcome)
  }

  ghost function After(config: Config, w: World, e: Event): World
    requires Enabled(config, w, e)
  {
    match e
    case SetEpisode(id) => w.(cursor := w.cursor.(episodeId := id))
    case Send(rpc, body) =>
      w.(client := Awaiting(|w.attempts|, |w.attempts|, 1),
         attempts := w.attempts + [Request(rpc, FillCommand(w.cursor), body)])
    case Retransmit => Resend(w, 2)
    case TransportFails => End(w, Unknown)
    case Serve(i, h) => Serving(config, w, i, h)
    case Receive(r, valid) => Receiving(w, r, valid)
    case GiveUp(_, reason) => End(w, reason)
  }

  /** The world a whole run leads to, when every event of it is enabled in turn. */
  ghost function Play(config: Config, w: World, events: seq<Event>): Option<World> {
    if events == [] then Some(w)
    else
      match Play(config, w, events[..|events| - 1])
      case None => None
      case Some(v) =>
        var e := events[|events| - 1];
        if Enabled(config, v, e) then Some(After(config, v, e)) else None
  }

  // ---- Invariants of every run ----

  function PhaseAfter(log: seq<Entry>): Phase {
    if log == [] then Open else log[|log| - 1].response.reply.phase
  }

  function SlotOf(codec: Codec, e: Entry): Slot {
    Slot(e.request.command.sequence, codec.Bytes(e.request), codec.encodeResponse(e.response))
  }

  ghost predicate LogInv(log: seq<Entry>) {
    forall k {:trigger log[k]} | 0 <= k < |log| ::
      && log[k].request.command.sequence == k + 1
      && log[k].response.reply.appliedSequence == k + 1
      && log[k].response.reply.result.Applied?
      && log[k].response.reply.errorCode.ErrorUnspecified?
  }

  /** What the server remembers is exactly the last applied command, or all of them in order. */
  ghost predicate MemoryInv(config: Config, memory: seq<Slot>, log: seq<Entry>) {
    if config.policy.KeepAll? then
      && |memory| == |log|
      && forall k {:trigger memory[k]} | 0 <= k < |log| :: memory[k] == SlotOf(config.codec, log[k])
    else
      memory == if log == [] then [] else [SlotOf(config.codec, log[|log| - 1])]
  }

  ghost predicate ServerInv(config: Config, server: Server, log: seq<Entry>) {
    && LogInv(log)
    && MemoryInv(config, server.memory, log)
    && server.last == |log|
    && server.phase == PhaseAfter(log)
  }

  /** Every entry of a list names the attempt it came from. */
  ghost predicate AttemptsInv(log: seq<Entry>, attempts: seq<Request>) {
    forall k {:trigger log[k]} | 0 <= k < |log| ::
      log[k].attempt < |attempts| && attempts[log[k].attempt] == log[k].request
  }

  ghost predicate ClientInv(cursor: Cursor, client: Client, attempts: seq<Request>) {
    && cursor.nextSequence >= 1
    && (forall i {:trigger attempts[i]} | 0 <= i < |attempts| ::
          && attempts[i].command.sessionId == cursor.sessionId
          && attempts[i].command.sessionEpoch == cursor.sessionEpoch
          && 1 <= attempts[i].command.sequence <= cursor.nextSequence)
    && (client.Awaiting? ==>
          && client.first <= client.id == |attempts| - 1
          && attempts[client.id].command.sequence == cursor.nextSequence
          && forall i {:trigger attempts[i]} | client.first <= i <= client.id :: attempts[i] == attempts[client.id])
  }

  /** Same request bytes, same committed phase and task fields: only result and message may differ. */
  ghost predicate SameEffect(codec: Codec, a: Request, r: Response, e: Entry) {
    && codec.Bytes(a) == codec.Bytes(e.request)
    && r.reply.phase == e.response.reply.phase
    && r.wait == e.response.wait
    && r.body == e.response.body
  }

  /** The confirmed list is a prefix of the applied log, which is at most one entry longer. */
  ghost predicate Agreement(codec: Codec, cursor: Cursor, confirmed: seq<Entry>, log: seq<Entry>) {
    && cursor.nextSequence == |confirmed| + 1
    && |confirmed| <= |log| <= |confirmed| + 1
    && (forall k {:trigger confirmed[k]} | 0 <= k < |confirmed| ::
          && SameEffect(codec, confirmed[k].request, confirmed[k].response, log[k])
          && PhaseFits(confirmed[k].request.rpc, confirmed[k].response.reply.phase))
    && cursor.phase == PhaseAfter(confirmed)
    && ConcretePhase(cursor.phase)
  }

  /** An accepting reply was produced from the log entry of its own sequence. */
  ghost predicate ReplyBacked(codec: Codec, attempts: seq<Request>, log: seq<Entry>, i: nat, r: Response) {
    && i < |attempts|
    && (CommandAccepted(r.reply) ==>
          var n := attempts[i].command.sequence;
          && r.reply.appliedSequence == n
          && 1 <= n <= |log|
          && SameEffect(codec, attempts[i], r, log[n - 1]))
  }

  ghost predicate RepliesInv(codec: Codec, replies: set<(nat, Response)>, attempts: seq<Request>, log: seq<Entry>) {
    forall p {:trigger p in replies} | p in replies :: ReplyBacked(codec, attempts, log, p.0, p.1)
  }

  ghost predicate Inv(config: Config, w: World) {
    && w.cursor.sessionId == w.server.sessionId
    && w.cursor.sessionEpoch == w.server.sessionEpoch
    && ServerInv(config, w.server, w.log)
    && AttemptsInv(w.log, w.attempts)
    && AttemptsInv(w.confirmed, w.attempts)
    && ClientInv(w.cursor, w.client, w.attempts)
    && Agreement(config.codec, w.cursor, w.confirmed, w.log)
    && RepliesInv(config.codec, w.replies, w.attempts, w.log)
  }

  /** Looking a command up gives the log entry of its sequence where the memory reaches that far. */
  lemma LookupInLog(config: Config, server: Server, log: seq<Entry>, n: nat)
    requires ServerInv(config, server, log)
    ensures config.policy.KeepAll? || n >= |log| ==>
              Lookup(server.memory, n) == if 1 <= n <= |log| then Some(SlotOf(config.codec, log[n - 1])) else None
    ensures config.policy.OneSlot? && n < |log| ==> Lookup(server.memory, n) == None
  {
    if config.policy.KeepAll? {
      LookupAll(config.codec, log, server.memory, n);
    } else if log != [] {
      assert server.memory[..0] == [];
    }
  }

  lemma {:induction false} LookupAll(codec: Codec, log: seq<Entry>, memory: seq<Slot>, n: nat)
    requires LogInv(log) && |memory| == |log|
    requires forall k {:trigger memory[k]} | 0 <= k < |log| :: memory[k] == SlotOf(codec, log[k])
    ensures Lookup(memory, n) == if 1 <= n <= |log| then Some(SlotOf(codec, log[n - 1])) else None
  {
    if log != [] {
      LookupAll(codec, log[..|log| - 1], memory[..|memory| - 1], n);
    }
  }

  function Repeated(r: Response): Response {
    r.(reply := r.reply.(result := AlreadyApplied, message := "command was already applied"))
  }

  /** What checking a request does, in terms of the log alone. */
  lemma CheckMeans(config: Config, server: Server, log: seq<Entry>, q: Request)
    requires config.codec.Faithful() && ServerInv(config, server, log)
    requires q.command.sessionId == server.sessionId && q.command.sessionEpoch == server.sessionEpoch
    requires q.command.sequence >= 1
    ensures var n := q.command.sequence;
            var (check, response) := Check(config.codec, server, q);
            && (check.MayProceed? <==> n == |log| + 1)
            && (check.Replayed? ==>
                  && n <= |log|
                  && config.codec.Bytes(q) == config.codec.Bytes(log[n - 1].request)
                  && response == Repeated(log[n - 1].response))
            && (check.CheckFailed? ==>
                  && response.reply.result.Rejected? && response.reply.appliedSequence == |log|
                  && !response.reply.errorCode.ErrorUnspecified? && response.wait == None)
            && (n == |log| ==>
                  if config.codec.Bytes(q) == config.codec.Bytes(log[n - 1].request) then check.Replayed?
                  else check.CheckFailed? && response.reply.errorCode.PayloadConflict?)
            && (n < |log| && config.policy.OneSlot? ==>
                  check.CheckFailed? && response.reply.errorCode.OutOfOrder?)
  {
    var n := q.command.sequence;
    LookupInLog(config, server, log, n);
    if n <= |log| {
      var r := log[n - 1].response;
      assert config.codec.parseResponse(config.codec.encodeResponse(r)) == Some(r);
    }
  }

  /** Any request at all, also one of another session. The next number runs iff both identities match and is refused
      for the one that does not. No refusal moves number or phase. */
  lemma CheckAdmits(config: Config, server: Server, log: seq<Entry>, q: Request)
    requires config.codec.Faithful() && ServerInv(config, server, log)
    ensures var c := q.command;
            var (check, response) := Check(config.codec, server, q);
            && (check.MayProceed? <==>
                  c.sequence == |log| + 1 && c.sessionId == server.sessionId && c.sessionEpoch == server.sessionEpoch)
            && (c.sequence == |log| + 1 && c.sessionId != server.sessionId ==>
                  check.CheckFailed? && response.reply.errorCode == InvalidIdentity)
            && (c.sequence == |log| + 1 && c.sessionId == server.sessionId && c.sessionEpoch != server.sessionEpoch ==>
                  check.CheckFailed? && response.reply.errorCode == StaleEpoch)
            && (c.sequence == 0 || c.sequence > |log| + 1 ==>
                  check.CheckFailed? && response.reply.errorCode == OutOfOrder)
            && (check.CheckFailed? ==>
                  && response.reply.result == Rejected && response.reply.appliedSequence == |log|
                  && response.reply.phase == server.phase)
  {
    LookupInLog(config, server, log, q.command.sequence);
  }

  /** The last number is answered by its bytes alone, whatever the session: with the stored response, marked as already
      applied, or as a conflict. */
  lemma LastIsReplayed(config: Config, server: Server, log: seq<Entry>, q: Request)
    requires config.codec.Faithful() && ServerInv(config, server, log)
    requires log != [] && q.command.sequence == |log|
    ensures var last := log[|log| - 1];
            var (check, response) := Check(config.codec, server, q);
            if config.codec.Bytes(q) == config.codec.Bytes(last.request) then
              && check.Replayed?
              && response.reply.result == AlreadyApplied && response.reply.errorCode == last.response.reply.errorCode
              && response.reply.appliedSequence == last.response.reply.appliedSequence
              && response.reply.phase == last.response.reply.phase
              && response.wait == last.response.wait && response.body == last.response.body
            else check.CheckFailed? && response.reply.errorCode == PayloadConflict
  {
    LookupInLog(config, server, log, |log|);
    var r := log[|log| - 1].response;
    assert config.codec.parseResponse(config.codec.encodeResponse(r)) == Some(r);
  }

  // ---- Every event keeps the invariant ----

  /** What committing a new command does to the server, the log and the replies. */
  lemma Committed(config: Config, w: World, i: nat, h: Handling) returns (server: Server, e: Entry)
    requires config.codec.Faithful() && Inv(config, w) && i < |w.attempts|
    requires w.attempts[i].command.sequence == |w.log| + 1 && h.Commit?
    ensures Serving(config, w, i, h)
         == w.(server := server, log := w.log + [e], replies := w.replies + {(i, e.response)})
    ensures e.attempt == i && e.request == w.attempts[i]
              && server.(phase := w.server.phase, last := w.server.last, memory := w.server.memory) == w.server
    ensures server.phase == e.response.reply.phase && server.last == e.response.reply.appliedSequence == |w.log| + 1
    ensures e.response.reply.result.Applied? && e.response.reply.errorCode.ErrorUnspecified?
    ensures e.response.reply.phase == h.phase && e.response.reply.message == h.message
    ensures e.response.wait == h.wait && e.response.body == h.body
    ensures server.memory == Retain(config.policy, w.server.memory, SlotOf(config.codec, e))
  {
    CheckMeans(config, w.server, w.log, w.attempts[i]);
    var handled := Handle(config.codec, config.policy, w.server, w.attempts[i], h);
    server, e := handled.0, Entry(i, w.attempts[i], handled.1);
  }

  lemma LongerLogAgrees(codec: Codec, w: World, e: Entry)
    requires Agreement(codec, w.cursor, w.confirmed, w.log) && |w.log| + 1 <= w.cursor.nextSequence
    requires RepliesInv(codec, w.replies, w.attempts, w.log)
    ensures Agreement(codec, w.cursor, w.confirmed, w.log + [e])
    ensures RepliesInv(codec, w.replies, w.attempts, w.log + [e])
  {
    forall p | p in w.replies
      ensures ReplyBacked(codec, w.attempts, w.log + [e], p.0, p.1)
    {
      assert ReplyBacked(codec, w.attempts, w.log, p.0, p.1);
    }
  }

  /** The log and the server's memory of it, one command longer. */
  lemma LongerLog(config: Config, server: Server, log: seq<Entry>, e: Entry, longer: Server)
    requires ServerInv(config, server, log)
    requires e.request.command.sequence == e.response.reply.appliedSequence == longer.last == |log| + 1
    requires e.response.reply.result.Applied? && e.response.reply.errorCode.ErrorUnspecified?
    requires longer.phase == e.response.reply.phase
    requires longer.memory == Retain(config.policy, server.memory, SlotOf(config.codec, e))
    ensures ServerInv(config, longer, log + [e])
  {
  }

  lemma CommitKeeps(config: Config, w: World, i: nat, h: Handling)
    requires config.codec.Faithful() && Inv(config, w) && i < |w.attempts|
    requires w.attempts[i].command.sequence == |w.log| + 1 && h.Commit?
    ensures Inv(config, Serving(config, w, i, h))
  {
    var server, e := Committed(config, w, i, h);
    LongerLog(config, w.server, w.log, e, server);
    LongerLogAgrees(config.codec, w, e);
    ReplyKeeps(config.codec, w.replies, w.attempts, w.log + [e], i, e.response);
  }

  lemma ReplyKeeps(codec: Codec, replies: set<(nat, Response)>, attempts: seq<Request>, log: seq<Entry>,
                   i: nat, r: Response)
    requires RepliesInv(codec, replies, attempts, log) && ReplyBacked(codec, attempts, log, i, r)
    ensures RepliesInv(codec, replies + {(i, r)}, attempts, log)
  {
  }

  /** A handler that rejects or postpones the next command changes nothing. */
  lemma NotCommitted(config: Config, w: World, i: nat, h: Handling) returns (r: Response)
    requires config.codec.Faithful() && Inv(config, w) && i < |w.attempts|
    requires w.attempts[i].command.sequence == |w.log| + 1 && !h.Commit?
    ensures Serving(config, w, i, h) == w.(replies := w.replies + {(i, r)}) && !CommandAccepted(r.reply)
  {
    CheckMeans(config, w.server, w.log, w.attempts[i]);
    r := Handle(config.codec, config.policy, w.server, w.attempts[i], h).1;
  }

  /** Processing that applies nothing new adds one reply and changes nothing else. */
  lemma AnswerOnly(config: Config, w: World, i: nat, h: Handling) returns (r: Response)
    requires config.codec.Faithful() && Inv(config, w) && i < |w.attempts|
    requires w.attempts[i].command.sequence <= |w.log| || !h.Commit?
    ensures Serving(config, w, i, h) == w.(replies := w.replies + {(i, r)})
    ensures ReplyBacked(config.codec, w.attempts, w.log, i, r)
    ensures var n := w.attempts[i].command.sequence;
            && (n == |w.log| ==>
                  (CommandAccepted(r.reply) <==>
                     config.codec.Bytes(w.attempts[i]) == config.codec.Bytes(w.log[n - 1].request)))
            && (n == |w.log| + 1 ==> !CommandAccepted(r.reply))
  {
    if w.attempts[i].command.sequence == |w.log| + 1 {
      r := NotCommitted(config, w, i, h);
    } else {
      CheckMeans(config, w.server, w.log, w.attempts[i]);
      r := Check(config.codec, w.server, w.attempts[i]).1;
    }
  }

  lemma AttemptKeeps(config: Config, w: World, q: Request)
    requires Inv(config, w)
    ensures AttemptsInv(w.log, w.attempts + [q]) && AttemptsInv(w.confirmed, w.attempts + [q])
    ensures RepliesInv(config.codec, w.replies, w.attempts + [q], w.log)
  {
    forall p | p in w.replies
      ensures ReplyBacked(config.codec, w.attempts + [q], w.log, p.0, p.1)
    {
      assert ReplyBacked(config.codec, w.attempts, w.log, p.0, p.1);
    }
  }

  lemma ResendKeeps(config: Config, w: World, tries: nat)
    requires Inv(config, w) && w.client.Awaiting?
    ensures Inv(config, Resend(w, tries))
  {
    AttemptKeeps(config, w, w.attempts[w.client.id]);
  }

  lemma AgreementGrows(codec: Codec, cursor: Cursor, confirmed: seq<Entry>, log: seq<Entry>, e: Entry)
    requires Agreement(codec, cursor, confirmed, log) && |log| == |confirmed| + 1
    requires SameEffect(codec, e.request, e.response, log[|confirmed|])
    requires PhaseFits(e.request.rpc, e.response.reply.phase) && ConcretePhase(e.response.reply.phase)
    ensures Agreement(codec, Advance(cursor, e.response.reply), confirmed + [e], log)
  {
  }

  /** A reply that confirms the open command belongs to the log entry after the confirmed ones. */
  lemma ConfirmAgrees(config: Config, w: World, r: Response, taskValid: bool)
    requires Inv(config, w) && Enabled(config, w, Receive(r, taskValid))
    requires Judge(w.cursor, w.attempts[w.client.id].rpc, r, taskValid) == Verdict(Confirmed)
    ensures Agreement(config.codec, Advance(w.cursor, r.reply),
                      w.confirmed + [Entry(w.client.id, w.attempts[w.client.id], r)], w.log)
  {
    assert (w.client.id, r) in w.replies;
    assert ReplyBacked(config.codec, w.attempts, w.log, w.client.id, r);
    assert Acceptable(w.cursor, r.reply) && PhaseFits(w.attempts[w.client.id].rpc, r.reply.phase);
    AgreementGrows(config.codec, w.cursor, w.confirmed, w.log, Entry(w.client.id, w.attempts[w.client.id], r));
  }

  lemma ReceiveKeeps(config: Config, w: World, r: Response, taskValid: bool)
    requires Inv(config, w) && Enabled(config, w, Receive(r, taskValid))
    ensures Inv(config, Receiving(w, r, taskValid))
  {
    match Judge(w.cursor, w.attempts[w.client.id].rpc, r, taskValid) {
      case Again(_) => ResendKeeps(config, w, 1);
      case Verdict(outcome) =>
        if outcome.Confirmed? {
          ConfirmAgrees(config, w, r, taskValid);
          ConfirmedKeeps(config, w, r, outcome);
        }
    }
  }

  lemma ConfirmedKeeps(config: Config, w: World, r: Response, outcome: CommandOutcome)
    requires Inv(config, w) && w.client.Awaiting?
    requires var confirmed := w.confirmed + [Entry(w.client.id, w.attempts[w.client.id], r)];
             Agreement(config.codec, Advance(w.cursor, r.reply), confirmed, w.log)
    ensures Inv(config, End(w, outcome).(cursor := Advance(w.cursor, r.reply),
                                         confirmed := w.confirmed + [Entry(w.client.id, w.attempts[w.client.id], r)]))
  {
  }

  lemma StepKeeps(config: Config, w: World, e: Event)
    requires config.codec.Faithful() && Inv(config, w) && Enabled(config, w, e)
    ensures Inv(config, After(config, w, e))
  {
    match e {
      case Serve(i, h) =>
        if w.attempts[i].command.sequence == |w.log| + 1 && h.Commit? {
          CommitKeeps(config, w, i, h);
        } else {
          var r := AnswerOnly(config, w, i, h);
          ReplyKeeps(config.codec, w.replies, w.attempts, w.log, i, r);
        }
      case Receive(r, valid) => ReceiveKeeps(config, w, r, valid);
      case Send(rpc, body) => AttemptKeeps(config, w, Request(rpc, FillCommand(w.cursor), body));
      case Retransmit => ResendKeeps(config, w, 2);
      case _ =>
    }
  }

  lemma {:induction false} Reachable(config: Config, sessionId: string, epoch: nat, events: seq<Event>)
    requires config.codec.Faithful()
    requires Play(config, Start(sessionId, epoch), events).Some?
    ensures Inv(config, Play(config, Start(sessionId, epoch), events).value)
  {
    if events != [] {
      var before := events[..|events| - 1];
      Reachable(config, sessionId, epoch, before);
      StepKeeps(config, Play(config, Start(sessionId, epoch), before).value, events[|events| - 1]);
    }
  }

  /** Exactly once, over every run: the confirmed commands are a prefix of the applied log, which is
      at most one entry longer and numbered 1, 2, 3, ...; the client's phase is the phase committed
      for the last confirmed command. */
  lemma ExactlyOnce(config: Config, sessionId: string, epoch: nat, events: seq<Event>)
    requires config.codec.Faithful()
    requires Play(config, Start(sessionId, epoch), events).Some?
    ensures var w := Play(config, Start(sessionId, epoch), events).value;
            && |w.confirmed| <= |w.log| <= |w.confirmed| + 1
            && w.cursor.nextSequence == |w.confirmed| + 1
            && w.server.last == |w.log|
            && (forall k {:trigger w.log[k]} | 0 <= k < |w.log| :: w.log[k].request.command.sequence == k + 1)
            && (forall k {:trigger w.confirmed[k]} | 0 <= k < |w.confirmed| ::
                  && w.confirmed[k].request.command == w.log[k].request.command
                  && w.confirmed[k].request.body == w.log[k].request.body
                  && w.confirmed[k].response.body == w.log[k].response.body)
            && w.cursor.phase == PhaseAfter(w.log[..|w.confirmed|])
  {
    Reachable(config, sessionId, epoch, events);
    var w := Play(config, Start(sessionId, epoch), events).value;
    AgreementMeans(config.codec, w.cursor, w.confirmed, w.log);
  }

  lemma AgreementMeans(codec: Codec, cursor: Cursor, confirmed: seq<Entry>, log: seq<Entry>)
    requires codec.Faithful() && Agreement(codec, cursor, confirmed, log)
    ensures forall k {:trigger confirmed[k]} | 0 <= k < |confirmed| ::
              && confirmed[k].request.command == log[k].request.command
              && confirmed[k].request.body == log[k].request.body
              && confirmed[k].response.body == log[k].response.body
    ensures cursor.phase == PhaseAfter(log[..|confirmed|])
  {
    forall k | 0 <= k < |confirmed|
      ensures confirmed[k].request.command == log[k].request.command && confirmed[k].request.body == log[k].request.body
    {
      assert codec.Bytes(confirmed[k].request) == codec.Bytes(log[k].request);
    }
  }

  /** The request bytes do not name the RPC. They still identify it when only Begin, End and Close
      carry no task fields and every handler commits a phase its own command may lead to. */
  lemma ExactlyOncePerRpc(config: Config, sessionId: string, epoch: nat, events: seq<Event>)
    requires config.codec.Faithful()
    requires Play(config, Start(sessionId, epoch), events).Some?
    requires var w := Play(config, Start(sessionId, epoch), events).value;
             && (forall q | q in w.attempts ::
                   q.body == "" <==> q.rpc.BeginEpisode? || q.rpc.EndEpisode? || q.rpc.CloseSession?)
             && (forall e | e in w.log :: PhaseFits(e.request.rpc, e.response.reply.phase))
    ensures var w := Play(config, Start(sessionId, epoch), events).value;
            && |w.confirmed| <= |w.log|
            && forall k {:trigger w.confirmed[k]} | 0 <= k < |w.confirmed| ::
                 w.confirmed[k].request == w.log[k].request
  {
    Reachable(config, sessionId, epoch, events);
    var w := Play(config, Start(sessionId, epoch), events).value;
    forall k | 0 <= k < |w.confirmed|
      ensures w.confirmed[k].request == w.log[k].request
    {
      assert w.log[k] in w.log;
      assert w.confirmed[k].request in w.attempts;
      assert w.log[k].request in w.attempts;
    }
  }

  // ---- Verdicts ----

  predicate Covers(v: Ended, e: Entry) {
    v.first <= e.attempt <= v.last
  }

  /** Confirmed: the log entry of this sequence came from one of the command's own attempts.
      Refused, stopped or expired: no attempt of the command was ever applied. */
  ghost predicate VerdictSound(v: Ended, log: seq<Entry>) {
    match v.outcome
    case Confirmed =>
      var n := v.request.command.sequence;
      && 1 <= n <= |log| && Covers(v, log[n - 1])
      && forall k {:trigger log[k]} | 0 <= k < |log| && k != n - 1 :: !Covers(v, log[k])
    case Unknown => true
    case _ => forall k {:trigger log[k]} | 0 <= k < |log| :: !Covers(v, log[k])
  }

  /** The server lets this attempt through and its handler commits. */
  ghost predicate Applies(config: Config, w: World, i: nat, h: Handling)
    requires i < |w.attempts|
  {
    Check(config.codec, w.server, w.attempts[i]).0.MayProceed? && h.Commit?
  }

  /** The client waits for this very attempt, and the server has not answered it before. */
  ghost predicate InTime(w: World, i: nat) {
    w.client.Awaiting? && w.client.id == i && forall r :: (i, r) !in w.replies
  }

  ghost predicate AppliesLate(config: Config, w: World, e: Event) {
    e.Serve? && e.attempt < |w.attempts| && Applies(config, w, e.attempt, e.handling) && !InTime(w, e.attempt)
  }

  /** The attempts of a run that were applied when nobody waited for them any more. */
  ghost function Late(config: Config, w: World, events: seq<Event>): set<nat> {
    if events == [] then {}
    else
      var before, e := events[..|events| - 1], events[|events| - 1];
      match Play(config, w, before)
      case None => {}
      case Some(v) => Late(config, w, before) + if AppliesLate(config, v, e) then {e.attempt} else {}
  }

  /** While the command after the confirmed ones is applied in time, its client can only confirm it or lose track. */
  ghost predicate OpenTimely(client: Client, replies: set<(nat, Response)>, confirmed: nat, log: seq<Entry>,
                             late: set<nat>)
  {
    |log| == confirmed + 1 && log[confirmed].attempt !in late ==>
      || client.Lost?
      || (&& client.Awaiting? && client.first <= log[confirmed].attempt <= client.id
          && forall r | (client.id, r) in replies :: CommandAccepted(r.reply))
  }

  ghost predicate OutcomeTimely(v: Ended, log: seq<Entry>, late: set<nat>) {
    match v.outcome
    case Confirmed =>
      var n := v.request.command.sequence;
      && 1 <= n <= |log| && log[n - 1].attempt <= v.last
      && (log[n - 1].attempt !in late ==> Covers(v, log[n - 1]))
    case Unknown => true
    case _ => forall k {:trigger log[k]} | 0 <= k < |log| && Covers(v, log[k]) :: log[k].attempt in late
  }

  ghost predicate EndedTimely(client: Client, ended: seq<Ended>, attempts: seq<Request>, log: seq<Entry>,
                              late: set<nat>)
  {
    forall v | v in ended ::
      && v.first <= v.last < |attempts|
      && (client.Awaiting? ==> v.last < client.first)
      && (forall i {:trigger attempts[i]} | v.first <= i <= v.last :: attempts[i] == v.request)
      && OutcomeTimely(v, log, late)
  }

  ghost predicate LateInv(w: World, late: set<nat>) {
    && (forall i | i in late :: exists k | 0 <= k < |w.log| :: w.log[k].attempt == i)
    && OpenTimely(w.client, w.replies, |w.confirmed|, w.log, late)
    && EndedTimely(w.client, w.ended, w.attempts, w.log, late)
  }

  /** Applying the next command: nothing that ended before is touched by a commit in time. */
  lemma LateCommit(config: Config, w: World, i: nat, h: Handling, late: set<nat>)
    requires config.codec.Faithful() && Inv(config, w) && LateInv(w, late) && i < |w.attempts|
    requires w.attempts[i].command.sequence == |w.log| + 1 && h.Commit?
    ensures LateInv(Serving(config, w, i, h), if InTime(w, i) then late else late + {i})
  {
    var server, e := Committed(config, w, i, h);
    var late' := if InTime(w, i) then late else late + {i};
    assert forall k {:trigger w.log[k]} | 0 <= k < |w.log| :: (w.log + [e])[k] == w.log[k];
    assert (w.log + [e])[|w.log|].attempt == i;
    LateVerdicts(w, e, late, late');
    if InTime(w, i) {
      assert forall r | (i, r) in w.replies + {(i, e.response)} :: r == e.response;
    }
  }

  lemma LateVerdicts(w: World, e: Entry, late: set<nat>, late': set<nat>)
    requires EndedTimely(w.client, w.ended, w.attempts, w.log, late)
    requires late <= late' && (e.attempt in late' || (w.client.Awaiting? && e.attempt >= w.client.first))
    ensures EndedTimely(w.client, w.ended, w.attempts, w.log + [e], late')
  {
    forall v | v in w.ended
      ensures OutcomeTimely(v, w.log + [e], late')
    {
      assert OutcomeTimely(v, w.log, late);
    }
  }

  /** A reply to the attempt the client waits for accepts the command once that was applied in time. */
  lemma LateAnswer(config: Config, w: World, i: nat, h: Handling, late: set<nat>)
    requires config.codec.Faithful() && Inv(config, w) && LateInv(w, late) && i < |w.attempts|
    requires w.attempts[i].command.sequence <= |w.log| || !h.Commit?
    ensures LateInv(Serving(config, w, i, h), late)
  {
    var r := AnswerOnly(config, w, i, h);
    var n := |w.confirmed|;
    if |w.log| == n + 1 && w.log[n].attempt !in late && w.client.Awaiting? && w.client.id == i {
      assert w.attempts[w.log[n].attempt] == w.log[n].request == w.attempts[i];
    }
  }

  /** Whether an event applies a command is a matter of its sequence. */
  lemma AppliesNext(config: Config, w: World, i: nat, h: Handling)
    requires config.codec.Faithful() && Inv(config, w) && i < |w.attempts|
    ensures Applies(config, w, i, h) <==> w.attempts[i].command.sequence == |w.log| + 1 && h.Commit?
  {
    CheckMeans(config, w.server, w.log, w.attempts[i]);
    assert w.attempts[i].command.sequence <= w.cursor.nextSequence <= |w.log| + 1;
  }

  lemma NoReplyYet(config: Config, w: World)
    requires Inv(config, w)
    ensures forall r :: (|w.attempts|, r) !in w.replies
  {
    forall r
      ensures (|w.attempts|, r) !in w.replies
    {
      if (|w.attempts|, r) in w.replies {
        assert false;
      }
    }
  }

  /** Ending a command: without success only if it was not applied, or late. */
  lemma LateEnd(config: Config, w: World, outcome: CommandOutcome, late: set<nat>)
    requires Inv(config, w) && LateInv(w, late) && w.client.Awaiting?
    requires var n := |w.confirmed|;
             if outcome.Confirmed? then |w.log| == n + 1
             else outcome.Unknown? || |w.log| == n || w.log[n].attempt in late
    ensures EndedTimely(End(w, outcome).client, End(w, outcome).ended, w.attempts, w.log, late)
  {
    var v := Ended(w.client.first, w.client.id, w.attempts[w.client.id], outcome);
    forall k | 0 <= k < |w.log| && Covers(v, w.log[k])
      ensures k == |w.confirmed|
    {
      assert w.attempts[w.log[k].attempt] == w.log[k].request;
    }
    assert OutcomeTimely(v, w.log, late);
  }

  lemma LateReceive(config: Config, w: World, r: Response, taskValid: bool, late: set<nat>)
    requires Inv(config, w) && LateInv(w, late) && Enabled(config, w, Receive(r, taskValid))
    ensures LateInv(Receiving(w, r, taskValid), late)
  {
    match Judge(w.cursor, w.attempts[w.client.id].rpc, r, taskValid) {
      case Again(_) => LateResend(config, w, 1, late);
      case Verdict(outcome) =>
        assert outcome.Confirmed? ==> ReplyBacked(config.codec, w.attempts, w.log, w.client.id, r);
        LateEnd(config, w, outcome, late);
    }
  }

  lemma LateResend(config: Config, w: World, tries: nat, late: set<nat>)
    requires Inv(config, w) && LateInv(w, late) && w.client.Awaiting?
    ensures LateInv(Resend(w, tries), late)
  {
    NoReplyYet(config, w);
  }

  lemma LateServe(config: Config, w: World, i: nat, h: Handling, late: set<nat>)
    requires config.codec.Faithful() && Inv(config, w) && LateInv(w, late) && i < |w.attempts|
    ensures LateInv(Serving(config, w, i, h), late + if AppliesLate(config, w, Serve(i, h)) then {i} else {})
  {
    AppliesNext(config, w, i, h);
    if w.attempts[i].command.sequence == |w.log| + 1 && h.Commit? {
      LateCommit(config, w, i, h, late);
    } else {
      LateAnswer(config, w, i, h, late);
    }
    assert late + {} == late;
  }

  lemma LateOther(config: Config, w: World, e: Event, late: set<nat>)
    requires Inv(config, w) && LateInv(w, late) && Enabled(config, w, e) && !e.Serve?
    ensures LateInv(After(config, w, e), late)
  {
    match e {
      case Receive(r, valid) => LateReceive(config, w, r, valid, late);
      case GiveUp(r, reason) => LateEnd(config, w, reason, late);
      case TransportFails => LateEnd(config, w, Unknown, late);
      case Retransmit => LateResend(config, w, 2, late);
      case Send(_, _) => NoReplyYet(config, w);
      case _ =>
    }
  }

  lemma LateStep(config: Config, w: World, e: Event, late: set<nat>)
    requires config.codec.Faithful() && Inv(config, w) && LateInv(w, late) && Enabled(config, w, e)
    ensures LateInv(After(config, w, e), late + if AppliesLate(config, w, e) then {e.attempt} else {})
  {
    if e.Serve? {
      LateServe(config, w, e.attempt, e.handling, late);
    } else {
      LateOther(config, w, e, late);
      assert late + {} == late;
    }
  }

  lemma {:induction false} LateRun(config: Config, sessionId: string, epoch: nat, events: seq<Event>)
    requires config.codec.Faithful()
    requires Play(config, Start(sessionId, epoch), events).Some?
    ensures LateInv(Play(config, Start(sessionId, epoch), events).value, Late(config, Start(sessionId, epoch), events))
  {
    if events != [] {
      var before := events[..|events| - 1];
      LateRun(config, sessionId, epoch, before);
      Reachable(config, sessionId, epoch, before);
      LateStep(config, Play(config, Start(sessionId, epoch), before).value, events[|events| - 1],
               Late(config, Start(sessionId, epoch), before));
    }
  }

  /** When the verdict on one command is sound: for a refused, stopped or expired one iff none of its own
      attempts was applied late, for a confirmed one iff no attempt of an earlier command with the same
      sequence was. */
  ghost predicate UntouchedByLate(v: Ended, attempts: seq<Request>, late: set<nat>) {
    if v.outcome.Confirmed? then
      forall i | i in late && i < v.first && i < |attempts| ::
          attempts[i].command.sequence != v.request.command.sequence
    else forall i | i in late :: !(v.first <= i <= v.last)
  }

  /** Over every run, whatever is lost, duplicated or delayed: a verdict is sound exactly when it is untouched by
      attempts that were applied when nobody waited for them any more. */
  lemma VerdictsExactly(config: Config, sessionId: string, epoch: nat, events: seq<Event>)
    requires config.codec.Faithful()
    requires Play(config, Start(sessionId, epoch), events).Some?
    ensures var w := Play(config, Start(sessionId, epoch), events).value;
            forall v | v in w.ended && !v.outcome.Unknown? ::
              VerdictSound(v, w.log) <==> UntouchedByLate(v, w.attempts, Late(config, Start(sessionId, epoch), events))
  {
    Reachable(config, sessionId, epoch, events);
    LateRun(config, sessionId, epoch, events);
    var w, late := Play(config, Start(sessionId, epoch), events).value, Late(config, Start(sessionId, epoch), events);
    forall v | v in w.ended && !v.outcome.Unknown?
      ensures VerdictSound(v, w.log) <==> UntouchedByLate(v, w.attempts, late)
    {
      if v.outcome.Confirmed? {
        ConfirmedExactly(w, v, late);
      } else {
        FailedExactly(w, v, late);
      }
    }
  }

  lemma FailedExactly(w: World, v: Ended, late: set<nat>)
    requires LateInv(w, late) && v in w.ended && !v.outcome.Unknown? && !v.outcome.Confirmed?
    ensures VerdictSound(v, w.log) <==> UntouchedByLate(v, w.attempts, late)
  {
    assert OutcomeTimely(v, w.log, late);
    if i :| i in late && v.first <= i <= v.last {
      var k :| 0 <= k < |w.log| && w.log[k].attempt == i;
      assert Covers(v, w.log[k]);
    }
  }

  lemma ConfirmedExactly(w: World, v: Ended, late: set<nat>)
    requires LateInv(w, late) && v in w.ended && v.outcome.Confirmed?
    requires LogInv(w.log) && AttemptsInv(w.log, w.attempts)
    ensures VerdictSound(v, w.log) <==> UntouchedByLate(v, w.attempts, late)
  {
    var n := v.request.command.sequence;
    var e := w.log[n - 1];
    assert OutcomeTimely(v, w.log, late);
    forall k | 0 <= k < |w.log| && Covers(v, w.log[k])
      ensures k == n - 1
    {
      assert w.attempts[w.log[k].attempt] == v.request;
    }
    assert w.attempts[e.attempt].command.sequence == n;
    forall i | i in late && i < v.first && w.attempts[i].command.sequence == n
      ensures i == e.attempt
    {
      var k :| 0 <= k < |w.log| && w.log[k].attempt == i;
    }
  }

  // ---- Verdicts under prompt delivery ----

  /** What holds of the open command under prompt delivery. */
  ghost predicate OpenInv(client: Client, replies: set<(nat, Response)>, confirmed: nat, log: seq<Entry>) {
    match client
    case Idle => |log| == confirmed
    case Lost => true
    case Awaiting(first, id, _) =>
      && confirmed <= |log| <= confirmed + 1
      && (|log| == confirmed + 1 ==> first <= log[confirmed].attempt <= id)
      && forall r | (id, r) in replies :: CommandAccepted(r.reply) <==> |log| == confirmed + 1
  }

  ghost predicate EndedInv(client: Client, ended: seq<Ended>, attempts: seq<Request>, log: seq<Entry>) {
    forall v | v in ended ::
      && v.first <= v.last < |attempts|
      && (client.Awaiting? ==> v.last < client.first)
      && (forall i {:trigger attempts[i]} | v.first <= i <= v.last :: attempts[i] == v.request)
      && VerdictSound(v, log)
  }

  ghost predicate PromptInv(w: World) {
    && OpenInv(w.client, w.replies, |w.confirmed|, w.log)
    && EndedInv(w.client, w.ended, w.attempts, w.log)
  }

  lemma {:induction false} NoneLate(config: Config, w: World, events: seq<Event>)
    requires config.delivery.Prompt? && Play(config, w, events).Some?
    ensures Late(config, w, events) == {}
  {
    if events != [] {
      NoneLate(config, w, events[..|events| - 1]);
    }
  }

  lemma PromptOpen(config: Config, w: World)
    requires Inv(config, w) && LateInv(w, {})
    ensures OpenInv(w.client, w.replies, |w.confirmed|, w.log)
  {
    if w.client.Awaiting? {
      forall r | (w.client.id, r) in w.replies && CommandAccepted(r.reply)
        ensures |w.log| == |w.confirmed| + 1
      {
        assert ReplyBacked(config.codec, w.attempts, w.log, w.client.id, r);
      }
    }
  }

  /** Verdicts are sound over every run in which no attempt is processed after its RPC ended: a
      confirmed command was applied exactly once and by its own attempts, and a refused, stopped or
      expired one never is, not even later in the run. */
  lemma VerdictsAreSound(config: Config, sessionId: string, epoch: nat, events: seq<Event>)
    requires config.codec.Faithful() && config.delivery.Prompt?
    requires Play(config, Start(sessionId, epoch), events).Some?
    ensures var w := Play(config, Start(sessionId, epoch), events).value;
            && PromptInv(w)
            && forall v | v in w.ended :: VerdictSound(v, w.log)
  {
    var w := Play(config, Start(sessionId, epoch), events).value;
    Reachable(config, sessionId, epoch, events);
    NoneLate(config, Start(sessionId, epoch), events);
    LateRun(config, sessionId, epoch, events);
    PromptOpen(config, w);
    forall v | v in w.ended
      ensures VerdictSound(v, w.log)
    {
      if v.outcome.Confirmed? {
        ConfirmedExactly(w, v, {});
      } else if !v.outcome.Unknown? {
        FailedExactly(w, v, {});
      }
    }
  }

  // ---- Client and server agree after a confirmed command ----

  /** No command is open and the last one, if any, was confirmed. */
  predicate Settled(w: World) {
    w.client.Idle? && (w.ended == [] || w.ended[|w.ended| - 1].outcome.Confirmed?)
  }

  ghost predicate SettledInv(w: World) {
    Settled(w) ==> forall i {:trigger w.attempts[i]} | 0 <= i < |w.attempts| ::
      w.attempts[i].command.sequence < w.cursor.nextSequence
  }

  lemma SettledReceive(config: Config, w: World, r: Response, taskValid: bool)
    requires Inv(config, w) && Enabled(config, w, Receive(r, taskValid))
    ensures SettledInv(Receiving(w, r, taskValid))
  {
  }

  lemma SettledStep(config: Config, w: World, e: Event)
    requires Inv(config, w) && SettledInv(w) && Enabled(config, w, e)
    ensures SettledInv(After(config, w, e))
  {
    if e.Receive? {
      SettledReceive(config, w, e.response, e.taskValid);
    } else if e.Serve? {
      var v := Serving(config, w, e.attempt, e.handling);
      assert v.attempts == w.attempts && v.cursor == w.cursor && v.client == w.client && v.ended == w.ended;
    } else {
      assert !e.SetEpisode? ==> !Settled(After(config, w, e));
    }
  }

  lemma {:induction false} SettledRun(config: Config, sessionId: string, epoch: nat, events: seq<Event>)
    requires config.codec.Faithful()
    requires Play(config, Start(sessionId, epoch), events).Some?
    ensures SettledInv(Play(config, Start(sessionId, epoch), events).value)
  {
    if events != [] {
      var before := events[..|events| - 1];
      SettledRun(config, sessionId, epoch, before);
      Reachable(config, sessionId, epoch, before);
      SettledStep(config, Play(config, Start(sessionId, epoch), before).value, events[|events| - 1]);
    }
  }

  /** After a confirmed command and until the next one is sent, whatever still arrives late: the server has
      applied exactly the confirmed commands and is in the client's phase. */
  lemma ConfirmedIsCommitted(config: Config, sessionId: string, epoch: nat, events: seq<Event>)
    requires config.codec.Faithful()
    requires Play(config, Start(sessionId, epoch), events).Some?
    requires Settled(Play(config, Start(sessionId, epoch), events).value)
    ensures var w := Play(config, Start(sessionId, epoch), events).value;
            |w.log| == |w.confirmed| == w.server.last && w.server.phase == w.cursor.phase
  {
    Reachable(config, sessionId, epoch, events);
    SettledRun(config, sessionId, epoch, events);
    var w := Play(config, Start(sessionId, epoch), events).value;
    assert forall k {:trigger w.log[k]} | 0 <= k < |w.log| :: w.attempts[w.log[k].attempt] == w.log[k].request;
    AgreementMeans(config.codec, w.cursor, w.confirmed, w.log);
    assert w.log[..|w.log|] == w.log;
  }

  // ---- The answers to the awaited command ----

  /** The verdict the client reaches on a reply, as the entry it adds to the ended commands. */
  ghost predicate EndsWith(before: World, after: World, outcome: CommandOutcome) {
    && before.client.Awaiting? && before.client.id < |before.attempts|
    && after.ended == before.ended
         + [Ended(before.client.first, before.client.id, before.attempts[before.client.id], outcome)]
  }

  lemma AcceptingAnswer(config: Config, w: World, r: Response, taskValid: bool)
    requires Inv(config, w) && Enabled(config, w, Receive(r, taskValid)) && CommandAccepted(r.reply)
    ensures var rpc := w.attempts[w.client.id].rpc;
            EndsWith(w, Receiving(w, r, taskValid),
                     if ProvesApplied(w.cursor, rpc, r, taskValid) then Confirmed else Unknown)
    ensures r.reply.appliedSequence == w.cursor.nextSequence
  {
    assert ReplyBacked(config.codec, w.attempts, w.log, w.client.id, r);
    JudgeMeans(w.cursor, w.attempts[w.client.id].rpc, r, taskValid);
  }

  /** An accepting answer to the awaited command, first or replayed, confirms it exactly when the phase is one the
      command may lead to, the payload is in order and no pause is asked for; otherwise the outcome is unknown. */
  lemma AcceptingAnswerConfirms(config: Config, sessionId: string, epoch: nat, events: seq<Event>, r: Response,
                                taskValid: bool)
    requires config.codec.Faithful() && Play(config, Start(sessionId, epoch), events).Some?
    requires Enabled(config, Play(config, Start(sessionId, epoch), events).value, Receive(r, taskValid))
    requires r.reply.result in {Applied, AlreadyApplied} && r.reply.errorCode == ErrorUnspecified
    ensures var w := Play(config, Start(sessionId, epoch), events).value;
            var listed :=
              match w.attempts[w.client.id].rpc
              case Init => r.reply.phase == Ready
              case BeginEpisode => r.reply.phase == EpisodeRunning || r.reply.phase == TaskComplete
              case Update => (r.reply.phase == EpisodeRunning || r.reply.phase == EpisodeTerminal) && r.wait == None
              case EndEpisode => r.reply.phase == Ready
              case AbortEpisode => r.reply.phase == Aborted && r.wait == None
              case CloseSession => r.reply.phase == Closed;
            EndsWith(w, After(config, w, Receive(r, taskValid)), if listed && taskValid then Confirmed else Unknown)
  {
    var w := Play(config, Start(sessionId, epoch), events).value;
    Reachable(config, sessionId, epoch, events);
    AcceptingAnswer(config, w, r, taskValid);
  }

  /** A command the server lets through and its handler commits: the reply carries what the handler chose, and
      receiving it confirms the command as above. */
  lemma CommitIsConfirmed(config: Config, sessionId: string, epoch: nat, events: seq<Event>, h: Handling,
                          taskValid: bool)
    returns (r: Response)
    requires config.codec.Faithful() && Play(config, Start(sessionId, epoch), events).Some?
    requires var w := Play(config, Start(sessionId, epoch), events).value;
             w.client.Awaiting? && w.client.id < |w.attempts| && Applies(config, w, w.client.id, h)
             && Enabled(config, w, Serve(w.client.id, h))
    ensures r == Response(CommandReply(Applied, ErrorUnspecified, h.message, r.reply.appliedSequence, h.phase),
              h.wait, h.body)
    ensures var w := Play(config, Start(sessionId, epoch), events).value;
            var served := After(config, w, Serve(w.client.id, h));
            var listed :=
              match w.attempts[w.client.id].rpc
              case Init => h.phase == Ready
              case BeginEpisode => h.phase == EpisodeRunning || h.phase == TaskComplete
              case Update => (h.phase == EpisodeRunning || h.phase == EpisodeTerminal) && h.wait == None
              case EndEpisode => h.phase == Ready
              case AbortEpisode => h.phase == Aborted && h.wait == None
              case CloseSession => h.phase == Closed;
            && Enabled(config, served, Receive(r, taskValid))
            && EndsWith(served, After(config, served, Receive(r, taskValid)),
                        if listed && taskValid then Confirmed else Unknown)
  {
    var w := Play(config, Start(sessionId, epoch), events).value;
    Reachable(config, sessionId, epoch, events);
    AppliesNext(config, w, w.client.id, h);
    var server, e := Committed(config, w, w.client.id, h);
    r := e.response;
    var longer, served := PlayThrough(config, Start(sessionId, epoch), events, w, Serve(w.client.id, h));
    AcceptingAnswerConfirms(config, sessionId, epoch, longer, r, taskValid);
  }

  /** A command the server lets through finds both sides at the same place. */
  lemma BothSidesReady(config: Config, w: World)
    requires config.codec.Faithful() && Inv(config, w) && w.client.Awaiting?
    requires Check(config.codec, w.server, w.attempts[w.client.id]).0.MayProceed?
    ensures w.cursor.nextSequence == w.server.last + 1
    ensures w.server.phase == w.cursor.phase && ConcretePhase(w.cursor.phase)
  {
    CheckMeans(config, w.server, w.log, w.attempts[w.client.id]);
    assert PhaseAfter(w.log) == PhaseAfter(w.confirmed);
  }

  /** A handler that postpones a command with a pause the command knows makes the client send the same request again;
      without one the outcome is unknown. */
  lemma PostponedIsRetried(config: Config, w: World, pause: Option<int>, message: string, taskValid: bool)
    requires config.codec.Faithful() && Inv(config, w) && w.client.Awaiting?
    requires Check(config.codec, w.server, w.attempts[w.client.id]).0.MayProceed?
    ensures var request := w.attempts[w.client.id];
            var answer := Handle(config.codec, config.policy, w.server, request, Postpone(pause, message)).1;
            var after := Receiving(w, answer, taskValid);
            var known := request.rpc == BeginEpisode
                         || (request.rpc in {Update, AbortEpisode} && pause.Some? && pause.value > 0);
            if known then
              after == w.(client := Awaiting(w.client.first, |w.attempts|, 1), attempts := w.attempts + [request])
            else EndsWith(w, after, Unknown)
  {
    BothSidesReady(config, w);
  }

  /** A handler that rejects a command the server let through is always judged conclusive. */
  lemma RejectionIsConclusive(config: Config, w: World, code: ErrorCode, message: string, taskValid: bool)
    requires config.codec.Faithful() && Inv(config, w) && w.client.Awaiting?
    requires Check(config.codec, w.server, w.attempts[w.client.id]).0.MayProceed?
    requires !code.ErrorUnspecified?
    ensures var request := w.attempts[w.client.id];
            var answer := Handle(config.codec, config.policy, w.server, request, Reject(code, message)).1;
            Judge(w.cursor, request.rpc, answer, taskValid) == Verdict(Refused)
  {
    BothSidesReady(config, w);
  }

  /** A reply the server sends without running the handler never counts as a refusal; a payload
      conflict in particular is always an unknown outcome. */
  lemma FailedCheckIsUnknown(config: Config, w: World, taskValid: bool)
    requires config.codec.Faithful() && Inv(config, w) && w.client.Awaiting?
    requires Check(config.codec, w.server, w.attempts[w.client.id]).0.CheckFailed?
    ensures var request := w.attempts[w.client.id];
            var answer := Check(config.codec, w.server, request).1;
            && answer.reply.errorCode.PayloadConflict?
            && Judge(w.cursor, request.rpc, answer, taskValid) == Verdict(Unknown)
  {
    CheckMeans(config, w.server, w.log, w.attempts[w.client.id]);
  }

  // ---- The one-slot window against a server that remembers everything ----

  ghost predicate SameAwaited(client: Client, a: set<(nat, Response)>, b: set<(nat, Response)>) {
    client.Awaiting? ==> forall r :: (client.id, r) in a <==> (client.id, r) in b
  }

  /** Equal up to what the server remembers and to replies nobody waits for. */
  ghost predicate Related(a: World, b: World) {
    && b == a.(server := a.server.(memory := b.server.memory), replies := b.replies)
    && SameAwaited(a.client, a.replies, b.replies)
  }

  /** Both servers answer the next command and the last one alike. */
  lemma SameAnswer(a: Config, b: Config, w: World, v: World, q: Request)
    requires a.codec.Faithful() && a.policy.OneSlot? && b == a.(policy := KeepAll)
    requires Inv(a, w) && Inv(b, v) && Related(w, v)
    requires q.command.sessionId == w.server.sessionId && q.command.sessionEpoch == w.server.sessionEpoch
    requires 1 <= q.command.sequence && |w.log| <= q.command.sequence <= |w.log| + 1
    ensures Check(a.codec, w.server, q) == Check(b.codec, v.server, q)
  {
    LookupInLog(a, w.server, w.log, q.command.sequence);
    LookupInLog(b, v.server, v.log, q.command.sequence);
    SameMemory(a.codec, w.server, v.server, q);
  }

  /** The check looks at the memory only through the slot of the request's own number. */
  lemma SameMemory(codec: Codec, s: Server, t: Server, q: Request)
    requires t == s.(memory := t.memory)
    requires Lookup(s.memory, q.command.sequence) == Lookup(t.memory, q.command.sequence)
    ensures Check(codec, s, q) == Check(codec, t, q)
  {
  }

  lemma RelatedServe(a: Config, b: Config, w: World, v: World, i: nat, h: Handling)
    requires a.codec.Faithful() && a.policy.OneSlot? && b == a.(policy := KeepAll)
    requires Inv(a, w) && Inv(b, v) && Related(w, v) && i < |w.attempts|
    ensures Related(Serving(a, w, i, h), Serving(b, v, i, h))
  {
    var q := w.attempts[i];
    if q.command.sequence >= |w.log| {
      SameAnswer(a, b, w, v, q);
      assert Handle(a.codec, a.policy, w.server, q, h).1 == Handle(b.codec, b.policy, v.server, q, h).1;
    } else {
      CheckMeans(a, w.server, w.log, q);
      CheckMeans(b, v.server, v.log, q);
      assert w.client.Awaiting? ==> i != w.client.id;
    }
  }

  lemma RelatedEnabled(a: Config, b: Config, w: World, v: World, e: Event)
    requires b == a.(policy := KeepAll) && a.delivery.Arbitrary? && Related(w, v)
    ensures Enabled(a, w, e) <==> Enabled(b, v, e)
  {
  }

  lemma RelatedReceive(w: World, v: World, r: Response, taskValid: bool)
    requires Related(w, v) && w.client.Awaiting? && w.client.id < |w.attempts|
    requires forall r :: (|w.attempts|, r) !in w.replies && (|w.attempts|, r) !in v.replies
    ensures Related(Receiving(w, r, taskValid), Receiving(v, r, taskValid))
  {
  }

  lemma RelatedStep(a: Config, b: Config, w: World, v: World, e: Event)
    requires a.codec.Faithful() && a.policy.OneSlot? && b == a.(policy := KeepAll) && a.delivery.Arbitrary?
    requires Inv(a, w) && Inv(b, v) && Related(w, v)
    ensures Enabled(a, w, e) <==> Enabled(b, v, e)
    ensures Enabled(a, w, e) ==> Related(After(a, w, e), After(b, v, e))
  {
    RelatedEnabled(a, b, w, v, e);
    if Enabled(a, w, e) {
      NoReplyYet(a, w);
      NoReplyYet(b, v);
      if e.Serve? {
        RelatedServe(a, b, w, v, e.attempt, e.handling);
      } else if e.Receive? {
        RelatedReceive(w, v, e.response, e.taskValid);
      }
    }
  }

  /** The window that keeps one command refines the one that keeps every command: both servers
      admit exactly the same runs, and after each run the client, its verdicts, the log and the
      replies to the awaited attempt are the same. */
  lemma {:induction false} OneSlotRefinesHistory(codec: Codec, sessionId: string, epoch: nat, events: seq<Event>)
    requires codec.Faithful()
    ensures var a := Play(Config(codec, OneSlot, Arbitrary), Start(sessionId, epoch), events);
            var b := Play(Config(codec, KeepAll, Arbitrary), Start(sessionId, epoch), events);
            && (a.Some? <==> b.Some?)
            && (a.Some? ==> Related(a.value, b.value))
  {
    var a, b := Config(codec, OneSlot, Arbitrary), Config(codec, KeepAll, Arbitrary);
    if events != [] {
      var before, e := events[..|events| - 1], events[|events| - 1];
      OneSlotRefinesHistory(codec, sessionId, epoch, before);
      var w, v := Play(a, Start(sessionId, epoch), before), Play(b, Start(sessionId, epoch), before);
      if w.Some? {
        Reachable(a, sessionId, epoch, before);
        Reachable(b, sessionId, epoch, before);
        RelatedStep(a, b, w.value, v.value, e);
      }
    }
  }

  /** A late duplicate of a command older than the last applied one changes nothing on the server. */
  lemma LateDuplicatesAreInert(config: Config, w: World, i: nat, h: Handling)
    requires config.codec.Faithful() && Inv(config, w) && i < |w.attempts|
    requires w.attempts[i].command.sequence <= w.server.last
    ensures Serving(config, w, i, h).(replies := w.replies) == w
  {
    var _ := AnswerOnly(config, w, i, h);
  }

  // ---- Why prompt delivery and honest handlers are needed ----

  lemma PlayThrough(config: Config, w: World, before: seq<Event>, v: World, e: Event)
    returns (events: seq<Event>, v': World)
    requires Play(config, w, before) == Some(v) && Enabled(config, v, e)
    ensures events == before + [e] && v' == After(config, v, e)
    ensures Play(config, w, events) == Some(v')
  {
    events, v' := before + [e], After(config, v, e);
    assert events[..|before|] == before;
  }

  /** The caller stops a Begin that was answered WAIT; its first attempt is still in the network. */
  lemma StoppedBegin(codec: Codec, w0: World) returns (events: seq<Event>, w: World)
    requires w0 == Start(w0.cursor.sessionId, w0.cursor.sessionEpoch)
    ensures Play(Config(codec, OneSlot, Arbitrary), w0, events) == Some(w)
    ensures var begin := Request(BeginEpisode, FillCommand(w0.cursor), "");
            && w.client == Idle && w.cursor == w0.cursor && w.server == w0.server
            && w.attempts == [begin, begin] && w.log == [] && w.confirmed == []
            && w.ended == [Ended(0, 1, begin, Stopped)]
  {
    var config := Config(codec, OneSlot, Arbitrary);
    var wait := BlankResponse().(reply := ReplyWith(w0.server, 0, Wait, ErrorUnspecified, ""));
    events, w := PlayThrough(config, w0, [], w0, Send(BeginEpisode, ""));
    events, w := PlayThrough(config, w0, events, w, Retransmit);
    events, w := PlayThrough(config, w0, events, w, Serve(1, Postpone(None, "")));
    events, w := PlayThrough(config, w0, events, w, GiveUp(wait, Stopped));
  }

  /** The stopped Begin is applied late with phase CLOSED, while a Close of the same sequence is open. */
  lemma LateBegin(codec: Codec, w0: World, before: seq<Event>, v: World) returns (events: seq<Event>, w: World)
    requires w0 == Start(w0.cursor.sessionId, w0.cursor.sessionEpoch) && codec.Faithful()
    requires Play(Config(codec, OneSlot, Arbitrary), w0, before) == Some(v)
    requires v.client == Idle && v.cursor == w0.cursor && v.server == w0.server
    requires v.attempts == [Request(BeginEpisode, FillCommand(w0.cursor), ""),
              Request(BeginEpisode, FillCommand(w0.cursor), "")]
    requires v.log == [] && v.confirmed == []
    ensures Play(Config(codec, OneSlot, Arbitrary), w0, events) == Some(w)
    ensures w.client == Awaiting(2, 2, 1) && w.cursor == w0.cursor && w.confirmed == [] && w.ended == v.ended
    ensures |w.attempts| == 3 && w.attempts[2] == Request(CloseSession, FillCommand(w0.cursor), "")
    ensures w.log == [Entry(0, v.attempts[0],
              Response(CommandReply(Applied, ErrorUnspecified, "", 1, Closed), None, ""))]
  {
    var config := Config(codec, OneSlot, Arbitrary);
    events, w := PlayThrough(config, w0, before, v, Send(CloseSession, ""));
    assert w.attempts[0] == v.attempts[0];
    events, w := PlayThrough(config, w0, events, w, Serve(0, Commit(Closed, None, "", "")));
  }

  /** The open Close has the bytes of the applied Begin, so it is answered from the window. */
  lemma CloseIsReplayed(codec: Codec, w0: World, before: seq<Event>, v: World) returns (events: seq<Event>, w: World)
    requires w0 == Start(w0.cursor.sessionId, w0.cursor.sessionEpoch) && codec.Faithful()
    requires Play(Config(codec, OneSlot, Arbitrary), w0, before) == Some(v)
    requires v.client == Awaiting(2, 2, 1) && v.cursor == w0.cursor && |v.attempts| == 3 && |v.log| == 1
    requires v.attempts[2] == Request(CloseSession, FillCommand(w0.cursor), "")
    requires v.log[0].request == Request(BeginEpisode, FillCommand(w0.cursor), "")
    ensures Play(Config(codec, OneSlot, Arbitrary), w0, events) == Some(w)
    ensures w == v.(replies := v.replies + {(2, Repeated(v.log[0].response))})
  {
    var config := Config(codec, OneSlot, Arbitrary);
    Reachable(config, w0.cursor.sessionId, w0.cursor.sessionEpoch, before);
    CheckMeans(config, v.server, v.log, v.attempts[2]);
    events, w := PlayThrough(config, w0, before, v, Serve(2, Reject(ErrorUnspecified, "")));
  }

  /** Only such a handler does this: the replay of a Begin that led to a phase of its own is no proof for a Close. */
  lemma ReplayedBeginIsUnknown(cursor: Cursor, r: Response, taskValid: bool)
    requires CommandAccepted(r.reply) && PhaseFits(BeginEpisode, r.reply.phase)
    ensures Judge(cursor, CloseSession, r, taskValid) == Verdict(Unknown)
  {
  }

  /** A Begin whose first attempt is delayed is stopped by the caller and then applied all the same;
      with a handler that moves to CLOSED, the Close sent next has the same bytes, is answered from
      the window and confirmed although only Begin was ever applied. */
  lemma LateBeginConfirmsClose(codec: Codec, sessionId: string, epoch: nat) returns (events: seq<Event>)
    requires codec.Faithful()
    ensures var run := Play(Config(codec, OneSlot, Arbitrary), Start(sessionId, epoch), events);
            && run.Some?
            && var w := run.value;
            && |w.ended| == 2 && w.ended[0].outcome.Stopped? && w.ended[1].outcome.Confirmed?
            && !VerdictSound(w.ended[0], w.log)
            && |w.log| == |w.confirmed| == 1
            && w.log[0].request.rpc == BeginEpisode && w.confirmed[0].request.rpc == CloseSession
  {
    var config, w0 := Config(codec, OneSlot, Arbitrary), Start(sessionId, epoch);
    var before, v := StoppedBegin(codec, w0);
    var w;
    events, w := LateBegin(codec, w0, before, v);
    events, w := CloseIsReplayed(codec, w0, events, w);
    var answer := Repeated(w.log[0].response);
    assert Judge(w.cursor, CloseSession, answer, true) == Verdict(Confirmed);
    events, w := PlayThrough(config, w0, events, w, Receive(answer, true));
    assert Covers(w.ended[0], w.log[0]);
  }
}
