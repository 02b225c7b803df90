/** The closed-loop multi-turn benchmark as a transition system.

A sender thread, a response-handler thread and the server interleave freely.
`Step` performs one atomic action of one of them; a run is any sequence of
actions.  The file `WorkloadObject.dfy` ties the mutable object to `Step`. */
module Workload {
  import opened Wrappers

  type Tokens = seq<int>
  type Metric = int

  /** How `ReadyQueue.pop` picks; any other name raises ValueError. */
  datatype Policy = Random | Fifo | Unsupported

  /** What the constructor fixes: rounds per client, first prompts and the sampled follow-ups. */
  datatype Config = Config(
    totals: seq<nat>, maxRounds: nat, maxParallel: int, barrier: bool, policy: Policy,
    firstPrompts: seq<Tokens>, questions: seq<Tokens>)

  datatype Request = Request(client: nat, prompt: Tokens)
  datatype Response = Success(output: Tokens, metric: Metric) | Failure
  datatype Reply = Reply(client: nat, response: Response)
  datatype Record = Record(round: nat, history: Tokens, total: nat)

  /** One finished exchange: what the server said and what the client asked next. */
  datatype Turn = Turn(reply: Tokens, followUp: Tokens)

  datatype Sender = Checking | Popping | Launching(request: Request) | SenderDead

  /** Where the handler loop is; `output` is the reply being processed. */
  datatype Handler =
    | Waiting
    | Dropping
    | Recording(client: nat, output: Tokens, metric: Metric)
    | Counting(client: nat, output: Tokens)
    | Asking(client: nat, output: Tokens)
    | AtBarrier
    | Releasing(next: nat)
    | HandlerDead

  /** `dropped` and `turns` are bookkeeping for the statements; the program does not read them. */
  datatype State = State(
    sent: nat, completed: nat,
    ready: seq<Request>, inflight: seq<Request>, responses: seq<Reply>, held: seq<Request>,
    records: seq<Record>, pool: seq<Tokens>,
    barrierRound: nat, barrierDone: nat,
    metrics: seq<Metric>, roundMetrics: seq<seq<Metric>>,
    sender: Sender, handler: Handler,
    dropped: set<nat>, turns: seq<seq<Turn>>)

  datatype Action =
    | Check
    | Pop(choice: nat)
    | Launch
    | Serve(index: nat, response: Response)
    | Handle

  // ---------------------------------------------------------------- set-up

  function Sum(xs: seq<nat>): nat {
    if xs == [] then 0 else xs[0] + Sum(xs[1..])
  }

  /** clients_per_round[r]: how many clients take part in round r. */
  function CountAbove(totals: seq<nat>, r: nat): nat {
    if totals == [] then 0
    else (if totals[0] > r then 1 else 0) + CountAbove(totals[1..], r)
  }

  function ClientsPerRound(totals: seq<nat>, rounds: nat): seq<nat> {
    seq(rounds, r requires 0 <= r => CountAbove(totals, r))
  }

  function FollowUps(totals: seq<nat>): nat {
    if totals == [] then 0
    else (if totals[0] > 0 then totals[0] - 1 else 0) + FollowUps(totals[1..])
  }

  predicate ValidConfig(cfg: Config) {
    && (forall c :: 0 <= c < |cfg.totals| ==> 1 <= cfg.totals[c] <= cfg.maxRounds)
    && |cfg.firstPrompts| == |cfg.totals|
    && |cfg.questions| == (if FollowUps(cfg.totals) > 1 then FollowUps(cfg.totals) else 1)
  }

  function Init(cfg: Config): State
    requires |cfg.firstPrompts| == |cfg.totals|
  {
    var n := |cfg.totals|;
    State(0, 0,
          seq(n, c requires 0 <= c < n => Request(c, cfg.firstPrompts[c])), [], [], [],
          seq(n, c requires 0 <= c < n => Record(0, cfg.firstPrompts[c], cfg.totals[c])),
          cfg.questions, 0, 0, [],
          if cfg.barrier then seq(cfg.maxRounds, _ => []) else [],
          Checking, Waiting, {}, seq(n, _ => []))
  }

  // ---------------------------------------------------------------- steps

  function Without<T>(q: seq<T>, i: nat): seq<T>
    requires i < |q|
  {
    q[..i] + q[i + 1..]
  }

  /** Take the oldest response; a failed one drops its client. */
  function GetStep(s: State): State
    requires s.responses != []
  {
    var reply, rest := s.responses[0], s.responses[1..];
    match reply.response
    case Failure => s.(responses := rest, handler := Dropping, dropped := s.dropped + {reply.client})
    case Success(output, metric) => s.(responses := rest, handler := Recording(reply.client, output, metric))
  }

  /** Extend the history, advance the round and record the metrics; a missing key kills the thread. */
  function RecordStep(cfg: Config, s: State, c: nat, output: Tokens, metric: Metric): State {
    if c >= |s.records| || (cfg.barrier && s.records[c].round >= |s.roundMetrics|) then s.(handler := HandlerDead)
    else
      var rec := s.records[c];
      s.(records := s.records[c := Record(rec.round + 1, rec.history + output, rec.total)],
         metrics := s.metrics + [metric],
         roundMetrics := if cfg.barrier
                         then s.roundMetrics[rec.round := s.roundMetrics[rec.round] + [metric]]
                         else s.roundMetrics,
         handler := Counting(c, output))
  }

  /** Pop a follow-up for a client with rounds left and queue or hold its next request. */
  function AskStep(cfg: Config, s: State, c: nat, output: Tokens): State {
    if c >= |s.records| || c >= |s.turns| then s.(handler := HandlerDead)
    else if s.records[c].round >= s.records[c].total then
      s.(turns := s.turns[c := s.turns[c] + [Turn(output, [])]], handler := AtBarrier)
    else if s.pool == [] then s.(handler := HandlerDead)
    else
      var question := s.pool[|s.pool| - 1];
      var history := s.records[c].history + question;
      s.(pool := s.pool[..|s.pool| - 1],
         records := s.records[c := s.records[c].(history := history)],
         turns := s.turns[c := s.turns[c] + [Turn(output, question)]],
         ready := if cfg.barrier then s.ready else s.ready + [Request(c, history)],
         held := if cfg.barrier then s.held + [Request(c, history)] else s.held,
         handler := AtBarrier)
  }

  /** Count the completion towards the barrier round and start releasing when it is the last. */
  function BarrierStep(cfg: Config, s: State): State {
    if cfg.barrier && s.barrierRound < cfg.maxRounds then
      var expected := ClientsPerRound(cfg.totals, cfg.maxRounds)[s.barrierRound];
      s.(barrierDone := s.barrierDone + 1,
         handler := if s.barrierDone + 1 == expected then Releasing(0) else Waiting)
    else s.(handler := Waiting)
  }

  /** Release the held-back requests one by one, then open the next round. */
  function ReleaseStep(s: State, i: nat): State {
    if i < |s.held| then s.(ready := s.ready + [s.held[i]], handler := Releasing(i + 1))
    else s.(held := [], barrierRound := s.barrierRound + 1, barrierDone := 0, handler := Waiting)
  }

  /** The handler's next atomic step. */
  function HandleStep(cfg: Config, s: State): Option<State> {
    match s.handler
    case Waiting => if s.responses == [] then None else Some(GetStep(s))
    case Dropping => Some(s.(completed := s.completed + 1, handler := Waiting))
    case Recording(c, output, metric) => Some(RecordStep(cfg, s, c, output, metric))
    case Counting(c, output) => Some(s.(completed := s.completed + 1, handler := Asking(c, output)))
    case Asking(c, output) => Some(AskStep(cfg, s, c, output))
    case AtBarrier => Some(BarrierStep(cfg, s))
    case Releasing(i) => Some(ReleaseStep(s, i))
    case HandlerDead => None
  }

  /** The sender's pop; `None` when the random index is out of range, which randrange never draws. */
  function PopStep(cfg: Config, s: State, choice: nat): Option<State> {
    if s.sender != Popping then None
    else if s.ready == [] then Some(s.(sender := Checking))
    else if cfg.policy == Unsupported then Some(s.(sender := SenderDead))
    else
      var i := if cfg.policy == Fifo then 0 else choice;
      if i >= |s.ready| then None
      else Some(s.(sender := Launching(s.ready[i]), ready := Without(s.ready, i)))
  }

  /** One atomic action; `None` when the action is not enabled. */
  function Step(cfg: Config, s: State, a: Action): Option<State> {
    match a
    case Check =>
      if s.sender != Checking then None
      else if s.sent - s.completed < cfg.maxParallel then Some(s.(sender := Popping))
      else Some(s)
    case Pop(choice) => PopStep(cfg, s, choice)
    case Launch =>
      if !s.sender.Launching? then None
      else Some(s.(inflight := s.inflight + [s.sender.request], sent := s.sent + 1, sender := Checking))
    case Serve(i, response) =>
      if i >= |s.inflight| then None
      else Some(s.(responses := s.responses + [Reply(s.inflight[i].client, response)],
                   inflight := Without(s.inflight, i)))
    case Handle => HandleStep(cfg, s)
  }

  /** The state after a whole interleaving; `None` if some action was not enabled. */
  function Run(cfg: Config, s: State, actions: seq<Action>): Option<State>
    decreases |actions|
  {
    if actions == [] then Some(s)
    else
      match Step(cfg, s, actions[0])
      case None => None
      case Some(next) => Run(cfg, next, actions[1..])
  }

  // ---------------------------------------------------------------- invariants

  /** How many requests of client c are in the queue. */
  function Queued(q: seq<Request>, c: nat): nat {
    if q == [] then 0 else (if q[0].client == c then 1 else 0) + Queued(q[1..], c)
  }

  function Replied(q: seq<Reply>, c: nat): nat {
    if q == [] then 0 else (if q[0].client == c then 1 else 0) + Replied(q[1..], c)
  }

  /** The requests the barrier still holds back. */
  function HeldBack(s: State): seq<Request> {
    if s.handler.Releasing? && s.handler.next <= |s.held| then s.held[s.handler.next..] else s.held
  }

  /** A question the handler still owes: the reply is recorded, the next request not yet made. */
  function Owed(s: State, c: nat): nat {
    if (s.handler.Counting? || s.handler.Asking?) && s.handler.client == c
       && c < |s.records| && s.records[c].round < s.records[c].total
    then 1 else 0
  }

  /** Unrecorded turns of client c that have left the barrier: queued, in the sender's hand,
      in flight, answered, or in the handler's hand. */
  function Released(s: State, c: nat): nat {
    Queued(s.ready, c) + Queued(s.inflight, c) + Replied(s.responses, c)
    + (if s.sender.Launching? && s.sender.request.client == c then 1 else 0)
    + (if s.handler.Recording? && s.handler.client == c then 1 else 0)
  }

  /** Every place a client's turn can be, across both threads and all queues. */
  function Outstanding(s: State, c: nat): nat {
    Released(s, c) + Owed(s, c) + Queued(HeldBack(s), c)
  }

  predicate Live(s: State, c: nat) {
    c < |s.records| && c !in s.dropped && s.records[c].round < s.records[c].total
  }

  ghost predicate ShapeInv(cfg: Config, s: State) {
    && |s.records| == |cfg.totals| == |s.turns|
    && (forall c :: 0 <= c < |s.records| ==> s.records[c].total == cfg.totals[c] && s.records[c].round <= cfg.totals[c])
    && (forall c <- s.dropped :: c < |s.records| && s.records[c].round < s.records[c].total)
    && (s.handler.Releasing? ==> s.handler.next <= |s.held|)
    && (s.handler.Counting? || s.handler.Asking? ==> s.handler.client < |s.records| && s.handler.client !in s.dropped)
    && !s.handler.HandlerDead?
    && (s.sender.SenderDead? ==> cfg.policy == Unsupported)
  }

  /** Each live client has exactly one outstanding turn; everyone else has none. */
  ghost predicate OneTurnInv(s: State) {
    forall c: nat :: Outstanding(s, c) == if Live(s, c) then 1 else 0
  }

  function Uncounted(s: State): nat {
    if s.handler.Dropping? || s.handler.Recording? || s.handler.Counting? then 1 else 0
  }

  ghost predicate CounterInv(cfg: Config, s: State) {
    && s.sent == s.completed + |s.inflight| + |s.responses| + Uncounted(s)
    && (s.sender.Popping? || s.sender.Launching? ==> s.sent - s.completed < cfg.maxParallel)
    && (s.sent - s.completed <= cfg.maxParallel || s.sent == s.completed)
    && s.completed + (if s.handler.Dropping? || s.handler.Counting? then 1 else 0) == |s.metrics| + |s.dropped|
  }

  ghost predicate PromptMatches(records: seq<Record>, r: Request) {
    r.client < |records| && r.prompt == records[r.client].history
  }

  ghost predicate PromptsMatch(records: seq<Record>, q: seq<Request>) {
    forall i :: 0 <= i < |q| ==> PromptMatches(records, q[i])
  }

  /** A payload shares its list with the client's history, so the two must stay equal until the reply is in. */
  ghost predicate PromptInv(s: State) {
    && PromptsMatch(s.records, s.ready) && PromptsMatch(s.records, s.inflight)
    && PromptsMatch(s.records, HeldBack(s))
    && (s.sender.Launching? ==> PromptMatches(s.records, s.sender.request))
  }

  /** The prompt after the given finished exchanges. */
  function Conversation(first: Tokens, turns: seq<Turn>): Tokens {
    if turns == [] then first
    else
      var last := turns[|turns| - 1];
      Conversation(first, turns[..|turns| - 1]) + last.reply + last.followUp
  }

  /** The reply that is already in the history but not yet closed into a turn. */
  function OpenReply(s: State, c: nat): Option<Tokens> {
    match s.handler
    case Counting(d, output) => if c == d then Some(output) else None
    case Asking(d, output) => if c == d then Some(output) else None
    case _ => None
  }

  ghost predicate TranscriptOf(cfg: Config, s: State, c: nat)
    requires c < |s.records| && c < |s.turns| && c < |cfg.firstPrompts|
  {
    match OpenReply(s, c)
    case None =>
      && s.records[c].round == |s.turns[c]|
      && s.records[c].history == Conversation(cfg.firstPrompts[c], s.turns[c])
    case Some(output) =>
      && s.records[c].round == |s.turns[c]| + 1
      && s.records[c].history == Conversation(cfg.firstPrompts[c], s.turns[c]) + output
  }

  ghost predicate TranscriptInv(cfg: Config, s: State)
    requires |s.records| == |s.turns| == |cfg.firstPrompts|
  {
    forall c: nat :: c < |s.records| ==> TranscriptOf(cfg, s, c)
  }

  /** Follow-ups still to be asked by clients whose records are given. */
  function Remaining(records: seq<Record>): nat {
    if records == [] then 0
    else (if records[0].round + 1 < records[0].total then records[0].total - 1 - records[0].round else 0)
         + Remaining(records[1..])
  }

  ghost predicate PoolInv(s: State) {
    Remaining(s.records) + (if s.handler.Counting? || s.handler.Asking? then Owed(s, s.handler.client) else 0)
    <= |s.pool|
  }

  function Rounds(records: seq<Record>): seq<nat> {
    seq(|records|, i requires 0 <= i < |records| => records[i].round)
  }

  ghost predicate MetricsInv(cfg: Config, s: State) {
    && |s.metrics| == Sum(Rounds(s.records))
    && |s.roundMetrics| == (if cfg.barrier then cfg.maxRounds else 0)
    && forall k :: 0 <= k < |s.roundMetrics| ==> |s.roundMetrics[k]| == CountAbove(Rounds(s.records), k)
  }

  /** 1 while a completion of the barrier round is recorded but not yet counted by the barrier. */
  function Unreported(s: State): nat {
    if s.handler.Counting? || s.handler.Asking? || s.handler.AtBarrier? then 1 else 0
  }

  /** The round that released requests belong to: the barrier round, or the next one while it is being released. */
  function OpenRound(s: State): nat {
    if s.handler.Releasing? then s.barrierRound + 1 else s.barrierRound
  }

  ghost predicate RoundsInv(s: State) {
    && (forall c :: 0 <= c < |s.records| && Released(s, c) > 0 ==> s.records[c].round == OpenRound(s))
    && (forall c :: 0 <= c < |s.records| && Queued(HeldBack(s), c) + Owed(s, c) > 0 ==>
          s.records[c].round == s.barrierRound + 1)
  }

  ghost predicate ProgressInv(s: State) {
    forall c :: 0 <= c < |s.records| ==>
      && s.records[c].round <= s.barrierRound + 1
      && (s.records[c].round >= s.barrierRound || s.records[c].round == s.records[c].total)
  }

  ghost predicate BarrierCountInv(cfg: Config, s: State) {
    && CountAbove(Rounds(s.records), s.barrierRound) == s.barrierDone + Unreported(s)
    && (if s.handler.Releasing? then s.barrierDone == CountAbove(cfg.totals, s.barrierRound)
        else s.barrierDone < CountAbove(cfg.totals, s.barrierRound) || s.barrierDone == 0)
  }

  ghost predicate BarrierInv(cfg: Config, s: State) {
    if cfg.barrier then RoundsInv(s) && ProgressInv(s) && BarrierCountInv(cfg, s)
    else s.held == [] && !s.handler.Releasing?
  }

  ghost predicate Inv(cfg: Config, s: State) {
    && ValidConfig(cfg)
    && ShapeInv(cfg, s) && OneTurnInv(s) && CounterInv(cfg, s) && PromptInv(s) && TranscriptInv(cfg, s)
    && PoolInv(s) && MetricsInv(cfg, s) && BarrierInv(cfg, s)
  }
}
