/** What the server answers is what is recorded: replies, figures and follow-up questions along every run. */
module WorkloadAnswers {
  import opened Wrappers
  import opened Workload
  import opened WorkloadInvariant
  import opened WorkloadTheorems

  // ---------------------------------------------------------------- the server's side of a run

  /** A successful response. */
  datatype Answer = Answer(output: Tokens, metric: Metric)

  /** For each client its answers, in the order in which the server gave them. */
  type Log = seq<seq<Answer>>

  /** The log after one action: a successful reply to a request in flight is noted for its client. */
  function Noted(s: State, a: Action, log: Log): Log {
    if a.Serve? && a.response.Success? && a.index < |s.inflight| && s.inflight[a.index].client < |log| then
      var c := s.inflight[a.index].client;
      log[c := log[c] + [Answer(a.response.output, a.response.metric)]]
    else log
  }

  /** The answers the schedule's server actions give along the run. */
  function Answers(cfg: Config, s: State, actions: seq<Action>, log: Log): Log
    requires Run(cfg, s, actions).Some?
    decreases |actions|
  {
    if actions == [] then log
    else Answers(cfg, Step(cfg, s, actions[0]).value, actions[1..], Noted(s, actions[0], log))
  }

  function NoAnswers(cfg: Config): Log {
    seq(|cfg.totals|, _ => [])
  }

  // ---------------------------------------------------------------- the client's side

  function AnswerIn(r: Reply, c: nat): seq<Answer> {
    if r.client == c && r.response.Success? then [Answer(r.response.output, r.response.metric)] else []
  }

  /** Answers to client c that wait in the response queue. */
  function Successes(q: seq<Reply>, c: nat): seq<Answer> {
    if q == [] then [] else AnswerIn(q[0], c) + Successes(q[1..], c)
  }

  /** Answers to client c that are not recorded yet: in the handler's hand, then queued. */
  function Pending(s: State, c: nat): seq<Answer> {
    (if s.handler.Recording? && s.handler.client == c then [Answer(s.handler.output, s.handler.metric)] else [])
    + Successes(s.responses, c)
  }

  /** Replies in client c's conversation: those of its turns, then the one not yet closed into a turn. */
  function Told(s: State, c: nat): seq<Tokens>
    requires c < |s.turns|
  {
    seq(|s.turns[c]|, j requires 0 <= j < |s.turns[c]| => s.turns[c][j].reply)
    + match OpenReply(s, c) case Some(output) => [output] case None => []
  }

  function Outputs(answers: seq<Answer>): seq<Tokens> {
    seq(|answers|, j requires 0 <= j < |answers| => answers[j].output)
  }

  /** Client c's first answers, one per completed round, are its replies; the rest are pending. */
  ghost predicate ClientLog(s: State, log: Log, c: nat)
    requires c < |log| && c < |s.records| && c < |s.turns|
  {
    var n := s.records[c].round;
    && n <= |log[c]|
    && Told(s, c) == Outputs(log[c][..n])
    && Pending(s, c) == log[c][n..]
  }

  /** How many clients have completed round k with this figure. */
  function RoundCount(log: Log, records: seq<Record>, k: nat, x: Metric): nat {
    if log == [] || records == [] then 0
    else (if k < records[0].round && k < |log[0]| && log[0][k].metric == x then 1 else 0)
         + RoundCount(log[1..], records[1..], k, x)
  }

  ghost predicate TalkLog(s: State, log: Log) {
    |log| == |s.records| == |s.turns| && forall c: nat :: c < |log| ==> ClientLog(s, log, c)
  }

  /** With the barrier, list k of the figures holds those of the clients' answers number k. */
  ghost predicate MetricLog(cfg: Config, s: State, log: Log) {
    cfg.barrier ==> forall k, x :: 0 <= k < |s.roundMetrics| ==>
      multiset(s.roundMetrics[k])[x] == RoundCount(log, s.records, k, x)
  }

  ghost predicate LogInv(cfg: Config, s: State, log: Log) {
    TalkLog(s, log) && MetricLog(cfg, s, log)
  }

  // ---------------------------------------------------------------- counting

  /** A later answer changes no completed round. */
  lemma {:induction false} NotedCounts(log: Log, records: seq<Record>, c: nat, a: Answer, k: nat, x: Metric)
    requires |log| == |records| && c < |log| && records[c].round <= |log[c]|
    ensures RoundCount(log[c := log[c] + [a]], records, k, x) == RoundCount(log, records, k, x)
  {
    var log' := log[c := log[c] + [a]];
    if c == 0 {
      assert log'[1..] == log[1..];
    } else {
      assert log'[1..] == log[1..][c - 1 := log[1..][c - 1] + [a]];
      NotedCounts(log[1..], records[1..], c - 1, a, k, x);
    }
  }

  /** One more completed round adds its answer's figure to that round. */
  lemma {:induction false} RoundCounts(log: Log, records: seq<Record>, c: nat, r: Record, k: nat, x: Metric)
    requires |log| == |records| && c < |log| && records[c].round < |log[c]| && r.round == records[c].round + 1
    ensures RoundCount(log, records[c := r], k, x)
         == RoundCount(log, records, k, x) + if k == records[c].round && log[c][k].metric == x then 1 else 0
  {
    if c == 0 {
      assert records[c := r][1..] == records[1..];
    } else {
      assert records[c := r][1..] == records[1..][c - 1 := r];
      RoundCounts(log[1..], records[1..], c - 1, r, k, x);
    }
  }

  /** Only the completed rounds matter. */
  lemma {:induction false} SameRoundCounts(log: Log, a: seq<Record>, b: seq<Record>, k: nat, x: Metric)
    requires |a| == |b| && forall c :: 0 <= c < |a| ==> a[c].round == b[c].round
    ensures RoundCount(log, a, k, x) == RoundCount(log, b, k, x)
  {
    if log != [] && a != [] { SameRoundCounts(log[1..], a[1..], b[1..], k, x); }
  }

  lemma Regroup<T>(a: seq<T>, b: seq<T>, c: seq<T>)
    ensures a + b + c == a + (b + c)
  {
  }

  lemma {:induction false} SuccessesAppend(q: seq<Reply>, r: Reply, c: nat)
    ensures Successes(q + [r], c) == Successes(q, c) + AnswerIn(r, c)
  {
    var longer := q + [r];
    if q == [] {
      assert longer[1..] == [];
    } else {
      assert longer[0] == q[0] && longer[1..] == q[1..] + [r];
      SuccessesAppend(q[1..], r, c);
      Regroup(AnswerIn(q[0], c), Successes(q[1..], c), AnswerIn(r, c));
    }
  }

  lemma {:induction false} NoneReplied(q: seq<Reply>, c: nat)
    requires Replied(q, c) == 0
    ensures Successes(q, c) == []
  {
    if q != [] { NoneReplied(q[1..], c); }
  }

  // ---------------------------------------------------------------- every step keeps the log

  /** Rounds, replies, pending answers and figures are untouched. */
  lemma LogFrame(cfg: Config, s: State, s': State, log: Log)
    requires LogInv(cfg, s, log)
    requires |s'.records| == |s.records| && |s'.turns| == |s.turns|
    requires forall c :: 0 <= c < |s.records| ==> s'.records[c].round == s.records[c].round
    requires forall c: nat :: c < |s.records| ==> Told(s', c) == Told(s, c) && Pending(s', c) == Pending(s, c)
    requires s'.roundMetrics == s.roundMetrics
    ensures LogInv(cfg, s', log)
  {
    forall c: nat | c < |log| ensures ClientLog(s', log, c) { assert ClientLog(s, log, c); }
    forall k: nat, x ensures RoundCount(log, s'.records, k, x) == RoundCount(log, s.records, k, x) {
      SameRoundCounts(log, s'.records, s.records, k, x);
    }
  }

  lemma ServeTalkLog(cfg: Config, s: State, i: nat, response: Response, s': State, log: Log, c: nat)
    requires TalkLog(s, log) && Step(cfg, s, Serve(i, response)) == Some(s') && s.inflight[i].client < |log|
    requires c < |log|
    ensures ClientLog(s', Noted(s, Serve(i, response), log), c)
  {
    assert ClientLog(s, log, c);
    SuccessesAppend(s.responses, Reply(s.inflight[i].client, response), c);
    var log', n := Noted(s, Serve(i, response), log), s.records[c].round;
    assert Told(s', c) == Told(s, c);
    if response.Success? && c == s.inflight[i].client {
      assert log'[c][..n] == log[c][..n];
      assert log'[c][n..] == log[c][n..] + [Answer(response.output, response.metric)];
    }
  }

  lemma ServeLog(cfg: Config, s: State, i: nat, response: Response, s': State, log: Log)
    requires LogInv(cfg, s, log) && Step(cfg, s, Serve(i, response)) == Some(s') && s.inflight[i].client < |log|
    ensures LogInv(cfg, s', Noted(s, Serve(i, response), log))
  {
    var d, log' := s.inflight[i].client, Noted(s, Serve(i, response), log);
    forall c: nat | c < |log| ensures ClientLog(s', log', c) { ServeTalkLog(cfg, s, i, response, s', log, c); }
    if response.Success? {
      assert ClientLog(s, log, d);
      var a := Answer(response.output, response.metric);
      forall k: nat, x ensures RoundCount(log', s.records, k, x) == RoundCount(log, s.records, k, x) {
        NotedCounts(log, s.records, d, a, k, x);
      }
    }
  }

  lemma GetLog(cfg: Config, s: State, log: Log)
    requires LogInv(cfg, s, log) && s.handler.Waiting? && s.responses != []
    ensures LogInv(cfg, GetStep(s), log)
  {
    var s' := GetStep(s);
    forall c: nat | c < |s.records| ensures Told(s', c) == Told(s, c) && Pending(s', c) == Pending(s, c) {}
    LogFrame(cfg, s, s', log);
  }

  lemma RecordTalkLog(cfg: Config, s: State, d: nat, output: Tokens, metric: Metric, log: Log, c: nat)
    requires TalkLog(s, log) && s.handler == Recording(d, output, metric) && d < |log| && c < |log|
    requires !RecordStep(cfg, s, d, output, metric).handler.HandlerDead?
    ensures ClientLog(RecordStep(cfg, s, d, output, metric), log, c)
    ensures c == d ==> s.records[d].round < |log[d]| && log[d][s.records[d].round] == Answer(output, metric)
  {
    assert ClientLog(s, log, c);
    var s', n := RecordStep(cfg, s, d, output, metric), s.records[c].round;
    if c == d {
      assert log[c][n..] == [Answer(output, metric)] + Successes(s.responses, c);
      assert log[c][n] == log[c][n..][0] == Answer(output, metric);
      assert log[c][..n + 1] == log[c][..n] + [log[c][n]];
      assert log[c][n + 1..] == log[c][n..][1..];
      assert Outputs(log[c][..n + 1]) == Outputs(log[c][..n]) + [output];
      assert Told(s, c) + [] == Told(s, c);
    } else {
      assert Told(s', c) == Told(s, c) && Pending(s', c) == Pending(s, c);
    }
  }

  lemma RecordLog(cfg: Config, s: State, d: nat, output: Tokens, metric: Metric, log: Log)
    requires LogInv(cfg, s, log) && s.handler == Recording(d, output, metric) && d < |log|
    requires !RecordStep(cfg, s, d, output, metric).handler.HandlerDead?
    ensures LogInv(cfg, RecordStep(cfg, s, d, output, metric), log)
  {
    var s' := RecordStep(cfg, s, d, output, metric);
    RecordTalkLog(cfg, s, d, output, metric, log, d);
    forall c: nat | c < |log| ensures ClientLog(s', log, c) { RecordTalkLog(cfg, s, d, output, metric, log, c); }
    RecordMetricLog(cfg, s, d, output, metric, log);
  }

  lemma RecordMetricLog(cfg: Config, s: State, d: nat, output: Tokens, metric: Metric, log: Log)
    requires MetricLog(cfg, s, log) && |log| == |s.records| && d < |log|
    requires s.records[d].round < |log[d]| && log[d][s.records[d].round] == Answer(output, metric)
    requires !RecordStep(cfg, s, d, output, metric).handler.HandlerDead?
    ensures MetricLog(cfg, RecordStep(cfg, s, d, output, metric), log)
  {
    var s' := RecordStep(cfg, s, d, output, metric);
    if cfg.barrier {
      forall k, x | 0 <= k < |s'.roundMetrics|
        ensures multiset(s'.roundMetrics[k])[x] == RoundCount(log, s'.records, k, x)
      {
        RoundCounts(log, s.records, d, s'.records[d], k, x);
        assert multiset(s.roundMetrics[k])[x] == RoundCount(log, s.records, k, x);
      }
    }
  }

  lemma AskLog(cfg: Config, s: State, d: nat, output: Tokens, log: Log)
    requires LogInv(cfg, s, log) && s.handler == Asking(d, output) && d < |log|
    requires !AskStep(cfg, s, d, output).handler.HandlerDead?
    ensures LogInv(cfg, AskStep(cfg, s, d, output), log)
  {
    var s' := AskStep(cfg, s, d, output);
    forall c: nat | c < |s.records| ensures Told(s', c) == Told(s, c) && Pending(s', c) == Pending(s, c) {}
    LogFrame(cfg, s, s', log);
  }

  /** No reply is taken, recorded or closed. */
  ghost predicate Undisturbed(s: State, s': State) {
    && s'.records == s.records && s'.turns == s.turns && s'.responses == s.responses
    && s'.roundMetrics == s.roundMetrics && (forall c: nat :: OpenReply(s', c) == OpenReply(s, c))
    && (s'.handler.Recording? || s.handler.Recording? ==> s'.handler == s.handler)
  }

  lemma QuietLog(cfg: Config, s: State, s': State, log: Log)
    requires LogInv(cfg, s, log) && Undisturbed(s, s')
    ensures LogInv(cfg, s', log)
  {
    forall c: nat | c < |s.records| ensures Told(s', c) == Told(s, c) && Pending(s', c) == Pending(s, c) {}
    LogFrame(cfg, s, s', log);
  }

  lemma QuietHandle(cfg: Config, s: State, s': State)
    requires HandleStep(cfg, s) == Some(s')
    requires !s.handler.Waiting? && !s.handler.Recording? && !s.handler.Asking?
    ensures Undisturbed(s, s') && s'.pool == s.pool && s'.metrics == s.metrics
  {
  }

  lemma QuietSender(cfg: Config, s: State, a: Action, s': State)
    requires Step(cfg, s, a) == Some(s') && !a.Serve? && !a.Handle?
    ensures Undisturbed(s, s') && s'.pool == s.pool && s'.metrics == s.metrics
  {
  }

  lemma HandleLog(cfg: Config, s: State, s': State, log: Log)
    requires LogInv(cfg, s, log) && HandleStep(cfg, s) == Some(s') && !s'.handler.HandlerDead?
    requires s.handler.Recording? || s.handler.Asking? ==> s.handler.client < |log|
    ensures LogInv(cfg, s', log)
  {
    match s.handler
    case Waiting => GetLog(cfg, s, log);
    case Recording(d, output, metric) => RecordLog(cfg, s, d, output, metric, log);
    case Asking(d, output) => AskLog(cfg, s, d, output, log);
    case _ =>
      QuietHandle(cfg, s, s');
      QuietLog(cfg, s, s', log);
  }

  /** The client whose turn the handler or the server holds exists. */
  lemma HolderExists(cfg: Config, s: State, c: nat)
    requires Inv(cfg, s) && Outstanding(s, c) > 0
    ensures c < |s.records|
  {
  }

  lemma StepLog(cfg: Config, s: State, a: Action, s': State, log: Log)
    requires Inv(cfg, s) && LogInv(cfg, s, log) && Step(cfg, s, a) == Some(s')
    ensures LogInv(cfg, s', Noted(s, a, log))
  {
    match a
    case Serve(i, response) =>
      QueuedMember(s.inflight, i);
      HolderExists(cfg, s, s.inflight[i].client);
      ServeLog(cfg, s, i, response, s', log);
    case Handle =>
      HandleKeeps(cfg, s, s');
      if s.handler.Recording? { HolderExists(cfg, s, s.handler.client); }
      HandleLog(cfg, s, s', log);
    case _ =>
      QuietSender(cfg, s, a, s');
      QuietLog(cfg, s, s', log);
  }

  lemma {:induction false} RunLog(cfg: Config, s: State, actions: seq<Action>, log: Log)
    requires Inv(cfg, s) && LogInv(cfg, s, log) && Run(cfg, s, actions).Some?
    ensures LogInv(cfg, Run(cfg, s, actions).value, Answers(cfg, s, actions, log))
    decreases |actions|
  {
    if actions != [] {
      var next := Step(cfg, s, actions[0]).value;
      StepKeeps(cfg, s, actions[0], next);
      StepLog(cfg, s, actions[0], next, log);
      RunLog(cfg, next, actions[1..], Noted(s, actions[0], log));
    }
  }

  lemma {:induction false} NothingCounted(log: Log, records: seq<Record>, k: nat, x: Metric)
    requires |log| == |records| && forall c :: 0 <= c < |records| ==> records[c].round == 0
    ensures RoundCount(log, records, k, x) == 0
  {
    if log != [] { NothingCounted(log[1..], records[1..], k, x); }
  }

  lemma InitLog(cfg: Config)
    requires ValidConfig(cfg)
    ensures LogInv(cfg, Init(cfg), NoAnswers(cfg))
  {
    var s, log := Init(cfg), NoAnswers(cfg);
    forall c: nat | c < |log| ensures ClientLog(s, log, c) {}
    forall k: nat, x ensures RoundCount(log, s.records, k, x) == 0 { NothingCounted(log, s.records, k, x); }
  }

  // ---------------------------------------------------------------- figures in the order of the answers

  /** The figures of the answers an action and a whole run give, in order. */
  function ServedNow(s: State, a: Action): seq<Metric> {
    if a.Serve? && a.response.Success? && a.index < |s.inflight| then [a.response.metric] else []
  }

  function Served(cfg: Config, s: State, actions: seq<Action>): seq<Metric>
    requires Run(cfg, s, actions).Some?
    decreases |actions|
  {
    if actions == [] then []
    else ServedNow(s, actions[0]) + Served(cfg, Step(cfg, s, actions[0]).value, actions[1..])
  }

  function MetricIn(r: Reply): seq<Metric> {
    if r.response.Success? then [r.response.metric] else []
  }

  function QueuedMetrics(q: seq<Reply>): seq<Metric> {
    if q == [] then [] else MetricIn(q[0]) + QueuedMetrics(q[1..])
  }

  /** The recorded figures, the one in the handler's hand and those still queued. */
  function Accounted(s: State): seq<Metric> {
    s.metrics + (if s.handler.Recording? then [s.handler.metric] else []) + QueuedMetrics(s.responses)
  }

  lemma {:induction false} QueuedMetricsAppend(q: seq<Reply>, r: Reply)
    ensures QueuedMetrics(q + [r]) == QueuedMetrics(q) + MetricIn(r)
  {
    var longer := q + [r];
    if q == [] {
      assert longer[1..] == [];
    } else {
      assert longer[0] == q[0] && longer[1..] == q[1..] + [r];
      QueuedMetricsAppend(q[1..], r);
      Regroup(MetricIn(q[0]), QueuedMetrics(q[1..]), MetricIn(r));
    }
  }

  lemma HandleAccounts(cfg: Config, s: State, s': State)
    requires HandleStep(cfg, s) == Some(s') && !s'.handler.HandlerDead?
    ensures Accounted(s') == Accounted(s)
  {
    match s.handler
    case Waiting =>
    case Recording(c, output, metric) => assert s'.metrics == s.metrics + [metric];
    case Asking(c, output) =>
    case _ => QuietHandle(cfg, s, s');
  }

  lemma ServeAccounts(cfg: Config, s: State, i: nat, response: Response, s': State)
    requires Step(cfg, s, Serve(i, response)) == Some(s')
    ensures Accounted(s') == Accounted(s) + ServedNow(s, Serve(i, response))
  {
    QueuedMetricsAppend(s.responses, Reply(s.inflight[i].client, response));
  }

  lemma StepAccounts(cfg: Config, s: State, a: Action, s': State)
    requires Step(cfg, s, a) == Some(s') && !s'.handler.HandlerDead?
    ensures Accounted(s') == Accounted(s) + ServedNow(s, a)
  {
    match a
    case Serve(i, response) => ServeAccounts(cfg, s, i, response, s');
    case Handle => HandleAccounts(cfg, s, s');
    case _ => QuietSender(cfg, s, a, s');
  }

  lemma {:induction false} RunAccounts(cfg: Config, s: State, actions: seq<Action>)
    requires Inv(cfg, s) && Run(cfg, s, actions).Some?
    ensures Accounted(Run(cfg, s, actions).value) == Accounted(s) + Served(cfg, s, actions)
    decreases |actions|
  {
    if actions != [] {
      var next := Step(cfg, s, actions[0]).value;
      StepKeeps(cfg, s, actions[0], next);
      StepAccounts(cfg, s, actions[0], next);
      RunAccounts(cfg, next, actions[1..]);
      Regroup(Accounted(s), ServedNow(s, actions[0]), Served(cfg, next, actions[1..]));
    }
  }

  // ---------------------------------------------------------------- follow-up questions

  /** How often a question was asked in the given turns of a client; its last turn asks nothing. */
  function AskedIn(turns: seq<Turn>, total: nat, q: Tokens): nat {
    if turns == [] then 0
    else
      AskedIn(turns[..|turns| - 1], total, q)
      + if |turns| < total && turns[|turns| - 1].followUp == q then 1 else 0
  }

  function Asked(turns: seq<seq<Turn>>, totals: seq<nat>, q: Tokens): nat {
    if turns == [] || totals == [] then 0 else AskedIn(turns[0], totals[0], q) + Asked(turns[1..], totals[1..], q)
  }

  /** Each sampled question is either still in the pool or was asked, and the pool is used up from its end. */
  ghost predicate QuestionInv(cfg: Config, s: State) {
    && s.pool <= cfg.questions
    && forall q :: multiset(s.pool)[q] + Asked(s.turns, cfg.totals, q) == multiset(cfg.questions)[q]
  }

  lemma {:induction false} AskedUpdate(turns: seq<seq<Turn>>, totals: seq<nat>, c: nat, t: Turn, q: Tokens)
    requires |turns| == |totals| && c < |turns|
    ensures Asked(turns[c := turns[c] + [t]], totals, q)
         == Asked(turns, totals, q) + if |turns[c]| + 1 < totals[c] && t.followUp == q then 1 else 0
  {
    var turns' := turns[c := turns[c] + [t]];
    if c == 0 {
      assert turns'[0][..|turns[0]|] == turns[0];
      assert turns'[1..] == turns[1..];
    } else {
      assert turns'[1..] == turns[1..][c - 1 := turns[1..][c - 1] + [t]];
      AskedUpdate(turns[1..], totals[1..], c - 1, t, q);
    }
  }

  lemma AskQuestion(cfg: Config, s: State, c: nat, output: Tokens)
    requires QuestionInv(cfg, s) && |s.turns| == |cfg.totals| == |s.records| && c < |s.turns|
    requires s.records[c].round == |s.turns[c]| + 1 && s.records[c].total == cfg.totals[c]
    requires !AskStep(cfg, s, c, output).handler.HandlerDead?
    ensures QuestionInv(cfg, AskStep(cfg, s, c, output))
  {
    var s' := AskStep(cfg, s, c, output);
    if s.records[c].round < s.records[c].total {
      assert s.pool == s'.pool + [s.pool[|s.pool| - 1]];
    }
    forall q ensures multiset(s'.pool)[q] + Asked(s'.turns, cfg.totals, q) == multiset(cfg.questions)[q] {
      AskedUpdate(s.turns, cfg.totals, c, s'.turns[c][|s.turns[c]|], q);
    }
  }

  lemma HandleQuestion(cfg: Config, s: State, s': State)
    requires HandleStep(cfg, s) == Some(s') && !s.handler.Asking?
    ensures s'.pool == s.pool && s'.turns == s.turns
  {
    if !s.handler.Waiting? && !s.handler.Recording? { QuietHandle(cfg, s, s'); }
  }

  lemma AskingQuestion(cfg: Config, s: State, s': State)
    requires Inv(cfg, s) && QuestionInv(cfg, s) && HandleStep(cfg, s) == Some(s') && s.handler.Asking?
    ensures QuestionInv(cfg, s')
  {
    HandleKeeps(cfg, s, s');
    assert TranscriptOf(cfg, s, s.handler.client);
    AskQuestion(cfg, s, s.handler.client, s.handler.output);
  }

  lemma StepQuestion(cfg: Config, s: State, a: Action, s': State)
    requires Inv(cfg, s) && QuestionInv(cfg, s) && Step(cfg, s, a) == Some(s')
    ensures QuestionInv(cfg, s')
  {
    if a.Handle? && s.handler.Asking? {
      AskingQuestion(cfg, s, s');
    } else if a.Handle? {
      HandleQuestion(cfg, s, s');
    } else if !a.Serve? {
      QuietSender(cfg, s, a, s');
    }
  }

  lemma {:induction false} RunQuestion(cfg: Config, s: State, actions: seq<Action>)
    requires Inv(cfg, s) && QuestionInv(cfg, s) && Run(cfg, s, actions).Some?
    ensures QuestionInv(cfg, Run(cfg, s, actions).value)
    decreases |actions|
  {
    if actions != [] {
      var next := Step(cfg, s, actions[0]).value;
      StepKeeps(cfg, s, actions[0], next);
      StepQuestion(cfg, s, actions[0], next);
      RunQuestion(cfg, next, actions[1..]);
    }
  }

  lemma {:induction false} NothingAsked(turns: seq<seq<Turn>>, totals: seq<nat>, q: Tokens)
    requires forall c :: 0 <= c < |turns| ==> turns[c] == []
    ensures Asked(turns, totals, q) == 0
  {
    if turns != [] && totals != [] { NothingAsked(turns[1..], totals[1..], q); }
  }

  // ---------------------------------------------------------------- theorems

  /** In every run from the start, what the server answered is what is recorded:
      each client's replies are its answers in order, those not yet recorded are the pending ones, the
      figures are those of all answers in order, and round k of the barrier has the figures of the answers
      number k. */
  lemma AnswersAreRecorded(cfg: Config, actions: seq<Action>, s: State)
    requires ValidConfig(cfg) && Run(cfg, Init(cfg), actions) == Some(s)
    ensures var log := Answers(cfg, Init(cfg), actions, NoAnswers(cfg));
            && TalkLog(s, log) && MetricLog(cfg, s, log)
    ensures Accounted(s) == Served(cfg, Init(cfg), actions)
  {
    InitInv(cfg);
    InitLog(cfg);
    RunLog(cfg, Init(cfg), actions, NoAnswers(cfg));
    RunAccounts(cfg, Init(cfg), actions);
  }

  /** In every reachable state the questions asked are those missing from the pool, which loses its last first. */
  lemma QuestionsAreAsked(cfg: Config, s: State)
    requires Reachable(cfg, s)
    ensures QuestionInv(cfg, s)
  {
    var actions :| Run(cfg, Init(cfg), actions) == Some(s);
    InitInv(cfg);
    forall q ensures Asked(Init(cfg).turns, cfg.totals, q) == 0 { NothingAsked(Init(cfg).turns, cfg.totals, q); }
    RunQuestion(cfg, Init(cfg), actions);
  }

  /** The prompt of any waiting request is the first prompt followed by the server's own answers to that
      client, all of them and in order, each with the question asked after it. */
  lemma PromptFromAnswers(cfg: Config, actions: seq<Action>, s: State, r: Request)
    requires ValidConfig(cfg) && Run(cfg, Init(cfg), actions) == Some(s) && Waits(s, r)
    ensures r.client < |s.turns| == |cfg.totals| == |cfg.firstPrompts|
    ensures var answers := Answers(cfg, Init(cfg), actions, NoAnswers(cfg));
            && |answers| == |cfg.totals| && |answers[r.client]| == |s.turns[r.client]|
            && (forall j :: 0 <= j < |s.turns[r.client]| ==>
                  s.turns[r.client][j].reply == answers[r.client][j].output)
            && r.prompt == Conversation(cfg.firstPrompts[r.client], s.turns[r.client])
  {
    var c, log := r.client, Answers(cfg, Init(cfg), actions, NoAnswers(cfg));
    AnswersAreRecorded(cfg, actions, s);
    ReachableInv(cfg, s);
    PromptIsConversation(cfg, s, r);
    WaitsCounts(s, r);
    NothingPending(cfg, s, c);
    assert ClientLog(s, log, c);
    forall j | 0 <= j < |s.turns[c]| ensures s.turns[c][j].reply == log[c][j].output {
      assert Told(s, c)[j] == s.turns[c][j].reply && Outputs(log[c][..|s.turns[c]|])[j] == log[c][j].output;
    }
  }

  /** The next round's prompt is the earlier prompt, then the server's answer to it, then the question. */
  lemma NextPrompt(cfg: Config, before: seq<Action>, s: State, actions: seq<Action>, r: Request, r': Request)
    requires ValidConfig(cfg) && Run(cfg, Init(cfg), before) == Some(s) && Run(cfg, s, actions).Some?
    requires Waits(s, r) && Waits(Run(cfg, s, actions).value, r') && r.client == r'.client
    ensures var s' := Run(cfg, s, actions).value;
            && Run(cfg, Init(cfg), before + actions) == Some(s')
            && var answers := Answers(cfg, Init(cfg), before + actions, NoAnswers(cfg));
            && r.client < |s.turns| == |s'.turns| == |answers|
            && |answers[r.client]| == |s'.turns[r.client]|
            && (|s'.turns[r.client]| == |s.turns[r.client]| + 1 ==>
                  var k := |s.turns[r.client]|;
                  r'.prompt == r.prompt + answers[r.client][k].output + s'.turns[r.client][k].followUp)
  {
    RunAppend(cfg, Init(cfg), before, actions);
    PromptIsConversation(cfg, s, r);
    PromptsExtend(cfg, s, actions, r, r');
    PromptFromAnswers(cfg, before + actions, Run(cfg, s, actions).value, r');
  }

  /** A client whose request waits has no answer pending. */
  lemma NothingPending(cfg: Config, s: State, c: nat)
    requires Inv(cfg, s) && Queued(s.ready, c) + Queued(s.inflight, c) + Queued(HeldBack(s), c)
                            + (if s.sender.Launching? && s.sender.request.client == c then 1 else 0) >= 1
    ensures Pending(s, c) == []
  {
    assert Outstanding(s, c) == if Live(s, c) then 1 else 0;
    NoneReplied(s.responses, c);
  }

  // ---------------------------------------------------------------- the ready queue

  /** The request a pop takes, if it takes one. */
  function Taken(a: Action, next: State): seq<Request> {
    if a.Pop? && next.sender.Launching? then [next.sender.request] else []
  }

  /** The requests the sender takes from the ready queue along a run, in order. */
  function Popped(cfg: Config, s: State, actions: seq<Action>): seq<Request>
    requires Run(cfg, s, actions).Some?
    decreases |actions|
  {
    if actions == [] then []
    else
      var next := Step(cfg, s, actions[0]).value;
      Taken(actions[0], next) + Popped(cfg, next, actions[1..])
  }

  lemma HandleReady(cfg: Config, s: State, s': State)
    requires HandleStep(cfg, s) == Some(s')
    ensures s.ready <= s'.ready
  {
  }

  lemma WithoutOne(q: seq<Request>, i: nat)
    requires i < |q|
    ensures multiset(q) == multiset([q[i]]) + multiset(Without(q, i))
    ensures i == 0 ==> q == [q[0]] + Without(q, 0)
  {
    assert q == q[..i] + [q[i]] + q[i + 1..];
  }

  lemma PopReady(cfg: Config, s: State, choice: nat, s': State)
    requires PopStep(cfg, s, choice) == Some(s')
    ensures multiset(s.ready) == multiset(Taken(Pop(choice), s')) + multiset(s'.ready)
    ensures cfg.policy == Fifo ==> s.ready == Taken(Pop(choice), s') + s'.ready
  {
    if s'.sender.Launching? { WithoutOne(s.ready, if cfg.policy == Fifo then 0 else choice); }
  }

  lemma StepReady(cfg: Config, s: State, a: Action, s': State)
    requires Step(cfg, s, a) == Some(s')
    ensures multiset(s.ready) <= multiset(Taken(a, s')) + multiset(s'.ready)
    ensures cfg.policy == Fifo ==> s.ready <= Taken(a, s') + s'.ready
  {
    if a.Pop? {
      PopReady(cfg, s, a.choice, s');
    } else if a.Handle? {
      HandleReady(cfg, s, s');
      assert s'.ready == s.ready + s'.ready[|s.ready|..];
    }
  }

  /** Under fifo, requests leave the ready queue in the order in which they stand in it. */
  lemma {:induction false} FifoOrder(cfg: Config, s: State, actions: seq<Action>)
    requires cfg.policy == Fifo && Run(cfg, s, actions).Some?
    ensures s.ready <= Popped(cfg, s, actions) + Run(cfg, s, actions).value.ready
    decreases |actions|
  {
    if actions != [] {
      var next := Step(cfg, s, actions[0]).value;
      StepReady(cfg, s, actions[0], next);
      FifoOrder(cfg, next, actions[1..]);
      Regroup(Taken(actions[0], next), Popped(cfg, next, actions[1..]), Run(cfg, s, actions).value.ready);
    }
  }

  /** Under either policy no request is lost: it has been taken or is still in the queue. */
  lemma {:induction false} NoneLost(cfg: Config, s: State, actions: seq<Action>)
    requires Run(cfg, s, actions).Some?
    ensures multiset(s.ready) <= multiset(Popped(cfg, s, actions)) + multiset(Run(cfg, s, actions).value.ready)
    decreases |actions|
  {
    if actions != [] {
      var next := Step(cfg, s, actions[0]).value;
      StepReady(cfg, s, actions[0], next);
      NoneLost(cfg, next, actions[1..]);
    }
  }
}
