/** What the benchmark promises, proved of every reachable state and every run. */
module WorkloadTheorems {
  import opened Wrappers
  import opened Workload
  import opened WorkloadInvariant

  ghost predicate Reachable(cfg: Config, s: State) {
    ValidConfig(cfg) && exists actions :: Run(cfg, Init(cfg), actions) == Some(s)
  }

  lemma ReachableInv(cfg: Config, s: State)
    requires Reachable(cfg, s)
    ensures Inv(cfg, s)
  {
    var actions :| Run(cfg, Init(cfg), actions) == Some(s);
    InitInv(cfg);
    RunKeeps(cfg, Init(cfg), actions);
  }

  // ---------------------------------------------------------------- safety

  /** With the barrier on, whatever has left the barrier belongs to the open round, whatever is held
      back to the next one, and client c's round r + 1 is out only if every client d with more
      than r rounds has finished round r. */
  lemma BarrierSafety(cfg: Config, s: State, c: nat, d: nat)
    requires Reachable(cfg, s) && cfg.barrier && c < |cfg.totals| && d < |cfg.totals|
    ensures |s.records| == |cfg.totals|
    ensures Released(s, c) > 0 ==> s.records[c].round == OpenRound(s)
    ensures Queued(HeldBack(s), c) > 0 ==> s.records[c].round == s.barrierRound + 1
    ensures Released(s, c) > 0 && cfg.totals[d] >= s.records[c].round ==> s.records[d].round >= s.records[c].round
  {
    ReachableInv(cfg, s);
    BarrierCounts(cfg, s);
  }

  /** No more than `maxParallel` requests are open, and a client never has two turns anywhere. */
  lemma ConcurrencyBound(cfg: Config, s: State, c: nat)
    requires Reachable(cfg, s)
    ensures 0 <= s.sent - s.completed <= (if cfg.maxParallel > 0 then cfg.maxParallel else 0)
    ensures s.sent - s.completed == |s.inflight| + |s.responses| + Uncounted(s)
    ensures Outstanding(s, c) <= 1
  {
    ReachableInv(cfg, s);
    assert Outstanding(s, c) == if Live(s, c) then 1 else 0;
  }

  /** The follow-up pool never runs dry and no per-round metric is missing, so the handler never raises. */
  lemma HandlerNeverDies(cfg: Config, s: State)
    requires Reachable(cfg, s)
    ensures s.handler != HandlerDead
    ensures Remaining(s.records) <= |s.pool|
    ensures s.handler.Asking? ==>
              s.handler.client < |s.records| && (Owed(s, s.handler.client) == 1 ==> Remaining(s.records) < |s.pool|)
  {
    ReachableInv(cfg, s);
  }

  lemma {:induction false} RoundsTally(totals: seq<nat>, n: nat)
    requires totals != []
    ensures Sum(ClientsPerRound(totals, n))
            == Sum(ClientsPerRound(totals[1..], n)) + (if totals[0] < n then totals[0] else n)
  {
    if n > 0 {
      RoundsTally(totals, n - 1);
      SumLast(ClientsPerRound(totals, n));
      SumLast(ClientsPerRound(totals[1..], n));
      assert ClientsPerRound(totals, n)[..n - 1] == ClientsPerRound(totals, n - 1);
      assert ClientsPerRound(totals[1..], n)[..n - 1] == ClientsPerRound(totals[1..], n - 1);
    } else {
      assert ClientsPerRound(totals, 0) == [] && ClientsPerRound(totals[1..], 0) == [];
    }
  }

  lemma {:induction false} SumLast(xs: seq<nat>)
    requires xs != []
    ensures Sum(xs) == Sum(xs[..|xs| - 1]) + xs[|xs| - 1]
  {
    if |xs| > 1 {
      SumLast(xs[1..]);
      assert xs[1..][..|xs| - 2] == xs[..|xs| - 1][1..];
    }
  }

  lemma {:induction false} SumZero(xs: seq<nat>)
    requires forall i :: 0 <= i < |xs| ==> xs[i] == 0
    ensures Sum(xs) == 0
  {
    if xs != [] { SumZero(xs[1..]); }
  }

  /** Counting requests by round or by client gives the same total. */
  lemma {:induction false} RequestsByRound(totals: seq<nat>, maxRounds: nat)
    requires forall c :: 0 <= c < |totals| ==> totals[c] <= maxRounds
    ensures Sum(ClientsPerRound(totals, maxRounds)) == Sum(totals)
  {
    if totals == [] {
      SumZero(ClientsPerRound(totals, maxRounds));
    } else {
      RoundsTally(totals, maxRounds);
      RequestsByRound(totals[1..], maxRounds);
    }
  }

  // ---------------------------------------------------------------- conversations

  ghost predicate Waits(s: State, r: Request) {
    r in s.ready || r in s.inflight || r in HeldBack(s) || s.sender == Launching(r)
  }

  /** Every waiting prompt is exactly the conversation so far, although the list behind it is shared. */
  lemma PromptIsConversation(cfg: Config, s: State, r: Request)
    requires Reachable(cfg, s) && Waits(s, r)
    ensures r.client < |s.records| && |s.turns| == |cfg.firstPrompts| == |s.records|
    ensures s.records[r.client].round == |s.turns[r.client]|
    ensures r.prompt == Conversation(cfg.firstPrompts[r.client], s.turns[r.client])
  {
    ReachableInv(cfg, s);
    assert PromptMatches(s.records, r);
    var c := r.client;
    WaitsCounts(s, r);
    assert Outstanding(s, c) == if Live(s, c) then 1 else 0;
    assert TranscriptOf(cfg, s, c);
  }

  lemma WaitsCounts(s: State, r: Request)
    requires Waits(s, r)
    ensures Queued(s.ready, r.client) + Queued(s.inflight, r.client) + Queued(HeldBack(s), r.client)
            + (if s.sender == Launching(r) then 1 else 0) > 0
  {
    if r in s.ready {
      var i :| 0 <= i < |s.ready| && s.ready[i] == r;
      QueuedMember(s.ready, i);
    } else if r in s.inflight {
      var i :| 0 <= i < |s.inflight| && s.inflight[i] == r;
      QueuedMember(s.inflight, i);
    } else if r in HeldBack(s) {
      var i :| 0 <= i < |HeldBack(s)| && HeldBack(s)[i] == r;
      QueuedMember(HeldBack(s), i);
    }
  }

  /** Only the handler writes records, and only while it holds that client's reply or owes it a question. */
  lemma RecordWriter(cfg: Config, s: State, a: Action, s': State, c: nat)
    requires Step(cfg, s, a) == Some(s') && c < |s.records|
    ensures |s'.records| == |s.records|
    ensures s'.records[c] == s.records[c] || Owed(s, c) == 1 || (s.handler.Recording? && s.handler.client == c)
  {}

  /** No thread changes a client's record while a request of that client waits for its reply. */
  lemma HistoryFrozen(cfg: Config, s: State, a: Action, s': State, r: Request)
    requires Reachable(cfg, s) && Step(cfg, s, a) == Some(s') && Waits(s, r)
    ensures r.client < |s.records| == |s'.records|
    ensures s'.records[r.client] == s.records[r.client]
  {
    WaitsCounts(s, r);
    ConcurrencyBound(cfg, s, r.client);
    PromptIsConversation(cfg, s, r);
    RecordWriter(cfg, s, a, s', r.client);
  }

  lemma StepTurns(cfg: Config, s: State, a: Action, s': State, c: nat)
    requires Step(cfg, s, a) == Some(s') && c < |s.turns|
    ensures c < |s'.turns| && s.turns[c] <= s'.turns[c]
  {}

  lemma {:induction false} TurnsGrow(cfg: Config, s: State, actions: seq<Action>, c: nat)
    requires Run(cfg, s, actions).Some? && c < |s.turns|
    ensures c < |Run(cfg, s, actions).value.turns| && s.turns[c] <= Run(cfg, s, actions).value.turns[c]
    decreases |actions|
  {
    if actions != [] {
      var next := Step(cfg, s, actions[0]).value;
      StepTurns(cfg, s, actions[0], next, c);
      TurnsGrow(cfg, next, actions[1..], c);
    }
  }

  lemma RunAppend(cfg: Config, s: State, first: seq<Action>, second: seq<Action>)
    requires Run(cfg, s, first).Some?
    ensures Run(cfg, s, first + second) == Run(cfg, Run(cfg, s, first).value, second)
    decreases |first|
  {
    if first == [] {
      assert first + second == second;
    } else {
      assert (first + second)[1..] == first[1..] + second;
      RunAppend(cfg, Step(cfg, s, first[0]).value, first[1..], second);
    }
  }

  lemma {:induction false} ConversationGrows(first: Tokens, turns: seq<Turn>, k: nat)
    requires k <= |turns|
    ensures Conversation(first, turns[..k]) <= Conversation(first, turns)
    decreases |turns|
  {
    if k == |turns| {
      assert turns[..k] == turns;
    } else {
      var n := |turns| - 1;
      assert turns[..n][..k] == turns[..k];
      ConversationGrows(first, turns[..n], k);
    }
  }

  /** In one run, a later prompt of the same client extends an earlier one; the very next round's
      prompt is the earlier prompt, then the reply to it, then the follow-up question. */
  lemma PromptsExtend(cfg: Config, s: State, actions: seq<Action>, r: Request, r': Request)
    requires Reachable(cfg, s) && Run(cfg, s, actions).Some?
    requires Waits(s, r) && Waits(Run(cfg, s, actions).value, r') && r.client == r'.client
    ensures var s' := Run(cfg, s, actions).value;
            && r.prompt <= r'.prompt
            && r.client < |s.records| == |s'.records| == |s'.turns|
            && s.records[r.client].round <= s'.records[r.client].round == |s'.turns[r.client]|
            && (s'.records[r.client].round == s.records[r.client].round + 1 ==>
                  var turn := s'.turns[r.client][s.records[r.client].round];
                  r'.prompt == r.prompt + turn.reply + turn.followUp)
  {
    var s', c := Run(cfg, s, actions).value, r.client;
    var before :| Run(cfg, Init(cfg), before) == Some(s);
    RunAppend(cfg, Init(cfg), before, actions);
    PromptIsConversation(cfg, s, r);
    PromptIsConversation(cfg, s', r');
    TurnsGrow(cfg, s, actions, c);
    var k := |s.turns[c]|;
    assert s'.turns[c][..k] == s.turns[c];
    ConversationGrows(cfg.firstPrompts[c], s'.turns[c], k);
  }

  // ---------------------------------------------------------------- progress

  function RoundsLeft(records: seq<Record>): nat {
    if records == [] then 0
    else (if records[0].round < records[0].total then records[0].total - records[0].round else 0)
         + RoundsLeft(records[1..])
  }

  /** A sender about to pop from an empty queue is still polling, as when it checks. */
  function SenderWork(sender: Sender, waiting: bool): nat {
    match sender
    case Checking => 2
    case Popping => if waiting then 1 else 2
    case Launching(_) => 7
    case SenderDead => 0
  }

  function HandlerWork(handler: Handler): nat {
    match handler
    case Waiting => 0
    case Dropping => 1
    case Recording(_, _, _) => 2
    case Counting(_, _) => 16
    case Asking(_, _) => 15
    case AtBarrier => 5
    case Releasing(_) => 1
    case HandlerDead => 0
  }

  /** An upper bound on the work still ahead. */
  function Measure(s: State): nat {
    20 * RoundsLeft(s.records) + 9 * |HeldBack(s)| + 8 * |s.ready| + 4 * |s.inflight| + 3 * |s.responses|
    + SenderWork(s.sender, s.ready != []) + HandlerWork(s.handler)
  }

  /** The sender polling with nothing to send or no room to send it. */
  predicate Idle(cfg: Config, s: State, a: Action) {
    || (a.Check? && (s.ready == [] || s.sent - s.completed >= cfg.maxParallel))
    || (a.Pop? && s.ready == [])
  }

  lemma {:induction false} RoundsLeftUpdate(records: seq<Record>, c: nat, r: Record)
    requires c < |records| && r.total == records[c].total
    ensures r.round == records[c].round ==> RoundsLeft(records[c := r]) == RoundsLeft(records)
    ensures r.round == records[c].round + 1 <= r.total ==> RoundsLeft(records[c := r]) == RoundsLeft(records) - 1
  {
    if c > 0 {
      assert records[c := r][1..] == records[1..][c - 1 := r];
      RoundsLeftUpdate(records[1..], c - 1, r);
    } else {
      assert records[c := r][1..] == records[1..];
    }
  }

  lemma RecordMeasure(cfg: Config, s: State, c: nat, output: Tokens, metric: Metric)
    requires s.handler == Recording(c, output, metric) && Live(s, c)
    requires !RecordStep(cfg, s, c, output, metric).handler.HandlerDead?
    ensures Measure(RecordStep(cfg, s, c, output, metric)) < Measure(s)
  {
    RoundsLeftUpdate(s.records, c, RecordStep(cfg, s, c, output, metric).records[c]);
  }

  lemma AskMeasure(cfg: Config, s: State, c: nat, output: Tokens)
    requires s.handler == Asking(c, output) && !AskStep(cfg, s, c, output).handler.HandlerDead?
    ensures Measure(AskStep(cfg, s, c, output)) < Measure(s)
  {
    RoundsLeftUpdate(s.records, c, AskStep(cfg, s, c, output).records[c]);
  }

  lemma ReleaseMeasure(s: State, i: nat)
    requires s.handler == Releasing(i) && i <= |s.held|
    ensures Measure(ReleaseStep(s, i)) < Measure(s)
  {}

  lemma HandleMeasure(cfg: Config, s: State, s': State)
    requires HandleStep(cfg, s) == Some(s') && !s.handler.HandlerDead? && !s'.handler.HandlerDead?
    requires s.handler.Releasing? ==> s.handler.next <= |s.held|
    requires s.handler.Recording? ==> Live(s, s.handler.client)
    ensures Measure(s') < Measure(s)
  {
    match s.handler
    case Recording(c, output, metric) => RecordMeasure(cfg, s, c, output, metric);
    case Asking(c, output) => AskMeasure(cfg, s, c, output);
    case Releasing(i) => ReleaseMeasure(s, i);
    case _ =>
  }

  /** Every step that is not idle polling uses up some of the measure, and polling gives none back. */
  lemma StepMeasure(cfg: Config, s: State, a: Action, s': State)
    requires Inv(cfg, s) && Step(cfg, s, a) == Some(s')
    ensures if Idle(cfg, s, a) then Measure(s') <= Measure(s) else Measure(s') < Measure(s)
  {
    match a
    case Check => CheckMeasure(cfg, s, s');
    case Pop(choice) => PopMeasure(cfg, s, choice, s');
    case Launch => LaunchMeasure(cfg, s, s');
    case Serve(i, response) => ServeMeasure(cfg, s, i, response, s');
    case Handle =>
      StepKeeps(cfg, s, a, s');
      if s.handler.Recording? { assert Outstanding(s, s.handler.client) > 0; }
      HandleMeasure(cfg, s, s');
  }

  lemma CheckMeasure(cfg: Config, s: State, s': State)
    requires Step(cfg, s, Check) == Some(s')
    ensures if Idle(cfg, s, Check) then Measure(s') <= Measure(s) else Measure(s') < Measure(s)
  {}

  lemma PopMeasure(cfg: Config, s: State, choice: nat, s': State)
    requires PopStep(cfg, s, choice) == Some(s')
    ensures if s.ready == [] then Measure(s') <= Measure(s) else Measure(s') < Measure(s)
  {}

  lemma LaunchMeasure(cfg: Config, s: State, s': State)
    requires Step(cfg, s, Launch) == Some(s')
    ensures Measure(s') < Measure(s)
  {}

  lemma ServeMeasure(cfg: Config, s: State, i: nat, response: Response, s': State)
    requires Step(cfg, s, Serve(i, response)) == Some(s')
    ensures Measure(s') < Measure(s)
  {}

  function IdleCount(cfg: Config, s: State, actions: seq<Action>): nat
    requires Run(cfg, s, actions).Some?
    decreases |actions|
  {
    if actions == [] then 0
    else (if Idle(cfg, s, actions[0]) then 1 else 0)
         + IdleCount(cfg, Step(cfg, s, actions[0]).value, actions[1..])
  }

  /** However long a run polls, the number of its working steps is bounded by its first state. */
  lemma {:induction false} RunsAreBounded(cfg: Config, s: State, actions: seq<Action>)
    requires Inv(cfg, s) && Run(cfg, s, actions).Some?
    ensures |actions| - IdleCount(cfg, s, actions) <= Measure(s)
    decreases |actions|
  {
    if actions != [] {
      var next := Step(cfg, s, actions[0]).value;
      StepKeeps(cfg, s, actions[0], next);
      StepMeasure(cfg, s, actions[0], next);
      RunsAreBounded(cfg, next, actions[1..]);
    }
  }

  /** Nothing queued, in flight or in hand; only held-back requests may remain. */
  predicate Quiet(s: State) {
    s.ready == [] && s.inflight == [] && s.responses == [] && s.handler.Waiting? && !s.sender.Launching?
  }

  /** Some step other than polling and other than a server failure is enabled. */
  ghost predicate CanWork(cfg: Config, s: State) {
    exists a :: Step(cfg, s, a).Some? && !Idle(cfg, s, a) && !(a.Serve? && a.response.Failure?)
  }

  /** A working step is enabled exactly until the system is quiet. */
  lemma WorksUntilQuiet(cfg: Config, s: State)
    requires Reachable(cfg, s) && cfg.policy != Unsupported && cfg.maxParallel >= 1
    ensures CanWork(cfg, s) <==> !Quiet(s)
  {
    ReachableInv(cfg, s);
    if !Quiet(s) {
      var a :=
        if s.handler != Waiting || s.responses != [] then Handle
        else if s.inflight != [] then Serve(0, Success([], 0))
        else if s.sender.Launching? then Launch
        else if s.sender.Popping? then Pop(0)
        else Check;
      assert Step(cfg, s, a).Some? && !Idle(cfg, s, a) && !(a.Serve? && a.response.Failure?);
    } else {
      forall a | Step(cfg, s, a).Some? ensures Idle(cfg, s, a) {}
    }
  }

  /** Under the barrier, a client held back for ever waits for one that was dropped in the open round. */
  lemma HeldBehindDropped(cfg: Config, s: State, d: nat) returns (c: nat)
    requires Inv(cfg, s) && Quiet(s) && cfg.barrier && Live(s, d)
    ensures c in s.dropped && c < |s.records| && s.records[c].round + 1 == s.records[d].round < cfg.totals[d]
  {
    var rounds, b := Rounds(s.records), s.barrierRound;
    assert Outstanding(s, d) == 1;
    if forall c <- s.dropped :: s.records[c].round != b {
      forall e | 0 <= e < |rounds| && cfg.totals[e] > b ensures rounds[e] > b {
        assert Outstanding(s, e) == if Live(s, e) then 1 else 0;
      }
      CountAboveMonotone(cfg.totals, rounds, b);
      BarrierCounts(cfg, s);
      CountAboveZero(cfg.totals, b);
    }
    c :| c in s.dropped && s.records[c].round == b;
  }

  /** Once the system is quiet a client has done all its rounds exactly when no request of its own failed and,
      under the barrier, no other client failed more than one round before the end of its rounds. */
  lemma QuietMeansDone(cfg: Config, s: State, d: nat)
    requires Inv(cfg, s) && Quiet(s) && d < |s.records|
    ensures s.records[d].round == cfg.totals[d]
       <==> d !in s.dropped
            && (cfg.barrier ==> forall c <- s.dropped :: c < |s.records| && cfg.totals[d] <= s.records[c].round + 1)
  {
    assert Outstanding(s, d) == if Live(s, d) then 1 else 0;
    if cfg.barrier && Live(s, d) {
      var c := HeldBehindDropped(cfg, s, d);
    }
  }

  lemma {:induction false} SumMonotone(xs: seq<nat>, ys: seq<nat>)
    requires |xs| == |ys| && forall i :: 0 <= i < |xs| ==> xs[i] <= ys[i]
    ensures Sum(xs) <= Sum(ys)
    ensures Sum(xs) == Sum(ys) <==> xs == ys
  {
    if xs != [] {
      SumMonotone(xs[1..], ys[1..]);
      assert xs == [xs[0]] + xs[1..] && ys == [ys[0]] + ys[1..];
    }
  }

  /** Clients with a failed reply waiting for the handler. */
  function FailedReplies(q: seq<Reply>): set<nat> {
    if q == [] then {}
    else FailedReplies(q[1..]) + if q[0].response.Failure? then {q[0].client} else {}
  }

  lemma {:induction false} FailedAppend(q: seq<Reply>, r: Reply)
    ensures FailedReplies(q + [r]) == FailedReplies(q) + if r.response.Failure? then {r.client} else {}
  {
    if q == [] {
      assert (q + [r])[1..] == [];
    } else {
      FailedAppend(q[1..], r);
      assert (q + [r])[1..] == q[1..] + [r];
    }
  }

  predicate ServesFailure(a: Action) {
    a.Serve? && a.response.Failure?
  }

  /** The client whose request the server fails in this step. */
  function FailsNow(s: State, a: Action): set<nat> {
    if ServesFailure(a) && a.index < |s.inflight| then {s.inflight[a.index].client} else {}
  }

  /** The clients whose requests the server fails along the run. */
  function Failures(cfg: Config, s: State, actions: seq<Action>): set<nat>
    requires Run(cfg, s, actions).Some?
    decreases |actions|
  {
    if actions == [] then {}
    else FailsNow(s, actions[0]) + Failures(cfg, Step(cfg, s, actions[0]).value, actions[1..])
  }

  /** Dropped already, or about to be. */
  function Doomed(s: State): set<nat> {
    s.dropped + FailedReplies(s.responses)
  }

  lemma StepDooms(cfg: Config, s: State, a: Action, s': State)
    requires Step(cfg, s, a) == Some(s')
    ensures Doomed(s') == Doomed(s) + FailsNow(s, a)
  {
    if a.Serve? {
      FailedAppend(s.responses, Reply(s.inflight[a.index].client, a.response));
    }
  }

  /** Exactly the clients whose requests the server fails are dropped, none of them lost on the way. */
  lemma {:induction false} RunDooms(cfg: Config, s: State, actions: seq<Action>)
    requires Run(cfg, s, actions).Some?
    ensures Doomed(Run(cfg, s, actions).value) == Doomed(s) + Failures(cfg, s, actions)
    decreases |actions|
  {
    if actions != [] {
      var next := Step(cfg, s, actions[0]).value;
      StepDooms(cfg, s, actions[0], next);
      RunDooms(cfg, next, actions[1..]);
    }
  }

  lemma {:induction false} NoFailures(cfg: Config, s: State, actions: seq<Action>)
    requires Run(cfg, s, actions).Some?
    ensures Failures(cfg, s, actions) == {} <==> forall i :: 0 <= i < |actions| ==> !ServesFailure(actions[i])
    decreases |actions|
  {
    if actions != [] {
      NoFailures(cfg, Step(cfg, s, actions[0]).value, actions[1..]);
      if forall i :: 0 <= i < |actions| ==> !ServesFailure(actions[i]) {
        assert forall i :: 0 <= i < |actions[1..]| ==> !ServesFailure(actions[1..][i]);
      } else {
        var i :| 0 <= i < |actions| && ServesFailure(actions[i]);
        if i > 0 { assert ServesFailure(actions[1..][i - 1]); }
      }
    }
  }

  lemma QuietRun(cfg: Config, actions: seq<Action>, s: State)
    requires ValidConfig(cfg) && Run(cfg, Init(cfg), actions) == Some(s) && Quiet(s)
    ensures Inv(cfg, s) && s.dropped == Failures(cfg, Init(cfg), actions)
  {
    ReachableInv(cfg, s);
    RunDooms(cfg, Init(cfg), actions);
  }

  /** The failing client of this step, with the round it is in. */
  function FailsInRound(s: State, a: Action): set<(nat, nat)> {
    set c <- FailsNow(s, a) | c < |s.records| :: (c, s.records[c].round)
  }

  /** Who fails in which round along the run. */
  function FailedRounds(cfg: Config, s: State, actions: seq<Action>): set<(nat, nat)>
    requires Run(cfg, s, actions).Some?
    decreases |actions|
  {
    if actions == [] then {}
    else FailsInRound(s, actions[0]) + FailedRounds(cfg, Step(cfg, s, actions[0]).value, actions[1..])
  }

  lemma {:induction false} FailedIsReplied(q: seq<Reply>, c: nat)
    requires c in FailedReplies(q)
    ensures Replied(q, c) > 0
  {
    if c in FailedReplies(q[1..]) { FailedIsReplied(q[1..], c); }
  }

  /** A doomed client keeps its record. */
  lemma DoomedKeeps(cfg: Config, s: State, a: Action, s': State, c: nat)
    requires Inv(cfg, s) && Step(cfg, s, a) == Some(s') && c in Doomed(s)
    ensures c < |s.records| == |s'.records| && s'.records[c] == s.records[c] && c in Doomed(s')
  {
    StepDooms(cfg, s, a, s');
    if c in s.dropped {
      DroppedStays(cfg, s, a, s', c);
    } else {
      FailedIsReplied(s.responses, c);
      assert Outstanding(s, c) == if Live(s, c) then 1 else 0;
      RecordWriter(cfg, s, a, s', c);
    }
  }

  lemma {:induction false} DoomedKeepsOn(cfg: Config, s: State, actions: seq<Action>, c: nat)
    requires Inv(cfg, s) && Run(cfg, s, actions).Some? && c in Doomed(s)
    ensures var s' := Run(cfg, s, actions).value; c < |s.records| == |s'.records| && s'.records[c] == s.records[c]
    decreases |actions|
  {
    if actions == [] {
      FailingIsClient(cfg, s, c);
    } else {
      var next := Step(cfg, s, actions[0]).value;
      StepKeeps(cfg, s, actions[0], next);
      DoomedKeeps(cfg, s, actions[0], next, c);
      DoomedKeepsOn(cfg, next, actions[1..], c);
    }
  }

  lemma FailingIsClient(cfg: Config, s: State, c: nat)
    requires Inv(cfg, s) && c in Doomed(s)
    ensures c < |s.records|
  {
    if c !in s.dropped {
      FailedIsReplied(s.responses, c);
      assert Outstanding(s, c) == if Live(s, c) then 1 else 0;
    }
  }

  /** The pairs are the failed clients with the rounds they have completed. */
  ghost predicate Pairs(failed: set<nat>, pairs: set<(nat, nat)>, records: seq<Record>) {
    && (forall p <- pairs :: p.0 in failed && p.0 < |records| && records[p.0].round == p.1)
    && (forall c <- failed :: c < |records| && (c, records[c].round) in pairs)
  }

  lemma PairsJoin(f: set<nat>, p: set<(nat, nat)>, g: set<nat>, q: set<(nat, nat)>, records: seq<Record>)
    requires Pairs(f, p, records) && Pairs(g, q, records)
    ensures Pairs(f + g, p + q, records)
  {}

  /** The client that fails in the first step stays in its round. */
  lemma FirstPair(cfg: Config, s: State, actions: seq<Action>)
    requires Inv(cfg, s) && actions != [] && Run(cfg, s, actions).Some?
    ensures Pairs(FailsNow(s, actions[0]), FailsInRound(s, actions[0]), Run(cfg, s, actions).value.records)
  {
    var next := Step(cfg, s, actions[0]).value;
    var s' := Run(cfg, s, actions).value;
    forall c | c in FailsNow(s, actions[0])
      ensures c < |s.records| == |s'.records| && s'.records[c].round == s.records[c].round
    {
      StepKeeps(cfg, s, actions[0], next);
      StepDooms(cfg, s, actions[0], next);
      DoomedKeepsOn(cfg, next, actions[1..], c);
      assert next.records == s.records;
    }
  }

  /** The round a client fails in is the number of rounds it has completed when the run ends. */
  lemma {:induction false} FailsForGood(cfg: Config, s: State, actions: seq<Action>)
    requires Inv(cfg, s) && Run(cfg, s, actions).Some?
    ensures Pairs(Failures(cfg, s, actions), FailedRounds(cfg, s, actions), Run(cfg, s, actions).value.records)
    decreases |actions|
  {
    if actions != [] {
      var a, rest := actions[0], actions[1..];
      var next := Step(cfg, s, a).value;
      StepKeeps(cfg, s, a, next);
      FailsForGood(cfg, next, rest);
      FirstPair(cfg, s, actions);
      PairsJoin(FailsNow(s, a), FailsInRound(s, a), Failures(cfg, next, rest), FailedRounds(cfg, next, rest),
                Run(cfg, s, actions).value.records);
    }
  }

  lemma SameCondition(failed: set<nat>, pairs: set<(nat, nat)>, records: seq<Record>,
                      d: nat, rounds: nat, barrier: bool)
    requires Pairs(failed, pairs, records)
    ensures d !in failed && (barrier ==> forall c <- failed :: c < |records| && rounds <= records[c].round + 1)
       <==> forall p <- pairs :: p.0 != d && (barrier ==> rounds <= p.1 + 1)
  {
    if d in failed {
      assert (d, records[d].round) in pairs;
    } else if c :| c in failed && barrier && rounds > records[c].round + 1 {
      assert (c, records[c].round) in pairs;
    }
  }

  /** A run that has gone quiet: a client did all its rounds exactly when the server failed no request of its own
      and, under the barrier, none of any client in a round more than one before its last. */
  lemma ClientFinishes(cfg: Config, actions: seq<Action>, s: State, d: nat)
    requires ValidConfig(cfg) && Run(cfg, Init(cfg), actions) == Some(s) && Quiet(s) && d < |cfg.totals|
    ensures |s.records| == |cfg.totals|
    ensures s.records[d].round == cfg.totals[d]
       <==> forall p <- FailedRounds(cfg, Init(cfg), actions) ::
              p.0 != d && (cfg.barrier ==> cfg.totals[d] <= p.1 + 1)
  {
    QuietRun(cfg, actions, s);
    QuietMeansDone(cfg, s, d);
    InitInv(cfg);
    FailsForGood(cfg, Init(cfg), actions);
    SameCondition(s.dropped, FailedRounds(cfg, Init(cfg), actions), s.records, d, cfg.totals[d], cfg.barrier);
  }

  lemma AllRoundsIffNoneDropped(cfg: Config, s: State)
    requires Inv(cfg, s) && Quiet(s)
    ensures Rounds(s.records) == cfg.totals <==> s.dropped == {}
  {
    var rounds := Rounds(s.records);
    if s.dropped == {} {
      forall c | 0 <= c < |rounds| ensures rounds[c] == cfg.totals[c] { QuietMeansDone(cfg, s, c); }
    } else {
      var c :| c in s.dropped;
      assert rounds[c] < cfg.totals[c];
    }
  }

  /** When a run goes quiet, every request was answered and recorded if and only if the server failed none;
      then the counters and the per-round metrics are exactly the configured numbers. */
  lemma CompleteIffNoFailure(cfg: Config, actions: seq<Action>, s: State)
    requires ValidConfig(cfg) && Run(cfg, Init(cfg), actions) == Some(s) && Quiet(s)
    ensures |s.metrics| == Sum(cfg.totals) <==> forall i :: 0 <= i < |actions| ==> !ServesFailure(actions[i])
    ensures |s.metrics| == Sum(cfg.totals) ==> s.completed == s.sent == Sum(cfg.totals)
    ensures |s.metrics| == Sum(cfg.totals) && cfg.barrier ==>
              |s.roundMetrics| == cfg.maxRounds
              && forall k :: 0 <= k < cfg.maxRounds ==>
                   |s.roundMetrics[k]| == ClientsPerRound(cfg.totals, cfg.maxRounds)[k]
  {
    QuietRun(cfg, actions, s);
    NoFailures(cfg, Init(cfg), actions);
    AllRoundsIffNoneDropped(cfg, s);
    SumMonotone(Rounds(s.records), cfg.totals);
  }

  // ---------------------------------------------------------------- a failure under the barrier

  lemma DroppedStays(cfg: Config, s: State, a: Action, s': State, c: nat)
    requires Inv(cfg, s) && Step(cfg, s, a) == Some(s') && c in s.dropped
    ensures c in s'.dropped && c < |s.records| == |s'.records| && s'.records[c] == s.records[c]
  {
    NoTurnLeft(cfg, s, c);
    DroppedGrows(cfg, s, a, s');
    RecordWriter(cfg, s, a, s', c);
  }

  lemma DroppedGrows(cfg: Config, s: State, a: Action, s': State)
    requires Step(cfg, s, a) == Some(s')
    ensures s.dropped <= s'.dropped
  {}

  lemma NoTurnLeft(cfg: Config, s: State, c: nat)
    requires Inv(cfg, s) && c in s.dropped
    ensures c < |s.records| && Owed(s, c) == 0 && !(s.handler.Recording? && s.handler.client == c)
  {
    assert Outstanding(s, c) == if Live(s, c) then 1 else 0;
  }

  /** Under the barrier a failure limits everybody: after client c fails in round r, no client ever completes
      more than r + 1 rounds, however the run continues. */
  lemma {:induction false} FailureFreezesBarrier(cfg: Config, s: State, actions: seq<Action>, c: nat, d: nat)
    requires Inv(cfg, s) && cfg.barrier && c in s.dropped && d < |s.records|
    requires Run(cfg, s, actions).Some?
    ensures var s' := Run(cfg, s, actions).value;
            c < |s.records| == |s'.records| && s'.records[d].round <= s.records[c].round + 1
    decreases |actions|
  {
    if actions != [] {
      var next := Step(cfg, s, actions[0]).value;
      StepKeeps(cfg, s, actions[0], next);
      DroppedStays(cfg, s, actions[0], next, c);
      FailureFreezesBarrier(cfg, next, actions[1..], c, d);
    }
  }

  lemma ReachableStep(cfg: Config, s: State, a: Action) returns (s': State)
    requires Reachable(cfg, s) && Step(cfg, s, a).Some?
    ensures Step(cfg, s, a) == Some(s') && Reachable(cfg, s')
  {
    s' := Step(cfg, s, a).value;
    var actions :| Run(cfg, Init(cfg), actions) == Some(s);
    RunAppend(cfg, Init(cfg), actions, [a]);
    assert [a][1..] == [];
    assert Run(cfg, s, [a]) == Some(s');
  }

  const FrozenConfig := Config([2, 2], 2, 2, true, Fifo, [[1], [2]], [[3], [4]])

  /** Client 0's first request has failed; client 1's is still queued. */
  const AfterFailure := State(1, 1, [Request(1, [2])], [], [], [], [Record(0, [1], 2), Record(0, [2], 2)],
                              [[3], [4]], 0, 0, [], [[], []], Checking, Waiting, {0}, [[], []])

  /** Client 1's answer has arrived. */
  const AfterAnswer := AfterFailure.(sent := 2, ready := [], responses := [Reply(1, Success([7], 0))])

  lemma FirstFails()
    ensures Reachable(FrozenConfig, AfterFailure)
  {
    var cfg := FrozenConfig;
    assert FollowUps([2]) == 1 + FollowUps([]);
    var s := Init(cfg);
    assert Run(cfg, s, []) == Some(s);
    assert s.ready == [Request(0, [1]), Request(1, [2])];
    s := ReachableStep(cfg, s, Check);
    s := ReachableStep(cfg, s, Pop(0));
    s := ReachableStep(cfg, s, Launch);
    s := ReachableStep(cfg, s, Serve(0, Failure));
    s := ReachableStep(cfg, s, Handle);
    s := ReachableStep(cfg, s, Handle);
    assert s == AfterFailure;
  }

  lemma SecondAnswers()
    ensures Reachable(FrozenConfig, AfterAnswer)
  {
    var cfg := FrozenConfig;
    FirstFails();
    var s := ReachableStep(cfg, AfterFailure, Check);
    s := ReachableStep(cfg, s, Pop(0));
    s := ReachableStep(cfg, s, Launch);
    s := ReachableStep(cfg, s, Serve(0, Success([7], 0)));
    assert s == AfterAnswer;
  }

  /** Two clients of two rounds: client 0 fails at once, client 1 waits behind the barrier for ever. */
  lemma StuckBehindFailure() returns (s: State)
    ensures Reachable(FrozenConfig, s) && Quiet(s) && Live(s, 1)
    ensures s.held == [Request(1, [2, 7, 4])]
  {
    var cfg := FrozenConfig;
    SecondAnswers();
    assert CountAbove([2], 0) == 1 + CountAbove([], 0);
    s := ReachableStep(cfg, AfterAnswer, Handle);
    s := ReachableStep(cfg, s, Handle);
    assert s.records[1] == Record(1, [2, 7], 2);
    s := ReachableStep(cfg, s, Handle);
    s := ReachableStep(cfg, s, Handle);
    assert [2, 7] + [4] == [2, 7, 4];
    s := ReachableStep(cfg, s, Handle);
  }
}
