/** Every action of every thread keeps `Workload.Inv`, so it holds after every interleaving. */
module WorkloadInvariant {
  import opened Wrappers
  import opened Workload

  // ---------------------------------------------------------------- queues

  lemma {:induction false} QueuedAppend(q: seq<Request>, r: Request, c: nat)
    ensures Queued(q + [r], c) == Queued(q, c) + (if r.client == c then 1 else 0)
  {
    if q == [] {
      assert q + [r] == [r];
    } else {
      assert (q + [r])[1..] == q[1..] + [r];
      QueuedAppend(q[1..], r, c);
    }
  }

  lemma {:induction false} QueuedWithout(q: seq<Request>, i: nat, c: nat)
    requires i < |q|
    ensures Queued(Without(q, i), c) == Queued(q, c) - (if q[i].client == c then 1 else 0)
  {
    if i == 0 {
      assert Without(q, 0) == q[1..];
    } else {
      assert Without(q, i)[1..] == Without(q[1..], i - 1);
      QueuedWithout(q[1..], i - 1, c);
    }
  }

  lemma {:induction false} QueuedMember(q: seq<Request>, i: nat)
    requires i < |q|
    ensures Queued(q, q[i].client) > 0
  {
    if i > 0 { QueuedMember(q[1..], i - 1); }
  }

  lemma {:induction false} RepliedAppend(q: seq<Reply>, r: Reply, c: nat)
    ensures Replied(q + [r], c) == Replied(q, c) + (if r.client == c then 1 else 0)
  {
    if q == [] {
      assert q + [r] == [r];
    } else {
      assert (q + [r])[1..] == q[1..] + [r];
      RepliedAppend(q[1..], r, c);
    }
  }

  // ---------------------------------------------------------------- counting

  lemma {:induction false} SumUpdate(xs: seq<nat>, c: nat, v: nat)
    requires c < |xs|
    ensures Sum(xs[c := v]) == Sum(xs) - xs[c] + v
  {
    if c > 0 {
      assert xs[c := v][1..] == xs[1..][c - 1 := v];
      SumUpdate(xs[1..], c - 1, v);
    } else {
      assert xs[c := v][1..] == xs[1..];
    }
  }

  lemma {:induction false} CountAboveUpdate(xs: seq<nat>, c: nat, v: nat, k: nat)
    requires c < |xs|
    ensures CountAbove(xs[c := v], k)
            == CountAbove(xs, k) - (if xs[c] > k then 1 else 0) + (if v > k then 1 else 0)
  {
    if c > 0 {
      assert xs[c := v][1..] == xs[1..][c - 1 := v];
      CountAboveUpdate(xs[1..], c - 1, v, k);
    } else {
      assert xs[c := v][1..] == xs[1..];
    }
  }

  /** Fewer are above in `xs` than in `ys`; the counts agree only if the same ones are. */
  lemma {:induction false} CountAboveMonotone(xs: seq<nat>, ys: seq<nat>, k: nat)
    requires |xs| == |ys|
    requires forall i :: 0 <= i < |xs| && xs[i] > k ==> ys[i] > k
    ensures CountAbove(xs, k) <= CountAbove(ys, k)
    ensures CountAbove(xs, k) == CountAbove(ys, k) ==> forall i :: 0 <= i < |xs| && ys[i] > k ==> xs[i] > k
  {
    if xs != [] {
      CountAboveMonotone(xs[1..], ys[1..], k);
      if CountAbove(xs, k) == CountAbove(ys, k) {
        forall i | 0 <= i < |xs| && ys[i] > k ensures xs[i] > k {
          if i > 0 { assert ys[i] == ys[1..][i - 1] && xs[i] == xs[1..][i - 1]; }
        }
      }
    }
  }

  lemma {:induction false} CountAboveZero(xs: seq<nat>, k: nat)
    ensures CountAbove(xs, k) == 0 <==> forall i :: 0 <= i < |xs| ==> xs[i] <= k
  {
    if xs != [] {
      CountAboveZero(xs[1..], k);
      assert forall i :: 1 <= i < |xs| ==> xs[i] == xs[1..][i - 1];
      if forall i :: 0 <= i < |xs| ==> xs[i] <= k {
        forall i | 0 <= i < |xs[1..]| ensures xs[1..][i] <= k { assert xs[1..][i] == xs[i + 1]; }
      }
    }
  }

  lemma {:induction false} RemainingUpdate(records: seq<Record>, c: nat, r: Record)
    requires c < |records| && r.total == records[c].total
    ensures r.round == records[c].round ==> Remaining(records[c := r]) == Remaining(records)
    ensures r.round == records[c].round + 1 <= r.total ==>
              Remaining(records[c := r]) == Remaining(records) - (if r.round < r.total then 1 else 0)
  {
    if c > 0 {
      assert records[c := r][1..] == records[1..][c - 1 := r];
      RemainingUpdate(records[1..], c - 1, r);
    } else {
      assert records[c := r][1..] == records[1..];
    }
  }

  lemma RoundsUpdate(records: seq<Record>, c: nat, r: Record)
    requires c < |records|
    ensures Rounds(records[c := r]) == Rounds(records)[c := r.round]
  {}

  // ---------------------------------------------------------------- the initial state

  lemma {:induction false} InitRemaining(records: seq<Record>, totals: seq<nat>)
    requires |records| == |totals|
    requires forall c :: 0 <= c < |totals| ==> records[c].round == 0 && records[c].total == totals[c]
    ensures Remaining(records) == FollowUps(totals)
    ensures Sum(Rounds(records)) == 0
  {
    if totals != [] {
      InitRemaining(records[1..], totals[1..]);
      assert Rounds(records)[1..] == Rounds(records[1..]);
    }
  }

  lemma {:induction false} QueuedOnce(q: seq<Request>, k: nat, c: nat)
    requires forall i :: 0 <= i < |q| ==> q[i].client == k + i
    ensures Queued(q, c) == if k <= c < k + |q| then 1 else 0
  {
    if q != [] { QueuedOnce(q[1..], k + 1, c); }
  }

  lemma InitInv(cfg: Config)
    requires ValidConfig(cfg)
    ensures Inv(cfg, Init(cfg))
  {
    var s := Init(cfg);
    forall c: nat ensures Outstanding(s, c) == if Live(s, c) then 1 else 0 { QueuedOnce(s.ready, 0, c); }
    InitRemaining(s.records, cfg.totals);
    forall k: nat ensures CountAbove(Rounds(s.records), k) == 0 { CountAboveZero(Rounds(s.records), k); }
  }

  // ---------------------------------------------------------------- what a step leaves alone

  ghost predicate TalkInv(cfg: Config, s: State) {
    && |s.records| == |s.turns| == |cfg.firstPrompts|
    && TranscriptInv(cfg, s) && PoolInv(s) && MetricsInv(cfg, s)
  }

  /** Records, transcripts, follow-ups and metrics are untouched and the handler owes the same question. */
  lemma TalkFrame(cfg: Config, s: State, s': State)
    requires TalkInv(cfg, s)
    requires s'.records == s.records && s'.turns == s.turns && s'.pool == s.pool
    requires s'.metrics == s.metrics && s'.roundMetrics == s.roundMetrics
    requires forall c: nat :: OpenReply(s', c) == OpenReply(s, c)
    requires s.handler.Counting? || s.handler.Asking? <==> s'.handler.Counting? || s'.handler.Asking?
    requires s.handler.Counting? || s.handler.Asking? ==> s'.handler.client == s.handler.client
    ensures TalkInv(cfg, s')
  {
    forall c: nat | c < |s.records| ensures TranscriptOf(cfg, s', c) { assert TranscriptOf(cfg, s, c); }
  }

  /** Nobody's round, the barrier or the held-back requests changed, and no turn was newly released. */
  lemma BarrierFrame(cfg: Config, s: State, s': State)
    requires BarrierInv(cfg, s)
    requires s'.records == s.records && s'.held == s.held
    requires s'.barrierRound == s.barrierRound && s'.barrierDone == s.barrierDone
    requires s.handler.Releasing? || s'.handler.Releasing? ==> s'.handler == s.handler
    requires Unreported(s') == Unreported(s)
    requires forall c: nat :: Released(s', c) <= Released(s, c)
    requires forall c: nat :: Owed(s', c) <= Owed(s, c)
    ensures BarrierInv(cfg, s')
  {
    assert HeldBack(s') == HeldBack(s);
  }

  ghost predicate TurnInv(cfg: Config, s: State) {
    ShapeInv(cfg, s) && OneTurnInv(s) && CounterInv(cfg, s)
  }

  // ---------------------------------------------------------------- sender and server

  lemma CheckTurns(cfg: Config, s: State, s': State)
    requires TurnInv(cfg, s) && Step(cfg, s, Check) == Some(s')
    ensures TurnInv(cfg, s') && forall c: nat :: Released(s', c) == Released(s, c)
  {
    forall c: nat ensures Outstanding(s', c) == if Live(s', c) then 1 else 0 {
      assert Outstanding(s, c) == if Live(s, c) then 1 else 0;
    }
  }

  /** Steps of the sender and the server: turns and prompts are kept, everything else is untouched. */
  lemma OutsideKeeps(cfg: Config, s: State, s': State)
    requires Inv(cfg, s) && TurnInv(cfg, s') && PromptInv(s') && forall c: nat :: Released(s', c) == Released(s, c)
    requires s'.records == s.records && s'.turns == s.turns && s'.pool == s.pool && s'.held == s.held
    requires s'.metrics == s.metrics && s'.roundMetrics == s.roundMetrics && s'.handler == s.handler
    requires s'.barrierRound == s.barrierRound && s'.barrierDone == s.barrierDone
    ensures Inv(cfg, s')
  {
    TalkFrame(cfg, s, s');
    BarrierFrame(cfg, s, s');
  }

  lemma CheckPrompts(cfg: Config, s: State, s': State)
    requires PromptInv(s) && Step(cfg, s, Check) == Some(s')
    ensures PromptInv(s')
  {}

  lemma CheckKeeps(cfg: Config, s: State, s': State)
    requires Inv(cfg, s) && Step(cfg, s, Check) == Some(s')
    ensures Inv(cfg, s')
  {
    CheckTurns(cfg, s, s');
    CheckPrompts(cfg, s, s');
    OutsideKeeps(cfg, s, s');
  }

  lemma PopTurns(cfg: Config, s: State, choice: nat, s': State)
    requires TurnInv(cfg, s) && PopStep(cfg, s, choice) == Some(s')
    ensures TurnInv(cfg, s') && forall c: nat :: Released(s', c) == Released(s, c)
  {
    if s'.sender.Launching? {
      var i := if cfg.policy.Fifo? then 0 else choice;
      forall c: nat ensures Released(s', c) == Released(s, c) { QueuedWithout(s.ready, i, c); }
    }
    forall c: nat ensures Outstanding(s', c) == if Live(s', c) then 1 else 0 {
      assert Outstanding(s, c) == if Live(s, c) then 1 else 0;
    }
  }

  lemma PopPrompts(cfg: Config, s: State, choice: nat, s': State)
    requires PromptInv(s) && PopStep(cfg, s, choice) == Some(s')
    ensures PromptInv(s')
  {}

  lemma PopKeeps(cfg: Config, s: State, choice: nat, s': State)
    requires Inv(cfg, s) && Step(cfg, s, Pop(choice)) == Some(s')
    ensures Inv(cfg, s')
  {
    PopTurns(cfg, s, choice, s');
    PopPrompts(cfg, s, choice, s');
    OutsideKeeps(cfg, s, s');
  }

  lemma LaunchTurns(cfg: Config, s: State, s': State)
    requires TurnInv(cfg, s) && Step(cfg, s, Launch) == Some(s')
    ensures TurnInv(cfg, s') && forall c: nat :: Released(s', c) == Released(s, c)
  {
    forall c: nat ensures Released(s', c) == Released(s, c) { QueuedAppend(s.inflight, s.sender.request, c); }
    forall c: nat ensures Outstanding(s', c) == if Live(s', c) then 1 else 0 {
      assert Outstanding(s, c) == if Live(s, c) then 1 else 0;
    }
  }

  lemma LaunchKeeps(cfg: Config, s: State, s': State)
    requires Inv(cfg, s) && Step(cfg, s, Launch) == Some(s')
    ensures Inv(cfg, s')
  {
    LaunchTurns(cfg, s, s');
    TalkFrame(cfg, s, s');
    BarrierFrame(cfg, s, s');
  }

  lemma ServeTurns(cfg: Config, s: State, i: nat, response: Response, s': State)
    requires TurnInv(cfg, s) && Step(cfg, s, Serve(i, response)) == Some(s')
    ensures TurnInv(cfg, s') && forall c: nat :: Released(s', c) == Released(s, c)
  {
    forall c: nat ensures Released(s', c) == Released(s, c) {
      QueuedWithout(s.inflight, i, c);
      RepliedAppend(s.responses, Reply(s.inflight[i].client, response), c);
    }
    forall c: nat ensures Outstanding(s', c) == if Live(s', c) then 1 else 0 {
      assert Outstanding(s, c) == if Live(s, c) then 1 else 0;
    }
  }

  lemma ServePrompts(cfg: Config, s: State, i: nat, response: Response, s': State)
    requires PromptInv(s) && Step(cfg, s, Serve(i, response)) == Some(s')
    ensures PromptInv(s')
  {}

  lemma ServeKeeps(cfg: Config, s: State, i: nat, response: Response, s': State)
    requires Inv(cfg, s) && Step(cfg, s, Serve(i, response)) == Some(s')
    ensures Inv(cfg, s')
  {
    ServeTurns(cfg, s, i, response, s');
    ServePrompts(cfg, s, i, response, s');
    OutsideKeeps(cfg, s, s');
  }

  // ---------------------------------------------------------------- handler: get, drop, count

  lemma GetCounts(s: State, c: nat)
    requires s.handler.Waiting? && s.responses != []
    ensures Outstanding(s, s.responses[0].client) > 0
    ensures var gone := if s.responses[0].response.Failure? && c == s.responses[0].client then 1 else 0;
            Released(GetStep(s), c) == Released(s, c) - gone && Outstanding(GetStep(s), c) == Outstanding(s, c) - gone
  {}

  lemma GetTurn(s: State, c: nat)
    requires OneTurnInv(s) && s.handler.Waiting? && s.responses != []
    ensures Live(s, s.responses[0].client)
    ensures Outstanding(GetStep(s), c) == if Live(GetStep(s), c) then 1 else 0
    ensures Released(GetStep(s), c) <= Released(s, c)
  {
    var d := s.responses[0].client;
    GetCounts(s, d);
    GetCounts(s, c);
    assert Outstanding(s, d) == if Live(s, d) then 1 else 0;
    assert Outstanding(s, c) == if Live(s, c) then 1 else 0;
  }

  lemma GetShape(cfg: Config, s: State)
    requires ShapeInv(cfg, s) && CounterInv(cfg, s) && s.handler.Waiting? && s.responses != []
    requires Live(s, s.responses[0].client)
    ensures ShapeInv(cfg, GetStep(s)) && CounterInv(cfg, GetStep(s))
  {}

  lemma GetTurns(cfg: Config, s: State, s': State)
    requires TurnInv(cfg, s) && s.handler.Waiting? && s.responses != [] && GetStep(s) == s'
    ensures TurnInv(cfg, s') && forall c: nat :: Released(s', c) <= Released(s, c)
  {
    GetTurn(s, 0);
    GetShape(cfg, s);
    forall c: nat
      ensures Outstanding(s', c) == (if Live(s', c) then 1 else 0) && Released(s', c) <= Released(s, c)
    {
      GetTurn(s, c);
    }
  }

  lemma GetKeeps(cfg: Config, s: State, s': State)
    requires Inv(cfg, s) && s.handler.Waiting? && HandleStep(cfg, s) == Some(s')
    ensures Inv(cfg, s')
  {
    GetTurns(cfg, s, s');
    TalkFrame(cfg, s, s');
    BarrierFrame(cfg, s, s');
  }

  lemma CountTurns(cfg: Config, s: State, s': State)
    requires TurnInv(cfg, s) && (s.handler.Dropping? || s.handler.Counting?) && HandleStep(cfg, s) == Some(s')
    ensures TurnInv(cfg, s') && forall c: nat :: Released(s', c) == Released(s, c)
  {
    forall c: nat ensures Outstanding(s', c) == if Live(s', c) then 1 else 0 {
      assert Outstanding(s, c) == if Live(s, c) then 1 else 0;
    }
  }

  lemma CountKeeps(cfg: Config, s: State, s': State)
    requires Inv(cfg, s) && (s.handler.Dropping? || s.handler.Counting?) && HandleStep(cfg, s) == Some(s')
    ensures Inv(cfg, s')
  {
    CountTurns(cfg, s, s');
    TalkFrame(cfg, s, s');
    BarrierFrame(cfg, s, s');
  }

  // ---------------------------------------------------------------- handler: record a reply

  lemma PromptsUpdate(records: seq<Record>, q: seq<Request>, c: nat, r: Record)
    requires PromptsMatch(records, q) && Queued(q, c) == 0 && c < |records|
    ensures PromptsMatch(records[c := r], q)
  {
    forall i | 0 <= i < |q| ensures PromptMatches(records[c := r], q[i]) { QueuedMember(q, i); }
  }

  lemma RecordTurns(cfg: Config, s: State, s': State)
    requires TurnInv(cfg, s) && s.handler.Recording? && HandleStep(cfg, s) == Some(s')
    requires ValidConfig(cfg) && |s.roundMetrics| == (if cfg.barrier then cfg.maxRounds else 0)
    ensures TurnInv(cfg, s') && Live(s, s.handler.client) && s'.handler.Counting?
    ensures Outstanding(s, s.handler.client) == 1
  {
    var d := s.handler.client;
    assert Released(s, d) > 0;
    assert Outstanding(s, d) == if Live(s, d) then 1 else 0;
    forall c: nat ensures Outstanding(s', c) == if Live(s', c) then 1 else 0 {
      assert Outstanding(s, c) == if Live(s, c) then 1 else 0;
    }
  }

  lemma RecordTalk(cfg: Config, s: State, s': State)
    requires TalkInv(cfg, s) && s.handler.Recording? && HandleStep(cfg, s) == Some(s')
    requires s'.handler.Counting? && s.records[s.handler.client].round < s.records[s.handler.client].total
    ensures TalkInv(cfg, s')
  {
    var d := s.handler.client;
    var rec := s'.records[d];
    RemainingUpdate(s.records, d, rec);
    RoundsUpdate(s.records, d, rec);
    SumUpdate(Rounds(s.records), d, rec.round);
    forall k | 0 <= k < |s'.roundMetrics| ensures |s'.roundMetrics[k]| == CountAbove(Rounds(s'.records), k) {
      CountAboveUpdate(Rounds(s.records), d, rec.round, k);
    }
    forall c: nat | c < |s.records| ensures TranscriptOf(cfg, s', c) { assert TranscriptOf(cfg, s, c); }
  }

  lemma RecordBarrier(cfg: Config, s: State, s': State)
    requires BarrierInv(cfg, s) && s.handler.Recording? && HandleStep(cfg, s) == Some(s')
    requires s'.handler.Counting? && Outstanding(s, s.handler.client) == 1
    ensures BarrierInv(cfg, s')
  {
    var d := s.handler.client;
    assert Released(s, d) > 0;
    RoundsUpdate(s.records, d, s'.records[d]);
    CountAboveUpdate(Rounds(s.records), d, s'.records[d].round, s.barrierRound);
  }

  lemma RecordKeeps(cfg: Config, s: State, s': State)
    requires Inv(cfg, s) && s.handler.Recording? && HandleStep(cfg, s) == Some(s')
    ensures Inv(cfg, s')
  {
    var d := s.handler.client;
    RecordTurns(cfg, s, s');
    RecordTalk(cfg, s, s');
    RecordBarrier(cfg, s, s');
    PromptsUpdate(s.records, s.ready, d, s'.records[d]);
    PromptsUpdate(s.records, s.inflight, d, s'.records[d]);
    PromptsUpdate(s.records, s.held, d, s'.records[d]);
  }

  // ---------------------------------------------------------------- handler: ask the follow-up

  lemma AskTurns(cfg: Config, s: State, s': State)
    requires TurnInv(cfg, s) && PoolInv(s) && s.handler.Asking? && HandleStep(cfg, s) == Some(s')
    ensures TurnInv(cfg, s') && s'.handler.AtBarrier?
    ensures Released(s, s.handler.client) == Queued(s.held, s.handler.client) == 0
  {
    var d := s.handler.client;
    assert Outstanding(s, d) == if Live(s, d) then 1 else 0;
    forall c: nat ensures Outstanding(s', c) == if Live(s', c) then 1 else 0 {
      assert Outstanding(s, c) == if Live(s, c) then 1 else 0;
      if s'.records[d].round < s'.records[d].total {
        QueuedAppend(s.ready, Request(d, s'.records[d].history), c);
        QueuedAppend(s.held, Request(d, s'.records[d].history), c);
      }
    }
  }

  lemma AskTalk(cfg: Config, s: State, s': State)
    requires TalkInv(cfg, s) && s.handler.Asking? && HandleStep(cfg, s) == Some(s') && s'.handler.AtBarrier?
    ensures TalkInv(cfg, s')
  {
    var d := s.handler.client;
    RemainingUpdate(s.records, d, s'.records[d]);
    assert Rounds(s'.records) == Rounds(s.records);
    forall c: nat | c < |s.records| ensures TranscriptOf(cfg, s', c) {
      assert TranscriptOf(cfg, s, c);
      if c == d {
        var n := |s.turns[d]|;
        assert s'.turns[d][..n] == s.turns[d];
        assert s.records[d].history + [] == s.records[d].history;
      }
    }
  }

  lemma AskBarrier(cfg: Config, s: State, s': State)
    requires BarrierInv(cfg, s) && s.handler.Asking? && HandleStep(cfg, s) == Some(s') && s'.handler.AtBarrier?
    requires s.handler.client < |s.records|
    ensures BarrierInv(cfg, s')
  {
    var d := s.handler.client;
    assert Rounds(s'.records) == Rounds(s.records);
    if cfg.barrier {
      forall c: nat | c < |s.records| && Queued(s'.held, c) > 0 ensures s'.records[c].round == s.barrierRound + 1 {
        if |s'.held| > |s.held| { QueuedAppend(s.held, Request(d, s'.records[d].history), c); }
      }
    }
  }

  lemma PromptsAppend(records: seq<Record>, q: seq<Request>, r: Request)
    requires PromptsMatch(records, q) && PromptMatches(records, r)
    ensures PromptsMatch(records, q + [r])
  {}

  lemma AskPrompts(cfg: Config, s: State, s': State)
    requires PromptInv(s) && s.handler.Asking? && HandleStep(cfg, s) == Some(s') && s'.handler.AtBarrier?
    requires s.handler.client < |s.records|
    requires Released(s, s.handler.client) == Queued(s.held, s.handler.client) == 0
    ensures PromptInv(s')
  {
    var d := s.handler.client;
    var next := Request(d, s'.records[d].history);
    PromptsUpdate(s.records, s.ready, d, s'.records[d]);
    PromptsUpdate(s.records, s.inflight, d, s'.records[d]);
    PromptsUpdate(s.records, s.held, d, s'.records[d]);
    if s.records[d].round < s.records[d].total {
      PromptsAppend(s'.records, s.ready, next);
      PromptsAppend(s'.records, s.held, next);
    }
  }

  lemma AskKeeps(cfg: Config, s: State, s': State)
    requires Inv(cfg, s) && s.handler.Asking? && HandleStep(cfg, s) == Some(s')
    ensures Inv(cfg, s')
  {
    AskTurns(cfg, s, s');
    AskTalk(cfg, s, s');
    AskBarrier(cfg, s, s');
    AskPrompts(cfg, s, s');
  }

  // ---------------------------------------------------------------- handler: the barrier

  /** The barrier counts a subset of the clients that take part in the round; when it counts
      them all, each of them has finished it. */
  lemma BarrierCounts(cfg: Config, s: State)
    requires ShapeInv(cfg, s)
    ensures CountAbove(Rounds(s.records), s.barrierRound) <= CountAbove(cfg.totals, s.barrierRound)
    ensures CountAbove(Rounds(s.records), s.barrierRound) == CountAbove(cfg.totals, s.barrierRound) ==>
              forall c :: 0 <= c < |s.records| && cfg.totals[c] > s.barrierRound ==> s.records[c].round > s.barrierRound
  {
    var rounds := Rounds(s.records);
    CountAboveMonotone(rounds, cfg.totals, s.barrierRound);
    assert forall c :: 0 <= c < |s.records| ==> rounds[c] == s.records[c].round;
  }

  lemma BarrierInRange(cfg: Config, s: State)
    requires ValidConfig(cfg) && ShapeInv(cfg, s) && CountAbove(Rounds(s.records), s.barrierRound) > 0
    ensures s.barrierRound < cfg.maxRounds
  {
    var rounds := Rounds(s.records);
    CountAboveZero(rounds, s.barrierRound);
    var c :| 0 <= c < |rounds| && rounds[c] > s.barrierRound;
    assert rounds[c] == s.records[c].round;
  }

  lemma BarrierTurns(cfg: Config, s: State, s': State)
    requires TurnInv(cfg, s) && s.handler.AtBarrier? && HandleStep(cfg, s) == Some(s')
    ensures TurnInv(cfg, s')
  {
    assert HeldBack(s') == HeldBack(s);
    forall c: nat ensures Outstanding(s', c) == if Live(s', c) then 1 else 0 {
      assert Outstanding(s, c) == if Live(s, c) then 1 else 0;
    }
  }

  lemma BarrierBarrier(cfg: Config, s: State, s': State)
    requires ValidConfig(cfg) && ShapeInv(cfg, s) && OneTurnInv(s) && BarrierInv(cfg, s)
    requires s.handler.AtBarrier? && HandleStep(cfg, s) == Some(s')
    ensures BarrierInv(cfg, s')
  {
    if cfg.barrier {
      BarrierCounts(cfg, s);
      BarrierInRange(cfg, s);
      assert HeldBack(s') == HeldBack(s);
      if s'.handler.Releasing? {
        forall c | 0 <= c < |s'.records| ensures Released(s', c) == 0 {
          assert Outstanding(s, c) == if Live(s, c) then 1 else 0;
          assert Released(s', c) == Released(s, c);
        }
      }
    }
  }

  lemma BarrierKeeps(cfg: Config, s: State, s': State)
    requires Inv(cfg, s) && s.handler.AtBarrier? && HandleStep(cfg, s) == Some(s')
    ensures Inv(cfg, s')
  {
    BarrierTurns(cfg, s, s');
    BarrierBarrier(cfg, s, s');
    TalkFrame(cfg, s, s');
    assert HeldBack(s') == HeldBack(s);
  }

  lemma ReleaseOneTurn(s: State, s': State, c: nat)
    requires s.handler.Releasing? && s.handler.next < |s.held| && s' == ReleaseStep(s, s.handler.next)
    ensures Outstanding(s', c) == Outstanding(s, c)
  {
    QueuedAppend(s.ready, s.held[s.handler.next], c);
    assert HeldBack(s)[1..] == HeldBack(s');
  }

  lemma ReleaseEndTurn(s: State, s': State, c: nat)
    requires s.handler.Releasing? && s.handler.next == |s.held| && s' == ReleaseStep(s, s.handler.next)
    ensures Outstanding(s', c) == Outstanding(s, c)
  {}

  lemma ReleaseTurns(cfg: Config, s: State, s': State)
    requires TurnInv(cfg, s) && s.handler.Releasing? && HandleStep(cfg, s) == Some(s')
    ensures TurnInv(cfg, s')
  {
    forall c: nat ensures Outstanding(s', c) == if Live(s', c) then 1 else 0 {
      assert Outstanding(s, c) == if Live(s, c) then 1 else 0;
      if s.handler.next < |s.held| {
        ReleaseOneTurn(s, s', c);
      } else {
        ReleaseEndTurn(s, s', c);
      }
    }
  }

  lemma ReleaseOneBarrier(cfg: Config, s: State, s': State)
    requires cfg.barrier && BarrierInv(cfg, s) && s.handler.Releasing? && s.handler.next < |s.held|
    requires s' == ReleaseStep(s, s.handler.next)
    ensures BarrierInv(cfg, s')
  {
    assert HeldBack(s)[1..] == HeldBack(s');
    forall c: nat ensures Released(s', c) <= Released(s, c) + Queued(HeldBack(s), c)
      ensures Queued(HeldBack(s'), c) <= Queued(HeldBack(s), c) {
      QueuedAppend(s.ready, s.held[s.handler.next], c);
    }
  }

  lemma ReleaseEndBarrier(cfg: Config, s: State, s': State)
    requires ShapeInv(cfg, s) && cfg.barrier && BarrierInv(cfg, s)
    requires s.handler.Releasing? && s.handler.next == |s.held| && s' == ReleaseStep(s, s.handler.next)
    ensures BarrierInv(cfg, s')
  {
    BarrierCounts(cfg, s);
    CountAboveZero(Rounds(s.records), s.barrierRound + 1);
  }

  lemma ReleaseBarrier(cfg: Config, s: State, s': State)
    requires ShapeInv(cfg, s) && BarrierInv(cfg, s)
    requires s.handler.Releasing? && HandleStep(cfg, s) == Some(s')
    ensures BarrierInv(cfg, s')
  {
    if s.handler.next < |s.held| {
      ReleaseOneBarrier(cfg, s, s');
    } else {
      ReleaseEndBarrier(cfg, s, s');
    }
  }

  lemma ReleasePrompts(cfg: Config, s: State, s': State)
    requires PromptInv(s) && s.handler.Releasing? && s.handler.next <= |s.held| && HandleStep(cfg, s) == Some(s')
    ensures PromptInv(s')
  {
    if s.handler.next < |s.held| {
      assert HeldBack(s)[1..] == HeldBack(s');
      assert PromptMatches(s.records, HeldBack(s)[0]);
    }
  }

  lemma ReleaseKeeps(cfg: Config, s: State, s': State)
    requires Inv(cfg, s) && s.handler.Releasing? && HandleStep(cfg, s) == Some(s')
    ensures Inv(cfg, s')
  {
    ReleaseTurns(cfg, s, s');
    ReleasePrompts(cfg, s, s');
    ReleaseBarrier(cfg, s, s');
    TalkFrame(cfg, s, s');
  }

  // ---------------------------------------------------------------- every step, every run

  lemma HandleKeeps(cfg: Config, s: State, s': State)
    requires Inv(cfg, s) && HandleStep(cfg, s) == Some(s')
    ensures Inv(cfg, s')
  {
    match s.handler
    case Waiting => GetKeeps(cfg, s, s');
    case Dropping => CountKeeps(cfg, s, s');
    case Recording(_, _, _) => RecordKeeps(cfg, s, s');
    case Counting(_, _) => CountKeeps(cfg, s, s');
    case Asking(_, _) => AskKeeps(cfg, s, s');
    case AtBarrier => BarrierKeeps(cfg, s, s');
    case Releasing(_) => ReleaseKeeps(cfg, s, s');
  }

  lemma StepKeeps(cfg: Config, s: State, a: Action, s': State)
    requires Inv(cfg, s) && Step(cfg, s, a) == Some(s')
    ensures Inv(cfg, s')
  {
    match a
    case Check => CheckKeeps(cfg, s, s');
    case Pop(choice) => PopKeeps(cfg, s, choice, s');
    case Launch => LaunchKeeps(cfg, s, s');
    case Serve(i, response) => ServeKeeps(cfg, s, i, response, s');
    case Handle => HandleKeeps(cfg, s, s');
  }

  /** The invariant holds after every interleaving of sender, server and handler, failures included. */
  lemma {:induction false} RunKeeps(cfg: Config, s: State, actions: seq<Action>)
    requires Inv(cfg, s) && Run(cfg, s, actions).Some?
    ensures Inv(cfg, Run(cfg, s, actions).value)
    decreases |actions|
  {
    if actions != [] {
      StepKeeps(cfg, s, actions[0], Step(cfg, s, actions[0]).value);
      RunKeeps(cfg, Step(cfg, s, actions[0]).value, actions[1..]);
    }
  }
}
