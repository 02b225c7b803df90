/** The benchmark's mutable object.  Payloads hold references to the clients' history lists, which the
handler extends in place; each method is one atomic step and is proved to do what
`Workload.Step` says of the contents those references lead to. */
module WorkloadObject {
  import opened Wrappers
  import opened Workload
  import opened WorkloadInvariant

  /** A list of token ids, shared between a client's record and its payloads. */
  class TokenList {
    var tokens: Tokens

    constructor (tokens: Tokens)
      ensures this.tokens == tokens
    {
      this.tokens := tokens;
    }
  }

  datatype Item = Item(client: nat, payload: TokenList)

  datatype Popped = Nothing | Got(item: Item) | PolicyError

  class ReadyQueue {
    var requests: seq<Item>
    const policy: Policy

    constructor (requests: seq<Item>, policy: Policy)
      ensures this.requests == requests && this.policy == policy
    {
      this.requests := requests;
      this.policy := policy;
    }

    method Append(item: Item)
      modifies this
      ensures requests == old(requests) + [item]
    {
      requests := requests + [item];
    }

    /** `choice` stands for the index the random policy draws. */
    method Pop(choice: nat) returns (r: Popped)
      requires policy == Random && requests != [] ==> choice < |requests|
      modifies this
      ensures old(requests) == [] ==> r == Nothing
      ensures old(requests) != [] && policy == Unsupported ==> r == PolicyError
      ensures r.Got? <==> old(requests) != [] && policy != Unsupported
      ensures r.Got? ==> var i := if policy == Fifo then 0 else choice;
                         r.item == old(requests)[i] && requests == Without(old(requests), i)
      ensures !r.Got? ==> requests == old(requests)
    {
      if requests == [] {
        return Nothing;
      }
      match policy
      case Random =>
        r := Got(requests[choice]);
        requests := requests[..choice] + requests[choice + 1..];
      case Fifo =>
        r := Got(requests[0]);
        requests := requests[..0] + requests[1..];
      case Unsupported =>
        r := PolicyError;
    }
  }

  datatype SenderAt = Idle | Room | Holding(item: Item) | Dead

  class WorkloadGenerator {
    const cfg: Config
    const ready: ReadyQueue
    const histories: seq<TokenList>
    const firstInputs: seq<TokenList>

    var sent: nat
    var completed: nat
    var inflight: seq<Item>
    var responses: seq<Reply>
    var held: seq<Item>
    var rounds: seq<nat>
    var pool: seq<Tokens>
    var barrierRound: nat
    var barrierDone: nat
    var metrics: seq<Metric>
    var roundMetrics: seq<seq<Metric>>
    var sender: SenderAt
    var handler: Handler

    /** What the fields mean, read through the references. */
    ghost var view: State

    /** The payload is the client's own history list or, in round 0, its first input. */
    ghost predicate Owned(item: Item) {
      && item.client < |histories| == |firstInputs|
      && (item.payload == histories[item.client] || item.payload == firstInputs[item.client])
    }

    /** History lists are distinct from each other and from the first inputs. */
    ghost predicate Separate() {
      && |histories| == |firstInputs| == |cfg.totals|
      && (forall c, d :: 0 <= c < d < |histories| ==> histories[c] != histories[d])
      && (forall c, d :: 0 <= c < |histories| && 0 <= d < |histories| ==> histories[c] != firstInputs[d])
    }

    /** The items carry, behind their references, exactly these requests. */
    ghost predicate Shows(q: seq<Item>, r: seq<Request>)
      reads histories, firstInputs
    {
      |q| == |r| && forall i :: 0 <= i < |q| ==> Owned(q[i]) && r[i] == Request(q[i].client, q[i].payload.tokens)
    }

    ghost predicate ShowsSender(at: SenderAt, s: Sender)
      reads histories, firstInputs
    {
      match at
      case Idle => s == Checking
      case Room => s == Popping
      case Holding(item) => Owned(item) && s == Launching(Request(item.client, item.payload.tokens))
      case Dead => s == SenderDead
    }

    ghost predicate ShowsRecords(rounds: seq<nat>, r: seq<Record>)
      reads histories
    {
      && |histories| == |cfg.totals| == |rounds| == |r|
      && forall c :: 0 <= c < |r| ==> r[c] == Record(rounds[c], histories[c].tokens, cfg.totals[c])
    }

    ghost predicate Valid()
      reads this, ready, histories, firstInputs
    {
      && Separate() && ready.policy == cfg.policy
      && Shows(ready.requests, view.ready) && Shows(inflight, view.inflight) && Shows(held, view.held)
      && ShowsSender(sender, view.sender) && ShowsRecords(rounds, view.records)
      && (view.sent, view.completed, view.responses, view.pool) == (sent, completed, responses, pool)
      && (view.barrierRound, view.barrierDone, view.handler) == (barrierRound, barrierDone, handler)
      && (view.metrics, view.roundMetrics) == (metrics, roundMetrics)
    }

    constructor (cfg: Config)
      requires ValidConfig(cfg)
      ensures this.cfg == cfg && Valid() && view == Init(cfg)
      ensures fresh(ready) && (forall h <- histories :: fresh(h)) && (forall f <- firstInputs :: fresh(f))
    {
      var own: seq<TokenList>, first: seq<TokenList>, items: seq<Item> := [], [], [];
      for c := 0 to |cfg.totals|
        invariant |own| == |first| == |items| == c
        invariant forall i :: 0 <= i < c ==> fresh(own[i]) && fresh(first[i])
        invariant forall i, j :: 0 <= i < j < c ==> own[i] != own[j]
        invariant forall i, j :: 0 <= i < c && 0 <= j < c ==> own[i] != first[j]
        invariant forall i :: 0 <= i < c ==> own[i].tokens == first[i].tokens == cfg.firstPrompts[i]
        invariant forall i :: 0 <= i < c ==> items[i] == Item(i, first[i])
      {
        var input := new TokenList(cfg.firstPrompts[c]);
        var history := new TokenList(cfg.firstPrompts[c]);
        own, first, items := own + [history], first + [input], items + [Item(c, input)];
      }
      this.cfg := cfg;
      this.ready := new ReadyQueue(items, cfg.policy);
      this.histories, this.firstInputs := own, first;
      sent, completed, inflight, responses, held := 0, 0, [], [], [];
      rounds := seq(|cfg.totals|, _ => 0);
      pool := cfg.questions;
      barrierRound, barrierDone, metrics := 0, 0, [];
      roundMetrics := if cfg.barrier then seq(cfg.maxRounds, _ => []) else [];
      sender, handler := Idle, Waiting;
      view := Init(cfg);
    }

    // -------------------------------------------------------------- request_sender

    method SenderCheck()
      requires Valid() && sender == Idle
      modifies this
      ensures Valid() && Step(cfg, old(view), Check) == Some(view)
    {
      if sent - completed < cfg.maxParallel {
        sender := Room;
        view := view.(sender := Popping);
      }
    }

    lemma ShowsWithout(q: seq<Item>, r: seq<Request>, i: nat)
      requires Shows(q, r) && i < |q|
      ensures Shows(Without(q, i), Without(r, i))
      ensures Owned(q[i]) && r[i] == Request(q[i].client, q[i].payload.tokens)
    {}

    method SenderPop(choice: nat)
      requires Valid() && sender == Room
      requires cfg.policy == Random && ready.requests != [] ==> choice < |ready.requests|
      modifies this`sender, this`view, ready
      ensures Valid() && PopStep(cfg, old(view), choice) == Some(view)
    {
      ghost var i := if cfg.policy == Fifo then 0 else choice;
      if ready.requests != [] && cfg.policy != Unsupported {
        ShowsWithout(ready.requests, view.ready, i);
      }
      var popped := ready.Pop(choice);
      match popped
      case Nothing =>
        sender := Idle;
        view := view.(sender := Checking);
      case PolicyError =>
        sender := Dead;
        view := view.(sender := SenderDead);
      case Got(item) =>
        sender := Holding(item);
        view := view.(sender := Launching(view.ready[i]), ready := Without(view.ready, i));
    }

    method SenderLaunch()
      requires Valid() && sender.Holding?
      modifies this
      ensures Valid() && Step(cfg, old(view), Launch) == Some(view)
    {
      view := view.(inflight := view.inflight + [view.sender.request], sent := sent + 1, sender := Checking);
      inflight := inflight + [sender.item];
      sent := sent + 1;
      sender := Idle;
    }

    /** The server answers any request in flight, in any order, with any outcome. */
    method ServerReply(i: nat, response: Response)
      requires Valid() && i < |inflight|
      modifies this
      ensures Valid() && Step(cfg, old(view), Serve(i, response)) == Some(view)
    {
      view := Step(cfg, view, Serve(i, response)).value;
      responses := responses + [Reply(inflight[i].client, response)];
      inflight := inflight[..i] + inflight[i + 1..];
    }

    // -------------------------------------------------------------- response_handler

    method GetResponse()
      requires Valid() && handler.Waiting? && responses != []
      modifies this
      ensures Valid() && view == GetStep(old(view))
    {
      view := GetStep(view);
      var reply := responses[0];
      responses := responses[1..];
      match reply.response
      case Failure => handler := Dropping;
      case Success(output, metric) => handler := Recording(reply.client, output, metric);
    }

    /** A failed request is counted as completed; a recorded one is counted before its follow-up. */
    method CountCompleted()
      requires Valid() && (handler.Dropping? || handler.Counting?)
      modifies this
      ensures Valid() && HandleStep(cfg, old(view)) == Some(view)
    {
      view := HandleStep(cfg, view).value;
      completed := completed + 1;
      handler := if handler.Dropping? then Waiting else Asking(handler.client, handler.output);
    }

    /** No payload that shares client c's history is waiting anywhere. */
    ghost predicate Unshared(c: nat)
      reads this, ready
    {
      && (forall i :: 0 <= i < |ready.requests| ==> ready.requests[i].client != c)
      && (forall i :: 0 <= i < |inflight| ==> inflight[i].client != c)
      && (forall i :: 0 <= i < |held| ==> held[i].client != c)
      && (sender.Holding? ==> sender.item.client != c)
    }

    /** Whenever the handler is about to extend a history, its list is unshared and all keys it reads exist. */
    lemma HandlerIsExclusive()
      requires Valid() && Inv(cfg, view) && (handler.Recording? || handler.Asking?)
      ensures var c := handler.client;
              && c < |rounds| && c < |view.turns| && Unshared(c)
              && (handler.Recording? && cfg.barrier ==> rounds[c] < |roundMetrics|)
              && (handler.Asking? && rounds[c] < cfg.totals[c] ==> pool != [])
    {
      var s, c := view, handler.client;
      assert Outstanding(s, c) == if Live(s, c) then 1 else 0;
      forall i | 0 <= i < |ready.requests| ensures ready.requests[i].client != c { QueuedMember(s.ready, i); }
      forall i | 0 <= i < |inflight| ensures inflight[i].client != c { QueuedMember(s.inflight, i); }
      forall i | 0 <= i < |held| ensures held[i].client != c { QueuedMember(s.held, i); }
    }

    /** Extending the list in place changes this client's record and nothing that waits. */
    method ExtendHistory(c: nat, more: Tokens)
      requires Valid() && c < |rounds| && Unshared(c)
      modifies this`view, histories[c]
      ensures Valid() && Unshared(c)
      ensures view == old(view).(records :=
                old(view.records)[c := Record(rounds[c], old(view.records[c].history) + more, cfg.totals[c])])
    {
      view := view.(records := view.records[c := Record(rounds[c], view.records[c].history + more, cfg.totals[c])]);
      histories[c].tokens := histories[c].tokens + more;
    }

    method CommitRound(c: nat, output: Tokens, metric: Metric)
      requires Valid() && c < |rounds| && (cfg.barrier ==> rounds[c] < |roundMetrics|)
      modifies this
      ensures Valid()
      ensures var s, r := old(view), old(rounds[c]);
              view == s.(records := s.records[c := s.records[c].(round := r + 1)], metrics := s.metrics + [metric],
                         roundMetrics := if cfg.barrier then s.roundMetrics[r := s.roundMetrics[r] + [metric]]
                                         else s.roundMetrics,
                         handler := Counting(c, output))
    {
      var current := rounds[c];
      rounds := rounds[c := current + 1];
      metrics := metrics + [metric];
      if cfg.barrier {
        roundMetrics := roundMetrics[current := roundMetrics[current] + [metric]];
      }
      handler := Counting(c, output);
      view := view.(records := view.records[c := view.records[c].(round := current + 1)],
                    metrics := metrics, roundMetrics := roundMetrics, handler := handler);
    }

    method RecordResponse()
      requires Valid() && handler.Recording? && handler.client < |rounds| && Unshared(handler.client)
      requires cfg.barrier ==> rounds[handler.client] < |roundMetrics|
      modifies this, histories
      ensures Valid() && view == old(RecordStep(cfg, view, handler.client, handler.output, handler.metric))
    {
      var c, output, metric := handler.client, handler.output, handler.metric;
      ExtendHistory(c, output);
      CommitRound(c, output, metric);
    }

    /** The question leaves the pool and closes the client's turn. */
    method CloseTurn(c: nat, output: Tokens, question: Tokens)
      requires Valid() && c < |view.turns| && pool != []
      modifies this`pool, this`handler, this`view
      ensures Valid()
      ensures var s := old(view);
              view == s.(pool := s.pool[..|s.pool| - 1], turns := s.turns[c := s.turns[c] + [Turn(output, question)]],
                         handler := AtBarrier)
    {
      pool := pool[..|pool| - 1];
      handler := AtBarrier;
      view := view.(pool := pool, turns := view.turns[c := view.turns[c] + [Turn(output, question)]],
                    handler := AtBarrier);
    }

    method Enqueue(item: Item)
      requires Valid() && Owned(item)
      modifies this`view, ready
      ensures Valid()
      ensures view == old(view).(ready := old(view.ready) + [Request(item.client, item.payload.tokens)])
    {
      ready.Append(item);
      view := view.(ready := view.ready + [Request(item.client, item.payload.tokens)]);
    }

    method HoldBack(item: Item)
      requires Valid() && Owned(item)
      modifies this`held, this`view
      ensures Valid()
      ensures view == old(view).(held := old(view.held) + [Request(item.client, item.payload.tokens)])
    {
      held := held + [item];
      view := view.(held := view.held + [Request(item.client, item.payload.tokens)]);
    }

    method CommitQuestion(c: nat, output: Tokens, question: Tokens)
      requires Valid() && c < |rounds| && c < |view.turns| && pool != []
      modifies this, ready
      ensures Valid()
      ensures var s := old(view);
              var request := Request(c, s.records[c].history);
              view == s.(pool := s.pool[..|s.pool| - 1], turns := s.turns[c := s.turns[c] + [Turn(output, question)]],
                         ready := if cfg.barrier then s.ready else s.ready + [request],
                         held := if cfg.barrier then s.held + [request] else s.held,
                         handler := AtBarrier)
    {
      CloseTurn(c, output, question);
      if cfg.barrier {
        HoldBack(Item(c, histories[c]));
      } else {
        Enqueue(Item(c, histories[c]));
      }
    }

    method AskFollowUp()
      requires Valid() && handler.Asking? && handler.client < |rounds| && handler.client < |view.turns|
      requires Unshared(handler.client)
      requires rounds[handler.client] < cfg.totals[handler.client] ==> pool != []
      modifies this, ready, histories
      ensures Valid() && view == old(AskStep(cfg, view, handler.client, handler.output))
    {
      var c, output := handler.client, handler.output;
      if rounds[c] < cfg.totals[c] {
        var question := pool[|pool| - 1];
        ExtendHistory(c, question);
        CommitQuestion(c, output, question);
      } else {
        handler := AtBarrier;
        view := AskStep(cfg, view, c, output);
      }
    }

    method CheckBarrier()
      requires Valid() && handler.AtBarrier?
      modifies this
      ensures Valid() && view == BarrierStep(cfg, old(view))
    {
      view := BarrierStep(cfg, view);
      if cfg.barrier && barrierRound < cfg.maxRounds {
        barrierDone := barrierDone + 1;
        var expected := ClientsPerRound(cfg.totals, cfg.maxRounds)[barrierRound];
        handler := if barrierDone == expected then Releasing(0) else Waiting;
      } else {
        handler := Waiting;
      }
    }

    method EndRelease()
      requires Valid()
      modifies this`held, this`barrierRound, this`barrierDone, this`handler, this`view
      ensures Valid()
      ensures view == old(view).(held := [], barrierRound := old(view.barrierRound) + 1, barrierDone := 0,
                                 handler := Waiting)
    {
      held := [];
      barrierRound := barrierRound + 1;
      barrierDone := 0;
      handler := Waiting;
      view := view.(held := [], barrierRound := barrierRound, barrierDone := 0, handler := Waiting);
    }

    /** One iteration of the release loop, or its end; the sender may run in between. */
    method ReleaseNext()
      requires Valid() && handler.Releasing?
      modifies this, ready
      ensures Valid() && view == old(ReleaseStep(view, handler.next))
    {
      var i := handler.next;
      if i < |held| {
        Enqueue(held[i]);
        handler := Releasing(i + 1);
        view := view.(handler := handler);
      } else {
        EndRelease();
      }
    }

    // -------------------------------------------------------------- any interleaving

    method HandlerStep()
      requires Valid() && Inv(cfg, view) && HandleStep(cfg, view).Some?
      modifies this, ready, histories
      ensures Valid() && HandleStep(cfg, old(view)) == Some(view)
    {
      if handler.Recording? || handler.Asking? {
        HandlerIsExclusive();
      }
      match handler
      case Waiting => GetResponse();
      case Dropping => CountCompleted();
      case Recording(_, _, _) => RecordResponse();
      case Counting(_, _) => CountCompleted();
      case Asking(_, _) => AskFollowUp();
      case AtBarrier => CheckBarrier();
      case Releasing(_) => ReleaseNext();
    }

    method Perform(a: Action)
      requires Valid() && Inv(cfg, view) && Step(cfg, view, a).Some?
      modifies this, ready, histories
      ensures Valid() && Inv(cfg, view) && Step(cfg, old(view), a) == Some(view)
    {
      match a {
        case Check => SenderCheck();
        case Pop(choice) => SenderPop(choice);
        case Launch => SenderLaunch();
        case Serve(i, response) => ServerReply(i, response);
        case Handle => HandlerStep();
      }
      StepKeeps(cfg, old(view), a, view);
    }

    /** The object, driven by any schedule of both threads and the server, goes through exactly the
        states of the transition system. */
    method Interleave(actions: seq<Action>)
      requires Valid() && Inv(cfg, view) && Run(cfg, view, actions).Some?
      modifies this, ready, histories
      ensures Valid() && Inv(cfg, view) && Run(cfg, old(view), actions) == Some(view)
    {
      for k := 0 to |actions|
        invariant Valid() && Inv(cfg, view)
        invariant Run(cfg, view, actions[k..]) == Run(cfg, old(view), actions)
      {
        Perform(actions[k]);
        assert actions[k..][1..] == actions[k + 1..];
      }
    }
  }
}
