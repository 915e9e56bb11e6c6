/** When the response thread of the machine in `ClosedLoop` leaves a response in the queue for ever. */
module LostResponse {
  import opened ClosedLoop
  import opened ClosedLoopRuns

  ghost predicate AllRounds(cfg: Config, s: State) {
    |s.records| == cfg.clients && forall c | 0 <= c < cfg.clients :: s.records[c].round == cfg.rounds
  }

  /** When the progress bar is full and the response thread decides to leave, every client has been
      served all its rounds exactly if no response is in the queue or on its way into it. */
  lemma LeavesDone(cfg: Config, s: State)
    requires cfg.Valid() && Inv(cfg, s) && s.handler.Deciding? && s.bar == cfg.total
    ensures AllRounds(cfg, s) <==> !s.sender.Putting? && s.responses == []
  {
    BarBound(cfg, s);
    forall c | 0 <= c < cfg.clients
      ensures s.records[c].round == cfg.rounds <==> !s.places[c].BeingPut? && !s.places[c].InResponses?
    {
      assert Located(s, c);
    }
    if s.sender.Putting? {
      assert Located(s, s.sender.response.client);
    }
    if s.responses != [] {
      TallyPositive(Clients(s.responses), 0);
      assert Located(s, s.responses[0].client);
    }
    forall c | 0 <= c < cfg.clients && s.places[c].InResponses? ensures s.responses != [] {
      assert Located(s, c);
    }
    forall c | 0 <= c < cfg.clients && s.places[c].BeingPut? ensures s.sender.Putting? {
      assert Located(s, c);
    }
  }

  /** Once the response thread has left, no round is counted any more and no response taken. */
  lemma {:induction false} NothingAfter(cfg: Config, s: State, events: seq<Event>)
    requires s.handler.Exited?
    ensures RunFrom(cfg, s, events).handler.Exited? && RunFrom(cfg, s, events).records == s.records
    ensures s.responses <= RunFrom(cfg, s, events).responses
    decreases |events|
  {
    if events != [] {
      NothingAfter(cfg, s, events[..|events| - 1]);
    }
  }

  /** A run at whose end the response thread has left: it left at some event `k`, by its test of the
      progress bar. */
  lemma {:induction false} LeftAt(cfg: Config, events: seq<Event>) returns (k: nat)
    requires cfg.clients <= |cfg.inputs| && Run(cfg, events).handler.Exited?
    ensures k < |events| && Run(cfg, events[..k]).handler.Deciding? && Run(cfg, events[..k]).bar == cfg.total
    ensures Run(cfg, events[..k + 1]).handler.Exited?
    ensures Run(cfg, events).records == Run(cfg, events[..k]).records
            && Run(cfg, events[..k]).responses <= Run(cfg, events).responses
    decreases |events|
  {
    var n := |events| - 1;
    if Run(cfg, events[..n]).handler.Exited? {
      k := LeftAt(cfg, events[..n]);
      assert events[..n][..k] == events[..k] && events[..n][..k + 1] == events[..k + 1];
      NothingAfter(cfg, Run(cfg, events[..n]), [events[n]]);
      assert [events[n]][..0] == [];
    } else {
      k := n;
      assert events[..k + 1] == events;
    }
  }

  /** Every run in which the response thread has left: all clients have been served all their rounds
      exactly if, when it left, no request was between its update of the progress bar and its `put`
      and no response was in the queue. What was in the queue then stays there. */
  lemma NothingLostExactlyIf(cfg: Config, events: seq<Event>) returns (k: nat)
    requires cfg.Valid() && Run(cfg, events).handler.Exited?
    ensures k < |events| && Run(cfg, events[..k]).handler.Deciding? && Run(cfg, events[..k + 1]).handler.Exited?
    ensures Run(cfg, events[..k]).responses <= Run(cfg, events).responses
    ensures AllRounds(cfg, Run(cfg, events)) <==>
            !Run(cfg, events[..k]).sender.Putting? && Run(cfg, events[..k]).responses == []
  {
    k := LeftAt(cfg, events);
    RunInv(cfg, events[..k]);
    LeavesDone(cfg, Run(cfg, events[..k]));
  }

  /** Extends a run by one enabled event. */
  lemma Extend(cfg: Config, events: seq<Event>, s: State, e: Event) returns (longer: seq<Event>, after: State)
    requires cfg.clients <= |cfg.inputs| && Run(cfg, events) == s && Enabled(cfg, s, e)
    ensures after == Next(cfg, s, e) && Run(cfg, longer) == after
  {
    longer, after := events + [e], Next(cfg, s, e);
    assert longer[..|events|] == events;
  }

  /** The only client of a run with one round is popped, started and counted. */
  lemma OneInFlight(cfg: Config) returns (events: seq<Event>)
    requires cfg == Config(1, 1, 1, ["hello"], 1)
    ensures Run(cfg, events) ==
            State([], [Item(0, "hello")], [], [Record(0, "hello")], [], 1, 0, 0, Sleeping, Getting, [InFlight])
  {
    events := [];
    var s := Run(cfg, []);
    assert s == State([Item(0, "hello")], [], [], [Record(0, "hello")], [], 0, 0, 0, Checking, Getting, [InReady]);
    events, s := Extend(cfg, events, s, SenderStep(0));
    assert s.sender == Popping;
    events, s := Extend(cfg, events, s, SenderStep(0));
    assert s.sender == Creating(Item(0, "hello")) && s.ready == [];
    events, s := Extend(cfg, events, s, SenderStep(0));
    assert s.sender == Counting && s.flights == [Item(0, "hello")];
    events, s := Extend(cfg, events, s, SenderStep(0));
    events, s := Extend(cfg, events, s, SenderStep(0));
  }

  /** It happens: one client with one round is enough. */
  lemma ResponseCanBeLost() returns (cfg: Config, events: seq<Event>)
    ensures cfg.Valid() &&
            var s := Run(cfg, events);
            s.handler.Exited? && s.responses == [Response(0, true, "hi")] && s.bar == cfg.total && s.completed == 0
  {
    cfg := Config(1, 1, 1, ["hello"], 1);
    events := OneInFlight(cfg);
    var s := Run(cfg, events);
    events, s := Extend(cfg, events, s, Answer(0, true, "hi"));
    assert s.sender == Putting(Response(0, true, "hi")) && s.bar == 1;
    events, s := Extend(cfg, events, s, Timeout);
    assert s.handler == Deciding;
    events, s := Extend(cfg, events, s, HandlerStep);
    assert s.handler == Exited;
    events, s := Extend(cfg, events, s, SenderStep(0));
  }
}
