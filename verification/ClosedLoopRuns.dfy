/** What holds in every run of the machine in `ClosedLoop`. */
module ClosedLoopRuns {
  import opened Sums
  import opened ClosedLoop

  /** How often client `c` occurs in the queues, among the requests, and in the hands of the threads. */
  function Copies(s: State, c: nat): nat {
    Tally(s.ready, c) + Tally(s.flights, c) + Tally(Clients(s.responses), c)
      + Flag((s.sender.Creating? && s.sender.item.client == c) || (s.sender.Putting? && s.sender.response.client == c))
      + Flag(s.handler.Holds() && InHand(s.handler) == c)
  }

  /** A client is in exactly one place until it has finished its rounds, and in none after that. */
  lemma EachClientOnce(cfg: Config, events: seq<Event>, c: nat)
    requires cfg.Valid() && c < cfg.clients
    ensures |Run(cfg, events).records| == cfg.clients
    ensures Copies(Run(cfg, events), c) <= 1
    ensures Copies(Run(cfg, events), c) == 0 ==> Run(cfg, events).records[c].round == cfg.rounds
    ensures Run(cfg, events).records[c].round < cfg.rounds ==> Copies(Run(cfg, events), c) == 1
  {
    RunInv(cfg, events);
    var s := Run(cfg, events);
    assert Located(s, c) && RoundOk(cfg, s.places[c], s.records[c].round);
  }

  function Tallies(items: seq<Item>, n: nat): seq<int> { seq(n, c requires 0 <= c < n => Tally(items, c)) }

  lemma {:induction false} TallySum(items: seq<Item>, n: nat)
    requires forall i | 0 <= i < |items| :: items[i].client < n
    ensures Sum(Tallies(items, n)) == |items|
    decreases |items|
  {
    var v := Tallies(items, n);
    if items == [] {
      SumZero(v);
    } else {
      var m := |items| - 1;
      var w := Tallies(items[..m], n);
      TallySum(items[..m], n);
      SumUpdate(w, items[m].client, w[items[m].client] + 1);
      assert v == w[items[m].client := w[items[m].client] + 1];
    }
  }

  /** The bound on parallel requests holds at every moment, both for the difference of the two
      unlocked counters and for the requests really in flight. */
  lemma ParallelBound(cfg: Config, events: seq<Event>)
    requires cfg.Valid()
    ensures Run(cfg, events).sent - Run(cfg, events).completed <= cfg.maxParallel
    ensures |Run(cfg, events).flights| <= cfg.maxParallel
  {
    RunInv(cfg, events);
    var s := Run(cfg, events);
    TallySum(s.flights, cfg.clients);
    var v := Tallies(s.flights, cfg.clients);
    forall c | 0 <= c < cfg.clients ensures v[c] <= OutstandingOf(s)[c] {
      assert Located(s, c);
    }
    SumMonotone(v, OutstandingOf(s));
  }

  lemma FollowUps(cfg: Config)
    requires cfg.Valid()
    ensures cfg.clients * (cfg.rounds - 1) + cfg.clients == cfg.total
  {
  }

  /** The supply is not empty when a follow-up is taken from it. */
  lemma SupplyLasts(cfg: Config, s: State)
    requires cfg.Valid() && Inv(cfg, s) && s.handler.Supplying? && s.records[s.handler.client].round < cfg.rounds
    ensures s.supply != []
  {
    var c, m := s.handler.client, cfg.rounds - 1;
    assert Located(s, c);
    var v := HandedOf(cfg, s);
    forall d | 0 <= d < |v| ensures v[d] <= m {
      assert RoundOk(cfg, s.places[d], s.records[d].round);
    }
    assert v[c] < m;
    SumUpdate(v, c, m);
    SumBound(v[c := m], m);
    FollowUps(cfg);
  }

  /** Prompts are conserved, and the response thread never takes one from an empty supply: whenever
      it holds a client, its next statement can be executed. */
  lemma SupplyConserved(cfg: Config, events: seq<Event>)
    requires cfg.Valid()
    ensures |Run(cfg, events).records| == |Run(cfg, events).places|
    ensures |Run(cfg, events).supply| + Sum(HandedOf(cfg, Run(cfg, events))) == cfg.clients * (cfg.rounds - 1)
    ensures var h := Run(cfg, events).handler;
      h.Holds() && !h.Dead? ==> Enabled(cfg, Run(cfg, events), HandlerStep)
  {
    RunInv(cfg, events);
    var s := Run(cfg, events);
    FollowUps(cfg);
    if s.handler.Supplying? && s.records[s.handler.client].round < cfg.rounds {
      SupplyLasts(cfg, s);
    }
  }

  lemma BarBound(cfg: Config, s: State)
    requires cfg.Valid() && Inv(cfg, s)
    ensures s.bar <= cfg.total
    ensures s.bar == cfg.total ==> forall c | 0 <= c < cfg.clients ::
            Answers(s.places[c], s.records[c].round) == cfg.rounds
  {
    var v := AnswersOf(s);
    forall c | 0 <= c < |v| ensures v[c] <= cfg.rounds {
      assert RoundOk(cfg, s.places[c], s.records[c].round);
    }
    SumBound(v, cfg.rounds);
    if s.bar == cfg.total {
      forall c | 0 <= c < cfg.clients ensures Answers(s.places[c], s.records[c].round) == cfg.rounds {
        SumFull(v, cfg.rounds, c);
        assert v[c] == Answers(s.places[c], s.records[c].round);
      }
    }
  }

  lemma NobodyLeft(items: seq<Item>, n: nat)
    requires forall i | 0 <= i < |items| :: items[i].client < n
    requires forall c | 0 <= c < n :: Tally(items, c) == 0
    ensures items == []
  {
    if items != [] {
      TallyPositive(items, 0);
    }
  }

  lemma Drained(cfg: Config, s: State)
    requires cfg.Valid() && Inv(cfg, s) && s.bar == cfg.total
    ensures s.ready == [] && s.flights == [] && !s.sender.Creating?
  {
    BarBound(cfg, s);
    forall c | 0 <= c < cfg.clients
      ensures Tally(s.ready, c) == 0 && Tally(s.flights, c) == 0 && s.places[c] != WithSender
    {
      assert Located(s, c) && RoundOk(cfg, s.places[c], s.records[c].round);
      assert Answers(s.places[c], s.records[c].round) == cfg.rounds;
    }
    NobodyLeft(s.ready, cfg.clients);
    NobodyLeft(s.flights, cfg.clients);
    if s.sender.Creating? {
      PlaceOfMover(cfg, s, SenderStep(0));
    }
  }

  /** Once the progress bar is full, no client is ready or in flight, and that never changes again.
      The sender therefore stops only when every request has been answered. */
  lemma FullMeansDrained(cfg: Config, before: seq<Event>, after: seq<Event>)
    requires cfg.Valid()
    ensures Run(cfg, before).bar <= cfg.total
    ensures Run(cfg, before).sender.Stopped? ==> Run(cfg, before).bar == cfg.total
    ensures Run(cfg, before).bar == cfg.total ==>
      var s := RunFrom(cfg, Run(cfg, before), after);
      s.bar == cfg.total && s.ready == [] && s.flights == [] && !s.sender.Creating?
  {
    RunInv(cfg, before);
    BarBound(cfg, Run(cfg, before));
    if Run(cfg, before).bar == cfg.total {
      RunFromInv(cfg, Run(cfg, before), after);
      BarBound(cfg, RunFrom(cfg, Run(cfg, before), after));
      Drained(cfg, RunFrom(cfg, Run(cfg, before), after));
    }
  }
}
