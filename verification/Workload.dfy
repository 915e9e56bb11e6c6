/** The object the two threads of `benchmark/hicache/bench_multiturn.py` share, and how its methods
    take the steps of the machine in `ClosedLoop`. */
module Workload {
  import opened ClosedLoop
  import opened ClosedLoopRuns

  /** The supply is not empty if the first response calls for a follow-up. */
  ghost predicate FollowUpAtHand(cfg: Config, s: State)
    requires s.handler.Getting? && Enabled(cfg, s, HandlerStep)
  {
    var r := s.responses[0];
    r.success && s.records[r.client].round + 1 < cfg.rounds ==> s.supply != []
  }

  /** The handler's statements for one response, executed without interruption. */
  ghost function Turn(cfg: Config, s: State): State
    requires s.handler.Getting? && Enabled(cfg, s, HandlerStep) && FollowUpAtHand(cfg, s)
  {
    var s1 := Handles(cfg, s);
    if s1.handler.Dead? then s1 else
      var s5 := Handles(cfg, Handles(cfg, Handles(cfg, Handles(cfg, s1))));
      if s5.handler.Getting? then s5 else Handles(cfg, s5)
  }

  /** In every state that a run can reach, a follow-up is at hand if one will be needed. */
  lemma AlwaysAtHand(cfg: Config, s: State)
    requires cfg.Valid() && Inv(cfg, s) && s.handler.Getting? && Enabled(cfg, s, HandlerStep)
    ensures FollowUpAtHand(cfg, s)
  {
    var r := s.responses[0];
    if r.success && s.records[r.client].round + 1 < cfg.rounds {
      NextKeeps(cfg, s, HandlerStep);
      var s1 := Handles(cfg, s);
      NextKeeps(cfg, s1, HandlerStep);
      var s2 := Handles(cfg, s1);
      NextKeeps(cfg, s2, HandlerStep);
      var s3 := Handles(cfg, s2);
      NextKeeps(cfg, s3, HandlerStep);
      SupplyLasts(cfg, Handles(cfg, s3));
    }
  }

  /** `n` statements of the response thread in a row. */
  function Alone(n: nat): seq<Event> { seq(n, _ => HandlerStep) }

  lemma AloneStep(cfg: Config, s: State, n: nat, s': State)
    requires RunFrom(cfg, s, Alone(n)) == s' && Enabled(cfg, s', HandlerStep)
    ensures RunFrom(cfg, s, Alone(n + 1)) == Handles(cfg, s')
  {
    assert Alone(n + 1)[..n] == Alone(n);
  }

  /** The first three statements for a successful response. */
  lemma ThreeSteps(cfg: Config, s: State) returns (s3: State)
    requires s.handler.Getting? && Enabled(cfg, s, HandlerStep) && s.responses[0].success
    ensures s3 == Handles(cfg, Handles(cfg, Handles(cfg, s))) == RunFrom(cfg, s, Alone(3))
  {
    assert Alone(0) == [];
    AloneStep(cfg, s, 0, s);
    var s1 := Handles(cfg, s);
    AloneStep(cfg, s, 1, s1);
    var s2 := Handles(cfg, s1);
    AloneStep(cfg, s, 2, s2);
    s3 := Handles(cfg, s2);
  }

  /** A turn is a run of the machine in which only the response thread moves. */
  lemma TurnIsRun(cfg: Config, s: State) returns (n: nat)
    requires s.handler.Getting? && Enabled(cfg, s, HandlerStep) && FollowUpAtHand(cfg, s)
    ensures Turn(cfg, s) == RunFrom(cfg, s, Alone(n))
  {
    if s.responses[0].success {
      var s3 := ThreeSteps(cfg, s);
      AloneStep(cfg, s, 3, s3);
      var s4 := Handles(cfg, s3);
      AloneStep(cfg, s, 4, s4);
      var s5 := Handles(cfg, s4);
      n := 5;
      if !s5.handler.Getting? {
        AloneStep(cfg, s, 5, s5);
        n := 6;
      }
    } else {
      assert Alone(0) == [];
      AloneStep(cfg, s, 0, s);
      n := 1;
    }
  }

  class WorkloadGenerator {
    const cfg: Config
    const readyQueue: ReadyQueue
    var responseQueue: seq<Response>
    var clientRecords: seq<Record>
    var candidateInputs: seq<string>
    var sentRequests: int
    var completedRequests: int
    var bar: nat

    /** The object holds the shared part of a state of the machine. */
    ghost predicate Shows(s: State)
      reads this, readyQueue
    {
      && readyQueue.requests == s.ready && responseQueue == s.responses && clientRecords == s.records
      && candidateInputs == s.supply && sentRequests == s.sent && completedRequests == s.completed && bar == s.bar
    }

    constructor (cfg: Config)
      requires cfg.clients <= |cfg.inputs|
      ensures this.cfg == cfg && fresh(readyQueue) && Shows(Start(cfg))
    {
      this.cfg := cfg;
      var initRequests := seq(cfg.clients, i requires 0 <= i < cfg.clients => Item(i, cfg.inputs[i]));
      readyQueue := new ReadyQueue(initRequests, Random);
      clientRecords := seq(cfg.clients, i requires 0 <= i < cfg.clients => Record(0, initRequests[i].payload));
      candidateInputs := cfg.inputs[cfg.clients..];
      responseQueue := [];
      sentRequests, completedRequests, bar := 0, 0, 0;
    }

    /** One round of `response_handler`: take a response, record it, and make the client ready again
        unless it has finished its rounds. */
    method HandleResponse(ghost s: State) returns (raised: bool)
      requires Shows(s) && s.handler.Getting? && Enabled(cfg, s, HandlerStep) && FollowUpAtHand(cfg, s)
      modifies this, readyQueue
      ensures Shows(Turn(cfg, s)) && (raised <==> Turn(cfg, s).handler.Dead?)
    {
      var response := responseQueue[0];
      responseQueue := responseQueue[1..];
      if !response.success {
        return true;
      }
      var c := response.client;
      clientRecords := clientRecords[c := Record(clientRecords[c].round, clientRecords[c].history + response.text)];
      clientRecords := clientRecords[c := Record(clientRecords[c].round + 1, clientRecords[c].history)];
      completedRequests := completedRequests + 1;
      if clientRecords[c].round < cfg.rounds {
        var followUp := candidateInputs[|candidateInputs| - 1];
        candidateInputs := candidateInputs[..|candidateInputs| - 1];
        clientRecords := clientRecords[c := Record(clientRecords[c].round, clientRecords[c].history + followUp)];
        readyQueue.Append(Item(c, clientRecords[c].history));
      }
      return false;
    }
  }
}
