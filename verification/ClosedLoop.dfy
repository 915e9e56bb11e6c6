/** The workload generator of `benchmark/hicache/bench_multiturn.py`: a sender thread that starts a
    request for whichever client is ready, and a response thread that records the answer and makes
    the client ready again. The two threads share counters, queues and a supply of prompts without
    a common lock. Every statement that touches shared state is a step of its own below, and the
    steps of the two threads interleave freely; the requests themselves run inside the event loop
    of the sender thread, that is, while the sender sleeps. */
module ClosedLoop {
  import opened Sums

  datatype Item = Item(client: nat, payload: string)
  datatype Response = Response(client: nat, success: bool, text: string)
  datatype Record = Record(round: nat, history: string)

  // ----- the ready queue -----

  datatype Policy = Random | Fifo | Unknown
  datatype Popped = Nothing | Got(item: Item) | NotImplemented

  function Without<T>(s: seq<T>, i: nat): seq<T>
    requires i < |s|
  {
    s[..i] + s[i + 1..]
  }

  class ReadyQueue {
    var requests: seq<Item>
    const policy: Policy

    constructor (initRequests: seq<Item>, policy: Policy)
      ensures requests == initRequests && this.policy == policy
    {
      requests := initRequests;
      this.policy := policy;
    }

    method Append(item: Item)
      modifies this
      ensures requests == old(requests) + [item]
    {
      requests := requests + [item];
    }

    /** `choice` is the random index. */
    method Pop(choice: nat) returns (r: Popped)
      requires requests != [] ==> choice < |requests|
      modifies this
      ensures r == if old(requests) == [] then Nothing
                   else if policy.Unknown? then NotImplemented
                   else Got(old(requests)[if policy.Random? then choice else 0])
      ensures requests == if r.Got? then Without(old(requests), if policy.Random? then choice else 0) else old(requests)
    {
      if requests == [] {
        return Nothing;
      }
      match policy
      case Random =>
        r := Got(requests[choice]);
        requests := Without(requests, choice);
      case Fifo =>
        r := Got(requests[0]);
        requests := Without(requests, 0);
      case Unknown =>
        r := NotImplemented;
    }
  }

  // ----- the machine -----

  /** `total` is the length of the progress bar. */
  datatype Config = Config(clients: nat, rounds: nat, maxParallel: nat, inputs: seq<string>, total: nat) {
    /** The sampler returned a prompt for every round of every client, and so one for each client. */
    ghost predicate Valid() { 1 <= rounds && total == clients * rounds && clients <= |inputs| == total }
  }

  /** Where the sender thread is. `Putting`: a request has been answered and counted by the progress
      bar, and its response is about to be queued. */
  datatype Sender = Checking | Popping | Creating(item: Item) | Counting | Testing | Sleeping
            | Putting(response: Response) | Stopped

  /** Where the response thread is. `Deciding`: its wait has timed out, and it is about to look at the
      progress bar. A failed response raises an exception that nothing catches. */
  datatype Handler = Getting | Deciding | Extending(response: Response) | Rounding(client: nat)
            | Completing(client: nat)
                   | Supplying(client: nat) | Appending(client: nat) | Dead(client: nat) | Exited
  {
    /** It has taken a response and not yet let go of the client. */
    predicate Holds() { Extending? || Rounding? || Completing? || Supplying? || Appending? || Dead? }
  }

  /** Where a client is; an auxiliary of the proofs, no step looks at it. */
  datatype Place = InReady | WithSender | InFlight | BeingPut | InResponses | BeingExtended | BeingRounded
                 | BeingCompleted | BeingSupplied | BeingAppended | Finished | Failed

  datatype State = State(
    ready: seq<Item>, flights: seq<Item>, responses: seq<Response>,
    records: seq<Record>, supply: seq<string>,
    sent: int, completed: int, bar: nat,
    sender: Sender, handler: Handler,
    places: seq<Place>)

  /** Sender thread: one statement of its loop, `choice` being the random index; a request in flight
      is answered; the response thread: one statement of its loop, or the end of its ten-second wait. */
  datatype Event = SenderStep(choice: nat) | Answer(flight: nat, success: bool, text: string) | HandlerStep | Timeout

  function Start(cfg: Config): State
    requires cfg.clients <= |cfg.inputs|
  {
    State(
      seq(cfg.clients, i requires 0 <= i < cfg.clients => Item(i, cfg.inputs[i])), [], [],
      seq(cfg.clients, i requires 0 <= i < cfg.clients => Record(0, cfg.inputs[i])), cfg.inputs[cfg.clients..],
      0, 0, 0, Checking, Getting,
      seq(cfg.clients, i => InReady))
  }

  predicate Known(s: State, c: nat) { c < |s.records| && c < |s.places| }

  predicate Enabled(cfg: Config, s: State, e: Event) {
    match e
    case SenderStep(choice) =>
      (match s.sender
       case Popping => s.ready == [] || (choice < |s.ready| && Known(s, s.ready[choice].client))
       case Creating(item) => Known(s, item.client)
       case Putting(r) => Known(s, r.client)
       case Stopped => false
       case _ => true)
    case Answer(flight, _, _) => s.sender.Sleeping? && flight < |s.flights| && Known(s, s.flights[flight].client)
    case HandlerStep =>
      (match s.handler
       case Getting => s.responses != [] && Known(s, s.responses[0].client)
       case Deciding => true
       case Extending(r) => Known(s, r.client)
       case Rounding(c) => Known(s, c)
       case Completing(c) => Known(s, c)
       case Supplying(c) => Known(s, c) && (s.records[c].round < cfg.rounds ==> s.supply != [])
       case Appending(c) => Known(s, c)
       case Dead(_) => false
       case Exited => false)
    case Timeout => s.handler.Getting? && s.responses == []
  }

  function Sends(cfg: Config, s: State, choice: nat): State
    requires Enabled(cfg, s, SenderStep(choice))
  {
    match s.sender
    case Checking => s.(sender := if s.sent - s.completed < cfg.maxParallel then Popping else Sleeping)
    case Popping =>
      if s.ready == [] then s.(sender := Testing)
      else s.(ready := Without(s.ready, choice), sender := Creating(s.ready[choice]),
              places := s.places[s.ready[choice].client := WithSender])
    case Creating(item) => s.(flights := s.flights + [item], sender := Counting,
        places := s.places[item.client := InFlight])
    case Counting => s.(sent := s.sent + 1, sender := Testing)
    case Testing => s.(sender := if s.bar == cfg.total then Stopped else Sleeping)
    case Sleeping => s.(sender := Checking)
    case Putting(r) => s.(responses := s.responses + [r], sender := Sleeping,
        places := s.places[r.client := InResponses])
    case Stopped => s
  }

  function Answered(cfg: Config, s: State, e: Event): State
    requires e.Answer? && Enabled(cfg, s, e)
  {
    var c := s.flights[e.flight].client;
    s.(flights := Without(s.flights, e.flight), bar := s.bar + 1, sender := Putting(Response(c, e.success, e.text)),
       places := s.places[c := BeingPut])
  }

  function Handles(cfg: Config, s: State): State
    requires Enabled(cfg, s, HandlerStep)
  {
    match s.handler
    case Getting =>
      var r := s.responses[0];
      s.(responses := s.responses[1..], handler := if r.success then Extending(r) else Dead(r.client),
         places := s.places[r.client := if r.success then BeingExtended else Failed])
    case Deciding => s.(handler := if s.bar == cfg.total then Exited else Getting)
    case Extending(r) =>
      var record := s.records[r.client];
      s.(records := s.records[r.client := record.(history := record.history + r.text)], handler := Rounding(r.client),
         places := s.places[r.client := BeingRounded])
    case Rounding(c) =>
      s.(records := s.records[c := s.records[c].(round := s.records[c].round + 1)], handler := Completing(c),
         places := s.places[c := BeingCompleted])
    case Completing(c) => s.(completed := s.completed + 1, handler := Supplying(c),
        places := s.places[c := BeingSupplied])
    case Supplying(c) =>
      if s.records[c].round < cfg.rounds then
        var n := |s.supply| - 1;
        s.(records := s.records[c := s.records[c].(history := s.records[c].history + s.supply[n])],
            supply := s.supply[..n],
           handler := Appending(c), places := s.places[c := BeingAppended])
      else s.(handler := Getting, places := s.places[c := Finished])
    case Appending(c) =>
      s.(ready := s.ready + [Item(c, s.records[c].history)], handler := Getting, places := s.places[c := InReady])
    case Dead(_) => s
    case Exited => s
  }

  function Next(cfg: Config, s: State, e: Event): State
    requires Enabled(cfg, s, e)
  {
    match e
    case SenderStep(choice) => Sends(cfg, s, choice)
    case Answer(_, _, _) => Answered(cfg, s, e)
    case HandlerStep => Handles(cfg, s)
    case Timeout => s.(handler := Deciding)
  }

  function Run(cfg: Config, events: seq<Event>): State
    requires cfg.clients <= |cfg.inputs|
  {
    RunFrom(cfg, Start(cfg), events)
  }

  /** An event that is not enabled changes nothing. */
  function RunFrom(cfg: Config, s: State, events: seq<Event>): State {
    if events == [] then s else
      var s' := RunFrom(cfg, s, events[..|events| - 1]);
      var e := events[|events| - 1];
      if Enabled(cfg, s', e) then Next(cfg, s', e) else s'
  }

  // ----- counting over the clients -----

  /** How many entries of a queue belong to client `c`. */
  function Tally(items: seq<Item>, c: nat): nat {
    if items == [] then 0 else Tally(items[..|items| - 1], c) + if items[|items| - 1].client == c then 1 else 0
  }

  lemma {:induction false} TallyWithout(items: seq<Item>, i: nat, c: nat)
    requires i < |items|
    ensures Tally(Without(items, i), c) == Tally(items, c) - if items[i].client == c then 1 else 0
    decreases |items|
  {
    var n := |items| - 1;
    if i < n {
      TallyWithout(items[..n], i, c);
      assert Without(items, i)[..n - 1] == Without(items[..n], i);
    } else {
      assert Without(items, i) == items[..n];
    }
  }

  lemma TallyAppend(items: seq<Item>, item: Item, c: nat)
    ensures Tally(items + [item], c) == Tally(items, c) + if item.client == c then 1 else 0
  {
    assert (items + [item])[..|items|] == items;
  }

  lemma {:induction false} TallyPositive(items: seq<Item>, i: nat)
    requires i < |items|
    ensures Tally(items, items[i].client) >= 1
  {
    TallyWithout(items, i, items[i].client);
  }

  /** The responses as items, so that they can be tallied. */
  function Clients(rs: seq<Response>): seq<Item> {
    seq(|rs|, i requires 0 <= i < |rs| => Item(rs[i].client, ""))
  }

  // ----- the invariant -----

  /** Requests of the client the progress bar has counted. */
  function Answers(p: Place, round: nat): int {
    round + Flag(p.BeingPut? || p.InResponses? || p.BeingExtended? || p.BeingRounded? || p.Failed?)
  }

  /** Follow-up prompts the client has been given. */
  function Handed(cfg: Config, p: Place, round: nat): int {
    if p.BeingCompleted? || p.BeingSupplied? then round - 1 else if p.Finished? then cfg.rounds - 1 else round
  }

  /** The client has a request that was started and is not yet counted as completed. */
  function Outstanding(p: Place): int {
    Flag(p.InFlight? || p.BeingPut? || p.InResponses? || p.BeingExtended? || p.BeingRounded? || p.BeingCompleted?
        || p.Failed?)
  }

  function AnswersOf(s: State): seq<int>
    requires |s.places| == |s.records|
  {
    seq(|s.places|, c requires 0 <= c < |s.places| => Answers(s.places[c], s.records[c].round))
  }

  function HandedOf(cfg: Config, s: State): seq<int>
    requires |s.places| == |s.records|
  {
    seq(|s.places|, c requires 0 <= c < |s.places| => Handed(cfg, s.places[c], s.records[c].round))
  }

  function OutstandingOf(s: State): seq<int> {
    seq(|s.places|, c requires 0 <= c < |s.places| => Outstanding(s.places[c]))
  }

  ghost predicate RoundOk(cfg: Config, p: Place, round: nat) {
    match p
    case BeingCompleted => 1 <= round <= cfg.rounds
    case BeingSupplied => 1 <= round <= cfg.rounds
    case BeingAppended => 1 <= round < cfg.rounds
    case Finished => round == cfg.rounds
    case _ => round < cfg.rounds
  }

  /** Client `c` is where its place says, once, and nowhere else. */
  ghost predicate Located(s: State, c: nat)
    requires c < |s.places|
  {
    var p := s.places[c];
    && Tally(s.ready, c) == Flag(p.InReady?)
    && Tally(s.flights, c) == Flag(p.InFlight?)
    && Tally(Clients(s.responses), c) == Flag(p.InResponses?)
    && (p.WithSender? <==> s.sender.Creating? && s.sender.item.client == c)
    && (p.BeingPut? <==> s.sender.Putting? && s.sender.response.client == c)
    && (p.BeingExtended? <==> s.handler.Extending? && s.handler.response.client == c)
    && (p.BeingRounded? <==> s.handler.Rounding? && s.handler.client == c)
    && (p.BeingCompleted? <==> s.handler.Completing? && s.handler.client == c)
    && (p.BeingSupplied? <==> s.handler.Supplying? && s.handler.client == c)
    && (p.BeingAppended? <==> s.handler.Appending? && s.handler.client == c)
    && (p.Failed? <==> s.handler.Dead? && s.handler.client == c)
  }

  ghost predicate ItemOk(s: State, item: Item) {
    item.client < |s.records| && item.payload == s.records[item.client].history
  }

  ghost predicate Shape(cfg: Config, s: State) {
    && |s.records| == |s.places| == cfg.clients
    && (forall i | 0 <= i < |s.ready| :: ItemOk(s, s.ready[i]))
    && (forall i | 0 <= i < |s.flights| :: ItemOk(s, s.flights[i]))
    && (forall i | 0 <= i < |s.responses| :: s.responses[i].client < cfg.clients)
    && (s.sender.Creating? ==> ItemOk(s, s.sender.item))
    && (s.sender.Putting? ==> s.sender.response.client < cfg.clients)
    && (s.handler.Extending? ==> s.handler.response.client < cfg.clients)
    && (s.handler.Rounding? || s.handler.Completing? || s.handler.Supplying? || s.handler.Appending?
         || s.handler.Dead? ==>
          s.handler.client < cfg.clients)
  }

  ghost predicate Counters(cfg: Config, s: State)
    requires |s.records| == |s.places|
  {
    && s.bar == Sum(AnswersOf(s))
    && |s.supply| + Sum(HandedOf(cfg, s)) + cfg.clients == cfg.total
    && s.sent + Flag(s.sender.Counting?) - s.completed == Sum(OutstandingOf(s))
    && s.sent - s.completed <= cfg.maxParallel
    && (s.sender.Popping? || s.sender.Creating? || s.sender.Counting? ==> s.sent - s.completed < cfg.maxParallel)
  }

  /** When only client `c` moves, each sum changes by what `c` contributes. */
  lemma SumsMove(cfg: Config, s: State, s': State, c: nat)
    requires |s.records| == |s.places| == |s'.records| == |s'.places| && c < |s.places|
    requires s'.places == s.places[c := s'.places[c]]
    requires forall d | 0 <= d < |s.records| && d != c :: s'.records[d].round == s.records[d].round
    ensures Sum(AnswersOf(s')) ==
            Sum(AnswersOf(s)) - Answers(s.places[c], s.records[c].round) + Answers(s'.places[c], s'.records[c].round)
    ensures Sum(HandedOf(cfg, s')) ==
            Sum(HandedOf(cfg, s)) - Handed(cfg, s.places[c], s.records[c].round)
                + Handed(cfg, s'.places[c], s'.records[c].round)
    ensures Sum(OutstandingOf(s')) == Sum(OutstandingOf(s)) - Outstanding(s.places[c]) + Outstanding(s'.places[c])
  {
    SumUpdate(AnswersOf(s), c, Answers(s'.places[c], s'.records[c].round));
    assert AnswersOf(s') == AnswersOf(s)[c := Answers(s'.places[c], s'.records[c].round)];
    SumUpdate(HandedOf(cfg, s), c, Handed(cfg, s'.places[c], s'.records[c].round));
    assert HandedOf(cfg, s') == HandedOf(cfg, s)[c := Handed(cfg, s'.places[c], s'.records[c].round)];
    SumUpdate(OutstandingOf(s), c, Outstanding(s'.places[c]));
    assert OutstandingOf(s') == OutstandingOf(s)[c := Outstanding(s'.places[c])];
  }

  /** Everything of the invariant but the places. */
  ghost predicate Rest(cfg: Config, s: State) {
    && Shape(cfg, s) && Counters(cfg, s)
    && (forall c | 0 <= c < cfg.clients :: RoundOk(cfg, s.places[c], s.records[c].round))
    && (s.sender.Stopped? ==> s.bar == cfg.total)
  }

  ghost predicate AllLocated(s: State) { forall c | 0 <= c < |s.places| :: Located(s, c) }

  ghost predicate Inv(cfg: Config, s: State) { 1 <= cfg.rounds && Rest(cfg, s) && AllLocated(s) }

  /** What a step that moves client `c` and no other has to meet. */
  ghost predicate Moves(cfg: Config, s: State, s': State, c: nat) {
    && |s.records| == |s.places| == |s'.records| == |s'.places| && c < |s.places|
    && s'.places == s.places[c := s'.places[c]]
    && s'.records == s.records[c := s'.records[c]]
    && RoundOk(cfg, s'.places[c], s'.records[c].round)
    && s'.bar - s.bar == Answers(s'.places[c], s'.records[c].round) - Answers(s.places[c], s.records[c].round)
    && |s.supply| - |s'.supply| ==
         Handed(cfg, s'.places[c], s'.records[c].round) - Handed(cfg, s.places[c], s.records[c].round)
    && s'.sent + Flag(s'.sender.Counting?) - s'.completed - (s.sent + Flag(s.sender.Counting?) - s.completed)
         == Outstanding(s'.places[c]) - Outstanding(s.places[c])
    && s'.sent == s.sent && s.completed <= s'.completed
    && (s'.sender == s.sender || (s.sender.Popping? && s'.sender.Creating?)
         || (s.sender.Creating? && s'.sender.Counting?)
          || s'.sender.Sleeping? || s'.sender.Putting?)
    && (s'.sender.Stopped? ==> s'.bar == s.bar)
  }

  lemma MoveKeeps(cfg: Config, s: State, s': State, c: nat)
    requires Rest(cfg, s) && Moves(cfg, s, s', c) && Shape(cfg, s')
    ensures Rest(cfg, s')
  {
    SumsMove(cfg, s, s', c);
  }

  // Each step of the machine keeps every client where its place says ...

  lemma SendsLocated(cfg: Config, s: State, choice: nat)
    requires Shape(cfg, s) && AllLocated(s) && Enabled(cfg, s, SenderStep(choice))
    ensures AllLocated(Sends(cfg, s, choice))
  {
    forall d | 0 <= d < cfg.clients ensures Located(Sends(cfg, s, choice), d) {
      assert Located(s, d);
      match s.sender
      case Popping => PoppingLocated(cfg, s, choice, d);
      case Creating(item) => TallyAppend(s.flights, item, d);
      case Putting(r) => PuttingLocated(cfg, s, choice, d);
      case _ =>
    }
  }

  lemma PoppingLocated(cfg: Config, s: State, choice: nat, d: nat)
    requires Shape(cfg, s) && AllLocated(s) && Enabled(cfg, s, SenderStep(choice)) && s.sender.Popping?
             && d < cfg.clients
    ensures Located(Sends(cfg, s, choice), d)
  {
    assert Located(s, d);
    if s.ready != [] {
      assert Located(s, s.ready[choice].client);
      TallyPositive(s.ready, choice);
      TallyWithout(s.ready, choice, d);
    }
  }

  lemma PuttingLocated(cfg: Config, s: State, choice: nat, d: nat)
    requires Shape(cfg, s) && AllLocated(s) && Enabled(cfg, s, SenderStep(choice)) && s.sender.Putting?
             && d < cfg.clients
    ensures Located(Sends(cfg, s, choice), d)
  {
    assert Located(s, d);
    var c := s.sender.response.client;
    assert Clients(Sends(cfg, s, choice).responses) == Clients(s.responses) + [Item(c, "")];
    TallyAppend(Clients(s.responses), Item(c, ""), d);
  }

  lemma AnsweredLocated(cfg: Config, s: State, e: Event)
    requires Shape(cfg, s) && AllLocated(s) && e.Answer? && Enabled(cfg, s, e)
    ensures AllLocated(Answered(cfg, s, e))
    ensures s.places[s.flights[e.flight].client].InFlight?
  {
    assert Located(s, s.flights[e.flight].client);
    TallyPositive(s.flights, e.flight);
    forall d | 0 <= d < cfg.clients ensures Located(Answered(cfg, s, e), d) {
      assert Located(s, d);
      TallyWithout(s.flights, e.flight, d);
    }
  }

  lemma GettingLocated(cfg: Config, s: State)
    requires Shape(cfg, s) && AllLocated(s) && Enabled(cfg, s, HandlerStep) && s.handler.Getting?
    ensures AllLocated(Handles(cfg, s))
  {
    var s' := Handles(cfg, s);
    var items := Clients(s.responses);
    TallyPositive(items, 0);
    assert Located(s, s.responses[0].client);
    assert Clients(s'.responses) == Without(items, 0);
    forall d | 0 <= d < cfg.clients ensures Located(s', d) {
      assert Located(s, d);
      TallyWithout(items, 0, d);
    }
  }

  lemma HandlingLocated(cfg: Config, s: State)
    requires Shape(cfg, s) && AllLocated(s) && Enabled(cfg, s, HandlerStep) && s.handler.Holds()
    ensures AllLocated(Handles(cfg, s))
  {
    var s' := Handles(cfg, s);
    forall d | 0 <= d < cfg.clients ensures Located(s', d) {
      assert Located(s, d);
      if s.handler.Appending? {
        TallyAppend(s.ready, Item(s.handler.client, s.records[s.handler.client].history), d);
      }
    }
  }

  // ... and keeps the counters in step with the places.

  /** Nobody else holds an item of a client the response thread is working on. */
  lemma NoItemOf(cfg: Config, s: State, c: nat)
    requires Shape(cfg, s) && AllLocated(s) && c < cfg.clients
    ensures !s.places[c].InReady? ==> forall i | 0 <= i < |s.ready| :: s.ready[i].client != c
    ensures !s.places[c].InFlight? ==> forall i | 0 <= i < |s.flights| :: s.flights[i].client != c
    ensures !s.places[c].WithSender? ==> !(s.sender.Creating? && s.sender.item.client == c)
  {
    assert Located(s, c);
    forall i | 0 <= i < |s.ready| && !s.places[c].InReady? ensures s.ready[i].client != c {
      TallyPositive(s.ready, i);
    }
    forall i | 0 <= i < |s.flights| && !s.places[c].InFlight? ensures s.flights[i].client != c {
      TallyPositive(s.flights, i);
    }
  }

  /** The place of the client a step moves. */
  lemma PlaceOfMover(cfg: Config, s: State, e: Event)
    requires Shape(cfg, s) && AllLocated(s) && Enabled(cfg, s, e)
    ensures e.SenderStep? && s.sender.Popping? && s.ready != [] ==> s.places[s.ready[e.choice].client] == InReady
    ensures e.SenderStep? && s.sender.Creating? ==> s.places[s.sender.item.client] == WithSender
    ensures e.SenderStep? && s.sender.Putting? ==> s.places[s.sender.response.client] == BeingPut
    ensures e.Answer? ==> s.places[s.flights[e.flight].client] == InFlight
    ensures e.HandlerStep? && s.handler.Getting? ==> s.places[s.responses[0].client] == InResponses
    ensures e.HandlerStep? && s.handler.Holds() ==> s.places[InHand(s.handler)] == PlaceInHand(s.handler)
  {
    match e
    case SenderStep(choice) =>
      if s.sender.Popping? && s.ready != [] {
        TallyPositive(s.ready, choice);
        assert Located(s, s.ready[choice].client);
      } else if s.sender.Creating? {
        assert Located(s, s.sender.item.client);
      } else if s.sender.Putting? {
        assert Located(s, s.sender.response.client);
      }
    case Answer(flight, _, _) =>
      TallyPositive(s.flights, flight);
      assert Located(s, s.flights[flight].client);
    case HandlerStep =>
      if s.handler.Getting? {
        TallyPositive(Clients(s.responses), 0);
        assert Located(s, s.responses[0].client);
      } else if s.handler.Holds() {
        assert Located(s, InHand(s.handler));
      }
    case Timeout =>
  }

  function InHand(h: Handler): nat
    requires h.Holds()
  {
    if h.Extending? then h.response.client else h.client
  }

  function PlaceInHand(h: Handler): Place
    requires h.Holds()
  {
    match h
    case Extending(_) => BeingExtended
    case Rounding(_) => BeingRounded
    case Completing(_) => BeingCompleted
    case Supplying(_) => BeingSupplied
    case Appending(_) => BeingAppended
    case _ => Failed
  }

  lemma PoppingRest(cfg: Config, s: State, choice: nat)
    requires Inv(cfg, s) && Enabled(cfg, s, SenderStep(choice)) && s.sender.Popping? && s.ready != []
    requires s.places[s.ready[choice].client] == InReady
    ensures Rest(cfg, Sends(cfg, s, choice))
  {
    MoveKeeps(cfg, s, Sends(cfg, s, choice), s.ready[choice].client);
  }

  lemma CreatingRest(cfg: Config, s: State, choice: nat)
    requires Rest(cfg, s) && Enabled(cfg, s, SenderStep(choice)) && s.sender.Creating?
    requires s.places[s.sender.item.client] == WithSender
    ensures Rest(cfg, Sends(cfg, s, choice))
  {
    MoveKeeps(cfg, s, Sends(cfg, s, choice), s.sender.item.client);
  }

  lemma PuttingRest(cfg: Config, s: State, choice: nat)
    requires Rest(cfg, s) && Enabled(cfg, s, SenderStep(choice)) && s.sender.Putting?
    requires s.places[s.sender.response.client] == BeingPut
    ensures Rest(cfg, Sends(cfg, s, choice))
  {
    MoveKeeps(cfg, s, Sends(cfg, s, choice), s.sender.response.client);
  }

  lemma SendsRest(cfg: Config, s: State, choice: nat)
    requires Inv(cfg, s) && Enabled(cfg, s, SenderStep(choice))
    ensures Rest(cfg, Sends(cfg, s, choice))
  {
    PlaceOfMover(cfg, s, SenderStep(choice));
    if s.sender.Popping? && s.ready != [] {
      PoppingRest(cfg, s, choice);
    } else if s.sender.Creating? {
      CreatingRest(cfg, s, choice);
    } else if s.sender.Putting? {
      PuttingRest(cfg, s, choice);
    } else {
      SameSums(cfg, s, Sends(cfg, s, choice));
    }
  }

  lemma SameSums(cfg: Config, s: State, s': State)
    requires |s.records| == |s.places| && s'.places == s.places && s'.records == s.records
    ensures AnswersOf(s') == AnswersOf(s) && HandedOf(cfg, s') == HandedOf(cfg, s)
            && OutstandingOf(s') == OutstandingOf(s)
  {
  }

  /** The response thread goes on with no client in its hands before or after. */
  lemma OnlyThreadsMove(cfg: Config, s: State, s': State)
    requires AllLocated(s) && |s.places| == cfg.clients && s' == s.(handler := s'.handler)
    requires !s.handler.Holds() && !s'.handler.Holds()
    ensures AllLocated(s')
  {
    forall d | 0 <= d < cfg.clients ensures Located(s', d) {
      assert Located(s, d);
    }
  }

  lemma AnsweredRest(cfg: Config, s: State, e: Event)
    requires Inv(cfg, s) && e.Answer? && Enabled(cfg, s, e)
    ensures Rest(cfg, Answered(cfg, s, e))
  {
    PlaceOfMover(cfg, s, e);
    MoveKeeps(cfg, s, Answered(cfg, s, e), s.flights[e.flight].client);
  }

  lemma GettingRest(cfg: Config, s: State)
    requires Rest(cfg, s) && Enabled(cfg, s, HandlerStep) && s.handler.Getting?
    requires s.places[s.responses[0].client] == InResponses
    ensures Rest(cfg, Handles(cfg, s))
  {
    MoveKeeps(cfg, s, Handles(cfg, s), s.responses[0].client);
  }

  /** The items of other clients still carry the history of their client. */
  lemma HandlingShape(cfg: Config, s: State)
    requires Rest(cfg, s) && AllLocated(s) && Enabled(cfg, s, HandlerStep) && s.handler.Holds()
    requires s.places[InHand(s.handler)] == PlaceInHand(s.handler)
    ensures Shape(cfg, Handles(cfg, s))
  {
    NoItemOf(cfg, s, InHand(s.handler));
  }

  lemma HandlingRest(cfg: Config, s: State)
    requires Rest(cfg, s) && Enabled(cfg, s, HandlerStep) && s.handler.Holds() && Shape(cfg, Handles(cfg, s))
    requires s.places[InHand(s.handler)] == PlaceInHand(s.handler)
    ensures Rest(cfg, Handles(cfg, s))
  {
    assert RoundOk(cfg, s.places[InHand(s.handler)], s.records[InHand(s.handler)].round);
    MoveKeeps(cfg, s, Handles(cfg, s), InHand(s.handler));
  }

  lemma HandlesKeeps(cfg: Config, s: State)
    requires Inv(cfg, s) && Enabled(cfg, s, HandlerStep)
    ensures Inv(cfg, Handles(cfg, s))
  {
    PlaceOfMover(cfg, s, HandlerStep);
    if s.handler.Getting? {
      GettingLocated(cfg, s);
      GettingRest(cfg, s);
    } else if s.handler.Deciding? {
      SameSums(cfg, s, Handles(cfg, s));
      OnlyThreadsMove(cfg, s, Handles(cfg, s));
    } else {
      HandlingLocated(cfg, s);
      HandlingShape(cfg, s);
      HandlingRest(cfg, s);
    }
  }

  lemma NextKeeps(cfg: Config, s: State, e: Event)
    requires Inv(cfg, s) && Enabled(cfg, s, e)
    ensures Inv(cfg, Next(cfg, s, e))
  {
    match e
    case SenderStep(choice) =>
      SendsLocated(cfg, s, choice);
      SendsRest(cfg, s, choice);
    case Answer(_, _, _) =>
      AnsweredLocated(cfg, s, e);
      AnsweredRest(cfg, s, e);
    case HandlerStep =>
      HandlesKeeps(cfg, s);
    case Timeout =>
      SameSums(cfg, s, Next(cfg, s, e));
      OnlyThreadsMove(cfg, s, Next(cfg, s, e));
  }

  lemma {:induction false} TallyStart(cfg: Config, n: nat, c: nat)
    requires n <= cfg.clients <= |cfg.inputs|
    ensures Tally(Start(cfg).ready[..n], c) == Flag(c < n)
  {
    if n > 0 {
      TallyStart(cfg, n - 1, c);
      assert Start(cfg).ready[..n][..n - 1] == Start(cfg).ready[..n - 1];
    }
  }

  lemma StartInv(cfg: Config)
    requires cfg.Valid()
    ensures Inv(cfg, Start(cfg))
  {
    var s := Start(cfg);
    forall c | 0 <= c < cfg.clients ensures Located(s, c) {
      TallyStart(cfg, cfg.clients, c);
      assert s.ready[..cfg.clients] == s.ready;
    }
    SumZero(AnswersOf(s));
    SumZero(HandedOf(cfg, s));
    SumZero(OutstandingOf(s));
  }

  lemma {:induction false} RunFromInv(cfg: Config, s: State, events: seq<Event>)
    requires Inv(cfg, s)
    ensures Inv(cfg, RunFrom(cfg, s, events)) && s.bar <= RunFrom(cfg, s, events).bar
    decreases |events|
  {
    if events != [] {
      var s', e := RunFrom(cfg, s, events[..|events| - 1]), events[|events| - 1];
      RunFromInv(cfg, s, events[..|events| - 1]);
      if Enabled(cfg, s', e) {
        NextKeeps(cfg, s', e);
      }
    }
  }

  lemma RunInv(cfg: Config, events: seq<Event>)
    requires cfg.Valid()
    ensures Inv(cfg, Run(cfg, events))
  {
    StartInv(cfg);
    RunFromInv(cfg, Start(cfg), events);
  }
}
