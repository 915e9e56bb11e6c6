/** What the clients of `ClosedLoop` say: a history is the first prompt followed, round by round, by the text
    of the answer and the follow-up prompt. Follow-ups come from the end of the supply, each given once. */
module ClosedLoopHistories {
  import opened Sums
  import opened ClosedLoop
  import opened ClosedLoopRuns

  /** The client a step gives a follow-up prompt to is in hand and has not finished its rounds. */
  predicate GivesFollowUp(cfg: Config, s: State, e: Event) {
    && e.HandlerStep? && Enabled(cfg, s, e)
    && s.handler.Supplying? && s.records[s.handler.client].round < cfg.rounds
  }

  predicate IsAnswerTo(cfg: Config, s: State, e: Event, c: nat) {
    e.Answer? && Enabled(cfg, s, e) && s.flights[e.flight].client == c
  }

  /** The answers to the requests of client `c`, in order. */
  function AnswersTo(cfg: Config, events: seq<Event>, c: nat): seq<Response>
    requires cfg.clients <= |cfg.inputs|
  {
    if events == [] then [] else
      var before, e := events[..|events| - 1], events[|events| - 1];
      AnswersTo(cfg, before, c) +
        if IsAnswerTo(cfg, Run(cfg, before), e, c) then [Response(c, e.success, e.text)] else []
  }

  /** Whom the follow-up prompts were given to, in order. */
  function GivenTo(cfg: Config, events: seq<Event>): seq<nat>
    requires cfg.clients <= |cfg.inputs|
  {
    if events == [] then [] else
      var before, e := events[..|events| - 1], events[|events| - 1];
      var s := Run(cfg, before);
      GivenTo(cfg, before) + if GivesFollowUp(cfg, s, e) then [s.handler.client] else []
  }

  /** The prompts among the first `|given|` from the end of the inputs that client `c` was given. */
  function FollowUpsOf(inputs: seq<string>, given: seq<nat>, c: nat): seq<string>
    requires |given| <= |inputs|
  {
    if given == [] then [] else
      var n := |given| - 1;
      FollowUpsOf(inputs, given[..n], c) + if given[n] == c then [inputs[|inputs| - 1 - n]] else []
  }

  /** The first prompt, then an answer and, as far as there is one, a follow-up for each round. */
  function Story(first: string, answers: seq<Response>, followUps: seq<string>): string {
    if answers == [] then first else
      var n := |answers| - 1;
      if n < |followUps| then Story(first, answers[..n], followUps[..n]) + answers[n].text + followUps[n]
      else Story(first, answers[..n], followUps) + answers[n].text
  }

  // ----- one client -----

  /** Answers that are part of the history. */
  function Recorded(p: Place, round: nat): nat { round + if p.BeingRounded? then 1 else 0 }

  ghost predicate ClientOk(cfg: Config, s: State, answers: seq<Response>, followUps: seq<string>, c: nat)
    requires |s.records| == |s.places| == cfg.clients <= |cfg.inputs| && c < cfg.clients
  {
    var p, record := s.places[c], s.records[c];
    var n := Recorded(p, record.round);
    && |answers| == Answers(p, record.round) && |followUps| == Handed(cfg, p, record.round) && n <= |answers|
    && (forall i | 0 <= i < n :: answers[i].success)
    && record.history == Story(cfg.inputs[c], answers[..n], followUps)
    && Pending(s, answers, c)
  }

  /** A response of the client that is on its way is the last of its answers. */
  ghost predicate Pending(s: State, answers: seq<Response>, c: nat) {
    && (s.sender.Putting? && s.sender.response.client == c ==> IsLast(answers, s.sender.response))
    && (forall i | 0 <= i < |s.responses| && s.responses[i].client == c :: IsLast(answers, s.responses[i]))
    && (s.handler.Extending? && s.handler.response.client == c ==>
          IsLast(answers, s.handler.response) && s.handler.response.success)
  }

  predicate IsLast(answers: seq<Response>, r: Response) { answers != [] && r == answers[|answers| - 1] }

  function NewAnswers(cfg: Config, s: State, e: Event, c: nat): seq<Response> {
    if IsAnswerTo(cfg, s, e, c) then [Response(c, e.success, e.text)] else []
  }

  function NewFollowUps(cfg: Config, s: State, e: Event, c: nat): seq<string> {
    if GivesFollowUp(cfg, s, e) && s.handler.client == c && s.supply != [] then [s.supply[|s.supply| - 1]] else []
  }

  /** What a step does to client `c`. */
  ghost predicate StepOk(cfg: Config, s: State, e: Event, answers: seq<Response>, followUps: seq<string>, c: nat)
    requires Inv(cfg, s) && Enabled(cfg, s, e) && cfg.clients <= |cfg.inputs| && c < cfg.clients
  {
    && |Next(cfg, s, e).records| == |Next(cfg, s, e).places| == cfg.clients
    && ClientOk(cfg, Next(cfg, s, e), answers + NewAnswers(cfg, s, e, c), followUps + NewFollowUps(cfg, s, e, c), c)
  }

  lemma SenderStepOk(cfg: Config, s: State, e: Event, answers: seq<Response>, followUps: seq<string>, c: nat)
    requires Inv(cfg, s) && Enabled(cfg, s, e) && cfg.clients <= |cfg.inputs| && c < cfg.clients
    requires ClientOk(cfg, s, answers, followUps, c) && (e.SenderStep? || e.Timeout?)
    ensures StepOk(cfg, s, e, answers, followUps, c)
  {
    assert answers + [] == answers && followUps + [] == followUps;
    if e.SenderStep? {
      SenderMoves(cfg, s, e.choice, c);
      SenderPending(cfg, s, e.choice, answers, c);
    }
  }

  /** The sender changes no count and no history. */
  lemma SenderMoves(cfg: Config, s: State, choice: nat, c: nat)
    requires Inv(cfg, s) && Enabled(cfg, s, SenderStep(choice)) && c < cfg.clients
    ensures var s' := Sends(cfg, s, choice);
      && s'.records == s.records && |s'.places| == |s.places|
      && Answers(s'.places[c], s.records[c].round) == Answers(s.places[c], s.records[c].round)
      && Handed(cfg, s'.places[c], s.records[c].round) == Handed(cfg, s.places[c], s.records[c].round)
      && Recorded(s'.places[c], s.records[c].round) == Recorded(s.places[c], s.records[c].round)
  {
    PlaceOfMover(cfg, s, SenderStep(choice));
  }

  lemma SenderPending(cfg: Config, s: State, choice: nat, answers: seq<Response>, c: nat)
    requires Enabled(cfg, s, SenderStep(choice)) && Pending(s, answers, c)
    ensures Pending(Sends(cfg, s, choice), answers, c)
  {
  }

  lemma AnswerOk(cfg: Config, s: State, e: Event, answers: seq<Response>, followUps: seq<string>, c: nat)
    requires Inv(cfg, s) && Enabled(cfg, s, e) && cfg.clients <= |cfg.inputs| && c < cfg.clients
    requires ClientOk(cfg, s, answers, followUps, c) && e.Answer?
    ensures StepOk(cfg, s, e, answers, followUps, c)
  {
    PlaceOfMover(cfg, s, e);
    assert answers + [] == answers && followUps + [] == followUps;
    if s.flights[e.flight].client == c {
      assert Located(s, c);
      NoResponseOf(cfg, s, c);
      var n := Recorded(s.places[c], s.records[c].round);
      assert (answers + NewAnswers(cfg, s, e, c))[..n] == answers[..n];
    }
  }

  lemma NoResponseOf(cfg: Config, s: State, c: nat)
    requires Shape(cfg, s) && AllLocated(s) && c < cfg.clients && !s.places[c].InResponses?
    ensures forall i | 0 <= i < |s.responses| :: s.responses[i].client != c
  {
    assert Located(s, c);
    forall i | 0 <= i < |s.responses| ensures s.responses[i].client != c {
      TallyPositive(Clients(s.responses), i);
    }
  }

  lemma GettingOk(cfg: Config, s: State, answers: seq<Response>, followUps: seq<string>, c: nat)
    requires Inv(cfg, s) && Enabled(cfg, s, HandlerStep) && cfg.clients <= |cfg.inputs| && c < cfg.clients
    requires ClientOk(cfg, s, answers, followUps, c) && (s.handler.Getting? || s.handler.Deciding?)
    ensures StepOk(cfg, s, HandlerStep, answers, followUps, c)
  {
    PlaceOfMover(cfg, s, HandlerStep);
    assert answers + [] == answers && followUps + [] == followUps;
  }

  lemma HoldingOk(cfg: Config, s: State, answers: seq<Response>, followUps: seq<string>, c: nat)
    requires Inv(cfg, s) && Enabled(cfg, s, HandlerStep) && cfg.clients <= |cfg.inputs| && c < cfg.clients
    requires cfg.Valid() && ClientOk(cfg, s, answers, followUps, c) && s.handler.Holds()
    ensures StepOk(cfg, s, HandlerStep, answers, followUps, c)
  {
    PlaceOfMover(cfg, s, HandlerStep);
    assert RoundOk(cfg, s.places[InHand(s.handler)], s.records[InHand(s.handler)].round);
    assert answers + [] == answers && followUps + [] == followUps;
    if InHand(s.handler) != c {
      OtherInHand(cfg, s, answers, followUps, c);
    } else if s.handler.Extending? {
      ExtendingOk(cfg, s, answers, followUps, c);
    } else if GivesFollowUp(cfg, s, HandlerStep) {
      SupplyingOk(cfg, s, answers, followUps, c);
    }
  }

  lemma OtherInHand(cfg: Config, s: State, answers: seq<Response>, followUps: seq<string>, c: nat)
    requires Inv(cfg, s) && Enabled(cfg, s, HandlerStep) && cfg.clients <= |cfg.inputs| && c < cfg.clients
    requires ClientOk(cfg, s, answers, followUps, c) && s.handler.Holds() && InHand(s.handler) != c
    ensures StepOk(cfg, s, HandlerStep, answers, followUps, c)
  {
    assert answers + [] == answers && followUps + [] == followUps;
    assert Handles(cfg, s).records[c] == s.records[c] && Handles(cfg, s).places[c] == s.places[c];
  }

  lemma ExtendingOk(cfg: Config, s: State, answers: seq<Response>, followUps: seq<string>, c: nat)
    requires Inv(cfg, s) && Enabled(cfg, s, HandlerStep) && cfg.clients <= |cfg.inputs| && c < cfg.clients
    requires ClientOk(cfg, s, answers, followUps, c) && s.handler.Extending? && s.handler.response.client == c
    requires s.places[c].BeingExtended?
    ensures StepOk(cfg, s, HandlerStep, answers, followUps, c)
  {
    assert answers + [] == answers && followUps + [] == followUps;
    var n := s.records[c].round;
    assert answers[..n + 1][..n] == answers[..n];
  }

  lemma SupplyingOk(cfg: Config, s: State, answers: seq<Response>, followUps: seq<string>, c: nat)
    requires Inv(cfg, s) && Enabled(cfg, s, HandlerStep) && cfg.clients <= |cfg.inputs| && c < cfg.clients
    requires cfg.Valid() && ClientOk(cfg, s, answers, followUps, c) && GivesFollowUp(cfg, s, HandlerStep)
    requires s.handler.client == c && s.places[c].BeingSupplied? && 1 <= s.records[c].round
    ensures StepOk(cfg, s, HandlerStep, answers, followUps, c)
  {
    assert answers + [] == answers;
    SupplyLasts(cfg, s);
    var n := s.records[c].round;
    assert (followUps + NewFollowUps(cfg, s, HandlerStep, c))[..n - 1] == followUps;
    assert answers[..n][..n - 1] == answers[..n - 1];
  }

  // ----- every run -----

  ghost predicate Told(cfg: Config, events: seq<Event>)
    requires cfg.Valid()
  {
    var s, given := Run(cfg, events), GivenTo(cfg, events);
    && Inv(cfg, s) && cfg.clients + |given| <= |cfg.inputs|
    && s.supply == cfg.inputs[cfg.clients..|cfg.inputs| - |given|]
    && forall c: nat | c < cfg.clients :: TellsOf(cfg, events, c)
  }

  lemma StepKeeps(cfg: Config, s: State, e: Event, answers: seq<Response>, followUps: seq<string>, c: nat)
    requires cfg.Valid() && Inv(cfg, s) && Enabled(cfg, s, e) && c < cfg.clients
    requires ClientOk(cfg, s, answers, followUps, c)
    ensures StepOk(cfg, s, e, answers, followUps, c)
  {
    match e
    case SenderStep(_) => SenderStepOk(cfg, s, e, answers, followUps, c);
    case Timeout => SenderStepOk(cfg, s, e, answers, followUps, c);
    case Answer(_, _, _) => AnswerOk(cfg, s, e, answers, followUps, c);
    case HandlerStep =>
      if s.handler.Holds() {
        HoldingOk(cfg, s, answers, followUps, c);
      } else {
        GettingOk(cfg, s, answers, followUps, c);
      }
  }

  /** The supply shrinks from its end, by one prompt for each follow-up. */
  lemma SupplyMoves(cfg: Config, s: State, e: Event, given: seq<nat>)
    requires cfg.Valid() && Inv(cfg, s) && Enabled(cfg, s, e) && cfg.clients + |given| <= |cfg.inputs|
    requires s.supply == cfg.inputs[cfg.clients..|cfg.inputs| - |given|]
    ensures var n := |given| + if GivesFollowUp(cfg, s, e) then 1 else 0;
      cfg.clients + n <= |cfg.inputs| && Next(cfg, s, e).supply == cfg.inputs[cfg.clients..|cfg.inputs| - n]
    ensures GivesFollowUp(cfg, s, e) ==>
            s.supply != [] && s.supply[|s.supply| - 1] == cfg.inputs[|cfg.inputs| - 1 - |given|]
  {
    if GivesFollowUp(cfg, s, e) {
      SupplyLasts(cfg, s);
    }
  }

  lemma {:induction false} RunTold(cfg: Config, events: seq<Event>)
    requires cfg.Valid()
    ensures Told(cfg, events)
    decreases |events|
  {
    RunInv(cfg, events);
    if events == [] {
      assert cfg.inputs[cfg.clients..|cfg.inputs|] == cfg.inputs[cfg.clients..];
    } else {
      var before, e := events[..|events| - 1], events[|events| - 1];
      RunTold(cfg, before);
      StepTold(cfg, events, before, e);
    }
  }

  /** The run of `before`, one event later. */
  predicate OneMore(events: seq<Event>, before: seq<Event>, e: Event) {
    events != [] && before == events[..|events| - 1] && e == events[|events| - 1]
  }

  lemma StepTold(cfg: Config, events: seq<Event>, before: seq<Event>, e: Event)
    requires cfg.Valid() && OneMore(events, before, e) && Told(cfg, before) && Inv(cfg, Run(cfg, events))
    ensures Told(cfg, events)
  {
    var s, given := Run(cfg, before), GivenTo(cfg, before);
    if Enabled(cfg, s, e) {
      SupplyMoves(cfg, s, e, given);
      forall c: nat | c < cfg.clients ensures TellsOf(cfg, events, c) {
        StepTells(cfg, events, before, e, c);
      }
    } else {
      forall c: nat | c < cfg.clients ensures TellsOf(cfg, events, c) {
        IdleTells(cfg, events, before, e, c);
      }
    }
  }

  ghost predicate TellsOf(cfg: Config, events: seq<Event>, c: nat)
    requires cfg.Valid() && c < cfg.clients
  {
    var s, given := Run(cfg, events), GivenTo(cfg, events);
    && |s.records| == |s.places| == cfg.clients && |given| <= |cfg.inputs|
    && ClientOk(cfg, s, AnswersTo(cfg, events, c), FollowUpsOf(cfg.inputs, given, c), c)
  }

  lemma StepTells(cfg: Config, events: seq<Event>, before: seq<Event>, e: Event, c: nat)
    requires cfg.Valid() && OneMore(events, before, e) && Told(cfg, before) && c < cfg.clients
    requires Enabled(cfg, Run(cfg, before), e) && Inv(cfg, Run(cfg, events))
    ensures TellsOf(cfg, events, c)
  {
    var s, given := Run(cfg, before), GivenTo(cfg, before);
    assert TellsOf(cfg, before, c);
    SupplyMoves(cfg, s, e, given);
    StepKeeps(cfg, s, e, AnswersTo(cfg, before, c), FollowUpsOf(cfg.inputs, given, c), c);
    var gives := GivesFollowUp(cfg, s, e);
    FollowUpsMore(cfg.inputs, given, GivenTo(cfg, events), gives, if gives then s.handler.client else 0, c);
    assert AnswersTo(cfg, events, c) == AnswersTo(cfg, before, c) + NewAnswers(cfg, s, e, c);
  }

  lemma IdleTells(cfg: Config, events: seq<Event>, before: seq<Event>, e: Event, c: nat)
    requires cfg.Valid() && OneMore(events, before, e) && Told(cfg, before) && c < cfg.clients
    requires !Enabled(cfg, Run(cfg, before), e)
    ensures TellsOf(cfg, events, c) && GivenTo(cfg, events) == GivenTo(cfg, before)
  {
    assert TellsOf(cfg, before, c) && Run(cfg, events) == Run(cfg, before);
    assert AnswersTo(cfg, events, c) == AnswersTo(cfg, before, c) && GivenTo(cfg, events) == GivenTo(cfg, before);
  }

  lemma FollowUpsMore(inputs: seq<string>, given: seq<nat>, given': seq<nat>, gives: bool, d: nat, c: nat)
    requires |given'| <= |inputs| && given' == given + if gives then [d] else []
    ensures FollowUpsOf(inputs, given', c) ==
            FollowUpsOf(inputs, given, c) + if gives && d == c then [inputs[|inputs| - 1 - |given|]] else []
  {
    if gives {
      FollowUpsAppend(inputs, given, d, c);
    } else {
      assert given' == given;
    }
  }

  lemma FollowUpsAppend(inputs: seq<string>, given: seq<nat>, d: nat, c: nat)
    requires |given| < |inputs|
    ensures FollowUpsOf(inputs, given + [d], c) ==
            FollowUpsOf(inputs, given, c) + if d == c then [inputs[|inputs| - 1 - |given|]] else []
  {
    assert (given + [d])[..|given|] == given;
  }

  /** The response thread has added the answer of this round and not yet counted the round, or counted it
      and not yet handed out the follow-up. */
  predicate BetweenRounds(s: State, c: nat) {
    (s.handler.Rounding? || s.handler.Completing? || s.handler.Supplying?) && s.handler.client == c
  }

  /** In every run: a history is the first prompt followed, for each round that has been recorded, by the
      text of the answer of that round, which was successful, and by a follow-up if another round is due.
      Requests carry the history; and the prompts not given out yet are the first of the supply. */
  lemma HistoryIs(cfg: Config, events: seq<Event>, c: nat)
    requires cfg.Valid() && c < cfg.clients
    ensures var s, answers, given := Run(cfg, events), AnswersTo(cfg, events, c), GivenTo(cfg, events);
      && |s.records| == cfg.clients && cfg.clients + |given| <= |cfg.inputs|
      && s.supply == cfg.inputs[cfg.clients..|cfg.inputs| - |given|]
      && var n := s.records[c].round + if s.handler.Rounding? && s.handler.client == c then 1 else 0;
      var followUps := FollowUpsOf(cfg.inputs, given, c);
      && n <= |answers| && (forall i | 0 <= i < n :: answers[i].success)
      && |followUps| == (if BetweenRounds(s, c) || n == cfg.rounds then n - 1 else n)
      && s.records[c].history == Story(cfg.inputs[c], answers[..n], followUps)
      && (forall i | 0 <= i < |s.ready| && s.ready[i].client == c :: s.ready[i].payload == s.records[c].history)
      && (forall i | 0 <= i < |s.flights| && s.flights[i].client == c :: s.flights[i].payload == s.records[c].history)
  {
    RunTold(cfg, events);
    var s := Run(cfg, events);
    assert TellsOf(cfg, events, c);
    assert Located(s, c) && RoundOk(cfg, s.places[c], s.records[c].round);
  }

  // ----- the order of the responses -----

  function AnswerNow(cfg: Config, s: State, e: Event): seq<Response> {
    if e.Answer? && Enabled(cfg, s, e) then [Response(s.flights[e.flight].client, e.success, e.text)] else []
  }

  function TakenNow(cfg: Config, s: State, e: Event): seq<Response> {
    if e.HandlerStep? && Enabled(cfg, s, e) && s.handler.Getting? then [s.responses[0]] else []
  }

  /** All answers, in order. */
  function AllAnswers(cfg: Config, events: seq<Event>): seq<Response>
    requires cfg.clients <= |cfg.inputs|
  {
    if events == [] then [] else
      var before := events[..|events| - 1];
      AllAnswers(cfg, before) + AnswerNow(cfg, Run(cfg, before), events[|events| - 1])
  }

  /** The responses the response thread has taken, in order. */
  function Taken(cfg: Config, events: seq<Event>): seq<Response>
    requires cfg.clients <= |cfg.inputs|
  {
    if events == [] then [] else
      var before := events[..|events| - 1];
      Taken(cfg, before) + TakenNow(cfg, Run(cfg, before), events[|events| - 1])
  }

  /** The responses on their way: those queued, and the one about to be. */
  function OnTheWay(s: State): seq<Response> {
    s.responses + if s.sender.Putting? then [s.sender.response] else []
  }

  lemma WayStep(cfg: Config, s: State, e: Event)
    requires Enabled(cfg, s, e)
    ensures TakenNow(cfg, s, e) + OnTheWay(Next(cfg, s, e)) == OnTheWay(s) + AnswerNow(cfg, s, e)
  {
    if e.HandlerStep? && s.handler.Getting? {
      assert s.responses == [s.responses[0]] + s.responses[1..];
    }
  }

  lemma Rearranged(a: seq<Response>, x: seq<Response>, q: seq<Response>, q': seq<Response>, y: seq<Response>)
    requires x + q' == q + y
    ensures (a + x) + q' == (a + q) + y
  {
    assert (a + x) + q' == a + (x + q');
    assert a + (q + y) == (a + q) + y;
  }

  /** Responses are taken in the order of the answers, and none is lost or added on the way. */
  lemma {:induction false} ResponsesInOrder(cfg: Config, events: seq<Event>)
    requires cfg.clients <= |cfg.inputs|
    ensures Taken(cfg, events) + OnTheWay(Run(cfg, events)) == AllAnswers(cfg, events)
    decreases |events|
  {
    if events != [] {
      var before, e := events[..|events| - 1], events[|events| - 1];
      var s := Run(cfg, before);
      ResponsesInOrder(cfg, before);
      if Enabled(cfg, s, e) {
        WayStep(cfg, s, e);
        Rearranged(Taken(cfg, before), TakenNow(cfg, s, e), OnTheWay(s), OnTheWay(Next(cfg, s, e)),
            AnswerNow(cfg, s, e));
      }
    }
  }
}
