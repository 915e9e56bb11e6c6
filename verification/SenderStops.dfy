/** When the sender thread of `ClosedLoop` stops once every request has been answered. */
module SenderStops {
  import opened ClosedLoop
  import opened ClosedLoopRuns
  import opened LostResponse

  /** The sender is past its test of the two counters, or will pass it. */
  ghost predicate WillStop(cfg: Config, s: State) {
    s.sender.Popping? || s.sender.Counting? || s.sender.Testing? || s.sender.Stopped?
    || s.sent - s.completed < cfg.maxParallel
  }

  /** The response thread has ended: it has left its loop, or a failed response has killed it. */
  predicate Ended(s: State) { s.handler.Exited? || s.handler.Dead? }

  /** Statements of the sender that are left before it has stopped. */
  function StepsLeft(sender: Sender): nat {
    match sender
    case Putting(_) => 5
    case Sleeping => 4
    case Checking => 3
    case Popping => 2
    case Counting => 2
    case Creating(_) => 3
    case Testing => 1
    case Stopped => 0
  }

  function SenderSteps(events: seq<Event>): nat {
    if events == [] then 0 else SenderSteps(events[..|events| - 1]) + if events[|events| - 1].SenderStep? then 1 else 0
  }

  lemma StepTowardsStop(cfg: Config, s: State, e: Event)
    requires cfg.Valid() && Inv(cfg, s) && s.bar == cfg.total && WillStop(cfg, s) && Enabled(cfg, s, e)
    ensures WillStop(cfg, Next(cfg, s, e)) && Next(cfg, s, e).bar == cfg.total
    ensures StepsLeft(Next(cfg, s, e).sender) <= StepsLeft(s.sender)
    ensures e.SenderStep? && s.sender != Stopped ==> StepsLeft(Next(cfg, s, e).sender) < StepsLeft(s.sender)
  {
    Drained(cfg, s);
  }

  /** With a full progress bar five statements of the sender, however they interleave with those of the
      response thread, are enough. */
  lemma {:induction false} StopsInFive(cfg: Config, s: State, events: seq<Event>)
    requires cfg.Valid() && Inv(cfg, s) && s.bar == cfg.total && WillStop(cfg, s)
    ensures var s' := RunFrom(cfg, s, events);
      && Inv(cfg, s') && s'.bar == cfg.total && WillStop(cfg, s')
      && StepsLeft(s'.sender) <= StepsLeft(s.sender)
      && (s'.sender.Stopped? || SenderSteps(events) + StepsLeft(s'.sender) <= StepsLeft(s.sender))
      && (SenderSteps(events) >= 5 ==> s'.sender.Stopped?)
    decreases |events|
  {
    if events != [] {
      var before, e := events[..|events| - 1], events[|events| - 1];
      StopsInFive(cfg, s, before);
      var s1 := RunFrom(cfg, s, before);
      Drained(cfg, s1);
      if Enabled(cfg, s1, e) {
        NextKeeps(cfg, s1, e);
        StepTowardsStop(cfg, s1, e);
      }
    }
  }

  /** Without the response thread the sender goes round for ever if it may start no more requests. */
  lemma {:induction false} NeverStops(cfg: Config, s: State, events: seq<Event>)
    requires Ended(s) && !WillStop(cfg, s) && !s.sender.Creating?
    ensures var s' := RunFrom(cfg, s, events); Ended(s') && !WillStop(cfg, s') && !s'.sender.Creating?
    decreases |events|
  {
    if events != [] {
      NeverStops(cfg, s, events[..|events| - 1]);
    }
  }

  function Steps(n: nat): seq<Event> { seq(n, _ => SenderStep(0)) }

  lemma {:induction false} StepsCounted(n: nat)
    ensures SenderSteps(Steps(n)) == n
  {
    if n > 0 {
      assert Steps(n)[..n - 1] == Steps(n - 1);
      StepsCounted(n - 1);
    }
  }

  /** Once the progress bar is full and the response thread has ended, the sender can still stop exactly
      if it is past its test or fewer requests than allowed are outstanding; then it does. */
  lemma StopsExactlyIf(cfg: Config, s: State)
    requires cfg.Valid() && Inv(cfg, s) && s.bar == cfg.total && Ended(s)
    ensures (exists events :: RunFrom(cfg, s, events).sender.Stopped?) <==> WillStop(cfg, s)
    ensures WillStop(cfg, s) ==> forall events | SenderSteps(events) >= 5 :: RunFrom(cfg, s, events).sender.Stopped?
  {
    if WillStop(cfg, s) {
      forall events | SenderSteps(events) >= 5 ensures RunFrom(cfg, s, events).sender.Stopped? {
        StopsInFive(cfg, s, events);
      }
      StepsCounted(5);
      assert RunFrom(cfg, s, Steps(5)).sender.Stopped?;
    } else {
      Drained(cfg, s);
      forall events ensures !RunFrom(cfg, s, events).sender.Stopped? {
        NeverStops(cfg, s, events);
      }
    }
  }

  /** It happens that it cannot: the only request allowed at a time fails. */
  lemma SenderCanRunOn() returns (cfg: Config, events: seq<Event>)
    ensures cfg.Valid() && var s := Run(cfg, events); s.bar == cfg.total && Ended(s) && !WillStop(cfg, s)
  {
    cfg := Config(1, 1, 1, ["hello"], 1);
    events := OneInFlight(cfg);
    var s := Run(cfg, events);
    events, s := Extend(cfg, events, s, Answer(0, false, ""));
    assert s.sender == Putting(Response(0, false, "")) && s.bar == 1;
    events, s := Extend(cfg, events, s, SenderStep(0));
    assert s.responses == [Response(0, false, "")];
    events, s := Extend(cfg, events, s, HandlerStep);
    assert s.handler == Dead(0);
  }
}
