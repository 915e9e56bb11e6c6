/** The multi-turn client of `multi-turn.py`: tasks that each play the next turn of a conversation,
    and the driver loop that keeps a bounded number of them in flight. Several tasks may play the
    same conversation at once. Between two awaits a task runs undisturbed, so a step of the machine
    below is what a task or the driver does from one await to the next. Whether a request succeeds,
    and with which text, is up to the server; `force`, the padding of a user text to a given
    number of tokens, is any function. */
module MultiTurn {
  import opened Common

  /** One entry of `prompts`: user text, its forced length, and the token budget of the reply. */
  datatype Prompt = Prompt(text: string, len: int, tokens: int)

  /** The mutable part of a `RequestFuncInput`. */
  datatype Conversation = Conversation(prompts: seq<Prompt>, messages: seq<Message>, finished: nat)

  /** What a task holds on to while it waits for the server. */
  datatype Captured = Captured(idx: nat, prompt: Prompt, messages: seq<Message>)

  type Force = (string, int) -> string

  /** State capture at the start of a request; `None` is the `IndexError` of a conversation that
      has meanwhile been completed by another task. */
  function Capture(force: Force, c: Conversation): Option<Captured> {
    if c.finished < |c.prompts| then
      var p := c.prompts[c.finished];
      Some(Captured(c.finished, p, c.messages + [Message(User, force(p.text, p.len))]))
    else None
  }

  /** State update after a successful reply. */
  function Complete(c: Conversation, cap: Captured, reply: string, tokens: int): Conversation
    requires cap.idx < |c.prompts|
  {
    Conversation(
      c.prompts[cap.idx := Prompt(cap.prompt.text, cap.prompt.len, tokens)],
      cap.messages + [Message(Assistant, reply)],
      cap.idx + 1)
  }

  class RequestFuncInput {
    var prompts: seq<Prompt>
    var messages: seq<Message>
    var finishedPrompts: nat

    ghost function Value(): Conversation
      reads this
    {
      Conversation(prompts, messages, finishedPrompts)
    }

    constructor (prompts: seq<Prompt>)
      ensures Value() == Conversation(prompts, [], 0)
    {
      this.prompts := prompts;
      messages := [];
      finishedPrompts := 0;
    }

    method Begin(force: Force) returns (r: Option<Captured>)
      ensures r == Capture(force, Value())
    {
      var promptIdx := finishedPrompts;
      if promptIdx >= |prompts| {
        return None;
      }
      var prompt := prompts[promptIdx];
      var userText := force(prompt.text, prompt.len);
      var history := messages + [Message(User, userText)];
      return Some(Captured(promptIdx, prompt, history));
    }

    method Finish(cap: Captured, reply: string, tokens: int)
      requires cap.idx < |prompts|
      modifies this
      ensures Value() == Complete(old(Value()), cap, reply, tokens)
    {
      prompts := prompts[cap.idx := Prompt(cap.prompt.text, cap.prompt.len, tokens)];
      messages := cap.messages + [Message(Assistant, reply)];
      finishedPrompts := cap.idx + 1;
    }
  }

  // ----- one conversation -----

  /** `messages` is the history of the first `n` turns of the conversation that began as `p0`: user
      and assistant alternate, and the k-th user message is the forced text of prompt k. */
  ghost predicate History(force: Force, p0: seq<Prompt>, messages: seq<Message>, n: nat) {
    && n <= |p0| && |messages| == 2 * n
    && forall k | 0 <= k < n :: Exchange(force, p0[k], messages, k)
  }

  /** Messages `2k` and `2k + 1` are the forced text of prompt `p` and a reply. */
  ghost predicate Exchange(force: Force, p: Prompt, messages: seq<Message>, k: nat) {
    && 2 * k + 1 < |messages|
    && messages[2 * k] == Message(User, force(p.text, p.len))
    && messages[2 * k + 1].role == Assistant
  }

  /** Text and length of the prompts never change; only the token budgets do. */
  ghost predicate SamePrompts(p0: seq<Prompt>, p: seq<Prompt>) {
    && |p| == |p0|
    && forall k | 0 <= k < |p| :: p[k].text == p0[k].text && p[k].len == p0[k].len
  }

  ghost predicate ConversationOk(force: Force, p0: seq<Prompt>, c: Conversation) {
    SamePrompts(p0, c.prompts) && History(force, p0, c.messages, c.finished)
  }

  ghost predicate CapturedOk(force: Force, p0: seq<Prompt>, cap: Captured) {
    && cap.idx < |p0| && cap.prompt.text == p0[cap.idx].text && cap.prompt.len == p0[cap.idx].len
    && |cap.messages| == 2 * cap.idx + 1
    && History(force, p0, cap.messages[..2 * cap.idx], cap.idx)
    && cap.messages[2 * cap.idx] == Message(User, force(p0[cap.idx].text, p0[cap.idx].len))
  }

  lemma CaptureKeeps(force: Force, p0: seq<Prompt>, c: Conversation)
    requires ConversationOk(force, p0, c)
    ensures Capture(force, c).None? <==> c.finished == |p0|
    ensures Capture(force, c).Some? ==> CapturedOk(force, p0, Capture(force, c).value)
  {
    if c.finished < |c.prompts| {
      var cap := Capture(force, c).value;
      assert cap.messages[..2 * cap.idx] == c.messages;
    }
  }

  /** A reply may arrive when the conversation is already further on, or back at an earlier turn:
      whatever its present state, it becomes the captured history plus the turn just played. */
  lemma CompleteKeeps(force: Force, p0: seq<Prompt>, c: Conversation, cap: Captured, reply: string, tokens: int)
    requires ConversationOk(force, p0, c) && CapturedOk(force, p0, cap)
    ensures ConversationOk(force, p0, Complete(c, cap, reply, tokens))
  {
    var c' := Complete(c, cap, reply, tokens);
    var h := cap.messages[..2 * cap.idx];
    forall k | 0 <= k < cap.idx + 1 ensures Exchange(force, p0[k], c'.messages, k) {
      if k < cap.idx {
        assert Exchange(force, p0[k], h, k);
        assert c'.messages[2 * k] == h[2 * k] && c'.messages[2 * k + 1] == h[2 * k + 1];
      }
    }
  }

  // ----- the benchmark -----

  datatype Outcome = Success(idx: nat) | Failure | Raised

  datatype Task = Created(conv: nat) | Waiting(conv: nat, cap: Captured) | Finished(conv: nat, outcome: Outcome)

  /** Where the driver is: filling up before the loop, at the loop test, in the launches before the
      wait, at the wait, in the launches after it, or past the loop. */
  datatype Driver = Filling | Testing | Launching | Collecting | Refilling | Exited

  /** `inFlight` and `outputs` hold indices into `tasks`, all tasks ever created. */
  datatype Bench = Bench(convs: seq<Conversation>, tasks: seq<Task>, inFlight: set<nat>, outputs: set<nat>,
            driver: Driver)

  datatype Config = Config(force: Force, prompts: seq<seq<Prompt>>, target: nat, rateLimited: bool)

  datatype Event =
    | Launch(conv: nat)
    | Advance
    | Begin(task: nat)
    | Reply(task: nat, reply: string, tokens: int)
    | Fail(task: nat)

  function Init(cfg: Config): Bench {
    Bench(seq(|cfg.prompts|, i requires 0 <= i < |cfg.prompts| => Conversation(cfg.prompts[i], [], 0)), [], {}, {},
        Filling)
  }

  predicate Available(s: Bench, c: nat) {
    c < |s.convs| && s.convs[c].finished < |s.convs[c].prompts|
  }

  ghost predicate AnyAvailable(s: Bench) { exists c :: Available(s, c) }

  /** The launch loops stop when the target is reached or nothing is left to play. */
  ghost predicate Saturated(cfg: Config, s: Bench) {
    |s.inFlight| >= cfg.target || !AnyAvailable(s)
  }

  predicate Done(s: Bench, t: nat) { t < |s.tasks| && s.tasks[t].Finished? }

  predicate Returned(s: Bench, t: nat) { Done(s, t) && !s.tasks[t].outcome.Raised? }

  ghost predicate Enabled(cfg: Config, s: Bench, e: Event) {
    match e
    case Launch(c) =>
      (s.driver.Filling? || s.driver.Launching? || s.driver.Refilling?) && |s.inFlight| < cfg.target && Available(s, c)
    case Advance => if s.driver.Testing? || s.driver.Collecting? then true else !s.driver.Exited? && Saturated(cfg, s)
    case Begin(t) => t < |s.tasks| && s.tasks[t].Created? && s.tasks[t].conv < |s.convs|
    case Reply(t, _, _) =>
      && t < |s.tasks| && s.tasks[t].Waiting? && s.tasks[t].conv < |s.convs|
      && s.tasks[t].cap.idx < |s.convs[s.tasks[t].conv].prompts|
    case Fail(t) => t < |s.tasks| && s.tasks[t].Waiting?
  }

  ghost function Next(cfg: Config, s: Bench, e: Event): Bench
    requires Enabled(cfg, s, e)
  {
    match e
    case Launch(c) =>
      s.(tasks := s.tasks + [Created(c)],
         inFlight := s.inFlight + {|s.tasks|},
         driver := if s.driver.Launching? && cfg.rateLimited then Collecting else s.driver)
    case Advance => s.(
      inFlight := if s.driver.Collecting? then set t | t in s.inFlight && !Done(s, t) else s.inFlight,
      outputs := if s.driver.Collecting? then s.outputs + (set t | t in s.inFlight && Returned(s, t)) else s.outputs,
      driver := (match s.driver
                case Filling => Testing
                case Testing => if s.inFlight != {} || AnyAvailable(s) then Launching else Exited
                case Launching => Collecting
                case Collecting => Refilling
                case Refilling => Testing
                case Exited => Exited))
    case Begin(t) =>
      var c := s.tasks[t].conv;
      var r := Capture(cfg.force, s.convs[c]);
      s.(tasks := s.tasks[t := if r.Some? then Waiting(c, r.value) else Finished(c, Raised)])
    case Reply(t, reply, tokens) =>
      var c := s.tasks[t].conv;
      var cap := s.tasks[t].cap;
      s.(tasks := s.tasks[t := Finished(c, Success(cap.idx))],
         convs := s.convs[c := Complete(s.convs[c], cap, reply, tokens)])
    case Fail(t) =>
      s.(tasks := s.tasks[t := Finished(s.tasks[t].conv, Failure)])
  }

  /** A run is any sequence of events; an event that is not enabled changes nothing. */
  ghost function Run(cfg: Config, events: seq<Event>): Bench {
    if events == [] then Init(cfg) else
      var s := Run(cfg, events[..|events| - 1]);
      var e := events[|events| - 1];
      if Enabled(cfg, s, e) then Next(cfg, s, e) else s
  }

  /** Some task has played turn `k` of conversation `c` successfully. */
  ghost predicate Played(tasks: seq<Task>, c: nat, k: nat) {
    exists t :: 0 <= t < |tasks| && tasks[t] == Finished(c, Success(k))
  }

  ghost predicate TaskOk(cfg: Config, s: Bench, t: nat)
    requires t < |s.tasks|
  {
    var task := s.tasks[t];
    && task.conv < |cfg.prompts|
    && (task.Waiting? ==>
          && CapturedOk(cfg.force, cfg.prompts[task.conv], task.cap)
          && forall k :: 0 <= k < task.cap.idx ==> Played(s.tasks, task.conv, k))
    && (t in s.inFlight || Done(s, t))
    && (t in s.outputs <==> t !in s.inFlight && Returned(s, t))
  }

  ghost predicate Inv(cfg: Config, s: Bench) {
    && |s.convs| == |cfg.prompts|
    && (forall c | 0 <= c < |s.convs| :: ConversationOk(cfg.force, cfg.prompts[c], s.convs[c]))
    && (forall c, k :: 0 <= c < |s.convs| && 0 <= k < s.convs[c].finished ==> Played(s.tasks, c, k))
    && (forall t | 0 <= t < |s.tasks| :: TaskOk(cfg, s, t))
    && (forall t | t in s.inFlight || t in s.outputs :: t < |s.tasks|)
    && |s.inFlight| <= cfg.target
    && (s.driver.Exited? ==> s.inFlight == {} && !AnyAvailable(s))
  }

  lemma PlayedStays(tasks: seq<Task>, tasks': seq<Task>, c: nat, k: nat)
    requires |tasks| <= |tasks'| && Played(tasks, c, k)
    requires forall t | 0 <= t < |tasks| && tasks[t].Finished? :: tasks'[t] == tasks[t]
    ensures Played(tasks', c, k)
  {
    var t :| 0 <= t < |tasks| && tasks[t] == Finished(c, Success(k));
    assert tasks'[t] == tasks[t];
  }

  lemma Subset<T>(a: set<T>, b: set<T>)
    requires a <= b
    ensures |a| <= |b|
  {
    assert b == a + (b - a);
  }

  lemma InitInv(cfg: Config)
    ensures Inv(cfg, Init(cfg))
  {
  }

  lemma LaunchKeeps(cfg: Config, s: Bench, e: Event)
    requires Inv(cfg, s) && Enabled(cfg, s, e) && e.Launch?
    ensures Inv(cfg, Next(cfg, s, e))
  {
    var s' := Next(cfg, s, e);
    forall c, k | 0 <= c < |cfg.prompts| && 0 <= k && Played(s.tasks, c, k) ensures Played(s'.tasks, c, k) {
      PlayedStays(s.tasks, s'.tasks, c, k);
    }
    forall t | 0 <= t < |s'.tasks| ensures TaskOk(cfg, s', t) {
      if t < |s.tasks| {
        assert TaskOk(cfg, s, t);
      }
    }
  }

  lemma AdvanceKeeps(cfg: Config, s: Bench, e: Event)
    requires Inv(cfg, s) && Enabled(cfg, s, e) && e.Advance?
    ensures Inv(cfg, Next(cfg, s, e))
  {
    var s' := Next(cfg, s, e);
    Subset(s'.inFlight, s.inFlight);
    forall t | 0 <= t < |s'.tasks| ensures TaskOk(cfg, s', t) {
      assert TaskOk(cfg, s, t);
    }
    assert AnyAvailable(s') ==> AnyAvailable(s) by {
      if AnyAvailable(s') {
        var c :| Available(s', c);
        assert Available(s, c);
      }
    }
  }

  lemma TaskStepKeeps(cfg: Config, s: Bench, e: Event)
    requires Inv(cfg, s) && Enabled(cfg, s, e) && (e.Begin? || e.Reply? || e.Fail?)
    ensures Inv(cfg, Next(cfg, s, e))
  {
    var s' := Next(cfg, s, e);
    var u := e.task;
    assert TaskOk(cfg, s, u);
    var c0 := s.tasks[u].conv;
    if e.Begin? {
      CaptureKeeps(cfg.force, cfg.prompts[c0], s.convs[c0]);
    } else if e.Reply? {
      CompleteKeeps(cfg.force, cfg.prompts[c0], s.convs[c0], s.tasks[u].cap, e.reply, e.tokens);
      assert s'.tasks[u] == Finished(c0, Success(s.tasks[u].cap.idx));
      assert Played(s'.tasks, c0, s.tasks[u].cap.idx);
    }
    forall c, k | 0 <= c < |cfg.prompts| && 0 <= k && Played(s.tasks, c, k) ensures Played(s'.tasks, c, k) {
      PlayedStays(s.tasks, s'.tasks, c, k);
    }
    forall t | 0 <= t < |s'.tasks| ensures TaskOk(cfg, s', t) {
      assert TaskOk(cfg, s, t);
    }
  }

  lemma NextKeeps(cfg: Config, s: Bench, e: Event)
    requires Inv(cfg, s) && Enabled(cfg, s, e)
    ensures Inv(cfg, Next(cfg, s, e))
  {
    match e
    case Launch(_) => LaunchKeeps(cfg, s, e);
    case Advance => AdvanceKeeps(cfg, s, e);
    case _ => TaskStepKeeps(cfg, s, e);
  }

  lemma {:induction false} RunInv(cfg: Config, events: seq<Event>)
    ensures Inv(cfg, Run(cfg, events))
    decreases |events|
  {
    if events == [] {
      InitInv(cfg);
    } else {
      RunInv(cfg, events[..|events| - 1]);
      var s, e := Run(cfg, events[..|events| - 1]), events[|events| - 1];
      if Enabled(cfg, s, e) {
        NextKeeps(cfg, s, e);
      }
    }
  }

  /** In every reachable state, even with several tasks on one conversation: the history is exactly
      that of the finished turns, and no more tasks are in flight than asked for. */
  lemma HistoriesAlwaysMatch(cfg: Config, events: seq<Event>, c: nat)
    requires c < |cfg.prompts|
    ensures var s := Run(cfg, events);
      && |s.convs| == |cfg.prompts| && |s.inFlight| <= cfg.target
      && s.convs[c].finished <= |cfg.prompts[c]| == |s.convs[c].prompts|
      && History(cfg.force, cfg.prompts[c], s.convs[c].messages, s.convs[c].finished)
  {
    RunInv(cfg, events);
    assert ConversationOk(cfg.force, cfg.prompts[c], Run(cfg, events).convs[c]);
  }

  // ----- the exit of the loop -----

  function TotalTurns(prompts: seq<seq<Prompt>>): nat {
    if prompts == [] then 0 else TotalTurns(prompts[..|prompts| - 1]) + |prompts[|prompts| - 1]|
  }

  ghost function Turns(prompts: seq<seq<Prompt>>): set<(nat, nat)> {
    set c: nat, k: nat | c < |prompts| && k < |prompts[c]| :: (c, k)
  }

  lemma {:induction false} CountTurns(prompts: seq<seq<Prompt>>)
    ensures |Turns(prompts)| == TotalTurns(prompts)
    decreases |prompts|
  {
    if prompts == [] {
      assert Turns(prompts) == {};
    } else {
      var n := |prompts| - 1;
      CountTurns(prompts[..n]);
      CountRow(n, |prompts[n]|);
      assert Turns(prompts) == Turns(prompts[..n]) + Row(n, |prompts[n]|);
    }
  }

  ghost function Row(c: nat, m: nat): set<(nat, nat)> { set k: nat | k < m :: (c, k) }

  lemma {:induction false} CountRow(c: nat, m: nat)
    ensures |Row(c, m)| == m
  {
    if m == 0 {
      assert Row(c, 0) == {};
    } else {
      CountRow(c, m - 1);
      assert Row(c, m) == Row(c, m - 1) + {(c, m - 1)};
    }
  }

  ghost predicate Succeeded(s: Bench, t: nat) { Done(s, t) && s.tasks[t].outcome.Success? }

  ghost function TurnOf(s: Bench, t: nat): (nat, nat) {
    if Succeeded(s, t) then (s.tasks[t].conv, s.tasks[t].outcome.idx) else (0, 0)
  }

  ghost function TurnsOf(s: Bench, ts: set<nat>): set<(nat, nat)> { set t | t in ts :: TurnOf(s, t) }

  lemma {:induction false} ImageIsNoLarger(s: Bench, ts: set<nat>)
    ensures |TurnsOf(s, ts)| <= |ts|
  {
    if ts == {} {
      assert TurnsOf(s, ts) == {};
    } else {
      var t :| t in ts;
      ImageIsNoLarger(s, ts - {t});
      assert TurnsOf(s, ts) == TurnsOf(s, ts - {t}) + {TurnOf(s, t)};
    }
  }

  /** The outputs the driver has collected from successful requests. */
  ghost function SuccessfulOutputs(s: Bench): set<nat> { set t | t in s.outputs && Succeeded(s, t) }

  /** When the loop exits nothing is in flight, the outputs are those of all tasks that did not raise,
      every conversation is complete, and at least one successful output has been collected for every
      turn. */
  lemma ExitState(cfg: Config, events: seq<Event>)
    requires Run(cfg, events).driver.Exited?
    ensures var s := Run(cfg, events);
      && s.inFlight == {}
      && (forall t | 0 <= t < |s.tasks| :: Done(s, t))
      && (forall t: nat :: t in s.outputs <==> Returned(s, t))
      && |s.convs| == |cfg.prompts|
      && (forall c | 0 <= c < |s.convs| :: s.convs[c].finished == |cfg.prompts[c]|)
      && |SuccessfulOutputs(s)| >= TotalTurns(cfg.prompts)
  {
    RunInv(cfg, events);
    var s := Run(cfg, events);
    forall c | 0 <= c < |s.convs| ensures s.convs[c].finished == |cfg.prompts[c]| {
      assert ConversationOk(cfg.force, cfg.prompts[c], s.convs[c]);
      assert !Available(s, c);
    }
    forall t: nat ensures (t < |s.tasks| ==> Done(s, t)) && (t in s.outputs <==> Returned(s, t)) {
      assert t < |s.tasks| ==> TaskOk(cfg, s, t);
    }
    var ok := SuccessfulOutputs(s);
    forall turn | turn in Turns(cfg.prompts) ensures turn in TurnsOf(s, ok) {
      var (c, k) := turn;
      assert Played(s.tasks, c, k);
      var t :| 0 <= t < |s.tasks| && s.tasks[t] == Finished(c, Success(k));
      assert TaskOk(cfg, s, t);
      assert t in ok && TurnOf(s, t) == turn;
    }
    assert Turns(cfg.prompts) <= TurnsOf(s, ok);
    CountTurns(cfg.prompts);
    ImageIsNoLarger(s, ok);
    Subset(Turns(cfg.prompts), TurnsOf(s, ok));
  }

  // ----- the driver goes on -----

  /** Launches before the wait, in the loop. */
  ghost function LoopLaunches(cfg: Config, events: seq<Event>): nat {
    if events == [] then 0 else
      var before, e := events[..|events| - 1], events[|events| - 1];
      var s := Run(cfg, before);
      LoopLaunches(cfg, before) + if e.Launch? && s.driver.Launching? && Enabled(cfg, s, e) then 1 else 0
  }

  /** How often the loop has been entered again. */
  ghost function Rounds(cfg: Config, events: seq<Event>): nat {
    if events == [] then 0 else
      var before, e := events[..|events| - 1], events[|events| - 1];
      var s := Run(cfg, before);
      Rounds(cfg, before) + if e.Advance? && s.driver.Testing? && Next(cfg, s, e).driver.Launching? then 1 else 0
  }

  /** With a limited rate there is at most one launch before the wait of each round. */
  lemma {:induction false} OneLaunchARound(cfg: Config, events: seq<Event>)
    requires cfg.rateLimited
    ensures LoopLaunches(cfg, events) + (if Run(cfg, events).driver.Launching? then 1 else 0) <= Rounds(cfg, events)
    decreases |events|
  {
    if events != [] {
      OneLaunchARound(cfg, events[..|events| - 1]);
    }
  }

  /** Until the loop has ended the driver can take its next step: launch a task or go on. */
  lemma DriverNeverStuck(cfg: Config, s: Bench) returns (e: Event)
    requires !s.driver.Exited?
    ensures (e.Launch? || e.Advance?) && Enabled(cfg, s, e)
  {
    e := Advance;
    if !s.driver.Testing? && !s.driver.Collecting? && !Saturated(cfg, s) {
      var c :| Available(s, c);
      e := Launch(c);
    }
  }

  /** A task that is not done can take its next step. */
  lemma TaskNeverStuck(cfg: Config, events: seq<Event>, t: nat) returns (e: Event)
    requires t < |Run(cfg, events).tasks| && !Done(Run(cfg, events), t)
    ensures (e.Begin? || e.Reply?) && e.task == t && Enabled(cfg, Run(cfg, events), e)
  {
    RunInv(cfg, events);
    var s := Run(cfg, events);
    assert TaskOk(cfg, s, t);
    assert ConversationOk(cfg.force, cfg.prompts[s.tasks[t].conv], s.convs[s.tasks[t].conv]);
    e := if s.tasks[t].Created? then Begin(t) else Reply(t, "", 0);
  }

  ghost function Advanced(cfg: Config, s: Bench, n: nat): Bench {
    if n == 0 then s else
      var s' := Advanced(cfg, s, n - 1);
      if Enabled(cfg, s', Advance) then Next(cfg, s', Advance) else s'
  }

  /** When all tasks are done and nothing is left to play, the driver leaves the loop within seven steps. */
  lemma DriverExits(cfg: Config, s: Bench)
    requires !AnyAvailable(s) && forall t | t in s.inFlight :: Done(s, t)
    ensures Advanced(cfg, s, 7).driver.Exited?
  {
    OneAdvance(cfg, s, 7);
  }

  /** Nothing but the driver moves, and each step goes on. */
  lemma {:induction false} OneAdvance(cfg: Config, s: Bench, n: nat)
    requires !AnyAvailable(s) && forall t | t in s.inFlight :: Done(s, t)
    ensures var s' := Advanced(cfg, s, n);
      && s'.convs == s.convs && s'.tasks == s.tasks && !AnyAvailable(s') && s'.inFlight <= s.inFlight
      && (s'.driver.Exited? || StepsToExit(s'.driver, s'.inFlight == {}) + n <= StepsToExit(s.driver, s.inFlight == {}))
  {
    if n > 0 {
      OneAdvance(cfg, s, n - 1);
      var before, after := Advanced(cfg, s, n - 1), Advanced(cfg, s, n);
      forall c ensures !Available(after, c) {
        assert !Available(before, c);
      }
    }
  }

  function StepsToExit(d: Driver, idle: bool): nat {
    match d
    case Filling => if idle then 2 else 6
    case Testing => if idle then 1 else 5
    case Launching => 4
    case Collecting => 3
    case Refilling => if idle then 2 else 6
    case Exited => 0
  }
}
