/** What the histories of `MultiTurn` say: every assistant message is the text of a reply to the turn it
    stands for, and the token budget of a played prompt is that of such a reply. With several tasks on one
    conversation the two need not come from the same reply. */
module MultiTurnReplies {
  import opened Common
  import opened MultiTurn

  /** Event `j` of the run is a reply, to a task that plays turn `k` of conversation `c`. */
  ghost predicate RepliesTo(cfg: Config, events: seq<Event>, j: nat, c: nat, k: nat) {
    && j < |events| && events[j].Reply?
    && var s := Run(cfg, events[..j]);
      && Enabled(cfg, s, events[j])
      && s.tasks[events[j].task].conv == c && s.tasks[events[j].task].cap.idx == k
  }

  /** The message is the text of a reply to turn `k`. */
  ghost predicate IsReply(cfg: Config, events: seq<Event>, c: nat, k: nat, m: Message) {
    exists j: nat :: RepliesTo(cfg, events, j, c, k) && m == Message(Assistant, events[j].reply)
  }

  /** The token budget is that of a reply to turn `k`, or still the one given if there was none. */
  ghost predicate IsBudget(cfg: Config, events: seq<Event>, c: nat, k: nat, given: int, tokens: int) {
    || (exists j: nat :: RepliesTo(cfg, events, j, c, k) && tokens == events[j].tokens)
    || (tokens == given && forall j: nat :: !RepliesTo(cfg, events, j, c, k))
  }

  /** The replies among the first `n` messages are those of turns of conversation `c`. */
  ghost predicate AllReplies(cfg: Config, events: seq<Event>, c: nat, messages: seq<Message>, n: nat) {
    forall k: nat | k < n :: 2 * k + 1 < |messages| && IsReply(cfg, events, c, k, messages[2 * k + 1])
  }

  ghost predicate AllBudgets(cfg: Config, events: seq<Event>, c: nat, prompts: seq<Prompt>)
    requires c < |cfg.prompts| && |prompts| == |cfg.prompts[c]|
  {
    forall k: nat | k < |prompts| :: IsBudget(cfg, events, c, k, cfg.prompts[c][k].tokens, prompts[k].tokens)
  }

  /** Event `j` of the run fails task `t`. */
  ghost predicate FailsTask(cfg: Config, events: seq<Event>, j: nat, t: nat) {
    j < |events| && events[j] == Fail(t) && Enabled(cfg, Run(cfg, events[..j]), events[j])
  }

  /** Event `j` of the run begins task `t` when nothing of conversation `c` is left to play. */
  ghost predicate BeginsTooLate(cfg: Config, events: seq<Event>, j: nat, t: nat, c: nat) {
    && j < |events| && events[j] == Begin(t)
    && Enabled(cfg, Run(cfg, events[..j]), events[j]) && !Available(Run(cfg, events[..j]), c)
  }

  /** Why a task is over: it was replied to, it failed, or it was begun too late. */
  ghost predicate OutcomeIs(cfg: Config, events: seq<Event>, t: nat, c: nat, outcome: Outcome) {
    match outcome
    case Success(k) => exists j: nat :: RepliesTo(cfg, events, j, c, k) && events[j].task == t
    case Failure => exists j: nat :: FailsTask(cfg, events, j, t)
    case Raised => exists j: nat :: BeginsTooLate(cfg, events, j, t, c)
  }

  ghost predicate TaskRecorded(cfg: Config, events: seq<Event>, t: nat, task: Task) {
    match task
    case Created(_) => true
    case Waiting(c, cap) => AllReplies(cfg, events, c, cap.messages, cap.idx)
    case Finished(c, outcome) => OutcomeIs(cfg, events, t, c, outcome)
  }

  ghost predicate ConversationRecorded(cfg: Config, events: seq<Event>, c: nat, conv: Conversation)
    requires c < |cfg.prompts|
  {
    && AllReplies(cfg, events, c, conv.messages, conv.finished)
    && |conv.prompts| == |cfg.prompts[c]| && AllBudgets(cfg, events, c, conv.prompts)
  }

  ghost predicate Recorded(cfg: Config, events: seq<Event>, s: Bench) {
    && Inv(cfg, s)
    && (forall c: nat | c < |cfg.prompts| :: ConversationRecorded(cfg, events, c, s.convs[c]))
    && (forall t: nat | t < |s.tasks| :: TaskRecorded(cfg, events, t, s.tasks[t]))
  }

  // ----- later events -----

  lemma RepliesLater(cfg: Config, events: seq<Event>, e: Event, j: nat, c: nat, k: nat)
    ensures RepliesTo(cfg, events + [e], j, c, k) <==>
            if j == |events| then RepliesTo(cfg, events + [e], j, c, k) else RepliesTo(cfg, events, j, c, k)
  {
    if j < |events| {
      assert (events + [e])[..j] == events[..j];
    }
  }

  lemma IsReplyLater(cfg: Config, events: seq<Event>, e: Event, c: nat, k: nat, m: Message)
    requires IsReply(cfg, events, c, k, m)
    ensures IsReply(cfg, events + [e], c, k, m)
  {
    var j: nat :| RepliesTo(cfg, events, j, c, k) && m == Message(Assistant, events[j].reply);
    RepliesLater(cfg, events, e, j, c, k);
    assert (events + [e])[j] == events[j];
  }

  lemma AllRepliesLater(cfg: Config, events: seq<Event>, e: Event, c: nat, messages: seq<Message>, n: nat)
    requires AllReplies(cfg, events, c, messages, n)
    ensures AllReplies(cfg, events + [e], c, messages, n)
  {
    forall k: nat | k < n ensures IsReply(cfg, events + [e], c, k, messages[2 * k + 1]) {
      IsReplyLater(cfg, events, e, c, k, messages[2 * k + 1]);
    }
  }

  /** Unless the new event is a reply to turn `k`, in which case the budget must be its own. */
  lemma BudgetLater(cfg: Config, events: seq<Event>, e: Event, c: nat, k: nat, given: int, tokens: int, tokens': int)
    requires IsBudget(cfg, events, c, k, given, tokens)
    requires if RepliesTo(cfg, events + [e], |events|, c, k) then e.tokens == tokens' else tokens' == tokens
    ensures IsBudget(cfg, events + [e], c, k, given, tokens')
  {
    var longer := events + [e];
    assert longer[|events|] == e;
    if RepliesTo(cfg, longer, |events|, c, k) {
      assert RepliesTo(cfg, longer, |events|, c, k) && tokens' == longer[|events|].tokens;
    } else {
      forall j: nat ensures RepliesTo(cfg, longer, j, c, k) <==> RepliesTo(cfg, events, j, c, k) {
        RepliesLater(cfg, events, e, j, c, k);
      }
      if j: nat :| RepliesTo(cfg, events, j, c, k) && tokens == events[j].tokens {
        assert RepliesTo(cfg, longer, j, c, k) && tokens' == longer[j].tokens;
      }
    }
  }

  lemma TaskRecordedLater(cfg: Config, events: seq<Event>, e: Event, t: nat, task: Task)
    requires TaskRecorded(cfg, events, t, task)
    ensures TaskRecorded(cfg, events + [e], t, task)
  {
    match task
    case Created(_) =>
    case Waiting(c, cap) => AllRepliesLater(cfg, events, e, c, cap.messages, cap.idx);
    case Finished(c, outcome) => OutcomeLater(cfg, events, e, t, c, outcome);
  }

  lemma OutcomeLater(cfg: Config, events: seq<Event>, e: Event, t: nat, c: nat, outcome: Outcome)
    requires OutcomeIs(cfg, events, t, c, outcome)
    ensures OutcomeIs(cfg, events + [e], t, c, outcome)
  {
    var longer := events + [e];
    forall j: nat | j < |events| ensures longer[..j] == events[..j] && longer[j] == events[j] {
    }
    match outcome
    case Success(k) =>
      var j: nat :| RepliesTo(cfg, events, j, c, k) && events[j].task == t;
      assert RepliesTo(cfg, longer, j, c, k);
    case Failure =>
      var j: nat :| FailsTask(cfg, events, j, t);
      assert FailsTask(cfg, longer, j, t);
    case Raised =>
      var j: nat :| BeginsTooLate(cfg, events, j, t, c);
      assert BeginsTooLate(cfg, longer, j, t, c);
  }

  // ----- every event keeps this -----

  lemma ReplyIsNew(cfg: Config, events: seq<Event>, e: Event)
    requires e.Reply? && Enabled(cfg, Run(cfg, events), e)
    ensures var task := Run(cfg, events).tasks[e.task]; RepliesTo(cfg, events + [e], |events|, task.conv, task.cap.idx)
  {
    assert (events + [e])[..|events|] == events;
  }

  lemma BudgetsKept(cfg: Config, events: seq<Event>, e: Event, c: nat)
    requires Recorded(cfg, events, Run(cfg, events)) && Enabled(cfg, Run(cfg, events), e) && c < |cfg.prompts|
    requires Inv(cfg, Next(cfg, Run(cfg, events), e))
    ensures |Next(cfg, Run(cfg, events), e).convs[c].prompts| == |cfg.prompts[c]|
    ensures AllBudgets(cfg, events + [e], c, Next(cfg, Run(cfg, events), e).convs[c].prompts)
  {
    var s := Run(cfg, events);
    var s' := Next(cfg, s, e);
    assert (events + [e])[..|events|] == events;
    forall k: nat | k < |cfg.prompts[c]|
      ensures IsBudget(cfg, events + [e], c, k, cfg.prompts[c][k].tokens, s'.convs[c].prompts[k].tokens)
    {
      BudgetLater(cfg, events, e, c, k, cfg.prompts[c][k].tokens, s.convs[c].prompts[k].tokens,
        s'.convs[c].prompts[k].tokens);
    }
  }

  lemma HistoriesKept(cfg: Config, events: seq<Event>, e: Event, c: nat)
    requires Recorded(cfg, events, Run(cfg, events)) && Enabled(cfg, Run(cfg, events), e) && c < |cfg.prompts|
    requires Inv(cfg, Next(cfg, Run(cfg, events), e))
    ensures var conv := Next(cfg, Run(cfg, events), e).convs[c];
      AllReplies(cfg, events + [e], c, conv.messages, conv.finished)
  {
    var s := Run(cfg, events);
    if e.Reply? && s.tasks[e.task].conv == c {
      var cap := s.tasks[e.task].cap;
      assert TaskRecorded(cfg, events, e.task, s.tasks[e.task]);
      assert TaskOk(cfg, s, e.task);
      AllRepliesLater(cfg, events, e, c, cap.messages, cap.idx);
      ReplyIsNew(cfg, events, e);
      var messages := Next(cfg, s, e).convs[c].messages;
      forall k: nat | k < cap.idx + 1 ensures IsReply(cfg, events + [e], c, k, messages[2 * k + 1]) {
        if k < cap.idx {
          assert messages[2 * k + 1] == cap.messages[2 * k + 1];
        } else {
          assert messages[2 * k + 1] == Message(Assistant, (events + [e])[|events|].reply);
        }
      }
    } else {
      AllRepliesLater(cfg, events, e, c, s.convs[c].messages, s.convs[c].finished);
    }
  }

  lemma TasksKept(cfg: Config, events: seq<Event>, e: Event, t: nat)
    requires Recorded(cfg, events, Run(cfg, events)) && Enabled(cfg, Run(cfg, events), e)
    requires t < |Next(cfg, Run(cfg, events), e).tasks|
    ensures TaskRecorded(cfg, events + [e], t, Next(cfg, Run(cfg, events), e).tasks[t])
  {
    var s := Run(cfg, events);
    if t < |s.tasks| {
      TaskRecordedLater(cfg, events, e, t, s.tasks[t]);
      assert TaskOk(cfg, s, t);
      if (e.Begin? || e.Reply? || e.Fail?) && e.task == t {
        TaskMoves(cfg, events, e, t);
      }
    }
  }

  lemma TaskMoves(cfg: Config, events: seq<Event>, e: Event, t: nat)
    requires Recorded(cfg, events, Run(cfg, events)) && Enabled(cfg, Run(cfg, events), e)
    requires (e.Begin? || e.Reply? || e.Fail?) && e.task == t && t < |Run(cfg, events).tasks|
    requires TaskOk(cfg, Run(cfg, events), t)
    ensures TaskRecorded(cfg, events + [e], t, Next(cfg, Run(cfg, events), e).tasks[t])
  {
    var s, longer := Run(cfg, events), events + [e];
    var c := s.tasks[t].conv;
    assert longer[..|events|] == events && longer[|events|] == e;
    if e.Begin? {
      if Available(s, c) {
        AllRepliesLater(cfg, events, e, c, s.convs[c].messages, s.convs[c].finished);
        BegunReplies(cfg, longer, c, s.convs[c]);
      } else {
        assert BeginsTooLate(cfg, longer, |events|, t, c);
      }
    } else if e.Reply? {
      ReplyIsNew(cfg, events, e);
    } else {
      assert FailsTask(cfg, longer, |events|, t);
    }
  }

  lemma BegunReplies(cfg: Config, events: seq<Event>, c: nat, conv: Conversation)
    requires AllReplies(cfg, events, c, conv.messages, conv.finished)
    ensures Capture(cfg.force, conv).Some? ==>
              var cap := Capture(cfg.force, conv).value; AllReplies(cfg, events, c, cap.messages, cap.idx)
  {
    if Capture(cfg.force, conv).Some? {
      var cap := Capture(cfg.force, conv).value;
      forall k: nat | k < cap.idx
        ensures 2 * k + 1 < |cap.messages| && IsReply(cfg, events, c, k, cap.messages[2 * k + 1])
      {
        assert cap.messages[2 * k + 1] == conv.messages[2 * k + 1];
      }
    }
  }

  lemma NothingSaidYet(cfg: Config)
    ensures Recorded(cfg, [], Init(cfg))
  {
    InitInv(cfg);
  }

  lemma {:induction false} RunRecorded(cfg: Config, events: seq<Event>)
    ensures Recorded(cfg, events, Run(cfg, events))
    decreases |events|
  {
    if events == [] {
      NothingSaidYet(cfg);
    } else {
      var before, e := events[..|events| - 1], events[|events| - 1];
      assert events == before + [e];
      RunRecorded(cfg, before);
      StepRecorded(cfg, before, e);
    }
  }

  lemma StepRecorded(cfg: Config, events: seq<Event>, e: Event)
    requires Recorded(cfg, events, Run(cfg, events))
    ensures Recorded(cfg, events + [e], Run(cfg, events + [e]))
  {
    assert (events + [e])[..|events|] == events;
    if Enabled(cfg, Run(cfg, events), e) {
      EnabledRecorded(cfg, events, e);
    } else {
      NotEnabledRecorded(cfg, events, e);
    }
  }

  lemma EnabledRecorded(cfg: Config, events: seq<Event>, e: Event)
    requires Recorded(cfg, events, Run(cfg, events)) && Enabled(cfg, Run(cfg, events), e)
    ensures Recorded(cfg, events + [e], Next(cfg, Run(cfg, events), e))
  {
    var s := Run(cfg, events);
    var s' := Next(cfg, s, e);
    NextKeeps(cfg, s, e);
    forall c: nat | c < |cfg.prompts| ensures ConversationRecorded(cfg, events + [e], c, s'.convs[c]) {
      HistoriesKept(cfg, events, e, c);
      BudgetsKept(cfg, events, e, c);
    }
    forall t: nat | t < |s'.tasks| ensures TaskRecorded(cfg, events + [e], t, s'.tasks[t]) {
      TasksKept(cfg, events, e, t);
    }
  }

  lemma NotEnabledRecorded(cfg: Config, events: seq<Event>, e: Event)
    requires Recorded(cfg, events, Run(cfg, events)) && !Enabled(cfg, Run(cfg, events), e)
    ensures Recorded(cfg, events + [e], Run(cfg, events))
  {
    var s := Run(cfg, events);
    assert (events + [e])[..|events|] == events;
    forall c: nat | c < |cfg.prompts| ensures ConversationRecorded(cfg, events + [e], c, s.convs[c]) {
      assert ConversationRecorded(cfg, events, c, s.convs[c]);
      AllRepliesLater(cfg, events, e, c, s.convs[c].messages, s.convs[c].finished);
      forall k: nat | k < |s.convs[c].prompts|
        ensures IsBudget(cfg, events + [e], c, k, cfg.prompts[c][k].tokens, s.convs[c].prompts[k].tokens)
      {
        BudgetLater(cfg, events, e, c, k, cfg.prompts[c][k].tokens, s.convs[c].prompts[k].tokens,
          s.convs[c].prompts[k].tokens);
      }
    }
    forall t: nat | t < |s.tasks| ensures TaskRecorded(cfg, events + [e], t, s.tasks[t]) {
      TaskRecordedLater(cfg, events, e, t, s.tasks[t]);
    }
  }

  // ----- the main result -----

  /** In every run, for each finished turn: its assistant message is the text of a reply to a task that
      played this turn, and the token budget of its prompt is that of such a reply. A budget without a
      reply is the one given. */
  lemma MessagesAreReplies(cfg: Config, events: seq<Event>, c: nat, k: nat)
    requires c < |cfg.prompts| && k < |cfg.prompts[c]|
    ensures var s := Run(cfg, events);
      && c < |s.convs| && k < |s.convs[c].prompts|
      && (k < s.convs[c].finished ==>
            && 2 * k + 1 < |s.convs[c].messages| && IsReply(cfg, events, c, k, s.convs[c].messages[2 * k + 1])
            && exists j: nat :: RepliesTo(cfg, events, j, c, k) && s.convs[c].prompts[k].tokens == events[j].tokens)
      && IsBudget(cfg, events, c, k, cfg.prompts[c][k].tokens, s.convs[c].prompts[k].tokens)
  {
    RunRecorded(cfg, events);
    var s := Run(cfg, events);
    assert ConversationRecorded(cfg, events, c, s.convs[c]);
    if k < s.convs[c].finished {
      assert IsReply(cfg, events, c, k, s.convs[c].messages[2 * k + 1]);
    }
  }

  /** A task that is over was replied to, has failed, or was begun when its conversation was complete. */
  lemma OutcomesAre(cfg: Config, events: seq<Event>, t: nat)
    requires Done(Run(cfg, events), t)
    ensures var task := Run(cfg, events).tasks[t]; OutcomeIs(cfg, events, t, task.conv, task.outcome)
  {
    RunRecorded(cfg, events);
    assert TaskRecorded(cfg, events, t, Run(cfg, events).tasks[t]);
  }

  /** A task that has been replied to has played its turn, and this stays so. */
  lemma {:induction false} ReplyFinishesTask(cfg: Config, events: seq<Event>, j: nat, c: nat, k: nat)
    requires RepliesTo(cfg, events, j, c, k)
    ensures events[j].task < |Run(cfg, events).tasks|
    ensures Run(cfg, events).tasks[events[j].task] == Finished(c, Success(k))
    decreases |events|
  {
    var n := |events| - 1;
    assert events == events[..n] + [events[n]];
    if j < n {
      RepliesLater(cfg, events[..n], events[n], j, c, k);
      ReplyFinishesTask(cfg, events[..n], j, c, k);
    }
  }
}
