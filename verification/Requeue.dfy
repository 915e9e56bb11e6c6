/** The multi-turn mode of `benchmark/hicache/bench_serving.py`: conversations wait in a bounded
    queue, a driver takes one at a time and starts a task for its next turn, and a task whose turn
    succeeded and was not the last puts the conversation back. The history of a conversation is
    appended to in place, also by a turn that then fails. */
module Requeue {
  import opened Common
  import opened Sums

  datatype Prompt = Prompt(text: string, inputLen: int, outputLen: int)

  /** The mutable part of a `RequestFuncInput`. */
  datatype Conversation = Conversation(prompts: seq<Prompt>, prevMessages: seq<Message>, finished: nat)

  /** Start of a turn: the user message goes into the stored history at once. */
  function Begun(c: Conversation): Conversation
    requires c.finished < |c.prompts|
  {
    c.(prevMessages := c.prevMessages + [Message(User, c.prompts[c.finished].text)])
  }

  /** A successful reply to turn `idx`; the counter moves only if the conversation goes on. */
  function Completed(c: Conversation, idx: nat, prompt: Prompt, reply: string, tokens: int): Conversation
    requires idx < |c.prompts|
  {
    Conversation(
      c.prompts[idx := Prompt(prompt.text, prompt.inputLen, tokens)],
      c.prevMessages + [Message(Assistant, reply)],
      if idx + 1 < |c.prompts| then idx + 1 else c.finished)
  }

  class RequestFuncInput {
    var prompts: seq<Prompt>
    var prevMessages: seq<Message>
    var finishedPrompts: nat

    ghost function Value(): Conversation
      reads this
    {
      Conversation(prompts, prevMessages, finishedPrompts)
    }

    constructor (prompts: seq<Prompt>)
      ensures Value() == Conversation(prompts, [], 0)
    {
      this.prompts := prompts;
      prevMessages := [];
      finishedPrompts := 0;
    }

    /** `raised` is the `IndexError` of an empty conversation. */
    method Begin() returns (raised: bool, idx: nat, prompt: Prompt)
      modifies this
      ensures raised <==> old(Value()).finished >= |old(Value()).prompts|
      ensures raised ==> Value() == old(Value())
      ensures !raised ==>
                && Value() == Begun(old(Value())) && idx == finishedPrompts
                && prompt == old(Value()).prompts[idx]
    {
      idx := finishedPrompts;
      if idx >= |prompts| {
        return true, idx, Prompt("", 0, 0);
      }
      prompt := prompts[idx];
      prevMessages := prevMessages + [Message(User, prompt.text)];
      return false, idx, prompt;
    }

    /** Returns whether the conversation is to be put back into the queue. */
    method Finish(idx: nat, prompt: Prompt, reply: string, tokens: int) returns (again: bool)
      requires idx < |prompts|
      modifies this
      ensures Value() == Completed(old(Value()), idx, prompt, reply, tokens)
      ensures again <==> idx + 1 < |prompts|
    {
      prompts := prompts[idx := Prompt(prompt.text, prompt.inputLen, tokens)];
      var promptIdx := idx + 1;
      prevMessages := prevMessages + [Message(Assistant, reply)];
      again := promptIdx < |prompts|;
      if again {
        finishedPrompts := promptIdx;
      }
    }
  }

  // ----- the machine -----

  /** `Requeueing`: the turn is over and `queue.put` has not gone through yet. */
  datatype Task = Created(conv: nat) | Waiting(conv: nat, idx: nat, prompt: Prompt) | Requeueing(conv: nat)
            | Finished(conv: nat)

  /** Where a conversation is; an auxiliary of the proofs, no step looks at it. */
  datatype Place = Queued | Active(task: nat) | Complete | Failed

  /** One turn sent to the server. */
  datatype Sent = Sent(conv: nat, idx: nat)

  /** `sent` records the turns sent so far, in order. */
  datatype State = State(convs: seq<Conversation>, queue: seq<nat>, tasks: seq<Task>, gets: nat, sent: seq<Sent>,
            places: seq<Place>)

  datatype Event =
    | Get
    | Begin(task: nat)
    | Reply(task: nat, reply: string, tokens: int)
    | Fail(task: nat)
    | Put(task: nat)

  /** The conversations of a benchmark are not empty. */
  ghost predicate Valid(p0: seq<seq<Prompt>>) { forall c | 0 <= c < |p0| :: p0[c] != [] }

  function Lengths(p0: seq<seq<Prompt>>): seq<int> { seq(|p0|, c requires 0 <= c < |p0| => |p0[c]|) }

  /** `num_actual_requests`, the number of turns of all conversations. */
  function NumActualRequests(p0: seq<seq<Prompt>>): int { Sum(Lengths(p0)) }

  function Start(p0: seq<seq<Prompt>>): State {
    State(
      seq(|p0|, c requires 0 <= c < |p0| => Conversation(p0[c], [], 0)),
      seq(|p0|, c requires 0 <= c < |p0| => c), [], 0, [], seq(|p0|, c => Queued))
  }

  predicate Known(s: State, c: nat) { c < |s.convs| && c < |s.places| }

  predicate Enabled(p0: seq<seq<Prompt>>, s: State, e: Event) {
    match e
    case Get => s.gets < NumActualRequests(p0) && s.queue != [] && Known(s, s.queue[0])
    case Begin(t) =>
      && t < |s.tasks| && s.tasks[t].Created? && Known(s, s.tasks[t].conv)
      && s.convs[s.tasks[t].conv].finished < |s.convs[s.tasks[t].conv].prompts|
    case Reply(t, _, _) =>
      && t < |s.tasks| && s.tasks[t].Waiting? && Known(s, s.tasks[t].conv)
      && s.tasks[t].idx < |s.convs[s.tasks[t].conv].prompts|
    case Fail(t) => t < |s.tasks| && s.tasks[t].Waiting? && Known(s, s.tasks[t].conv)
    case Put(t) => t < |s.tasks| && s.tasks[t].Requeueing? && Known(s, s.tasks[t].conv) && |s.queue| < |p0|
  }

  function Next(p0: seq<seq<Prompt>>, s: State, e: Event): State
    requires Enabled(p0, s, e)
  {
    match e
    case Get =>
      var c := s.queue[0];
      s.(queue := s.queue[1..], tasks := s.tasks + [Created(c)], gets := s.gets + 1,
          places := s.places[c := Active(|s.tasks|)])
    case Begin(t) =>
      var c := s.tasks[t].conv;
      var conv := s.convs[c];
      s.(convs := s.convs[c := Begun(conv)],
          tasks := s.tasks[t := Waiting(c, conv.finished, conv.prompts[conv.finished])],
         sent := s.sent + [Sent(c, conv.finished)])
    case Reply(t, reply, tokens) =>
      var c := s.tasks[t].conv;
      var conv := Completed(s.convs[c], s.tasks[t].idx, s.tasks[t].prompt, reply, tokens);
      var again := s.tasks[t].idx + 1 < |conv.prompts|;
      s.(convs := s.convs[c := conv], tasks := s.tasks[t := if again then Requeueing(c) else Finished(c)],
         places := if again then s.places else s.places[c := Complete])
    case Fail(t) =>
      var c := s.tasks[t].conv;
      s.(tasks := s.tasks[t := Finished(c)], places := s.places[c := Failed])
    case Put(t) =>
      var c := s.tasks[t].conv;
      s.(queue := s.queue + [c], tasks := s.tasks[t := Finished(c)], places := s.places[c := Queued])
  }

  /** An event that is not enabled changes nothing. */
  function RunFrom(p0: seq<seq<Prompt>>, s: State, events: seq<Event>): State {
    if events == [] then s else
      var s' := RunFrom(p0, s, events[..|events| - 1]);
      var e := events[|events| - 1];
      if Enabled(p0, s', e) then Next(p0, s', e) else s'
  }

  function Run(p0: seq<seq<Prompt>>, events: seq<Event>): State { RunFrom(p0, Start(p0), events) }

  // ----- the invariant -----

  /** Message `m` of a conversation: prompt `m / 2` if even, a reply if odd. */
  ghost predicate MessageOk(p: seq<Prompt>, m: nat, message: Message) {
    && m / 2 < |p|
    && if m % 2 == 0 then message == Message(User, p[m / 2].text) else message.role == Assistant
  }

  ghost predicate ConversationOk(p: seq<Prompt>, c: Conversation) {
    && |c.prompts| == |p| && (forall k | 0 <= k < |p| ::
         c.prompts[k].text == p[k].text && c.prompts[k].inputLen == p[k].inputLen)
    && (forall m | 0 <= m < |c.prevMessages| :: MessageOk(p, m, c.prevMessages[m]))
    && c.finished < |p|
  }

  /** Turns of conversation `c` that have been sent, by its place and that of its task. */
  ghost function SentTurns(s: State, c: nat): int
    requires c < |s.convs| && c < |s.places|
  {
    match s.places[c]
    case Queued => s.convs[c].finished
    case Active(t) => s.convs[c].finished + Flag(t < |s.tasks| && s.tasks[t].Waiting?)
    case Complete => |s.convs[c].prompts|
    case Failed => s.convs[c].finished + 1
  }

  /** How often conversation `c` has been taken from the queue. */
  ghost function Gets(s: State, c: nat): int
    requires c < |s.convs| && c < |s.places|
  {
    match s.places[c]
    case Queued => s.convs[c].finished
    case Active(t) => s.convs[c].finished + Flag(t < |s.tasks| && !s.tasks[t].Requeueing?)
    case Complete => |s.convs[c].prompts|
    case Failed => s.convs[c].finished + 1
  }

  ghost function GetsOf(s: State): seq<int>
    requires |s.convs| == |s.places|
  {
    seq(|s.places|, c requires 0 <= c < |s.places| => Gets(s, c))
  }

  function Count(q: seq<nat>, c: nat): nat {
    if q == [] then 0 else Count(q[..|q| - 1], c) + Flag(q[|q| - 1] == c)
  }

  function SentBefore(log: seq<Sent>, n: nat, c: nat): nat
    requires n <= |log|
  {
    if n == 0 then 0 else SentBefore(log, n - 1, c) + Flag(log[n - 1].conv == c)
  }

  ghost predicate PlaceOk(p: seq<Prompt>, s: State, c: nat)
    requires c < |s.convs| && c < |s.places|
  {
    var conv := s.convs[c];
    && Count(s.queue, c) == Flag(s.places[c].Queued?)
    && SentBefore(s.sent, |s.sent|, c) == SentTurns(s, c)
    && match s.places[c]
       case Queued => |conv.prevMessages| == 2 * conv.finished
       case Active(t) =>
         && t < |s.tasks| && !s.tasks[t].Finished? && s.tasks[t].conv == c
         && (s.tasks[t].Waiting? ==>
              && s.tasks[t].idx == conv.finished < |p| && s.tasks[t].prompt.text == p[conv.finished].text
              && s.tasks[t].prompt.inputLen == p[conv.finished].inputLen)
         && (s.tasks[t].Requeueing? ==> 0 < conv.finished)
         && |conv.prevMessages| == 2 * conv.finished + Flag(s.tasks[t].Waiting?)
       case Complete => |conv.prevMessages| == 2 * |p|
       case Failed => |conv.prevMessages| == 2 * conv.finished + 1
  }

  ghost predicate Inv(p0: seq<seq<Prompt>>, s: State) {
    && |s.convs| == |s.places| == |p0|
    && (forall c | 0 <= c < |p0| :: ConversationOk(p0[c], s.convs[c]) && PlaceOk(p0[c], s, c))
    && (forall i | 0 <= i < |s.queue| :: s.queue[i] < |p0|)
    && (forall t | 0 <= t < |s.tasks| && !s.tasks[t].Finished? ::
         s.tasks[t].conv < |p0| && s.places[s.tasks[t].conv] == Active(t))
    && (forall k | 0 <= k < |s.sent| :: s.sent[k].idx == SentBefore(s.sent, k, s.sent[k].conv))
    && s.gets == Sum(GetsOf(s)) && s.gets <= NumActualRequests(p0)
  }

  lemma {:induction false} CountDrop(q: seq<nat>, c: nat)
    requires q != []
    ensures Count(q[1..], c) == Count(q, c) - Flag(q[0] == c)
    decreases |q|
  {
    if |q| > 1 {
      CountDrop(q[..|q| - 1], c);
      assert q[1..][..|q| - 2] == q[..|q| - 1][1..];
    }
  }

  lemma CountAppend(q: seq<nat>, x: nat, c: nat)
    ensures Count(q + [x], c) == Count(q, c) + Flag(x == c)
  {
    assert (q + [x])[..|q|] == q;
  }

  lemma {:induction false} CountPositive(q: seq<nat>, i: nat)
    requires i < |q|
    ensures 1 <= Count(q, q[i])
    decreases |q|
  {
    if i < |q| - 1 {
      CountPositive(q[..|q| - 1], i);
    }
  }

  lemma {:induction false} SentBeforeAppend(log: seq<Sent>, x: Sent, n: nat, c: nat)
    requires n <= |log|
    ensures SentBefore(log + [x], n, c) == SentBefore(log, n, c)
  {
    if n > 0 {
      SentBeforeAppend(log, x, n - 1, c);
    }
  }

  /** A conversation does not notice what happens to others. */
  lemma Frame(p: seq<Prompt>, s: State, s': State, d: nat)
    requires d < |s.convs| && d < |s.places| && d < |s'.convs| && d < |s'.places| && PlaceOk(p, s, d)
    requires s'.convs[d] == s.convs[d] && s'.places[d] == s.places[d]
    requires Count(s'.queue, d) == Count(s.queue, d)
    requires SentBefore(s'.sent, |s'.sent|, d) == SentBefore(s.sent, |s.sent|, d)
    requires s.places[d].Active? ==>
             s.places[d].task < |s'.tasks| && s'.tasks[s.places[d].task] == s.tasks[s.places[d].task]
    ensures PlaceOk(p, s', d) && Gets(s', d) == Gets(s, d)
  {
  }

  /** The conversation an event is about. */
  function Subject(p0: seq<seq<Prompt>>, s: State, e: Event): nat
    requires Enabled(p0, s, e)
  {
    if e.Get? then s.queue[0] else s.tasks[e.task].conv
  }

  lemma OthersKeep(p0: seq<seq<Prompt>>, s: State, e: Event, d: nat)
    requires Inv(p0, s) && Enabled(p0, s, e) && d < |p0| && d != Subject(p0, s, e)
    ensures PlaceOk(p0[d], Next(p0, s, e), d) && Gets(Next(p0, s, e), d) == Gets(s, d)
  {
    assert PlaceOk(p0[d], s, d);
    OthersCounted(p0, s, e, d);
    OthersUntouched(p0, s, e, d);
    Frame(p0[d], s, Next(p0, s, e), d);
  }

  lemma OthersUntouched(p0: seq<seq<Prompt>>, s: State, e: Event, d: nat)
    requires Inv(p0, s) && Enabled(p0, s, e) && d < |p0| && d != Subject(p0, s, e)
    ensures var s' := Next(p0, s, e);
      && d < |s'.convs| && d < |s'.places| && s'.convs[d] == s.convs[d] && s'.places[d] == s.places[d]
      && (s.places[d].Active? ==>
           s.places[d].task < |s'.tasks| && s'.tasks[s.places[d].task] == s.tasks[s.places[d].task])
  {
    assert PlaceOk(p0[d], s, d);
  }

  /** Neither the queue nor the log gains or loses an entry of another conversation. */
  lemma OthersCounted(p0: seq<seq<Prompt>>, s: State, e: Event, d: nat)
    requires Enabled(p0, s, e) && d != Subject(p0, s, e)
    ensures var s' := Next(p0, s, e);
      Count(s'.queue, d) == Count(s.queue, d) && SentBefore(s'.sent, |s'.sent|, d) == SentBefore(s.sent, |s.sent|, d)
  {
    var s' := Next(p0, s, e);
    match e {
      case Get => CountDrop(s.queue, d);
      case Begin(t) => SentBeforeAppend(s.sent, s'.sent[|s.sent|], |s.sent|, d);
      case Put(t) => CountAppend(s.queue, s.tasks[t].conv, d);
      case _ =>
    }
  }

  /** What an event does to its own conversation. */
  ghost predicate SubjectOk(p0: seq<seq<Prompt>>, s: State, e: Event)
    requires Inv(p0, s) && Enabled(p0, s, e)
  {
    var s', c := Next(p0, s, e), Subject(p0, s, e);
    && c < |p0| && PlaceOk(p0[c], s', c) && Gets(s', c) == Gets(s, c) + Flag(e.Get?)
    && ConversationOk(p0[c], s'.convs[c])
  }

  lemma GetOk(p0: seq<seq<Prompt>>, s: State, e: Event)
    requires Inv(p0, s) && Enabled(p0, s, e) && e.Get?
    ensures SubjectOk(p0, s, e)
  {
    var c := s.queue[0];
    assert PlaceOk(p0[c], s, c) && ConversationOk(p0[c], s.convs[c]);
    CountPositive(s.queue, 0);
    CountDrop(s.queue, c);
  }

  lemma BegunOk(p: seq<Prompt>, c: Conversation)
    requires ConversationOk(p, c) && |c.prevMessages| == 2 * c.finished
    ensures ConversationOk(p, Begun(c))
  {
    forall m | 0 <= m < |Begun(c).prevMessages| ensures MessageOk(p, m, Begun(c).prevMessages[m]) {
      assert m < |c.prevMessages| ==> MessageOk(p, m, c.prevMessages[m]);
    }
  }

  lemma CompletedOk(p: seq<Prompt>, c: Conversation, prompt: Prompt, reply: string, tokens: int)
    requires ConversationOk(p, c) && |c.prevMessages| == 2 * c.finished + 1
    requires prompt.text == p[c.finished].text && prompt.inputLen == p[c.finished].inputLen
    ensures ConversationOk(p, Completed(c, c.finished, prompt, reply, tokens))
  {
    var c' := Completed(c, c.finished, prompt, reply, tokens);
    forall m | 0 <= m < |c'.prevMessages| ensures MessageOk(p, m, c'.prevMessages[m]) {
      assert m < |c.prevMessages| ==> MessageOk(p, m, c.prevMessages[m]);
    }
  }

  lemma BeginOk(p0: seq<seq<Prompt>>, s: State, e: Event)
    requires Inv(p0, s) && Enabled(p0, s, e) && e.Begin?
    ensures SubjectOk(p0, s, e)
  {
    var c := s.tasks[e.task].conv;
    assert PlaceOk(p0[c], s, c) && ConversationOk(p0[c], s.convs[c]);
    SentBeforeAppend(s.sent, Next(p0, s, e).sent[|s.sent|], |s.sent|, c);
    BegunOk(p0[c], s.convs[c]);
  }

  lemma ReplyOk(p0: seq<seq<Prompt>>, s: State, e: Event)
    requires Inv(p0, s) && Enabled(p0, s, e) && e.Reply?
    ensures SubjectOk(p0, s, e)
  {
    var c := s.tasks[e.task].conv;
    assert PlaceOk(p0[c], s, c) && ConversationOk(p0[c], s.convs[c]);
    CompletedOk(p0[c], s.convs[c], s.tasks[e.task].prompt, e.reply, e.tokens);
  }

  lemma FailOk(p0: seq<seq<Prompt>>, s: State, e: Event)
    requires Inv(p0, s) && Enabled(p0, s, e) && e.Fail?
    ensures SubjectOk(p0, s, e)
  {
    var c := s.tasks[e.task].conv;
    assert PlaceOk(p0[c], s, c) && ConversationOk(p0[c], s.convs[c]);
  }

  lemma PutOk(p0: seq<seq<Prompt>>, s: State, e: Event)
    requires Inv(p0, s) && Enabled(p0, s, e) && e.Put?
    ensures SubjectOk(p0, s, e)
  {
    var c := s.tasks[e.task].conv;
    assert PlaceOk(p0[c], s, c) && ConversationOk(p0[c], s.convs[c]);
    CountAppend(s.queue, c, c);
  }

  lemma SubjectKeeps(p0: seq<seq<Prompt>>, s: State, e: Event)
    requires Inv(p0, s) && Enabled(p0, s, e)
    ensures SubjectOk(p0, s, e)
  {
    match e {
      case Get => GetOk(p0, s, e);
      case Begin(_) => BeginOk(p0, s, e);
      case Reply(_, _, _) => ReplyOk(p0, s, e);
      case Fail(_) => FailOk(p0, s, e);
      case Put(_) => PutOk(p0, s, e);
    }
  }

  lemma GetsKeep(p0: seq<seq<Prompt>>, s: State, e: Event)
    requires Inv(p0, s) && Enabled(p0, s, e)
    ensures |Next(p0, s, e).convs| == |Next(p0, s, e).places| == |p0|
    ensures Next(p0, s, e).gets == Sum(GetsOf(Next(p0, s, e)))
  {
    var s' := Next(p0, s, e);
    var c := Subject(p0, s, e);
    SubjectKeeps(p0, s, e);
    SumUpdate(GetsOf(s), c, Gets(s', c));
    assert GetsOf(s') == GetsOf(s)[c := Gets(s', c)] by {
      forall d | 0 <= d < |p0| && d != c ensures Gets(s', d) == Gets(s, d) {
        OthersKeep(p0, s, e, d);
      }
    }
  }

  lemma ConversationsKeep(p0: seq<seq<Prompt>>, s: State, e: Event, d: nat)
    requires Inv(p0, s) && Enabled(p0, s, e) && d < |p0|
    ensures |Next(p0, s, e).convs| == |Next(p0, s, e).places| == |p0|
    ensures ConversationOk(p0[d], Next(p0, s, e).convs[d]) && PlaceOk(p0[d], Next(p0, s, e), d)
  {
    SubjectKeeps(p0, s, e);
    if d != Subject(p0, s, e) {
      assert ConversationOk(p0[d], s.convs[d]);
      OthersKeep(p0, s, e, d);
    }
  }

  lemma NextKeeps(p0: seq<seq<Prompt>>, s: State, e: Event)
    requires Inv(p0, s) && Enabled(p0, s, e)
    ensures Inv(p0, Next(p0, s, e))
  {
    GetsKeep(p0, s, e);
    forall d | 0 <= d < |p0|
      ensures ConversationOk(p0[d], Next(p0, s, e).convs[d]) && PlaceOk(p0[d], Next(p0, s, e), d)
    {
      ConversationsKeep(p0, s, e, d);
    }
    LogKeeps(p0, s, e);
    TasksKeep(p0, s, e);
    QueueKeeps(p0, s, e);
  }

  lemma QueueKeeps(p0: seq<seq<Prompt>>, s: State, e: Event)
    requires Inv(p0, s) && Enabled(p0, s, e)
    ensures var q := Next(p0, s, e).queue; forall i | 0 <= i < |q| :: q[i] < |p0|
    ensures Next(p0, s, e).gets <= NumActualRequests(p0)
  {
  }

  /** The turns of each conversation are logged in order. */
  lemma LogKeeps(p0: seq<seq<Prompt>>, s: State, e: Event)
    requires Inv(p0, s) && Enabled(p0, s, e)
    ensures var log := Next(p0, s, e).sent; forall k | 0 <= k < |log| :: log[k].idx == SentBefore(log, k, log[k].conv)
  {
    var log := Next(p0, s, e).sent;
    if e.Begin? {
      var c := s.tasks[e.task].conv;
      assert PlaceOk(p0[c], s, c);
      forall k | 0 <= k < |log| ensures log[k].idx == SentBefore(log, k, log[k].conv) {
        SentBeforeAppend(s.sent, Sent(c, s.convs[c].finished), k, log[k].conv);
      }
    }
  }

  lemma TasksKeep(p0: seq<seq<Prompt>>, s: State, e: Event)
    requires Inv(p0, s) && Enabled(p0, s, e)
    ensures var s' := Next(p0, s, e);
      forall t | 0 <= t < |s'.tasks| && !s'.tasks[t].Finished? ::
          s'.tasks[t].conv < |p0| && s'.places[s'.tasks[t].conv] == Active(t)
  {
    var c := Subject(p0, s, e);
    if e.Get? {
      CountPositive(s.queue, 0);
      assert PlaceOk(p0[c], s, c);
    }
  }

  lemma {:induction false} CountIdentity(n: nat, m: nat, c: nat)
    requires m <= n
    ensures Count(seq(n, i requires 0 <= i < n => i)[..m], c) == Flag(c < m)
  {
    var q := seq(n, i requires 0 <= i < n => i);
    if m > 0 {
      CountIdentity(n, m - 1, c);
      assert q[..m][..m - 1] == q[..m - 1];
    }
  }

  lemma StartInv(p0: seq<seq<Prompt>>)
    requires Valid(p0)
    ensures Inv(p0, Start(p0))
  {
    var s := Start(p0);
    forall c | 0 <= c < |p0| ensures PlaceOk(p0[c], s, c) {
      CountIdentity(|p0|, |p0|, c);
      var q := seq(|p0|, i requires 0 <= i < |p0| => i);
      assert s.queue == q == q[..|p0|];
    }
    SumZero(GetsOf(s));
    SumMonotone(GetsOf(s), Lengths(p0));
  }

  lemma {:induction false} RunFromInv(p0: seq<seq<Prompt>>, s: State, events: seq<Event>)
    requires Inv(p0, s)
    ensures Inv(p0, RunFrom(p0, s, events)) && s.gets <= RunFrom(p0, s, events).gets
    decreases |events|
  {
    if events != [] {
      RunFromInv(p0, s, events[..|events| - 1]);
      var s', e := RunFrom(p0, s, events[..|events| - 1]), events[|events| - 1];
      if Enabled(p0, s', e) {
        NextKeeps(p0, s', e);
      }
    }
  }

  lemma RunInv(p0: seq<seq<Prompt>>, events: seq<Event>)
    requires Valid(p0)
    ensures Inv(p0, Run(p0, events))
  {
    StartInv(p0);
    RunFromInv(p0, Start(p0), events);
  }

  // ----- the main results, for every run -----

  /** The task playing conversation `c`, if any. */
  ghost predicate Playing(s: State, c: nat, t: nat) { t < |s.tasks| && !s.tasks[t].Finished? && s.tasks[t].conv == c }

  /** A conversation is queued at most once, played by at most one task, and never both; while it is
      queued its history is that of its finished turns: user and assistant alternate, and the k-th
      user message is prompt k. */
  lemma NeverTwice(p0: seq<seq<Prompt>>, events: seq<Event>, c: nat)
    requires Valid(p0) && c < |p0|
    ensures var s := Run(p0, events);
      && |s.convs| == |p0|
      && Count(s.queue, c) <= 1
      && (forall t, u | Playing(s, c, t) && Playing(s, c, u) :: t == u)
      && (forall t | Playing(s, c, t) :: Count(s.queue, c) == 0)
      && (Count(s.queue, c) == 1 ==> |s.convs[c].prevMessages| == 2 * s.convs[c].finished)
      && (forall m | 0 <= m < |s.convs[c].prevMessages| :: MessageOk(p0[c], m, s.convs[c].prevMessages[m]))
      && |s.convs[c].prompts| == |p0[c]|
      && (forall k | 0 <= k < |p0[c]| ::
           s.convs[c].prompts[k].text == p0[c][k].text && s.convs[c].prompts[k].inputLen == p0[c][k].inputLen)
  {
    RunInv(p0, events);
    var s := Run(p0, events);
    assert PlaceOk(p0[c], s, c) && ConversationOk(p0[c], s.convs[c]);
  }

  /** Putting a conversation back never has to wait for room in the queue. */
  lemma PutNeverBlocks(p0: seq<seq<Prompt>>, events: seq<Event>, t: nat)
    requires Valid(p0)
    ensures var s := Run(p0, events);
      t < |s.tasks| && s.tasks[t].Requeueing? ==> |s.queue| < |p0| && Enabled(p0, s, Put(t))
  {
    RunInv(p0, events);
    var s := Run(p0, events);
    if t < |s.tasks| && s.tasks[t].Requeueing? {
      var c := s.tasks[t].conv;
      assert PlaceOk(p0[c], s, c);
      forall d | 0 <= d < |p0| ensures Count(s.queue, d) <= 1 {
        assert PlaceOk(p0[d], s, d);
      }
      ShortQueue(s.queue, |p0|, c);
    }
  }

  function Counts(q: seq<nat>, n: nat): seq<int> { seq(n, c requires 0 <= c < n => Count(q, c)) }

  lemma {:induction false} CountsSum(q: seq<nat>, n: nat)
    requires forall i | 0 <= i < |q| :: q[i] < n
    ensures Sum(Counts(q, n)) == |q|
    decreases |q|
  {
    if q == [] {
      SumZero(Counts(q, n));
    } else {
      var r, x := q[..|q| - 1], q[|q| - 1];
      CountsSum(r, n);
      SumUpdate(Counts(r, n), x, Count(r, x) + 1);
      assert Counts(q, n) == Counts(r, n)[x := Count(r, x) + 1];
    }
  }

  /** A queue without repetitions that misses one of `n` conversations is shorter than `n`. */
  lemma ShortQueue(q: seq<nat>, n: nat, c: nat)
    requires forall i | 0 <= i < |q| :: q[i] < n
    requires forall d | 0 <= d < n :: Count(q, d) <= 1
    requires c < n && Count(q, c) == 0
    ensures |q| < n
  {
    CountsSum(q, n);
    SumUpdate(Counts(q, n), c, 1);
    SumBound(Counts(q, n)[c := 1], 1);
  }

  /** Turns are sent in order and each at most once: the log entry of a turn of `c` carries the number
      of turns of `c` logged before it. */
  lemma TurnsInOrder(p0: seq<seq<Prompt>>, events: seq<Event>, k: nat)
    requires Valid(p0)
    ensures var log := Run(p0, events).sent; k < |log| ==> log[k].idx == SentBefore(log, k, log[k].conv)
  {
    RunInv(p0, events);
  }

  lemma GetsBound(p0: seq<seq<Prompt>>, s: State, c: nat)
    requires Inv(p0, s) && c < |p0|
    ensures Gets(s, c) <= |p0[c]|
    ensures s.places[c].Queued? ==> Gets(s, c) < |p0[c]|
  {
    assert ConversationOk(p0[c], s.convs[c]) && PlaceOk(p0[c], s, c);
  }

  /** After `num_actual_requests` gets the queue is empty and stays empty. */
  lemma DrainedAtTheEnd(p0: seq<seq<Prompt>>, before: seq<Event>, after: seq<Event>)
    requires Valid(p0) && Run(p0, before).gets == NumActualRequests(p0)
    ensures RunFrom(p0, Run(p0, before), after).queue == []
  {
    RunInv(p0, before);
    RunFromInv(p0, Run(p0, before), after);
    var s := RunFrom(p0, Run(p0, before), after);
    forall c | 0 <= c < |p0| ensures Count(s.queue, c) == 0 {
      assert PlaceOk(p0[c], s, c);
      forall d | 0 <= d < |p0| ensures GetsOf(s)[d] <= Lengths(p0)[d] {
        GetsBound(p0, s, d);
      }
      SumTight(GetsOf(s), Lengths(p0), c);
      GetsBound(p0, s, c);
    }
    if s.queue != [] {
      CountPositive(s.queue, 0);
    }
  }

  /** As long as no turn has failed and fewer gets than that have been made, some conversation is
      queued or being played, and something other than a failure can happen to it: the next get will be
      answered. */
  lemma MoreToCome(p0: seq<seq<Prompt>>, events: seq<Event>) returns (c: nat, e: Event)
    requires Valid(p0) && Run(p0, events).gets < NumActualRequests(p0)
    requires forall d | 0 <= d < |Run(p0, events).places| :: !Run(p0, events).places[d].Failed?
    ensures c < |p0| && (Count(Run(p0, events).queue, c) == 1 || exists t :: Playing(Run(p0, events), c, t))
    ensures !e.Fail? && Enabled(p0, Run(p0, events), e)
  {
    RunInv(p0, events);
    var s := Run(p0, events);
    c := SumsDiffer(GetsOf(s), Lengths(p0));
    assert PlaceOk(p0[c], s, c) && ConversationOk(p0[c], s.convs[c]);
    if s.places[c].Active? {
      var t := s.places[c].task;
      assert Playing(s, c, t);
      PutNeverBlocks(p0, events, t);
      e := match s.tasks[t]
           case Created(_) => Begin(t)
           case Waiting(_, _, _) => Reply(t, "", 0)
           case _ => Put(t);
    } else {
      e := Get;
    }
  }
}
