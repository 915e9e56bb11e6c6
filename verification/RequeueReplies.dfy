/** What the histories of `Requeue` say: every assistant message is the text of the reply to its turn, and
    the output length of a played prompt is that of the reply. */
module RequeueReplies {
  import opened Common
  import opened Requeue

  /** Event `j` of the run is a reply, to a task that plays turn `k` of conversation `c`. */
  ghost predicate RepliesTo(p0: seq<seq<Prompt>>, events: seq<Event>, j: nat, c: nat, k: nat) {
    && j < |events| && events[j].Reply?
    && var s := Run(p0, events[..j]);
      && Enabled(p0, s, events[j])
      && s.tasks[events[j].task].conv == c && s.tasks[events[j].task].idx == k
  }

  /** Message `m` of conversation `c`, if odd, is the text of a reply to turn `m / 2`. */
  ghost predicate IsReply(p0: seq<seq<Prompt>>, events: seq<Event>, c: nat, m: nat, message: Message) {
    exists j: nat :: RepliesTo(p0, events, j, c, m / 2) && message == Message(Assistant, events[j].reply)
  }

  ghost predicate IsLength(p0: seq<seq<Prompt>>, events: seq<Event>, c: nat, k: nat, given: int, length: int) {
    || (exists j: nat :: RepliesTo(p0, events, j, c, k) && length == events[j].tokens)
    || (length == given && forall j: nat :: !RepliesTo(p0, events, j, c, k))
  }

  ghost predicate ConversationRecorded(p0: seq<seq<Prompt>>, events: seq<Event>, c: nat, conv: Conversation)
    requires c < |p0|
  {
    && (forall m: nat | m < |conv.prevMessages| && m % 2 == 1 :: IsReply(p0, events, c, m, conv.prevMessages[m]))
    && |conv.prompts| == |p0[c]|
    && forall k: nat | k < |p0[c]| :: IsLength(p0, events, c, k, p0[c][k].outputLen, conv.prompts[k].outputLen)
  }

  ghost predicate Recorded(p0: seq<seq<Prompt>>, events: seq<Event>, s: State) {
    && Inv(p0, s) && forall c: nat | c < |p0| :: ConversationRecorded(p0, events, c, s.convs[c])
  }

  lemma RepliesLater(p0: seq<seq<Prompt>>, events: seq<Event>, e: Event, j: nat, c: nat, k: nat)
    ensures RepliesTo(p0, events + [e], j, c, k) <==>
            if j == |events| then RepliesTo(p0, events + [e], j, c, k) else RepliesTo(p0, events, j, c, k)
  {
    if j < |events| {
      assert (events + [e])[..j] == events[..j];
    }
  }

  lemma IsReplyLater(p0: seq<seq<Prompt>>, events: seq<Event>, e: Event, c: nat, m: nat, message: Message)
    requires IsReply(p0, events, c, m, message)
    ensures IsReply(p0, events + [e], c, m, message)
  {
    var j: nat :| RepliesTo(p0, events, j, c, m / 2) && message == Message(Assistant, events[j].reply);
    RepliesLater(p0, events, e, j, c, m / 2);
    assert (events + [e])[j] == events[j];
  }

  /** Unless the new event is a reply to turn `k`, in which case the length must be its own. */
  lemma LengthLater(p0: seq<seq<Prompt>>, events: seq<Event>, e: Event, c: nat, k: nat, given: int, length: int,
          length': int)
    requires IsLength(p0, events, c, k, given, length)
    requires if RepliesTo(p0, events + [e], |events|, c, k) then e.tokens == length' else length' == length
    ensures IsLength(p0, events + [e], c, k, given, length')
  {
    var longer := events + [e];
    assert longer[|events|] == e;
    if RepliesTo(p0, longer, |events|, c, k) {
      assert RepliesTo(p0, longer, |events|, c, k) && length' == longer[|events|].tokens;
    } else {
      forall j: nat ensures RepliesTo(p0, longer, j, c, k) <==> RepliesTo(p0, events, j, c, k) {
        RepliesLater(p0, events, e, j, c, k);
      }
      if j: nat :| RepliesTo(p0, events, j, c, k) && length == events[j].tokens {
        assert RepliesTo(p0, longer, j, c, k) && length' == longer[j].tokens;
      }
    }
  }

  /** An event that is enabled leaves every conversation recorded. */
  lemma ConversationKept(p0: seq<seq<Prompt>>, events: seq<Event>, e: Event, c: nat)
    requires Recorded(p0, events, Run(p0, events)) && Enabled(p0, Run(p0, events), e) && c < |p0|
    requires Inv(p0, Next(p0, Run(p0, events), e))
    ensures ConversationRecorded(p0, events + [e], c, Next(p0, Run(p0, events), e).convs[c])
  {
    var s, longer := Run(p0, events), events + [e];
    var conv, conv' := s.convs[c], Next(p0, s, e).convs[c];
    assert longer[..|events|] == events && longer[|events|] == e;
    assert ConversationRecorded(p0, events, c, conv) && ConversationOk(p0[c], conv) && PlaceOk(p0[c], s, c);
    forall m: nat | m < |conv'.prevMessages| && m % 2 == 1 ensures IsReply(p0, longer, c, m, conv'.prevMessages[m]) {
      if m < |conv.prevMessages| {
        IsReplyLater(p0, events, e, c, m, conv.prevMessages[m]);
      } else {
        NewMessage(p0, events, e, c, m);
      }
    }
    LengthsKept(p0, events, e, c);
  }

  lemma NewMessage(p0: seq<seq<Prompt>>, events: seq<Event>, e: Event, c: nat, m: nat)
    requires Inv(p0, Run(p0, events)) && Enabled(p0, Run(p0, events), e) && c < |p0|
    requires |Next(p0, Run(p0, events), e).convs| == |p0|
    requires |Run(p0, events).convs[c].prevMessages| <= m < |Next(p0, Run(p0, events), e).convs[c].prevMessages|
    requires m % 2 == 1
    ensures IsReply(p0, events + [e], c, m, Next(p0, Run(p0, events), e).convs[c].prevMessages[m])
  {
    assert (events + [e])[..|events|] == events && (events + [e])[|events|] == e;
    AppendedByReply(p0, Run(p0, events), e, c, m);
    assert RepliesTo(p0, events + [e], |events|, c, m / 2);
  }

  /** An odd message that is new has been appended by the reply to its turn. */
  lemma AppendedByReply(p0: seq<seq<Prompt>>, s: State, e: Event, c: nat, m: nat)
    requires Inv(p0, s) && Enabled(p0, s, e) && c < |p0| && |Next(p0, s, e).convs| == |p0|
    requires |s.convs[c].prevMessages| <= m < |Next(p0, s, e).convs[c].prevMessages| && m % 2 == 1
    ensures e.Reply? && s.tasks[e.task].conv == c && s.tasks[e.task].idx == m / 2
    ensures Next(p0, s, e).convs[c].prevMessages[m] == Message(Assistant, e.reply)
  {
    assert PlaceOk(p0[c], s, c);
  }

  lemma LengthsKept(p0: seq<seq<Prompt>>, events: seq<Event>, e: Event, c: nat)
    requires Recorded(p0, events, Run(p0, events)) && Enabled(p0, Run(p0, events), e) && c < |p0|
    requires Inv(p0, Next(p0, Run(p0, events), e))
    ensures var prompts := Next(p0, Run(p0, events), e).convs[c].prompts;
      && |prompts| == |p0[c]|
      && forall k: nat | k < |p0[c]| :: IsLength(p0, events + [e], c, k, p0[c][k].outputLen, prompts[k].outputLen)
  {
    var s, s' := Run(p0, events), Next(p0, Run(p0, events), e);
    assert (events + [e])[..|events|] == events;
    assert ConversationRecorded(p0, events, c, s.convs[c]) && ConversationOk(p0[c], s'.convs[c]);
    forall k: nat | k < |p0[c]|
      ensures IsLength(p0, events + [e], c, k, p0[c][k].outputLen, s'.convs[c].prompts[k].outputLen)
    {
      LengthLater(p0, events, e, c, k, p0[c][k].outputLen, s.convs[c].prompts[k].outputLen,
        s'.convs[c].prompts[k].outputLen);
    }
  }

  lemma IdleKept(p0: seq<seq<Prompt>>, events: seq<Event>, e: Event, c: nat)
    requires c < |p0| && Recorded(p0, events, Run(p0, events)) && !Enabled(p0, Run(p0, events), e)
    ensures ConversationRecorded(p0, events + [e], c, Run(p0, events).convs[c])
  {
    var conv := Run(p0, events).convs[c];
    assert (events + [e])[..|events|] == events;
    assert ConversationRecorded(p0, events, c, conv);
    forall m: nat | m < |conv.prevMessages| && m % 2 == 1
      ensures IsReply(p0, events + [e], c, m, conv.prevMessages[m])
    {
      IsReplyLater(p0, events, e, c, m, conv.prevMessages[m]);
    }
    forall k: nat | k < |p0[c]|
      ensures IsLength(p0, events + [e], c, k, p0[c][k].outputLen, conv.prompts[k].outputLen)
    {
      LengthLater(p0, events, e, c, k, p0[c][k].outputLen, conv.prompts[k].outputLen, conv.prompts[k].outputLen);
    }
  }

  lemma {:induction false} RunRecorded(p0: seq<seq<Prompt>>, events: seq<Event>)
    requires Valid(p0)
    ensures Recorded(p0, events, Run(p0, events))
    decreases |events|
  {
    RunInv(p0, events);
    if events != [] {
      var before, e := events[..|events| - 1], events[|events| - 1];
      assert events == before + [e];
      RunRecorded(p0, before);
      forall c: nat | c < |p0| ensures ConversationRecorded(p0, events, c, Run(p0, events).convs[c]) {
        if Enabled(p0, Run(p0, before), e) {
          ConversationKept(p0, before, e, c);
        } else {
          IdleKept(p0, before, e, c);
        }
      }
    }
  }

  /** In every run, each assistant message is the text of a reply to the turn it stands for, and each
      output length is that of such a reply or, without one, the length given. */
  lemma MessagesAreReplies(p0: seq<seq<Prompt>>, events: seq<Event>, c: nat, m: nat, k: nat)
    requires Valid(p0) && c < |p0| && k < |p0[c]|
    ensures var s := Run(p0, events);
      && c < |s.convs| && k < |s.convs[c].prompts|
      && (m < |s.convs[c].prevMessages| && m % 2 == 1 ==> IsReply(p0, events, c, m, s.convs[c].prevMessages[m]))
      && IsLength(p0, events, c, k, p0[c][k].outputLen, s.convs[c].prompts[k].outputLen)
  {
    RunRecorded(p0, events);
    assert ConversationRecorded(p0, events, c, Run(p0, events).convs[c]);
  }

  // ----- the order of the queue -----

  function TakenNow(p0: seq<seq<Prompt>>, s: State, e: Event): seq<nat> {
    if e.Get? && Enabled(p0, s, e) then [s.queue[0]] else []
  }

  function PutNow(p0: seq<seq<Prompt>>, s: State, e: Event): seq<nat> {
    if e.Put? && Enabled(p0, s, e) then [s.tasks[e.task].conv] else []
  }

  /** The conversations taken from the queue, in order. */
  function Taken(p0: seq<seq<Prompt>>, events: seq<Event>): seq<nat> {
    if events == [] then [] else
      var before := events[..|events| - 1];
      Taken(p0, before) + TakenNow(p0, Run(p0, before), events[|events| - 1])
  }

  /** The conversations put back into the queue, in order. */
  function PutBack(p0: seq<seq<Prompt>>, events: seq<Event>): seq<nat> {
    if events == [] then [] else
      var before := events[..|events| - 1];
      PutBack(p0, before) + PutNow(p0, Run(p0, before), events[|events| - 1])
  }

  /** The numbers below `n`. */
  function FirstOf(n: nat): seq<nat> { seq(n, c requires 0 <= c < n => c) }

  lemma QueueStep(p0: seq<seq<Prompt>>, s: State, e: Event)
    requires Enabled(p0, s, e)
    ensures TakenNow(p0, s, e) + Next(p0, s, e).queue == s.queue + PutNow(p0, s, e)
  {
    if e.Get? {
      assert s.queue == [s.queue[0]] + s.queue[1..];
    }
  }

  lemma Rearranged(a: seq<nat>, x: seq<nat>, q: seq<nat>, q': seq<nat>, y: seq<nat>)
    requires x + q' == q + y
    ensures (a + x) + q' == (a + q) + y
  {
    assert (a + x) + q' == a + (x + q');
    assert a + (q + y) == (a + q) + y;
  }

  /** First in, first out: what has been taken and what is queued are the conversations in their order and
      those put back in theirs. */
  lemma {:induction false} FirstInFirstOut(p0: seq<seq<Prompt>>, events: seq<Event>)
    ensures Taken(p0, events) + Run(p0, events).queue == FirstOf(|p0|) + PutBack(p0, events)
    decreases |events|
  {
    if events == [] {
      assert Start(p0).queue == FirstOf(|p0|);
    } else {
      var before, e := events[..|events| - 1], events[|events| - 1];
      FirstInFirstOut(p0, before);
      OneMoreEvent(p0, events, before, e);
    }
  }

  lemma OneMoreEvent(p0: seq<seq<Prompt>>, events: seq<Event>, before: seq<Event>, e: Event)
    requires events != [] && before == events[..|events| - 1] && e == events[|events| - 1]
    requires Taken(p0, before) + Run(p0, before).queue == FirstOf(|p0|) + PutBack(p0, before)
    ensures Taken(p0, events) + Run(p0, events).queue == FirstOf(|p0|) + PutBack(p0, events)
  {
    var s, s', all := Run(p0, before), Run(p0, events), FirstOf(|p0|);
    var x, y := TakenNow(p0, s, e), PutNow(p0, s, e);
    assert x + s'.queue == s.queue + y by {
      if Enabled(p0, s, e) {
        QueueStep(p0, s, e);
      }
    }
    Rearranged(Taken(p0, before), x, s.queue, s'.queue, y);
    assert (all + PutBack(p0, before)) + y == all + (PutBack(p0, before) + y);
  }
}
