/** What the reader of `EventStream` makes of a stream: which payloads its events have, and what the result
    says about them. Events are written as lines, and read back whatever the chunks and line ends. */
module EventPayloads {
  import opened Common
  import opened EventStream

  // ----- the result, from the payloads alone -----

  predicate IsText(parse: Parse, payload: string) { parse(payload).Text? }

  /** A text that comes with a token count. */
  predicate IsCounted(parse: Parse, payload: string) { parse(payload).Text? && parse(payload).tokens.Some? }

  /** Nothing is looked at after such a payload. */
  predicate EndsStream(parse: Parse, payload: string) { payload == "[DONE]" || parse(payload).Bad? }

  /** Payload `k` is the last one with a token count. */
  ghost predicate LastCounted(parse: Parse, payloads: seq<string>, k: nat) {
    && k < |payloads| && IsCounted(parse, payloads[k])
    && forall i | k < i < |payloads| :: !IsCounted(parse, payloads[i])
  }

  /** `n` is the last token count, raised to 1 if a text without one follows; without any count it is 1
      or 0, according to whether there is a text. */
  ghost predicate LengthIs(parse: Parse, payloads: seq<string>, n: int) {
    && (forall k: nat | LastCounted(parse, payloads, k) ::
         var m := parse(payloads[k]).tokens.value;
         n == if m < 1 && exists i :: k < i < |payloads| && IsText(parse, payloads[i]) then 1 else m)
    && ((forall i | 0 <= i < |payloads| :: !IsCounted(parse, payloads[i])) ==>
         n == if exists i :: 0 <= i < |payloads| && IsText(parse, payloads[i]) then 1 else 0)
  }

  ghost predicate NoneEnds(parse: Parse, payloads: seq<string>) {
    forall i | 0 <= i < |payloads| :: !EndsStream(parse, payloads[i])
  }

  /** What a result says about its payloads: it is good exactly if the last one is the end marker, no
      earlier one ends the stream, and the length is 0 after an exception and else as above. */
  ghost predicate ResultIs(parse: Parse, res: Result) {
    var p := res.payloads;
    if p != [] && EndsStream(parse, p[|p| - 1]) then
      var before := p[..|p| - 1];
      && NoneEnds(parse, before) && (res.ok <==> p[|p| - 1] == "[DONE]")
      && if res.ok then LengthIs(parse, before, res.outLen) else res.outLen == 0
    else NoneEnds(parse, p) && !res.ok && LengthIs(parse, p, res.outLen)
  }

  ghost predicate StatusIs(parse: Parse, st: Status) {
    match st
    case Reading(n, p) => NoneEnds(parse, p) && LengthIs(parse, p, n)
    case Done(n, p) =>
      p != [] && p[|p| - 1] == "[DONE]" && NoneEnds(parse, p[..|p| - 1]) && LengthIs(parse, p[..|p| - 1], n)
    case Raised(p) =>
      p != [] && p[|p| - 1] != "[DONE]" && parse(p[|p| - 1]).Bad? && NoneEnds(parse, p[..|p| - 1])
  }

  lemma LengthMore(parse: Parse, payloads: seq<string>, n: int, payload: string)
    requires LengthIs(parse, payloads, n)
    ensures !IsText(parse, payload) ==> LengthIs(parse, payloads + [payload], n)
    ensures IsCounted(parse, payload) ==> LengthIs(parse, payloads + [payload], parse(payload).tokens.value)
    ensures IsText(parse, payload) && !IsCounted(parse, payload) ==>
              LengthIs(parse, payloads + [payload], if n < 1 then 1 else n)
  {
    var longer := payloads + [payload];
    assert longer[|payloads|] == payload && forall i | 0 <= i < |payloads| :: longer[i] == payloads[i];
    forall k: nat | k < |payloads| ensures LastCounted(parse, longer, k) <==>
        LastCounted(parse, payloads, k) && !IsCounted(parse, payload) {
    }
    if k: nat :| LastCounted(parse, payloads, k) {
    } else {
      NoLast(parse, payloads, |payloads|);
    }
  }

  lemma {:induction false} NoLast(parse: Parse, payloads: seq<string>, n: nat)
    requires n <= |payloads| && !exists k: nat :: LastCounted(parse, payloads, k)
    requires forall i | n <= i < |payloads| :: !IsCounted(parse, payloads[i])
    ensures forall i | 0 <= i < |payloads| :: !IsCounted(parse, payloads[i])
  {
    if n > 0 {
      assert !LastCounted(parse, payloads, n - 1);
      NoLast(parse, payloads, n - 1);
    }
  }

  lemma NoneEndsMore(parse: Parse, payloads: seq<string>, payload: string)
    requires NoneEnds(parse, payloads) && !EndsStream(parse, payload)
    ensures NoneEnds(parse, payloads + [payload])
  {
  }

  lemma InterpretIs(parse: Parse, st: Status, event: string)
    requires st.Reading? && StatusIs(parse, st)
    ensures StatusIs(parse, Interpret(parse, st, event))
  {
    var data := DataLines(Lines(event));
    if data != [] {
      var payload := Strip(Join(data));
      if EndsStream(parse, payload) {
        assert (st.payloads + [payload])[..|st.payloads|] == st.payloads;
      } else {
        NoneEndsMore(parse, st.payloads, payload);
        LengthMore(parse, st.payloads, st.outLen, payload);
      }
    }
  }

  lemma {:induction false} ConsumeIs(parse: Parse, st: Status, events: seq<string>)
    requires StatusIs(parse, st)
    ensures StatusIs(parse, Consume(parse, st, events))
    decreases |events|
  {
    if events != [] && st.Reading? {
      InterpretIs(parse, st, events[0]);
      ConsumeIs(parse, Interpret(parse, st, events[0]), events[1..]);
    }
  }

  // ----- the payloads, from the events -----

  /** The payload of an event that has data lines. */
  function PayloadOf(lines: seq<string>): seq<string> {
    if DataLines(lines) == [] then [] else [Strip(Join(DataLines(lines)))]
  }

  function PayloadsOf(events: seq<string>): seq<string> {
    if events == [] then [] else PayloadOf(Lines(events[0])) + PayloadsOf(events[1..])
  }

  /** All payloads have been seen, or those up to the first that ends the stream. */
  ghost predicate SeenUpToEnd(parse: Parse, all: seq<string>, seen: seq<string>) {
    && seen <= all
    && (seen == all || (seen != [] && EndsStream(parse, seen[|seen| - 1])))
  }

  lemma {:induction false} ConsumeSees(parse: Parse, st: Status, events: seq<string>)
    requires st.Reading?
    ensures var seen := Consume(parse, st, events).payloads;
      && st.payloads <= seen && SeenUpToEnd(parse, PayloadsOf(events), seen[|st.payloads|..])
      && (Consume(parse, st, events).Reading? ==> seen == st.payloads + PayloadsOf(events))
    decreases |events|
  {
    if events != [] {
      var st' := Interpret(parse, st, events[0]);
      var now := PayloadOf(Lines(events[0]));
      assert st'.payloads == st.payloads + now;
      if st'.Reading? {
        ConsumeSees(parse, st', events[1..]);
        var seen := Consume(parse, st', events[1..]).payloads;
        SeenMore(parse, st.payloads, now, seen, PayloadsOf(events[1..]));
      } else {
        assert Consume(parse, st', events[1..]) == st';
        assert st'.payloads[|st.payloads|..] == now;
      }
    } else {
      assert st.payloads[|st.payloads|..] == [];
    }
  }

  lemma SeenMore(parse: Parse, before: seq<string>, now: seq<string>, seen: seq<string>, rest: seq<string>)
    requires before + now <= seen && SeenUpToEnd(parse, rest, seen[|before + now|..])
    ensures before <= seen && SeenUpToEnd(parse, now + rest, seen[|before|..])
  {
    var later := seen[|before + now|..];
    assert seen == (before + now) + later;
    assert seen[|before|..] == now + later;
  }

  /** The result of the reader, for any chunks: it has seen the payloads of the events cut from them, up
      to the first that ends the stream, and says about them what it should. */
  lemma ReadChunksIs(parse: Parse, chunks: seq<string>)
    ensures ResultIs(parse, ReadChunks(parse, chunks))
    ensures SeenUpToEnd(parse, PayloadsOf(CutAll(chunks).events), ReadChunks(parse, chunks).payloads)
  {
    FeedAllConsumes(parse, chunks);
    var events := CutAll(chunks).events;
    var st := Consume(parse, Reading(0, []), events);
    ConsumeIs(parse, Reading(0, []), events);
    ConcludeIs(parse, st);
    ConsumeSees(parse, Reading(0, []), events);
    assert st.payloads[0..] == st.payloads;
  }

  lemma ConcludeIs(parse: Parse, st: Status)
    requires StatusIs(parse, st)
    ensures ResultIs(parse, Conclude(st)) && Conclude(st).payloads == st.payloads
  {
  }

  // ----- the payload, from the lines -----

  /** A data line counts with what follows the field name, without the spaces in front; comments and
      other fields do not count; and the order is kept. */
  lemma DataLinesAre(before: seq<string>, line: string, after: seq<string>)
    ensures forall x :: line == "data:" + x ==>
              DataLines(before + [line] + after) == DataLines(before) + [LStrip(x)] + DataLines(after)
    ensures !("data:" <= line) ==> DataLines(before + [line] + after) == DataLines(before + after)
  {
    assert before + [line] + after == before + ([line] + after);
    DataLinesConcat(before, [line] + after);
    DataLinesConcat(before, after);
    assert ([line] + after)[1..] == after;
    assert forall x | line == "data:" + x :: line[5..] == x;
  }

  lemma {:induction false} DataLinesConcat(a: seq<string>, b: seq<string>)
    ensures DataLines(a + b) == DataLines(a) + DataLines(b)
  {
    if a == [] {
      assert a + b == b;
    } else {
      assert (a + b)[1..] == a[1..] + b;
      DataLinesConcat(a[1..], b);
    }
  }

  /** Spaces are taken off the front, and nothing else. */
  lemma {:induction false} LStripIs(s: string) returns (i: nat)
    ensures i <= |s| && LStrip(s) == s[i..] && (forall k | 0 <= k < i :: IsSpace(s[k])) && (i < |s| ==> !IsSpace(s[i]))
  {
    i := 0;
    if s != "" && IsSpace(s[0]) {
      var j := LStripIs(s[1..]);
      i := j + 1;
    }
  }

  lemma {:induction false} RStripIs(s: string) returns (j: nat)
    ensures j <= |s| && RStrip(s) == s[..j] && (forall k | j <= k < |s| :: IsSpace(s[k]))
            && (0 < j ==> !IsSpace(s[j - 1]))
  {
    j := |s|;
    if s != "" && IsSpace(s[|s| - 1]) {
      var n := |s| - 1;
      j := RStripIs(s[..n]);
      assert s[..n][..j] == s[..j];
    }
  }

  /** Spaces are taken off both ends, and nothing else. */
  lemma StripIs(s: string) returns (i: nat, j: nat)
    ensures i <= j <= |s| && Strip(s) == s[i..j]
    ensures forall k | 0 <= k < i || j <= k < |s| :: IsSpace(s[k])
    ensures i < j ==> !IsSpace(s[i]) && !IsSpace(s[j - 1])
  {
    i := LStripIs(s);
    var n := RStripIs(s[i..]);
    j := i + n;
    assert s[i..][..n] == s[i..j];
  }

  // ----- events written as lines -----

  predicate IsLine(line: string) { '\n' !in line && '\r' !in line }

  predicate AreLines(lines: seq<string>) { forall k | 0 <= k < |lines| :: IsLine(lines[k]) }

  /** The lines of an event are not empty, and there is at least one. */
  predicate IsEvent(lines: seq<string>) { lines != [] && AreLines(lines) && forall k | 0 <= k < |lines| ::
          lines[k] != "" }

  /** Lines written out, each with `eol` at its end. */
  function Written(lines: seq<string>, eol: string): string {
    if lines == [] then "" else lines[0] + eol + Written(lines[1..], eol)
  }

  /** The lines of all events, each followed by an empty line. */
  function AllLines(events: seq<seq<string>>): seq<string> {
    if events == [] then [] else events[0] + [""] + AllLines(events[1..])
  }

  function Stream(events: seq<seq<string>>, eol: string): string { Written(AllLines(events), eol) }

  function Joins(events: seq<seq<string>>): seq<string> {
    if events == [] then [] else [Join(events[0])] + Joins(events[1..])
  }

  function AllPayloads(events: seq<seq<string>>): seq<string> {
    if events == [] then [] else PayloadOf(events[0]) + AllPayloads(events[1..])
  }

  predicate AreEvents(events: seq<seq<string>>) { forall k | 0 <= k < |events| :: IsEvent(events[k]) }

  lemma {:induction false} LinesOfAll(events: seq<seq<string>>)
    requires AreEvents(events)
    ensures AreLines(AllLines(events))
  {
    if events != [] {
      assert IsEvent(events[0]);
      LinesOfAll(events[1..]);
    }
  }

  lemma LineAlone(line: string, t: string)
    requires IsLine(line)
    ensures Normalize(line + t) == line + Normalize(t)
  {
    forall i: nat ensures !CrLfAt(line, i) {
    }
    NormalizePast(line, t);
  }

  /** Either way of ending lines is read in the same way. */
  lemma {:induction false} LineEndsRewritten(lines: seq<string>, eol: string)
    requires AreLines(lines) && (eol == "\n" || eol == "\r\n")
    ensures Normalize(Written(lines, eol)) == Written(lines, "\n")
  {
    if lines != [] {
      var rest := Written(lines[1..], eol);
      LineEndsRewritten(lines[1..], eol);
      assert IsLine(lines[0]);
      Associate(lines[0], eol, rest);
      Associate(lines[0], "\n", Written(lines[1..], "\n"));
      LineAlone(lines[0], eol + rest);
      if eol == "\n" {
        PrependSafe('\n', rest);
      } else {
        RewriteFirst(rest);
      }
    }
  }

  lemma {:induction false} WrittenIsClean(lines: seq<string>, eol: string)
    requires AreLines(lines) && (eol == "\n" || eol == "\r\n")
    ensures Clean(Written(lines, eol))
  {
    if lines != [] {
      WrittenIsClean(lines[1..], eol);
      assert IsLine(lines[0]);
      CleanLine(lines[0], eol, Written(lines[1..], eol));
    }
  }

  lemma CleanLine(line: string, eol: string, rest: string)
    requires IsLine(line) && (eol == "\n" || eol == "\r\n") && Clean(rest)
    ensures Clean(line + eol + rest)
  {
    var s, n := line + eol + rest, |line| + |eol|;
    forall i: nat ensures !CrCrLfAt(s, i) {
      if n <= i {
        assert !CrCrLfAt(rest, i - n);
      } else if i < |line| {
        assert s[i] == line[i];
      } else {
        assert s[n - 1] == '\n';
      }
    }
  }

  /** Before its end an event has no blank line. */
  lemma {:induction false} NoBlankInside(lines: seq<string>, j: nat)
    requires IsEvent(lines) && j < |Join(lines)|
    ensures !BlankAt(Join(lines) + "\n\n", j)
  {
    var line := lines[0];
    assert IsLine(line) && line != "";
    if j < |line| {
      assert Join(lines)[j] == line[j];
    } else {
      var rest := lines[1..];
      assert IsEvent(rest);
      assert Join(lines) == line + "\n" + Join(rest);
      JoinStarts(rest);
      if j > |line| {
        NoBlankInside(rest, j - |line| - 1);
        assert (Join(lines) + "\n\n")[|line| + 1..] == Join(rest) + "\n\n";
      } else {
        assert Join(lines)[j + 1] == Join(rest)[0];
      }
    }
  }

  lemma JoinStarts(lines: seq<string>)
    requires IsEvent(lines)
    ensures Join(lines) != "" && Join(lines)[0] != '\n'
  {
    assert IsLine(lines[0]) && lines[0] != "";
    assert Join(lines)[0] == lines[0][0];
  }

  lemma {:induction false} JoinWritten(lines: seq<string>, rest: seq<string>)
    requires lines != []
    ensures Written(lines + [""] + rest, "\n") == (Join(lines) + "\n\n") + Written(rest, "\n")
  {
    var w := Written(rest, "\n");
    if |lines| == 1 {
      assert (lines + [""] + rest)[1..] == [""] + rest && ([""] + rest)[1..] == rest;
      assert Written([""] + rest, "\n") == "" + "\n" + w;
      assert lines[0] + "\n" + ("" + "\n" + w) == (lines[0] + "\n\n") + w;
    } else {
      assert (lines + [""] + rest)[1..] == lines[1..] + [""] + rest;
      JoinWritten(lines[1..], rest);
      assert Join(lines) == lines[0] + "\n" + Join(lines[1..]);
      assert lines[0] + "\n" + ((Join(lines[1..]) + "\n\n") + w) == ((lines[0] + "\n" + Join(lines[1..])) + "\n\n") + w;
    }
  }

  lemma {:induction false} StreamDrained(events: seq<seq<string>>)
    requires AreEvents(events)
    ensures Drain(Stream(events, "\n")) == Cut(Joins(events), "")
  {
    if events != [] {
      var e := events[0];
      var a, u := Join(e) + "\n\n", Stream(events[1..], "\n");
      assert IsEvent(e);
      StreamDrained(events[1..]);
      JoinWritten(e, AllLines(events[1..]));
      forall j: nat | j < |Join(e)| ensures !BlankAt(a, j) {
        NoBlankInside(e, j);
      }
      DrainHead(a, u, |Join(e)|);
      assert a[..|Join(e)|] == Join(e);
    }
  }

  lemma {:induction false} LinesOfLine(line: string, rest: string)
    requires '\n' !in line
    ensures Lines(line + "\n" + rest) == [line] + Lines(rest)
  {
    var s := line + "\n" + rest;
    if line == "" {
      assert s[1..] == rest;
    } else {
      LinesOfLine(line[1..], rest);
      assert s[1..] == line[1..] + "\n" + rest && s[0] == line[0] && [line[0]] + line[1..] == line;
    }
  }

  /** Splitting gives back the lines that were joined. */
  lemma {:induction false} LinesOfJoin(lines: seq<string>)
    requires AreLines(lines) && lines != []
    ensures Lines(Join(lines)) == lines
  {
    assert IsLine(lines[0]);
    if |lines| == 1 {
      OneLine(lines[0]);
    } else {
      LinesOfJoin(lines[1..]);
      LinesOfLine(lines[0], Join(lines[1..]));
    }
  }

  lemma {:induction false} PayloadsOfJoins(events: seq<seq<string>>)
    requires AreEvents(events)
    ensures PayloadsOf(Joins(events)) == AllPayloads(events)
  {
    if events != [] {
      assert IsEvent(events[0]);
      LinesOfJoin(events[0]);
      PayloadsOfJoins(events[1..]);
    }
  }

  /** Events written as lines are read back, whatever the line ends and the chunks: the payloads seen are
      those of the data lines of the events, up to the first that ends the stream. */
  lemma ReadsBack(parse: Parse, events: seq<seq<string>>, eol: string, chunks: seq<string>)
    requires AreEvents(events) && (eol == "\n" || eol == "\r\n") && Flatten(chunks) == Stream(events, eol)
    ensures CutAll(chunks) == Cut(Joins(events), "")
    ensures ResultIs(parse, ReadChunks(parse, chunks))
    ensures SeenUpToEnd(parse, AllPayloads(events), ReadChunks(parse, chunks).payloads)
  {
    LinesOfAll(events);
    WrittenIsClean(AllLines(events), eol);
    LineEndsRewritten(AllLines(events), eol);
    CutAllIsWhole(chunks);
    StreamDrained(events);
    PayloadsOfJoins(events);
    ReadChunksIs(parse, chunks);
  }
}
