/** The incremental reader of server-sent events in `long.py`. Text arrives in chunks of any size;
    the reader rewrites CR LF to LF, cuts events at blank lines, collects the `data:` lines of each
    event and interprets the payload. The model starts from decoded text and leaves out the clock.
    What JSON a payload holds is up to `parse`. */
module EventStream {
  import opened Common

  /** What a payload says: not JSON; no text; text, perhaps with a token count; or a value the
      reader trips over, which the enclosing handler turns into a failed result. */
  datatype Reply = Unreadable | Silent | Text(tokens: Option<int>) | Bad

  type Parse = string -> Reply

  /** `Reading` until `[DONE]` or an exception ends the stream; `payloads` are those seen so far. */
  datatype Status = Reading(outLen: int, payloads: seq<string>) | Done(outLen: int, payloads: seq<string>)
            | Raised(payloads: seq<string>)

  datatype Result = Result(ok: bool, outLen: int, payloads: seq<string>)

  // ----- Python's string operations -----

  /** `str.isspace` for one character. */
  predicate IsSpace(c: char) {
    || '\t' <= c <= '\r' || '\U{1C}' <= c <= ' ' || c == '\U{85}' || c == '\U{A0}' || c == '\U{1680}'
    || '\U{2000}' <= c <= '\U{200A}' || c == '\U{2028}' || c == '\U{2029}' || c == '\U{202F}' || c == '\U{205F}'
        || c == '\U{3000}'
  }

  function LStrip(s: string): string {
    if s != "" && IsSpace(s[0]) then LStrip(s[1..]) else s
  }

  function RStrip(s: string): string {
    if s != "" && IsSpace(s[|s| - 1]) then RStrip(s[..|s| - 1]) else s
  }

  function Strip(s: string): string { RStrip(LStrip(s)) }

  /** `s.split("\n")`. */
  function Lines(s: string): seq<string> {
    if s == "" then [""]
    else if s[0] == '\n' then [""] + Lines(s[1..])
    else
      var rest := Lines(s[1..]);
      if rest == [] then [s] else [[s[0]] + rest[0]] + rest[1..]
  }

  function Join(lines: seq<string>): string {
    if lines == [] then "" else if |lines| == 1 then lines[0] else lines[0] + "\n" + Join(lines[1..])
  }

  /** `s.replace("\r\n", "\n")`. */
  function Normalize(s: string): string {
    if |s| < 2 then s
    else if s[0] == '\r' && s[1] == '\n' then "\n" + Normalize(s[2..])
    else [s[0]] + Normalize(s[1..])
  }

  /** An empty line, LF LF, at position `i`. */
  predicate BlankAt(s: string, i: nat) { i + 1 < |s| && s[i] == '\n' && s[i + 1] == '\n' }

  /** `s.find("\n\n")`, with the length of `s` for "not found". */
  function FindBlank(s: string): (i: nat)
    ensures i <= |s|
    ensures i < |s| ==> BlankAt(s, i)
    ensures forall j: nat | j < i :: !BlankAt(s, j)
  {
    if |s| < 2 then |s| else if BlankAt(s, 0) then 0 else
      var i := FindBlank(s[1..]);
      BlankShift(s, i);
      assert forall j: nat | j < i + 1 :: !BlankAt(s, j) by {
        forall j: nat | j < i + 1 ensures !BlankAt(s, j) {
          if j > 0 { BlankShift(s, j - 1); }
        }
      }
      1 + i
  }

  lemma BlankShift(s: string, i: nat)
    requires s != ""
    ensures BlankAt(s[1..], i) <==> BlankAt(s, i + 1)
  {
  }

  // ----- events -----

  /** The events a text completes, and what is left over. */
  datatype Cut = Cut(events: seq<string>, rest: string)

  function Drain(s: string): Cut
    decreases |s|
  {
    var sep := FindBlank(s);
    if sep == |s| then Cut([], s) else
      var c := Drain(s[sep + 2..]);
      Cut([s[..sep]] + c.events, c.rest)
  }

  /** The data lines of an event, with the field name and the spaces after it removed. */
  function DataLines(lines: seq<string>): seq<string> {
    if lines == [] then [] else
      var rest := DataLines(lines[1..]);
      if "data:" <= lines[0] then [LStrip(lines[0][5..])] + rest else rest
  }

  function Interpret(parse: Parse, st: Status, event: string): Status
    requires st.Reading?
  {
    var data := DataLines(Lines(event));
    if data == [] then st else
      var payload := Strip(Join(data));
      var seen := st.payloads + [payload];
      if payload == "[DONE]" then Done(st.outLen, seen) else
        match parse(payload)
        case Unreadable => Reading(st.outLen, seen)
        case Silent => Reading(st.outLen, seen)
        case Text(tokens) =>
          Reading(if tokens.Some? then tokens.value else if st.outLen < 1 then 1 else st.outLen, seen)
        case Bad => Raised(seen)
  }

  /** Interprets events in order; nothing is looked at after the end of the stream. */
  function Consume(parse: Parse, st: Status, events: seq<string>): Status
    decreases |events|
  {
    if events == [] || !st.Reading? then st else Consume(parse, Interpret(parse, st, events[0]), events[1..])
  }

  function Conclude(st: Status): Result {
    match st
    case Reading(n, p) => Result(false, n, p)
    case Done(n, p) => Result(true, n, p)
    case Raised(p) => Result(false, 0, p)
  }

  // ----- the reader, chunk by chunk -----

  /** The reader between two chunks. */
  datatype Reader = Reader(buf: string, status: Status)

  function Feed(parse: Parse, r: Reader, chunk: string): Reader {
    if !r.status.Reading? then r else
      var c := Drain(Normalize(r.buf + chunk));
      Reader(c.rest, Consume(parse, r.status, c.events))
  }

  function FeedAll(parse: Parse, chunks: seq<string>): Reader {
    if chunks == [] then Reader("", Reading(0, []))
    else Feed(parse, FeedAll(parse, chunks[..|chunks| - 1]), chunks[|chunks| - 1])
  }

  function ReadChunks(parse: Parse, chunks: seq<string>): Result { Conclude(FeedAll(parse, chunks).status) }

  /** The reader as the loops that `send_sglang_generate` consists of: this one over the chunks, ... */
  method ReadStream(parse: Parse, chunks: seq<string>) returns (res: Result)
    ensures res == ReadChunks(parse, chunks)
  {
    var buf, outLen := "", 0;
    var payloads: seq<string> := [];
    for k := 0 to |chunks|
      invariant FeedAll(parse, chunks[..k]) == Reader(buf, Reading(outLen, payloads))
    {
      assert chunks[..k + 1][..k] == chunks[..k];
      buf := Normalize(buf + chunks[k]);
      var status;
      buf, status := ReadEvents(parse, buf, outLen, payloads);
      if !status.Reading? {
        EndsHere(parse, chunks, k + 1);
        return Conclude(status);
      }
      outLen, payloads := status.outLen, status.payloads;
    }
    assert chunks[..|chunks|] == chunks;
    return Result(false, outLen, payloads);
  }

  /** ... one over the events in the buffer, ... */
  method ReadEvents(parse: Parse, text: string, tokens: int, seen: seq<string>) returns (buf: string, status: Status)
    ensures status == Consume(parse, Reading(tokens, seen), Drain(text).events)
    ensures status.Reading? ==> buf == Drain(text).rest
  {
    buf, status := text, Reading(tokens, seen);
    while true
      invariant status.Reading?
      invariant Drain(buf).rest == Drain(text).rest
      invariant Consume(parse, status, Drain(buf).events) == Consume(parse, Reading(tokens, seen), Drain(text).events)
      decreases |buf|
    {
      var sep := FindBlank(buf);
      if sep == |buf| {
        return;
      }
      var event := buf[..sep];
      ghost var cut := Drain(buf);
      buf := buf[sep + 2..];
      assert cut.events[0] == event && cut.events[1..] == Drain(buf).events;
      status := ReadEvent(parse, event, status.outLen, status.payloads);
      if !status.Reading? {
        return;
      }
    }
  }

  method ReadEvent(parse: Parse, event: string, outLen: int, payloads: seq<string>) returns (status: Status)
    ensures status == Interpret(parse, Reading(outLen, payloads), event)
  {
    var dataLines := CollectData(event);
    if dataLines == [] {
      return Reading(outLen, payloads);
    }
    var dataStr := Strip(Join(dataLines));
    var seen := payloads + [dataStr];
    if dataStr == "[DONE]" {
      return Done(outLen, seen);
    }
    match parse(dataStr)
    case Unreadable => return Reading(outLen, seen);
    case Silent => return Reading(outLen, seen);
    case Text(Some(n)) => return Reading(n, seen);
    case Text(None) => return Reading(if outLen < 1 then 1 else outLen, seen);
    case Bad => return Raised(seen);
  }

  /** ... and one over the lines of an event. */
  method CollectData(event: string) returns (dataLines: seq<string>)
    ensures dataLines == DataLines(Lines(event))
  {
    dataLines := [];
    var lines := Lines(event);
    for i := 0 to |lines|
      invariant dataLines + DataLines(lines[i..]) == DataLines(lines)
    {
      var line := lines[i];
      assert lines[i..][1..] == lines[i + 1..];
      if line == "" || line[0] == ':' {
        continue;
      }
      if "data:" <= line {
        dataLines := dataLines + [LStrip(line[5..])];
      }
    }
  }

  /** Once the stream has ended, further chunks change nothing. */
  lemma {:induction false} EndsHere(parse: Parse, chunks: seq<string>, k: nat)
    requires k <= |chunks| && !FeedAll(parse, chunks[..k]).status.Reading?
    ensures FeedAll(parse, chunks) == FeedAll(parse, chunks[..k])
    decreases |chunks|
  {
    if k < |chunks| {
      var n := |chunks| - 1;
      assert chunks[..n][..k] == chunks[..k];
      EndsHere(parse, chunks[..n], k);
    } else {
      assert chunks[..k] == chunks;
    }
  }

  // ----- chunk invariance -----

  function Flatten(chunks: seq<string>): string {
    if chunks == [] then "" else Flatten(chunks[..|chunks| - 1]) + chunks[|chunks| - 1]
  }

  /** CR CR LF at position `i`. */
  predicate CrCrLfAt(s: string, i: nat) {
    i + 2 < |s| && s[i] == '\r' && s[i + 1] == '\r' && s[i + 2] == '\n'
  }

  ghost predicate Clean(s: string) { forall i: nat :: !CrCrLfAt(s, i) }

  lemma CleanSuffix(s: string, k: nat)
    requires k <= |s| && Clean(s)
    ensures Clean(s[k..])
  {
    forall i: nat ensures !CrCrLfAt(s[k..], i) {
      assert !CrCrLfAt(s, i + k);
    }
  }

  lemma CleanPrefix(s: string, t: string)
    requires Clean(s + t)
    ensures Clean(s)
  {
    forall i: nat ensures !CrCrLfAt(s, i) {
      assert !CrCrLfAt(s + t, i);
    }
  }

  /** Rewriting the line ends of what has arrived, and again when more arrives, is rewriting once. */
  lemma {:induction false} NormalizeAgain(s: string, t: string)
    requires Clean(s + t)
    ensures Normalize(Normalize(s) + t) == Normalize(s + t)
    decreases |s|
  {
    if |s| >= 2 {
      if CrLfAt(s, 0) {
        assert s == "\r\n" + s[2..] && (s + t)[2..] == s[2..] + t;
        CleanSuffix(s + t, 2);
        NormalizeAgain(s[2..], t);
        AgainAfterLineEnd(s[2..], t);
      } else {
        assert s == [s[0]] + s[1..] && (s + t)[1..] == s[1..] + t;
        CleanSuffix(s + t, 1);
        NormalizeAgain(s[1..], t);
        assert !CrCrLfAt(s + t, 0);
        AgainAfter(s[0], s[1..], t);
      }
    }
  }

  lemma AgainAfterLineEnd(u: string, t: string)
    requires Normalize(Normalize(u) + t) == Normalize(u + t)
    ensures Normalize(Normalize("\r\n" + u) + t) == Normalize(("\r\n" + u) + t)
  {
    RewriteFirst(u);
    RewriteFirst(u + t);
    PrependSafe('\n', Normalize(u) + t);
    Associate(['\n'], Normalize(u), t);
    Associate("\r\n", u, t);
  }

  lemma AgainAfter(c: char, u: string, t: string)
    requires u != "" && !(c == '\r' && (u[0] == '\n' || CrLfAt(u, 0)))
    requires Normalize(Normalize(u) + t) == Normalize(u + t)
    ensures Normalize(Normalize([c] + u) + t) == Normalize(([c] + u) + t)
  {
    NormalizeHead(u);
    PrependSafe(c, u);
    PrependSafe(c, u + t);
    PrependSafe(c, Normalize(u) + t);
    Associate([c], Normalize(u), t);
    Associate([c], u, t);
  }

  lemma RewriteFirst(s: string)
    ensures Normalize("\r\n" + s) == ['\n'] + Normalize(s)
  {
    assert ("\r\n" + s)[2..] == s;
  }

  /** A rewritten text begins with LF only if the text began with LF or CR LF. */
  lemma NormalizeHead(s: string)
    requires s != ""
    ensures Normalize(s) != ""
    ensures Normalize(s)[0] == '\n' ==> s[0] == '\n' || (|s| >= 2 && s[0] == '\r' && s[1] == '\n')
  {
  }

  lemma PrependSafe(c: char, s: string)
    requires s != "" ==> !(c == '\r' && s[0] == '\n')
    ensures Normalize([c] + s) == [c] + Normalize(s)
  {
    assert ([c] + s)[1..] == s;
  }

  predicate CrLfAt(s: string, i: nat) { i + 1 < |s| && s[i] == '\r' && s[i + 1] == '\n' }

  ghost predicate NoCrLf(s: string) { forall i: nat :: !CrLfAt(s, i) }

  lemma NoCrLfPart(s: string, lo: nat, hi: nat)
    requires NoCrLf(s) && lo <= hi <= |s|
    ensures NoCrLf(s[lo..hi])
  {
    forall i: nat ensures !CrLfAt(s[lo..hi], i) {
      assert !CrLfAt(s, lo + i);
    }
  }

  /** A text without CR LF, not ending in CR, is left alone in front of anything. */
  lemma {:induction false} NormalizePast(p: string, t: string)
    requires NoCrLf(p) && (p != "" ==> p[|p| - 1] != '\r')
    ensures Normalize(p + t) == p + Normalize(t)
    decreases |p|
  {
    if p == "" {
      assert p + t == t;
    } else {
      NoCrLfPart(p, 1, |p|);
      assert p == [p[0]] + p[1..] && p[1..] == p[1..|p|] && !CrLfAt(p, 0);
      NormalizePast(p[1..], t);
      PastOneMore(p[0], p[1..], t);
    }
  }

  lemma PastOneMore(c: char, u: string, t: string)
    requires Normalize(u + t) == u + Normalize(t)
    requires c != '\r' || (u != "" && u[0] != '\n')
    ensures Normalize(([c] + u) + t) == ([c] + u) + Normalize(t)
  {
    Associate([c], u, t);
    Associate([c], u, Normalize(t));
    PrependSafe(c, u + t);
  }

  lemma {:induction false} NormalizedHasNoCrLf(s: string)
    requires Clean(s)
    ensures NoCrLf(Normalize(s))
    decreases |s|
  {
    if |s| >= 2 {
      if s[0] == '\r' && s[1] == '\n' {
        CleanSuffix(s, 2);
        NormalizedHasNoCrLf(s[2..]);
        NoCrLfPrepend('\n', Normalize(s[2..]));
      } else {
        CleanSuffix(s, 1);
        NormalizedHasNoCrLf(s[1..]);
        NormalizeHead(s[1..]);
        assert !CrCrLfAt(s, 0);
        NoCrLfPrepend(s[0], Normalize(s[1..]));
      }
    }
  }

  lemma NoCrLfPrepend(c: char, s: string)
    requires NoCrLf(s) && (s != "" ==> !(c == '\r' && s[0] == '\n'))
    ensures NoCrLf([c] + s)
  {
    forall i: nat ensures !CrLfAt([c] + s, i) {
      assert i > 0 ==> !CrLfAt(s, i - 1);
    }
  }

  /** The part of a text that its events take up; the leftover follows it. */
  function Consumed(s: string): string
    decreases |s|
  {
    var sep := FindBlank(s);
    if sep == |s| then "" else s[..sep + 2] + Consumed(s[sep + 2..])
  }

  lemma {:induction false} DrainSplits(s: string)
    ensures s == Consumed(s) + Drain(s).rest
    decreases |s|
  {
    var sep := FindBlank(s);
    if sep < |s| {
      var a, b := s[..sep + 2], s[sep + 2..];
      DrainSplits(b);
      assert s == a + b && Consumed(s) == a + Consumed(b) && Drain(s).rest == Drain(b).rest;
      Associate(a, Consumed(b), Drain(b).rest);
    } else {
      assert Consumed(s) == "" && Drain(s).rest == s;
    }
  }

  lemma Associate(a: string, b: string, c: string)
    ensures a + (b + c) == (a + b) + c
  {
  }

  lemma {:induction false} ConsumedEnd(s: string)
    ensures Consumed(s) != "" ==> Consumed(s)[|Consumed(s)| - 1] == '\n'
    decreases |s|
  {
    var sep := FindBlank(s);
    if sep < |s| {
      var a, b := s[..sep + 2], s[sep + 2..];
      ConsumedEnd(b);
      assert a[sep + 1] == '\n';
    }
  }

  /** Events already complete are not affected by what follows. */
  lemma {:induction false} DrainExtends(s: string, t: string)
    ensures Drain(Consumed(s) + t) == Cut(Drain(s).events + Drain(t).events, Drain(t).rest)
    decreases |s|
  {
    var sep := FindBlank(s);
    if sep == |s| {
      assert Consumed(s) + t == t;
    } else {
      var b := s[sep + 2..];
      DrainExtends(b, t);
      assert s[..sep + 2][..sep] == s[..sep];
      var a := s[..sep + 2];
      forall j: nat | j < sep ensures !BlankAt(a, j) {
        assert !BlankAt(s, j);
      }
      OneMoreEvent(a, sep, Consumed(b), t, Drain(b).events, Drain(t));
    }
  }

  /** The same with one event more in front. */
  lemma OneMoreEvent(a: string, sep: nat, b: string, t: string, events: seq<string>, cut: Cut)
    requires |a| == sep + 2 && BlankAt(a, sep) && forall j: nat | j < sep :: !BlankAt(a, j)
    requires Drain(b + t) == Cut(events + cut.events, cut.rest)
    ensures Drain((a + b) + t) == Cut(([a[..sep]] + events) + cut.events, cut.rest)
  {
    DrainHead(a, b + t, sep);
    Associate(a, b, t);
    AssociateEvents([a[..sep]], events, cut.events);
  }

  lemma AssociateEvents(a: seq<string>, b: seq<string>, c: seq<string>)
    ensures a + (b + c) == (a + b) + c
  {
  }

  /** The first event of a text that begins with `a`, where `a` ends with its only blank line. */
  lemma DrainHead(a: string, u: string, sep: nat)
    requires |a| == sep + 2 && BlankAt(a, sep) && forall j: nat | j < sep :: !BlankAt(a, j)
    ensures Drain(a + u) == Cut([a[..sep]] + Drain(u).events, Drain(u).rest)
  {
    forall j: nat | j <= sep ensures BlankAt(a + u, j) <==> BlankAt(a, j) {
    }
    FirstBlank(a + u, sep);
    assert (a + u)[sep + 2..] == u && (a + u)[..sep] == a[..sep];
  }

  lemma {:induction false} FirstBlank(s: string, i: nat)
    requires BlankAt(s, i) && forall j: nat | j < i :: !BlankAt(s, j)
    ensures FindBlank(s) == i
  {
  }

  lemma {:induction false} ConsumeInParts(parse: Parse, st: Status, e: seq<string>, f: seq<string>)
    ensures Consume(parse, st, e + f) == Consume(parse, Consume(parse, st, e), f)
    decreases |e|
  {
    if e == [] {
      assert e + f == f;
    } else if st.Reading? {
      assert (e + f)[1..] == e[1..] + f;
      ConsumeInParts(parse, Interpret(parse, st, e[0]), e[1..], f);
    }
  }

  /** The stream as a whole: line ends rewritten once, events cut once, interpreted in order. */
  function Whole(parse: Parse, text: string): Status { Consume(parse, Reading(0, []), Drain(Normalize(text)).events) }

  /** What the reader cuts from the chunks, interpretation left aside: the events and the leftover. */
  function CutAll(chunks: seq<string>): Cut {
    if chunks == [] then Cut([], "") else
      var before := CutAll(chunks[..|chunks| - 1]);
      var c := Drain(Normalize(before.rest + chunks[|chunks| - 1]));
      Cut(before.events + c.events, c.rest)
  }

  /** The reader interprets the events cut from the chunks, whatever the stream. */
  lemma {:induction false} FeedAllConsumes(parse: Parse, chunks: seq<string>)
    ensures FeedAll(parse, chunks).status == Consume(parse, Reading(0, []), CutAll(chunks).events)
    ensures FeedAll(parse, chunks).status.Reading? ==> FeedAll(parse, chunks).buf == CutAll(chunks).rest
    decreases |chunks|
  {
    if chunks != [] {
      var before, chunk := chunks[..|chunks| - 1], chunks[|chunks| - 1];
      var c := Drain(Normalize(CutAll(before).rest + chunk));
      FeedAllConsumes(parse, before);
      ConsumeInParts(parse, Reading(0, []), CutAll(before).events, c.events);
      ConsumeEnded(parse, FeedAll(parse, before).status, c.events);
    }
  }

  /** A clean stream is cut in the same way whatever the chunks. */
  lemma {:induction false} CutAllIsWhole(chunks: seq<string>)
    requires Clean(Flatten(chunks))
    ensures CutAll(chunks) == Drain(Normalize(Flatten(chunks)))
    decreases |chunks|
  {
    if chunks != [] {
      var before, chunk := chunks[..|chunks| - 1], chunks[|chunks| - 1];
      var n := Normalize(Flatten(before));
      CleanPrefix(Flatten(before), chunk);
      CutAllIsWhole(before);
      NormalizeSplit(Flatten(before), chunk);
      DrainExtends(n, Normalize(Drain(n).rest + chunk));
    }
  }

  /** After any chunks of a clean stream the reader has interpreted exactly the events of the text so
      far, and its buffer is what they leave over. */
  lemma FeedAllIsWhole(parse: Parse, chunks: seq<string>)
    requires Clean(Flatten(chunks))
    ensures FeedAll(parse, chunks).status == Whole(parse, Flatten(chunks))
    ensures FeedAll(parse, chunks).status.Reading? ==>
            FeedAll(parse, chunks).buf == Drain(Normalize(Flatten(chunks))).rest
  {
    FeedAllConsumes(parse, chunks);
    CutAllIsWhole(chunks);
  }

  lemma NormalizeSplit(text: string, chunk: string)
    requires Clean(text + chunk)
    ensures Normalize(text + chunk) == Consumed(Normalize(text)) + Normalize(Drain(Normalize(text)).rest + chunk)
  {
    var n := Normalize(text);
    var p, rest := Consumed(n), Drain(n).rest;
    CleanPrefix(text, chunk);
    NormalizedHasNoCrLf(text);
    NormalizeAgain(text, chunk);
    DrainSplits(n);
    ConsumedEnd(n);
    assert p == n[0..|p|];
    NoCrLfPart(n, 0, |p|);
    Associate(p, rest, chunk);
    NormalizePast(p, rest + chunk);
  }

  lemma ConsumeEnded(parse: Parse, st: Status, events: seq<string>)
    ensures !st.Reading? ==> Consume(parse, st, events) == st
  {
  }

  /** However a clean stream is cut into chunks, payloads, outcome and token count are the same. */
  lemma ChunkInvariance(parse: Parse, chunks: seq<string>, chunks': seq<string>)
    requires Flatten(chunks) == Flatten(chunks') && Clean(Flatten(chunks))
    ensures ReadChunks(parse, chunks) == ReadChunks(parse, chunks') == Conclude(Whole(parse, Flatten(chunks)))
  {
    FeedAllIsWhole(parse, chunks);
    FeedAllIsWhole(parse, chunks');
  }

  /** A stream without two carriage returns in a row is clean. */
  lemma NoDoubleCrIsClean(s: string)
    requires forall i | 0 <= i < |s| - 1 :: !(s[i] == '\r' && s[i + 1] == '\r')
    ensures Clean(s)
  {
  }

  // ----- the condition is needed -----

  lemma {:induction false} NormalizeAround(x: string, y: string)
    ensures Normalize(x + "\r\n" + y) == Normalize(x) + "\n" + Normalize(y)
    decreases |x|
  {
    if x == "" {
      RewriteFirst(y);
      assert x + "\r\n" + y == "\r\n" + y;
    } else if |x| >= 2 && x[0] == '\r' && x[1] == '\n' {
      var u := x[2..];
      NormalizeAround(u, y);
      RewriteFirst(u + "\r\n" + y);
      assert x == "\r\n" + u;
      Associate3("\r\n", u, "\r\n", y);
      Associate3(['\n'], Normalize(u), "\n", Normalize(y));
    } else {
      var u := x[1..];
      NormalizeAround(u, y);
      PrependSafe(x[0], u + "\r\n" + y);
      PrependSafe(x[0], u);
      assert x == [x[0]] + u;
      Associate3([x[0]], u, "\r\n", y);
      Associate3([x[0]], Normalize(u), "\n", Normalize(y));
    }
  }

  lemma Associate3(a: string, b: string, c: string, d: string)
    ensures a + (b + c + d) == (a + b) + c + d
  {
  }

  lemma {:induction false} NormalizeLength(s: string)
    ensures |Normalize(s)| <= |s|
    ensures s != "" && s[|s| - 1] == '\r' ==> Normalize(s) != "" && Normalize(s)[|Normalize(s)| - 1] == '\r'
    decreases |s|
  {
    if |s| >= 2 {
      NormalizeLength(if s[0] == '\r' && s[1] == '\n' then s[2..] else s[1..]);
    }
  }

  /** Up to and including a CR CR LF, the rewritten text still ends with CR LF. */
  lemma RewrittenEnd(s: string, i: nat) returns (w: string)
    requires CrCrLfAt(s, i)
    ensures Normalize(s[..i + 3]) == w + "\r\n" && Normalize(s) == (w + "\r\n") + Normalize(s[i + 3..])
  {
    var x := s[..i + 1];
    w := CrKept(x);
    AroundLineEnd(s, i);
    NormalizeAround(x, s[i + 3..]);
    NormalizeAround(x, "");
    assert (w + "\r") + "\n" == w + "\r\n";
  }

  lemma AroundLineEnd(s: string, i: nat)
    requires CrCrLfAt(s, i)
    ensures s == s[..i + 1] + "\r\n" + s[i + 3..] && s[..i + 3] == s[..i + 1] + "\r\n" + ""
  {
  }

  lemma CrKept(x: string) returns (w: string)
    requires x != "" && x[|x| - 1] == '\r'
    ensures Normalize(x) == w + "\r"
  {
    NormalizeLength(x);
    w := Normalize(x)[..|Normalize(x)| - 1];
  }

  /** Rewriting it again takes away a second CR. */
  lemma ShorterAgain(w: string, y: string)
    ensures |Normalize((w + "\r\n") + y)| < |(w + "\r\n") + Normalize(y)|
  {
    NormalizeAround(w, y);
    NormalizeLength(w);
  }

  lemma UncleanBreaks(s: string, i: nat)
    requires CrCrLfAt(s, i)
    ensures Normalize(Normalize(s[..i + 3]) + s[i + 3..]) != Normalize(s)
  {
    var w := RewrittenEnd(s, i);
    ShorterAgain(w, s[i + 3..]);
  }

  /** Exactly the clean streams can be rewritten piece by piece. */
  lemma CleanIffPiecewise(s: string)
    ensures Clean(s) <==> forall k | 0 <= k <= |s| :: Normalize(Normalize(s[..k]) + s[k..]) == Normalize(s)
  {
    if Clean(s) {
      forall k | 0 <= k <= |s| ensures Normalize(Normalize(s[..k]) + s[k..]) == Normalize(s) {
        assert s[..k] + s[k..] == s;
        NormalizeAgain(s[..k], s[k..]);
      }
    } else {
      var i: nat :| CrCrLfAt(s, i);
      UncleanBreaks(s, i);
    }
  }

  /** How many characters of rewritten text a cut accounts for. */
  function EventsLength(events: seq<string>): nat {
    if events == [] then 0 else |events[0]| + 2 + EventsLength(events[1..])
  }

  lemma {:induction false} EventsLengthConcat(e: seq<string>, f: seq<string>)
    ensures EventsLength(e + f) == EventsLength(e) + EventsLength(f)
    decreases |e|
  {
    if e == [] {
      assert e + f == f;
    } else {
      assert (e + f)[1..] == e[1..] + f;
      EventsLengthConcat(e[1..], f);
    }
  }

  lemma {:induction false} DrainLength(s: string)
    ensures EventsLength(Drain(s).events) == |Consumed(s)| && |Consumed(s)| + |Drain(s).rest| == |s|
    decreases |s|
  {
    var sep := FindBlank(s);
    if sep < |s| {
      DrainLength(s[sep + 2..]);
      assert Drain(s).events[1..] == Drain(s[sep + 2..]).events;
    }
  }

  /** A blank line cannot end inside a CR LF at the end of the text: it is left over. */
  lemma LineEndIsLeft(w: string)
    ensures var n := w + "\r\n"; |Consumed(n)| <= |w| && Drain(n).rest == w[|Consumed(n)|..] + "\r\n"
  {
    var n := w + "\r\n";
    DrainSplits(n);
    ConsumedEnd(n);
    var p := Consumed(n);
    assert p == n[..|p|];
    ConsumedBlank(n);
    assert n[|w|] == '\r';
    assert |p| != |w| + 1 && |p| != |w| + 2;
  }

  lemma {:induction false} ConsumedBlank(s: string)
    ensures Consumed(s) != "" ==> BlankAt(Consumed(s), |Consumed(s)| - 2)
    decreases |s|
  {
    var sep := FindBlank(s);
    if sep < |s| {
      var a, b := s[..sep + 2], s[sep + 2..];
      ConsumedBlank(b);
      if Consumed(b) == "" {
        assert a + "" == a;
      } else {
        assert (a + Consumed(b))[|a|..] == Consumed(b);
      }
    }
  }

  /** Cut behind a CR CR LF, an unclean stream accounts for fewer characters than uncut. */
  lemma CutBehind(s: string, i: nat)
    requires CrCrLfAt(s, i)
    ensures CutAll([s[..i + 3], s[i + 3..]]) != CutAll([s])
  {
    var y := s[i + 3..];
    var w := RewrittenEnd(s, i);
    var n := w + "\r\n";
    var c1 := Drain(n);
    LineEndIsLeft(w);
    var u := w[|Consumed(n)|..];
    var c2 := Drain(Normalize((u + "\r\n") + y));
    ShorterAgain(u, y);
    TwoChunks(s[..i + 3], y);
    OneChunk(s);
    EventsLengthConcat(c1.events, c2.events);
    DrainLength(n);
    DrainLength(Normalize((u + "\r\n") + y));
    DrainLength(n + Normalize(y));
  }

  lemma OneChunk(s: string)
    ensures CutAll([s]) == Drain(Normalize(s))
  {
    assert [s][..0] == [] && "" + s == s && [] + Drain(Normalize(s)).events == Drain(Normalize(s)).events;
  }

  lemma TwoChunks(p: string, q: string)
    ensures var c := Drain(Normalize(p)); var d := Drain(Normalize(c.rest + q));
      CutAll([p, q]) == Cut(c.events + d.events, d.rest)
  {
    assert [p, q][..1] == [p];
    OneChunk(p);
  }

  /** The events cut from a stream and the leftover are the same for all chunks exactly if the stream
      is clean. (The outcome is then the same too, by `ChunkInvariance`; for an unclean stream it may
      or may not be.) */
  lemma CutsAgreeExactlyIf(s: string)
    ensures Clean(s) <==> forall chunks | Flatten(chunks) == s :: CutAll(chunks) == Drain(Normalize(s))
  {
    if Clean(s) {
      forall chunks | Flatten(chunks) == s ensures CutAll(chunks) == Drain(Normalize(s)) {
        CutAllIsWhole(chunks);
      }
    } else {
      var chunks := BadCut(s);
    }
  }

  lemma BadCut(s: string) returns (chunks: seq<string>)
    requires !Clean(s)
    ensures Flatten(chunks) == s && CutAll(chunks) != Drain(Normalize(s))
  {
    var i: nat :| CrCrLfAt(s, i);
    chunks := [s[..i + 3], s[i + 3..]];
    CutBehind(s, i);
    OneChunk(s);
    FlattenTwo(s[..i + 3], s[i + 3..]);
    assert s[..i + 3] + s[i + 3..] == s;
  }

  lemma FlattenTwo(p: string, q: string)
    ensures Flatten([p, q]) == p + q
  {
    FlattenOne(p);
    assert [p, q][..1] == [p];
  }

  lemma FlattenOne(p: string)
    ensures Flatten([p]) == p
  {
    assert [p][..0] == [];
  }

  lemma {:induction false} OneLine(s: string)
    requires '\n' !in s
    ensures Lines(s) == [s]
  {
    if s != "" {
      OneLine(s[1..]);
      assert [s[0]] + s[1..] == s;
    }
  }

  lemma {:induction false} NormalizeNothing(s: string)
    requires NoCrLf(s)
    ensures Normalize(s) == s
    decreases |s|
  {
    if |s| >= 2 {
      NoCrLfPart(s, 1, |s|);
      assert s[1..] == s[1..|s|] && !CrLfAt(s, 0);
      NormalizeNothing(s[1..]);
    }
  }

  /** A line of its own that ends the stream. */
  ghost predicate EndMarker(parse: Parse, m: string) {
    '\n' !in m && '\r' !in m && Interpret(parse, Reading(0, []), m).Done?
  }

  lemma DoneIsEndMarker(parse: Parse)
    ensures EndMarker(parse, "data:" + "[DONE]")
  {
    var d := "[DONE]";
    NothingToStrip(d);
    OneDataLine(parse, "data:" + d, d);
  }

  lemma NothingToStrip(s: string)
    requires s != "" && !IsSpace(s[0]) && !IsSpace(s[|s| - 1])
    ensures LStrip(s) == s && Strip(s) == s
  {
  }

  lemma OneDataLine(parse: Parse, m: string, d: string)
    requires m == "data:" + d && d == "[DONE]" && LStrip(d) == d && Strip(d) == d
    ensures EndMarker(parse, m)
  {
    OneLine(m);
    var lines := [m];
    assert lines[1..] == [] && m[5..] == d;
    assert DataLines(lines) == [d];
    assert Join([d]) == d;
  }

  lemma NormalizeMarker(m: string, rest: string)
    requires '\r' !in m && Normalize(rest) == rest
    ensures Normalize(m + "\n\r\r\n" + rest) == m + "\n\r\n" + rest
  {
    var a := m + "\n\r";
    NormalizeNothing(a);
    NormalizeAround(a, rest);
    assert m + "\n\r\r\n" + rest == a + "\r\n" + rest;
    assert a + "\n" + rest == m + "\n\r\n" + rest;
  }

  lemma MarkerNoBlank(m: string, rest: string)
    requires '\n' !in m && '\n' !in rest
    ensures NoBlank(m + "\n\r\n" + rest)
  {
    assert m + "\n\r\n" + rest == (m + "\n") + ("\r\n" + rest);
    NoBlankJoin(m + "\n", "\r\n" + rest);
  }

  /** The marker and a line end, then CR CR LF: no blank line yet. */
  lemma NoBlankYet(parse: Parse, m: string, rest: string)
    requires EndMarker(parse, m) && '\n' !in rest && Normalize(rest) == rest
    ensures Feed(parse, Reader("", Reading(0, [])), m + "\n\r\r\n" + rest) ==
            Reader(m + "\n\r\n" + rest, Reading(0, []))
  {
    var s := m + "\n\r\r\n" + rest;
    assert "" + s == s;
    NormalizeMarker(m, rest);
    MarkerNoBlank(m, rest);
    NoEvents(m + "\n\r\n" + rest);
  }

  ghost predicate NoBlank(s: string) { forall i: nat :: !BlankAt(s, i) }

  lemma NoBlankJoin(u: string, v: string)
    requires NoBlank(u) && NoBlank(v) && u != "" && v != "" && v[0] != '\n'
    ensures NoBlank(u + v)
  {
    forall i: nat ensures !BlankAt(u + v, i) {
      assert !BlankAt(u, i);
      assert i >= |u| ==> !BlankAt(v, i - |u|);
    }
  }

  /** Rewriting what is left once more makes a blank line. */
  lemma BlankAfterAll(parse: Parse, m: string, rest: string)
    requires EndMarker(parse, m) && Normalize(rest) == rest
    ensures Feed(parse, Reader(m + "\n\r\n", Reading(0, [])), rest).status.Done?
  {
    BlankAppears(m, rest);
    DrainHead(m + "\n\n", rest, |m|);
    assert (m + "\n\n")[..|m|] == m;
    EndsAtMarker(parse, m, Drain(rest).events);
  }

  lemma BlankAppears(m: string, rest: string)
    requires '\r' !in m && Normalize(rest) == rest
    ensures Normalize((m + "\n\r\n") + rest) == (m + "\n\n") + rest
  {
    var b := m + "\n";
    assert (m + "\n\r\n") + rest == b + "\r\n" + rest;
    NormalizeNothing(b);
    NormalizeAround(b, rest);
    assert b + "\n" + rest == (m + "\n\n") + rest;
  }

  lemma EndsAtMarker(parse: Parse, m: string, events: seq<string>)
    requires EndMarker(parse, m)
    ensures Consume(parse, Reading(0, []), [m] + events).Done?
  {
    assert ([m] + events)[1..] == events;
    ConsumeEnded(parse, Interpret(parse, Reading(0, []), m), events);
  }

  /** A stream with CR CR LF whose outcome depends on where it is cut. */
  lemma CutMatters(parse: Parse) returns (c: string)
    ensures ReadChunks(parse, [c, "x"]).ok && !ReadChunks(parse, [c + "x"]).ok
    ensures Flatten([c, "x"]) == Flatten([c + "x"])
  {
    var m := "data:" + "[DONE]";
    DoneIsEndMarker(parse);
    c := m + "\n\r\r\n";
    NoBlankYet(parse, m, "");
    NoBlankYet(parse, m, "x");
    BlankAfterAll(parse, m, "x");
    assert c + "" == c && (m + "\n\r\n") + "" == m + "\n\r\n";
    Chunks(parse, c, "x");
    Chunks(parse, c + "x", "");
  }

  lemma Chunks(parse: Parse, a: string, b: string)
    ensures FeedAll(parse, [a]) == Feed(parse, Reader("", Reading(0, [])), a) && Flatten([a]) == a
    ensures FeedAll(parse, [a, b]) == Feed(parse, FeedAll(parse, [a]), b) && Flatten([a, b]) == a + b
  {
    assert [a][..0] == [] && [a, b][..1] == [a];
  }

  lemma NoEvents(s: string)
    requires NoBlank(s)
    ensures Drain(s) == Cut([], s)
  {
  }
}
