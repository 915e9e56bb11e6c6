/** Merging streamed text in `python/sglang/utils.py`: a new chunk may repeat the end of the text so
    far, and the longest such repetition is dropped before the chunk is appended. */
module OverlapMerge {
  import opened Common

  /** The first `k` characters of `chunk` are the last `k` of `text`. */
  predicate Overlaps(text: string, chunk: string, k: nat) {
    k <= |text| && k <= |chunk| && text[|text| - k..] == chunk[..k]
  }

  predicate EndsWith(s: string, t: string) { |t| <= |s| && s[|s| - |t|..] == t }

  /** The longest overlap of at most `bound` characters. */
  function LongestOverlap(text: string, chunk: string, bound: nat): (k: nat)
    requires bound <= |text| && bound <= |chunk|
    ensures k <= bound && Overlaps(text, chunk, k)
    ensures forall j: nat | k < j <= bound :: !Overlaps(text, chunk, j)
  {
    if bound == 0 || Overlaps(text, chunk, bound) then bound else LongestOverlap(text, chunk, bound - 1)
  }

  function Trimmed(text: string, chunk: string): string {
    chunk[LongestOverlap(text, chunk, Min(|text|, |chunk|))..]
  }

  /** `trim_overlap`. */
  method TrimOverlap(text: string, chunk: string) returns (r: string)
    ensures r == Trimmed(text, chunk)
  {
    var maxOverlap := 0;
    var maxPossible := Min(|text|, |chunk|);
    var i := maxPossible;
    while 0 < i
      invariant 0 <= i <= maxPossible
      invariant LongestOverlap(text, chunk, maxPossible) == LongestOverlap(text, chunk, i)
    {
      if EndsWith(text, chunk[..i]) {
        maxOverlap := i;
        break;
      }
      i := i - 1;
    }
    return chunk[maxOverlap..];
  }

  /** Begins with `text` and ends with `chunk`. */
  predicate Covers(w: string, text: string, chunk: string) { text <= w && EndsWith(w, chunk) }

  /** Dropping an overlap of `k` characters, whichever it is, gives a string that covers both. */
  lemma Appended(text: string, chunk: string, k: nat)
    requires Overlaps(text, chunk, k)
    ensures Covers(text + chunk[k..], text, chunk)
  {
    var kept := text[..|text| - k];
    assert text == kept + chunk[..k];
    assert text + chunk[k..] == kept + (chunk[..k] + chunk[k..]) == kept + chunk;
  }

  /** A string that covers both in less than their joint length shows the overlap that was saved, and
      is what dropping that overlap gives. */
  lemma Covering(text: string, chunk: string, w: string, k: nat)
    requires Covers(w, text, chunk) && |w| + k == |text| + |chunk|
    ensures Overlaps(text, chunk, k) && w == text + chunk[k..]
  {
    var at := |w| - |chunk|;
    assert forall j: nat | j < k :: text[at + j] == w[at + j] == chunk[j];
    assert w[|text|..] == w[at..][k..];
  }

  /** Appending the trimmed chunk gives the shortest string that begins with the text and ends with
      the chunk, and it is the only one of that length. */
  lemma Shortest(text: string, chunk: string, w: string)
    ensures Covers(text + Trimmed(text, chunk), text, chunk)
    ensures Covers(w, text, chunk) ==> |text + Trimmed(text, chunk)| <= |w|
    ensures Covers(w, text, chunk) && |w| == |text + Trimmed(text, chunk)| ==> w == text + Trimmed(text, chunk)
  {
    Appended(text, chunk, LongestOverlap(text, chunk, Min(|text|, |chunk|)));
    if Covers(w, text, chunk) && |w| <= |text| + |chunk| {
      Covering(text, chunk, w, |text| + |chunk| - |w|);
    }
  }

  // ----- the stream -----

  function Merged(chunks: seq<string>): string {
    if chunks == [] then "" else
      var before := Merged(chunks[..|chunks| - 1]);
      before + Trimmed(before, chunks[|chunks| - 1])
  }

  /** `stream_and_merge`. */
  method StreamAndMerge(chunks: seq<string>) returns (finalText: string)
    ensures finalText == Merged(chunks)
  {
    finalText := "";
    for i := 0 to |chunks|
      invariant finalText == Merged(chunks[..i])
    {
      var cleaned := TrimOverlap(finalText, chunks[i]);
      finalText := finalText + cleaned;
      assert chunks[..i + 1][..i] == chunks[..i];
    }
    assert chunks[..|chunks|] == chunks;
  }

  /** The text only ever grows at its end, and ends with the latest chunk. */
  lemma {:induction false} MergeGrows(chunks: seq<string>, k: nat)
    requires k <= |chunks|
    ensures Merged(chunks[..k]) <= Merged(chunks)
    ensures 0 < k ==> EndsWith(Merged(chunks[..k]), chunks[k - 1])
    decreases |chunks|
  {
    if k < |chunks| {
      var n := |chunks| - 1;
      assert chunks[..n][..k] == chunks[..k];
      MergeGrows(chunks[..n], k);
    } else {
      assert chunks[..k] == chunks;
      if k > 0 {
        Shortest(Merged(chunks[..k - 1]), chunks[k - 1], "");
      }
    }
  }

  /** If every chunk repeats all of the one before, as a server that sends the whole text so far does,
      the result is the last chunk. */
  lemma {:induction false} CumulativeChunks(chunks: seq<string>)
    requires chunks != [] && forall i | 0 < i < |chunks| :: chunks[i - 1] <= chunks[i]
    ensures Merged(chunks) == chunks[|chunks| - 1]
    decreases |chunks|
  {
    var n := |chunks| - 1;
    var last := chunks[n];
    if n == 0 {
      assert chunks[..0] == [];
      assert LongestOverlap("", last, 0) == 0;
    } else {
      CumulativeChunks(chunks[..n]);
      var text := Merged(chunks[..n]);
      assert text == chunks[n - 1] && text <= last;
      assert Overlaps(text, last, |text|);
      assert last == text + last[|text|..];
    }
  }

  /** The longest overlap is needed: dropping a shorter one can repeat text. */
  lemma ShorterOverlapRepeats(text: string, chunk: string, k: nat)
    requires Overlaps(text, chunk, k) && k < LongestOverlap(text, chunk, Min(|text|, |chunk|))
    ensures Covers(text + chunk[k..], text, chunk) && |text + Trimmed(text, chunk)| < |text + chunk[k..]|
  {
    Appended(text, chunk, k);
  }

  /** Each chunk is merged as well as it can be: the text after it is the one shortest string that begins
      with the text before it and ends with the chunk. */
  lemma EachStepIsShortest(chunks: seq<string>, n: nat, w: string)
    requires n < |chunks|
    ensures var before, after := Merged(chunks[..n]), Merged(chunks[..n + 1]);
      && Covers(after, before, chunks[n])
      && (Covers(w, before, chunks[n]) ==> |after| <= |w| && (|w| == |after| ==> w == after))
  {
    assert chunks[..n + 1][..n] == chunks[..n];
    Shortest(Merged(chunks[..n]), chunks[n], w);
  }
}
