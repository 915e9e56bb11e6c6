/** Rewriting of LaTeX fractions in `answer_extraction.py`: `\frac12` becomes `\frac{1}{2}`. The
    string is split at `\frac`, the pieces are rewritten, and the result is joined again. */
module FixFracs {
  import opened Common

  const FRAC := "\\frac"

  /** `\frac` at position `i`. */
  predicate FracAt(s: string, i: nat) {
    i + 5 <= |s| && s[i] == '\\' && s[i + 1] == 'f' && s[i + 2] == 'r' && s[i + 3] == 'a' && s[i + 4] == 'c'
  }

  ghost predicate FracFree(s: string) { forall i: nat :: !FracAt(s, i) }

  /** Position of the first `\frac`, or the length of `s`. */
  function FindFrac(s: string): (i: nat)
    ensures i <= |s|
    ensures i < |s| ==> FracAt(s, i)
    ensures forall j: nat | j < i :: !FracAt(s, j)
    decreases |s|
  {
    if |s| < 5 then |s| else if FracAt(s, 0) then 0 else
      var i := FindFrac(s[1..]);
      FracShift(s, i);
      assert forall j: nat | j < i + 1 :: !FracAt(s, j) by {
        forall j: nat | j < i + 1 ensures !FracAt(s, j) {
          if j > 0 { FracShift(s, j - 1); }
        }
      }
      i + 1
  }

  lemma FracShift(s: string, i: nat)
    requires s != ""
    ensures FracAt(s[1..], i) <==> FracAt(s, i + 1)
  {
  }

  /** The piece of length five at a `\frac` is `\frac`. */
  lemma FracThere(s: string, i: nat)
    requires FracAt(s, i)
    ensures s == s[..i] + FRAC + s[i + 5..]
  {
    assert s[i..i + 5] == FRAC;
  }

  /** `s.split("\\frac")`. */
  function Split(s: string): (pieces: seq<string>)
    ensures pieces != []
    decreases |s|
  {
    var i := FindFrac(s);
    if i == |s| then [s] else [s[..i]] + Split(s[i + 5..])
  }

  function Join(pieces: seq<string>): string
    requires pieces != []
  {
    if |pieces| == 1 then pieces[0] else pieces[0] + FRAC + Join(pieces[1..])
  }

  /** What is put in place of a piece after `\frac`; `None` if it is too short to have two arguments. */
  function Rewrite(piece: string): Option<string> {
    if piece != "" && piece[0] == '{' then Some(piece)
    else if |piece| < 2 then None
    else if piece[1] != '{' then Some(['{', piece[0], '}', '{', piece[1], '}'] + piece[2..])
    else Some(['{', piece[0], '}'] + piece[1..])
  }

  function RewriteAll(pieces: seq<string>): Option<seq<string>> {
    if pieces == [] then Some([]) else
      var p, rest := Rewrite(pieces[0]), RewriteAll(pieces[1..]);
      if p.Some? && rest.Some? then Some([p.value] + rest.value) else None
  }

  /** The string after the rewriting; unchanged if any piece is too short. */
  function Fixed(s: string): string {
    var pieces := Split(s);
    var rest := RewriteAll(pieces[1..]);
    if rest.Some? then Join([pieces[0]] + rest.value) else s
  }

  /** Appending `\frac` and each piece, as the loop does. */
  function Append(s: string, pieces: seq<string>): string {
    if pieces == [] then s else Append(s, pieces[..|pieces| - 1]) + FRAC + pieces[|pieces| - 1]
  }

  lemma {:induction false} AppendIsJoin(s: string, pieces: seq<string>)
    ensures Append(s, pieces) == Join([s] + pieces)
    decreases |pieces|
  {
    if pieces == [] {
      assert [s] + pieces == [s];
    } else {
      var n := |pieces| - 1;
      AppendIsJoin(s, pieces[..n]);
      assert [s] + pieces == ([s] + pieces[..n]) + [pieces[n]];
      JoinLast([s] + pieces[..n], pieces[n]);
    }
  }

  lemma {:induction false} JoinLast(pieces: seq<string>, last: string)
    requires pieces != []
    ensures Join(pieces + [last]) == Join(pieces) + FRAC + last
    decreases |pieces|
  {
    if |pieces| == 1 {
      assert (pieces + [last])[1..] == [last];
    } else {
      assert (pieces + [last])[1..] == pieces[1..] + [last];
      JoinLast(pieces[1..], last);
    }
  }

  lemma {:induction false} RewriteAllPrefix(pieces: seq<string>, k: nat)
    requires k < |pieces|
    ensures Rewrite(pieces[k]).None? ==> RewriteAll(pieces).None?
    ensures RewriteAll(pieces[..k + 1]) ==
      if RewriteAll(pieces[..k]).Some? && Rewrite(pieces[k]).Some? then
        Some(RewriteAll(pieces[..k]).value + [Rewrite(pieces[k]).value])
      else None
    decreases |pieces|
  {
    if k > 0 {
      RewriteAllPrefix(pieces[1..], k - 1);
      assert pieces[..k + 1][1..] == pieces[1..][..k] && pieces[..k][1..] == pieces[1..][..k - 1];
      assert pieces[..k + 1][0] == pieces[..k][0] == pieces[0];
      if RewriteAll(pieces[..k]).Some? && Rewrite(pieces[k]).Some? {
        var v, rest, w := [Rewrite(pieces[0]).value], RewriteAll(pieces[1..][..k - 1]).value,
            [Rewrite(pieces[k]).value];
        assert v + (rest + w) == (v + rest) + w;
      }
    } else {
      assert pieces[..1][1..] == [] && pieces[..0] == [] && pieces[..1][0] == pieces[0];
      if Rewrite(pieces[0]).Some? {
        var v := [Rewrite(pieces[0]).value];
        assert v + [] == [] + v;
      }
    }
  }

  /** `_fix_fracs`, with its loop and its early return. */
  method FixFracs(s: string) returns (r: string)
    ensures r == Fixed(s)
  {
    var substrs := Split(s);
    var newStr := substrs[0];
    ghost var first := substrs[0];
    if |substrs| > 1 {
      substrs := substrs[1..];
      for k := 0 to |substrs|
        invariant RewriteAll(substrs[..k]).Some? && newStr == Append(first, RewriteAll(substrs[..k]).value)
      {
        RewriteAllPrefix(substrs, k);
        ghost var before := RewriteAll(substrs[..k]).value;
        var substr := substrs[k];
        newStr := newStr + FRAC;
        if |substr| > 0 && substr[0] == '{' {
          newStr := newStr + substr;
        } else {
          if |substr| < 2 {
            return s;
          }
          var a, b := substr[0], substr[1];
          if b != '{' {
            newStr := newStr + (['{', a, '}', '{', b, '}'] + substr[2..]);
          } else {
            newStr := newStr + (['{', a, '}'] + substr[1..]);
          }
        }
        assert (before + [Rewrite(substr).value])[..k] == before by { RewriteAllLength(substrs[..k]); }
      }
      assert substrs[..|substrs|] == substrs;
      AppendIsJoin(first, RewriteAll(substrs).value);
    } else {
      assert substrs[1..] == [];
      assert [substrs[0]] + [] == substrs;
    }
    return newStr;
  }

  lemma {:induction false} RewriteAllLength(pieces: seq<string>)
    ensures RewriteAll(pieces).Some? ==> |RewriteAll(pieces).value| == |pieces|
    ensures RewriteAll(pieces).Some? ==> forall k | 0 <= k < |pieces| ::
            Rewrite(pieces[k]) == Some(RewriteAll(pieces).value[k])
    decreases |pieces|
  {
    if pieces != [] {
      RewriteAllLength(pieces[1..]);
    }
  }

  // ----- splitting and joining -----

  lemma {:induction false} JoinSplit(s: string)
    ensures Join(Split(s)) == s
    decreases |s|
  {
    var i := FindFrac(s);
    if i < |s| {
      JoinSplit(s[i + 5..]);
      assert ([s[..i]] + Split(s[i + 5..]))[1..] == Split(s[i + 5..]);
      FracThere(s, i);
    }
  }

  lemma {:induction false} PiecesAreFree(s: string, k: nat)
    requires k < |Split(s)|
    ensures FracFree(Split(s)[k])
    decreases |s|
  {
    var i := FindFrac(s);
    if i < |s| && k > 0 {
      PiecesAreFree(s[i + 5..], k - 1);
    } else if i < |s| {
      forall j: nat ensures !FracAt(s[..i], j) {
        if j + 5 <= i {
          assert !FracAt(s, j);
        }
      }
    } else {
      forall j: nat ensures !FracAt(s, j) {
        assert j < |s| ==> !FracAt(s, j);
      }
    }
  }

  /** `\frac` cannot overlap itself, so behind a free piece the first one is where it was put. */
  lemma FirstFrac(p: string, rest: string)
    requires FracFree(p)
    ensures FindFrac(p + FRAC + rest) == |p|
  {
    var s := p + FRAC + rest;
    assert FracAt(s, |p|);
    forall j: nat | j < |p| ensures !FracAt(s, j) {
      assert !FracAt(p, j);
      assert s[|p|] == '\\';
    }
  }

  lemma {:induction false} SplitJoin(pieces: seq<string>)
    requires pieces != [] && forall k | 0 <= k < |pieces| :: FracFree(pieces[k])
    ensures Split(Join(pieces)) == pieces
    decreases |pieces|
  {
    var p := pieces[0];
    if |pieces| == 1 {
      assert !FracAt(p, FindFrac(p));
    } else {
      var rest := Join(pieces[1..]);
      var s := p + FRAC + rest;
      SplitJoin(pieces[1..]);
      FirstFrac(p, rest);
      assert s[..|p|] == p && s[|p| + 5..] == rest;
    }
  }

  // ----- rewriting a piece -----

  /** Rewriting a piece makes no new `\frac`, because `\frac` holds no brace. */
  lemma RewriteStaysFree(p: string)
    requires FracFree(p) && Rewrite(p).Some?
    ensures FracFree(Rewrite(p).value)
  {
    var q := Rewrite(p).value;
    if !(p != "" && p[0] == '{') {
      // position where the unchanged rest begins in `q`, and in `p`
      var m, n := if p[1] != '{' then 6 else 3, if p[1] != '{' then 2 else 1;
      forall j: nat | j + 5 <= |q| ensures !FracAt(q, j) {
        if j < m {
          assert q[if j <= 2 then 2 else 5] == '}';
        } else {
          assert !FracAt(p, j - m + n);
        }
      }
    }
  }

  lemma RewriteTwice(p: string)
    requires Rewrite(p).Some?
    ensures Rewrite(p).value != "" && Rewrite(p).value[0] == '{'
    ensures Rewrite(Rewrite(p).value) == Rewrite(p)
  {
  }

  lemma {:induction false} RewriteAllTwice(pieces: seq<string>)
    requires RewriteAll(pieces).Some?
    ensures RewriteAll(RewriteAll(pieces).value) == RewriteAll(pieces)
    decreases |pieces|
  {
    if pieces != [] {
      RewriteAllTwice(pieces[1..]);
      RewriteTwice(pieces[0]);
      assert RewriteAll(pieces).value[1..] == RewriteAll(pieces[1..]).value;
    }
  }

  // ----- the main results -----

  /** Splitting the rewritten string finds exactly the rewritten pieces. */
  lemma SplitFixed(s: string)
    requires RewriteAll(Split(s)[1..]).Some?
    ensures Split(Fixed(s)) == [Split(s)[0]] + RewriteAll(Split(s)[1..]).value
  {
    var pieces, rest := Split(s), RewriteAll(Split(s)[1..]).value;
    RewriteAllLength(pieces[1..]);
    var all := [pieces[0]] + rest;
    forall k | 0 <= k < |all| ensures FracFree(all[k]) {
      PiecesAreFree(s, k);
      if k > 0 {
        assert Rewrite(pieces[1..][k - 1]) == Some(rest[k - 1]);
        RewriteStaysFree(pieces[k]);
      }
    }
    SplitJoin(all);
  }

  /** Rewriting twice is rewriting once, for every string. */
  lemma Idempotent(s: string)
    ensures Fixed(Fixed(s)) == Fixed(s)
  {
    var pieces := Split(s);
    if RewriteAll(pieces[1..]).Some? {
      SplitFixed(s);
      RewriteAllTwice(pieces[1..]);
      assert Split(Fixed(s))[1..] == RewriteAll(pieces[1..]).value;
    }
  }

  /** A string without its braces. */
  function Unbraced(s: string): string {
    if s == "" then "" else (if s[0] == '{' || s[0] == '}' then "" else [s[0]]) + Unbraced(s[1..])
  }

  lemma {:induction false} UnbracedConcat(s: string, t: string)
    ensures Unbraced(s + t) == Unbraced(s) + Unbraced(t)
    decreases |s|
  {
    if s == "" {
      assert s + t == t;
    } else {
      assert (s + t)[1..] == s[1..] + t;
      UnbracedConcat(s[1..], t);
    }
  }

  lemma RewriteKeepsText(p: string)
    requires Rewrite(p).Some?
    ensures Unbraced(Rewrite(p).value) == Unbraced(p)
  {
    if !(p != "" && p[0] == '{') {
      var a := [p[0]];
      if p[1] != '{' {
        var b := [p[1]];
        assert p == a + (b + p[2..]);
        assert Rewrite(p).value == "{" + (a + ("}" + ("{" + (b + ("}" + p[2..])))));
        UnbracedConcat("{", a + ("}" + ("{" + (b + ("}" + p[2..])))));
        UnbracedConcat(a, "}" + ("{" + (b + ("}" + p[2..]))));
        UnbracedConcat("}", "{" + (b + ("}" + p[2..])));
        UnbracedConcat("{", b + ("}" + p[2..]));
        UnbracedConcat(b, "}" + p[2..]);
        UnbracedConcat("}", p[2..]);
        UnbracedConcat(a, b + p[2..]);
        UnbracedConcat(b, p[2..]);
      } else {
        assert p == a + p[1..];
        assert Rewrite(p).value == "{" + (a + ("}" + p[1..]));
        UnbracedConcat("{", a + ("}" + p[1..]));
        UnbracedConcat(a, "}" + p[1..]);
        UnbracedConcat("}", p[1..]);
        UnbracedConcat(a, p[1..]);
      }
    }
  }

  lemma {:induction false} UnbracedJoin(p: seq<string>, q: seq<string>)
    requires p != [] && |p| == |q| && forall k | 0 <= k < |p| :: Unbraced(p[k]) == Unbraced(q[k])
    ensures Unbraced(Join(p)) == Unbraced(Join(q))
    decreases |p|
  {
    if |p| > 1 {
      UnbracedJoin(p[1..], q[1..]);
      UnbracedConcat(p[0] + FRAC, Join(p[1..]));
      UnbracedConcat(p[0], FRAC);
      UnbracedConcat(q[0] + FRAC, Join(q[1..]));
      UnbracedConcat(q[0], FRAC);
    }
  }

  /** Only braces are added. */
  lemma OnlyBracesChange(s: string)
    ensures Unbraced(Fixed(s)) == Unbraced(s)
  {
    var pieces := Split(s);
    if RewriteAll(pieces[1..]).Some? {
      var all := [pieces[0]] + RewriteAll(pieces[1..]).value;
      RewriteAllLength(pieces[1..]);
      forall k | 0 <= k < |all| ensures Unbraced(all[k]) == Unbraced(pieces[k]) {
        if k > 0 {
          assert Rewrite(pieces[1..][k - 1]) == Some(all[k]);
          RewriteKeepsText(pieces[k]);
        }
      }
      UnbracedJoin(all, pieces);
      JoinSplit(s);
    }
  }

  /** Some piece after a `\frac` does not begin with a brace. */
  ghost predicate SomeUnbraced(pieces: seq<string>) { exists k :: 0 <= k < |pieces| && !("{" <= pieces[k]) }

  lemma RewriteAllChanges(pieces: seq<string>)
    requires RewriteAll(pieces).Some?
    ensures RewriteAll(pieces).value != pieces <==> SomeUnbraced(pieces)
  {
    var rest := RewriteAll(pieces).value;
    RewriteAllLength(pieces);
    if k :| 0 <= k < |pieces| && !("{" <= pieces[k]) {
      assert Rewrite(pieces[k]) == Some(rest[k]);
      RewriteTwice(pieces[k]);
      assert rest[k] != pieces[k];
    } else {
      forall k | 0 <= k < |pieces| ensures rest[k] == pieces[k] {
        assert "{" <= pieces[k] && Rewrite(pieces[k]) == Some(rest[k]);
      }
    }
  }

  /** The string is changed exactly if every piece after a `\frac` can be rewritten and some such piece
      does not begin with a brace yet. */
  lemma ChangedExactlyIf(s: string)
    ensures Fixed(s) != s <==> RewriteAll(Split(s)[1..]).Some? && SomeUnbraced(Split(s)[1..])
  {
    var pieces := Split(s);
    if RewriteAll(pieces[1..]).Some? {
      var rest := RewriteAll(pieces[1..]).value;
      RewriteAllChanges(pieces[1..]);
      JoinSplit(s);
      SplitFixed(s);
      assert pieces == [pieces[0]] + pieces[1..];
      assert ([pieces[0]] + rest)[1..] == rest;
    }
  }

  /** Two braced arguments: the first character, and the second or the group that begins there. */
  ghost predicate Braced(p: string, q: string) {
    && 2 <= |p| && 4 <= |q| && q[..4] == ['{', p[0], '}', '{']
    && if p[1] == '{' then q[3..] == p[1..]
       else 6 <= |q| && q[4] == p[1] && q[5] == '}' && q[6..] == p[2..]
  }

  lemma RewriteBraces(p: string)
    requires Rewrite(p).Some? && !("{" <= p)
    ensures Braced(p, Rewrite(p).value)
  {
  }

  /** In the rewritten string every `\frac` that had no brace behind it has two braced arguments. */
  lemma ArgumentsBraced(s: string, k: nat)
    requires RewriteAll(Split(s)[1..]).Some? && 1 <= k < |Split(s)|
    ensures |Split(Fixed(s))| == |Split(s)|
    ensures var p, q := Split(s)[k], Split(Fixed(s))[k]; if "{" <= p then q == p else Braced(p, q)
  {
    var rest := Split(s)[1..];
    SplitFixed(s);
    RewriteAllLength(rest);
    assert Split(s)[k] == rest[k - 1] && Split(Fixed(s))[k] == RewriteAll(rest).value[k - 1];
    assert Rewrite(rest[k - 1]) == Some(RewriteAll(rest).value[k - 1]);
    if !("{" <= Split(s)[k]) {
      RewriteBraces(Split(s)[k]);
    }
  }
}
