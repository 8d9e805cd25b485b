/**
 * The whitespace normalisation every rendering ends with:
 * `text.replace(/\s+$/mg, ' ').replace(/^\s+|\s+$/mg, '')`.
 *
 * The model states the combined effect of the two replacements on each maximal run of
 * whitespace characters, rather than running a regular-expression engine:
 *  - a run at the start or at the end of the text is removed;
 *  - an interior run that holds a line terminator becomes that run's last line terminator;
 *  - any other interior run is kept as it is.
 */
module Whitespace {
  import opened Chars

  /** The characters of JavaScript's `\s` class. */
  predicate IsWs(c: char) {
    || c == ' ' || c == '\t' || c == '\n' || c == '\r' || c == '\U{000B}' || c == '\U{000C}'
    || c == '\U{00A0}' || c == '\U{1680}' || ('\U{2000}' <= c <= '\U{200A}')
    || c == '\U{2028}' || c == '\U{2029}' || c == '\U{202F}' || c == '\U{205F}'
    || c == '\U{3000}' || c == '\U{FEFF}'
  }

  /** The characters at which a multiline `^` or `$` matches. */
  predicate IsLineTerminator(c: char) {
    c == '\n' || c == '\r' || c == '\U{2028}' || c == '\U{2029}'
  }

  predicate AllWs(s: string) {
    forall i :: 0 <= i < |s| ==> IsWs(s[i])
  }

  predicate HasLineTerminator(s: string) {
    exists i :: 0 <= i < |s| && IsLineTerminator(s[i])
  }

  /** A concatenation holds a line terminator exactly when one of its parts does. */
  lemma HasLineTerminatorConcat(a: string, b: string)
    ensures HasLineTerminator(a + b) <==> HasLineTerminator(a) || HasLineTerminator(b)
  {
    if HasLineTerminator(a + b) {
      var i :| 0 <= i < |a + b| && IsLineTerminator((a + b)[i]);
      if i >= |a| {
        assert IsLineTerminator(b[i - |a|]);
      }
    }
    if HasLineTerminator(a) {
      var i :| 0 <= i < |a| && IsLineTerminator(a[i]);
      assert (a + b)[i] == a[i];
    }
    if HasLineTerminator(b) {
      var i :| 0 <= i < |b| && IsLineTerminator(b[i]);
      assert (a + b)[|a| + i] == b[i];
    }
  }

  /** Text that begins and ends with a non-whitespace character (or is empty). */
  predicate Trimmed(s: string) {
    s == [] || (!IsWs(s[0]) && !IsWs(s[|s| - 1]))
  }

  /** `s` with every whitespace character deleted. */
  function StripWs(s: string): string
    decreases |s|
  {
    if |s| == 0 then [] else (if IsWs(s[0]) then [] else [s[0]]) + StripWs(s[1..])
  }

  /** Length of the whitespace run that begins `s`. */
  function LeadingWs(s: string): (k: nat)
    ensures k <= |s|
    ensures AllWs(s[..k])
    ensures k < |s| ==> !IsWs(s[k])
    decreases |s|
  {
    if |s| == 0 || !IsWs(s[0]) then 0
    else
      var k := 1 + LeadingWs(s[1..]);
      assert s[..k] == [s[0]] + s[1..][..k - 1];
      k
  }

  /** Length of the whitespace run that ends `s`. */
  function TrailingWs(s: string): (k: nat)
    ensures k <= |s|
    decreases |s|
  {
    if |s| == 0 || !IsWs(s[|s| - 1]) then 0 else 1 + TrailingWs(s[..|s| - 1])
  }

  lemma {:induction false} TrailingWsIsRun(s: string)
    ensures AllWs(s[|s| - TrailingWs(s)..])
    ensures TrailingWs(s) < |s| ==> !IsWs(s[|s| - 1 - TrailingWs(s)])
    decreases |s|
  {
    if |s| > 0 && IsWs(s[|s| - 1]) {
      var p := s[..|s| - 1];
      TrailingWsIsRun(p);
      var j := TrailingWs(p);
      var tail := s[|s| - (j + 1)..];
      forall i | 0 <= i < j + 1
        ensures IsWs(tail[i])
      {
        if i < j {
          assert tail[i] == p[|p| - j..][i];
        }
      }
    }
  }

  /** `s` without its leading and trailing whitespace runs. */
  function Trim(s: string): (t: string)
    ensures Trimmed(t)
  {
    var a := s[LeadingWs(s)..];
    TrailingWsIsRun(a);
    a[..|a| - TrailingWs(a)]
  }

  /** The last line terminator of `run` as a one-character string, or `""` when it has none. */
  function LastTerminator(run: string): (t: string)
    ensures |t| <= 1
    ensures |t| == 1 <==> HasLineTerminator(run)
    ensures |t| == 1 ==> IsLineTerminator(t[0])
    decreases |run|
  {
    if |run| == 0 then []
    else if IsLineTerminator(run[|run| - 1]) then [run[|run| - 1]]
    else
      var t := LastTerminator(run[..|run| - 1]);
      assert HasLineTerminator(run) ==> HasLineTerminator(run[..|run| - 1]) by {
        if HasLineTerminator(run) {
          var i :| 0 <= i < |run| && IsLineTerminator(run[i]);
          assert run[..|run| - 1][i] == run[i];
        }
      }
      t
  }

  /** What the two replacements leave of an interior whitespace run. */
  function CollapseRun(run: string): (r: string)
    requires AllWs(run)
    ensures AllWs(r)
    ensures |r| <= |run|
    ensures |run| > 0 ==> |r| > 0
  {
    var t := LastTerminator(run);
    if t == [] then run else t
  }

  /** Applies `CollapseRun` to every maximal whitespace run of `s`. */
  function CollapseRuns(s: string): string
    decreases |s|
  {
    if |s| == 0 then []
    else if !IsWs(s[0]) then [s[0]] + CollapseRuns(s[1..])
    else
      var k := LeadingWs(s);
      CollapseRun(s[..k]) + CollapseRuns(s[k..])
  }

  /**
   * The normalised text: the outer whitespace is gone, and the characters that remain once all
   * whitespace is deleted are exactly those of the input, in the same order.
   */
  function Normalize(s: string): (r: string)
    ensures Trimmed(r)
    ensures StripWs(r) == StripWs(s)
    ensures |r| <= |s|
  {
    var t := Trim(s);
    TrimKeepsText(s);
    CollapseRunsKeepsText(t);
    CollapseRunsKeepsEnds(t);
    CollapseRunsShrinks(t);
    CollapseRuns(t)
  }

  lemma {:induction false} StripWsConcat(a: string, b: string)
    ensures StripWs(a + b) == StripWs(a) + StripWs(b)
    decreases |a|
  {
    if |a| > 0 {
      assert (a + b)[1..] == a[1..] + b;
      StripWsConcat(a[1..], b);
    } else {
      assert a + b == b;
    }
  }

  lemma {:induction false} StripAllWs(s: string)
    requires AllWs(s)
    ensures StripWs(s) == []
    decreases |s|
  {
    if |s| > 0 {
      StripAllWs(s[1..]);
    }
  }

  /** Removing a whitespace prefix or suffix deletes no other character. */
  lemma StripWsAround(w: string, t: string, w': string)
    requires AllWs(w) && AllWs(w')
    ensures StripWs(w + t + w') == StripWs(t)
  {
    StripWsConcat(w + t, w');
    StripWsConcat(w, t);
    StripAllWs(w);
    StripAllWs(w');
    assert [] + StripWs(t) + [] == StripWs(t);
  }

  lemma TrimKeepsText(s: string)
    ensures StripWs(Trim(s)) == StripWs(s)
    ensures |Trim(s)| <= |s|
  {
    var k := LeadingWs(s);
    var a := s[k..];
    var j := TrailingWs(a);
    TrailingWsIsRun(a);
    var t := a[..|a| - j];
    assert Trim(s) == t;
    assert s == s[..k] + t + a[|a| - j..];
    StripWsAround(s[..k], t, a[|a| - j..]);
  }

  lemma {:induction false} CollapseRunsKeepsText(s: string)
    ensures StripWs(CollapseRuns(s)) == StripWs(s)
    decreases |s|
  {
    if |s| == 0 {
    } else if !IsWs(s[0]) {
      CollapseRunsKeepsText(s[1..]);
      StripWsConcat([s[0]], CollapseRuns(s[1..]));
      StripWsConcat([s[0]], s[1..]);
      assert s == [s[0]] + s[1..];
    } else {
      var k := LeadingWs(s);
      CollapseRunsKeepsText(s[k..]);
      StripWsConcat(CollapseRun(s[..k]), CollapseRuns(s[k..]));
      StripWsConcat(s[..k], s[k..]);
      StripAllWs(s[..k]);
      StripAllWs(CollapseRun(s[..k]));
      assert s == s[..k] + s[k..];
    }
  }

  lemma {:induction false} CollapseRunsShrinks(s: string)
    ensures |CollapseRuns(s)| <= |s|
    decreases |s|
  {
    if |s| == 0 {
    } else if !IsWs(s[0]) {
      CollapseRunsShrinks(s[1..]);
    } else {
      CollapseRunsShrinks(s[LeadingWs(s)..]);
    }
  }

  /** Collapsing runs keeps the first and the last character of text that starts and ends outside a run. */
  lemma {:induction false} CollapseRunsKeepsEnds(s: string)
    requires Trimmed(s)
    ensures Trimmed(CollapseRuns(s))
    ensures |s| > 0 ==> |CollapseRuns(s)| > 0 && CollapseRuns(s)[0] == s[0]
    ensures |s| > 0 ==> CollapseRuns(s)[|CollapseRuns(s)| - 1] == s[|s| - 1]
    decreases |s|
  {
    if |s| > 1 {
      var rest := s[1..];
      if IsWs(rest[0]) {
        var k := LeadingWs(rest);
        assert k < |rest|;
        CollapseRunsKeepsEnds(rest[k..]);
      } else {
        CollapseRunsKeepsEnds(rest);
      }
    }
  }

  /** A whitespace run without a line terminator is left alone. */
  lemma {:induction false} CollapseRunsFixes(s: string)
    requires !HasLineTerminator(s)
    ensures CollapseRuns(s) == s
    decreases |s|
  {
    if |s| == 0 {
    } else if !IsWs(s[0]) {
      assert !HasLineTerminator(s[1..]) by {
        forall i | 0 <= i < |s| - 1 ensures !IsLineTerminator(s[1..][i]) {
          assert s[1..][i] == s[i + 1];
        }
      }
      CollapseRunsFixes(s[1..]);
    } else {
      var k := LeadingWs(s);
      assert !HasLineTerminator(s[..k]) by {
        forall i | 0 <= i < k ensures !IsLineTerminator(s[..k][i]) {
          assert s[..k][i] == s[i];
        }
      }
      assert !HasLineTerminator(s[k..]) by {
        forall i | 0 <= i < |s| - k ensures !IsLineTerminator(s[k..][i]) {
          assert s[k..][i] == s[k + i];
        }
      }
      CollapseRunsFixes(s[k..]);
      assert s == s[..k] + s[k..];
    }
  }

  /**
   * Single-line text without outer whitespace comes out unchanged: interior runs of spaces,
   * doubled ones included, are kept.
   */
  lemma NormalizeSingleLine(s: string)
    requires Trimmed(s)
    requires !HasLineTerminator(s)
    ensures Normalize(s) == s
  {
    TrimOfTrimmed(s);
    CollapseRunsFixes(s);
  }

  /** Text without outer whitespace has nothing to trim. */
  lemma TrimOfTrimmed(s: string)
    requires Trimmed(s)
    ensures Trim(s) == s
  {
    var k := LeadingWs(s);
    assert k == 0;
    assert s[k..] == s;
    assert TrailingWs(s) == 0;
  }

  /** A collapsed run is collapsed already. */
  lemma CollapseRunIdempotent(run: string)
    requires AllWs(run)
    ensures CollapseRun(CollapseRun(run)) == CollapseRun(run)
  {
    var t := LastTerminator(run);
    if t != [] {
      assert LastTerminator(t) == t;
    }
  }

  /** A whitespace run standing in front of a non-whitespace character is read as one whole run. */
  lemma {:induction false} LeadingWsOfRun(w: string, y: string)
    requires AllWs(w)
    requires y == [] || !IsWs(y[0])
    ensures LeadingWs(w + y) == |w|
    decreases |w|
  {
    if |w| > 0 {
      assert (w + y)[1..] == w[1..] + y;
      LeadingWsOfRun(w[1..], y);
    }
  }

  /** Collapsing twice is collapsing once: the runs left behind are already in their final form. */
  lemma {:induction false} CollapseRunsIdempotent(s: string)
    ensures CollapseRuns(CollapseRuns(s)) == CollapseRuns(s)
    decreases |s|
  {
    if |s| > 0 {
      if !IsWs(s[0]) {
        var rest := CollapseRuns(s[1..]);
        CollapseRunsIdempotent(s[1..]);
        assert ([s[0]] + rest)[1..] == rest;
      } else {
        var k := LeadingWs(s);
        var r := CollapseRun(s[..k]);
        var y := CollapseRuns(s[k..]);
        CollapseRunsIdempotent(s[k..]);
        assert y == [] || !IsWs(y[0]);
        LeadingWsOfRun(r, y);
        CollapseRunIdempotent(s[..k]);
        assert (r + y)[..|r|] == r;
        assert (r + y)[|r|..] == y;
      }
    }
  }

  /** Normalising is idempotent: its output is a fixed point of the two replacements. */
  lemma NormalizeIdempotent(s: string)
    ensures Normalize(Normalize(s)) == Normalize(s)
  {
    TrimOfTrimmed(Normalize(s));
    CollapseRunsIdempotent(Trim(s));
  }

  /** The leading run of `x + y` ends inside `x`, or else runs on into `y`. */
  lemma {:induction false} LeadingWsConcat(x: string, y: string)
    ensures LeadingWs(x + y) == if LeadingWs(x) < |x| then LeadingWs(x) else |x| + LeadingWs(y)
    decreases |x|
  {
    if |x| > 0 {
      assert (x + y)[1..] == x[1..] + y;
      LeadingWsConcat(x[1..], y);
    } else {
      assert x + y == y;
    }
  }

  /** A space added at the end joins the trailing run, so trimming removes it again. */
  lemma TrimDropsTrailingSpace(x: string)
    ensures Trim(x + " ") == Trim(x)
  {
    var y := x + " ";
    LeadingWsConcat(x, " ");
    var k := LeadingWs(x);
    if k < |x| {
      var a := x[k..];
      assert y[k..] == a + " ";
      assert (a + " ")[..|a|] == a;
      var j := TrailingWs(a);
      assert TrailingWs(a + " ") == 1 + j;
      assert (a + " ")[..|a| + 1 - (1 + j)] == a[..|a| - j];
    } else {
      assert " "[1..] == [];
      assert LeadingWs(" ") == 1;
      assert y[|y|..] == [];
      assert x[|x|..] == [];
    }
  }

  /** Normalisation does not see a space added at the end of the text. */
  lemma NormalizeDropsTrailingSpace(x: string)
    ensures Normalize(x + " ") == Normalize(x)
  {
    TrimDropsTrailingSpace(x);
  }

  /** Deleting whitespace does not change how often a non-whitespace character occurs. */
  lemma {:induction false} CountStripWs(c: char, s: string)
    requires !IsWs(c)
    ensures Count(c, StripWs(s)) == Count(c, s)
    decreases |s|
  {
    if |s| > 0 {
      CountStripWs(c, s[1..]);
      CountConcat(c, if IsWs(s[0]) then [] else [s[0]], StripWs(s[1..]));
    }
  }

  /** Normalisation leaves every non-whitespace character's count as it was. */
  lemma NormalizeKeepsCount(c: char, s: string)
    requires !IsWs(c)
    ensures Count(c, Normalize(s)) == Count(c, s)
  {
    CountStripWs(c, Normalize(s));
    CountStripWs(c, s);
  }
}
