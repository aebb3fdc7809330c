/** What becomes of the whitespace of a document, told without the passes that change it:
    `normalize_text` of backend/app/services/ai/chunking.py. */
module Respacing {
  import opened Sequences
  import opened Text
  import opened TextNormalization

  // ---------------------------------------------------------------------------
  // The whitespace between two visible characters
  // ---------------------------------------------------------------------------

  /** Line ends in a stretch of whitespace; a carriage return and a newline together are one. */
  function LineEnds(gap: string): nat {
    if gap == "" then 0
    else if |gap| >= 2 && gap[0] == '\r' && gap[1] == '\n' then 1 + LineEnds(gap[2..])
    else if gap[0] == '\r' || gap[0] == '\n' then 1 + LineEnds(gap[1..])
    else LineEnds(gap[1..])
  }

  /** What follows the last line end. */
  function Indent(gap: string): string {
    if LineEnds(gap) == 0 then gap else Indent(gap[1..])
  }

  /** Without a line end a stretch stays as it is; of one line end one newline stays, of more
      two, and the indentation after the last one. */
  function KeptGap(gap: string): string {
    if LineEnds(gap) == 0 then gap
    else if LineEnds(gap) == 1 then "\n" + Indent(gap)
    else "\n\n" + Indent(gap)
  }

  // ---------------------------------------------------------------------------
  // The passes work piece by piece
  // ---------------------------------------------------------------------------

  /** The passes before the outer whitespace is dropped. */
  function Passes(t: string): string { CollapseNewlines(TrimLines(ReplaceCr(ReplaceCrLf(t)))) }

  predicate EndsVisible(w: string) { w != "" && !IsSpace(w[|w| - 1]) }

  lemma EndsVisibleTail(w: string)
    requires EndsVisible(w) && |w| > 1
    ensures EndsVisible(w[1..])
  {
  }

  predicate StartsCrLf(t: string) { |t| >= 2 && t[0] == '\r' && t[1] == '\n' }

  lemma CrLfCons(t: string)
    requires t != ""
    ensures ReplaceCrLf(t) == if StartsCrLf(t) then ['\n'] + ReplaceCrLf(t[2..]) else [t[0]] + ReplaceCrLf(t[1..])
  {
    if |t| == 1 {
      assert t[1..] == "";
    }
  }

  lemma {:induction false} CrLfParts(w: string, v: string)
    requires EndsVisible(w)
    ensures ReplaceCrLf(w + v) == ReplaceCrLf(w) + ReplaceCrLf(v) && EndsVisible(ReplaceCrLf(w))
    ensures ReplaceCrLf(w)[|ReplaceCrLf(w)| - 1] == w[|w| - 1]
  {
    var t := w + v;
    hide IsSpace, ReplaceCrLf;
    CrLfCons(t);
    CrLfCons(w);
    if |w| == 1 {
      SpacesVanish(w[0]);
      assert t[0] == w[0] && t[1..] == v && w[1..] == "";
      CrLfNothing();
    } else {
      var n := if StartsCrLf(w) then 2 else 1;
      var c := if StartsCrLf(w) then '\n' else w[0];
      SpacesVanish(w[|w| - 1]);
      assert t[0] == w[0] && t[1] == w[1];
      assert t[n..] == w[n..] + v;
      CrLfParts(w[n..], v);
      LastOfCons(c, ReplaceCrLf(w[n..]));
      Associates([c], ReplaceCrLf(w[n..]), ReplaceCrLf(v));
    }
  }

  lemma SpacesVanish(x: char)
    requires !IsSpace(x)
    ensures x != '\r' && x != '\n'
  {
  }

  lemma LastOfCons(c: char, s: string)
    requires s != ""
    ensures ([c] + s)[|s|] == s[|s| - 1]
  {
  }

  lemma CrLfNothing()
    ensures ReplaceCrLf("") == ""
  {
  }

  lemma CrParts(w: string, v: string)
    requires EndsVisible(w)
    ensures ReplaceCr(w + v) == ReplaceCr(w) + ReplaceCr(v) && EndsVisible(ReplaceCr(w))
    ensures ReplaceCr(w)[|ReplaceCr(w)| - 1] == w[|w| - 1]
  {
    assert IsSpace('\r');
  }

  lemma {:induction false} TrimParts(w: string, v: string)
    requires EndsVisible(w)
    ensures TrimLines(w + v) == TrimLines(w) + TrimLines(v) && EndsVisible(TrimLines(w))
    ensures TrimLines(w)[|TrimLines(w)| - 1] == w[|w| - 1]
  {
    hide IsSpace, TrimLines;
    var c, rest := w[0], w[1..];
    assert w == [c] + rest && w + v == [c] + (rest + v);
    TrimCons(c, rest);
    TrimCons(c, rest + v);
    if rest == "" {
      assert rest + v == v;
      TrimNothing();
    } else {
      EndsVisibleTail(w);
      TrimParts(rest, v);
      Associates([c], TrimLines(rest), TrimLines(v));
    }
  }

  lemma TrimNothing()
    ensures TrimLines("") == ""
  {
  }

  lemma {:induction false} CollapseParts(w: string, v: string)
    requires EndsVisible(w)
    ensures CollapseNewlines(w + v) == CollapseNewlines(w) + CollapseNewlines(v) && EndsVisible(CollapseNewlines(w))
    ensures CollapseNewlines(w)[|CollapseNewlines(w)| - 1] == w[|w| - 1]
  {
    assert IsSpace('\n');
    hide IsSpace, CollapseNewlines;
    var c, rest := w[0], w[1..];
    assert w == [c] + rest && w + v == [c] + (rest + v);
    CollapseCons(c, rest);
    CollapseCons(c, rest + v);
    if rest == "" {
      assert rest + v == v;
      CollapseNothing();
    } else {
      EndsVisibleTail(w);
      CollapseParts(rest, v);
      Associates([c], CollapseNewlines(rest), CollapseNewlines(v));
    }
  }

  lemma CollapseNothing()
    ensures CollapseNewlines("") == ""
  {
  }

  /** A visible character keeps what is before it and what is after it apart. */
  lemma PassesParts(w: string, v: string)
    requires EndsVisible(w)
    ensures Passes(w + v) == Passes(w) + Passes(v) && EndsVisible(Passes(w))
    ensures Passes(w)[|Passes(w)| - 1] == w[|w| - 1]
  {
    hide EndsVisible, ReplaceCrLf, ReplaceCr, TrimLines, CollapseNewlines;
    CrLfParts(w, v);
    var w1, v1 := ReplaceCrLf(w), ReplaceCrLf(v);
    CrParts(w1, v1);
    var w2, v2 := ReplaceCr(w1), ReplaceCr(v1);
    TrimParts(w2, v2);
    CollapseParts(TrimLines(w2), TrimLines(v2));
  }

  // ---------------------------------------------------------------------------
  // One stretch of whitespace
  // ---------------------------------------------------------------------------

  predicate IsLineEnd(c: char) { c == '\r' || c == '\n' }

  /** A character in front counts for the indentation only if no line end follows it. */
  lemma IndentCons(c: char, gap: string)
    ensures Indent([c] + gap) == if IsLineEnd(c) || LineEnds(gap) > 0 then Indent(gap) else [c] + gap
  {
    var t := [c] + gap;
    EndsCount(gap);
    EndsCount(t);
    assert t[1..] == gap;
    if LineEnds(gap) > 0 {
      var i :| 0 <= i < |gap| && IsLineEnd(gap[i]);
      assert t[i + 1] == gap[i];
    }
    hide LineEnds;
    assert t[0] == c;
  }

  lemma NoEndsNoIndent(gap: string)
    requires LineEnds(gap) == 0
    ensures Indent(gap) == gap && forall i :: 0 <= i < |gap| ==> !IsLineEnd(gap[i])
  {
    EndsCount(gap);
  }

  lemma {:induction false} EndsCount(gap: string)
    ensures LineEnds(gap) == 0 <==> forall i :: 0 <= i < |gap| ==> !IsLineEnd(gap[i])
  {
    if gap != "" && !IsLineEnd(gap[0]) {
      EndsCount(gap[1..]);
      assert forall i :: 0 <= i < |gap[1..]| ==> gap[1..][i] == gap[i + 1];
    }
  }

  function Unified(t: string): string { ReplaceCr(ReplaceCrLf(t)) }

  lemma UnifiedCons(t: string)
    requires t != ""
    ensures Unified(t) ==
            if |t| >= 2 && t[0] == '\r' && t[1] == '\n' then ['\n'] + Unified(t[2..])
            else [if t[0] == '\r' then '\n' else t[0]] + Unified(t[1..])
  {
    if |t| == 1 {
      assert ReplaceCrLf(t) == t && t[1..] == "";
    }
  }

  lemma {:induction false} UnifyAppend(gap: string, y: char)
    requires y != '\r' && y != '\n'
    ensures Unified(gap + [y]) == Unified(gap) + [y]
  {
    hide Unified;
    var t := gap + [y];
    UnifiedCons(t);
    if gap == "" {
      assert t == [y];
      UnifiedNothing(y);
    } else {
      UnifiedCons(gap);
      assert t[0] == gap[0] && t[1] == if |gap| > 1 then gap[1] else y;
      if StartsCrLf(gap) {
        UnifyAppend(gap[2..], y);
        assert t[2..] == gap[2..] + [y];
        Regroup('\n', Unified(gap[2..]), y);
      } else {
        UnifyAppend(gap[1..], y);
        assert t[1..] == gap[1..] + [y];
        Regroup(if gap[0] == '\r' then '\n' else gap[0], Unified(gap[1..]), y);
      }
    }
  }

  lemma Regroup(c: char, s: string, y: char)
    ensures [c] + (s + [y]) == [c] + s + [y]
  {
  }

  lemma {:induction false} UnifyKeepsSpace(gap: string)
    requires AllSpace(gap)
    ensures AllSpace(Unified(gap)) && '\r' !in Unified(gap)
  {
    assert IsSpace('\n');
    hide IsSpace, Unified;
    if gap == "" {
      UnifiedNothing(' ');
    } else {
      UnifiedCons(gap);
      if StartsCrLf(gap) {
        UnifyKeepsSpace(gap[2..]);
      } else {
        UnifyKeepsSpace(gap[1..]);
      }
    }
  }

  /** Making all line ends newlines changes neither their number nor the indentation. */
  lemma {:induction false} UnifyMeasures(gap: string)
    ensures LineEnds(Unified(gap)) == LineEnds(gap) && Indent(Unified(gap)) == Indent(gap)
  {
    hide Unified, Indent, LineEnds;
    if gap == "" {
      UnifiedNothing(' ');
    } else {
      UnifiedCons(gap);
      EndsCons(gap);
      if StartsCrLf(gap) {
        var rest := gap[2..];
        UnifyMeasures(rest);
        assert gap == ['\r'] + (['\n'] + rest);
        IndentCons('\r', ['\n'] + rest);
        IndentCons('\n', rest);
        ConsMeasures('\n', Unified(rest));
      } else {
        var rest := gap[1..];
        var c := if gap[0] == '\r' then '\n' else gap[0];
        UnifyMeasures(rest);
        assert gap == [gap[0]] + rest;
        IndentCons(gap[0], rest);
        ConsMeasures(c, Unified(rest));
        SameIndent(rest, Unified(rest));
      }
    }
  }

  lemma ConsMeasures(c: char, rest: string)
    requires c != '\r'
    ensures LineEnds([c] + rest) == LineEnds(rest) + (if c == '\n' then 1 else 0)
    ensures Indent([c] + rest) == if c == '\n' || LineEnds(rest) > 0 then Indent(rest) else [c] + rest
  {
    hide Indent;
    IndentCons(c, rest);
    UnifiedEnds(c, rest);
  }

  lemma UnifiedNothing(y: char)
    ensures Unified("") == "" && LineEnds("") == 0 && Indent("") == ""
    ensures y != '\r' ==> Unified([y]) == [y]
  {
  }

  lemma EndsCons(gap: string)
    requires gap != ""
    ensures LineEnds(gap) == if |gap| >= 2 && gap[0] == '\r' && gap[1] == '\n' then 1 + LineEnds(gap[2..])
                             else LineEnds(gap[1..]) + if IsLineEnd(gap[0]) then 1 else 0
  {
  }

  lemma SameIndent(a: string, b: string)
    requires LineEnds(a) == LineEnds(b) && Indent(a) == Indent(b)
    ensures LineEnds(a) == 0 ==> a == b
  {
  }

  lemma UnifiedEnds(c: char, rest: string)
    requires c != '\r'
    ensures LineEnds([c] + rest) == LineEnds(rest) + if c == '\n' then 1 else 0
  {
    assert ([c] + rest)[1..] == rest;
  }

  function Newlines(n: nat): string { if n == 0 then "" else ['\n'] + Newlines(n - 1) }

  /** Trimming the lines of a stretch leaves its newlines and the indentation. */
  lemma {:induction false} TrimGap(gap: string, y: char)
    requires AllSpace(gap) && !IsSpace(y) && '\r' !in gap
    ensures TrimLines(gap + [y]) == Newlines(LineEnds(gap)) + (Indent(gap) + [y])
  {
    if gap == "" {
      TrimVisible(y);
    } else {
      hide IsSpace, Indent, LineEnds, Newlines, TrimLines;
      var c, rest := gap[0], gap[1..];
      TrimGap(rest, y);
      assert gap == [c] + rest;
      TrimStep(c, rest, y);
    }
  }

  lemma TrimStep(c: char, rest: string, y: char)
    requires IsSpace(c) && c != '\r' && !IsSpace(y)
    requires TrimLines(rest + [y]) == Newlines(LineEnds(rest)) + (Indent(rest) + [y])
    ensures TrimLines(([c] + rest) + [y]) == Newlines(LineEnds([c] + rest)) + (Indent([c] + rest) + [y])
  {
    hide IsSpace, Indent, LineEnds, Newlines, TrimLines;
    var newlines, indent := Newlines(LineEnds(rest)), Indent(rest);
    assert ([c] + rest) + [y] == [c] + (rest + [y]);
    ConsMeasures(c, rest);
    TrimCons(c, rest + [y]);
    NewlinesStep(LineEnds(rest));
    NewlineIsSpace();
    if c == '\n' {
      NewlineMoves(newlines, indent + [y]);
    } else if LineEnds(rest) == 0 {
      FirstIsVisible(rest, y);
      assert newlines + (indent + [y]) == rest + [y];
      assert newlines + (([c] + indent) + [y]) == [c] + (rest + [y]);
    } else {
      assert (newlines + (indent + [y]))[0] == newlines[0];
    }
  }

  lemma NewlineIsSpace()
    ensures IsSpace('\n')
  {
  }

  lemma NewlineMoves(newlines: string, kept: string)
    ensures ['\n'] + (newlines + kept) == (['\n'] + newlines) + kept
  {
  }

  lemma FirstIsVisible(rest: string, y: char)
    requires LineEnds(rest) == 0 && y != '\n'
    ensures Indent(rest) == rest && (rest + [y])[0] != '\n'
  {
    NoEndsNoIndent(rest);
    assert (rest + [y])[0] == if rest == "" then y else rest[0];
  }

  lemma TrimVisible(y: char)
    requires !IsSpace(y)
    ensures TrimLines("" + [y]) == Newlines(LineEnds("")) + (Indent("") + [y])
  {
    assert "" + [y] == [y] && [y][1..] == "";
    assert IsSpace('\n');
  }

  lemma TrimCons(c: char, rest: string)
    ensures var kept := TrimLines(rest);
            TrimLines([c] + rest) ==
            if IsSpace(c) && c != '\n' && (kept == "" || kept[0] == '\n') then kept else [c] + kept
  {
    assert ([c] + rest)[1..] == rest;
  }

  lemma NewlinesStep(n: nat)
    ensures Newlines(n + 1) == ['\n'] + Newlines(n) && (n == 0 <==> Newlines(n) == "")
    ensures n > 0 ==> Newlines(n)[0] == '\n'
  {
  }

  lemma CollapseCons(c: char, rest: string)
    ensures var kept := CollapseNewlines(rest);
            CollapseNewlines([c] + rest) ==
            if c == '\n' && |kept| >= 2 && kept[0] == '\n' && kept[1] == '\n' then kept else [c] + kept
  {
    assert ([c] + rest)[1..] == rest;
  }

  /** Of a run of newlines at most two stay. */
  lemma {:induction false} CollapseRun(n: nat, v: string)
    requires v != "" && '\n' !in v
    ensures CollapseNewlines(Newlines(n) + v) == Newlines(if n < 2 then n else 2) + v
  {
    hide CollapseNewlines, Newlines;
    NewlineRuns();
    if n == 0 {
      assert "" + v == v;
      CollapseFixes(v);
    } else {
      CollapseRun(n - 1, v);
      NewlinesStep(n - 1);
      assert Newlines(n) + v == ['\n'] + (Newlines(n - 1) + v);
      RunGrows(if n - 1 < 2 then n - 1 else 2, Newlines(n - 1) + v, v);
    }
  }

  lemma RunGrows(k: nat, t: string, v: string)
    requires v != "" && '\n' !in v && k <= 2 && CollapseNewlines(t) == Newlines(k) + v
    ensures CollapseNewlines(['\n'] + t) == Newlines(if k < 2 then k + 1 else 2) + v
  {
    hide CollapseNewlines, Newlines;
    NewlineRuns();
    CollapseCons('\n', t);
    assert v[0] != '\n';
    if k == 0 {
      assert "" + v == v && ['\n'] + v == "\n" + v;
    } else if k == 1 {
      assert ("\n" + v)[1] == v[0];
      assert ['\n'] + ("\n" + v) == "\n\n" + v;
    }
  }

  /** All passes on one stretch of whitespace and the visible character behind it. */
  lemma PassesOnGap(gap: string, y: char)
    requires AllSpace(gap) && !IsSpace(y)
    ensures Passes(gap + [y]) == KeptGap(gap) + [y]
  {
    assert IsSpace('\r') && IsSpace('\n');
    hide IsSpace, Unified, Indent, LineEnds, Newlines, TrimLines, CollapseNewlines;
    var u, n := Unified(gap), LineEnds(gap);
    UnifyAppend(gap, y);
    UnifyKeepsSpace(gap);
    UnifyMeasures(gap);
    TrimGap(u, y);
    IndentHasNoEnds(u);
    CollapseRun(n, Indent(gap) + [y]);
    NewlineRuns();
    PassesInSteps(gap + [y]);
  }

  lemma {:induction false} IndentHasNoEnds(gap: string)
    ensures forall i :: 0 <= i < |Indent(gap)| ==> !IsLineEnd(Indent(gap)[i])
  {
    if LineEnds(gap) == 0 {
      EndsCount(gap);
    } else {
      IndentHasNoEnds(gap[1..]);
    }
  }

  lemma PassesInSteps(t: string)
    ensures Passes(t) == CollapseNewlines(TrimLines(Unified(t)))
  {
  }

  lemma NewlineRuns()
    ensures Newlines(0) == "" && Newlines(1) == "\n" && Newlines(2) == "\n\n"
  {
    assert Newlines(1) == ['\n'] + Newlines(0);
    assert Newlines(2) == ['\n'] + Newlines(1);
  }

  // ---------------------------------------------------------------------------
  // The whole text
  // ---------------------------------------------------------------------------

  /** The visible characters, each behind what is kept of the whitespace in front of it; what
      follows the last one goes. */
  function RespacedRest(t: string): string
    decreases |t|
  {
    var i := Lead(t);
    if i == |t| then "" else KeptGap(t[..i]) + [t[i]] + RespacedRest(t[i + 1..])
  }

  /** The same from the first visible character on. */
  function Respaced(t: string): string {
    var i := Lead(t);
    if i == |t| then "" else [t[i]] + RespacedRest(t[i + 1..])
  }

  lemma VisiblePasses(t: string)
    ensures Visible(Passes(t)) == Visible(t)
  {
    hide Visible, ReplaceCrLf, ReplaceCr, TrimLines, CollapseNewlines;
    VisibleAfterCrLf(t);
    VisibleAfterCr(ReplaceCrLf(t));
    VisibleAfterTrim(ReplaceCr(ReplaceCrLf(t)));
    VisibleAfterCollapse(TrimLines(ReplaceCr(ReplaceCrLf(t))));
  }

  lemma {:induction false} NothingVisible(t: string)
    ensures Visible(t) == "" <==> AllSpace(t)
  {
    hide IsSpace;
    if t != "" {
      NothingVisible(t[1..]);
      assert forall i :: 0 < i < |t| ==> t[i] == t[1..][i - 1];
    }
  }

  lemma BlankStaysBlank(t: string)
    requires AllSpace(t)
    ensures AllSpace(Passes(t)) && RStrip(Passes(t)) == ""
  {
    hide IsSpace, Passes;
    NothingVisible(t);
    VisiblePasses(t);
    NothingVisible(Passes(t));
  }

  lemma RStripParts(w: string, v: string)
    requires EndsVisible(w)
    ensures RStrip(w + v) == w + RStrip(v)
  {
    hide IsSpace;
    var t := w + v;
    assert t[..|w|] == w;
    assert forall i :: |w| <= i < |t| ==> t[i] == v[i - |w|];
    if Tail(v) > 0 {
      assert t[|w| + Tail(v) - 1] == v[Tail(v) - 1];
    } else {
      assert t[|w| - 1] == w[|w| - 1];
    }
    TailIs(t, |w| + Tail(v));
    assert t[..|w| + Tail(v)] == w + v[..Tail(v)];
  }

  lemma NextVisible(t: string)
    requires Lead(t) < |t|
    ensures var i := Lead(t);
            && t == t[..i] + [t[i]] + t[i + 1..] && AllSpace(t[..i]) && !IsSpace(t[i])
            && Passes(t) == KeptGap(t[..i]) + [t[i]] + Passes(t[i + 1..])
            && EndsVisible(KeptGap(t[..i]) + [t[i]])
  {
    hide Passes, KeptGap, IsSpace, Lead, AllSpace, EndsVisible;
    var i := Lead(t);
    LeadingSpace(t);
    PassesPastGap(t[..i], t[i], t[i + 1..]);
  }

  lemma LeadingSpace(t: string)
    requires Lead(t) < |t|
    ensures var i := Lead(t);
            AllSpace(t[..i]) && !IsSpace(t[i]) && t == t[..i] + [t[i]] + t[i + 1..]
  {
    hide IsSpace, Lead;
    Around(t, Lead(t));
  }

  lemma Around(t: string, i: nat)
    requires i < |t|
    ensures t == t[..i] + [t[i]] + t[i + 1..]
  {
  }

  lemma PassesPastGap(gap: string, y: char, more: string)
    requires AllSpace(gap) && !IsSpace(y)
    ensures Passes(gap + [y] + more) == KeptGap(gap) + [y] + Passes(more)
    ensures EndsVisible(KeptGap(gap) + [y])
  {
    hide Passes, KeptGap, IsSpace;
    PassesParts(gap + [y], more);
    PassesOnGap(gap, y);
  }

  lemma {:induction false} RestIsRespaced(t: string)
    ensures RStrip(Passes(t)) == RespacedRest(t)
    decreases |t|
  {
    hide Passes, KeptGap, IsSpace, Tail, EndsVisible;
    var i := Lead(t);
    if i == |t| {
      BlankStaysBlank(t);
    } else {
      NextVisible(t);
      RStripParts(KeptGap(t[..i]) + [t[i]], Passes(t[i + 1..]));
      RestIsRespaced(t[i + 1..]);
    }
  }

  lemma PassesBeforeStrip(t: string)
    ensures NormalizeText(t) == Strip(Passes(t))
  {
    hide Strip, CollapseNewlines, TrimLines, ReplaceCr, ReplaceCrLf, Join, Split, StripLines;
    LinesAreTrimmedInPlace(ReplaceCr(ReplaceCrLf(t)));
  }

  /** Strip the outer whitespace around a first visible character. */
  lemma StripFrom(before: string, core: string, after: string)
    requires AllSpace(before) && EndsVisible(core) && !IsSpace(core[0])
    ensures Strip(before + core + after) == core + RStrip(after)
  {
    hide IsSpace, Strip;
    var kept, gone := after[..Tail(after)], after[Tail(after)..];
    assert after == kept + gone;
    var whole := core + kept;
    assert whole[0] == core[0];
    assert whole[|whole| - 1] == if kept == "" then core[|core| - 1] else kept[|kept| - 1];
    StripOfPadded(before, whole, gone);
    assert before + whole + gone == before + core + after;
  }

  lemma KeptGapIsSpace(gap: string)
    requires AllSpace(gap)
    ensures AllSpace(KeptGap(gap))
  {
    assert IsSpace('\n');
    hide IsSpace, LineEnds;
    IndentIsSpace(gap);
  }

  lemma {:induction false} IndentIsSpace(gap: string)
    requires AllSpace(gap)
    ensures AllSpace(Indent(gap))
  {
    hide IsSpace;
    if LineEnds(gap) != 0 {
      IndentIsSpace(gap[1..]);
    }
  }

  /** Normalising a text is rebuilding it from its visible characters, whatever passes it
      takes: every stretch of whitespace between two of them becomes what is kept of it, and
      the whitespace around the text goes. */
  lemma NormalizingRespaces(t: string)
    ensures NormalizeText(t) == Respaced(t)
  {
    hide NormalizeText, Passes, KeptGap, IsSpace, Tail, Strip, Visible, RespacedRest;
    PassesBeforeStrip(t);
    var i := Lead(t);
    if i == |t| {
      BlankStaysBlank(t);
      StripKeepsTheMiddle(Passes(t));
    } else {
      NextVisible(t);
      KeptGapIsSpace(t[..i]);
      StripFrom(KeptGap(t[..i]), [t[i]], Passes(t[i + 1..]));
      RestIsRespaced(t[i + 1..]);
    }
  }

  /** So between two neighbouring visible characters exactly the kept part of the whitespace
      stays, wherever they stand; and as many visible characters come before and after. */
  lemma GapBetween(a: string, x: char, gap: string, y: char, b: string) returns (a': string, b': string)
    requires !IsSpace(x) && AllSpace(gap) && !IsSpace(y)
    ensures NormalizeText(a + [x] + gap + [y] + b) == a' + [x] + KeptGap(gap) + [y] + b'
    ensures Visible(a') == Visible(a) && Visible(b') == Visible(b)
  {
    hide NormalizeText, Passes, KeptGap, IsSpace, Tail, Lead, Strip, Visible;
    var t, left := a + [x] + gap + [y] + b, Passes(a + [x]);
    PassesBeforeStrip(t);
    assert t == (a + [x]) + ((gap + [y]) + b);
    PassesParts(a + [x], (gap + [y]) + b);
    PassesParts(gap + [y], b);
    PassesOnGap(gap, y);
    var p := left[..|left| - 1];
    assert left == p + [x];
    a', b' := p[Lead(p)..], RStrip(Passes(b));
    VisibleLeft(a, x, p);
    VisibleRight(b);
    assert p == p[..Lead(p)] + a';
    var core := a' + [x] + KeptGap(gap) + [y];
    assert core[0] == if a' == "" then x else p[Lead(p)];
    StripFrom(p[..Lead(p)], core, Passes(b));
    assert p[..Lead(p)] + core + Passes(b) == left + ((KeptGap(gap) + [y]) + Passes(b));
  }

  lemma VisibleLeft(a: string, x: char, p: string)
    requires !IsSpace(x) && Passes(a + [x]) == p + [x]
    ensures Visible(p[Lead(p)..]) == Visible(a)
  {
    hide Passes, IsSpace, Visible;
    VisiblePasses(a + [x]);
    VisibleParts(a, [x]);
    VisibleParts(p, [x]);
    OneVisible(x);
    assert Visible(p) == (Visible(p) + [x])[..|Visible(p)|] == (Visible(a) + [x])[..|Visible(a)|] == Visible(a);
    assert p == p[..Lead(p)] + p[Lead(p)..];
    VisibleParts(p[..Lead(p)], p[Lead(p)..]);
    SpaceIsInvisible(p[..Lead(p)]);
  }

  lemma OneVisible(x: char)
    requires !IsSpace(x)
    ensures Visible([x]) == [x]
  {
    assert [x][1..] == "";
  }

  lemma VisibleRight(b: string)
    ensures Visible(RStrip(Passes(b))) == Visible(b)
  {
    hide Passes, IsSpace, Visible;
    var q := Passes(b);
    VisiblePasses(b);
    assert q == q[..Tail(q)] + q[Tail(q)..];
    VisibleParts(q[..Tail(q)], q[Tail(q)..]);
    SpaceIsInvisible(q[Tail(q)..]);
  }
}
