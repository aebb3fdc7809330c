/** The whitespace clean-up every knowledge-base document goes through:
    `normalize_text` of backend/app/services/ai/chunking.py. */
module TextNormalization {
  import opened Text

  // ---------------------------------------------------------------------------
  // The four passes
  // ---------------------------------------------------------------------------

  /** `text.replace("\r\n", "\n")`. */
  function ReplaceCrLf(t: string): string {
    if |t| < 2 then t
    else if t[0] == '\r' && t[1] == '\n' then ['\n'] + ReplaceCrLf(t[2..])
    else [t[0]] + ReplaceCrLf(t[1..])
  }

  /** `text.replace("\r", "\n")`. */
  function ReplaceCr(t: string): (r: string)
    ensures |r| == |t|
    ensures forall i :: 0 <= i < |t| ==> r[i] == if t[i] == '\r' then '\n' else t[i]
  {
    if t == "" then "" else [if t[0] == '\r' then '\n' else t[0]] + ReplaceCr(t[1..])
  }

  /** `text.split("\n")`. */
  function Split(t: string): (lines: seq<string>)
    ensures lines != []
    ensures forall i, j :: 0 <= i < |lines| && 0 <= j < |lines[i]| ==> lines[i][j] != '\n'
  {
    if t == "" then [""]
    else
      var rest := Split(t[1..]);
      if t[0] == '\n' then [""] + rest else [[t[0]] + rest[0]] + rest[1..]
  }

  /** `[line.rstrip() for line in lines]`. */
  function StripLines(lines: seq<string>): (r: seq<string>)
    ensures |r| == |lines|
    ensures forall i :: 0 <= i < |lines| ==> r[i] == RStrip(lines[i])
  {
    if lines == [] then [] else [RStrip(lines[0])] + StripLines(lines[1..])
  }

  /** `re.sub(r"\n{3,}", "\n\n", t)`: of a longer run of newlines two stay. */
  function CollapseNewlines(t: string): string {
    if t == "" then ""
    else
      var rest := CollapseNewlines(t[1..]);
      if t[0] == '\n' && |rest| >= 2 && rest[0] == '\n' && rest[1] == '\n' then rest else [t[0]] + rest
  }

  function NormalizeText(t: string): string {
    Strip(CollapseNewlines(Join('\n', StripLines(Split(ReplaceCr(ReplaceCrLf(t)))))))
  }

  // ---------------------------------------------------------------------------
  // What a normal text is
  // ---------------------------------------------------------------------------

  predicate NoReturns(t: string) { '\r' !in t }

  /** No line ends with whitespace. */
  predicate LinesTrimmed(t: string) {
    forall i :: 0 <= i < |t| && IsSpace(t[i]) && t[i] != '\n' ==> i + 1 < |t| && t[i + 1] != '\n'
  }

  predicate NoRuns(t: string) {
    forall i :: 0 <= i < |t| - 2 ==> t[i] != '\n' || t[i + 1] != '\n' || t[i + 2] != '\n'
  }

  predicate Trimmed(t: string) { t == "" || (!IsSpace(t[0]) && !IsSpace(t[|t| - 1])) }

  predicate Normal(t: string) { NoReturns(t) && LinesTrimmed(t) && NoRuns(t) && Trimmed(t) }

  // ---------------------------------------------------------------------------
  // Line trimming, one character at a time
  // ---------------------------------------------------------------------------

  /** The same as splitting, stripping and joining: whitespace goes when nothing but a
      newline or the end follows it. */
  function TrimLines(t: string): string {
    if t == "" then ""
    else
      var rest := TrimLines(t[1..]);
      if IsSpace(t[0]) && t[0] != '\n' && (rest == "" || rest[0] == '\n') then rest else [t[0]] + rest
  }

  lemma RStripCons(c: char, s: string)
    ensures RStrip([c] + s) ==
            if RStrip(s) != "" then [c] + RStrip(s) else if IsSpace(c) then "" else [c]
  {
    var t := [c] + s;
    if Tail(s) > 0 {
      assert !IsSpace(t[Tail(s)]);
      assert Tail(t) == Tail(s) + 1;
    } else {
      assert t[0] == c && forall i :: 1 <= i < |t| ==> t[i] == s[i - 1];
      assert Tail(t) == if IsSpace(c) then 0 else 1;
    }
  }

  lemma StripLinesHead(line: string, rest: seq<string>)
    ensures StripLines([line] + rest) == [RStrip(line)] + StripLines(rest)
  {
  }

  function Tailed(first: string, more: seq<string>): string {
    if more == [] then first else first + ['\n'] + Join('\n', more)
  }

  lemma JoinIsTailed(first: string, more: seq<string>)
    ensures Join('\n', [first] + more) == Tailed(first, more)
  {
    assert ([first] + more)[1..] == more;
  }

  lemma TailedCons(c: char, first: string, more: seq<string>)
    requires '\n' !in first
    ensures Tailed([c] + first, more) == [c] + Tailed(first, more)
    ensures Tailed(first, more) == "" || Tailed(first, more)[0] == '\n' <==> first == ""
  {
    if more != [] {
      assert [c] + first + ['\n'] + Join('\n', more) == [c] + (first + ['\n'] + Join('\n', more));
    }
  }

  lemma JoinAfterNewline(rest: seq<string>)
    requires rest != []
    ensures Join('\n', StripLines([""] + rest)) == ['\n'] + Join('\n', StripLines(rest))
  {
    hide IsSpace, Tail, Join, StripLines;
    StripLinesHead("", rest);
    JoinIsTailed("", StripLines(rest));
    assert [RStrip("")] == [""];
  }

  /** A character in front of the first line goes exactly when it is whitespace and the rest
      of that line goes too. */
  lemma JoinAfterChar(c: char, first: string, rest: seq<string>)
    requires '\n' !in first
    ensures var kept := Join('\n', StripLines([first] + rest));
            Join('\n', StripLines([[c] + first] + rest)) ==
            if IsSpace(c) && (kept == "" || kept[0] == '\n') then kept else [c] + kept
  {
    RStripCons(c, first);
    hide Join, IsSpace, Tail, Tailed;
    StripLinesHead(first, rest);
    StripLinesHead([c] + first, rest);
    JoinIsTailed(RStrip(first), StripLines(rest));
    JoinIsTailed(RStrip([c] + first), StripLines(rest));
    TailedCons(c, RStrip(first), StripLines(rest));
    assert RStrip(first) == "" ==> [c] + RStrip(first) == [c];
  }

  lemma {:induction false} LinesAreTrimmedInPlace(t: string)
    ensures Join('\n', StripLines(Split(t))) == TrimLines(t)
  {
    hide IsSpace;
    if t != "" {
      LinesAreTrimmedInPlace(t[1..]);
      if t[0] == '\n' {
        JoinAfterNewline(Split(t[1..]));
      } else {
        var rest := Split(t[1..]);
        JoinAfterChar(t[0], rest[0], rest[1..]);
        assert [rest[0]] + rest[1..] == rest;
      }
    }
  }

  // ---------------------------------------------------------------------------
  // Each pass establishes its part and keeps the parts before it
  // ---------------------------------------------------------------------------

  lemma {:induction false} TrimLinesTrims(t: string)
    ensures LinesTrimmed(TrimLines(t))
    ensures NoReturns(t) ==> NoReturns(TrimLines(t))
  {
    if t != "" {
      TrimLinesTrims(t[1..]);
    }
  }

  lemma {:induction false} TrimLinesFixes(t: string)
    requires LinesTrimmed(t)
    ensures TrimLines(t) == t
  {
    if t != "" {
      assert LinesTrimmed(t[1..]) by {
        forall i | 0 <= i < |t[1..]| && IsSpace(t[1..][i]) && t[1..][i] != '\n'
          ensures i + 1 < |t[1..]| && t[1..][i + 1] != '\n'
        {
          assert t[i + 1] == t[1..][i];
        }
      }
      TrimLinesFixes(t[1..]);
    }
  }

  lemma {:induction false} CollapseKeepsFirst(t: string)
    ensures CollapseNewlines(t) == "" <==> t == ""
    ensures t != "" ==> CollapseNewlines(t)[0] == t[0]
  {
    if t != "" {
      CollapseKeepsFirst(t[1..]);
    }
  }

  lemma {:induction false} CollapseCollapses(t: string)
    ensures NoRuns(CollapseNewlines(t))
  {
    if t != "" {
      CollapseCollapses(t[1..]);
      var rest := CollapseNewlines(t[1..]);
      hide CollapseNewlines;
      assert !(t[0] == '\n' && |rest| >= 2 && rest[0] == '\n' && rest[1] == '\n') ==> NoRuns([t[0]] + rest);
    }
  }

  lemma {:induction false} CollapseKeepsCharacters(t: string)
    ensures forall c :: c in CollapseNewlines(t) ==> c in t
  {
    if t != "" {
      CollapseKeepsCharacters(t[1..]);
    }
  }

  lemma TrimmedCons(c: char, rest: string)
    requires LinesTrimmed(rest)
    requires IsSpace(c) && c != '\n' ==> rest != "" && rest[0] != '\n'
    ensures LinesTrimmed([c] + rest)
  {
    hide IsSpace;
    var t := [c] + rest;
    forall i | 0 <= i < |t| && IsSpace(t[i]) && t[i] != '\n' ensures i + 1 < |t| && t[i + 1] != '\n' {
      assert i > 0 ==> t[i] == rest[i - 1];
    }
  }

  lemma {:induction false} CollapseKeepsTrimmed(t: string)
    requires LinesTrimmed(t)
    ensures LinesTrimmed(CollapseNewlines(t))
  {
    if t != "" {
      hide IsSpace, LinesTrimmed;
      TailTrimmed(t);
      CollapseKeepsTrimmed(t[1..]);
      CollapseKeepsFirst(t[1..]);
      TrimmedCons(t[0], CollapseNewlines(t[1..]));
    }
  }

  lemma TailTrimmed(t: string)
    requires t != "" && LinesTrimmed(t)
    ensures LinesTrimmed(t[1..])
    ensures IsSpace(t[0]) && t[0] != '\n' ==> |t| > 1 && t[1] != '\n'
  {
    forall i | 0 <= i < |t[1..]| && IsSpace(t[1..][i]) && t[1..][i] != '\n'
      ensures i + 1 < |t[1..]| && t[1..][i + 1] != '\n'
    {
      assert t[i + 1] == t[1..][i];
    }
  }

  lemma {:induction false} CollapseFixes(t: string)
    requires NoRuns(t)
    ensures CollapseNewlines(t) == t
  {
    if t != "" {
      assert NoRuns(t[1..]) by {
        assert forall i :: 0 <= i < |t[1..]| ==> t[1..][i] == t[i + 1];
      }
      CollapseFixes(t[1..]);
      assert |t| > 2 ==> t[0] != '\n' || t[0 + 1] != '\n' || t[0 + 2] != '\n';
    }
  }

  lemma SliceKeeps(t: string, i: nat, j: nat)
    requires NoReturns(t) && LinesTrimmed(t) && NoRuns(t) && i < j <= |t|
    requires !IsSpace(t[j - 1])
    ensures NoReturns(t[i..j]) && LinesTrimmed(t[i..j]) && NoRuns(t[i..j])
  {
    hide IsSpace;
    var s := t[i..j];
    assert forall k :: 0 <= k < |s| ==> s[k] == t[i + k];
    forall k | 0 <= k < |s| && IsSpace(s[k]) && s[k] != '\n' ensures k + 1 < |s| && s[k + 1] != '\n' {
      assert t[i + k] == s[k];
    }
    forall k | 0 <= k < |s| - 2 ensures s[k] != '\n' || s[k + 1] != '\n' || s[k + 2] != '\n' {
      assert t[i + k] != '\n' || t[i + k + 1] != '\n' || t[i + k + 2] != '\n';
    }
  }

  lemma StripKeeps(t: string)
    requires NoReturns(t) && LinesTrimmed(t) && NoRuns(t)
    ensures Normal(Strip(t))
  {
    StripKeepsTheMiddle(t);
    hide Strip, IsSpace, LinesTrimmed, NoRuns, NoReturns;
    if Strip(t) != "" {
      SliceKeeps(t, Lead(t), Tail(t));
    } else {
      EmptyIsNormal();
    }
  }

  lemma EmptyIsNormal()
    ensures Normal("")
  {
  }

  lemma {:induction false} CrLfFixes(t: string)
    requires NoReturns(t)
    ensures ReplaceCrLf(t) == t
  {
    if |t| >= 2 {
      CrLfFixes(t[1..]);
    }
  }

  // ---------------------------------------------------------------------------
  // The theorems
  // ---------------------------------------------------------------------------

  lemma NormalizedIsNormal(t: string)
    ensures Normal(NormalizeText(t))
  {
    var unified := ReplaceCr(ReplaceCrLf(t));
    LinesAreTrimmedInPlace(unified);
    TrimLinesTrims(unified);
    CollapseCollapses(TrimLines(unified));
    CollapseKeepsCharacters(TrimLines(unified));
    CollapseKeepsTrimmed(TrimLines(unified));
    StripKeeps(CollapseNewlines(TrimLines(unified)));
  }

  /** The normal texts are exactly the ones normalisation leaves alone. */
  lemma FixedIffNormal(t: string)
    ensures NormalizeText(t) == t <==> Normal(t)
  {
    NormalizedIsNormal(t);
    if Normal(t) {
      CrLfFixes(t);
      assert ReplaceCr(t) == t;
      LinesAreTrimmedInPlace(t);
      TrimLinesFixes(t);
      CollapseFixes(t);
      StripIsIdentityOnTrimmed(t);
    }
  }

  lemma NormalizeIsIdempotent(t: string)
    ensures NormalizeText(NormalizeText(t)) == NormalizeText(t)
  {
    NormalizedIsNormal(t);
    FixedIffNormal(NormalizeText(t));
  }

  // ---------------------------------------------------------------------------
  // Nothing but whitespace is lost
  // ---------------------------------------------------------------------------

  /** The characters of a text that are not whitespace, in order. */
  function Visible(t: string): string {
    if t == "" then "" else if IsSpace(t[0]) then Visible(t[1..]) else [t[0]] + Visible(t[1..])
  }

  lemma {:induction false} VisibleAfterCrLf(t: string)
    ensures Visible(ReplaceCrLf(t)) == Visible(t)
  {
    if |t| >= 2 {
      if t[0] == '\r' && t[1] == '\n' {
        VisibleAfterCrLf(t[2..]);
        assert t[1..][1..] == t[2..];
      } else {
        VisibleAfterCrLf(t[1..]);
      }
    }
  }

  lemma {:induction false} VisibleAfterCr(t: string)
    ensures Visible(ReplaceCr(t)) == Visible(t)
  {
    if t != "" {
      VisibleAfterCr(t[1..]);
      assert ReplaceCr(t)[1..] == ReplaceCr(t[1..]);
    }
  }

  lemma {:induction false} VisibleAfterTrim(t: string)
    ensures Visible(TrimLines(t)) == Visible(t)
  {
    if t != "" {
      VisibleAfterTrim(t[1..]);
    }
  }

  lemma {:induction false} VisibleAfterCollapse(t: string)
    ensures Visible(CollapseNewlines(t)) == Visible(t)
  {
    if t != "" {
      VisibleAfterCollapse(t[1..]);
    }
  }

  lemma {:induction false} VisibleParts(s: string, t: string)
    ensures Visible(s + t) == Visible(s) + Visible(t)
  {
    hide IsSpace;
    if s == "" {
      assert s + t == t;
    } else {
      VisibleParts(s[1..], t);
      assert (s + t)[0] == s[0] && (s + t)[1..] == s[1..] + t;
      assert [s[0]] + (Visible(s[1..]) + Visible(t)) == [s[0]] + Visible(s[1..]) + Visible(t);
    }
  }

  lemma {:induction false} SpaceIsInvisible(s: string)
    requires AllSpace(s)
    ensures Visible(s) == ""
  {
    if s != "" {
      SpaceIsInvisible(s[1..]);
    }
  }

  lemma VisibleInTheMiddle(before: string, middle: string, after: string)
    requires AllSpace(before) && AllSpace(after)
    ensures Visible(before + middle + after) == Visible(middle)
  {
    hide Visible, AllSpace;
    VisibleParts(before, middle);
    VisibleParts(before + middle, after);
    SpaceIsInvisible(before);
    SpaceIsInvisible(after);
  }

  lemma VisibleAfterStrip(t: string)
    ensures Visible(Strip(t)) == Visible(t)
  {
    if Lead(t) == |t| {
      SpaceIsInvisible(t);
    } else {
      StripKeepsTheMiddle(t);
      hide Visible, Lead, Tail, Strip, IsSpace;
      var before, after := t[..Lead(t)], t[Tail(t)..];
      InThreeParts(t, Lead(t), Tail(t));
      VisibleInTheMiddle(before, Strip(t), after);
    }
  }

  /** Every character that is not whitespace survives, in its order. */
  lemma NormalizingKeepsTheText(t: string)
    ensures Visible(NormalizeText(t)) == Visible(t)
  {
    var unified := ReplaceCr(ReplaceCrLf(t));
    VisibleAfterCrLf(t);
    VisibleAfterCr(ReplaceCrLf(t));
    LinesAreTrimmedInPlace(unified);
    VisibleAfterTrim(unified);
    VisibleAfterCollapse(TrimLines(unified));
    VisibleAfterStrip(CollapseNewlines(TrimLines(unified)));
  }
}
