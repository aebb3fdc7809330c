/** What the chunks of a document promise: backend/app/services/ai/chunking.py. */
module ChunkingTheorems {
  import opened Arithmetic
  import opened Text
  import opened TextNormalization
  import opened Chunking

  // ---------------------------------------------------------------------------
  // Where a chunk lies
  // ---------------------------------------------------------------------------

  /** The content of the chunk stands in the text at `from`. */
  predicate StandsAt(text: string, c: Chunk, from: int) {
    0 <= from <= from + |c.content| <= |text| && text[from..from + |c.content|] == c.content
  }

  /** The chunk covers `text[a..b]` where it stands. */
  ghost predicate Covers(text: string, c: Chunk, a: int, b: int) {
    exists from :: StandsAt(text, c, from) && from <= a <= b <= from + |c.content|
  }

  ghost predicate SomeCovers(text: string, chunks: seq<Chunk>, a: int, b: int) {
    exists i :: 0 <= i < |chunks| && Covers(text, chunks[i], a, b)
  }

  /** A trimmed, non-empty, contiguous piece of the text, no longer than `size`. */
  ghost predicate WellCut(text: string, c: Chunk, size: nat) {
    && c.content != "" && Trimmed(c.content) && |c.content| <= size
    && exists from :: StandsAt(text, c, from)
  }

  lemma PieceStands(text: string, window: Span, n: nat)
    requires window.start <= window.end <= |text|
    ensures var piece := Piece(text, window, n);
            var w := text[window.start..window.end];
            piece != [] ==>
              && |piece| == 1 && piece[0].index == n && WellCut(text, piece[0], window.end - window.start)
              && Lead(w) < Tail(w) && StandsAt(text, piece[0], window.start + Lead(w))
              && |piece[0].content| == Tail(w) - Lead(w)
  {
    hide Lead, Tail, IsSpace, Strip, StandsAt;
    var w := text[window.start..window.end];
    if Strip(w) != "" {
      StrippedStands(text, window.start, window.end, n);
    }
  }

  lemma StrippedStands(text: string, start: nat, end: nat, n: nat)
    requires start <= end <= |text| && Strip(text[start..end]) != ""
    ensures var w := text[start..end];
            && Lead(w) < Tail(w) && |Strip(w)| == Tail(w) - Lead(w) && Trimmed(Strip(w))
            && StandsAt(text, Chunk(n, Strip(w)), start + Lead(w))
  {
    hide Lead, Tail, IsSpace, Strip, AllSpace;
    var w := text[start..end];
    StripKeepsTheMiddle(w);
    SliceOfSlice(text, start, end, Lead(w), Tail(w));
  }

  lemma SliceOfSlice(text: string, start: nat, end: nat, i: nat, j: nat)
    requires start <= end <= |text| && i <= j <= end - start
    ensures text[start..end][i..j] == text[start + i..start + j]
  {
    var part := text[start..end];
    assert forall x :: 0 <= x < j - i ==> part[i..j][x] == part[i + x];
  }

  lemma {:induction false} CollectedChunks(text: string, windows: seq<Span>, n: nat, size: nat)
    requires Within(text, windows)
    requires forall i :: 0 <= i < |windows| ==> windows[i].end - windows[i].start <= size
    ensures var chunks := Collect(text, windows, n);
            && |chunks| <= |windows|
            && forall i :: 0 <= i < |chunks| ==> chunks[i].index == n + i && WellCut(text, chunks[i], size)
  {
    hide Piece;
    if windows != [] {
      PieceStands(text, windows[0], n);
      var piece := Piece(text, windows[0], n);
      CollectedChunks(text, windows[1..], n + |piece|, size);
    }
  }

  /** Every chunk is a trimmed, non-empty, contiguous piece of the cleaned text, no longer
      than the size asked for, and they are numbered 0, 1, 2 and so on. */
  lemma ChunksAreWellCut(text: string, size: nat, overlap: nat)
    requires overlap < size && Trimmed(text)
    ensures var chunks := ChunksOf(text, size, overlap);
            forall i :: 0 <= i < |chunks| ==> chunks[i].index == i && WellCut(text, chunks[i], size)
  {
    if |text| > size {
      WindowsFit(text, 0, size, overlap);
      CollectedChunks(text, Windows(text, 0, size, overlap), 0, size);
    } else {
      assert StandsAt(text, Chunk(0, text), 0);
    }
  }

  // ---------------------------------------------------------------------------
  // Passages
  // ---------------------------------------------------------------------------

  /** `text[a..b]` starts and ends on something other than whitespace. */
  predicate IsPassage(text: string, a: int, b: int) {
    0 <= a < b <= |text| && !IsSpace(text[a]) && !IsSpace(text[b - 1])
  }

  lemma PieceCovers(text: string, window: Span, n: nat, a: int, b: int)
    requires window.start <= a && b <= window.end <= |text| && IsPassage(text, a, b)
    ensures Piece(text, window, n) != [] && Covers(text, Piece(text, window, n)[0], a, b)
  {
    var w := text[window.start..window.end];
    assert w[a - window.start] == text[a] && w[b - 1 - window.start] == text[b - 1];
    assert Lead(w) <= a - window.start && b - window.start <= Tail(w);
    assert Strip(w) != "";
    PieceStands(text, window, n);
  }

  lemma {:induction false} CollectCovers(text: string, windows: seq<Span>, n: nat, i: nat, a: int, b: int)
    requires Within(text, windows) && i < |windows|
    requires windows[i].start <= a && b <= windows[i].end && IsPassage(text, a, b)
    ensures SomeCovers(text, Collect(text, windows, n), a, b)
  {
    hide Piece, Covers, IsPassage;
    var piece := Piece(text, windows[0], n);
    var rest := Collect(text, windows[1..], n + |piece|);
    if i == 0 {
      PieceCovers(text, windows[0], n, a, b);
      assert Collect(text, windows, n)[0] == piece[0];
    } else {
      CollectCovers(text, windows[1..], n + |piece|, i - 1, a, b);
      var k :| 0 <= k < |rest| && Covers(text, rest[k], a, b);
      assert Collect(text, windows, n)[|piece| + k] == rest[k];
    }
  }

  /** The next window still starts at or before a passage this one cuts. */
  lemma CutPassageIsKept(text: string, start: nat, size: nat, overlap: nat, a: int, b: int)
    requires overlap < size && overlap < Max(2, size / 2) && start <= a
    requires IsPassage(text, a, b) && b - a <= overlap + 1
    ensures var end := CutEnd(text, start, size);
            b <= end || (end < |text| && Max(end - overlap, start + 1) <= a)
  {
    hide CutEnd, IsSpace;
    var end := CutEnd(text, start, size);
    assert b == end + 1 ==> text[b - 1] == text[end];
  }

  lemma {:induction false} PassageInAWindow(text: string, start: nat, size: nat, overlap: nat, a: int, b: int)
      returns (i: nat)
    requires overlap < size && overlap < Max(2, size / 2) && start <= a
    requires IsPassage(text, a, b) && b - a <= overlap + 1
    ensures var windows := Windows(text, start, size, overlap);
            i < |windows| && windows[i].start <= a && b <= windows[i].end
    decreases |text| - start
  {
    hide CutEnd, IsSpace;
    var end := CutEnd(text, start, size);
    CutPassageIsKept(text, start, size, overlap, a, b);
    if b <= end {
      i := 0;
    } else {
      var j := PassageInAWindow(text, Max(end - overlap, start + 1), size, overlap, a, b);
      i := j + 1;
    }
  }

  /** No short passage is torn apart: one chunk covers all of it, where it stands. */
  lemma PassagesSurvive(text: string, size: nat, overlap: nat, a: int, b: int)
    requires overlap < size && overlap < Max(2, size / 2)
    requires IsPassage(text, a, b) && b - a <= overlap + 1
    ensures SomeCovers(text, ChunksOf(text, size, overlap), a, b)
  {
    if |text| <= size {
      assert StandsAt(text, Chunk(0, text), 0);
      assert Covers(text, ChunksOf(text, size, overlap)[0], a, b);
    } else {
      hide IsPassage;
      var i := PassageInAWindow(text, 0, size, overlap, a, b);
      WindowsFit(text, 0, size, overlap);
      CollectCovers(text, Windows(text, 0, size, overlap), 0, i, a, b);
    }
  }

  lemma {:induction false} PositionInAWindow(text: string, start: nat, size: nat, overlap: nat, p: int)
      returns (i: nat)
    requires overlap < size && start <= p < |text|
    ensures var windows := Windows(text, start, size, overlap);
            i < |windows| && windows[i].start <= p < windows[i].end
    decreases |text| - start
  {
    hide CutEnd;
    var end := CutEnd(text, start, size);
    if p < end {
      i := 0;
    } else {
      var j := PositionInAWindow(text, Max(end - overlap, start + 1), size, overlap, p);
      i := j + 1;
    }
  }

  /** Nothing is skipped, whatever the overlap: some chunk covers every position that is not
      whitespace. */
  lemma NothingIsSkipped(text: string, size: nat, overlap: nat, p: nat)
    requires overlap < size && p < |text| && !IsSpace(text[p])
    ensures SomeCovers(text, ChunksOf(text, size, overlap), p, p + 1)
  {
    if |text| <= size {
      assert StandsAt(text, Chunk(0, text), 0);
      assert Covers(text, ChunksOf(text, size, overlap)[0], p, p + 1);
    } else {
      var i := PositionInAWindow(text, 0, size, overlap, p);
      WindowsFit(text, 0, size, overlap);
      CollectCovers(text, Windows(text, 0, size, overlap), 0, i, p, p + 1);
    }
  }

  // ---------------------------------------------------------------------------
  // Exactly when passages survive
  // ---------------------------------------------------------------------------

  predicate ReadsAt(s: string, k: int, passage: string) {
    0 <= k <= |s| - |passage| && s[k..k + |passage|] == passage
  }

  /** The passage can be read in full somewhere in the chunk. */
  ghost predicate Holds(c: Chunk, passage: string) {
    exists k :: ReadsAt(c.content, k, passage)
  }

  ghost predicate SomeHolds(chunks: seq<Chunk>, passage: string) {
    exists i :: 0 <= i < |chunks| && Holds(chunks[i], passage)
  }

  /** Of every normalised text, every passage of at most `overlap + 1` characters is in a chunk. */
  ghost predicate KeepsPassages(size: nat, overlap: nat)
    requires overlap < size
  {
    forall text, a, b :: Normal(text) && IsPassage(text, a, b) && b - a <= overlap + 1 ==>
      SomeHolds(ChunksOf(text, size, overlap), text[a..b])
  }

  lemma CoveredIsHeld(text: string, chunks: seq<Chunk>, a: int, b: int)
    requires 0 <= a <= b <= |text| && SomeCovers(text, chunks, a, b)
    ensures SomeHolds(chunks, text[a..b])
  {
    var i :| 0 <= i < |chunks| && Covers(text, chunks[i], a, b);
    var c := chunks[i];
    var from :| StandsAt(text, c, from) && from <= a <= b <= from + |c.content|;
    SliceOfSlice(text, from, from + |c.content|, a - from, b - from);
    assert ReadsAt(c.content, a - from, text[a..b]);
  }

  /** `r - 1` dots, a space and letters: a window over it is cut after `r` characters. */
  function Torn(r: nat, n: nat): (text: string)
    requires 2 <= r < n
    ensures |text| == n
    ensures forall x :: 0 <= x < n ==> text[x] == if x < r - 1 then '.' else if x == r - 1 then ' ' else 'x'
  {
    seq(n, x requires 0 <= x => if x < r - 1 then '.' else if x == r - 1 then ' ' else 'x')
  }

  lemma TornIsNormal(r: nat, n: nat)
    requires 2 <= r < n
    ensures Normal(Torn(r, n)) && IsPassage(Torn(r, n), 0, r + 1)
  {
  }

  lemma TornBoundary(w: string, r: nat)
    requires 2 <= r < |w| && |w| / 2 <= r
    requires forall x :: 0 <= x < |w| ==> w[x] == if x < r - 1 then '.' else if x == r - 1 then ' ' else 'x'
    ensures LastBoundary(w) == r
  {
    LastParagraphIsLast(w, 0, -1);
    LastSentenceIsLast(w, 0, -1);
    hide LastParagraph, LastSentence;
    assert IsSentenceGap(w, r - 1, r);
    forall s, e | IsSentenceGap(w, s, e) ensures e == r {
      assert IsSpace(w[e - 1]);
    }
  }

  lemma TornIsCut(r: nat, size: nat)
    requires r == Max(2, size / 2) && r < size
    ensures CutEnd(Torn(r, size + 1), 0, size) == r
  {
    hide LastBoundary, Torn;
    TornBoundary(Torn(r, size + 1)[0..size], r);
  }

  lemma PieceTornApart(r: nat, length: nat, window: Span, n: nat)
    requires 2 <= r < length && window.start <= window.end <= length
    requires window.start >= 1 || window.end - window.start <= r
    ensures var text := Torn(r, length);
            var piece := Piece(text, window, n);
            piece != [] ==> !Holds(piece[0], text[0..r + 1])
  {
    hide Piece, Torn, IsSpace, Lead, Tail, WellCut, ReadsAt;
    var text := Torn(r, length);
    PieceStands(text, window, n);
    var piece := Piece(text, window, n);
    if piece != [] {
      var from := window.start + Lead(text[window.start..window.end]);
      var passage := text[0..r + 1];
      forall k ensures !ReadsAt(piece[0].content, k, passage) {
        CutTornApart(r, length, piece[0].content, from, k);
      }
    }
  }

  /** Away from its start the text has no place that reads like its start up to the gap. */
  lemma CutTornApart(r: nat, length: nat, content: string, from: nat, k: int)
    requires 2 <= r < length && from + |content| <= length && (from >= 1 || |content| <= r)
    requires content == Torn(r, length)[from..from + |content|]
    ensures !ReadsAt(content, k, Torn(r, length)[0..r + 1])
  {
    hide Torn;
    var text := Torn(r, length);
    var passage := text[0..r + 1];
    assert passage[r - 1] == ' ';
    if 0 <= k <= |content| - (r + 1) {
      assert content[k..k + |passage|][r - 1] == content[k + r - 1] == text[from + k + r - 1];
    }
  }

  lemma {:induction false} CollectTornApart(r: nat, length: nat, windows: seq<Span>, n: nat)
    requires 2 <= r < length && Within(Torn(r, length), windows)
    requires forall i :: 0 <= i < |windows| ==>
               windows[i].start <= windows[i].end && (windows[i].start >= 1 || windows[i].end - windows[i].start <= r)
    ensures var text := Torn(r, length);
            !SomeHolds(Collect(text, windows, n), text[0..r + 1])
  {
    hide Piece, Torn, Holds;
    if windows != [] {
      var text := Torn(r, length);
      var piece := Piece(text, windows[0], n);
      PieceTornApart(r, length, windows[0], n);
      PieceStands(text, windows[0], n);
      CollectTornApart(r, length, windows[1..], n + |piece|);
      NoneHolds(piece, Collect(text, windows[1..], n + |piece|), text[0..r + 1]);
    }
  }

  lemma NoneHolds(first: seq<Chunk>, rest: seq<Chunk>, passage: string)
    requires !SomeHolds(first, passage) && !SomeHolds(rest, passage)
    ensures !SomeHolds(first + rest, passage)
  {
    hide Holds;
    forall i | 0 <= i < |first + rest| ensures !Holds((first + rest)[i], passage) {
      assert i >= |first| ==> (first + rest)[i] == rest[i - |first|];
    }
  }

  /** The first window of the torn text ends at the cut; all others start after its first dot. */
  lemma TornWindows(size: nat, overlap: nat)
    requires Max(2, size / 2) <= overlap < size
    ensures var r := Max(2, size / 2);
            var windows := Windows(Torn(r, size + 1), 0, size, overlap);
            && Within(Torn(r, size + 1), windows)
            && forall i :: 0 <= i < |windows| ==> windows[i].start >= 1 || windows[i].end - windows[i].start <= r
  {
    var r := Max(2, size / 2);
    var text := Torn(r, size + 1);
    TornIsCut(r, size);
    hide Torn, CutEnd;
    WindowsFit(text, 0, size, overlap);
    WindowsFit(text, 1, size, overlap);
    assert Windows(text, 0, size, overlap) == [Span(0, r)] + Windows(text, 1, size, overlap);
  }

  /** No chunk of the torn text holds the passage that runs one character past the cut. */
  lemma TornApart(size: nat, overlap: nat)
    requires Max(2, size / 2) <= overlap < size
    ensures var r := Max(2, size / 2);
            var text := Torn(r, size + 1);
            !SomeHolds(ChunksOf(text, size, overlap), text[0..r + 1])
  {
    hide Torn, Windows, Collect, SomeHolds;
    var r := Max(2, size / 2);
    TornWindows(size, overlap);
    CollectTornApart(r, size + 1, Windows(Torn(r, size + 1), 0, size, overlap), 0);
  }

  /** The documented promise, that a fact spanning a boundary is retrievable, holds of passages
      up to one more than the overlap exactly when the overlap is small enough. */
  lemma PassagesSurviveIff(size: nat, overlap: nat)
    requires overlap < size
    ensures KeepsPassages(size, overlap) <==> overlap < Max(2, size / 2)
  {
    hide IsSpace, Normal, Torn, ChunksOf, SomeHolds, SomeCovers;
    if overlap < Max(2, size / 2) {
      forall text, a, b | Normal(text) && IsPassage(text, a, b) && b - a <= overlap + 1
        ensures SomeHolds(ChunksOf(text, size, overlap), text[a..b])
      {
        PassagesSurvive(text, size, overlap, a, b);
        CoveredIsHeld(text, ChunksOf(text, size, overlap), a, b);
      }
    } else {
      var r := Max(2, size / 2);
      TornIsNormal(r, size + 1);
      TornApart(size, overlap);
    }
  }

  // ---------------------------------------------------------------------------
  // How many chunks
  // ---------------------------------------------------------------------------

  lemma {:induction false} WindowsSpread(text: string, start: nat, size: nat, overlap: nat)
    requires overlap < size / 2 && start < |text|
    ensures (|Windows(text, start, size, overlap)| - 1) * (size / 2 - overlap) <= |text| - 1 - start
    decreases |text| - start
  {
    hide CutEnd, Windows;
    var end := CutEnd(text, start, size);
    OneWindowMore(text, start, size, overlap);
    if end < |text| {
      var next := Max(end - overlap, start + 1);
      WindowsSpread(text, next, size, overlap);
      var count, step := |Windows(text, next, size, overlap)|, size / 2 - overlap;
      OneMoreStep(count, step, |text| - 1 - next, |text| - 1 - start);
    }
  }

  lemma OneWindowMore(text: string, start: nat, size: nat, overlap: nat)
    requires overlap < size && start < |text|
    ensures var end := CutEnd(text, start, size);
            |Windows(text, start, size, overlap)| ==
            if end >= |text| then 1 else 1 + |Windows(text, Max(end - overlap, start + 1), size, overlap)|
  {
    hide CutEnd;
  }

  lemma OneMoreStep(count: nat, step: nat, span: int, longer: int)
    requires (count - 1) * step <= span && span + step <= longer
    ensures count * step <= longer
  {
    assert count * step == (count - 1) * step + step;
  }

  lemma WindowsAreFew(text: string, size: nat, overlap: nat)
    requires overlap < size / 2 && text != ""
    ensures |Windows(text, 0, size, overlap)| <= (|text| - 1) / (size / 2 - overlap) + 1
  {
    hide Windows;
    WindowsSpread(text, 0, size, overlap);
    CountFromProduct(|Windows(text, 0, size, overlap)|, size / 2 - overlap, |text| - 1);
  }

  lemma OneOrMore(n: nat, d: nat)
    requires d > 0
    ensures n / d + 1 >= 1
  {
  }

  /** A document of `n` characters yields at most `(n - 1) / (size / 2 - overlap) + 1` chunks. */
  lemma ChunksAreFew(text: string, size: nat, overlap: nat)
    requires overlap < size / 2 && text != ""
    ensures |ChunksOf(text, size, overlap)| <= (|text| - 1) / (size / 2 - overlap) + 1
  {
    hide Windows, Collect;
    OneOrMore(|text| - 1, size / 2 - overlap);
    if |text| > size {
      var windows := Windows(text, 0, size, overlap);
      WindowsFit(text, 0, size, overlap);
      CollectedChunks(text, windows, 0, size);
      WindowsAreFew(text, size, overlap);
    }
  }

  // ---------------------------------------------------------------------------
  // Exactly when nothing is skipped
  // ---------------------------------------------------------------------------

  predicate IsVisible(text: string, p: int) { 0 <= p < |text| && !IsSpace(text[p]) }

  /** Of every normalised text, every visible position is in a chunk, where it stands. */
  ghost predicate SkipsNothing(size: int, overlap: int)
    requires overlap < size
  {
    forall text, p :: Normal(text) && IsVisible(text, p) ==> SomeCovers(text, ChunksOf(text, size, overlap), p, p + 1)
  }

  /** A last letter of its own after a window of others. */
  function Skipped(n: nat): (text: string)
    ensures |text| == n + 1
    ensures forall x :: 0 <= x <= n ==> text[x] == if x < n then 'x' else 'y'
  {
    seq(n + 1, x requires 0 <= x => if x < n then 'x' else 'y')
  }

  lemma NoBoundary(w: string)
    requires forall x :: 0 <= x < |w| ==> w[x] == 'x' || w[x] == 'y'
    ensures LastBoundary(w) == 0
  {
    LastParagraphIsLast(w, 0, -1);
    LastSentenceIsLast(w, 0, -1);
    hide LastParagraph, LastSentence;
    forall s, e ensures !IsSentenceGap(w, s, e) {
      assert 0 < s <= |w| ==> !EndsSentence(w[s - 1]);
    }
  }

  /** With a negative overlap the loop steps over what lies just behind a window. */
  lemma NegativeOverlapSkips(size: nat, overlap: int)
    requires overlap < 0
    ensures var text := Skipped(size);
            !SomeCovers(text, ChunksOf(text, size, overlap), size, size + 1)
  {
    var text := Skipped(size);
    NoBoundary(Slice(text, 0, size));
    assert CutEnd(text, 0, size) == size;
    hide Slice, CutEnd;
    assert Windows(text, 0, size, overlap) == [Span(0, size)];
    OneWindow(text, Span(0, size));
    OnlyLettersBefore(text, size, size);
  }

  lemma OneWindow(text: string, window: Span)
    ensures Collect(text, [window], 0) == Piece(text, window, 0)
  {
    assert [window][1..] == [];
  }

  /** A piece that stands among the first letters stands nowhere across the last one. */
  lemma LettersStandApart(n: nat, c: Chunk, at: int, from: int)
    requires StandsAt(Skipped(n), c, at) && at + |c.content| <= n
    ensures !(StandsAt(Skipped(n), c, from) && from <= n < from + |c.content|)
  {
    var text := Skipped(n);
    hide Skipped;
    if 0 <= from <= n < from + |c.content| <= |text| {
      assert text[at..at + |c.content|][n - from] == text[at + n - from];
      assert text[from..from + |c.content|][n - from] == text[n];
    }
  }

  /** What the only window holds stops short of the last letter. */
  lemma OnlyLettersBefore(text: string, n: nat, size: nat)
    requires text == Skipped(n) && n == size
    ensures !SomeCovers(text, Piece(text, Span(0, size), 0), n, n + 1)
  {
    var piece := Piece(text, Span(0, size), 0);
    PieceStands(text, Span(0, size), 0);
    hide Piece, StandsAt, Skipped, Lead, Tail;
    if piece != [] {
      forall from ensures !(StandsAt(text, piece[0], from) && from <= n < n + 1 <= from + |piece[0].content|) {
        LettersStandApart(n, piece[0], Lead(text[0..size]), from);
      }
    }
  }

  /** A window of no or negative size holds nothing of a text of one letter. */
  lemma NoSizeSkips(size: int, overlap: int)
    requires overlap < size <= 0
    ensures ChunksOf("x", size, overlap) == []
  {
    var text := "x";
    assert Slice(text, 0, size) == "";
    assert LastBoundary("") == 0;
    assert CutEnd(text, 0, size) == size;
    assert Windows(text, 0, size, overlap) == [Span(0, size)];
    OneWindow(text, Span(0, size));
    assert Strip("") == "";
  }

  /** Nothing is skipped exactly if the overlap is not negative. */
  lemma NothingIsSkippedIff(size: int, overlap: int)
    requires overlap < size
    ensures SkipsNothing(size, overlap) <==> overlap >= 0
  {
    hide ChunksOf, Normal, SomeCovers, IsSpace;
    if overlap >= 0 {
      forall text, p | Normal(text) && IsVisible(text, p)
        ensures SomeCovers(text, ChunksOf(text, size, overlap), p, p + 1)
      {
        NothingIsSkipped(text, size, overlap, p);
      }
    } else if size > 0 {
      SkippedIsNormal(size);
      NegativeOverlapSkips(size, overlap);
    } else {
      LetterIsNormal();
      NoSizeSkips(size, overlap);
      NothingCovers("x", 0, 1);
    }
  }

  lemma SkippedIsNormal(n: nat)
    ensures Normal(Skipped(n)) && IsVisible(Skipped(n), n)
  {
  }

  lemma LetterIsNormal()
    ensures Normal("x") && IsVisible("x", 0)
  {
  }

  lemma NothingCovers(text: string, a: int, b: int)
    ensures !SomeCovers(text, [], a, b)
  {
  }
}
