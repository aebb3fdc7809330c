/** Splitting a document into overlapping chunks: backend/app/services/ai/chunking.py. */
module Chunking {
  import opened Wrappers
  import opened Sequences
  import opened Text
  import opened TextNormalization

  datatype Chunk = Chunk(index: nat, content: string)

  datatype ChunkError = OverlapTooLarge

  // ---------------------------------------------------------------------------
  // Natural boundaries
  // ---------------------------------------------------------------------------

  predicate EndsSentence(c: char) { c == '.' || c == '!' || c == '?' }

  /** The end of the whitespace that starts at `i`. */
  function RunEnd(w: string, i: nat): (e: nat)
    requires i <= |w|
    ensures i <= e <= |w|
    ensures forall x :: i <= x < e ==> IsSpace(w[x])
    ensures e < |w| ==> !IsSpace(w[e])
    decreases |w| - i
  {
    if i < |w| && IsSpace(w[i]) then RunEnd(w, i + 1) else i
  }

  /** Just after the last newline in `w[i..j]`, or `i` if there is none. */
  function AfterLastNewline(w: string, i: nat, j: nat): (e: nat)
    requires i <= j <= |w|
    ensures i <= e <= j
    ensures i < e ==> w[e - 1] == '\n'
    ensures forall x :: e <= x < j ==> w[x] != '\n'
  {
    if i == j then i else if w[j - 1] == '\n' then j else AfterLastNewline(w, i, j - 1)
  }

  /** The end of the match of `\n\s*\n` at `i`, or `i` if there is none. */
  function ParagraphEnd(w: string, i: nat): (e: nat)
    requires i < |w|
    ensures i <= e <= |w|
  {
    var e := AfterLastNewline(w, i + 1, RunEnd(w, i + 1));
    if w[i] == '\n' && e > i + 1 then e else i
  }

  /** Where the last match of `\n\s*\n` from `i` on starts, or else `found`. */
  function LastParagraph(w: string, i: nat, found: int): int
    requires i <= |w|
    decreases |w| - i
  {
    if i == |w| then found
    else
      var e := ParagraphEnd(w, i);
      if e > i then LastParagraph(w, e, i) else LastParagraph(w, i + 1, found)
  }

  /** Where the last match of `(?<=[.!?])\s+` from `i` on ends, or else `found`. */
  function LastSentence(w: string, i: nat, found: int): int
    requires i <= |w|
    decreases |w| - i
  {
    if i == |w| then found
    else if i > 0 && EndsSentence(w[i - 1]) && IsSpace(w[i]) then LastSentence(w, RunEnd(w, i), RunEnd(w, i))
    else LastSentence(w, i + 1, found)
  }

  /** `w.rfind(" ")`. */
  function LastSpace(w: string): (r: int)
    ensures -1 <= r < |w|
    ensures r >= 0 ==> w[r] == ' '
    ensures forall x :: r < x < |w| ==> w[x] != ' '
  {
    if w == "" then -1 else if w[|w| - 1] == ' ' then |w| - 1 else LastSpace(w[..|w| - 1])
  }

  /** `_last_boundary`: the best place to break in the back half, or 0. */
  function LastBoundary(w: string): int {
    var half := |w| / 2;
    if LastParagraph(w, 0, -1) >= half then LastParagraph(w, 0, -1)
    else if LastSentence(w, 0, -1) >= half then LastSentence(w, 0, -1)
    else if LastSpace(w) >= half then LastSpace(w)
    else 0
  }

  // ---------------------------------------------------------------------------
  // What the boundaries are
  // ---------------------------------------------------------------------------

  /** `w[i..=j]` is whitespace. */
  predicate Blank(w: string, i: nat, j: nat)
    requires j < |w|
  {
    forall x :: i <= x <= j ==> IsSpace(w[x])
  }

  ghost predicate NewlineFollows(w: string, p: nat)
    requires p < |w|
  {
    exists q :: p < q < |w| && w[q] == '\n' && Blank(w, p, q)
  }

  ghost predicate NewlinePrecedes(w: string, p: nat)
    requires p < |w|
  {
    exists m :: 0 <= m < p && w[m] == '\n' && Blank(w, m, p)
  }

  /** A paragraph break: the first newline of a stretch of whitespace that holds another. */
  ghost predicate IsParagraphBreak(w: string, p: int) {
    0 <= p < |w| && w[p] == '\n' && NewlineFollows(w, p) && !NewlinePrecedes(w, p)
  }

  /** All the whitespace that follows a sentence mark. */
  ghost predicate IsSentenceGap(w: string, s: int, e: int) {
    && 0 < s < e <= |w| && (w[s - 1] == '.' || w[s - 1] == '!' || w[s - 1] == '?')
    && Blank(w, s, e - 1) && (e < |w| ==> !IsSpace(w[e]))
  }

  /** No newline before `i` shares its whitespace with one from `i` on. */
  ghost predicate Apart(w: string, i: nat) {
    forall m, q :: 0 <= m < i <= q < |w| && w[m] == '\n' && w[q] == '\n' ==> !Blank(w, m, q)
  }

  lemma SkippingKeepsApart(w: string, i: nat)
    requires i < |w| && Apart(w, i) && ParagraphEnd(w, i) == i
    ensures Apart(w, i + 1) && !IsParagraphBreak(w, i)
  {
    if w[i] == '\n' {
      forall q | i < q < |w| && w[q] == '\n' ensures !Blank(w, i, q) {
        assert q >= RunEnd(w, i + 1);
      }
    }
  }

  lemma MatchKeepsApart(w: string, i: nat)
    requires i < |w| && Apart(w, i) && ParagraphEnd(w, i) > i
    ensures Apart(w, ParagraphEnd(w, i)) && IsParagraphBreak(w, i)
    ensures forall p :: i < p < ParagraphEnd(w, i) ==> !IsParagraphBreak(w, p)
  {
    var e := ParagraphEnd(w, i);
    assert Blank(w, i, e - 1) && w[e - 1] == '\n';
    assert NewlineFollows(w, i);
    forall p | i < p < e ensures !IsParagraphBreak(w, p) {
      assert Blank(w, i, p);
    }
    forall m, q | 0 <= m < e <= q < |w| && w[m] == '\n' && w[q] == '\n' ensures !Blank(w, m, q) {
      assert m >= i ==> q >= RunEnd(w, i + 1);
      assert m < i ==> !Blank(w, m, e - 1);
    }
  }

  /** The scan finds the last paragraph break. */
  lemma {:induction false} LastParagraphIsLast(w: string, i: nat, found: int)
    requires i <= |w| && Apart(w, i)
    ensures var r := LastParagraph(w, i, found);
            && (r == found || (i <= r && IsParagraphBreak(w, r)))
            && (forall p :: i <= p && IsParagraphBreak(w, p) ==> p <= r && i <= r)
    decreases |w| - i
  {
    if i < |w| {
      if ParagraphEnd(w, i) > i {
        MatchKeepsApart(w, i);
        LastParagraphIsLast(w, ParagraphEnd(w, i), i);
      } else {
        SkippingKeepsApart(w, i);
        LastParagraphIsLast(w, i + 1, found);
      }
    }
  }

  /** The scan finds the end of the last sentence gap. */
  lemma {:induction false} LastSentenceIsLast(w: string, i: nat, found: int)
    requires found <= i <= |w|
    ensures var r := LastSentence(w, i, found);
            && (r == found || (i < r && exists s :: i <= s && IsSentenceGap(w, s, r)))
            && (forall s, e :: i <= s && IsSentenceGap(w, s, e) ==> e <= r)
    decreases |w| - i
  {
    if i < |w| {
      if i > 0 && EndsSentence(w[i - 1]) && IsSpace(w[i]) {
        var e := RunEnd(w, i);
        LastSentenceIsLast(w, e, e);
        assert IsSentenceGap(w, i, e);
        forall s, e' | i <= s && IsSentenceGap(w, s, e') ensures e' <= LastSentence(w, i, found) {
          assert s < e ==> s == i && e' == e;
        }
      } else {
        LastSentenceIsLast(w, i + 1, found);
        assert forall s, e :: i <= s && IsSentenceGap(w, s, e) ==> i + 1 <= s;
      }
    }
  }

  predicate SpaceAt(w: string, x: int) { 0 <= x < |w| && w[x] == ' ' }

  /** Of the break points in the back half a paragraph break is preferred to the end of a
      sentence gap and that to a space, and of each kind the last is taken. */
  lemma BestBreakIsTaken(w: string)
    ensures var r, half := LastBoundary(w), |w| / 2;
            var paragraph := exists p :: p >= half && IsParagraphBreak(w, p);
            var sentence := exists s, e :: e >= half && IsSentenceGap(w, s, e);
            var space := exists x :: x >= half && SpaceAt(w, x);
            && (paragraph ==> IsParagraphBreak(w, r) && forall p :: IsParagraphBreak(w, p) ==> p <= r)
            && (!paragraph && sentence ==>
                  (exists s :: IsSentenceGap(w, s, r)) && forall s, e :: IsSentenceGap(w, s, e) ==> e <= r)
            && (!paragraph && !sentence && space ==> SpaceAt(w, r) && forall x :: SpaceAt(w, x) ==> x <= r)
            && (!paragraph && !sentence && !space ==> r == 0)
  {
    LastParagraphIsLast(w, 0, -1);
    LastSentenceIsLast(w, 0, -1);
    hide LastParagraph, LastSentence, IsParagraphBreak, IsSentenceGap;
    assert LastSpace(w) >= 0 ==> SpaceAt(w, LastSpace(w));
    assert forall x :: SpaceAt(w, x) ==> x <= LastSpace(w);
    assert IsParagraphBreak(w, LastParagraph(w, 0, -1)) || LastParagraph(w, 0, -1) == -1;
    if exists s, e :: e >= |w| / 2 && IsSentenceGap(w, s, e) {
      var s, e :| e >= |w| / 2 && IsSentenceGap(w, s, e);
      GapsStartLate(w, s, e);
    }
  }

  lemma GapsStartLate(w: string, s: int, e: int)
    requires IsSentenceGap(w, s, e)
    ensures 0 < s < e
  {
  }

  /** A cut falls in the back half, beside whitespace: at a paragraph break or a space, or
      just after a sentence gap, which takes two characters at least. */
  lemma CutsAreClean(w: string)
    ensures var r := LastBoundary(w);
            && 0 <= r <= |w|
            && (r > 0 ==> r >= |w| / 2 && ((r < |w| && IsSpace(w[r])) || r >= 2))
  {
    LastParagraphIsLast(w, 0, -1);
    LastSentenceIsLast(w, 0, -1);
  }

  // ---------------------------------------------------------------------------
  // Windows and chunks
  // ---------------------------------------------------------------------------

  /** A stretch of the text, as Python slices denote it: the end may lie before the start. */
  datatype Span = Span(start: nat, end: int)

  /** `text[start:end]`: a negative end counts from the back, one beyond the text is clipped. */
  function Slice(text: string, start: nat, end: int): (s: string)
    ensures start <= end <= |text| ==> s == text[start..end]
    ensures start <= |text| ==> |s| <= |text| - start
  {
    var last := if end < 0 then |text| + end else if end > |text| then |text| else end;
    if start < last then text[start..last] else ""
  }

  function Min(a: int, b: int): int { if a < b then a else b }

  function Max(a: int, b: int): (m: int)
    ensures m >= a && m >= b && (m == a || m == b)
  {
    if a < b then b else a
  }

  /** Where the window that starts at `start` ends. */
  function CutEnd(text: string, start: nat, size: int): (end: int)
    requires start < |text|
    ensures end <= |text|
    ensures size > 0 ==> start < end && end - start <= size
    ensures size > 0 && end < |text| ==> end - start >= size / 2 || end - start == size
    ensures size > 0 && end < |text| && end - start < size ==> IsSpace(text[end]) || end - start >= 2
  {
    var full := Min(start + size, |text|);
    var w := Slice(text, start, full);
    CutsAreClean(w);
    if full < |text| && LastBoundary(w) > 0 then start + LastBoundary(w) else full
  }

  /** The last window ends with the text. Any other ends at the best break in its back half,
      a paragraph break before the end of a sentence gap before a space and the last of its
      kind, or, without any, after `size` characters. */
  lemma WindowEndsAtBestBreak(text: string, start: nat, size: nat)
    requires start < |text| && size >= 2
    ensures var end := CutEnd(text, start, size);
            if start + size >= |text| then end == |text|
            else
              var w, r, half := text[start..start + size], end - start, size / 2;
              var paragraph := exists p :: p >= half && IsParagraphBreak(w, p);
              var sentence := exists s, e :: e >= half && IsSentenceGap(w, s, e);
              var space := exists x :: x >= half && SpaceAt(w, x);
              && (paragraph ==> IsParagraphBreak(w, r) && forall p :: IsParagraphBreak(w, p) ==> p <= r)
              && (!paragraph && sentence ==>
                    (exists s :: IsSentenceGap(w, s, r)) && forall s, e :: IsSentenceGap(w, s, e) ==> e <= r)
              && (!paragraph && !sentence && space ==> SpaceAt(w, r) && forall x :: SpaceAt(w, x) ==> x <= r)
              && (!paragraph && !sentence && !space ==> r == size)
  {
    hide IsParagraphBreak, IsSentenceGap, LastBoundary, SpaceAt;
    if start + size < |text| {
      var w := text[start..start + size];
      BestBreakIsTaken(w);
      BreaksAreLate(w);
    }
  }

  /** A break in the back half of two characters or more is not at the front. */
  lemma BreaksAreLate(w: string)
    requires |w| >= 2
    ensures LastBoundary(w) == 0 ==>
              && (forall p :: p >= |w| / 2 ==> !IsParagraphBreak(w, p))
              && (forall s, e :: e >= |w| / 2 ==> !IsSentenceGap(w, s, e))
              && (forall x :: x >= |w| / 2 ==> !SpaceAt(w, x))
  {
    BestBreakIsTaken(w);
  }

  function Windows(text: string, start: nat, size: int, overlap: int): seq<Span>
    requires overlap < size
    decreases Max(|text| - start, 0)
  {
    if start >= |text| then []
    else
      var end := CutEnd(text, start, size);
      if end >= |text| then [Span(start, end)]
      else [Span(start, end)] + Windows(text, Max(end - overlap, start + 1), size, overlap)
  }

  /** Each window after the first starts `overlap` characters before the end of the one before
      it, or one character after its start if that is further. */
  lemma {:induction false} WindowsOverlap(text: string, start: nat, size: int, overlap: int, i: nat)
    requires overlap < size && i + 1 < |Windows(text, start, size, overlap)|
    ensures var windows := Windows(text, start, size, overlap);
            && windows[i].start < |text| && windows[i].end == CutEnd(text, windows[i].start, size) < |text|
            && windows[i + 1].start == Max(windows[i].end - overlap, windows[i].start + 1)
    decreases i
  {
    hide CutEnd;
    var next := Max(CutEnd(text, start, size) - overlap, start + 1);
    if i == 0 {
      assert Windows(text, next, size, overlap)[0].start == next;
    } else {
      WindowsOverlap(text, next, size, overlap, i - 1);
    }
  }

  /** What a window contributes: its trimmed content, if there is any. */
  function Piece(text: string, window: Span, n: nat): seq<Chunk> {
    var content := Strip(Slice(text, window.start, window.end));
    if content == "" then [] else [Chunk(n, content)]
  }

  /** The chunks of some windows, numbered from `n`. */
  function Collect(text: string, windows: seq<Span>, n: nat): seq<Chunk> {
    if windows == [] then []
    else
      var piece := Piece(text, windows[0], n);
      piece + Collect(text, windows[1..], n + |piece|)
  }

  ghost predicate Within(text: string, windows: seq<Span>) {
    forall i :: 0 <= i < |windows| ==> windows[i].start <= windows[i].end <= |text|
  }

  ghost predicate Fits(text: string, windows: seq<Span>, start: nat, size: nat) {
    forall i :: 0 <= i < |windows| ==>
      start <= windows[i].start < windows[i].end <= |text| && windows[i].end - windows[i].start <= size
  }

  lemma FitsNothing(text: string, start: nat, size: nat)
    ensures Fits(text, [], start, size)
  {
  }

  lemma FitsCons(text: string, first: Span, rest: seq<Span>, next: nat, size: nat)
    requires Fits(text, rest, next, size) && first.start <= next
    requires first.start < first.end <= |text| && first.end - first.start <= size
    ensures Fits(text, [first] + rest, first.start, size)
  {
  }

  lemma NoWindows(text: string, start: nat, size: int, overlap: int)
    requires overlap < size && start >= |text|
    ensures Windows(text, start, size, overlap) == []
  {
  }

  lemma {:induction false} AllFit(text: string, start: nat, size: nat, overlap: int)
    requires overlap < size && size > 0
    ensures Fits(text, Windows(text, start, size, overlap), start, size)
    decreases Max(|text| - start, 0)
  {
    hide CutEnd, Fits;
    FitsNothing(text, start, size);
    if start < |text| {
      var end := CutEnd(text, start, size);
      var next := Max(end - overlap, start + 1);
      if end < |text| {
        AllFit(text, next, size, overlap);
        FitsCons(text, Span(start, end), Windows(text, next, size, overlap), next, size);
      } else {
        FitsNothing(text, start + 1, size);
        FitsCons(text, Span(start, end), [], start + 1, size);
        assert [Span(start, end)] + [] == [Span(start, end)];
      }
    }
  }

  /** For a positive size every window starts at `start` or later, is not empty and fits. */
  lemma WindowsFit(text: string, start: nat, size: nat, overlap: int)
    requires overlap < size && size > 0 && start < |text|
    ensures var windows := Windows(text, start, size, overlap);
            && windows != [] && windows[0].start == start
            && Fits(text, windows, start, size) && Within(text, windows)
  {
    hide CutEnd;
    AllFit(text, start, size, overlap);
  }

  /** With an overlap that is not negative the loop leaves at the window that reaches the end
      of the text, and at no other. */
  lemma {:induction false} LastWindowReachesTheEnd(text: string, start: nat, size: nat, overlap: nat)
    requires overlap < size && start < |text|
    ensures var windows := Windows(text, start, size, overlap);
            forall i :: 0 <= i < |windows| ==> (windows[i].end == |text| <==> i == |windows| - 1)
    decreases |text| - start
  {
    hide CutEnd, Windows;
    WindowsUnfold(text, start, size, overlap);
    var end := CutEnd(text, start, size);
    if end < |text| {
      WindowsUnfold(text, Max(end - overlap, start + 1), size, overlap);
      LastWindowReachesTheEnd(text, Max(end - overlap, start + 1), size, overlap);
    }
  }

  /** All chunks of a cleaned text. */
  function ChunksOf(text: string, size: int, overlap: int): seq<Chunk>
    requires overlap < size
  {
    if text == "" then []
    else if |text| <= size then [Chunk(0, text)]
    else Collect(text, Windows(text, 0, size, overlap), 0)
  }

  /** What the windows after the one at `start` are. */
  function Rest(text: string, start: nat, size: int, overlap: int): seq<Span>
    requires overlap < size && start < |text|
  {
    var end := CutEnd(text, start, size);
    if end >= |text| then [] else Windows(text, Max(end - overlap, start + 1), size, overlap)
  }

  lemma WindowsUnfold(text: string, start: nat, size: int, overlap: int)
    requires overlap < size && start < |text|
    ensures var windows := Windows(text, start, size, overlap);
            && windows != [] && windows[0] == Span(start, CutEnd(text, start, size))
            && windows[1..] == Rest(text, start, size, overlap)
  {
    hide CutEnd;
  }

  /** One turn of the loop: what it collects, then the rest, is everything from `start` on. */
  lemma CollectOne(text: string, start: nat, size: int, overlap: int, chunks: seq<Chunk>)
    requires overlap < size && start < |text|
    ensures var next := chunks + Piece(text, Span(start, CutEnd(text, start, size)), |chunks|);
            next + Collect(text, Rest(text, start, size, overlap), |next|) ==
            chunks + Collect(text, Windows(text, start, size, overlap), |chunks|)
  {
    hide CutEnd, Piece, Windows, Rest;
    WindowsUnfold(text, start, size, overlap);
    var piece := Piece(text, Span(start, CutEnd(text, start, size)), |chunks|);
    Associates(chunks, piece, Collect(text, Rest(text, start, size, overlap), |chunks| + |piece|));
  }

  lemma AddPiece(text: string, window: Span, chunks: seq<Chunk>)
    ensures var content := Strip(Slice(text, window.start, window.end));
            chunks + Piece(text, window, |chunks|) ==
            if content == "" then chunks else chunks + [Chunk(|chunks|, content)]
  {
  }

  /** The end of a window, computed the way the loop does. */
  lemma CutEndInSteps(text: string, start: nat, size: int, full: int)
    requires start < |text| && full == Min(start + size, |text|)
    ensures var boundary := LastBoundary(Slice(text, start, full));
            CutEnd(text, start, size) == if full < |text| && boundary > 0 then start + boundary else full
  {
  }

  lemma CollectNone(text: string, n: nat)
    ensures Collect(text, [], n) == []
  {
  }

  method ChunkText(text: string, size: int, overlap: int) returns (result: Result<seq<Chunk>, ChunkError>)
    ensures result.Err? <==> overlap >= size
    ensures result.Ok? ==> result.value == ChunksOf(NormalizeText(text), size, overlap)
  {
    hide Windows, Collect, Strip, Slice, NormalizeText, LastBoundary, CutEnd, Piece;
    if overlap >= size {
      return Err(OverlapTooLarge);
    }
    var cleaned := NormalizeText(text);
    if cleaned == "" {
      return Ok([]);
    }
    if |cleaned| <= size {
      return Ok([Chunk(0, cleaned)]);
    }
    var chunks: seq<Chunk> := [];
    var start: nat, length := 0, |cleaned|;
    ghost var all := ChunksOf(cleaned, size, overlap);
    while start < length
      invariant chunks + Collect(cleaned, Windows(cleaned, start, size, overlap), |chunks|) == all
      decreases length - start
    {
      var end := Min(start + size, length);
      var window := Slice(cleaned, start, end);
      CutEndInSteps(cleaned, start, size, end);
      if end < length {
        var boundary := LastBoundary(window);
        if boundary > 0 {
          end := start + boundary;
          window := Slice(cleaned, start, end);
        }
      }
      assert end == CutEnd(cleaned, start, size);
      CollectOne(cleaned, start, size, overlap, chunks);
      AddPiece(cleaned, Span(start, end), chunks);
      CollectNone(cleaned, |chunks|);
      var content := Strip(window);
      if content != "" {
        chunks := chunks + [Chunk(|chunks|, content)];
      }
      CollectNone(cleaned, |chunks|);
      if end >= length {
        assert chunks == all;
        break;
      }
      start := Max(end - overlap, start + 1);
    }
    if start >= length {
      NoWindows(cleaned, start, size, overlap);
      CollectNone(cleaned, |chunks|);
    }
    assert chunks == all;
    return Ok(chunks);
  }
}
