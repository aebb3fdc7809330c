/** Call-chain reconstruction: backend/app/services/stack_analyzer.py and symbolizer.py. */
module StackAnalyzer {
  import opened Wrappers
  import opened Sequences
  import opened ElfIndex

  datatype Origin = Pc | Lr | Stack

  datatype Frame = Frame(address: int, origin: Origin, name: Option<string>,
                         offset: Option<int>, resolved: bool, thumb: bool)

  /** A build's symbol index, and whether its addresses were stored with the Thumb bit cleared. */
  datatype Symbolizer = Symbolizer(index: seq<Symbol>, normalizeThumb: bool) {
    function Clean(address: int): int {
      if normalizeThumb then ClearThumb(address) else address
    }

    function Resolve(address: int, origin: Origin): Frame {
      var clean := Clean(address);
      match Lookup(clean, index)
      case None => Frame(clean, origin, None, None, false, IsThumb(address))
      case Some(s) => Frame(clean, origin, Some(s.name), Some(clean - s.address), true, IsThumb(address))
    }
  }

  predicate InSomeRange(address: int, ranges: seq<Section>) {
    exists i :: 0 <= i < |ranges| && ranges[i].Contains(address)
  }

  predicate LooksLikeReturnAddress(word: int, ranges: seq<Section>, requireThumb: bool) {
    && (requireThumb ==> IsThumb(word))
    && ClearThumb(word) != 0
    && (ranges == [] || InSomeRange(ClearThumb(word), ranges))
  }

  /** The stack words that pass the filter, in stack order. */
  function Candidates(words: seq<int>, ranges: seq<Section>, requireThumb: bool): seq<int> {
    if words == [] then []
    else
      var w := words[|words| - 1];
      var earlier := Candidates(words[..|words| - 1], ranges, requireThumb);
      if LooksLikeReturnAddress(w, ranges, requireThumb) then earlier + [w] else earlier
  }

  datatype Entry = Entry(address: int, origin: Origin)

  /** Two entries denote one return address when they differ at most in the Thumb bit. */
  function Key(e: Entry): int { ClearThumb(e.address) }

  function OnStack(words: seq<int>): (r: seq<Entry>)
    ensures |r| == |words|
    ensures forall i :: 0 <= i < |words| ==> r[i] == Entry(words[i], Stack)
  {
    seq(|words|, i requires 0 <= i < |words| => Entry(words[i], Stack))
  }

  function Cleared(words: seq<int>): (r: seq<int>)
    ensures |r| == |words|
    ensures forall i :: 0 <= i < |words| ==> r[i] == ClearThumb(words[i])
  {
    seq(|words|, i requires 0 <= i < |words| => ClearThumb(words[i]))
  }

  function Registers(pc: Option<int>, lr: Option<int>): seq<Entry> {
    (if pc.Some? then [Entry(pc.value, Pc)] else []) +
    (if lr.Some? then [Entry(lr.value, Lr)] else [])
  }

  /** Innermost first: the program counter, the link register, then the stack. */
  function Trace(pc: Option<int>, lr: Option<int>, candidates: seq<int>): seq<Entry> {
    Registers(pc, lr) + OnStack(candidates)
  }

  function ResolveAll(symbolizer: Symbolizer, entries: seq<Entry>): (r: seq<Frame>)
    ensures |r| == |entries|
    ensures forall i :: 0 <= i < |entries| ==>
              r[i] == symbolizer.Resolve(entries[i].address, entries[i].origin)
  {
    seq(|entries|, i requires 0 <= i < |entries| =>
      symbolizer.Resolve(entries[i].address, entries[i].origin))
  }

  /** The entries of the call chain: the trace without adjacent repeats, cut at `maxFrames`. */
  function Chain(trace: seq<Entry>, maxFrames: nat): seq<Entry> {
    Take(Collapse(Key, trace), maxFrames)
  }

  datatype Warning = NoExecutableRanges | StoppedAtMaxFrames | NoPlausibleAddresses

  datatype StackAnalysis = StackAnalysis(frames: seq<Frame>, candidates: seq<int>,
                                         wordsScanned: nat, warnings: seq<Warning>)

  function Warnings(noRanges: bool, stopped: bool, nothingFound: bool): seq<Warning> {
    (if noRanges then [NoExecutableRanges] else []) +
    (if stopped then [StoppedAtMaxFrames] else []) +
    (if nothingFound then [NoPlausibleAddresses] else [])
  }

  /** The chain is as long as it may get once these candidates have been pushed. */
  predicate Full(pc: Option<int>, lr: Option<int>, candidates: seq<int>, maxFrames: nat) {
    maxFrames <= |Collapse(Key, Trace(pc, lr, candidates))|
  }

  /** The scan looks at `n` candidates: all of them, unless the chain fills up first. */
  ghost predicate StopsAfter(pc: Option<int>, lr: Option<int>, candidates: seq<int>,
                             maxFrames: nat, n: nat)
  {
    && n <= |candidates|
    && (n < |candidates| ==> 0 < n && Full(pc, lr, candidates[..n], maxFrames))
    && (1 < n ==> !Full(pc, lr, candidates[..n - 1], maxFrames))
  }

  /** The closure `push`: skip a repeat of the address pushed last, and drop what exceeds
      the limit while still remembering it. */
  method Push(symbolizer: Symbolizer, entry: Entry, frames: seq<Frame>, seenAdjacent: Option<int>,
              maxFrames: nat, ghost trace: seq<Entry>)
    returns (frames': seq<Frame>, seen': Option<int>)
    requires frames == ResolveAll(symbolizer, Chain(trace, maxFrames))
    requires seenAdjacent == LastKey(trace)
    ensures frames' == ResolveAll(symbolizer, Chain(trace + [entry], maxFrames))
    ensures seen' == LastKey(trace + [entry])
  {
    var clean := ClearThumb(entry.address);
    frames', seen' := frames, Some(clean);
    PushCollapses(entry, trace);
    if Some(clean) == seenAdjacent {
      return;
    }
    if |frames| < maxFrames {
      frames' := frames' + [symbolizer.Resolve(entry.address, entry.origin)];
    }
  }

  function LastKey(trace: seq<Entry>): Option<int> {
    if trace == [] then None else Some(Key(trace[|trace| - 1]))
  }

  lemma PushCollapses(entry: Entry, trace: seq<Entry>)
    ensures Collapse(Key, trace + [entry]) ==
            if LastKey(trace) == Some(Key(entry)) then Collapse(Key, trace)
            else Collapse(Key, trace) + [entry]
  {
    assert (trace + [entry])[..|trace|] == trace;
  }

  lemma RegistersCollapsed(pc: Option<int>, lr: Option<int>)
    ensures pc.Some? && lr.Some? ==>
              Collapse(Key, Registers(pc, lr)) ==
              [Entry(pc.value, Pc)] + (if ClearThumb(lr.value) == ClearThumb(pc.value) then [] else [Entry(lr.value, Lr)])
    ensures pc.Some? && lr.None? ==> Collapse(Key, Registers(pc, lr)) == [Entry(pc.value, Pc)]
  {
    if pc.Some? && lr.Some? {
      assert Registers(pc, lr) == [Entry(pc.value, Pc)] + [Entry(lr.value, Lr)];
      PushCollapses(Entry(lr.value, Lr), [Entry(pc.value, Pc)]);
    }
  }

  method PushRegisters(symbolizer: Symbolizer, pc: Option<int>, lr: Option<int>, maxFrames: nat)
    returns (frames: seq<Frame>, seen: Option<int>)
    ensures frames == ResolveAll(symbolizer, Chain(Registers(pc, lr), maxFrames))
    ensures seen == LastKey(Registers(pc, lr))
    ensures pc.Some? && maxFrames > 0 ==> frames != [] && frames[0] == symbolizer.Resolve(pc.value, Pc)
    ensures pc.Some? && lr.Some? && maxFrames > 1 && ClearThumb(lr.value) != ClearThumb(pc.value) ==>
              |frames| == 2 && frames[1] == symbolizer.Resolve(lr.value, Lr)
  {
    RegistersCollapsed(pc, lr);
    frames, seen := [], None;
    ghost var trace: seq<Entry> := [];
    if pc.Some? {
      frames, seen := Push(symbolizer, Entry(pc.value, Pc), frames, seen, maxFrames, trace);
      trace := trace + [Entry(pc.value, Pc)];
    }
    if lr.Some? {
      frames, seen := Push(symbolizer, Entry(lr.value, Lr), frames, seen, maxFrames, trace);
      trace := trace + [Entry(lr.value, Lr)];
    }
    assert trace == Registers(pc, lr);
  }

  /** What scanning these candidates after the two registers must yield, told without
      mentioning the scan: the first `maxFrames` entries of the collapsed full trace. */
  ghost predicate IsScanOf(frames: seq<Frame>, candidates: seq<int>, stopped: bool, symbolizer: Symbolizer,
                           pc: Option<int>, lr: Option<int>, all: seq<int>, maxFrames: nat)
  {
    && frames == ResolveAll(symbolizer, Chain(Trace(pc, lr, all), maxFrames))
    && StopsAfter(pc, lr, all, maxFrames, |candidates|)
    && candidates == Cleared(all[..|candidates|])
    && (candidates == [] <==> all == [])
    && (stopped <==> all != [] && Full(pc, lr, all, maxFrames))
  }

  /** The whole analysis, as if the scan had never stopped early. */
  ghost predicate IsAnalysisOf(analysis: StackAnalysis, words: seq<int>, symbolizer: Symbolizer,
                               ranges: seq<Section>, pc: Option<int>, lr: Option<int>,
                               requireThumb: bool, maxFrames: nat)
  {
    var all := Candidates(words, ranges, requireThumb);
    && IsScanOf(analysis.frames, analysis.candidates, StoppedAtMaxFrames in analysis.warnings,
                symbolizer, pc, lr, all, maxFrames)
    && analysis.wordsScanned == |words|
    && analysis.warnings ==
       (if ranges == [] then [NoExecutableRanges] else []) +
       (if StoppedAtMaxFrames in analysis.warnings then [StoppedAtMaxFrames] else []) +
       (if words != [] && all == [] then [NoPlausibleAddresses] else [])
  }

  method ReconstructStack(words: seq<int>, symbolizer: Symbolizer, ranges: seq<Section>,
                          pc: Option<int>, lr: Option<int>, requireThumb: bool, maxFrames: nat)
    returns (analysis: StackAnalysis)
    ensures IsAnalysisOf(analysis, words, symbolizer, ranges, pc, lr, requireThumb, maxFrames)
    ensures pc.Some? && maxFrames > 0 ==> analysis.frames != [] && analysis.frames[0] == symbolizer.Resolve(pc.value, Pc)
    ensures pc.Some? && lr.Some? && maxFrames > 1 && ClearThumb(lr.value) != ClearThumb(pc.value) ==>
              |analysis.frames| > 1 && analysis.frames[1] == symbolizer.Resolve(lr.value, Lr)
  {
    hide Collapse, Candidates, Trace, Registers, ResolveAll, Symbolizer.Resolve, Full, StopsAfter;
    RegistersLead(pc, lr, Candidates(words, ranges, requireThumb), symbolizer, maxFrames);
    var frames, seen := PushRegisters(symbolizer, pc, lr, maxFrames);
    var candidates, stopped;
    frames, candidates, stopped :=
      ScanStack(words, symbolizer, ranges, pc, lr, requireThumb, maxFrames, frames, seen);
    var warnings := Warnings(ranges == [], stopped, words != [] && candidates == []);
    assert StoppedAtMaxFrames in warnings <==> stopped;
    analysis := StackAnalysis(frames, candidates, |words|, warnings);
  }

  /** What the registers give comes before what the stack gives. */
  lemma RegistersLead(pc: Option<int>, lr: Option<int>, all: seq<int>, symbolizer: Symbolizer, maxFrames: nat)
    ensures var frames := ResolveAll(symbolizer, Chain(Trace(pc, lr, all), maxFrames));
            && (pc.Some? && maxFrames > 0 ==> frames != [] && frames[0] == symbolizer.Resolve(pc.value, Pc))
            && (pc.Some? && lr.Some? && maxFrames > 1 && ClearThumb(lr.value) != ClearThumb(pc.value) ==>
                  |frames| > 1 && frames[1] == symbolizer.Resolve(lr.value, Lr))
  {
    hide Collapse, Symbolizer.Resolve;
    var n := |Registers(pc, lr)|;
    assert Trace(pc, lr, all)[..n] == Registers(pc, lr);
    CollapsePrefix(Key, Trace(pc, lr, all), n);
    RegistersCollapsed(pc, lr);
  }

  /** The loop over the stack words, which leaves as soon as the chain is full. */
  method ScanStack(words: seq<int>, symbolizer: Symbolizer, ranges: seq<Section>,
                   pc: Option<int>, lr: Option<int>, requireThumb: bool, maxFrames: nat,
                   initial: seq<Frame>, initialSeen: Option<int>)
    returns (frames: seq<Frame>, candidates: seq<int>, stopped: bool)
    requires initial == ResolveAll(symbolizer, Chain(Registers(pc, lr), maxFrames))
    requires initialSeen == LastKey(Registers(pc, lr))
    ensures IsScanOf(frames, candidates, stopped, symbolizer, pc, lr,
                     Candidates(words, ranges, requireThumb), maxFrames)
  {
    hide IsScanOf, Collapse, Candidates, LooksLikeReturnAddress, Trace, LastKey, Chain;
    var seen := initialSeen;
    frames, candidates, stopped := initial, [], false;
    ghost var kept: seq<int> := [];
    StartScan(initial, initialSeen, symbolizer, words, ranges, pc, lr, requireThumb, maxFrames);
    var k := 0;
    while k < |words|
      invariant k <= |words|
      invariant kept == Candidates(words[..k], ranges, requireThumb)
      invariant !stopped && |candidates| == |kept|
      invariant IsScanOf(frames, candidates, stopped, symbolizer, pc, lr, kept, maxFrames)
      invariant seen == LastKey(Trace(pc, lr, kept))
    {
      var word := words[k];
      CandidatesStep(words, k, ranges, requireThumb);
      k := k + 1;
      if !LooksLikeReturnAddress(word, ranges, requireThumb) {
        continue;
      }
      frames, candidates, stopped, seen :=
        PushWord(word, symbolizer, pc, lr, maxFrames, frames, candidates, seen, kept);
      kept := kept + [word];
      if stopped {
        break;
      }
    }
    CandidatesPrefix(words, k, ranges, requireThumb);
    assert words[..|words|] == words;
    FinishScan(frames, candidates, stopped, symbolizer, pc, lr, kept,
               Candidates(words, ranges, requireThumb), maxFrames);
  }

  lemma StartScan(initial: seq<Frame>, seen: Option<int>, symbolizer: Symbolizer, words: seq<int>,
                  ranges: seq<Section>, pc: Option<int>, lr: Option<int>, requireThumb: bool, maxFrames: nat)
    requires initial == ResolveAll(symbolizer, Chain(Registers(pc, lr), maxFrames))
    requires seen == LastKey(Registers(pc, lr))
    ensures Candidates(words[..0], ranges, requireThumb) == []
    ensures IsScanOf(initial, [], false, symbolizer, pc, lr, [], maxFrames) && seen == LastKey(Trace(pc, lr, []))
  {
    assert Registers(pc, lr) == Trace(pc, lr, []);
  }

  /** What the loop does with a word that passed the filter. */
  method PushWord(word: int, symbolizer: Symbolizer, pc: Option<int>, lr: Option<int>, maxFrames: nat,
                  frames: seq<Frame>, candidates: seq<int>, seen: Option<int>, ghost kept: seq<int>)
    returns (frames': seq<Frame>, candidates': seq<int>, stopped: bool, seen': Option<int>)
    requires IsScanOf(frames, candidates, false, symbolizer, pc, lr, kept, maxFrames)
    requires |candidates| == |kept| && seen == LastKey(Trace(pc, lr, kept))
    ensures IsScanOf(frames', candidates', stopped, symbolizer, pc, lr, kept + [word], maxFrames)
    ensures |candidates'| == |kept| + 1 && seen' == LastKey(Trace(pc, lr, kept + [word]))
  {
    candidates' := candidates + [ClearThumb(word)];
    frames', seen' := Push(symbolizer, Entry(word, Stack), frames, seen, maxFrames, Trace(pc, lr, kept));
    stopped := maxFrames <= |frames'|;
    ExtendScan(frames, candidates, symbolizer, pc, lr, kept, word, maxFrames, frames');
  }

  lemma ExtendScan(frames: seq<Frame>, candidates: seq<int>, symbolizer: Symbolizer, pc: Option<int>,
                   lr: Option<int>, kept: seq<int>, word: int, maxFrames: nat, frames': seq<Frame>)
    requires IsScanOf(frames, candidates, false, symbolizer, pc, lr, kept, maxFrames)
    requires |candidates| == |kept|
    requires frames' == ResolveAll(symbolizer, Chain(Trace(pc, lr, kept) + [Entry(word, Stack)], maxFrames))
    ensures Trace(pc, lr, kept + [word]) == Trace(pc, lr, kept) + [Entry(word, Stack)]
    ensures IsScanOf(frames', candidates + [ClearThumb(word)], maxFrames <= |frames'|,
                     symbolizer, pc, lr, kept + [word], maxFrames)
  {
    KeepOneMore(pc, lr, kept, word);
    assert kept[..|kept|] == kept;
    assert (kept + [word])[..|kept| + 1] == kept + [word];
  }

  lemma FinishScan(frames: seq<Frame>, candidates: seq<int>, stopped: bool, symbolizer: Symbolizer,
                   pc: Option<int>, lr: Option<int>, kept: seq<int>, all: seq<int>, maxFrames: nat)
    requires IsScanOf(frames, candidates, stopped, symbolizer, pc, lr, kept, maxFrames)
    requires |candidates| == |kept| && kept <= all && (stopped || kept == all)
    ensures IsScanOf(frames, candidates, stopped, symbolizer, pc, lr, all, maxFrames)
  {
    assert kept[..|kept|] == kept;
    StopTransfers(pc, lr, kept, all, maxFrames);
  }

  lemma CandidatesStep(words: seq<int>, k: nat, ranges: seq<Section>, requireThumb: bool)
    requires k < |words|
    ensures Candidates(words[..k + 1], ranges, requireThumb) ==
            if LooksLikeReturnAddress(words[k], ranges, requireThumb)
            then Candidates(words[..k], ranges, requireThumb) + [words[k]]
            else Candidates(words[..k], ranges, requireThumb)
  {
    assert words[..k + 1][..k] == words[..k];
  }

  lemma KeepOneMore(pc: Option<int>, lr: Option<int>, kept: seq<int>, word: int)
    ensures Trace(pc, lr, kept + [word]) == Trace(pc, lr, kept) + [Entry(word, Stack)]
    ensures Cleared(kept + [word]) == Cleared(kept) + [ClearThumb(word)]
    ensures (kept + [word])[..|kept|] == kept
  {
    assert OnStack(kept + [word]) == OnStack(kept) + [Entry(word, Stack)];
  }

  lemma {:induction false} CandidatesPrefix(words: seq<int>, k: nat, ranges: seq<Section>, requireThumb: bool)
    requires k <= |words|
    ensures Candidates(words[..k], ranges, requireThumb) <= Candidates(words, ranges, requireThumb)
  {
    if k == |words| {
      assert words[..k] == words;
    } else {
      var front := words[..|words| - 1];
      CandidatesPrefix(front, k, ranges, requireThumb);
      assert front[..k] == words[..k];
    }
  }

  /** Stopping early loses nothing: either every candidate was seen or the chain is full. */
  lemma StopTransfers(pc: Option<int>, lr: Option<int>, kept: seq<int>, all: seq<int>, maxFrames: nat)
    requires kept <= all && StopsAfter(pc, lr, kept, maxFrames, |kept|)
    requires kept == all || (kept != [] && Full(pc, lr, kept, maxFrames))
    ensures StopsAfter(pc, lr, all, maxFrames, |kept|)
    ensures all[..|kept|] == kept && (kept == [] <==> all == [])
    ensures Full(pc, lr, all, maxFrames) <==> Full(pc, lr, kept, maxFrames)
    ensures Chain(Trace(pc, lr, kept), maxFrames) == Chain(Trace(pc, lr, all), maxFrames)
  {
    assert all[..|kept|] == kept;
    if 1 < |kept| {
      assert all[..|kept| - 1] == kept[..|kept| - 1];
    }
    if kept != all {
      FullChainIsFinal(pc, lr, kept, all, maxFrames);
    }
  }

  lemma FullChainIsFinal(pc: Option<int>, lr: Option<int>, kept: seq<int>, all: seq<int>, maxFrames: nat)
    requires kept <= all && Full(pc, lr, kept, maxFrames)
    ensures Full(pc, lr, all, maxFrames)
    ensures Chain(Trace(pc, lr, kept), maxFrames) == Chain(Trace(pc, lr, all), maxFrames)
  {
    var full := Trace(pc, lr, all);
    var n := TracePrefix(pc, lr, kept, all);
    CollapsePrefix(Key, full, n);
    TakeOfPrefix(Collapse(Key, Trace(pc, lr, kept)), Collapse(Key, full), maxFrames);
  }

  lemma TracePrefix(pc: Option<int>, lr: Option<int>, kept: seq<int>, all: seq<int>) returns (n: nat)
    requires kept <= all
    ensures n <= |Trace(pc, lr, all)| && Trace(pc, lr, all)[..n] == Trace(pc, lr, kept)
  {
    n := |Registers(pc, lr)| + |kept|;
  }

  lemma TakeOfPrefix<T>(a: seq<T>, b: seq<T>, n: nat)
    requires a <= b && n <= |a|
    ensures Take(a, n) == Take(b, n)
  {
  }
}
