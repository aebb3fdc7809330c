/** Which frames a crash has and what they say of it, told from its registers and stack words:
    backend/app/services/stack_analyzer.py, symbolizer.py and symbolication.py. */
module CallChain {
  import opened Wrappers
  import opened Sequences
  import opened StableSort
  import opened Text
  import opened ElfIndex
  import opened StackAnalyzer
  import opened Signature
  import opened Relocation

  // ---------------------------------------------------------------------------
  // Stack words
  // ---------------------------------------------------------------------------

  /** A word that may be a return address: odd if that is asked for, not zero but for its
      lowest bit, and inside an executable range if any are known. */
  ghost predicate Plausible(word: int, ranges: seq<Section>, requireThumb: bool) {
    && (requireThumb ==> word % 2 == 1)
    && word - word % 2 != 0
    && (ranges == [] || exists i :: 0 <= i < |ranges| && InRange(word - word % 2, ranges[i]))
  }

  predicate InRange(a: int, range: Section) { range.start <= a && a < range.start + range.size }

  lemma PlausibleIsAccepted(word: int, ranges: seq<Section>, requireThumb: bool)
    ensures Plausible(word, ranges, requireThumb) <==> LooksLikeReturnAddress(word, ranges, requireThumb)
  {
    forall i | 0 <= i < |ranges| ensures InRange(word - word % 2, ranges[i]) <==> ranges[i].Contains(word - word % 2) {
    }
  }

  /** The address that comes before stack word `p` in the trace: of the nearest plausible word
      before it, or else `above`. */
  ghost function Preceding(words: seq<int>, p: nat, ranges: seq<Section>, requireThumb: bool,
                           above: Option<int>): Option<int>
    requires p <= |words|
  {
    if p == 0 then above
    else if Plausible(words[p - 1], ranges, requireThumb) then Some(words[p - 1] - words[p - 1] % 2)
    else Preceding(words, p - 1, ranges, requireThumb, above)
  }

  /** The word becomes a frame: it is plausible and no repeat of the address before it. */
  ghost predicate Contributes(words: seq<int>, p: nat, ranges: seq<Section>, requireThumb: bool, above: Option<int>)
    requires p < |words|
  {
    && Plausible(words[p], ranges, requireThumb)
    && Preceding(words, p, ranges, requireThumb, above) != Some(words[p] - words[p] % 2)
  }

  /** The positions of the words that become frames, in stack order. */
  ghost predicate AreStackPlaces(places: seq<nat>, words: seq<int>, ranges: seq<Section>, requireThumb: bool,
                                 above: Option<int>)
  {
    && (forall i, j :: 0 <= i < j < |places| ==> places[i] < places[j])
    && (forall i :: 0 <= i < |places| ==> places[i] < |words|)
    && (forall p: nat :: p < |words| ==> (p in places <==> Contributes(words, p, ranges, requireThumb, above)))
  }

  /** The address of the outermost register at hand. */
  function Above(pc: Option<int>, lr: Option<int>): Option<int> {
    if lr.Some? then Some(lr.value - lr.value % 2)
    else if pc.Some? then Some(pc.value - pc.value % 2)
    else None
  }

  /** How many frames the registers give: a link register that repeats the program counter
      gives none. */
  function RegisterFrames(pc: Option<int>, lr: Option<int>): nat {
    if pc.Some? && lr.Some? then (if pc.value - pc.value % 2 == lr.value - lr.value % 2 then 1 else 2)
    else if pc.Some? || lr.Some? then 1
    else 0
  }

  /** The entries of the chain before it is cut. */
  ghost predicate AreEntries(entries: seq<Entry>, pc: Option<int>, lr: Option<int>, words: seq<int>, places: seq<nat>)
    requires forall i :: 0 <= i < |places| ==> places[i] < |words|
  {
    var k := RegisterFrames(pc, lr);
    && |entries| == k + |places|
    && (pc.Some? ==> entries[0] == Entry(pc.value, Pc))
    && (pc.None? && lr.Some? ==> entries[0] == Entry(lr.value, Lr))
    && (k == 2 ==> entries[1] == Entry(lr.value, Lr))
    && forall i :: 0 <= i < |places| ==> entries[k + i] == Entry(words[places[i]], Stack)
  }

  lemma RegistersAlone(pc: Option<int>, lr: Option<int>)
    ensures AreEntries(Collapse(Key, Trace(pc, lr, [])), pc, lr, [], [])
    ensures LastKey(Trace(pc, lr, [])) == Above(pc, lr)
  {
    assert Trace(pc, lr, []) == Registers(pc, lr);
    if pc.Some? && lr.Some? {
      assert Registers(pc, lr) == [Entry(pc.value, Pc)] + [Entry(lr.value, Lr)];
      PushCollapses(Entry(lr.value, Lr), [Entry(pc.value, Pc)]);
    }
  }

  lemma PrecedingFront(words: seq<int>, n: nat, p: nat, ranges: seq<Section>, requireThumb: bool, above: Option<int>)
    requires p <= n <= |words|
    ensures Preceding(words[..n], p, ranges, requireThumb, above) == Preceding(words, p, ranges, requireThumb, above)
  {
    hide Plausible;
    if p > 0 {
      PrecedingFront(words, n, p - 1, ranges, requireThumb, above);
    }
  }

  lemma PlacesGrow(places: seq<nat>, words: seq<int>, ranges: seq<Section>, requireThumb: bool, above: Option<int>)
    requires words != [] && AreStackPlaces(places, words[..|words| - 1], ranges, requireThumb, above)
    ensures var n := |words| - 1;
            AreStackPlaces(if Contributes(words, n, ranges, requireThumb, above) then places + [n] else places,
                           words, ranges, requireThumb, above)
  {
    hide Plausible, Preceding;
    var n := |words| - 1;
    forall p: nat | p < n
      ensures Contributes(words[..n], p, ranges, requireThumb, above) <==> Contributes(words, p, ranges, requireThumb, above)
    {
      PrecedingFront(words, n, p, ranges, requireThumb, above);
    }
  }

  /** The chain, word by word. */
  lemma {:induction false} EntriesOfTheChain(pc: Option<int>, lr: Option<int>, words: seq<int>, ranges: seq<Section>,
                                             requireThumb: bool) returns (places: seq<nat>)
    ensures AreStackPlaces(places, words, ranges, requireThumb, Above(pc, lr))
    ensures AreEntries(Collapse(Key, Trace(pc, lr, Candidates(words, ranges, requireThumb))), pc, lr, words, places)
    ensures LastKey(Trace(pc, lr, Candidates(words, ranges, requireThumb))) ==
            Preceding(words, |words|, ranges, requireThumb, Above(pc, lr))
  {
    hide Plausible, LooksLikeReturnAddress, Trace, Collapse, LastKey, Above, AreStackPlaces, AreEntries, Contributes,
         Preceding;
    if words == [] {
      places := [];
      NoWords(pc, lr, ranges, requireThumb);
    } else {
      var n := |words| - 1;
      var above := Above(pc, lr);
      var before := EntriesOfTheChain(pc, lr, words[..n], ranges, requireThumb);
      PlacesGrow(before, words, ranges, requireThumb, above);
      OneWordMore(pc, lr, words, ranges, requireThumb);
      PlacesBounded(before, words[..n], ranges, requireThumb, above);
      EntriesGrow(Collapse(Key, Trace(pc, lr, Candidates(words[..n], ranges, requireThumb))), pc, lr, words, before);
      places := if Contributes(words, n, ranges, requireThumb, above) then before + [n] else before;
    }
  }

  lemma PlacesBounded(places: seq<nat>, words: seq<int>, ranges: seq<Section>, requireThumb: bool, above: Option<int>)
    requires AreStackPlaces(places, words, ranges, requireThumb, above)
    ensures forall i :: 0 <= i < |places| ==> places[i] < |words|
  {
  }

  lemma NoWords(pc: Option<int>, lr: Option<int>, ranges: seq<Section>, requireThumb: bool)
    ensures Candidates([], ranges, requireThumb) == []
    ensures AreStackPlaces([], [], ranges, requireThumb, Above(pc, lr))
    ensures AreEntries(Collapse(Key, Trace(pc, lr, [])), pc, lr, [], [])
    ensures LastKey(Trace(pc, lr, [])) == Preceding([], 0, ranges, requireThumb, Above(pc, lr))
  {
    RegistersAlone(pc, lr);
  }

  lemma EntriesGrow(entries: seq<Entry>, pc: Option<int>, lr: Option<int>, words: seq<int>, places: seq<nat>)
    requires words != [] && forall i :: 0 <= i < |places| ==> places[i] < |words| - 1
    requires AreEntries(entries, pc, lr, words[..|words| - 1], places)
    ensures AreEntries(entries, pc, lr, words, places)
    ensures AreEntries(entries + [Entry(words[|words| - 1], Stack)], pc, lr, words, places + [|words| - 1])
  {
  }

  /** One more stack word: a rejected one changes nothing, a repeat changes only what comes
      before the next word, and any other is an entry. */
  lemma OneWordMore(pc: Option<int>, lr: Option<int>, words: seq<int>, ranges: seq<Section>, requireThumb: bool)
    requires words != []
    requires var n, above := |words| - 1, Above(pc, lr);
             LastKey(Trace(pc, lr, Candidates(words[..n], ranges, requireThumb))) ==
             Preceding(words[..n], n, ranges, requireThumb, above)
    ensures var n, above := |words| - 1, Above(pc, lr);
            var before, after := Trace(pc, lr, Candidates(words[..n], ranges, requireThumb)),
                                 Trace(pc, lr, Candidates(words, ranges, requireThumb));
            && Collapse(Key, after) ==
               (if Contributes(words, n, ranges, requireThumb, above)
                then Collapse(Key, before) + [Entry(words[n], Stack)] else Collapse(Key, before))
            && LastKey(after) == Preceding(words, |words|, ranges, requireThumb, above)
  {
    hide Plausible, LooksLikeReturnAddress, Trace, Collapse, LastKey, Above;
    var n := |words| - 1;
    var word, kept := words[n], Candidates(words[..n], ranges, requireThumb);
    PrecedingFront(words, n, n, ranges, requireThumb, Above(pc, lr));
    PlausibleIsAccepted(word, ranges, requireThumb);
    if LooksLikeReturnAddress(word, ranges, requireThumb) {
      KeepOneMore(pc, lr, kept, word);
      PushCollapses(Entry(word, Stack), Trace(pc, lr, kept));
      LastOfLonger(Trace(pc, lr, kept), Entry(word, Stack));
    }
  }

  lemma LastOfLonger(trace: seq<Entry>, entry: Entry)
    ensures LastKey(trace + [entry]) == Some(entry.address - entry.address % 2)
  {
  }

  // ---------------------------------------------------------------------------
  // Frames
  // ---------------------------------------------------------------------------

  /** The frames are, cut at `maxFrames`: the program counter, the link register unless it
      repeats the program counter, and the stack words at `places`. */
  ghost predicate AreFrames(frames: seq<Frame>, symbolizer: Symbolizer, pc: Option<int>, lr: Option<int>,
                            words: seq<int>, places: seq<nat>, maxFrames: nat)
    requires forall i :: 0 <= i < |places| ==> places[i] < |words|
  {
    var k := RegisterFrames(pc, lr);
    && |frames| == (if k + |places| < maxFrames then k + |places| else maxFrames)
    && (|frames| > 0 && pc.Some? ==> frames[0] == symbolizer.Resolve(pc.value, Pc))
    && (|frames| > 0 && pc.None? && lr.Some? ==> frames[0] == symbolizer.Resolve(lr.value, Lr))
    && (|frames| > 1 && k == 2 ==> frames[1] == symbolizer.Resolve(lr.value, Lr))
    && forall i :: k <= i < |frames| ==> frames[i] == symbolizer.Resolve(words[places[i - k]], Stack)
  }

  lemma CutEntries(entries: seq<Entry>, symbolizer: Symbolizer, pc: Option<int>, lr: Option<int>, words: seq<int>,
                   places: seq<nat>, maxFrames: nat)
    requires forall i :: 0 <= i < |places| ==> places[i] < |words|
    requires AreEntries(entries, pc, lr, words, places)
    ensures AreFrames(ResolveAll(symbolizer, Take(entries, maxFrames)), symbolizer, pc, lr, words, places, maxFrames)
  {
    hide Symbolizer.Resolve;
    var k, frames := RegisterFrames(pc, lr), ResolveAll(symbolizer, Take(entries, maxFrames));
    forall i | k <= i < |frames| ensures frames[i] == symbolizer.Resolve(words[places[i - k]], Stack) {
      assert entries[k + (i - k)] == Entry(words[places[i - k]], Stack);
    }
  }

  lemma ChainedFrames(symbolizer: Symbolizer, pc: Option<int>, lr: Option<int>, words: seq<int>, ranges: seq<Section>,
                      requireThumb: bool, maxFrames: nat) returns (places: seq<nat>)
    ensures AreStackPlaces(places, words, ranges, requireThumb, Above(pc, lr))
    ensures var all := Candidates(words, ranges, requireThumb);
            AreFrames(ResolveAll(symbolizer, Chain(Trace(pc, lr, all), maxFrames)), symbolizer, pc, lr, words, places, maxFrames)
  {
    hide AreEntries, AreFrames, Candidates, Trace, Collapse, Plausible, Contributes;
    places := EntriesOfTheChain(pc, lr, words, ranges, requireThumb);
    CutEntries(Collapse(Key, Trace(pc, lr, Candidates(words, ranges, requireThumb))), symbolizer, pc, lr, words, places, maxFrames);
  }

  /** The reconstructed chain starts with the program counter, then comes the link register,
      then the plausible stack words as they lie on the stack, an address that repeats the one
      before it left out; and nothing else comes. */
  lemma FramesFollowTheEvidence(analysis: StackAnalysis, words: seq<int>, symbolizer: Symbolizer, ranges: seq<Section>,
                                pc: Option<int>, lr: Option<int>, requireThumb: bool, maxFrames: nat)
      returns (places: seq<nat>)
    requires IsAnalysisOf(analysis, words, symbolizer, ranges, pc, lr, requireThumb, maxFrames)
    ensures AreStackPlaces(places, words, ranges, requireThumb, Above(pc, lr))
    ensures AreFrames(analysis.frames, symbolizer, pc, lr, words, places, maxFrames)
  {
    hide AreFrames, Candidates, Trace, Collapse, Plausible, Contributes, Chain, StopsAfter, Full;
    places := ChainedFrames(symbolizer, pc, lr, words, ranges, requireThumb, maxFrames);
  }

  /** The positions of the plausible words, in stack order. */
  ghost predicate ArePlausiblePlaces(at: seq<nat>, words: seq<int>, ranges: seq<Section>, requireThumb: bool) {
    && (forall i, j :: 0 <= i < j < |at| ==> at[i] < at[j])
    && (forall i :: 0 <= i < |at| ==> at[i] < |words|)
    && (forall p: nat :: p < |words| ==> (p in at <==> Plausible(words[p], ranges, requireThumb)))
  }

  lemma {:induction false} CandidatePlaces(words: seq<int>, ranges: seq<Section>, requireThumb: bool) returns (at: seq<nat>)
    ensures ArePlausiblePlaces(at, words, ranges, requireThumb)
    ensures var all := Candidates(words, ranges, requireThumb);
            |all| == |at| && forall i :: 0 <= i < |at| ==> all[i] == words[at[i]]
  {
    hide Plausible, LooksLikeReturnAddress;
    if words == [] {
      at := [];
    } else {
      var n := |words| - 1;
      at := CandidatePlaces(words[..n], ranges, requireThumb);
      PlausibleIsAccepted(words[n], ranges, requireThumb);
      if LooksLikeReturnAddress(words[n], ranges, requireThumb) {
        at := at + [n];
      }
    }
  }

  /** The candidates are the plausible words without their lowest bit, all of them unless the
      scan stopped, which it did exactly if there was one and the chain was full; and the
      warnings say so. */
  lemma CandidatesFollowTheEvidence(analysis: StackAnalysis, words: seq<int>, symbolizer: Symbolizer,
                                    ranges: seq<Section>, pc: Option<int>, lr: Option<int>, requireThumb: bool,
                                    maxFrames: nat) returns (at: seq<nat>, places: seq<nat>)
    requires IsAnalysisOf(analysis, words, symbolizer, ranges, pc, lr, requireThumb, maxFrames)
    ensures ArePlausiblePlaces(at, words, ranges, requireThumb)
    ensures AreStackPlaces(places, words, ranges, requireThumb, Above(pc, lr))
    ensures var stopped := at != [] && RegisterFrames(pc, lr) + |places| >= maxFrames;
            && |analysis.candidates| <= |at| && (!stopped ==> |analysis.candidates| == |at|)
            && (at != [] ==> analysis.candidates != [])
            && (forall i :: 0 <= i < |analysis.candidates| ==> analysis.candidates[i] == words[at[i]] - words[at[i]] % 2)
            && analysis.wordsScanned == |words|
            && analysis.warnings ==
               (if ranges == [] then [NoExecutableRanges] else []) + (if stopped then [StoppedAtMaxFrames] else []) +
               (if words != [] && at == [] then [NoPlausibleAddresses] else [])
  {
    hide Candidates, Trace, Collapse, Plausible, Contributes, Chain, ResolveAll;
    at := CandidatePlaces(words, ranges, requireThumb);
    places := EntriesOfTheChain(pc, lr, words, ranges, requireThumb);
    var all, n := Candidates(words, ranges, requireThumb), |analysis.candidates|;
    if n < |all| {
      FullChainIsFinal(pc, lr, all[..n], all, maxFrames);
    }
  }

  /** What a resolved address shows: where it came from, whether it was odd, and, if it lies in
      a function of the table, that function's name and the distance from its start. */
  lemma FramePointsIntoItsFunction(symbols: seq<Symbol>, arm: bool, address: int, origin: Origin)
    ensures var frame := Symbolizer(BuildIndex(symbols), arm).Resolve(address, origin);
            && frame.origin == origin && (frame.thumb <==> address % 2 == 1)
            && frame.address == (if arm then address - address % 2 else address)
            && (frame.resolved <==> frame.name.Some?) && (frame.resolved <==> frame.offset.Some?)
            && (frame.resolved ==>
                  exists s :: s in symbols && frame.name == Some(s.name) && Reaches(s, frame.offset.value, frame.address))
  {
    var frame := Symbolizer(BuildIndex(symbols), arm).Resolve(address, origin);
    LookupIsSound(frame.address, symbols);
  }

  predicate Reaches(s: Symbol, offset: int, address: int) {
    s.address + offset == address && 0 <= offset && (offset < s.size || offset < 1)
  }

  /** With the symbols of a build at hand the frames of a crash are those of its chain. */
  lemma SymbolizedFrames(e: Evidence, build: Build, limits: Limits) returns (places: seq<nat>)
    requires build.symbols != []
    ensures AreStackPlaces(places, e.words, build.executable, limits.requireThumb, Above(e.pc, e.lr))
    ensures AreFrames(FramesFor(e, Some(build), limits), SymbolizerFor(build), e.pc, e.lr, e.words, places, limits.maxFrames)
  {
    hide AreFrames, Candidates, Trace, Collapse, Plausible, Contributes, Chain, SymbolizerFor;
    places := ChainedFrames(SymbolizerFor(build), e.pc, e.lr, e.words, build.executable, limits.requireThumb, limits.maxFrames);
  }

  /** Without symbols they are the raw addresses: both registers, repeats included, and the
      first eight stack words, whatever they hold. */
  lemma UnsymbolizedFrames(e: Evidence, build: Option<Build>, limits: Limits)
    requires build.None? || build.value.symbols == []
    ensures var frames := FramesFor(e, build, limits);
            var first := if e.pc.Some? then 1 else 0;
            var k := first + if e.lr.Some? then 1 else 0;
            && |frames| == k + (if |e.words| < 8 then |e.words| else 8)
            && (e.pc.Some? ==> frames[0] == Frame(e.pc.value, Pc, None, None, false, false))
            && (e.lr.Some? ==> frames[first] == Frame(e.lr.value, Lr, None, None, false, false))
            && forall i :: k <= i < |frames| ==> frames[i] == Frame(e.words[i - k], Stack, None, None, false, false)
  {
    hide Map;
  }

  // ---------------------------------------------------------------------------
  // Names
  // ---------------------------------------------------------------------------

  /** The normalised name of the innermost frame that resolved to a name. */
  function InnermostName(frames: seq<Frame>): Option<string> {
    if frames == [] then None
    else if frames[0].resolved && frames[0].name.Some? && frames[0].name.value != ""
    then Some(NormalizeFunctionName(frames[0].name.value))
    else InnermostName(frames[1..])
  }

  lemma {:induction false} NamesCons(frames: seq<Frame>)
    requires frames != []
    ensures ResolvedNames(frames) ==
            (if Names(frames[0]) then [NameOf(frames[0])] else []) + ResolvedNames(frames[1..])
  {
    hide NameOf, Names;
    if |frames| == 1 {
      assert frames[..0] == [] && frames[1..] == [];
    } else {
      var n := |frames| - 1;
      NamesCons(frames[..n]);
      assert frames[..n][1..] == frames[1..][..n - 1];
    }
  }

  lemma {:induction false} InnermostIsFirst(frames: seq<Frame>)
    ensures InnermostName(frames) == if ResolvedNames(frames) == [] then None else Some(ResolvedNames(frames)[0])
  {
    hide NormalizeFunctionName;
    if frames != [] {
      InnermostIsFirst(frames[1..]);
      NamesCons(frames);
    }
  }

  /** What heads the group: the fault in the innermost function, else in the task, else alone;
      and the top function is the innermost one, cut to 255 characters. */
  lemma HeadlineOfFrames(faultType: string, frames: seq<Frame>, task: Option<string>)
    ensures var top, fault := InnermostName(frames), SpaceForUnderscore(faultType);
            && Title(faultType, ResolvedNames(frames), task) ==
               (if top.Some? then fault + " in " + top.value
                else if task.Some? && task.value != "" then fault + " in task " + task.value
                else fault)
            && TopFunction(ResolvedNames(frames)) ==
               (if top.None? then None else if |top.value| <= 255 then top else Some(top.value[..255]))
  {
    hide InnermostName, ResolvedNames, SpaceForUnderscore;
    InnermostIsFirst(frames);
  }

  /** Whenever the program counter lies in a function with a name, title and top function are
      that function's, whatever else is on the stack. */
  lemma ProgramCounterNamesTheCrash(e: Evidence, build: Build, limits: Limits, s: Symbol, faultType: string,
                                    task: Option<string>)
    requires e.pc.Some? && limits.maxFrames > 0 && s.name != ""
    requires Lookup(if build.arm then e.pc.value - e.pc.value % 2 else e.pc.value, BuildIndex(build.symbols)) == Some(s)
    ensures var names := ResolvedNames(FramesFor(e, Some(build), limits));
            var name := NormalizeFunctionName(s.name);
            && Title(faultType, names, task) == SpaceForUnderscore(faultType) + " in " + name
            && TopFunction(names) == Some(if |name| <= 255 then name else name[..255])
  {
    hide SpaceForUnderscore, NormalizeFunctionName, ResolvedNames, FramesFor, Title, TopFunction, AreStackPlaces, Lookup,
         BuildIndex;
    var address := if build.arm then e.pc.value - e.pc.value % 2 else e.pc.value;
    LookupIsSound(address, build.symbols);
    assert s in build.symbols;
    var places := SymbolizedFrames(e, build, limits);
    HeadlineOfFrames(faultType, FramesFor(e, Some(build), limits), task);
  }

  // ---------------------------------------------------------------------------
  // Clones and depth
  // ---------------------------------------------------------------------------

  /** The suffixes a compiler gives to the clones of a function. */
  predicate MarksAClone(kind: string) {
    kind == "constprop" || kind == "isra" || kind == "part" || kind == "cold" || kind == "lto_priv" || kind == "clone"
  }

  lemma {:induction false} SuffixAfterBase(base: string, suffix: string)
    requires '.' !in base && IsCloneSuffix(suffix)
    ensures DropCloneSuffix(base + suffix) == base
  {
    hide IsCloneSuffix;
    if base == "" {
      assert base + suffix == suffix;
    } else {
      var s := base + suffix;
      assert s[0] == base[0] && s[1..] == base[1..] + suffix;
      SuffixAfterBase(base[1..], suffix);
      SuffixStartsWithDot(s);
    }
  }

  lemma SuffixStartsWithDot(s: string)
    ensures IsCloneSuffix(s) ==> s != "" && s[0] == '.'
  {
  }

  lemma {:induction false} NoDotNoSuffix(base: string)
    requires '.' !in base
    ensures DropCloneSuffix(base) == base
  {
    hide IsCloneSuffix;
    if base != "" {
      NoDotNoSuffix(base[1..]);
      SuffixStartsWithDot(base);
    }
  }

  lemma IsMarked(kind: string, tail: string)
    requires MarksAClone(kind) && AllDigits(tail)
    ensures IsCloneSuffix("." + kind + tail) && IsCloneSuffix("." + kind + "." + tail)
  {
    KindIsListed(kind);
    var i :| 0 <= i < |CLONE_KINDS| && CLONE_KINDS[i] == kind;
    var head := "." + CLONE_KINDS[i];
    assert head <= "." + kind + tail && ("." + kind + tail)[|head|..] == tail;
    assert head <= "." + kind + "." + tail && ("." + kind + "." + tail)[|head|..] == "." + tail;
    assert ("." + tail)[1..] == tail;
    assert AllDigits(tail) && (tail != "" ==> tail[0] != '.');
  }

  lemma KindIsListed(kind: string)
    requires MarksAClone(kind)
    ensures exists i :: 0 <= i < |CLONE_KINDS| && CLONE_KINDS[i] == kind
  {
    assert CLONE_KINDS[0] == "constprop" && CLONE_KINDS[1] == "isra" && CLONE_KINDS[2] == "part";
    assert CLONE_KINDS[3] == "cold" && CLONE_KINDS[4] == "lto_priv" && CLONE_KINDS[5] == "clone";
  }

  /** The clones a compiler makes of a function share its name, numbered or not, and
      whitespace around a name does not matter. */
  lemma ClonesShareAName(base: string, kind: string, digits: string, before: string, after: string)
    requires MarksAClone(kind) && AllDigits(digits) && AllSpace(before) && AllSpace(after)
    requires base != "" && '.' !in base && !IsSpace(base[0]) && !IsSpace(base[|base| - 1])
    ensures NormalizeFunctionName(before + base + after) == base
    ensures NormalizeFunctionName(before + (base + ("." + kind + digits)) + after) == base
    ensures NormalizeFunctionName(before + (base + ("." + kind + "." + digits)) + after) == base
  {
    hide DropCloneSuffix, IsCloneSuffix, Strip, AllSpace;
    var plain, dotted := "." + kind + digits, "." + kind + "." + digits;
    IsMarked(kind, digits);
    NoDotNoSuffix(base);
    SuffixAfterBase(base, plain);
    SuffixAfterBase(base, dotted);
    LastOfClone(kind, digits);
    StripOfPadded(before, base, after);
    StripOfPadded(before, base + plain, after);
    StripOfPadded(before, base + dotted, after);
  }

  lemma LastOfClone(kind: string, digits: string)
    requires MarksAClone(kind) && AllDigits(digits)
    ensures var plain, dotted := "." + kind + digits, "." + kind + "." + digits;
            !IsSpace(plain[|plain| - 1]) && !IsSpace(dotted[|dotted| - 1])
  {
    var plain, dotted := "." + kind + digits, "." + kind + "." + digits;
    if digits != "" {
      assert plain[|plain| - 1] == digits[|digits| - 1] == dotted[|dotted| - 1];
      assert IsDigit(digits[|digits| - 1]);
    } else {
      assert plain[|plain| - 1] == kind[|kind| - 1];
      assert dotted[|dotted| - 1] == '.';
    }
  }

  /** A dot, one of those marks, an optional dot and an optional number. */
  ghost predicate IsCloneMark(s: string) {
    exists kind: string, tail: string :: MarksAClone(kind) && AllDigits(tail) && Spelled(s, kind, tail)
  }

  predicate Spelled(s: string, kind: string, tail: string) { s == "." + kind + tail || s == "." + kind + "." + tail }

  lemma CloneMarksAreSuffixes(s: string)
    ensures IsCloneSuffix(s) <==> IsCloneMark(s)
  {
    if IsCloneMark(s) {
      var kind: string, tail: string :| MarksAClone(kind) && AllDigits(tail) && Spelled(s, kind, tail);
      IsMarked(kind, tail);
    }
    forall i | 0 <= i < |CLONE_KINDS| && "." + CLONE_KINDS[i] <= s && AllDigits(AfterDot(s[|"." + CLONE_KINDS[i]|..]))
      ensures IsCloneMark(s)
    {
      ListedKinds(i);
      SuffixIsSpelled(s, CLONE_KINDS[i]);
    }
  }

  function AfterDot(rest: string): string { if rest != "" && rest[0] == '.' then rest[1..] else rest }

  lemma SuffixIsSpelled(s: string, kind: string)
    requires "." + kind <= s
    ensures Spelled(s, kind, AfterDot(s[|"." + kind|..]))
  {
    var rest := s[|"." + kind|..];
    assert s == "." + kind + rest;
    if rest != "" && rest[0] == '.' {
      assert rest == "." + rest[1..];
    }
  }

  lemma ListedKinds(i: nat)
    requires i < |CLONE_KINDS|
    ensures MarksAClone(CLONE_KINDS[i])
  {
  }

  /** A name loses at most one clone mark, the longest there is at its end, and nothing else;
      one without a mark at its end stays as it is. */
  lemma {:induction false} OneMarkGoes(s: string)
    ensures var kept := DropCloneSuffix(s);
            && kept <= s && (kept != s ==> IsCloneMark(s[|kept|..]))
            && forall k :: 0 <= k < |kept| ==> !IsCloneMark(s[k..])
  {
    hide IsCloneMark, IsCloneSuffix;
    CloneMarksAreSuffixes(s);
    assert s[0..] == s;
    if s != "" && !IsCloneSuffix(s) {
      OneMarkGoes(s[1..]);
      var kept := DropCloneSuffix(s[1..]);
      assert s == [s[0]] + s[1..];
      forall k | 0 <= k < |kept| + 1 ensures !IsCloneMark(s[k..]) {
        assert k > 0 ==> s[k..] == s[1..][k - 1..];
      }
      assert s[|kept| + 1..] == s[1..][|kept|..];
    }
  }

  // ---------------------------------------------------------------------------
  // What is hashed
  // ---------------------------------------------------------------------------

  /** Five names tell the bug, neighbours in one function counting once; deeper frames are
      not looked at. */
  lemma FiveNamesTellTheBug(frames: seq<Frame>, deeper: seq<Frame>)
    ensures var names, all := SignatureNames(frames), Collapse(Self, ResolvedNames(frames));
            && names <= all && |names| == (if |all| < 5 then |all| else 5)
            && (|all| >= 5 ==> SignatureNames(frames + deeper) == names)
  {
    assert (frames + deeper)[..|frames|] == frames;
    NamesPrefix(frames + deeper, |frames|);
  }

  lemma HashedStart(c: Components)
    ensures Payload(c) == "v1|" + c.faultType + "|" + c.task + "|" + Location(c)
  {
    hide Location;
    assert SIGNATURE_VERSION + "|" == "v1|";
  }

  /** The hashed text, part by part; a program counter is written in decimal. */
  lemma HashedTextReads(c: Components)
    ensures var start := "v1|" + c.faultType + "|" + c.task + "|";
            match c
            case Symbolized(_, _, names) => Payload(c) == start + Join('>', names)
            case Unsymbolized(_, _, pc, firmware) =>
              var digits := if pc.Some? then Decimal(pc.value) else "None";
              && Payload(c) == start + ("pc=" + digits + "&fw=" + firmware)
              && (pc.Some? ==> AllDigits(digits) && DecimalValue(digits) == pc.value && (pc.value > 0 ==> digits[0] != '0'))
  {
    hide Payload, Decimal, DecimalValue, Join;
    HashedStart(c);
    if c.Unsymbolized? && c.pc.Some? {
      DecimalDenotes(c.pc.value);
    }
  }
}
