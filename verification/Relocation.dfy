/** From the addresses of a crash to its call chain, and why the names found there do not
    depend on where the linker put the code: backend/app/services/symbolication.py. */
module Relocation {
  import opened Wrappers
  import opened Sequences
  import opened StableSort
  import opened ElfIndex
  import opened StackAnalyzer
  import opened Signature

  const RAW_STACK_WORDS: nat := 8

  datatype Build = Build(symbols: seq<Symbol>, executable: seq<Section>, arm: bool)

  datatype Evidence = Evidence(pc: Option<nat>, lr: Option<nat>, words: seq<nat>)

  datatype Limits = Limits(requireThumb: bool, maxFrames: nat)

  function Unresolved(entry: Entry): Frame {
    Frame(entry.address, entry.origin, None, None, false, false)
  }

  /** Without symbols the raw addresses are recorded: both registers and a few stack words. */
  function RawFrames(e: Evidence): seq<Frame> {
    Map(Unresolved, Trace(e.pc, e.lr, Take(e.words, RAW_STACK_WORDS)))
  }

  function SymbolizerFor(build: Build): Symbolizer {
    Symbolizer(BuildIndex(build.symbols), build.arm)
  }

  function FramesFor(e: Evidence, build: Option<Build>, limits: Limits): seq<Frame> {
    if build.None? || build.value.symbols == [] then RawFrames(e)
    else
      var all := Candidates(e.words, build.value.executable, limits.requireThumb);
      ResolveAll(SymbolizerFor(build.value), Chain(Trace(e.pc, e.lr, all), limits.maxFrames))
  }

  method ResolveFrames(e: Evidence, build: Option<Build>, limits: Limits) returns (frames: seq<Frame>)
    ensures frames == FramesFor(e, build, limits)
  {
    if build.None? || build.value.symbols == [] {
      return RawFrames(e);
    }
    var analysis := ReconstructStack(e.words, SymbolizerFor(build.value), build.value.executable,
                                     e.pc, e.lr, limits.requireThumb, limits.maxFrames);
    frames := analysis.frames;
  }

  // ---------------------------------------------------------------------------
  // Relocation
  // ---------------------------------------------------------------------------

  /** A placement of addresses that moves whole instructions and keeps distinct ones apart. */
  ghost predicate EvenRelocation(rho: int -> int) {
    && (forall x :: rho(ClearThumb(x)) == ClearThumb(rho(x)))
    && (forall x :: IsThumb(rho(x)) == IsThumb(x))
    && (forall x, y :: rho(x) == rho(y) ==> x == y)
  }

  function NameAt(a: int, symbols: seq<Symbol>): Option<string> {
    var s := Lookup(a, BuildIndex(symbols));
    if s.Some? then Some(s.value.name) else None
  }

  /** Looking up an address gives the name that looking up the moved address gives. */
  ghost predicate SameLookups(rho: int -> int, from: seq<Symbol>, to: seq<Symbol>) {
    forall a :: NameAt(a, from) == NameAt(rho(a), to)
  }

  /** The relocated build accepts a stack word exactly when the original accepted it, and an
      accepted word is the relocated address. Rejected words may hold anything. */
  ghost predicate MovesWords(rho: int -> int, from: seq<int>, to: seq<int>,
                             fromBuild: Build, toBuild: Build, requireThumb: bool)
  {
    && |from| == |to|
    && forall i :: 0 <= i < |from| ==>
         var accepted := LooksLikeReturnAddress(from[i], fromBuild.executable, requireThumb);
         && LooksLikeReturnAddress(to[i], toBuild.executable, requireThumb) == accepted
         && (accepted ==> to[i] == rho(from[i]))
  }

  ghost predicate MovesRegister(rho: int -> int, from: Option<nat>, to: Option<nat>) {
    && from.Some? == to.Some?
    && (from.Some? ==> to.value == rho(from.value))
  }

  ghost predicate Relocated(rho: int -> int, e: Evidence, e': Evidence, b: Build, b': Build, limits: Limits) {
    && EvenRelocation(rho) && b.arm == b'.arm
    && SameLookups(rho, b.symbols, b'.symbols)
    && MovesRegister(rho, e.pc, e'.pc) && MovesRegister(rho, e.lr, e'.lr)
    && MovesWords(rho, e.words, e'.words, b, b', limits.requireThumb)
  }

  ghost predicate Covered(a: int, symbols: seq<Symbol>) {
    exists f :: f in symbols && f.Contains(a)
  }

  /** Every address of a function lands in a function of the same name, and an address
      outside all functions stays outside. */
  ghost predicate CarriesFunctions(rho: int -> int, from: seq<Symbol>, to: seq<Symbol>) {
    && (forall a, f :: f in from && f.Contains(a) ==>
          exists g :: g in to && g.name == f.name && g.Contains(rho(a)))
    && (forall a :: Covered(rho(a), to) ==> Covered(a, from))
  }

  /** For tables of disjoint ranges it is enough that functions are carried onto functions. */
  lemma CarriedFunctionsLookUpAlike(rho: int -> int, from: seq<Symbol>, to: seq<Symbol>)
    requires Disjoint(from) && Disjoint(to) && CarriesFunctions(rho, from, to)
    ensures SameLookups(rho, from, to)
  {
    forall a ensures NameAt(a, from) == NameAt(rho(a), to) {
      CarriedFunctionLooksUpAlike(rho, from, to, a);
    }
  }

  lemma CarriedFunctionLooksUpAlike(rho: int -> int, from: seq<Symbol>, to: seq<Symbol>, a: int)
    requires Disjoint(from) && Disjoint(to) && CarriesFunctions(rho, from, to)
    ensures NameAt(a, from) == NameAt(rho(a), to)
  {
    var s, t := Lookup(a, BuildIndex(from)), Lookup(rho(a), BuildIndex(to));
    if s.Some? {
      DisjointLookupIsScan(a, from, s.value);
      var g :| g in to && g.name == s.value.name && g.Contains(rho(a));
      DisjointLookupIsScan(rho(a), to, g);
    } else if t.Some? {
      DisjointLookupIsScan(rho(a), to, t.value);
      assert Covered(rho(a), to);
      assert Covered(a, from);
      var f :| f in from && f.Contains(a);
      DisjointLookupIsScan(a, from, f);
    }
  }

  function Moved(rho: int -> int): Entry -> Entry {
    (e: Entry) => Entry(rho(e.address), e.origin)
  }

  lemma {:induction false} CandidatesFollow(rho: int -> int, w: seq<int>, w': seq<int>, b: Build, b': Build,
                                            requireThumb: bool)
    requires MovesWords(rho, w, w', b, b', requireThumb)
    ensures var c := Candidates(w, b.executable, requireThumb);
            var c' := Candidates(w', b'.executable, requireThumb);
            |c| == |c'| && forall i :: 0 <= i < |c| ==> c'[i] == rho(c[i])
  {
    if w != [] {
      var n := |w| - 1;
      CandidatesFollow(rho, w[..n], w'[..n], b, b', requireThumb);
      assert LooksLikeReturnAddress(w[n], b.executable, requireThumb) ==
             LooksLikeReturnAddress(w'[n], b'.executable, requireThumb);
    }
  }

  lemma TraceFollows(rho: int -> int, e: Evidence, e': Evidence, c: seq<int>, c': seq<int>)
    requires MovesRegister(rho, e.pc, e'.pc) && MovesRegister(rho, e.lr, e'.lr)
    requires |c| == |c'| && forall i :: 0 <= i < |c| ==> c'[i] == rho(c[i])
    ensures var t, t' := Trace(e.pc, e.lr, c), Trace(e'.pc, e'.lr, c');
            |t| == |t'| && forall i :: 0 <= i < |t| ==> t'[i] == Moved(rho)(t[i])
  {
  }

  lemma KeyFollows(rho: int -> int, x: Entry, y: Entry)
    requires EvenRelocation(rho)
    ensures Key(Moved(rho)(x)) == Key(Moved(rho)(y)) <==> Key(x) == Key(y)
  {
    assert Key(Moved(rho)(x)) == rho(Key(x));
    assert Key(Moved(rho)(y)) == rho(Key(y));
  }

  lemma ChainFollows(rho: int -> int, t: seq<Entry>, t': seq<Entry>, maxFrames: nat)
    requires EvenRelocation(rho)
    requires |t| == |t'| && forall i :: 0 <= i < |t| ==> t'[i] == Moved(rho)(t[i])
    ensures var c, c' := Chain(t, maxFrames), Chain(t', maxFrames);
            |c| == |c'| && forall i :: 0 <= i < |c| ==> c'[i] == Moved(rho)(c[i])
  {
    hide EvenRelocation, Key, Moved, Collapse;
    forall i | 0 < i < |t| ensures Key(t'[i - 1]) == Key(t'[i]) <==> Key(t[i - 1]) == Key(t[i]) {
      KeyFollows(rho, t[i - 1], t[i]);
    }
    CollapseOfImages(Moved(rho), Key, Key, t, t');
  }

  /** Frames whose functions carry the same names, pairwise, yield the same list of names. */
  lemma {:induction false} SameNames(f: seq<Frame>, f': seq<Frame>)
    requires |f| == |f'|
    requires forall i :: 0 <= i < |f| ==> f[i].resolved == f'[i].resolved && f[i].name == f'[i].name
    ensures ResolvedNames(f) == ResolvedNames(f')
  {
    if f != [] {
      SameNames(f[..|f| - 1], f'[..|f| - 1]);
    }
  }

  lemma {:induction false} NoNames(f: seq<Frame>)
    requires forall i :: 0 <= i < |f| ==> !f[i].resolved
    ensures ResolvedNames(f) == []
  {
    if f != [] {
      NoNames(f[..|f| - 1]);
    }
  }

  lemma ResolveFollows(rho: int -> int, b: Build, b': Build, entry: Entry)
    requires EvenRelocation(rho) && b.arm == b'.arm && SameLookups(rho, b.symbols, b'.symbols)
    ensures var f := SymbolizerFor(b).Resolve(entry.address, entry.origin);
            var f' := SymbolizerFor(b').Resolve(rho(entry.address), entry.origin);
            f.resolved == f'.resolved && f.name == f'.name
  {
    var clean := SymbolizerFor(b).Clean(entry.address);
    assert NameAt(clean, b.symbols) == NameAt(rho(clean), b'.symbols);
  }

  /** The chain of a crash, resolved against the build even if it has no symbols. */
  function ResolvedChain(e: Evidence, b: Build, limits: Limits): seq<Frame> {
    var all := Candidates(e.words, b.executable, limits.requireThumb);
    ResolveAll(SymbolizerFor(b), Chain(Trace(e.pc, e.lr, all), limits.maxFrames))
  }

  /** A build without symbols gives no names either way. */
  lemma NamesOfChain(e: Evidence, b: Build, limits: Limits)
    ensures ResolvedNames(FramesFor(e, Some(b), limits)) == ResolvedNames(ResolvedChain(e, b, limits))
  {
    if b.symbols == [] {
      NoNames(RawFrames(e));
      assert SymbolizerFor(b).index == [];
      NoNames(ResolvedChain(e, b, limits));
    }
  }

  /** The heart of grouping across builds: relinking the code changes no name in the chain. */
  lemma NamesSurviveRelocation(rho: int -> int, e: Evidence, e': Evidence, b: Build, b': Build, limits: Limits)
    requires Relocated(rho, e, e', b, b', limits)
    ensures ResolvedNames(FramesFor(e, Some(b), limits)) == ResolvedNames(FramesFor(e', Some(b'), limits))
  {
    NamesOfChain(e, b, limits);
    NamesOfChain(e', b', limits);
    hide FramesFor, Candidates, Collapse, ResolvedNames;
    var c := Candidates(e.words, b.executable, limits.requireThumb);
    var c' := Candidates(e'.words, b'.executable, limits.requireThumb);
    CandidatesFollow(rho, e.words, e'.words, b, b', limits.requireThumb);
    var t, t' := Trace(e.pc, e.lr, c), Trace(e'.pc, e'.lr, c');
    TraceFollows(rho, e, e', c, c');
    var chain, chain' := Chain(t, limits.maxFrames), Chain(t', limits.maxFrames);
    ChainFollows(rho, t, t', limits.maxFrames);
    var f, f' := ResolvedChain(e, b, limits), ResolvedChain(e', b', limits);
    forall i | 0 <= i < |f| ensures f[i].resolved == f'[i].resolved && f[i].name == f'[i].name {
      ResolveFollows(rho, b, b', chain[i]);
    }
    SameNames(f, f');
  }

  function SignatureOf(faultType: string, task: Option<string>, names: seq<string>,
                       pc: Option<nat>, firmware: string, hash: string -> string): string
  {
    hash(Payload(ComponentsOf(faultType, task, names, pc, firmware)))
  }

  /** The same bug in a relinked build keeps its title and top function, and it keeps its
      signature exactly when some frame resolves, whatever the firmware version; a crash with
      no resolved frame is scoped to its program counter and firmware. */
  lemma RelocationKeepsTheGroup(rho: int -> int, e: Evidence, e': Evidence, b: Build, b': Build,
                                limits: Limits, faultType: string, task: Option<string>,
                                firmware: string, firmware': string, hash: string -> string)
    requires Relocated(rho, e, e', b, b', limits)
    requires Injective(hash) && Free('|', faultType) && Free('|', firmware) && Free('|', firmware')
    ensures var f, f' := FramesFor(e, Some(b), limits), FramesFor(e', Some(b'), limits);
            var names, names' := SignatureNames(f), SignatureNames(f');
            && Title(faultType, ResolvedNames(f), task) == Title(faultType, ResolvedNames(f'), task)
            && TopFunction(ResolvedNames(f)) == TopFunction(ResolvedNames(f'))
            && (SignatureOf(faultType, task, names, e.pc, firmware, hash) ==
                SignatureOf(faultType, task, names', e'.pc, firmware', hash)
                <==> ResolvedNames(f) != [] || (e.pc == e'.pc && firmware == firmware'))
  {
    NamesSurviveRelocation(rho, e, e', b, b', limits);
    var f := FramesFor(e, Some(b), limits);
    SignatureNamesHead(f);
    if ResolvedNames(f) == [] {
      var x := ComponentsOf(faultType, task, [], e.pc, firmware);
      var y := ComponentsOf(faultType, task, [], e'.pc, firmware');
      if Payload(x) == Payload(y) {
        PayloadIsInjective(x, y);
      }
    }
  }

  // ---------------------------------------------------------------------------
  // The plain case: everything moves by one even offset
  // ---------------------------------------------------------------------------

  function ShiftSymbol(s: Symbol, d: int): Symbol { s.(address := s.address + d) }

  function ShiftSymbols(symbols: seq<Symbol>, d: int): (r: seq<Symbol>)
    ensures |r| == |symbols|
    ensures forall i :: 0 <= i < |symbols| ==> r[i] == ShiftSymbol(symbols[i], d)
  {
    seq(|symbols|, i requires 0 <= i < |symbols| => ShiftSymbol(symbols[i], d))
  }

  function ShiftSections(sections: seq<Section>, d: int): (r: seq<Section>)
    ensures |r| == |sections|
    ensures forall i :: 0 <= i < |sections| ==> r[i] == Section(sections[i].start + d, sections[i].size)
  {
    seq(|sections|, i requires 0 <= i < |sections| => Section(sections[i].start + d, sections[i].size))
  }

  function ShiftBuild(b: Build, d: int): Build {
    Build(ShiftSymbols(b.symbols, d), ShiftSections(b.executable, d), b.arm)
  }

  function Shift(d: int): int -> int { (x: int) => x + d }

  lemma {:induction false} InsertShifted(x: Symbol, s: seq<Symbol>, d: int)
    ensures Insert(IndexOrder, ShiftSymbol(x, d), ShiftSymbols(s, d)) == ShiftSymbols(Insert(IndexOrder, x, s), d)
  {
    if s == [] || IndexOrder(x, s[0]) {
      assert ShiftSymbols([x] + s, d) == [ShiftSymbol(x, d)] + ShiftSymbols(s, d);
    } else {
      InsertShifted(x, s[1..], d);
      assert ShiftSymbols(s, d)[1..] == ShiftSymbols(s[1..], d);
      var rest := Insert(IndexOrder, x, s[1..]);
      assert ShiftSymbols([s[0]] + rest, d) == [ShiftSymbol(s[0], d)] + ShiftSymbols(rest, d);
    }
  }

  /** The index of the moved table is the moved index, whatever overlaps there are in it. */
  lemma {:induction false} IndexShifted(symbols: seq<Symbol>, d: int)
    ensures BuildIndex(ShiftSymbols(symbols, d)) == ShiftSymbols(BuildIndex(symbols), d)
  {
    if symbols != [] {
      IndexShifted(symbols[1..], d);
      assert ShiftSymbols(symbols, d)[1..] == ShiftSymbols(symbols[1..], d);
      InsertShifted(symbols[0], BuildIndex(symbols[1..]), d);
    }
  }

  lemma {:induction false} FirstAboveShifted(a: seq<int>, moved: seq<int>, x: int, d: int)
    requires |moved| == |a| && forall i :: 0 <= i < |a| ==> moved[i] == a[i] + d
    ensures FirstAbove(moved, x + d) == FirstAbove(a, x)
  {
    if a != [] {
      FirstAboveShifted(a[1..], moved[1..], x, d);
    }
  }

  lemma LookupShifted(index: seq<Symbol>, d: int, a: int)
    ensures var found, moved := Lookup(a, index), Lookup(a + d, ShiftSymbols(index, d));
            found.Some? == moved.Some? && (found.Some? ==> moved.value == ShiftSymbol(found.value, d))
  {
    hide FirstAbove, Addresses;
    FirstAboveShifted(Addresses(index), Addresses(ShiftSymbols(index, d)), a, d);
  }

  lemma ShiftLooksUpAlike(symbols: seq<Symbol>, d: int)
    ensures SameLookups(Shift(d), symbols, ShiftSymbols(symbols, d))
  {
    hide Lookup, BuildIndex, ShiftSymbols;
    IndexShifted(symbols, d);
    forall a ensures NameAt(a, symbols) == NameAt(Shift(d)(a), ShiftSymbols(symbols, d)) {
      LookupShifted(BuildIndex(symbols), d, a);
    }
  }

  lemma ShiftIsEven(d: int)
    requires d % 2 == 0
    ensures EvenRelocation(Shift(d))
  {
    hide ClearThumb, IsThumb;
    forall x: int ensures ClearThumb(x) + d == ClearThumb(x + d) && IsThumb(x + d) == IsThumb(x) {
      EvenOffset(x, d);
    }
  }

  lemma EvenOffset(x: int, d: int)
    requires d % 2 == 0
    ensures ClearThumb(x + d) == ClearThumb(x) + d && IsThumb(x + d) == IsThumb(x)
  {
    assert (x + d) % 2 == x % 2;
  }

  /** The filter rejects zero by value. A word that clears to zero before or after the move,
      and would pass but for that, is accepted on one side only. */
  predicate PassesOnOneSide(word: int, b: Build, d: int, requireThumb: bool) {
    && d != 0 && (requireThumb ==> IsThumb(word))
    && (ClearThumb(word) == 0 || ClearThumb(word) == -d)
    && (b.executable == [] || InSomeRange(ClearThumb(word), b.executable))
  }

  /** The filter decides a word and the moved word alike exactly if it is not such a word. */
  lemma ShiftMovesWordIff(word: int, b: Build, d: int, requireThumb: bool)
    requires d % 2 == 0
    ensures LooksLikeReturnAddress(word + d, ShiftBuild(b, d).executable, requireThumb) ==
            LooksLikeReturnAddress(word, b.executable, requireThumb) <==>
            !PassesOnOneSide(word, b, d, requireThumb)
  {
    assert ClearThumb(word + d) == ClearThumb(word) + d;
    assert IsThumb(word + d) == IsThumb(word);
    ShiftedRanges(ClearThumb(word), b.executable, d);
    hide InSomeRange;
  }

  lemma ShiftedRanges(a: int, ranges: seq<Section>, d: int)
    ensures InSomeRange(a + d, ShiftSections(ranges, d)) <==> InSomeRange(a, ranges)
  {
    var moved := ShiftSections(ranges, d);
    if InSomeRange(a, ranges) {
      var i :| 0 <= i < |ranges| && ranges[i].Contains(a);
      assert moved[i].Contains(a + d);
    }
    if InSomeRange(a + d, moved) {
      var i :| 0 <= i < |moved| && moved[i].Contains(a + d);
      assert ranges[i].Contains(a);
    }
  }

  lemma ShiftMovesWordsIff(words: seq<int>, words': seq<int>, b: Build, d: int, requireThumb: bool)
    requires d % 2 == 0
    requires |words'| == |words| && forall i :: 0 <= i < |words| ==> words'[i] == words[i] + d
    ensures MovesWords(Shift(d), words, words', b, ShiftBuild(b, d), requireThumb) <==>
            forall i :: 0 <= i < |words| ==> !PassesOnOneSide(words[i], b, d, requireThumb)
  {
    hide PassesOnOneSide, LooksLikeReturnAddress, ShiftBuild;
    forall i | 0 <= i < |words|
      ensures LooksLikeReturnAddress(words'[i], ShiftBuild(b, d).executable, requireThumb) ==
              LooksLikeReturnAddress(words[i], b.executable, requireThumb) <==>
              !PassesOnOneSide(words[i], b, d, requireThumb)
    {
      ShiftMovesWordIff(words[i], b, d, requireThumb);
    }
  }

  /** Moving symbols, executable ranges, both registers and every stack word by one even
      offset is a relocation in the sense above, for every symbol table, exactly if no stack
      word is accepted on one side only. */
  lemma ShiftRelocatesIff(e: Evidence, e': Evidence, b: Build, d: int, limits: Limits)
    requires d % 2 == 0
    requires MovesRegister(Shift(d), e.pc, e'.pc) && MovesRegister(Shift(d), e.lr, e'.lr)
    requires |e'.words| == |e.words| && forall i :: 0 <= i < |e.words| ==> e'.words[i] == e.words[i] + d
    ensures Relocated(Shift(d), e, e', b, ShiftBuild(b, d), limits) <==>
            forall i :: 0 <= i < |e.words| ==> !PassesOnOneSide(e.words[i], b, d, limits.requireThumb)
  {
    ShiftIsEven(d);
    ShiftLooksUpAlike(b.symbols, d);
    hide MovesWords, SameLookups, EvenRelocation, PassesOnOneSide;
    ShiftMovesWordsIff(e.words, e'.words, b, d, limits.requireThumb);
  }

  /** One such word is enough to change the names: a return address of zero is no frame, and
      the same address moved is one. */
  lemma ZeroWordChangesTheNames()
    ensures var b := Build([Symbol("f", 0, 4)], [], true);
            var limits := Limits(true, 32);
            && PassesOnOneSide(1, b, 2, true)
            && ResolvedNames(FramesFor(Evidence(None, None, [1]), Some(b), limits)) == []
            && ResolvedNames(FramesFor(Evidence(None, None, [3]), Some(ShiftBuild(b, 2)), limits)) != []
  {
    hide FramesFor, ResolvedNames, BuildIndex, Lookup;
    var b, limits := Build([Symbol("f", 0, 4)], [], true), Limits(true, 32);
    var moved := ShiftBuild(b, 2);
    OneWordNames(1, b, limits);
    OneWordNames(3, moved, limits);
    assert moved.symbols == [Symbol("f", 2, 4)];
    OneSymbol(Symbol("f", 2, 4), 2);
    OneName(SymbolizerFor(moved).Resolve(3, Stack));
  }

  lemma OneWordNames(word: nat, b: Build, limits: Limits)
    requires limits.maxFrames > 0
    ensures ResolvedNames(FramesFor(Evidence(None, None, [word]), Some(b), limits)) ==
            if LooksLikeReturnAddress(word, b.executable, limits.requireThumb)
            then ResolvedNames([SymbolizerFor(b).Resolve(word, Stack)]) else []
  {
    hide FramesFor, ResolvedChain, SymbolizerFor, LooksLikeReturnAddress;
    NamesOfChain(Evidence(None, None, [word]), b, limits);
    OneWord(word, b, limits);
  }

  lemma OneName(frame: Frame)
    requires Names(frame)
    ensures ResolvedNames([frame]) == [NameOf(frame)]
  {
    assert [frame][..0] == [];
  }

  /** The chain of a crash of which only one stack word is known. */
  lemma OneWord(word: nat, b: Build, limits: Limits)
    requires limits.maxFrames > 0
    ensures ResolvedChain(Evidence(None, None, [word]), b, limits) ==
            if LooksLikeReturnAddress(word, b.executable, limits.requireThumb)
            then [SymbolizerFor(b).Resolve(word, Stack)] else []
  {
    assert [word][..0] == [];
    var all := Candidates([word], b.executable, limits.requireThumb);
    assert Candidates([], b.executable, limits.requireThumb) == [];
    assert all == if LooksLikeReturnAddress(word, b.executable, limits.requireThumb) then [word] else [];
    assert Registers(None, None) == [];
    assert Trace(None, None, all) == OnStack(all);
  }

  lemma OneSymbol(s: Symbol, a: int)
    requires s.Contains(a)
    ensures Lookup(a, BuildIndex([s])) == Some(s)
  {
    SortFixesSorted(IndexOrder, [s]);
    FirstAboveShifted([s.address], Addresses([s]), a, 0);
    SplitIsFirstAbove(Addresses([s]), a, 1);
  }
}
