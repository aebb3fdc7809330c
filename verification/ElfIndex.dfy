/** Symbol tables and address lookup: backend/app/services/elf_parser.py. */
module ElfIndex {
  import opened Wrappers
  import opened Sequences
  import opened StableSort

  const MIN_SYMBOL_SIZE := 1

  datatype Symbol = Symbol(name: string, address: int, size: int) {
    /** Exclusive upper bound; a symbol without a size covers one byte. */
    function End(): int {
      address + if size < MIN_SYMBOL_SIZE then MIN_SYMBOL_SIZE else size
    }

    predicate Contains(a: int) { address <= a < End() }
  }

  datatype Section = Section(start: int, size: int) {
    predicate Contains(a: int) { start <= a < start + size }
  }

  /** `address & ~1`. */
  function ClearThumb(address: int): int { address - address % 2 }

  predicate IsThumb(address: int) { address % 2 == 1 }

  // ---------------------------------------------------------------------------
  // The index and the search
  // ---------------------------------------------------------------------------

  /** Ascending start address; of two symbols starting together the larger comes first. */
  predicate IndexOrder(x: Symbol, y: Symbol) {
    x.address < y.address || (x.address == y.address && x.size >= y.size)
  }

  function BuildIndex(symbols: seq<Symbol>): seq<Symbol> {
    Sort(IndexOrder, symbols)
  }

  function Addresses(index: seq<Symbol>): (r: seq<int>)
    ensures |r| == |index|
    ensures forall i :: 0 <= i < |index| ==> r[i] == index[i].address
  {
    Map((s: Symbol) => s.address, index)
  }

  /** How many leading entries are at most `x`; what `bisect_right` finds in a sorted list. */
  function FirstAbove(a: seq<int>, x: int): (n: nat)
    ensures n <= |a|
    ensures forall i :: 0 <= i < n ==> a[i] <= x
    ensures n < |a| ==> x < a[n]
  {
    if a == [] || x < a[0] then 0 else 1 + FirstAbove(a[1..], x)
  }

  ghost predicate Ascending(a: seq<int>) {
    forall i, j :: 0 <= i < j < |a| ==> a[i] <= a[j]
  }

  method BisectRight(a: seq<int>, x: int) returns (lo: nat)
    requires Ascending(a)
    ensures lo == FirstAbove(a, x)
  {
    lo := 0;
    var hi := |a|;
    while lo < hi
      invariant lo <= hi <= |a|
      invariant forall i :: 0 <= i < lo ==> a[i] <= x
      invariant forall i :: hi <= i < |a| ==> x < a[i]
    {
      var mid := (lo + hi) / 2;
      if x < a[mid] {
        hi := mid;
      } else {
        lo := mid + 1;
      }
    }
    SplitIsFirstAbove(a, x, lo);
  }

  lemma {:induction false} SplitIsFirstAbove(a: seq<int>, x: int, n: nat)
    requires n <= |a|
    requires forall i :: 0 <= i < n ==> a[i] <= x
    requires forall i :: n <= i < |a| ==> x < a[i]
    ensures FirstAbove(a, x) == n
  {
    if a != [] && n > 0 {
      SplitIsFirstAbove(a[1..], x, n - 1);
    }
  }

  function Lookup(address: int, index: seq<Symbol>): Option<Symbol> {
    var n := FirstAbove(Addresses(index), address);
    if n == 0 then None
    else if index[n - 1].Contains(address) then Some(index[n - 1])
    else None
  }

  method LookupSymbol(address: int, addresses: seq<int>, symbols: seq<Symbol>)
    returns (found: Option<Symbol>)
    requires Ascending(addresses) && addresses == Addresses(symbols)
    ensures found == Lookup(address, symbols)
  {
    if addresses == [] {
      return None;
    }
    var n := BisectRight(addresses, address);
    if n == 0 {
      return None;
    }
    var candidate := symbols[n - 1];
    found := if candidate.Contains(address) then Some(candidate) else None;
  }

  ghost predicate StartsAscend(index: seq<Symbol>) {
    forall i, j :: 0 <= i < j < |index| ==> index[i].address <= index[j].address
  }

  lemma IndexIsSorted(symbols: seq<Symbol>)
    ensures StartsAscend(BuildIndex(symbols))
    ensures forall s :: s in BuildIndex(symbols) <==> s in symbols
  {
    var index := BuildIndex(symbols);
    SortSorted(IndexOrder, symbols);
    SortElements(IndexOrder, symbols);
    forall i, j | 0 <= i < j < |index| ensures index[i].address <= index[j].address {
      assert IndexOrder(index[i], index[j]);
    }
  }

  /** A lookup never invents a symbol: the answer is in the table and covers the address. */
  lemma LookupIsSound(address: int, symbols: seq<Symbol>)
    ensures var found := Lookup(address, BuildIndex(symbols));
            found.Some? ==> found.value in symbols && found.value.Contains(address)
  {
    IndexIsSorted(symbols);
  }

  // ---------------------------------------------------------------------------
  // When the single candidate is enough
  // ---------------------------------------------------------------------------

  /** Every covered address is resolved. */
  ghost predicate Complete(symbols: seq<Symbol>) {
    forall a, s | s in symbols && s.Contains(a) :: Lookup(a, BuildIndex(symbols)).Some?
  }

  /** The index leaves the bytes between entry `i` and its successor, if any, uncovered by `i`. */
  ghost predicate GapAfter(index: seq<Symbol>, i: nat)
    requires i < |index|
  {
    i == |index| - 1 || index[i].End() < index[i + 1].address
  }

  /** Wherever the index leaves a gap after an entry, no earlier entry reaches into it. */
  ghost predicate NothingOutlivesItsSuccessor(index: seq<Symbol>) {
    forall i, j | 0 <= j < i < |index| && GapAfter(index, i) :: index[j].End() <= index[i].End()
  }

  /** The only symbol a lookup considers. */
  lemma CandidateOf(a: int, index: seq<Symbol>, j: nat) returns (i: nat)
    requires StartsAscend(index)
    requires j < |index| && index[j].address <= a
    ensures j <= i < |index|
    ensures index[i].address <= a && (i + 1 < |index| ==> a < index[i + 1].address)
    ensures Lookup(a, index) == if a < index[i].End() then Some(index[i]) else None
  {
    var starts := Addresses(index);
    var n := FirstAbove(starts, a);
    assert n < |index| ==> a < index[n].address;
    i := n - 1;
  }

  lemma CoveredAddressResolves(index: seq<Symbol>, j: nat, a: int)
    requires StartsAscend(index) && NothingOutlivesItsSuccessor(index)
    requires j < |index| && index[j].Contains(a)
    ensures Lookup(a, index).Some?
  {
    var i := CandidateOf(a, index, j);
    if index[i].End() <= a {
      assert GapAfter(index, i);
    }
  }

  lemma GapHidesAnEarlierSymbol(index: seq<Symbol>, i: nat, j: nat)
    requires StartsAscend(index)
    requires j < i < |index| && GapAfter(index, i) && index[i].End() < index[j].End()
    ensures index[j].Contains(index[i].End())
    ensures Lookup(index[i].End(), index) == None
  {
    forall k | i < k < |index| ensures index[i].End() < index[k].address {
      assert index[i + 1].address <= index[k].address;
    }
    var k := CandidateOf(index[i].End(), index, i);
  }

  /** `lookup_symbol` inspects one candidate only. It finds a symbol for every covered
      address exactly when the index has no gap that an earlier symbol covers. */
  lemma LookupCompleteIff(symbols: seq<Symbol>)
    ensures Complete(symbols) <==> NothingOutlivesItsSuccessor(BuildIndex(symbols))
  {
    var index := BuildIndex(symbols);
    IndexIsSorted(symbols);
    if NothingOutlivesItsSuccessor(index) {
      forall a, s | s in symbols && s.Contains(a) ensures Lookup(a, index).Some? {
        var j :| 0 <= j < |index| && index[j] == s;
        CoveredAddressResolves(index, j, a);
      }
    }
    if Complete(symbols) {
      forall i, j | 0 <= j < i < |index| && GapAfter(index, i)
        ensures index[j].End() <= index[i].End()
      {
        assert index[j] in symbols;
        if index[i].End() < index[j].End() {
          GapHidesAnEarlierSymbol(index, i, j);
        }
      }
    }
  }

  ghost predicate Disjoint(symbols: seq<Symbol>) {
    forall s, t | s in symbols && t in symbols && s != t ::
      s.End() <= t.address || t.End() <= s.address
  }

  /** For disjoint ranges the binary search answers what a scan of the table would. */
  lemma DisjointLookupIsScan(a: int, symbols: seq<Symbol>, s: Symbol)
    requires Disjoint(symbols)
    ensures Lookup(a, BuildIndex(symbols)) == Some(s) <==> s in symbols && s.Contains(a)
  {
    var index := BuildIndex(symbols);
    IndexIsSorted(symbols);
    if s in symbols && s.Contains(a) {
      var j :| 0 <= j < |index| && index[j] == s;
      var i := CandidateOf(a, index, j);
      assert index[i] in symbols;
      if i != j {
        assert index[j].address <= index[i].address;
      }
    }
  }

  lemma DisjointLookupIgnoresTableOrder(a: int, symbols: seq<Symbol>, shuffled: seq<Symbol>)
    requires Disjoint(symbols)
    requires forall s :: s in symbols <==> s in shuffled
    ensures Lookup(a, BuildIndex(symbols)) == Lookup(a, BuildIndex(shuffled))
  {
    var x, y := Lookup(a, BuildIndex(symbols)), Lookup(a, BuildIndex(shuffled));
    if x.Some? { DisjointLookupIsScan(a, symbols, x.value); DisjointLookupIsScan(a, shuffled, x.value); }
    if y.Some? { DisjointLookupIsScan(a, symbols, y.value); DisjointLookupIsScan(a, shuffled, y.value); }
  }

  /** The symbol a lookup considers: of those that start at or before the address one that
      starts last, and of these a shortest one. */
  ghost predicate IsNearest(s: Symbol, a: int, symbols: seq<Symbol>) {
    && s in symbols && s.address <= a
    && forall t :: t in symbols && t.address <= a ==> t.address < s.address || (t.address == s.address && s.size <= t.size)
  }

  predicate SameRange(s: Symbol, t: Symbol) { s.address == t.address && s.size == t.size }

  /** Ascending starts, and where they are equal descending sizes. */
  ghost predicate Indexed(index: seq<Symbol>) {
    forall i, j :: 0 <= i < j < |index| ==>
      index[i].address < index[j].address || (index[i].address == index[j].address && index[j].size <= index[i].size)
  }

  lemma IndexIsOrdered(symbols: seq<Symbol>)
    ensures Indexed(BuildIndex(symbols)) && forall s :: s in BuildIndex(symbols) <==> s in symbols
  {
    hide Sort;
    var index := BuildIndex(symbols);
    SortSorted(IndexOrder, symbols);
    SortElements(IndexOrder, symbols);
    forall i, j | 0 <= i < j < |index|
      ensures index[i].address < index[j].address || (index[i].address == index[j].address && index[j].size <= index[i].size)
    {
      assert IndexOrder(index[i], index[j]);
    }
  }

  lemma IndexedAt(index: seq<Symbol>, i: nat, j: nat)
    requires Indexed(index) && i <= j < |index|
    ensures index[i].address <= index[j].address
    ensures index[i].address == index[j].address ==> index[j].size <= index[i].size
  {
  }

  lemma StartsAround(a: int, index: seq<Symbol>, n: nat, i: nat)
    requires Indexed(index) && n == FirstAbove(Addresses(index), a) && i < |index|
    ensures n <= |index| && (i < n <==> index[i].address <= a)
  {
    hide FirstAbove, Indexed;
    assert Addresses(index)[i] == index[i].address;
    if n <= i {
      IndexedAt(index, n, i);
      assert Addresses(index)[n] == index[n].address;
    }
  }

  /** The index entry the search ends at, if there is one. */
  lemma SearchEndsAtNearest(a: int, index: seq<Symbol>, n: nat)
    requires Indexed(index) && n == FirstAbove(Addresses(index), a)
    ensures n <= |index|
    ensures n > 0 ==> IsNearest(index[n - 1], a, index)
    ensures n == 0 ==> forall t :: t in index ==> a < t.address
    ensures forall t :: t in index[n..] ==> a < t.address
  {
    hide FirstAbove, Indexed, Addresses;
    forall t | t in index
      ensures t.address <= a ==> n > 0 && (t.address < index[n - 1].address ||
                                           (t.address == index[n - 1].address && index[n - 1].size <= t.size))
    {
      var i :| 0 <= i < |index| && index[i] == t;
      StartsAround(a, index, n, i);
      if i < n {
        IndexedAt(index, i, n - 1);
      }
    }
    if n > 0 {
      StartsAround(a, index, n, n - 1);
      assert index[n - 1] in index;
    }
    forall t | t in index[n..] ensures a < t.address {
      var i :| 0 <= i < |index[n..]| && index[n..][i] == t;
      StartsAround(a, index, n, n + i);
    }
  }

  /** For every table, overlapping ranges included: an address resolves exactly if the nearest
      symbol covers it, and then to that symbol; of symbols that share its range, to the one
      that comes last in the table. */
  lemma LookupAnswersTheNearest(a: int, symbols: seq<Symbol>, s: Symbol)
    requires IsNearest(s, a, symbols)
    ensures var found := Lookup(a, BuildIndex(symbols));
            && (found.Some? <==> a < s.address + s.size || a == s.address)
            && (found.Some? ==>
                  var alike := Filter((t: Symbol) => SameRange(s, t), symbols);
                  alike != [] && found.value == alike[|alike| - 1])
  {
    hide BuildIndex, FirstAbove, Filter, Addresses, Indexed;
    var index := BuildIndex(symbols);
    var n := FirstAbove(Addresses(index), a);
    IndexIsOrdered(symbols);
    SearchEndsAtNearest(a, index, n);
    SameRangesStay(s, symbols);
    LastOfRange(a, index, s, n);
  }

  lemma LastOfRange(a: int, index: seq<Symbol>, s: Symbol, n: nat)
    requires 0 < n <= |index| && IsNearest(s, a, index) && IsNearest(index[n - 1], a, index)
    requires forall t :: t in index[n..] ==> a < t.address
    ensures SameRange(s, index[n - 1])
    ensures var alike := Filter((t: Symbol) => SameRange(s, t), index);
            alike != [] && index[n - 1] == alike[|alike| - 1]
  {
    var keep := (t: Symbol) => SameRange(s, t);
    hide Filter;
    assert index == index[..n - 1] + ([index[n - 1]] + index[n..]);
    FilterParts(keep, index[..n - 1], [index[n - 1]] + index[n..]);
    FilterHead(keep, index[n - 1], index[n..]);
    FilterNone(keep, index[n..]);
  }

  /** Sorting leaves symbols of one range in their order. */
  lemma SameRangesStay(s: Symbol, symbols: seq<Symbol>)
    ensures var keep := (t: Symbol) => SameRange(s, t);
            Filter(keep, BuildIndex(symbols)) == Filter(keep, symbols)
  {
    var keep := (t: Symbol) => SameRange(s, t);
    var alike := Filter(keep, symbols);
    FilterSort(IndexOrder, keep, symbols);
    FilterSubset(keep, symbols);
    forall i, j | 0 <= i < j < |alike| ensures IndexOrder(alike[i], alike[j]) {
      assert alike[i] in alike && alike[j] in alike;
    }
    SortFixesSorted(IndexOrder, alike);
  }

  lemma {:induction false} FilterParts(keep: Symbol -> bool, a: seq<Symbol>, b: seq<Symbol>)
    ensures Filter(keep, a + b) == Filter(keep, a) + Filter(keep, b)
  {
    if a == [] {
      assert a + b == b;
    } else {
      FilterParts(keep, a[1..], b);
      assert a + b == [a[0]] + (a[1..] + b);
      FilterHead(keep, a[0], a[1..] + b);
    }
  }

  lemma {:induction false} FilterNone(keep: Symbol -> bool, a: seq<Symbol>)
    requires forall t :: t in a ==> !keep(t)
    ensures Filter(keep, a) == []
  {
    if a != [] {
      FilterNone(keep, a[1..]);
    }
  }

  /** Without disjointness a covered address can go unresolved: a helper nested in a larger
      function hides the rest of that function. */
  lemma NestedSymbolHidesItsParent()
    ensures var parent := Symbol("parent", 0x100, 0x80);
            var nested := Symbol("nested", 0x110, 0x10);
            parent.Contains(0x120) && Lookup(0x120, BuildIndex([parent, nested])) == None
  {
    var parent := Symbol("parent", 0x100, 0x80);
    var nested := Symbol("nested", 0x110, 0x10);
    SortFixesSorted(IndexOrder, [parent, nested]);
    GapHidesAnEarlierSymbol([parent, nested], 1, 0);
  }

  // ---------------------------------------------------------------------------
  // Linker maps
  // ---------------------------------------------------------------------------

  datatype MapError = NoSymbolsFound

  /** One line the map pattern matched: the hexadecimal address and the name beside it. */
  datatype MapLine = MapLine(address: nat, name: string)

  ghost predicate FirstDefinition(lines: seq<MapLine>, a: int, name: string) {
    exists i :: 0 <= i < |lines| && ClearThumb(lines[i].address) == a && lines[i].name == name &&
                forall k :: 0 <= k < i ==> ClearThumb(lines[k].address) != a
  }

  ghost predicate StrictlyAscend(symbols: seq<Symbol>) {
    forall i, j :: 0 <= i < j < |symbols| ==> symbols[i].address < symbols[j].address
  }

  /** One symbol per distinct non-zero address, ascending, named by the first definition
      there and running up to the next one. */
  ghost predicate IsMapOf(symbols: seq<Symbol>, lines: seq<MapLine>) {
    && StrictlyAscend(symbols)
    && (forall s :: s in symbols ==> s.address > 0 && FirstDefinition(lines, s.address, s.name))
    && (forall l :: l in lines && ClearThumb(l.address) != 0 ==>
          exists s :: s in symbols && s.address == ClearThumb(l.address))
    && (forall i :: 0 <= i < |symbols| - 1 ==> symbols[i].size == symbols[i + 1].address - symbols[i].address)
    && (symbols != [] ==> symbols[|symbols| - 1].size == 0)
  }

  predicate AtMost(x: int, y: int) { x <= y }

  /** The dictionary built from the lines read so far, with its keys in insertion order. */
  ghost predicate Collects(lines: seq<MapLine>, collected: map<int, string>, order: seq<int>) {
    && (forall k :: k in order <==> k in collected)
    && (forall i, j :: 0 <= i < j < |order| ==> order[i] != order[j])
    && (forall a :: a in collected ==> a > 0 && FirstDefinition(lines, a, collected[a]))
    && (forall l :: l in lines && ClearThumb(l.address) != 0 ==> ClearThumb(l.address) in collected)
  }

  method CollectLines(lines: seq<MapLine>) returns (collected: map<int, string>, order: seq<int>)
    ensures Collects(lines, collected, order)
  {
    collected, order := map[], [];
    for n := 0 to |lines|
      invariant Collects(lines[..n], collected, order)
    {
      var address := ClearThumb(lines[n].address);
      CollectOneMore(lines[..n], lines[n], collected, order);
      assert lines[..n] + [lines[n]] == lines[..n + 1];
      if address != 0 && address !in collected {
        collected := collected[address := lines[n].name];
        order := order + [address];
      }
    }
    assert lines[..|lines|] == lines;
  }

  /** A symbol runs up to the next one; the last has no known size. */
  function SymbolAt(names: map<int, string>, addresses: seq<int>, i: nat): Symbol
    requires i < |addresses| && addresses[i] in names
  {
    Symbol(names[addresses[i]], addresses[i],
           if i + 1 < |addresses| then addresses[i + 1] - addresses[i] else 0)
  }

  method ParseMap(lines: seq<MapLine>) returns (r: Result<seq<Symbol>, MapError>)
    ensures r.Ok? ==> IsMapOf(r.value, lines) && r.value != []
    ensures r.Err? <==> forall l :: l in lines ==> ClearThumb(l.address) == 0
  {
    hide Collects, KeysAscend, IsMapOf, Sort;
    var collected, order := CollectLines(lines);
    var addresses := Sort(AtMost, order);
    SortedKeys(lines, collected, order);
    KeysAreCollected(collected, order, addresses);
    var symbols: seq<Symbol> := [];
    for index := 0 to |addresses|
      invariant |symbols| == index
      invariant forall i :: 0 <= i < index ==> symbols[i] == SymbolAt(collected, addresses, i)
    {
      symbols := symbols + [SymbolAt(collected, addresses, index)];
    }
    SymbolsMapLines(lines, collected, order, addresses, symbols);
    if symbols == [] {
      return Err(NoSymbolsFound);
    }
    r := Ok(symbols);
  }

  lemma CollectOneMore(lines: seq<MapLine>, line: MapLine, collected: map<int, string>, order: seq<int>)
    requires Collects(lines, collected, order)
    ensures var a := ClearThumb(line.address);
            if a != 0 && a !in collected
            then Collects(lines + [line], collected[a := line.name], order + [a])
            else Collects(lines + [line], collected, order)
  {
    var a := ClearThumb(line.address);
    var longer := lines + [line];
    forall b | b in collected ensures FirstDefinition(longer, b, collected[b]) {
      ExtendFirstDefinition(lines, line, b, collected[b]);
    }
    if a != 0 && a !in collected {
      assert forall k :: 0 <= k < |lines| ==> lines[k] in lines && longer[k] == lines[k];
      assert longer[|lines|] == line;
      assert FirstDefinition(longer, a, line.name);
    }
  }

  lemma ExtendFirstDefinition(lines: seq<MapLine>, line: MapLine, a: int, name: string)
    requires FirstDefinition(lines, a, name)
    ensures FirstDefinition(lines + [line], a, name)
  {
    var i :| 0 <= i < |lines| && ClearThumb(lines[i].address) == a && lines[i].name == name &&
             forall k :: 0 <= k < i ==> ClearThumb(lines[k].address) != a;
    var longer := lines + [line];
    assert forall k :: 0 <= k < |lines| ==> longer[k] == lines[k];
  }

  /** The keys of the dictionary, in ascending order. */
  ghost predicate KeysAscend(collected: map<int, string>, order: seq<int>, addresses: seq<int>) {
    && (forall i, j :: 0 <= i < j < |addresses| ==> addresses[i] < addresses[j])
    && (forall x :: x in addresses <==> x in order)
    && (forall i :: 0 <= i < |addresses| ==> addresses[i] in collected)
  }

  lemma SortedKeys(lines: seq<MapLine>, collected: map<int, string>, order: seq<int>)
    requires Collects(lines, collected, order)
    ensures KeysAscend(collected, order, Sort(AtMost, order))
  {
    hide Sort, FirstDefinition;
    var s := Sort(AtMost, order);
    SortElements(AtMost, order);
    SortSorted(AtMost, order);
    forall i, j | 0 <= i < j < |s| ensures s[i] <= s[j] {
      assert AtMost(s[i], s[j]);
    }
    SortedDistinct(s, order);
    forall i | 0 <= i < |s| ensures s[i] in collected {
      assert s[i] in order;
    }
  }

  lemma KeysAreCollected(collected: map<int, string>, order: seq<int>, addresses: seq<int>)
    requires KeysAscend(collected, order, addresses)
    ensures forall i :: 0 <= i < |addresses| ==> addresses[i] in collected
  {
  }

  /** What the loop over the sorted addresses has built. */
  ghost predicate Assembled(collected: map<int, string>, order: seq<int>, addresses: seq<int>, symbols: seq<Symbol>) {
    && KeysAscend(collected, order, addresses)
    && |symbols| == |addresses|
    && (forall i :: 0 <= i < |symbols| ==> symbols[i] == SymbolAt(collected, addresses, i))
  }

  lemma AssembledAscend(collected: map<int, string>, order: seq<int>, addresses: seq<int>, symbols: seq<Symbol>)
    requires Assembled(collected, order, addresses, symbols)
    ensures StrictlyAscend(symbols)
    ensures forall i :: 0 <= i < |symbols| - 1 ==> symbols[i].size == symbols[i + 1].address - symbols[i].address
    ensures symbols != [] ==> symbols[|symbols| - 1].size == 0
  {
  }

  lemma AssembledDefined(lines: seq<MapLine>, collected: map<int, string>, order: seq<int>, addresses: seq<int>,
                         symbols: seq<Symbol>, s: Symbol)
    requires Collects(lines, collected, order) && Assembled(collected, order, addresses, symbols) && s in symbols
    ensures s.address > 0 && FirstDefinition(lines, s.address, s.name)
  {
    hide FirstDefinition;
    var i :| 0 <= i < |symbols| && symbols[i] == s;
    assert addresses[i] in addresses;
  }

  lemma AssembledCovers(lines: seq<MapLine>, collected: map<int, string>, order: seq<int>, addresses: seq<int>,
                        symbols: seq<Symbol>, l: MapLine)
    requires Collects(lines, collected, order) && Assembled(collected, order, addresses, symbols)
    requires l in lines && ClearThumb(l.address) != 0
    ensures exists s :: s in symbols && s.address == ClearThumb(l.address)
  {
    hide FirstDefinition;
    var i :| 0 <= i < |addresses| && addresses[i] == ClearThumb(l.address);
    assert symbols[i] in symbols;
  }

  lemma SymbolsMapLines(lines: seq<MapLine>, collected: map<int, string>, order: seq<int>,
                        addresses: seq<int>, symbols: seq<Symbol>)
    requires Collects(lines, collected, order) && Assembled(collected, order, addresses, symbols)
    ensures IsMapOf(symbols, lines)
    ensures symbols == [] <==> forall l :: l in lines ==> ClearThumb(l.address) == 0
  {
    hide Collects, Assembled, FirstDefinition, ClearThumb;
    AssembledAscend(collected, order, addresses, symbols);
    forall s | s in symbols ensures s.address > 0 && FirstDefinition(lines, s.address, s.name) {
      AssembledDefined(lines, collected, order, addresses, symbols, s);
    }
    forall l | l in lines && ClearThumb(l.address) != 0 ensures exists s :: s in symbols && s.address == ClearThumb(l.address) {
      AssembledCovers(lines, collected, order, addresses, symbols, l);
    }
    if symbols != [] {
      DefinedSomewhere(lines, symbols[0]);
    }
  }

  lemma DefinedSomewhere(lines: seq<MapLine>, s: Symbol)
    requires s.address > 0 && FirstDefinition(lines, s.address, s.name)
    ensures exists l :: l in lines && ClearThumb(l.address) != 0
  {
    var i :| 0 <= i < |lines| && ClearThumb(lines[i].address) == s.address;
    assert lines[i] in lines;
  }

  lemma SortedDistinct(sorted: seq<int>, distinct: seq<int>)
    requires multiset(sorted) == multiset(distinct) && Ascending(sorted)
    requires forall i, j :: 0 <= i < j < |distinct| ==> distinct[i] != distinct[j]
    ensures forall i, j :: 0 <= i < j < |sorted| ==> sorted[i] < sorted[j]
  {
    forall i, j | 0 <= i < j < |sorted| ensures sorted[i] < sorted[j] {
      if sorted[i] == sorted[j] {
        TwiceInMultiset(sorted, i, j);
        OnceInMultiset(distinct, sorted[i]);
      }
    }
  }

  lemma TwiceInMultiset(s: seq<int>, i: nat, j: nat)
    requires i < j < |s| && s[i] == s[j]
    ensures multiset(s)[s[i]] >= 2
  {
    assert s == s[..i] + [s[i]] + s[i + 1..j] + [s[j]] + s[j + 1..];
  }

  lemma {:induction false} OnceInMultiset(s: seq<int>, x: int)
    requires forall i, j :: 0 <= i < j < |s| ==> s[i] != s[j]
    ensures multiset(s)[x] <= 1
  {
    if s != [] {
      assert s == [s[0]] + s[1..];
      OnceInMultiset(s[1..], x);
    }
  }

  lemma MapIsItsOwnIndex(symbols: seq<Symbol>)
    requires StrictlyAscend(symbols)
    ensures BuildIndex(symbols) == symbols && StartsAscend(symbols)
  {
    forall i, j | 0 <= i < j < |symbols| ensures IndexOrder(symbols[i], symbols[j]) {}
    SortFixesSorted(IndexOrder, symbols);
  }

  lemma StartsUpTo(symbols: seq<Symbol>, i: nat, a: int)
    requires StrictlyAscend(symbols) && i < |symbols|
    requires i + 1 < |symbols| ==> a < symbols[i + 1].address
    ensures forall t :: t in symbols && t.address <= a ==> t.address <= symbols[i].address
  {
    forall j | i < j < |symbols| ensures a < symbols[j].address {
      assert symbols[i + 1].address <= symbols[j].address;
    }
    forall t | t in symbols && t.address <= a ensures t.address <= symbols[i].address {
      var j :| 0 <= j < |symbols| && symbols[j] == t;
    }
  }

  lemma MapEnds(symbols: seq<Symbol>, lines: seq<MapLine>, i: nat)
    requires IsMapOf(symbols, lines) && i < |symbols|
    ensures symbols[i].address <= symbols[|symbols| - 1].address
    ensures i + 1 < |symbols| ==> symbols[i + 1].address <= symbols[|symbols| - 1].address
    ensures symbols[i].End() ==
            if i + 1 < |symbols| then symbols[i + 1].address else symbols[i].address + 1
  {
    assert i + 1 < |symbols| ==> symbols[i].address < symbols[i + 1].address;
  }

  lemma MapCandidate(lines: seq<MapLine>, symbols: seq<Symbol>, a: int) returns (i: nat)
    requires IsMapOf(symbols, lines) && symbols != [] && symbols[0].address <= a
    ensures i < |symbols| && symbols[i].address <= a
    ensures forall t :: t in symbols && t.address <= a ==> t.address <= symbols[i].address
    ensures Lookup(a, symbols) ==
            if a <= symbols[|symbols| - 1].address then Some(symbols[i]) else None
  {
    MapIsItsOwnIndex(symbols);
    i := CandidateOf(a, symbols, 0);
    StartsUpTo(symbols, i, a);
    MapEnds(symbols, lines, i);
  }

  /** A parsed map tiles its span: an address resolves exactly when it lies between the first
      and the last symbol, and then to the greatest start not above it. */
  lemma MapTilesItsSpan(lines: seq<MapLine>, symbols: seq<Symbol>, a: int)
    requires IsMapOf(symbols, lines) && symbols != []
    ensures var found := Lookup(a, BuildIndex(symbols));
            && (found.Some? <==> symbols[0].address <= a <= symbols[|symbols| - 1].address)
            && (found.Some? ==>
                  found.value in symbols && found.value.address <= a &&
                  forall t :: t in symbols && t.address <= a ==> t.address <= found.value.address)
  {
    MapIsItsOwnIndex(symbols);
    if symbols[0].address <= a {
      var i := MapCandidate(lines, symbols, a);
    } else {
      assert Addresses(symbols)[0] == symbols[0].address;
      assert FirstAbove(Addresses(symbols), a) == 0;
    }
  }
}
