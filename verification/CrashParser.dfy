/** Normalising the register and stack dumps a device sends:
    backend/app/services/crash_parser.py. */
module CrashParser {
  import opened Wrappers
  import opened Sequences
  import opened StableSort
  import opened Text
  import opened HexAddress

  /** A JSON value; an object's fields are in the order they were written. */
  datatype Value =
    | Null
    | Bool(b: bool)
    | Int(n: int)
    | Float(r: real)
    | Str(s: string)
    | List(items: seq<Value>)
    | Object(fields: seq<(string, Value)>)

  datatype Warning =
    | RegistersTruncated(count: nat)
    | RegistersUnsupported
    | RegistersIgnored(names: seq<string>)
    | StackWithoutWords
    | StackUnsupported
    | StackTruncated(count: nat)
    | StackSkipped(count: nat)

  const MAX_REGISTERS: nat := 64
  const MAX_STACK_WORDS: nat := 4096

  /** `parse_address`. */
  function ParseAddress(value: Value): (r: Option<nat>)
    ensures r.Some? ==> r.value <= MAX_ADDRESS
  {
    match value
    case Int(n) => if 0 <= n <= MAX_ADDRESS then Some(n) else None
    case Float(r) => if r.Floor as real == r && 0 <= r.Floor <= MAX_ADDRESS then Some(r.Floor) else None
    case Str(s) => ParseText(s)
    case _ => None
  }

  /** Exactly these values are read as an address: that integer, a float equal to it, and the
      texts that spell it. */
  lemma ParsesAddressIff(value: Value, address: nat)
    ensures ParseAddress(value) == Some(address) <==>
            address <= MAX_ADDRESS &&
            match value
            case Int(n) => n == address
            case Float(r) => r == address as real
            case Str(s) => Spells(s, address)
            case _ => false
  {
    if value.Str? {
      ParsesIffSpells(value.s, address);
    }
  }

  // ---------------------------------------------------------------------------
  // Register names
  // ---------------------------------------------------------------------------

  predicate Kept(c: char) { 'a' <= c <= 'z' || IsDigit(c) }

  function LowerCase(c: char): char { if 'A' <= c <= 'Z' then c + 32 as char else c }

  /** `re.sub(r"[^a-z0-9]", "", name.lower())`. */
  function Cleaned(name: string): (r: string)
    ensures forall i :: 0 <= i < |r| ==> Kept(r[i])
  {
    if name == "" then ""
    else if Kept(LowerCase(name[0])) then [LowerCase(name[0])] + Cleaned(name[1..])
    else Cleaned(name[1..])
  }

  function Unaliased(name: string): string {
    if name == "xpsr" || name == "apsr" || name == "ipsr" || name == "epsr" then "psr"
    else if name == "fp" then "r11"
    else if name == "ip" then "r12"
    else if name == "sl" then "r10"
    else name
  }

  const NAMED_REGISTERS: set<string> :=
    {"sp", "lr", "pc", "psr", "msp", "psp", "primask", "basepri", "control", "cfsr", "hfsr", "mmfar", "bfar",
     "dfsr", "afsr", "shcsr"}

  /** `r` and a decimal number. */
  predicate IsNumbered(name: string) { |name| > 1 && name[0] == 'r' && AllDigits(name[1..]) }

  predicate IsRegister(name: string) {
    if IsNumbered(name) then |name| <= 3 && DecimalValue(name[1..]) <= 15 else name in NAMED_REGISTERS
  }

  /** `_canonical_register`. */
  function Canonical(name: string): Option<string> {
    var cleaned := Unaliased(Cleaned(name));
    if IsRegister(cleaned) then Some(cleaned) else None
  }

  lemma {:induction false} CleanedIsFixed(name: string)
    requires forall i :: 0 <= i < |name| ==> Kept(name[i])
    ensures Cleaned(name) == name
  {
    if name != "" {
      CleanedIsFixed(name[1..]);
    }
  }

  /** A canonical name is its own canonical name. */
  lemma CanonicalIsFixed(name: string)
    requires Canonical(name).Some?
    ensures Canonical(Canonical(name).value) == Canonical(name)
  {
    hide Cleaned, IsRegister, Unaliased;
    var cleaned := Cleaned(name);
    UnaliasedIsFixed(cleaned);
    CleanedIsFixed(Unaliased(cleaned));
  }

  lemma UnaliasedIsFixed(s: string)
    requires forall i :: 0 <= i < |s| ==> Kept(s[i])
    ensures Unaliased(Unaliased(s)) == Unaliased(s)
    ensures forall i :: 0 <= i < |Unaliased(s)| ==> Kept(Unaliased(s)[i])
  {
    assert |"psr"| == 3 && |"r11"| == 3;
  }

  // ---------------------------------------------------------------------------
  // Order of registers
  // ---------------------------------------------------------------------------

  /** Python's order of strings. */
  predicate TextLe(a: string, b: string) {
    a == "" || (b != "" && (a[0] < b[0] || (a[0] == b[0] && TextLe(a[1..], b[1..]))))
  }

  type Registers = seq<(string, nat)>

  /** The order of `_register_sort_key`: numbered registers by number, then the named ones. */
  predicate KeyLe(a: (string, nat), b: (string, nat)) {
    if IsNumbered(a.0) && IsNumbered(b.0) then DecimalValue(a.0[1..]) <= DecimalValue(b.0[1..])
    else IsNumbered(a.0) || (!IsNumbered(b.0) && TextLe(a.0, b.0))
  }

  lemma {:induction false} TextLeTotal(a: string, b: string)
    ensures TextLe(a, b) || TextLe(b, a)
  {
    if a != "" && b != "" {
      TextLeTotal(a[1..], b[1..]);
    }
  }

  lemma {:induction false} TextLeTransitive(a: string, b: string, c: string)
    ensures TextLe(a, b) && TextLe(b, c) ==> TextLe(a, c)
  {
    if a != "" && b != "" && c != "" {
      TextLeTransitive(a[1..], b[1..], c[1..]);
    }
  }

  lemma KeyLeIsPreorder()
    ensures TotalPreorder(KeyLe)
  {
    forall x, y ensures KeyLe(x, y) || KeyLe(y, x) {
      TextLeTotal(x.0, y.0);
    }
    forall x, y, z ensures KeyLe(x, y) && KeyLe(y, z) ==> KeyLe(x, z) {
      TextLeTransitive(x.0, y.0, z.0);
    }
  }

  // ---------------------------------------------------------------------------
  // Gathering registers
  // ---------------------------------------------------------------------------

  /** `registers[name] = address` on an insertion-ordered dictionary. */
  function Put(registers: Registers, name: string, address: nat): Registers {
    if registers == [] then [(name, address)]
    else if registers[0].0 == name then [(name, address)] + registers[1..]
    else [registers[0]] + Put(registers[1..], name, address)
  }

  /** What an entry contributes, if it is usable. */
  function Usable(pair: (string, Value)): Option<(string, nat)> {
    var name, address := Canonical(pair.0), ParseAddress(pair.1);
    if name.Some? && address.Some? then Some((name.value, address.value)) else None
  }

  function Gathered(pairs: seq<(string, Value)>): Registers {
    if pairs == [] then []
    else
      var front, entry := Gathered(pairs[..|pairs| - 1]), Usable(pairs[|pairs| - 1]);
      if entry.Some? then Put(front, entry.value.0, entry.value.1) else front
  }

  function Skipped(pairs: seq<(string, Value)>): seq<string> {
    if pairs == [] then []
    else if Usable(pairs[|pairs| - 1]).Some? then Skipped(pairs[..|pairs| - 1])
    else Skipped(pairs[..|pairs| - 1]) + [Take(pairs[|pairs| - 1].0, 20)]
  }

  /** A list is r0, r1, r2 and so on. */
  function Positional(items: seq<Value>): (pairs: seq<(string, Value)>)
    ensures |pairs| == |items|
  {
    seq(|items|, i requires 0 <= i < |items| => ("r" + Decimal(i), items[i]))
  }

  function Ignored(skipped: seq<string>): seq<Warning> {
    if skipped == [] then [] else [RegistersIgnored(Take(Sort(TextLe, skipped), 8))]
  }

  function FromPairs(pairs: seq<(string, Value)>): Option<Registers> {
    var registers := Gathered(pairs);
    if registers == [] then None else Some(Sort(KeyLe, registers))
  }

  /** The entries of a dump, and what is said about it before looking at them. */
  function PairsOf(value: Value): Option<(seq<(string, Value)>, seq<Warning>)> {
    match value
    case Object(fields) => Some((fields, []))
    case List(items) =>
      Some((Take(Positional(items), MAX_REGISTERS),
            if |items| > MAX_REGISTERS then [RegistersTruncated(|items|)] else []))
    case _ => None
  }

  /** What `_parse_registers` answers and warns about. */
  function RegistersOutcome(value: Value): (Option<Registers>, seq<Warning>) {
    if value == Null then (None, [])
    else if PairsOf(value).None? then (None, [RegistersUnsupported])
    else
      var pairs, warnings := PairsOf(value).value.0, PairsOf(value).value.1;
      (FromPairs(pairs), warnings + Ignored(Skipped(pairs)))
  }

  method ParseRegisters(value: Value) returns (registers: Option<Registers>, warnings: seq<Warning>)
    ensures (registers, warnings) == RegistersOutcome(value)
  {
    hide Gathered, Skipped, Sort, Usable, Put;
    warnings := [];
    if value == Null {
      return None, warnings;
    }
    var pairs;
    if value.Object? {
      pairs := value.fields;
    } else if value.List? {
      pairs := Positional(value.items);
      if |pairs| > MAX_REGISTERS {
        warnings := [RegistersTruncated(|pairs|)];
        pairs := pairs[..MAX_REGISTERS];
      }
    } else {
      warnings := [RegistersUnsupported];
      return None, warnings;
    }
    PairsFound(value, pairs, warnings);
    var found: Registers, skipped: seq<string> := [], [];
    GatherNothing();
    for i := 0 to |pairs|
      invariant found == Gathered(pairs[..i]) && skipped == Skipped(pairs[..i])
    {
      GatherOne(pairs, i);
      var entry := Usable(pairs[i]);
      if entry.Some? {
        found := Put(found, entry.value.0, entry.value.1);
      } else {
        skipped := skipped + [Take(pairs[i].0, 20)];
      }
    }
    assert pairs[..|pairs|] == pairs;
    assert warnings + [] == warnings;
    if skipped != [] {
      warnings := warnings + [RegistersIgnored(Take(Sort(TextLe, skipped), 8))];
    }
    registers := if found == [] then None else Some(Sort(KeyLe, found));
  }

  lemma PairsFound(value: Value, pairs: seq<(string, Value)>, warnings: seq<Warning>)
    requires value.Object? ==> pairs == value.fields && warnings == []
    requires value.List? && |value.items| > MAX_REGISTERS ==>
               pairs == Positional(value.items)[..MAX_REGISTERS] && warnings == [RegistersTruncated(|value.items|)]
    requires value.List? && |value.items| <= MAX_REGISTERS ==> pairs == Positional(value.items) && warnings == []
    requires value.Object? || value.List?
    ensures PairsOf(value) == Some((pairs, warnings))
  {
  }

  lemma GatherNothing()
    ensures Gathered([]) == [] && Skipped([]) == []
  {
  }

  lemma GatherOne(pairs: seq<(string, Value)>, i: nat)
    requires i < |pairs|
    ensures var entry := Usable(pairs[i]);
            && (entry.Some? ==>
                  Gathered(pairs[..i + 1]) == Put(Gathered(pairs[..i]), entry.value.0, entry.value.1)
                  && Skipped(pairs[..i + 1]) == Skipped(pairs[..i]))
            && (entry.None? ==>
                  Gathered(pairs[..i + 1]) == Gathered(pairs[..i])
                  && Skipped(pairs[..i + 1]) == Skipped(pairs[..i]) + [Take(pairs[i].0, 20)])
  {
    hide Usable, Put;
    assert pairs[..i + 1][..i] == pairs[..i];
  }

  // ---------------------------------------------------------------------------
  // What a normalised register dump is
  // ---------------------------------------------------------------------------

  ghost predicate Has(registers: Registers, name: string) {
    exists i :: 0 <= i < |registers| && registers[i].0 == name
  }

  ghost predicate Distinct(registers: Registers) {
    forall i, j :: 0 <= i < j < |registers| ==> registers[i].0 != registers[j].0
  }

  /** Canonical names and 32-bit values. */
  ghost predicate AllCanonical(registers: Registers) {
    forall x :: x in registers ==> Canonical(x.0) == Some(x.0) && x.1 <= MAX_ADDRESS
  }

  lemma {:induction false} PutNames(registers: Registers, name: string, address: nat)
    ensures forall n :: Has(Put(registers, name, address), n) <==> n == name || Has(registers, n)
  {
    if registers != [] {
      var rest := registers[1..];
      PutNames(rest, name, address);
      NamesCons(registers[0], rest);
      NamesCons(registers[0], Put(rest, name, address));
      NamesCons((name, address), rest);
      assert registers == [registers[0]] + rest;
    } else {
      assert Put(registers, name, address)[0] == (name, address);
    }
  }

  lemma NamesCons(x: (string, nat), rest: Registers)
    ensures forall n :: Has([x] + rest, n) <==> n == x.0 || Has(rest, n)
  {
    var all := [x] + rest;
    assert all[0] == x;
    forall n | Has(rest, n) ensures Has(all, n) {
      var i :| 0 <= i < |rest| && rest[i].0 == n;
      assert all[i + 1].0 == n;
    }
  }

  lemma DistinctTail(x: (string, nat), rest: Registers)
    requires Distinct([x] + rest)
    ensures Distinct(rest) && !Has(rest, x.0)
  {
    var all := [x] + rest;
    forall i, j | 0 <= i < j < |rest| ensures rest[i].0 != rest[j].0 {
      assert rest[i] == all[i + 1] && rest[j] == all[j + 1];
    }
    forall i | 0 <= i < |rest| ensures rest[i].0 != x.0 {
      assert rest[i] == all[i + 1] && x == all[0];
    }
  }

  lemma DistinctWhole(x: (string, nat), rest: Registers)
    requires Distinct(rest) && !Has(rest, x.0)
    ensures Distinct([x] + rest)
  {
    var all := [x] + rest;
    forall i, j | 0 <= i < j < |all| ensures all[i].0 != all[j].0 {
      assert all[j] == rest[j - 1];
      assert i > 0 ==> all[i] == rest[i - 1];
    }
  }

  lemma DistinctCons(x: (string, nat), rest: Registers)
    ensures Distinct([x] + rest) <==> Distinct(rest) && !Has(rest, x.0)
  {
    hide Distinct, Has;
    if Distinct([x] + rest) {
      DistinctTail(x, rest);
    } else if Distinct(rest) && !Has(rest, x.0) {
      DistinctWhole(x, rest);
    }
  }

  lemma {:induction false} PutKeepsDistinct(registers: Registers, name: string, address: nat)
    requires Distinct(registers)
    ensures Distinct(Put(registers, name, address))
  {
    hide Has, Distinct;
    if registers != [] {
      var rest := registers[1..];
      assert registers == [registers[0]] + rest;
      DistinctCons(registers[0], rest);
      DistinctCons((name, address), rest);
      PutKeepsDistinct(rest, name, address);
      PutNames(rest, name, address);
      DistinctCons(registers[0], Put(rest, name, address));
    } else {
      DistinctCons((name, address), []);
      NothingHas(name);
      assert [(name, address)] + [] == [(name, address)];
    }
  }

  lemma NothingHas(name: string)
    ensures !Has([], name) && Distinct([])
  {
  }

  /** Writing an entry replaces the one of that name and leaves the others. */
  lemma {:induction false} PutElements(registers: Registers, name: string, address: nat)
    requires Distinct(registers)
    ensures forall x :: x in Put(registers, name, address) <==>
              x == (name, address) || (x in registers && x.0 != name)
  {
    if registers != [] {
      var rest := registers[1..];
      assert registers == [registers[0]] + rest;
      DistinctCons(registers[0], rest);
      assert forall x :: x in rest ==> Has(rest, x.0);
      if registers[0].0 != name {
        PutElements(rest, name, address);
      }
    }
  }

  /** Entry `i` is the last usable one for its register. */
  ghost predicate LastFor(pairs: seq<(string, Value)>, i: nat, x: (string, nat)) {
    && i < |pairs| && Usable(pairs[i]) == Some(x)
    && forall j :: i < j < |pairs| && Usable(pairs[j]).Some? ==> Usable(pairs[j]).value.0 != x.0
  }

  lemma LastForFront(pairs: seq<(string, Value)>, i: nat, x: (string, nat))
    requires pairs != []
    ensures var n := |pairs| - 1;
            var last := Usable(pairs[n]);
            LastFor(pairs, i, x) <==>
              (i == n && last == Some(x))
              || (LastFor(pairs[..n], i, x) && (last.Some? ==> last.value.0 != x.0))
  {
    hide Usable;
    var n := |pairs| - 1;
    assert forall j :: 0 <= j < n ==> pairs[..n][j] == pairs[j];
  }

  /** Of several entries for one register the last usable one counts. */
  lemma {:induction false} LastUsableWins(pairs: seq<(string, Value)>)
    ensures Distinct(Gathered(pairs))
    ensures forall x :: x in Gathered(pairs) <==> exists i :: LastFor(pairs, i, x)
  {
    hide Usable, Distinct;
    if pairs != [] {
      var n := |pairs| - 1;
      var front, last := Gathered(pairs[..n]), Usable(pairs[n]);
      LastUsableWins(pairs[..n]);
      if last.Some? {
        PutKeepsDistinct(front, last.value.0, last.value.1);
        PutElements(front, last.value.0, last.value.1);
      }
      hide Put, LastFor;
      forall x ensures x in Gathered(pairs) <==> exists i :: LastFor(pairs, i, x) {
        ElementFor(pairs, x);
      }
    } else {
      NothingHas("");
    }
  }

  lemma ElementFor(pairs: seq<(string, Value)>, x: (string, nat))
    requires pairs != []
    ensures var n := |pairs| - 1;
            var last := Usable(pairs[n]);
            (exists i :: LastFor(pairs, i, x)) <==>
              last == Some(x) || ((exists i :: LastFor(pairs[..n], i, x)) && (last.Some? ==> last.value.0 != x.0))
  {
    hide Usable, LastFor;
    var n := |pairs| - 1;
    forall i: nat ensures LastFor(pairs, i, x) <==>
        (i == n && Usable(pairs[n]) == Some(x))
        || (LastFor(pairs[..n], i, x) && (Usable(pairs[n]).Some? ==> Usable(pairs[n]).value.0 != x.0))
    {
      LastForFront(pairs, i, x);
    }
    if Usable(pairs[n]) == Some(x) {
      assert LastFor(pairs, n, x);
    }
  }

  lemma GatheredIsCanonical(pairs: seq<(string, Value)>)
    ensures AllCanonical(Gathered(pairs))
  {
    hide Canonical, ParseAddress, Gathered;
    LastUsableWins(pairs);
    forall x | x in Gathered(pairs) ensures Canonical(x.0) == Some(x.0) && x.1 <= MAX_ADDRESS {
      var i: nat :| LastFor(pairs, i, x);
      CanonicalIsFixed(pairs[i].0);
    }
  }

  lemma {:induction false} SkippedIffUnusable(pairs: seq<(string, Value)>)
    ensures Skipped(pairs) == [] <==> forall i :: 0 <= i < |pairs| ==> Usable(pairs[i]).Some?
  {
    hide Usable;
    if pairs != [] {
      var n := |pairs| - 1;
      SkippedIffUnusable(pairs[..n]);
      assert forall i :: 0 <= i < n ==> pairs[..n][i] == pairs[i];
    }
  }

  /** The object a normalised dump is stored as. */
  function AsObject(registers: Registers): Value { Object(Fields(registers)) }

  function Fields(registers: Registers): (fields: seq<(string, Value)>)
    ensures |fields| == |registers|
    ensures forall i :: 0 <= i < |registers| ==> fields[i] == (registers[i].0, Int(registers[i].1))
  {
    seq(|registers|, i requires 0 <= i < |registers| => (registers[i].0, Int(registers[i].1)))
  }

  lemma {:induction false} PutAtTheEnd(registers: Registers, name: string, address: nat)
    requires !Has(registers, name)
    ensures Put(registers, name, address) == registers + [(name, address)]
  {
    if registers != [] {
      var rest := registers[1..];
      assert registers == [registers[0]] + rest;
      NamesCons(registers[0], rest);
      PutAtTheEnd(rest, name, address);
    }
  }

  lemma FrontAndLast(registers: Registers)
    requires Distinct(registers) && AllCanonical(registers) && registers != []
    ensures var n := |registers| - 1;
            && Distinct(registers[..n]) && AllCanonical(registers[..n]) && !Has(registers[..n], registers[n].0)
            && Usable(Fields(registers)[n]) == Some(registers[n])
            && Fields(registers)[..n] == Fields(registers[..n])
            && registers == registers[..n] + [registers[n]]
  {
    hide Canonical;
    assert registers[|registers| - 1] in registers;
  }

  /** Gathering canonical entries of distinct registers gives those entries back. */
  lemma {:induction false} GatherAgain(registers: Registers)
    requires Distinct(registers) && AllCanonical(registers)
    ensures Gathered(Fields(registers)) == registers && Skipped(Fields(registers)) == []
  {
    hide Usable, Put, Has, Distinct, AllCanonical;
    if registers != [] {
      var n := |registers| - 1;
      FrontAndLast(registers);
      GatherAgain(registers[..n]);
      PutAtTheEnd(registers[..n], registers[n].0, registers[n].1);
    }
  }

  lemma {:induction false} InsertKeepsDistinct(x: (string, nat), s: Registers)
    requires Distinct(s) && !Has(s, x.0)
    ensures Distinct(Insert(KeyLe, x, s))
    ensures forall n :: Has(Insert(KeyLe, x, s), n) <==> n == x.0 || Has(s, n)
  {
    hide Has, Distinct, KeyLe;
    if s == [] {
      assert Insert(KeyLe, x, s) == [x] + s;
      DistinctCons(x, s);
      NamesCons(x, s);
    } else {
      var rest := s[1..];
      assert s == [s[0]] + rest;
      DistinctCons(s[0], rest);
      NamesCons(s[0], rest);
      DistinctCons(x, s);
      NamesCons(x, s);
      InsertKeepsDistinct(x, rest);
      DistinctCons(s[0], Insert(KeyLe, x, rest));
      NamesCons(s[0], Insert(KeyLe, x, rest));
    }
  }

  lemma {:induction false} SortKeepsDistinct(s: Registers)
    requires Distinct(s)
    ensures Distinct(Sort(KeyLe, s))
    ensures forall n :: Has(Sort(KeyLe, s), n) <==> Has(s, n)
  {
    hide Has, Distinct, KeyLe;
    if s != [] {
      var rest := s[1..];
      assert s == [s[0]] + rest;
      DistinctCons(s[0], rest);
      NamesCons(s[0], rest);
      SortKeepsDistinct(rest);
      InsertKeepsDistinct(s[0], Sort(KeyLe, rest));
    }
  }

  /** A normalised dump is sorted, names each register once, canonically, and holds for each
      register the last usable entry; there is one exactly if some entry is usable. */
  lemma RegistersAreNormalised(pairs: seq<(string, Value)>)
    ensures FromPairs(pairs).None? <==> forall i :: 0 <= i < |pairs| ==> Usable(pairs[i]).None?
    ensures FromPairs(pairs).Some? ==>
              var registers := FromPairs(pairs).value;
              && registers != [] && SortedBy(KeyLe, registers) && Distinct(registers) && AllCanonical(registers)
              && forall x :: x in registers <==> exists i :: LastFor(pairs, i, x)
  {
    hide Gathered, Usable, LastFor, Distinct, Sort, SortedBy, Canonical;
    var gathered := Gathered(pairs);
    LastUsableWins(pairs);
    GatheredIsCanonical(pairs);
    SomeLast(pairs);
    SortedByKey(gathered);
    SortKeepsDistinct(gathered);
  }

  lemma SortedByKey(registers: Registers)
    ensures var sorted := Sort(KeyLe, registers);
            && SortedBy(KeyLe, sorted) && (sorted == [] <==> registers == [])
            && forall x :: x in sorted <==> x in registers
  {
    KeyLeIsPreorder();
    SortSorted(KeyLe, registers);
    SortElements(KeyLe, registers);
    forall x: (string, nat) ensures x in Sort(KeyLe, registers) <==> x in registers {
      assert x in Sort(KeyLe, registers) <==> x in multiset(Sort(KeyLe, registers));
      assert x in registers <==> x in multiset(registers);
    }
  }

  lemma {:induction false} SomeLast(pairs: seq<(string, Value)>)
    ensures Gathered(pairs) == [] <==> forall i :: 0 <= i < |pairs| ==> Usable(pairs[i]).None?
  {
    hide Usable;
    if pairs != [] {
      var n := |pairs| - 1;
      SomeLast(pairs[..n]);
      assert forall i :: 0 <= i < n ==> pairs[..n][i] == pairs[i];
      PutIsNotEmpty(Gathered(pairs[..n]), "", 0);
    }
  }

  lemma PutIsNotEmpty(registers: Registers, name: string, address: nat)
    ensures Put(registers, name, address) != []
  {
  }

  /** Parsing what was stored gives the same dump again, without a new warning. */
  lemma RegistersAreFixed(value: Value)
    requires RegistersOutcome(value).0.Some?
    ensures var registers := RegistersOutcome(value).0.value;
            RegistersOutcome(AsObject(registers)) == (Some(registers), [])
  {
    hide Gathered, Skipped, Sort, SortedBy, Usable, LastFor, KeyLe, Distinct;
    var pairs := PairsOf(value).value.0;
    var registers := RegistersOutcome(value).0.value;
    RegistersAreNormalised(pairs);
    GatherAgain(registers);
    SortFixesSorted(KeyLe, registers);
    assert PairsOf(AsObject(registers)) == Some((Fields(registers), []));
    assert FromPairs(Fields(registers)) == Some(registers);
    assert [] + Ignored([]) == [];
  }
}
