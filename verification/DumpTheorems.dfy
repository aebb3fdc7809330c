/** Which registers and words a dump is read as, name by name and separator by separator:
    backend/app/services/crash_parser.py. */
module DumpTheorems {
  import opened Wrappers
  import opened Sequences
  import opened StableSort
  import opened Text
  import opened HexAddress
  import opened CrashParser
  import opened StackDump

  // ---------------------------------------------------------------------------
  // Register names
  // ---------------------------------------------------------------------------

  /** Letters are lowered, digits stay, everything else is left out. */
  lemma CleaningOne(c: char)
    ensures Cleaned([c]) ==
            if 'a' <= c <= 'z' || '0' <= c <= '9' then [c]
            else if 'A' <= c <= 'Z' then [c + 32 as char] else ""
  {
    assert [c][1..] == "";
  }

  lemma {:induction false} CleaningParts(s: string, t: string)
    ensures Cleaned(s + t) == Cleaned(s) + Cleaned(t)
  {
    if s == "" {
      assert s + t == t;
    } else {
      CleaningParts(s[1..], t);
      assert (s + t)[0] == s[0] && (s + t)[1..] == s[1..] + t;
      hide Kept, LowerCase;
      Associates([LowerCase(s[0])], Cleaned(s[1..]), Cleaned(t));
    }
  }

  /** `r0` to `r15`, one-digit numbers also with a leading zero. */
  predicate NamesANumber(name: string) {
    || (|name| == 2 && name[0] == 'r' && '0' <= name[1] <= '9')
    || (|name| == 3 && name[0] == 'r' && name[1] == '0' && '0' <= name[2] <= '9')
    || (|name| == 3 && name[0] == 'r' && name[1] == '1' && '0' <= name[2] <= '5')
  }

  predicate NamesASpecial(name: string) {
    || name == "sp" || name == "lr" || name == "pc" || name == "psr" || name == "msp" || name == "psp"
    || name == "primask" || name == "basepri" || name == "control" || name == "cfsr" || name == "hfsr"
    || name == "mmfar" || name == "bfar" || name == "dfsr" || name == "afsr" || name == "shcsr"
  }

  lemma NumberedIff(name: string)
    ensures IsNumbered(name) && |name| <= 3 && DecimalValue(name[1..]) <= 15 <==> NamesANumber(name)
  {
    if |name| > 1 && name[0] == 'r' && |name| <= 3 {
      var digits := name[1..];
      assert IsNumbered(name) <==> forall i :: 1 <= i < |name| ==> IsDigit(name[i]) by {
        assert forall i :: 0 <= i < |digits| ==> digits[i] == name[i + 1];
      }
      if IsNumbered(name) {
        ShortNumber(digits);
      }
    }
  }

  lemma ShortNumber(digits: string)
    requires AllDigits(digits) && 1 <= |digits| <= 2
    ensures DecimalValue(digits) ==
            if |digits| == 1 then digits[0] as int - '0' as int
            else 10 * (digits[0] as int - '0' as int) + (digits[1] as int - '0' as int)
  {
    var front := digits[..|digits| - 1];
    if |digits| == 2 {
      assert front[..0] == "";
      assert DecimalValue(front) == digits[0] as int - '0' as int;
    } else {
      assert front == "";
    }
  }

  /** The canonical names, by name: the four status words are one, three letters stand for
      numbers, sixteen numbers and sixteen words are registers, and nothing else is. */
  lemma CanonicalNames(name: string)
    ensures var c := Cleaned(name);
            Canonical(name) ==
            if c == "xpsr" || c == "apsr" || c == "ipsr" || c == "epsr" then Some("psr")
            else if c == "fp" then Some("r11") else if c == "ip" then Some("r12") else if c == "sl" then Some("r10")
            else if NamesANumber(c) || NamesASpecial(c) then Some(c) else None
  {
    hide Cleaned, DecimalValue;
    var c := Cleaned(name);
    NumberedIff(Unaliased(c));
    SpecialsAreNamed(Unaliased(c));
  }

  lemma SpecialsAreNamed(name: string)
    ensures NamesASpecial(name) <==> name in NAMED_REGISTERS
    ensures NamesASpecial(name) ==> !IsNumbered(name)
  {
    if NamesASpecial(name) && name[0] == 'r' {
      assert false;
    }
  }

  /** In a list the entry at `i` is register `i`, and those from sixteen on are none. */
  lemma ListsAreNumbered(items: seq<Value>, i: nat)
    requires i < |items|
    ensures Positional(items)[i].1 == items[i]
    ensures Canonical(Positional(items)[i].0) == if i <= 15 then Some("r" + Decimal(i)) else None
    ensures AllDigits(Decimal(i)) && DecimalValue(Decimal(i)) == i
  {
    hide Decimal, DecimalValue, Cleaned, Unaliased;
    var digits := Decimal(i);
    DecimalDenotes(i);
    SmallNumbersAreShort(i);
    NumberIsItsName(digits);
    assert ("r" + digits)[1..] == digits;
  }

  /** A name made of `r` and digits is neither cleaned nor an alias. */
  lemma NumberIsItsName(digits: string)
    requires AllDigits(digits) && digits != ""
    ensures Cleaned("r" + digits) == "r" + digits && Unaliased("r" + digits) == "r" + digits
    ensures IsNumbered("r" + digits)
  {
    hide Cleaned;
    var name := "r" + digits;
    assert name[0] == 'r' && name[1..] == digits;
    assert forall k :: 1 <= k < |name| ==> name[k] == digits[k - 1];
    CleanedIsFixed(name);
  }

  lemma SmallNumbersAreShort(n: nat)
    ensures n <= 15 ==> |Decimal(n)| <= 2
  {
  }

  /** Of a longer list the first 64 entries count, and the warning says how many there were. */
  lemma LongListsAreCut(items: seq<Value>)
    ensures PairsOf(List(items)) ==
            if |items| <= 64 then Some((Positional(items), []))
            else Some((Positional(items)[..64], [RegistersTruncated(|items|)]))
  {
  }

  // ---------------------------------------------------------------------------
  // Order
  // ---------------------------------------------------------------------------

  /** Python's order of strings: a prefix comes first, else the first difference decides. */
  lemma {:induction false} TextLeIs(a: string, b: string)
    ensures TextLe(a, b) <==> a <= b || exists k :: DiffersAt(a, b, k)
  {
    if a != "" && b != "" {
      TextLeIs(a[1..], b[1..]);
      if a[0] == b[0] {
        assert a <= b <==> a[1..] <= b[1..];
        if exists k :: DiffersAt(a[1..], b[1..], k) {
          var k :| DiffersAt(a[1..], b[1..], k);
          assert a[..k + 1] == [a[0]] + a[1..][..k] && b[..k + 1] == [b[0]] + b[1..][..k];
          assert DiffersAt(a, b, k + 1);
        }
        if exists k :: DiffersAt(a, b, k) {
          var k :| DiffersAt(a, b, k);
          assert k > 0;
          assert a[1..][..k - 1] == a[..k][1..] && b[1..][..k - 1] == b[..k][1..];
          assert DiffersAt(a[1..], b[1..], k - 1);
        }
      } else if a[0] < b[0] {
        assert DiffersAt(a, b, 0);
      } else {
        forall k | 0 < k < |a| && k < |b| ensures a[..k] != b[..k] {
          assert a[..k][0] == a[0] && b[..k][0] == b[0];
        }
      }
    }
  }

  predicate DiffersAt(a: string, b: string, k: int) {
    0 <= k < |a| && k < |b| && a[..k] == b[..k] && a[k] < b[k]
  }

  /** The registers of a dump: the numbered ones first, ascending, then the named ones in
      alphabetical order. */
  lemma RegistersReadInOrder(pairs: seq<(string, Value)>, i: nat, j: nat)
    requires FromPairs(pairs).Some? && i < j < |FromPairs(pairs).value|
    ensures var x, y := FromPairs(pairs).value[i].0, FromPairs(pairs).value[j].0;
            && (NamesANumber(y) ==> NamesANumber(x))
            && (NamesANumber(x) && NamesANumber(y) ==> DecimalValue(x[1..]) <= DecimalValue(y[1..]))
            && (!NamesANumber(x) && !NamesANumber(y) ==> TextLe(x, y))
  {
    hide Gathered, Usable, LastFor, Distinct, Sort, TextLe, DecimalValue;
    RegistersAreNormalised(pairs);
    var registers := FromPairs(pairs).value;
    assert KeyLe(registers[i], registers[j]);
    CanonicalIsNumberOrWord(registers[i].0);
    CanonicalIsNumberOrWord(registers[j].0);
  }

  lemma CanonicalIsNumberOrWord(name: string)
    requires Canonical(name) == Some(name)
    ensures NamesANumber(name) <==> IsNumbered(name)
  {
    hide DecimalValue;
    NumberedIff(name);
  }

  // ---------------------------------------------------------------------------
  // Warnings about registers
  // ---------------------------------------------------------------------------

  /** The positions of the entries that cannot be used. */
  ghost predicate AreUnusable(at: seq<nat>, pairs: seq<(string, Value)>) {
    && (forall i, j :: 0 <= i < j < |at| ==> at[i] < at[j])
    && (forall i :: 0 <= i < |at| ==> at[i] < |pairs|)
    && (forall p: nat :: p < |pairs| ==>
          (p in at <==> Canonical(pairs[p].0).None? || ParseAddress(pairs[p].1).None?))
  }

  lemma {:induction false} SkippedNames(pairs: seq<(string, Value)>) returns (at: seq<nat>)
    ensures AreUnusable(at, pairs)
    ensures |Skipped(pairs)| == |at|
    ensures forall i :: 0 <= i < |at| ==>
              Skipped(pairs)[i] == if |pairs[at[i]].0| <= 20 then pairs[at[i]].0 else pairs[at[i]].0[..20]
  {
    hide AreUnusable, Skipped, Usable;
    if pairs == [] {
      at := [];
      NothingSkipped();
    } else {
      var n := |pairs| - 1;
      var before := SkippedNames(pairs[..n]);
      at := if Usable(pairs[n]).None? then before + [n] else before;
      OneMoreUnusable(before, pairs);
      OneMoreSkipped(pairs);
      forall i | 0 <= i < |at|
        ensures at[i] < |pairs|
        ensures Skipped(pairs)[i] == if |pairs[at[i]].0| <= 20 then pairs[at[i]].0 else pairs[at[i]].0[..20]
      {
        UnusableIsIn(at, pairs, i);
        if i < |before| {
          UnusableIsIn(before, pairs[..n], i);
          assert pairs[before[i]] == pairs[..n][before[i]];
        }
      }
    }
  }

  lemma NothingSkipped()
    ensures AreUnusable([], []) && Skipped([]) == []
  {
  }

  lemma OneMoreSkipped(pairs: seq<(string, Value)>)
    requires pairs != []
    ensures var name := pairs[|pairs| - 1].0;
            Skipped(pairs) == if Usable(pairs[|pairs| - 1]).Some? then Skipped(pairs[..|pairs| - 1])
                              else Skipped(pairs[..|pairs| - 1]) + [if |name| <= 20 then name else name[..20]]
  {
    hide Usable;
  }

  lemma UnusableIsIn(at: seq<nat>, pairs: seq<(string, Value)>, i: nat)
    requires AreUnusable(at, pairs) && i < |at|
    ensures at[i] < |pairs|
  {
  }

  lemma OneMoreUnusable(at: seq<nat>, pairs: seq<(string, Value)>)
    requires pairs != [] && AreUnusable(at, pairs[..|pairs| - 1])
    ensures AreUnusable(if Usable(pairs[|pairs| - 1]).None? then at + [|pairs| - 1] else at, pairs)
  {
    hide Canonical, ParseAddress;
    var n := |pairs| - 1;
    var more := if Usable(pairs[n]).None? then at + [n] else at;
    forall p: nat | p < |pairs|
      ensures p in more <==> Canonical(pairs[p].0).None? || ParseAddress(pairs[p].1).None?
    {
      assert p < n ==> pairs[..n][p] == pairs[p];
      assert n !in at;
    }
  }

  /** The warning names at most eight of them, the first in alphabetical order, each cut to
      twenty characters; without one there is no warning. */
  lemma WarningNamesTheUnusable(pairs: seq<(string, Value)>) returns (at: seq<nat>, rest: seq<string>)
    ensures AreUnusable(at, pairs)
    ensures at == [] ==> Ignored(Skipped(pairs)) == []
    ensures at != [] ==>
              && |Ignored(Skipped(pairs))| == 1 && Ignored(Skipped(pairs))[0].RegistersIgnored?
              && var names := Ignored(Skipped(pairs))[0].names;
                 && |names| == (if |at| < 8 then |at| else 8)
                 && multiset(names) + multiset(rest) == multiset(Skipped(pairs))
                 && SortedBy(TextLe, names) && forall x, y :: x in names && y in rest ==> TextLe(x, y)
  {
    hide Skipped, Sort, TextLe, Canonical, ParseAddress;
    at := SkippedNames(pairs);
    var skipped := Skipped(pairs);
    var sorted := Sort(TextLe, skipped);
    TextLeIsPreorder();
    SortSorted(TextLe, skipped);
    SortElements(TextLe, skipped);
    var n := if |sorted| < 8 then |sorted| else 8;
    rest := sorted[n..];
    assert sorted == sorted[..n] + rest;
    assert Take(sorted, 8) == sorted[..n];
    FirstComeFirst(sorted, n);
  }

  lemma TextLeIsPreorder()
    ensures TotalPreorder(TextLe)
  {
    forall x, y ensures TextLe(x, y) || TextLe(y, x) {
      TextLeTotal(x, y);
    }
    forall x, y, z ensures TextLe(x, y) && TextLe(y, z) ==> TextLe(x, z) {
      TextLeTransitive(x, y, z);
    }
  }

  lemma FirstComeFirst(sorted: seq<string>, n: nat)
    requires n <= |sorted| && SortedBy(TextLe, sorted)
    ensures SortedBy(TextLe, sorted[..n])
    ensures forall x, y :: x in sorted[..n] && y in sorted[n..] ==> TextLe(x, y)
  {
    hide TextLe;
    forall x, y | x in sorted[..n] && y in sorted[n..] ensures TextLe(x, y) {
      var i :| 0 <= i < n && sorted[i] == x;
      var j :| n <= j < |sorted| && sorted[j] == y;
    }
  }

  // ---------------------------------------------------------------------------
  // Words in a text
  // ---------------------------------------------------------------------------

  /** What may stand between words: any mix of whitespace, commas and semicolons. */
  ghost predicate Separates(s: string) {
    forall i :: 0 <= i < |s| ==> IsSpace(s[i]) || s[i] == ',' || s[i] == ';'
  }

  ghost predicate IsWord(s: string) {
    s != "" && forall i :: 0 <= i < |s| ==> !IsSpace(s[i]) && s[i] != ',' && s[i] != ';'
  }

  /** The words, each behind what stands in front of it, and what stands behind the last. */
  function Written(before: seq<string>, words: seq<string>, after: string): string
    requires |before| == |words|
  {
    if words == [] then after else before[0] + (words[0] + Written(before[1..], words[1..], after))
  }

  lemma {:induction false} TokensSkip(separator: string, s: string)
    requires Separates(separator)
    ensures Tokens(separator + s) == Tokens(s)
  {
    hide IsSpace;
    if separator == "" {
      assert separator + s == s;
    } else {
      var t := separator + s;
      assert t[0] == separator[0] && t[1..] == separator[1..] + s;
      TokensSkip(separator[1..], s);
    }
  }

  lemma {:induction false} WordEndIs(word: string, s: string)
    requires IsWord(word) && (s == "" || IsSeparator(s[0]))
    ensures WordEnd(word + s) == |word|
  {
    hide IsSpace;
    var t := word + s;
    assert t[0] == word[0];
    if |word| == 1 {
      assert t[1..] == s;
    } else {
      assert t[1..] == word[1..] + s;
      WordEndIs(word[1..], s);
    }
  }

  lemma TokensTake(word: string, s: string)
    requires IsWord(word) && (s == "" || IsSeparator(s[0]))
    ensures Tokens(word + s) == [Str(word)] + Tokens(s)
  {
    hide IsSpace;
    var t := word + s;
    WordEndIs(word, s);
    assert t[0] == word[0] && t[..|word|] == word && t[|word|..] == s;
  }

  /** Words written one behind another with separators between them are read as they were
      written, whatever the separators are. */
  lemma {:induction false} WordsAreReadBack(before: seq<string>, words: seq<string>, after: string)
    requires |before| == |words| && Separates(after)
    requires forall i :: 0 <= i < |words| ==> IsWord(words[i]) && Separates(before[i]) && (i > 0 ==> before[i] != "")
    ensures |Tokens(Written(before, words, after))| == |words|
    ensures forall i :: 0 <= i < |words| ==> Tokens(Written(before, words, after))[i] == Str(words[i])
  {
    hide IsSpace, Tokens, IsWord;
    if words == [] {
      TokensSkip(after, "");
      assert after + "" == after;
      NoTokens();
    } else {
      var rest := Written(before[1..], words[1..], after);
      WordsAreReadBack(before[1..], words[1..], after);
      TokensSkip(before[0], words[0] + rest);
      assert rest != "" ==> IsSeparator(rest[0]) by {
        if |words| > 1 {
          assert before[1] != "" && rest[0] == before[1][0];
        }
      }
      TokensTake(words[0], rest);
    }
  }

  lemma NoTokens()
    ensures Tokens("") == []
  {
  }

  lemma WordEndStops(s: string)
    ensures forall i :: 0 <= i < WordEnd(s) ==> !IsSeparator(s[i])
    ensures WordEnd(s) < |s| ==> IsSeparator(s[WordEnd(s)])
  {
    hide IsSpace;
  }

  /** Separators behind the last word change nothing. */
  lemma {:induction false} TokensStop(s: string, separator: string)
    requires Separates(separator)
    ensures Tokens(s + separator) == Tokens(s)
    decreases |s|
  {
    hide IsSpace, WordEnd;
    var t := s + separator;
    if s == "" {
      assert t == separator + "";
      TokensSkip(separator, "");
    } else if IsSeparator(s[0]) {
      TokensStop(s[1..], separator);
      assert t[0] == s[0] && t[1..] == s[1..] + separator;
    } else {
      var n := WordEnd(s);
      var word, rest := s[..n], s[n..];
      WordEndStops(s);
      assert s == word + rest && t == word + (rest + separator);
      TokensTake(word, rest);
      TokensTake(word, rest + separator);
      TokensStop(rest, separator);
    }
  }

  lemma StripKeepsTokens(s: string)
    ensures Tokens(Strip(s)) == Tokens(s)
  {
    hide IsSpace, Tokens, Lead, Tail;
    if Lead(s) == |s| {
      assert s == s + "" && Separates(s);
      TokensSkip(s, "");
    } else {
      var core := s[Lead(s)..];
      assert s == s[..Lead(s)] + core;
      TokensSkip(s[..Lead(s)], core);
      StripKeepsTheMiddle(s);
      assert core == Strip(s) + s[Tail(s)..];
      TokensStop(Strip(s), s[Tail(s)..]);
    }
  }

  /** The addresses as the service prints them. */
  function Printed(values: seq<nat>): (words: seq<string>)
    ensures |words| == |values| && forall i :: 0 <= i < |values| ==> words[i] == AddressHex(values[i])
  {
    seq(|values|, i requires 0 <= i < |values| => AddressHex(values[i]))
  }

  lemma PrintedIsWord(value: nat)
    ensures IsWord(AddressHex(value))
  {
    hide IsSpace, Padded, Digits;
    var s := AddressHex(value);
    forall i | 0 <= i < |s| ensures !IsSpace(s[i]) && s[i] != ',' && s[i] != ';' {
      assert i >= 2 ==> IsHex(Padded(Digits(value), 8)[i - 2]);
      HexIsVisible(s[i]);
    }
  }

  /** A stack written as printed addresses with any separators between them is read back word
      for word, up to the 4096 words that are kept, and without a warning. */
  lemma PrintedStackIsReadBack(values: seq<nat>, before: seq<string>, after: string)
    requires 0 < |values| <= 4096 && (forall v :: v in values ==> v <= MAX_ADDRESS)
    requires |before| == |values| && Separates(after)
    requires forall i :: 0 <= i < |before| ==> Separates(before[i]) && (i > 0 ==> before[i] != "")
    ensures StackOutcome(Str(Written(before, Printed(values), after))) == (Some(Dump(None, values)), [])
  {
    hide Tokens, Strip, IsWord, Separates, AddressHex, ParseText, Words, Unreadable;
    var s := Written(before, Printed(values), after);
    forall i | 0 <= i < |values| ensures IsWord(Printed(values)[i]) && ParseText(Printed(values)[i]) == Some(values[i]) {
      PrintedIsWord(values[i]);
      assert values[i] in values;
      PrintedAddressParses(values[i]);
    }
    WordsAreReadBack(before, Printed(values), after);
    StripKeepsTokens(s);
    AllWordsRead(Tokens(s), values);
    ReadableOutcome(s, values);
  }

  lemma ReadableOutcome(s: string, values: seq<nat>)
    requires |Tokens(Strip(s))| <= 4096 && values != []
    requires Words(Tokens(Strip(s))) == values && Unreadable(Tokens(Strip(s))) == 0
    ensures StackOutcome(Str(s)) == (Some(Dump(None, values)), [])
  {
    hide Tokens, Strip, Words, Unreadable;
    var tokens := Tokens(Strip(s));
    assert TokensOf(Str(s)) == Some(tokens) && Take(tokens, 4096) == tokens;
    assert Truncated(tokens) == [] && SkippedWords(tokens) == [];
    assert StackOutcome(Str(s)).1 == [];
  }

  lemma {:induction false} AllWordsRead(tokens: seq<Value>, values: seq<nat>)
    requires |tokens| == |values|
    requires forall i :: 0 <= i < |values| ==> ParseAddress(tokens[i]) == Some(values[i])
    ensures Words(tokens) == values && Unreadable(tokens) == 0
  {
    hide ParseAddress;
    if values != [] {
      var n := |values| - 1;
      AllWordsRead(tokens[..n], values[..n]);
      assert values == values[..n] + [values[n]];
    }
  }

  /** Of more than 4096 words the first 4096 are kept, and the warning says how many there were. */
  lemma LongStacksAreCut(items: seq<Value>)
    requires |items| > 4096
    ensures StackOutcome(List(items)).1[0] == StackTruncated(|items|)
    ensures StackOutcome(List(items)).0 == StackOutcome(List(items[..4096])).0
  {
    hide Words, Unreadable, ParseAddress;
    assert items[..4096] == Take(items, 4096);
  }

  // ---------------------------------------------------------------------------
  // Fields of a dump
  // ---------------------------------------------------------------------------

  lemma {:induction false} FieldIsFirst(fields: seq<(string, Value)>, key: string)
    ensures Field(fields, key).None? <==> forall i :: 0 <= i < |fields| ==> fields[i].0 != key
    ensures Field(fields, key).Some? ==>
              exists i :: 0 <= i < |fields| && fields[i] == (key, Field(fields, key).value)
                          && forall j :: 0 <= j < i ==> fields[j].0 != key
  {
    if fields != [] && fields[0].0 != key {
      FieldIsFirst(fields[1..], key);
      assert forall i :: 0 <= i < |fields[1..]| ==> fields[1..][i] == fields[i + 1];
      if Field(fields[1..], key).Some? {
        var i :| 0 <= i < |fields[1..]| && fields[1..][i] == (key, Field(fields[1..], key).value)
                 && forall j :: 0 <= j < i ==> fields[1..][j].0 != key;
        assert fields[i + 1] == (key, Field(fields, key).value);
      }
    }
  }

  function OrElse(first: Option<Value>, second: Option<Value>): Option<Value> { if first.Some? then first else second }

  /** Where the start address and the words of an object are looked for, and in which order. */
  lemma FieldsOfADump(fields: seq<(string, Value)>)
    ensures FirstField(fields, START_KEYS) ==
            OrElse(Field(fields, "start_address"), OrElse(Field(fields, "startAddress"), OrElse(Field(fields, "address"),
            OrElse(Field(fields, "base"), Field(fields, "sp")))))
    ensures FirstField(fields, WORD_KEYS) ==
            OrElse(Field(fields, "words"), OrElse(Field(fields, "data"), OrElse(Field(fields, "stack"),
            OrElse(Field(fields, "values"), Field(fields, "dump")))))
  {
    hide Field;
    FiveKeys(fields, "start_address", "startAddress", "address", "base", "sp");
    FiveKeys(fields, "words", "data", "stack", "values", "dump");
  }

  lemma FiveKeys(fields: seq<(string, Value)>, a: string, b: string, c: string, d: string, e: string)
    ensures FirstField(fields, [a, b, c, d, e]) ==
            OrElse(Field(fields, a), OrElse(Field(fields, b), OrElse(Field(fields, c),
            OrElse(Field(fields, d), Field(fields, e)))))
  {
    hide Field;
    assert [a, b, c, d, e][1..] == [b, c, d, e] && [b, c, d, e][1..] == [c, d, e];
    assert [c, d, e][1..] == [d, e] && [d, e][1..] == [e] && [e][1..] == [];
    assert FirstField(fields, []) == None;
    assert FirstField(fields, [e]) == Field(fields, e);
    assert FirstField(fields, [d, e]) == OrElse(Field(fields, d), Field(fields, e));
    assert FirstField(fields, [c, d, e]) == OrElse(Field(fields, c), FirstField(fields, [d, e]));
    assert FirstField(fields, [b, c, d, e]) == OrElse(Field(fields, b), FirstField(fields, [c, d, e]));
  }

  /** A stack given as text or as a list is its words; as an object, the words of its field with
      the start address read from the other; without a word list, or as anything else, nothing
      but a warning; and nothing at all if it is missing. */
  lemma StackByKind(value: Value)
    ensures value == Null ==> StackOutcome(value) == (None, [])
    ensures value.Bool? || value.Int? || value.Float? ==> StackOutcome(value) == (None, [StackUnsupported])
    ensures value.Str? || value.List? ==> StackOutcome(value).0.Some? ==> StackOutcome(value).0.value.start == None
    ensures value.Object? ==>
              var start, words := FirstField(value.fields, START_KEYS), FirstField(value.fields, WORD_KEYS);
              if words.None? || words.value == Null then StackOutcome(value) == (None, [StackWithoutWords])
              else if words.value.Str? || words.value.List? then
                var alone := StackOutcome(words.value);
                && StackOutcome(value).1 == alone.1
                && (StackOutcome(value).0.Some? <==> alone.0.Some?)
                && (alone.0.Some? ==>
                      && StackOutcome(value).0.value.words == alone.0.value.words
                      && StackOutcome(value).0.value.start ==
                         if start.Some? then ParseAddress(start.value) else None)
              else StackOutcome(value) == (None, [StackUnsupported])
  {
    hide Tokens, Strip, FirstField, ParseAddress, Words, Unreadable;
  }

  /** What one more entry of a list adds: a word, or one more to be warned about. */
  lemma OneMoreWord(items: seq<Value>, item: Value)
    ensures Words([]) == [] && Unreadable([]) == 0
    ensures Words(items + [item]) == Words(items) + (if ParseAddress(item).Some? then [ParseAddress(item).value] else [])
    ensures Unreadable(items + [item]) == Unreadable(items) + (if ParseAddress(item).Some? then 0 else 1)
  {
    hide ParseAddress;
    var longer := items + [item];
    assert longer[..|items|] == items && longer[|items|] == item;
  }

  /** A list is read as its words; without one there is no dump, and what cannot be read is
      counted in a warning. */
  lemma ListsAreTheirWords(items: seq<Value>)
    requires |items| <= 4096
    ensures StackOutcome(List(items)).0 == if Words(items) == [] then None else Some(Dump(None, Words(items)))
    ensures StackOutcome(List(items)).1 == if Unreadable(items) == 0 then [] else [StackSkipped(Unreadable(items))]
  {
    hide Words, Unreadable, SkippedWords, StackOutcome, Truncated;
    ListOutcome(items);
    WarningOfSkipped(items);
    assert Truncated(items) == [] by { NothingTruncated(items); }
    NoWarningFirst(SkippedWords(items));
  }

  lemma ListOutcome(items: seq<Value>)
    ensures var tokens := if |items| <= 4096 then items else items[..4096];
            StackOutcome(List(items)) == (DumpOf(None, Words(tokens)), Truncated(items) + SkippedWords(tokens))
  {
    hide Words, Unreadable, SkippedWords, Truncated, DumpOf;
  }

  lemma NothingTruncated(items: seq<Value>)
    requires |items| <= 4096
    ensures Truncated(items) == []
  {
  }

  lemma WarningOfSkipped(items: seq<Value>)
    ensures SkippedWords(items) == if Unreadable(items) == 0 then [] else [StackSkipped(Unreadable(items))]
  {
  }

  /** Registers given as an object are its entries and as a list the numbered ones; anything
      else is nothing but a warning, and nothing at all if it is missing. */
  lemma RegistersByKind(value: Value)
    ensures value == Null ==> RegistersOutcome(value) == (None, [])
    ensures value.Bool? || value.Int? || value.Float? || value.Str? ==>
              RegistersOutcome(value) == (None, [RegistersUnsupported])
    ensures value.Object? ==>
              RegistersOutcome(value) == (FromPairs(value.fields), Ignored(Skipped(value.fields)))
    ensures value.List? && |value.items| <= 64 ==>
              RegistersOutcome(value) == RegistersOutcome(Object(Positional(value.items)))
    ensures value.List? && |value.items| > 64 ==>
              var first := RegistersOutcome(Object(Positional(value.items)[..64]));
              RegistersOutcome(value) == (first.0, [RegistersTruncated(|value.items|)] + first.1)
  {
    hide FromPairs, Ignored, Skipped;
    match value
    case Object(fields) => assert [] + Ignored(Skipped(fields)) == Ignored(Skipped(fields));
    case List(items) =>
      LongListsAreCut(items);
      NoWarningFirst(Ignored(Skipped(if |items| <= 64 then Positional(items) else Positional(items)[..64])));
    case _ =>
  }

  lemma NoWarningFirst(warnings: seq<Warning>)
    ensures [] + warnings == warnings
  {
  }
}
