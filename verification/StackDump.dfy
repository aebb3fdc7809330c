/** Normalising the stack dump a device sends: `_parse_stack` of
    backend/app/services/crash_parser.py. */
module StackDump {
  import opened Wrappers
  import opened Sequences
  import opened Text
  import opened HexAddress
  import opened CrashParser

  datatype Dump = Dump(start: Option<nat>, words: seq<nat>)

  // ---------------------------------------------------------------------------
  // Lookup and splitting
  // ---------------------------------------------------------------------------

  function Field(fields: seq<(string, Value)>, key: string): Option<Value> {
    if fields == [] then None
    else if fields[0].0 == key then Some(fields[0].1)
    else Field(fields[1..], key)
  }

  /** The value of the first of the keys the object has. */
  function FirstField(fields: seq<(string, Value)>, keys: seq<string>): Option<Value> {
    if keys == [] then None
    else if Field(fields, keys[0]).Some? then Field(fields, keys[0])
    else FirstField(fields, keys[1..])
  }

  const START_KEYS: seq<string> := ["start_address", "startAddress", "address", "base", "sp"]
  const WORD_KEYS: seq<string> := ["words", "data", "stack", "values", "dump"]

  predicate IsSeparator(c: char) { IsSpace(c) || c == ',' || c == ';' }

  function WordEnd(s: string): (n: nat)
    ensures n <= |s|
    ensures s != "" && !IsSeparator(s[0]) ==> n > 0
  {
    if s == "" || IsSeparator(s[0]) then 0 else 1 + WordEnd(s[1..])
  }

  /** The non-empty pieces between runs of whitespace, commas and semicolons. */
  function Tokens(s: string): seq<Value>
    decreases |s|
  {
    if s == "" then []
    else if IsSeparator(s[0]) then Tokens(s[1..])
    else [Str(s[..WordEnd(s)])] + Tokens(s[WordEnd(s)..])
  }

  // ---------------------------------------------------------------------------
  // The outcome
  // ---------------------------------------------------------------------------

  function Words(tokens: seq<Value>): seq<nat> {
    if tokens == [] then []
    else if ParseAddress(tokens[|tokens| - 1]).Some? then
      Words(tokens[..|tokens| - 1]) + [ParseAddress(tokens[|tokens| - 1]).value]
    else Words(tokens[..|tokens| - 1])
  }

  function Unreadable(tokens: seq<Value>): nat {
    if tokens == [] then 0
    else Unreadable(tokens[..|tokens| - 1]) + if ParseAddress(tokens[|tokens| - 1]).Some? then 0 else 1
  }

  function StartOf(value: Value): Option<nat> {
    if value.Object? && FirstField(value.fields, START_KEYS).Some?
    then ParseAddress(FirstField(value.fields, START_KEYS).value) else None
  }

  /** Where the words are: in the value itself, or in a field of it. */
  function RawWords(value: Value): Value {
    if !value.Object? then value
    else if FirstField(value.fields, WORD_KEYS).Some? then FirstField(value.fields, WORD_KEYS).value
    else Null
  }

  function TokensOf(raw: Value): Option<seq<Value>> {
    match raw
    case Str(s) => Some(Tokens(Strip(s)))
    case List(items) => Some(items)
    case _ => None
  }

  function Truncated(tokens: seq<Value>): seq<Warning> {
    if |tokens| > MAX_STACK_WORDS then [StackTruncated(|tokens|)] else []
  }

  function SkippedWords(tokens: seq<Value>): seq<Warning> {
    if Unreadable(tokens) > 0 then [StackSkipped(Unreadable(tokens))] else []
  }

  function DumpOf(start: Option<nat>, words: seq<nat>): Option<Dump> {
    if words == [] then None else Some(Dump(start, words))
  }

  /** What `_parse_stack` answers and warns about. */
  function StackOutcome(value: Value): (Option<Dump>, seq<Warning>) {
    if value == Null then (None, [])
    else
      var raw := RawWords(value);
      if value.Object? && raw == Null then (None, [StackWithoutWords])
      else if TokensOf(raw).None? then (None, [StackUnsupported])
      else
        var tokens := Take(TokensOf(raw).value, MAX_STACK_WORDS);
        (DumpOf(StartOf(value), Words(tokens)), Truncated(TokensOf(raw).value) + SkippedWords(tokens))
  }

  method ParseStack(value: Value) returns (dump: Option<Dump>, warnings: seq<Warning>)
    ensures (dump, warnings) == StackOutcome(value)
  {
    hide Tokens, Strip, FirstField, ParseAddress, Words, Unreadable;
    warnings := [];
    if value == Null {
      return None, warnings;
    }
    var start: Option<nat>, raw := None, value;
    if value.Object? {
      var found := FirstField(value.fields, START_KEYS);
      if found.Some? {
        start := ParseAddress(found.value);
      }
      var words := FirstField(value.fields, WORD_KEYS);
      raw := if words.Some? then words.value else Null;
      if raw == Null {
        warnings := [StackWithoutWords];
        return None, warnings;
      }
    }
    var tokens: seq<Value>;
    if raw.Str? {
      tokens := Tokens(Strip(raw.s));
    } else if raw.List? {
      tokens := raw.items;
    } else {
      warnings := [StackUnsupported];
      return None, warnings;
    }
    ghost var all := tokens;
    if |tokens| > MAX_STACK_WORDS {
      warnings := [StackTruncated(|tokens|)];
      tokens := tokens[..MAX_STACK_WORDS];
    }
    assert tokens == Take(all, MAX_STACK_WORDS) && warnings == Truncated(all);
    var words: seq<nat>, unreadable: nat := [], 0;
    ReadNothing();
    for i := 0 to |tokens|
      invariant words == Words(tokens[..i]) && unreadable == Unreadable(tokens[..i])
    {
      ReadOne(tokens, i);
      var address := ParseAddress(tokens[i]);
      if address.None? {
        unreadable := unreadable + 1;
        continue;
      }
      words := words + [address.value];
    }
    assert tokens[..|tokens|] == tokens;
    assert warnings + [] == warnings;
    if unreadable > 0 {
      warnings := warnings + [StackSkipped(unreadable)];
    }
    dump := DumpOf(start, words);
  }

  lemma ReadNothing()
    ensures Words([]) == [] && Unreadable([]) == 0
  {
  }

  lemma ReadOne(tokens: seq<Value>, i: nat)
    requires i < |tokens|
    ensures var address := ParseAddress(tokens[i]);
            && (address.Some? ==> Words(tokens[..i + 1]) == Words(tokens[..i]) + [address.value]
                                  && Unreadable(tokens[..i + 1]) == Unreadable(tokens[..i]))
            && (address.None? ==> Words(tokens[..i + 1]) == Words(tokens[..i])
                                  && Unreadable(tokens[..i + 1]) == Unreadable(tokens[..i]) + 1)
  {
    hide ParseAddress;
    assert tokens[..i + 1][..i] == tokens[..i];
  }

  // ---------------------------------------------------------------------------
  // What a normalised stack dump is
  // ---------------------------------------------------------------------------

  /** Every token is either a word or counted as unreadable, and every word is an address. */
  lemma {:induction false} WordsAreReadable(tokens: seq<Value>)
    ensures |Words(tokens)| + Unreadable(tokens) == |tokens|
    ensures forall w :: w in Words(tokens) <==> exists i :: 0 <= i < |tokens| && ParseAddress(tokens[i]) == Some(w)
    ensures forall w :: w in Words(tokens) ==> w <= MAX_ADDRESS
  {
    if tokens != [] {
      var n := |tokens| - 1;
      WordsAreReadable(tokens[..n]);
      hide ParseAddress;
      forall w: nat
        ensures w in Words(tokens) <==> exists i :: 0 <= i < |tokens| && ParseAddress(tokens[i]) == Some(w)
      {
        if w in Words(tokens[..n]) {
          var i :| 0 <= i < n && ParseAddress(tokens[..n][i]) == Some(w);
          assert tokens[i] == tokens[..n][i];
        }
        if exists i :: 0 <= i < |tokens| && ParseAddress(tokens[i]) == Some(w) {
          var i :| 0 <= i < |tokens| && ParseAddress(tokens[i]) == Some(w);
          assert i < n ==> tokens[..n][i] == tokens[i];
        }
      }
    }
  }

  function Ints(words: seq<nat>): (items: seq<Value>)
    ensures |items| == |words|
    ensures forall i :: 0 <= i < |words| ==> items[i] == Int(words[i])
  {
    seq(|words|, i requires 0 <= i < |words| => Int(words[i]))
  }

  /** The object a normalised dump is stored as. */
  function Stored(dump: Dump): Value {
    Object([("start_address", if dump.start.Some? then Int(dump.start.value) else Null), ("words", List(Ints(dump.words)))])
  }

  lemma IntParses(w: nat)
    requires w <= MAX_ADDRESS
    ensures ParseAddress(Int(w)) == Some(w)
  {
  }

  lemma {:induction false} ReadAgain(words: seq<nat>)
    requires forall w :: w in words ==> w <= MAX_ADDRESS
    ensures Words(Ints(words)) == words && Unreadable(Ints(words)) == 0
  {
    hide ParseAddress;
    if words != [] {
      var n := |words| - 1;
      assert Ints(words)[..n] == Ints(words[..n]);
      assert words[n] in words && forall w :: w in words[..n] ==> w in words;
      IntParses(words[n]);
      ReadAgain(words[..n]);
      assert words[..n] + [words[n]] == words;
    }
  }

  lemma StoredFields(start: Value, words: Value)
    ensures var fields := [("start_address", start), ("words", words)];
            FirstField(fields, START_KEYS) == Some(start) && FirstField(fields, WORD_KEYS) == Some(words)
  {
    var fields := [("start_address", start), ("words", words)];
    assert fields[1..] == [("words", words)];
    assert Field(fields, "start_address") == Some(start);
    assert Field(fields, "words") == Some(words);
    hide Field;
    assert START_KEYS[0] == "start_address" && WORD_KEYS[0] == "words";
  }

  /** Parsing what was stored gives the same dump again, without a new warning. */
  lemma StackIsFixed(value: Value)
    requires StackOutcome(value).0.Some?
    ensures var dump := StackOutcome(value).0.value;
            StackOutcome(Stored(dump)) == (Some(dump), [])
  {
    hide FirstField, Tokens, Strip, Words, Unreadable;
    var tokens := Take(TokensOf(RawWords(value)).value, MAX_STACK_WORDS);
    var dump := StackOutcome(value).0.value;
    WordsAreReadable(tokens);
    ReadAgain(dump.words);
    var start := if dump.start.Some? then Int(dump.start.value) else Null;
    StoredFields(start, List(Ints(dump.words)));
    assert StartOf(Stored(dump)) == dump.start;
    assert RawWords(Stored(dump)) == List(Ints(dump.words));
    assert Truncated(Ints(dump.words)) == [];
    assert Take(Ints(dump.words), MAX_STACK_WORDS) == Ints(dump.words);
    assert SkippedWords(Ints(dump.words)) == [];
    assert Truncated(Ints(dump.words)) + SkippedWords(Ints(dump.words)) == [];
    assert TokensOf(RawWords(Stored(dump))) == Some(Ints(dump.words));
    assert DumpOf(dump.start, dump.words) == Some(dump);
  }
}
