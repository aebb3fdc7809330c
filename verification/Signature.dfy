/** Crash signatures and titles: backend/app/services/stack_analyzer.py. */
module Signature {
  import opened Wrappers
  import opened Sequences
  import opened Text
  import opened StackAnalyzer

  const SIGNATURE_VERSION := "v1"
  const SIGNATURE_FRAME_DEPTH: nat := 5
  const TOP_FUNCTION_LENGTH: nat := 255

  // ---------------------------------------------------------------------------
  // Function names
  // ---------------------------------------------------------------------------

  const CLONE_KINDS: seq<string> := ["constprop", "isra", "part", "cold", "lto_priv", "clone"]

  /** A dot, a clone kind, an optional dot and digits up to the end. */
  predicate IsCloneSuffix(s: string) {
    exists i :: 0 <= i < |CLONE_KINDS| &&
      var head := "." + CLONE_KINDS[i];
      head <= s &&
      var rest := s[|head|..];
      AllDigits(if rest != "" && rest[0] == '.' then rest[1..] else rest)
  }

  /** Drop the longest clone suffix; one suffix only, whatever is left. */
  function DropCloneSuffix(s: string): string {
    if s == "" || IsCloneSuffix(s) then "" else [s[0]] + DropCloneSuffix(s[1..])
  }

  function NormalizeFunctionName(name: string): string { DropCloneSuffix(Strip(name)) }

  /** A frame that contributes a name: resolved, to a function whose name is not empty. */
  predicate Names(f: Frame) { f.resolved && f.name.Some? && f.name.value != "" }

  function NameOf(f: Frame): string
    requires Names(f)
  {
    NormalizeFunctionName(f.name.value)
  }

  /** The normalised names of the resolved frames, innermost first. */
  function ResolvedNames(frames: seq<Frame>): seq<string> {
    if frames == [] then []
    else
      var f := frames[|frames| - 1];
      var inner := ResolvedNames(frames[..|frames| - 1]);
      if Names(f) then inner + [NameOf(f)] else inner
  }

  function Self(name: string): string { name }

  /** The names that identify the bug: neighbours in one function collapsed, the first few kept. */
  function SignatureNames(frames: seq<Frame>): seq<string> {
    Take(Collapse(Self, ResolvedNames(frames)), SIGNATURE_FRAME_DEPTH)
  }

  // ---------------------------------------------------------------------------
  // The hashed text
  // ---------------------------------------------------------------------------

  /** What a signature is computed from. */
  datatype Components =
    | Symbolized(faultType: string, task: string, names: seq<string>)
    | Unsymbolized(faultType: string, task: string, pc: Option<nat>, firmware: string)

  /** `value or ""`. */
  function OrEmpty(s: Option<string>): string { if s.Some? then s.value else "" }

  function PcText(pc: Option<nat>): string { if pc.None? then "None" else Decimal(pc.value) }

  function FallbackText(pc: Option<nat>, firmware: string): string { "pc=" + PcText(pc) + "&fw=" + firmware }

  function Location(c: Components): string {
    match c
    case Symbolized(_, _, names) => Join('>', names)
    case Unsymbolized(_, _, pc, firmware) => FallbackText(pc, firmware)
  }

  function Payload(c: Components): string {
    SIGNATURE_VERSION + "|" + c.faultType + "|" + c.task + "|" + Location(c)
  }

  function ComponentsOf(faultType: string, taskName: Option<string>, names: seq<string>,
                        pc: Option<nat>, firmware: string): Components
  {
    if names != [] then Symbolized(faultType, OrEmpty(taskName), names)
    else Unsymbolized(faultType, OrEmpty(taskName), pc, firmware)
  }

  /** The loop that gathers names, skips a neighbour in the same function and leaves once it
      has enough. */
  method GatherNames(frames: seq<Frame>) returns (resolved: seq<string>)
    ensures resolved == SignatureNames(frames)
  {
    resolved := [];
    ghost var names: seq<string> := [];
    var k := 0;
    while k < |frames|
      invariant k <= |frames|
      invariant names == ResolvedNames(frames[..k])
      invariant resolved == Collapse(Self, names)
      invariant |resolved| < SIGNATURE_FRAME_DEPTH
    {
      var frame := frames[k];
      ResolvedNamesStep(frames, k);
      k := k + 1;
      if Names(frame) {
        var name := NameOf(frame);
        NamesStep(names, name);
        names := names + [name];
        if resolved == [] || resolved[|resolved| - 1] != name {
          resolved := resolved + [name];
          if |resolved| >= SIGNATURE_FRAME_DEPTH {
            break;
          }
        }
      }
    }
    NamesPrefix(frames, k);
    assert frames[..|frames|] == frames;
  }

  lemma ResolvedNamesStep(frames: seq<Frame>, k: nat)
    requires k < |frames|
    ensures ResolvedNames(frames[..k + 1]) ==
            if Names(frames[k]) then ResolvedNames(frames[..k]) + [NameOf(frames[k])]
            else ResolvedNames(frames[..k])
  {
    assert frames[..k + 1][..k] == frames[..k];
  }

  lemma NamesStep(names: seq<string>, name: string)
    ensures var kept := Collapse(Self, names);
            Collapse(Self, names + [name]) ==
            if kept == [] || kept[|kept| - 1] != name then kept + [name] else kept
  {
    assert (names + [name])[..|names|] == names;
    if names != [] {
      CollapseKeepsLastKey(Self, names);
    }
  }

  lemma NamesPrefix(frames: seq<Frame>, k: nat)
    requires k <= |frames|
    ensures Collapse(Self, ResolvedNames(frames[..k])) <= Collapse(Self, ResolvedNames(frames))
  {
    ResolvedNamesPrefix(frames, k);
    var names := ResolvedNames(frames);
    var n := |ResolvedNames(frames[..k])|;
    assert names[..n] == ResolvedNames(frames[..k]);
    CollapsePrefix(Self, names, n);
  }

  lemma {:induction false} ResolvedNamesPrefix(frames: seq<Frame>, k: nat)
    requires k <= |frames|
    ensures ResolvedNames(frames[..k]) <= ResolvedNames(frames)
  {
    if k == |frames| {
      assert frames[..k] == frames;
    } else {
      var front := frames[..|frames| - 1];
      ResolvedNamesPrefix(front, k);
      assert front[..k] == frames[..k];
    }
  }

  method BuildSignature(faultType: string, taskName: Option<string>, frames: seq<Frame>,
                        pc: Option<nat>, firmware: string, hash: string -> string)
    returns (signature: string, components: Components)
    ensures components == ComponentsOf(faultType, taskName, SignatureNames(frames), pc, firmware)
    ensures signature == hash(Payload(components))
  {
    var resolved := GatherNames(frames);
    components := ComponentsOf(faultType, taskName, resolved, pc, firmware);
    signature := hash(Payload(components));
  }

  // ---------------------------------------------------------------------------
  // Titles
  // ---------------------------------------------------------------------------

  function SpaceForUnderscore(s: string): (r: string)
    ensures |r| == |s| && forall i :: 0 <= i < |s| ==> r[i] == if s[i] == '_' then ' ' else s[i]
  {
    if s == "" then "" else [if s[0] == '_' then ' ' else s[0]] + SpaceForUnderscore(s[1..])
  }

  /** A group's heading depends on the frames only through the innermost resolved name. */
  function Title(faultType: string, names: seq<string>, taskName: Option<string>): string {
    var heading := SpaceForUnderscore(faultType);
    if names != [] then heading + " in " + names[0]
    else if OrEmpty(taskName) != "" then heading + " in task " + OrEmpty(taskName)
    else heading
  }

  function TopFunction(names: seq<string>): Option<string> {
    if names == [] then None else Some(Take(names[0], TOP_FUNCTION_LENGTH))
  }

  lemma HeadOfPrefix(p: seq<string>, q: seq<string>)
    requires p <= q && p != []
    ensures q != [] && q[0] == p[0]
  {
  }

  lemma FirstName(frames: seq<Frame>, k: nat)
    requires k < |frames| && Names(frames[k])
    requires ResolvedNames(frames[..k]) == []
    ensures ResolvedNames(frames) != [] && ResolvedNames(frames)[0] == NameOf(frames[k])
  {
    hide ResolvedNames, Names, NameOf;
    var front := frames[..k + 1];
    ResolvedNamesStep(frames, k);
    assert ResolvedNames(front) == [NameOf(frames[k])];
    ResolvedNamesPrefix(frames, k + 1);
    HeadOfPrefix(ResolvedNames(front), ResolvedNames(frames));
  }

  method BuildTitle(faultType: string, frames: seq<Frame>, taskName: Option<string>)
    returns (title: string)
    ensures title == Title(faultType, ResolvedNames(frames), taskName)
  {
    var heading := SpaceForUnderscore(faultType);
    for k := 0 to |frames|
      invariant ResolvedNames(frames[..k]) == []
    {
      if Names(frames[k]) {
        FirstName(frames, k);
        return heading + " in " + NameOf(frames[k]);
      }
      assert frames[..k + 1][..k] == frames[..k];
    }
    assert frames[..|frames|] == frames;
    title := if OrEmpty(taskName) != "" then heading + " in task " + OrEmpty(taskName) else heading;
  }

  method TopFunctionOf(frames: seq<Frame>) returns (top: Option<string>)
    ensures top == TopFunction(ResolvedNames(frames))
  {
    for k := 0 to |frames|
      invariant ResolvedNames(frames[..k]) == []
    {
      if Names(frames[k]) {
        FirstName(frames, k);
        return Some(Take(NameOf(frames[k]), TOP_FUNCTION_LENGTH));
      }
      assert frames[..k + 1][..k] == frames[..k];
    }
    assert frames[..|frames|] == frames;
    top := None;
  }

  /** The signature's names start with the same name as the frames do. */
  lemma SignatureNamesHead(frames: seq<Frame>)
    ensures SignatureNames(frames) == [] <==> ResolvedNames(frames) == []
    ensures SignatureNames(frames) != [] ==> SignatureNames(frames)[0] == ResolvedNames(frames)[0]
  {
    var names := ResolvedNames(frames);
    if names != [] {
      CollapsePrefix(Self, names, 1);
      assert names[..1] == [names[0]];
    }
  }

  // ---------------------------------------------------------------------------
  // The hashed text determines what it was built from
  // ---------------------------------------------------------------------------

  predicate Free(c: char, s: string) { forall i :: 0 <= i < |s| ==> s[i] != c }

  function IndexOf(c: char, s: string): nat {
    if s == "" || s[0] == c then 0 else 1 + IndexOf(c, s[1..])
  }

  /** One past the last occurrence. */
  function EndOfLast(c: char, s: string): nat {
    if s == "" || s[|s| - 1] == c then |s| else EndOfLast(c, s[..|s| - 1])
  }

  function Cut(x: string, c: char, y: string): string { x + [c] + y }

  lemma {:induction false} IndexOfCut(x: string, c: char, y: string)
    requires Free(c, x)
    ensures IndexOf(c, Cut(x, c, y)) == |x|
  {
    if x != "" {
      assert Cut(x, c, y)[1..] == Cut(x[1..], c, y);
      IndexOfCut(x[1..], c, y);
    }
  }

  lemma {:induction false} EndOfLastCut(x: string, c: char, y: string)
    requires Free(c, y)
    ensures EndOfLast(c, Cut(x, c, y)) == |x| + 1
  {
    if y != "" {
      var s := Cut(x, c, y);
      assert s[..|s| - 1] == Cut(x, c, y[..|y| - 1]);
      EndOfLastCut(x, c, y[..|y| - 1]);
    }
  }

  lemma CutParts(x: string, c: char, y: string)
    ensures Cut(x, c, y)[..|x|] == x && Cut(x, c, y)[|x| + 1..] == y
  {
  }

  /** The text before the first separator, and the text after it, can be read back. */
  lemma CutAtFirst(x: string, c: char, y: string, x': string, y': string)
    requires Free(c, x) && Free(c, x') && Cut(x, c, y) == Cut(x', c, y')
    ensures x == x' && y == y'
  {
    IndexOfCut(x, c, y);
    IndexOfCut(x', c, y');
    CutParts(x, c, y);
    CutParts(x', c, y');
  }

  lemma CutAtLast(x: string, c: char, y: string, x': string, y': string)
    requires Free(c, y) && Free(c, y') && Cut(x, c, y) == Cut(x', c, y')
    ensures x == x' && y == y'
  {
    EndOfLastCut(x, c, y);
    EndOfLastCut(x', c, y');
    CutParts(x, c, y);
    CutParts(x', c, y');
  }

  lemma CutIsNotFree(x: string, c: char, y: string)
    ensures !Free(c, Cut(x, c, y))
  {
    assert Cut(x, c, y)[|x|] == c;
  }

  lemma JoinShape(separator: char, parts: seq<string>)
    requires parts != [] && forall i :: 0 <= i < |parts| ==> Free(separator, parts[i])
    ensures Free(separator, Join(separator, parts)) <==> |parts| == 1
    ensures |parts| > 1 ==>
              Join(separator, parts) == Cut(parts[0], separator, Join(separator, parts[1..]))
  {
    if |parts| > 1 {
      CutIsNotFree(parts[0], separator, Join(separator, parts[1..]));
    }
  }

  lemma {:induction false} JoinIsInjective(separator: char, a: seq<string>, b: seq<string>)
    requires a != [] && b != []
    requires forall i :: 0 <= i < |a| ==> Free(separator, a[i])
    requires forall i :: 0 <= i < |b| ==> Free(separator, b[i])
    requires Join(separator, a) == Join(separator, b)
    ensures a == b
  {
    JoinShape(separator, a);
    JoinShape(separator, b);
    assert |a| == 1 <==> |b| == 1;
    if |a| > 1 {
      CutAtFirst(a[0], separator, Join(separator, a[1..]), b[0], Join(separator, b[1..]));
      JoinIsInjective(separator, a[1..], b[1..]);
    }
    assert a == [a[0]] + a[1..] && b == [b[0]] + b[1..];
  }

  lemma {:induction false} JoinIsFree(c: char, separator: char, parts: seq<string>)
    requires c != separator && forall i :: 0 <= i < |parts| ==> Free(c, parts[i])
    ensures Free(c, Join(separator, parts))
  {
    if |parts| > 1 {
      JoinIsFree(c, separator, parts[1..]);
    }
  }

  lemma {:induction false} DecimalIsDigits(n: nat)
    ensures Decimal(n) != "" && AllDigits(Decimal(n))
  {
    if n >= 10 {
      DecimalIsDigits(n / 10);
    }
  }

  lemma DecimalLength(n: nat)
    ensures |Decimal(n)| == 1 <==> n < 10
    ensures n >= 10 ==> Decimal(n)[..|Decimal(n)| - 1] == Decimal(n / 10)
  {
    if n >= 10 {
      DecimalIsDigits(n / 10);
    }
  }

  lemma {:induction false} DecimalIsInjective(m: nat, n: nat)
    requires Decimal(m) == Decimal(n)
    ensures m == n
  {
    DecimalLength(m);
    DecimalLength(n);
    var s := Decimal(m);
    assert s[|s| - 1] == Digit(m % 10) == Digit(n % 10);
    if m >= 10 {
      DecimalIsInjective(m / 10, n / 10);
    }
  }

  /** Free of the characters the payload puts between its parts. Symbol names in C are. */
  predicate CleanName(name: string) { Free('|', name) && Free('>', name) }

  /** The text reads like the location of a crash without names. */
  ghost predicate SpellsFallback(text: string) {
    exists pc, firmware :: text == FallbackText(pc, firmware)
  }

  /** Clean names, the first of which does not pose as a program counter and a firmware. */
  ghost predicate CleanNames(names: seq<string>) {
    && (forall i :: 0 <= i < |names| ==> CleanName(names[i]))
    && (names != [] ==> !SpellsFallback(names[0]))
  }

  ghost predicate Clean(c: Components) {
    && Free('|', c.faultType)
    && match c
       case Symbolized(_, _, names) => names != [] && CleanNames(names)
       case Unsymbolized(_, _, _, firmware) => Free('|', firmware)
  }

  function PcField(pc: Option<nat>): string { "pc=" + PcText(pc) }

  function FirmwareField(firmware: string): string { "fw=" + firmware }

  lemma PcTextShape(pc: Option<nat>)
    ensures AllDigits(PcText(pc)) <==> pc.Some?
    ensures Free('&', PcField(pc)) && Free('|', PcField(pc)) && PcField(pc)[3..] == PcText(pc)
  {
    if pc.Some? {
      DecimalIsDigits(pc.value);
    } else {
      assert PcText(pc)[0] == 'N';
    }
  }

  lemma UnsymbolizedShape(pc: Option<nat>, firmware: string)
    ensures "pc=" + PcText(pc) + "&fw=" + firmware == Cut(PcField(pc), '&', FirmwareField(firmware))
    ensures FirmwareField(firmware)[3..] == firmware
  {
    assert "&fw=" == ['&'] + "fw=";
  }

  /** What stands before the firmware. */
  function FallbackHead(pc: Option<nat>): string { "pc=" + PcText(pc) + "&fw=" }

  lemma FallbackHeadIsFree(pc: Option<nat>)
    ensures Free('>', FallbackHead(pc)) && Free('|', FallbackHead(pc))
  {
    if pc.Some? {
      DecimalIsDigits(pc.value);
    }
  }

  /** If a text read on up to a `>` reads like a fallback, so does the text before the `>`. */
  lemma FallbackBeforeCut(x: string, y: string, pc: Option<nat>, firmware: string)
    requires Cut(x, '>', y) == FallbackText(pc, firmware)
    ensures SpellsFallback(x)
  {
    var head := FallbackHead(pc);
    FallbackHeadIsFree(pc);
    var text := Cut(x, '>', y);
    assert text == head + firmware;
    assert text[|x|] == '>';
    assert forall i :: 0 <= i < |head| ==> text[i] == head[i];
    assert |x| >= |head|;
    assert x == text[..|x|] == head + firmware[..|x| - |head|];
    assert x == FallbackText(pc, firmware[..|x| - |head|]);
  }

  /** No location has a bar in it, and only that of a crash without names reads like one. */
  lemma LocationShape(c: Components)
    requires Clean(c)
    ensures Free('|', Location(c))
    ensures SpellsFallback(Location(c)) <==> c.Unsymbolized?
  {
    match c
    case Symbolized(_, _, names) =>
      JoinIsFree('|', '>', names);
      JoinShape('>', names);
      forall pc, firmware ensures Location(c) != FallbackText(pc, firmware) {
        if |names| > 1 && Location(c) == FallbackText(pc, firmware) {
          FallbackBeforeCut(names[0], Join('>', names[1..]), pc, firmware);
        }
      }
    case Unsymbolized(_, _, pc, firmware) =>
      PcTextShape(pc);
      UnsymbolizedShape(pc, firmware);
      assert Location(c) == FallbackText(pc, firmware);
  }

  lemma PcTextIsInjective(p: Option<nat>, q: Option<nat>)
    requires PcText(p) == PcText(q)
    ensures p == q
  {
    PcTextShape(p);
    PcTextShape(q);
    if p.Some? {
      DecimalIsInjective(p.value, q.value);
    }
  }

  lemma LocationIsInjective(a: Components, b: Components)
    requires Clean(a) && Clean(b) && Location(a) == Location(b)
    ensures a.Symbolized? == b.Symbolized?
    ensures a.Symbolized? ==> a.names == b.names
    ensures a.Unsymbolized? ==> a.pc == b.pc && a.firmware == b.firmware
  {
    LocationShape(a);
    LocationShape(b);
    if a.Symbolized? {
      JoinIsInjective('>', a.names, b.names);
    } else {
      PcTextShape(a.pc);
      PcTextShape(b.pc);
      UnsymbolizedShape(a.pc, a.firmware);
      UnsymbolizedShape(b.pc, b.firmware);
      CutAtFirst(PcField(a.pc), '&', FirmwareField(a.firmware), PcField(b.pc), FirmwareField(b.firmware));
      PcTextIsInjective(a.pc, b.pc);
    }
  }

  lemma PayloadShape(c: Components)
    ensures Payload(c)[3..] == Cut(c.faultType, '|', Cut(c.task, '|', Location(c)))
  {
  }

  /** Different bugs have different payloads: the hashed text determines fault type, task and
      names, or fault type, task, program counter and firmware. The task may hold anything. */
  lemma PayloadIsInjective(a: Components, b: Components)
    requires Clean(a) && Clean(b) && Payload(a) == Payload(b)
    ensures a == b
  {
    PayloadShape(a);
    PayloadShape(b);
    CutAtFirst(a.faultType, '|', Cut(a.task, '|', Location(a)), b.faultType, Cut(b.task, '|', Location(b)));
    LocationShape(a);
    LocationShape(b);
    CutAtLast(a.task, '|', Location(a), b.task, Location(b));
    LocationIsInjective(a, b);
  }

  // ---------------------------------------------------------------------------
  // Exactly which components can be told apart
  // ---------------------------------------------------------------------------

  /** The pieces between the separators, one more than there are separators. */
  function SplitAt(separator: char, text: string): (parts: seq<string>)
    ensures parts != []
    ensures forall i :: 0 <= i < |parts| ==> Free(separator, parts[i])
  {
    if text == "" then [""]
    else
      var rest := SplitAt(separator, text[1..]);
      if text[0] == separator then [""] + rest else [[text[0]] + rest[0]] + rest[1..]
  }

  lemma JoinHead(separator: char, first: string, rest: seq<string>)
    requires rest != []
    ensures Join(separator, [first] + rest) == first + [separator] + Join(separator, rest)
  {
    assert ([first] + rest)[1..] == rest;
  }

  lemma JoinFirstChar(separator: char, c: char, parts: seq<string>)
    requires parts != []
    ensures Join(separator, [[c] + parts[0]] + parts[1..]) == [c] + Join(separator, parts)
  {
    var longer := [[c] + parts[0]] + parts[1..];
    assert longer[1..] == parts[1..];
    if |parts| > 1 {
      assert [c] + parts[0] + [separator] + Join(separator, parts[1..]) ==
             [c] + (parts[0] + [separator] + Join(separator, parts[1..]));
    }
  }

  lemma {:induction false} JoinOfSplit(separator: char, text: string)
    ensures Join(separator, SplitAt(separator, text)) == text
  {
    if text != "" {
      var rest := SplitAt(separator, text[1..]);
      JoinOfSplit(separator, text[1..]);
      if text[0] == separator {
        JoinHead(separator, "", rest);
      } else {
        JoinFirstChar(separator, text[0], rest);
      }
    }
  }

  lemma {:induction false} SplitKeepsFree(c: char, separator: char, text: string)
    requires Free(c, text)
    ensures forall i :: 0 <= i < |SplitAt(separator, text)| ==> Free(c, SplitAt(separator, text)[i])
  {
    if text != "" {
      SplitKeepsFree(c, separator, text[1..]);
    }
  }

  lemma {:induction false} FirstCut(c: char, text: string) returns (x: string, y: string)
    requires !Free(c, text)
    ensures text == Cut(x, c, y) && Free(c, x)
  {
    if text[0] == c {
      x, y := "", text[1..];
    } else {
      x, y := FirstCut(c, text[1..]);
      assert text == [text[0]] + Cut(x, c, y) == Cut([text[0]] + x, c, y);
      x := [text[0]] + x;
    }
  }

  lemma {:induction false} LastCut(c: char, text: string) returns (x: string, y: string)
    requires !Free(c, text)
    ensures text == Cut(x, c, y) && Free(c, y)
  {
    var n := |text| - 1;
    if text[n] == c {
      x, y := text[..n], "";
    } else {
      assert !Free(c, text[..n]);
      x, y := LastCut(c, text[..n]);
      assert text == Cut(x, c, y) + [text[n]] == Cut(x, c, y + [text[n]]);
      y := y + [text[n]];
    }
  }

  /** A name that poses as a program counter and a firmware makes all that follows pose so. */
  lemma FallbackGoesOn(pc: Option<nat>, firmware: string, more: string)
    ensures FallbackText(pc, firmware) + more == FallbackText(pc, firmware + more)
  {
  }

  /** A text without bars is the location of clean components. */
  lemma ReadLocation(faultType: string, task: string, location: string) returns (d: Components)
    requires Free('|', faultType) && Free('|', location)
    ensures Clean(d) && d.faultType == faultType && d.task == task && Location(d) == location
  {
    if SpellsFallback(location) {
      var pc, firmware :| location == FallbackText(pc, firmware);
      assert location == FallbackHead(pc) + firmware;
      assert forall i :: 0 <= i < |firmware| ==> firmware[i] == location[|FallbackHead(pc)| + i];
      d := Unsymbolized(faultType, task, pc, firmware);
    } else {
      var names := SplitAt('>', location);
      JoinOfSplit('>', location);
      SplitKeepsFree('|', '>', location);
      d := Symbolized(faultType, task, names);
      FirstNameIsNoFallback(names);
    }
  }

  lemma FirstNameIsNoFallback(names: seq<string>)
    requires names != [] && !SpellsFallback(Join('>', names))
    ensures !SpellsFallback(names[0])
  {
    hide FallbackText;
    forall pc, firmware ensures names[0] != FallbackText(pc, firmware) {
      if |names| > 1 {
        var more := ['>'] + Join('>', names[1..]);
        FallbackGoesOn(pc, firmware, more);
        assert Join('>', names) == names[0] + more;
      }
    }
  }

  /** Every text that can be hashed is the text of some clean components: cut it at its first
      bar and at its last one, and read what is left as a location. */
  lemma CleanReading(c: Components) returns (d: Components)
    ensures Clean(d) && Payload(d) == Payload(c)
  {
    PayloadShape(c);
    var text := Cut(c.faultType, '|', Cut(c.task, '|', Location(c)));
    CutIsNotFree(c.faultType, '|', Cut(c.task, '|', Location(c)));
    var faultType, rest := FirstCut('|', text);
    CutIsNotFree(c.task, '|', Location(c));
    RestHasABar(c.faultType, Cut(c.task, '|', Location(c)), faultType, rest);
    var task, location := LastCut('|', rest);
    d := ReadLocation(faultType, task, location);
    SamePayload(c, d);
  }

  /** Cutting at the first bar leaves the second one in the rest. */
  lemma RestHasABar(x: string, y: string, first: string, rest: string)
    requires Cut(x, '|', y) == Cut(first, '|', rest) && Free('|', first) && !Free('|', y)
    ensures !Free('|', rest)
  {
    var text := Cut(first, '|', rest);
    var j :| 0 <= j < |y| && y[j] == '|';
    assert text == Cut(x, '|', y);
    assert text[|x|] == '|' && text[|x| + 1 + j] == '|';
    assert |x| >= |first|;
    assert rest[|x| + 1 + j - |first| - 1] == text[|x| + 1 + j];
  }

  lemma SamePayload(c: Components, d: Components)
    requires Cut(c.faultType, '|', Cut(c.task, '|', Location(c))) == Cut(d.faultType, '|', Cut(d.task, '|', Location(d)))
    ensures Payload(c) == Payload(d)
  {
    PayloadIsCut(c);
    PayloadIsCut(d);
  }

  lemma PayloadIsCut(c: Components)
    ensures Payload(c) == SIGNATURE_VERSION + "|" + Cut(c.faultType, '|', Cut(c.task, '|', Location(c)))
  {
  }

  /** The text tells components from all clean ones exactly if they are clean themselves. */
  lemma ToldApartIffClean(c: Components)
    ensures Clean(c) <==> forall d :: Clean(d) && Payload(d) == Payload(c) ==> d == c
  {
    if Clean(c) {
      forall d | Clean(d) && Payload(d) == Payload(c) ensures d == c {
        PayloadIsInjective(c, d);
      }
    }
    var reading := CleanReading(c);
  }

  /** So each proviso is needed: whatever is not clean shares its text with something else. */
  lemma UncleanCollides(c: Components) returns (d: Components)
    requires !Clean(c)
    ensures d != c && Clean(d) && Payload(d) == Payload(c)
  {
    d := CleanReading(c);
  }

  /** One that a device can send: firmware versions and task names are free text, and a bar in
      one reads like the bar between the two. */
  lemma BarInFirmwareCollides(faultType: string)
    ensures var one := Unsymbolized(faultType, "t", None, "1|pc=None&fw=2");
            var two := Unsymbolized(faultType, "t|pc=None&fw=1", None, "2");
            one != two && Payload(one) == Payload(two)
  {
    var one := Unsymbolized(faultType, "t", None, "1|pc=None&fw=2");
    var two := Unsymbolized(faultType, "t|pc=None&fw=1", None, "2");
    assert one.task + "|" + Location(one) == two.task + "|" + Location(two);
    PayloadIsCut(one);
    PayloadIsCut(two);
    assert Cut(one.task, '|', Location(one)) == Cut(two.task, '|', Location(two));
  }

  /** And one that a symbol table can hold. */
  lemma SeparatorInNameCollides(faultType: string, task: string, x: string, y: string, more: seq<string>)
    ensures var one, two := Symbolized(faultType, task, [x + ['>'] + y] + more), Symbolized(faultType, task, [x, y] + more);
            one != two && Payload(one) == Payload(two)
  {
    var one, two := [x + ['>'] + y] + more, [x, y] + more;
    assert |one| != |two|;
    assert two == [x] + ([y] + more);
    JoinHead('>', x, [y] + more);
    if more == [] {
      assert one == [x + ['>'] + y] && [y] + more == [y];
    } else {
      JoinHead('>', x + ['>'] + y, more);
      JoinHead('>', y, more);
      assert x + ['>'] + y + ['>'] + Join('>', more) == x + ['>'] + (y + ['>'] + Join('>', more));
    }
  }

  /** A first name that poses as a program counter and a firmware
      makes a symbolicated crash read like one without symbols. */
  lemma FallbackNameCollides(faultType: string, task: string, pc: Option<nat>, firmware: string, more: seq<string>)
    ensures var names := [FallbackText(pc, firmware)] + more;
            exists other :: Payload(Symbolized(faultType, task, names)) == Payload(Unsymbolized(faultType, task, pc, other))
  {
    var first := FallbackText(pc, firmware);
    var names := [first] + more;
    var other := if more == [] then firmware else firmware + ['>'] + Join('>', more);
    assert names[1..] == more;
    if more != [] {
      assert FallbackText(pc, firmware) + ['>'] + Join('>', more) == FallbackText(pc, other);
    }
    assert Location(Symbolized(faultType, task, names)) == FallbackText(pc, other);
    assert Payload(Symbolized(faultType, task, names)) == Payload(Unsymbolized(faultType, task, pc, other));
  }

  /** Different texts have different hashes. */
  ghost predicate Injective(hash: string -> string) {
    forall x, y :: hash(x) == hash(y) ==> x == y
  }
}
