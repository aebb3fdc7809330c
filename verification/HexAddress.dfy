/** Addresses as text: `parse_address` of backend/app/services/crash_parser.py reads them and
    `address_hex` of backend/app/services/symbolizer.py prints them. */
module HexAddress {
  import opened Wrappers
  import opened Text

  const MAX_ADDRESS: nat := 0xFFFF_FFFF

  // ---------------------------------------------------------------------------
  // Reading
  // ---------------------------------------------------------------------------

  predicate IsHex(c: char) { '0' <= c <= '9' || 'a' <= c <= 'f' || 'A' <= c <= 'F' }

  function HexValue(c: char): (n: nat)
    requires IsHex(c)
    ensures n < 16
  {
    if c <= '9' then c as int - '0' as int
    else if c <= 'F' then c as int - 'A' as int + 10
    else c as int - 'a' as int + 10
  }

  predicate AllHex(s: string) { forall i :: 0 <= i < |s| ==> IsHex(s[i]) }

  /** `[0-9a-fA-F_]*`. */
  predicate HexOrUnderscore(s: string) { forall i :: 0 <= i < |s| ==> IsHex(s[i]) || s[i] == '_' }

  /** `int(digits, 16)`. */
  function Number(digits: string): nat
    requires AllHex(digits)
  {
    if digits == "" then 0 else 16 * Number(digits[..|digits| - 1]) + HexValue(digits[|digits| - 1])
  }

  /** `replace("_", "")`. */
  function WithoutUnderscores(s: string): (r: string)
    ensures HexOrUnderscore(s) ==> AllHex(r)
  {
    if s == "" then "" else if s[0] == '_' then WithoutUnderscores(s[1..]) else [s[0]] + WithoutUnderscores(s[1..])
  }

  predicate HasPrefix(s: string) { |s| >= 2 && s[0] == '0' && (s[1] == 'x' || s[1] == 'X') }

  /** The group `^(?:0x|0X)?([0-9a-fA-F_]+)$` captures. */
  function HexGroup(s: string): (r: Option<string>)
    ensures r.Some? ==> s != "" && r.value != "" && HexOrUnderscore(r.value)
  {
    if HasPrefix(s) && |s| > 2 && HexOrUnderscore(s[2..]) then Some(s[2..])
    else if s != "" && HexOrUnderscore(s) then Some(s)
    else None
  }

  function ParseText(t: string): (r: Option<nat>)
    ensures r.Some? ==> r.value <= MAX_ADDRESS
  {
    var group := HexGroup(Strip(t));
    if group.None? then None
    else
      var digits := WithoutUnderscores(group.value);
      if digits != "" && Number(digits) <= MAX_ADDRESS then Some(Number(digits)) else None
  }

  // ---------------------------------------------------------------------------
  // Printing
  // ---------------------------------------------------------------------------

  function HexDigit(n: nat): (c: char)
    requires n < 16
    ensures IsHex(c) && HexValue(c) == n && !('a' <= c <= 'f')
  {
    if n < 10 then '0' + n as char else 'A' + (n - 10) as char
  }

  function Digits(n: nat): (s: string)
    ensures s != "" && AllHex(s)
  {
    if n < 16 then [HexDigit(n)] else Digits(n / 16) + [HexDigit(n % 16)]
  }

  function Padded(s: string, width: nat): (r: string)
    ensures |r| >= width && (AllHex(s) ==> AllHex(r))
    decreases width - |s|
  {
    if |s| >= width then s else Padded(['0'] + s, width)
  }

  /** `f"0x{address:08X}"`. */
  function AddressHex(address: nat): string { "0x" + Padded(Digits(address), 8) }

  // ---------------------------------------------------------------------------
  // What a spelling of an address is
  // ---------------------------------------------------------------------------

  function Lower(c: char): char { if 'A' <= c <= 'F' then c + 32 as char else c }

  /** The digits that matter: leading zeros dropped, case ignored. */
  function Significant(s: string): (r: string)
    requires AllHex(s)
    ensures AllHex(r)
  {
    if s == "" then ""
    else
      var front := Significant(s[..|s| - 1]);
      if front == "" && s[|s| - 1] == '0' then "" else front + [Lower(s[|s| - 1])]
  }

  /** The text writes the address the way the printer does, up to surrounding whitespace, the
      prefix, the case of digits, underscores and leading zeros. */
  ghost predicate Spells(t: string, address: nat) {
    exists before, prefix, body, after :: IsSpelling(t, before, prefix, body, after, address)
  }

  predicate IsSpelling(t: string, before: string, prefix: string, body: string, after: string, address: nat) {
    && t == before + prefix + body + after && AllSpace(before) && AllSpace(after)
    && (prefix == "" || prefix == "0x" || prefix == "0X")
    && HexOrUnderscore(body) && WithoutUnderscores(body) != ""
    && Significant(WithoutUnderscores(body)) == Significant(AddressHex(address)[2..])
  }

  // ---------------------------------------------------------------------------
  // Positional notation
  // ---------------------------------------------------------------------------

  lemma {:induction false} SignificantNumber(s: string)
    requires AllHex(s)
    ensures Number(Significant(s)) == Number(s)
    ensures Significant(s) == "" <==> Number(s) == 0
  {
    if s != "" {
      var front, last := s[..|s| - 1], s[|s| - 1];
      SignificantNumber(front);
      assert HexValue(Lower(last)) == HexValue(last);
      var kept := Significant(front);
      if !(kept == "" && last == '0') {
        assert (kept + [Lower(last)])[..|kept|] == kept;
      }
    }
  }

  lemma DigitsDiffer(a: char, b: char)
    requires IsHex(a) && IsHex(b)
    ensures HexValue(a) == HexValue(b) <==> Lower(a) == Lower(b)
  {
  }

  /** Two digit strings denote the same number exactly when their significant digits agree. */
  lemma {:induction false} SameNumberIffSameDigits(s: string, t: string)
    requires AllHex(s) && AllHex(t)
    ensures Number(s) == Number(t) <==> Significant(s) == Significant(t)
    decreases |s| + |t|
  {
    hide Number, Significant, HexValue, Lower;
    SignificantNumber(s);
    SignificantNumber(t);
    if s == "" || t == "" {
      EmptyIsNothing();
    } else {
      var f, g := s[..|s| - 1], t[..|t| - 1];
      SameNumberIffSameDigits(f, g);
      SignificantNumber(f);
      SignificantNumber(g);
      LastDigit(s);
      LastDigit(t);
      DigitsDiffer(s[|s| - 1], t[|t| - 1]);
      LastDiffers(Significant(f), Lower(s[|s| - 1]), Significant(g), Lower(t[|t| - 1]));
    }
  }

  lemma EmptyIsNothing()
    ensures Number("") == 0 && Significant("") == ""
  {
  }

  lemma LastDigit(s: string)
    requires AllHex(s) && s != ""
    ensures var front, last := s[..|s| - 1], s[|s| - 1];
            && IsHex(last) && HexValue(last) < 16
            && Number(s) == 16 * Number(front) + HexValue(last)
            && (HexValue(last) == 0 <==> last == '0')
            && Significant(s) ==
               if Significant(front) == "" && last == '0' then "" else Significant(front) + [Lower(last)]
  {
  }

  lemma LastDiffers(f: string, a: char, g: string, b: char)
    ensures f + [a] == g + [b] <==> f == g && a == b
  {
    if f + [a] == g + [b] {
      assert f == (f + [a])[..|f|] == (g + [b])[..|g|] == g;
      assert a == (f + [a])[|f|] == (g + [b])[|g|] == b;
    }
  }

  lemma {:induction false} DigitsDenote(n: nat)
    ensures Number(Digits(n)) == n
  {
    if n >= 16 {
      DigitsDenote(n / 16);
      assert Digits(n)[..|Digits(n)| - 1] == Digits(n / 16);
    }
  }

  lemma {:induction false} LeadingZero(s: string)
    requires AllHex(s)
    ensures Number(['0'] + s) == Number(s)
  {
    if s != "" {
      LeadingZero(s[..|s| - 1]);
      assert (['0'] + s)[..|s|] == ['0'] + s[..|s| - 1];
    } else {
      assert (['0'] + s)[..0] == "";
    }
  }

  lemma {:induction false} PaddingDenotes(s: string, width: nat)
    requires AllHex(s)
    ensures Number(Padded(s, width)) == Number(s)
    decreases width - |s|
  {
    if |s| < width {
      LeadingZero(s);
      PaddingDenotes(['0'] + s, width);
    }
  }

  lemma PrinterDenotes(address: nat)
    ensures |AddressHex(address)| > 2 && AllHex(AddressHex(address)[2..])
    ensures Number(AddressHex(address)[2..]) == address
  {
    PaddingDenotes(Digits(address), 8);
    DigitsDenote(address);
    assert AddressHex(address)[2..] == Padded(Digits(address), 8);
  }

  /** The digits and their values. */
  lemma DigitHasItsPlace(c: char)
    requires IsHex(c)
    ensures Lower(c) == "0123456789abcdef"[HexValue(c)]
  {
  }

  /** Underscores go, wherever they stand, and nothing else. */
  lemma {:induction false} UnderscoresGo(s: string, c: char)
    ensures WithoutUnderscores("") == ""
    ensures WithoutUnderscores(s + [c]) == WithoutUnderscores(s) + (if c == '_' then "" else [c])
  {
    if s == "" {
      assert s + [c] == [c] && [c][1..] == "";
    } else {
      UnderscoresGo(s[1..], c);
      assert (s + [c])[0] == s[0] && (s + [c])[1..] == s[1..] + [c];
    }
  }

  /** Eight upper-case digits behind the prefix, as many as a 32-bit address takes. */
  lemma EightDigits(address: nat)
    requires address <= 0xFFFF_FFFF
    ensures var s := AddressHex(address);
            && |s| == 10 && s[0] == '0' && s[1] == 'x' && Number(s[2..]) == address
            && forall i :: 2 <= i < 10 ==> '0' <= s[i] <= '9' || 'A' <= s[i] <= 'F'
  {
    hide Number;
    PrinterDenotes(address);
    FewDigits(address, 8);
    PaddedLength(Digits(address), 8);
    UpperDigits(address);
    UpperPadded(Digits(address), 8);
  }

  predicate Upper(s: string) { forall i :: 0 <= i < |s| ==> '0' <= s[i] <= '9' || 'A' <= s[i] <= 'F' }

  lemma {:induction false} UpperDigits(n: nat)
    ensures Upper(Digits(n))
  {
    if n >= 16 {
      UpperDigits(n / 16);
    }
  }

  lemma {:induction false} UpperPadded(s: string, width: nat)
    requires Upper(s)
    ensures Upper(Padded(s, width))
    decreases width - |s|
  {
    if |s| < width {
      UpperPadded(['0'] + s, width);
    }
  }

  lemma {:induction false} PaddedLength(s: string, width: nat)
    ensures |Padded(s, width)| == if |s| < width then width else |s|
    decreases width - |s|
  {
    if |s| < width {
      PaddedLength(['0'] + s, width);
    }
  }

  function Power16(k: nat): nat { if k == 0 then 1 else 16 * Power16(k - 1) }

  lemma {:induction false} FewDigits(n: nat, k: nat)
    requires k > 0 && n < Power16(k)
    ensures |Digits(n)| <= k
  {
    if n >= 16 {
      FewDigits(n / 16, k - 1);
    }
  }

  // ---------------------------------------------------------------------------
  // Reading inverts printing
  // ---------------------------------------------------------------------------

  lemma HexIsVisible(c: char)
    requires IsHex(c) || c == '_' || c == 'x' || c == 'X'
    ensures !IsSpace(c)
  {
  }

  lemma GroupOfSpelling(prefix: string, body: string)
    requires prefix == "" || prefix == "0x" || prefix == "0X"
    requires body != "" && HexOrUnderscore(body)
    ensures HexGroup(prefix + body) == Some(body)
  {
    var s := prefix + body;
    if prefix == "" {
      assert s == body;
      assert |s| > 1 ==> s[1] != 'x' && s[1] != 'X';
    } else {
      assert s[2..] == body;
    }
  }

  lemma SpellingParses(t: string, before: string, prefix: string, body: string, after: string, address: nat)
    requires IsSpelling(t, before, prefix, body, after, address) && address <= MAX_ADDRESS
    ensures ParseText(t) == Some(address)
  {
    var core := prefix + body;
    assert body != "";
    HexIsVisible(core[0]);
    HexIsVisible(core[|core| - 1]);
    assert before + prefix + body + after == before + core + after;
    StripOfPadded(before, core, after);
    GroupOfSpelling(prefix, body);
    PrinterDenotes(address);
    SameNumberIffSameDigits(WithoutUnderscores(body), AddressHex(address)[2..]);
  }

  lemma GroupSplits(s: string) returns (prefix: string)
    requires HexGroup(s).Some?
    ensures s == prefix + HexGroup(s).value && (prefix == "" || prefix == "0x" || prefix == "0X")
  {
    if HasPrefix(s) && |s| > 2 && HexOrUnderscore(s[2..]) {
      prefix := [s[0], s[1]];
    } else {
      prefix := "";
    }
  }

  lemma StripSplits(t: string) returns (before: string, after: string)
    requires Strip(t) != ""
    ensures t == before + Strip(t) + after && AllSpace(before) && AllSpace(after)
  {
    StripKeepsTheMiddle(t);
    before, after := t[..Lead(t)], t[Tail(t)..];
    hide Lead, Tail, Strip, IsSpace;
    InThreeParts(t, Lead(t), Tail(t));
  }

  lemma ParsedIsSpelling(t: string, address: nat)
    requires ParseText(t) == Some(address)
    ensures Spells(t, address)
  {
    hide Strip, HexGroup, WithoutUnderscores, AddressHex, Significant, Number, AllSpace, HexOrUnderscore;
    var body := HexGroup(Strip(t)).value;
    var before, after := StripSplits(t);
    var prefix := GroupSplits(Strip(t));
    PrinterDenotes(address);
    SameNumberIffSameDigits(WithoutUnderscores(body), AddressHex(address)[2..]);
    Regroup(before, prefix, body, after);
    assert IsSpelling(t, before, prefix, body, after, address);
  }

  lemma Regroup(before: string, prefix: string, body: string, after: string)
    ensures before + (prefix + body) + after == before + prefix + body + after
  {
  }

  /** Exactly the spellings of a 32-bit address are read as that address. */
  lemma ParsesIffSpells(t: string, address: nat)
    ensures ParseText(t) == Some(address) <==> address <= MAX_ADDRESS && Spells(t, address)
  {
    if ParseText(t) == Some(address) {
      ParsedIsSpelling(t, address);
    }
    if address <= MAX_ADDRESS && Spells(t, address) {
      var before, prefix, body, after :| IsSpelling(t, before, prefix, body, after, address);
      SpellingParses(t, before, prefix, body, after, address);
    }
  }

  /** Reading inverts printing on every 32-bit address, and on no larger one. */
  lemma PrintedAddressParses(address: nat)
    ensures ParseText(AddressHex(address)) == if address <= MAX_ADDRESS then Some(address) else None
  {
    var t, body := AddressHex(address), AddressHex(address)[2..];
    PrinterDenotes(address);
    NoUnderscores(body);
    HexIsVisible(t[0]);
    HexIsVisible(t[|t| - 1]);
    StripIsIdentityOnTrimmed(t);
    GroupOfSpelling("0x", body);
    assert "0x" + body == t;
  }

  lemma {:induction false} NoUnderscores(s: string)
    requires AllHex(s)
    ensures WithoutUnderscores(s) == s
  {
    if s != "" {
      NoUnderscores(s[1..]);
    }
  }
}
