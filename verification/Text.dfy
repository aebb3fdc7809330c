/** Python's `str.isspace`, `str.strip` and the ASCII classes the scanners use. */
module Text {

  /** The characters `str.isspace` and the regular-expression class `\s` accept. */
  predicate IsSpace(c: char) {
    var n := c as int;
    || 0x09 <= n <= 0x0D || 0x1C <= n <= 0x20 || n == 0x85 || n == 0xA0 || n == 0x1680
    || 0x2000 <= n <= 0x200A || n == 0x2028 || n == 0x2029 || n == 0x202F || n == 0x205F
    || n == 0x3000
  }

  /** These twenty-nine characters, by code point. */
  lemma SpacesAre(c: char)
    ensures IsSpace(c) <==>
            c as int in {9, 10, 11, 12, 13, 28, 29, 30, 31, 32, 133, 160, 5760, 8192, 8193, 8194, 8195, 8196, 8197, 8198,
                         8199, 8200, 8201, 8202, 8232, 8233, 8239, 8287, 12288}
  {
  }

  predicate IsDigit(c: char) { '0' <= c <= '9' }

  predicate AllDigits(s: string) { forall i :: 0 <= i < |s| ==> IsDigit(s[i]) }

  predicate AllSpace(s: string) { forall i :: 0 <= i < |s| ==> IsSpace(s[i]) }

  /** Where the text starts once leading whitespace is skipped. */
  function Lead(s: string): (n: nat)
    ensures n <= |s|
    ensures forall i :: 0 <= i < n ==> IsSpace(s[i])
    ensures n < |s| ==> !IsSpace(s[n])
  {
    if s == [] || !IsSpace(s[0]) then 0 else 1 + Lead(s[1..])
  }

  /** Where the text ends once trailing whitespace is dropped. */
  function Tail(s: string): (n: nat)
    ensures n <= |s|
    ensures forall i :: n <= i < |s| ==> IsSpace(s[i])
    ensures 0 < n ==> !IsSpace(s[n - 1])
  {
    if s == [] || !IsSpace(s[|s| - 1]) then |s| else Tail(s[..|s| - 1])
  }

  function RStrip(s: string): string { s[..Tail(s)] }

  function Strip(s: string): string {
    if Lead(s) == |s| then "" else s[Lead(s)..Tail(s)]
  }

  /** `Strip` keeps a contiguous piece, drops only whitespace, and leaves none at the ends. */
  lemma StripKeepsTheMiddle(s: string)
    ensures Lead(s) < |s| ==> Lead(s) < Tail(s) && Strip(s) == s[Lead(s)..Tail(s)]
    ensures Strip(s) == "" <==> AllSpace(s)
    ensures Strip(s) == "" <==> Lead(s) == |s|
    ensures Strip(s) != "" ==> !IsSpace(Strip(s)[0]) && !IsSpace(Strip(s)[|Strip(s)| - 1])
  {
    hide IsSpace;
    var n, m := Lead(s), Tail(s);
    hide Lead, Tail;
    if n < |s| {
      assert !IsSpace(s[n]) && n < m;
      assert Strip(s)[0] == s[n] && Strip(s)[|Strip(s)| - 1] == s[m - 1];
    } else {
      assert Strip(s) == "";
    }
  }

  lemma StripIsIdentityOnTrimmed(s: string)
    requires s == "" || (!IsSpace(s[0]) && !IsSpace(s[|s| - 1]))
    ensures Strip(s) == s
  {
    if s != "" {
      assert Lead(s) == 0;
      assert Tail(s) == |s|;
    }
  }

  lemma InThreeParts(t: string, i: nat, j: nat)
    requires i <= j <= |t|
    ensures t[..i] + t[i..j] + t[j..] == t
  {
  }

  lemma StripOfPadded(before: string, core: string, after: string)
    requires AllSpace(before) && AllSpace(after)
    requires core != "" && !IsSpace(core[0]) && !IsSpace(core[|core| - 1])
    ensures Strip(before + core + after) == core
  {
    var t := before + core + after;
    assert t[|before|] == core[0] && t[|before| + |core| - 1] == core[|core| - 1];
    assert forall i :: 0 <= i < |before| ==> t[i] == before[i];
    assert forall i :: |before| + |core| <= i < |t| ==> t[i] == after[i - |before| - |core|];
    LeadIs(t, |before|);
    TailIs(t, |before| + |core|);
    assert t[|before|..|before| + |core|] == core;
  }

  lemma LeadIs(t: string, n: nat)
    requires n < |t| && (forall i :: 0 <= i < n ==> IsSpace(t[i])) && !IsSpace(t[n])
    ensures Lead(t) == n
  {
  }

  lemma TailIs(t: string, n: nat)
    requires 0 < n <= |t| && (forall i :: n <= i < |t| ==> IsSpace(t[i])) && !IsSpace(t[n - 1])
    ensures Tail(t) == n
  {
  }

  /** `separator.join(parts)`. */
  function Join(separator: char, parts: seq<string>): string {
    if parts == [] then ""
    else if |parts| == 1 then parts[0]
    else parts[0] + [separator] + Join(separator, parts[1..])
  }

  function Digit(d: nat): char
    requires d < 10
  {
    '0' + d as char
  }

  /** `str(n)`. */
  function Decimal(n: nat): string {
    if n < 10 then [Digit(n)] else Decimal(n / 10) + [Digit(n % 10)]
  }

  /** `int(s)`. */
  function DecimalValue(s: string): nat
    requires AllDigits(s)
  {
    if s == "" then 0 else 10 * DecimalValue(s[..|s| - 1]) + (s[|s| - 1] as int - '0' as int)
  }

  /** The decimal digits of a number, without a leading zero. */
  lemma {:induction false} DecimalDenotes(n: nat)
    ensures Decimal(n) != "" && AllDigits(Decimal(n)) && DecimalValue(Decimal(n)) == n
    ensures n > 0 ==> Decimal(n)[0] != '0'
  {
    var s := Decimal(n);
    if n >= 10 {
      DecimalDenotes(n / 10);
      assert s[..|s| - 1] == Decimal(n / 10);
    } else {
      assert s[..0] == "";
    }
  }
}
