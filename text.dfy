/** The .NET string and number primitives the service relies on, written
    out: `char.IsWhiteSpace`, `string.Trim`, `string.IsNullOrWhiteSpace`,
    `int.TryParse` with the default integer style, and the ordinal
    case-insensitive comparison used by `Enum.TryParse(ignoreCase: true)`. */
module DotNetText {
  import opened Wrappers

  /** `char.IsWhiteSpace`: the separators of Unicode categories Zs, Zl and Zp,
      and the controls U+0009..U+000D and U+0085. */
  predicate IsWhiteSpace(c: char) {
    || ('\t' <= c <= '\r')
    || c == ' '
    || c == '\U{0085}'
    || c == '\U{00A0}'
    || c == '\U{1680}'
    || ('\U{2000}' <= c <= '\U{200A}')
    || c == '\U{2028}'
    || c == '\U{2029}'
    || c == '\U{202F}'
    || c == '\U{205F}'
    || c == '\U{3000}'
  }

  predicate AllWhiteSpace(s: string) {
    forall i | 0 <= i < |s| :: IsWhiteSpace(s[i])
  }

  /** `string.IsNullOrWhiteSpace`; `None` stands for a null reference. */
  predicate IsNullOrWhiteSpace(s: Option<string>) {
    s.None? || AllWhiteSpace(s.value)
  }

  /** The number of white-space characters at the start of `s`. */
  function LeadingWhiteSpace(s: string): (k: nat)
    ensures k <= |s|
    ensures forall i | 0 <= i < k :: IsWhiteSpace(s[i])
    ensures k < |s| ==> !IsWhiteSpace(s[k])
  {
    if s == [] || !IsWhiteSpace(s[0]) then 0
    else
      var k := LeadingWhiteSpace(s[1..]);
      assert forall i | 1 <= i < k + 1 :: s[i] == s[1..][i - 1];
      k + 1
  }

  /** The number of white-space characters at the end of `s`. */
  function TrailingWhiteSpace(s: string): (k: nat)
    ensures k <= |s|
    ensures forall i | |s| - k <= i < |s| :: IsWhiteSpace(s[i])
    ensures k < |s| ==> !IsWhiteSpace(s[|s| - 1 - k])
  {
    if s == [] || !IsWhiteSpace(s[|s| - 1]) then 0
    else
      var k := TrailingWhiteSpace(s[..|s| - 1]);
      assert forall i | |s| - 1 - k <= i < |s| - 1 :: s[i] == s[..|s| - 1][i];
      k + 1
  }

  /** `t` is `s` with white space removed from both ends, and only that. */
  predicate TrimmedFrom(s: string, t: string) {
    exists a, b | 0 <= a <= b <= |s| ::
      && t == s[a..b]
      && (forall i | 0 <= i < a :: IsWhiteSpace(s[i]))
      && (forall i | b <= i < |s| :: IsWhiteSpace(s[i]))
      && (t != [] ==> !IsWhiteSpace(t[0]) && !IsWhiteSpace(t[|t| - 1]))
  }

  /** `string.Trim()`. */
  function Trim(s: string): (t: string)
    ensures TrimmedFrom(s, t)
    ensures t == [] <==> AllWhiteSpace(s)
  {
    var a := LeadingWhiteSpace(s);
    var b := TrailingWhiteSpace(s[a..]);
    TrimBounds(s, a, b);
    s[a..|s| - b]
  }

  lemma TrimBounds(s: string, a: nat, b: nat)
    requires a <= |s| && b <= |s| - a
    requires forall i | 0 <= i < a :: IsWhiteSpace(s[i])
    requires a < |s| ==> !IsWhiteSpace(s[a])
    requires forall i | |s[a..]| - b <= i < |s[a..]| :: IsWhiteSpace(s[a..][i])
    requires b < |s[a..]| ==> !IsWhiteSpace(s[a..][|s[a..]| - 1 - b])
    ensures a <= |s| - b
    ensures TrimmedFrom(s, s[a..|s| - b])
    ensures s[a..|s| - b] == [] <==> AllWhiteSpace(s)
  {
    var u := s[a..];
    var e := |s| - b;
    var t := s[a..e];
    assert forall i | e <= i < |s| :: IsWhiteSpace(s[i]) by {
      forall i | e <= i < |s| ensures IsWhiteSpace(s[i]) {
        assert s[i] == u[i - a];
      }
    }
    assert t != [] ==> !IsWhiteSpace(t[0]) && !IsWhiteSpace(t[|t| - 1]) by {
      if t != [] {
        assert t[0] == s[a];
        assert t[|t| - 1] == u[|u| - 1 - b];
      }
    }
    assert TrimmedFrom(s, t);
    TrimEmpty(s, a, e);
  }

  lemma TrimEmpty(s: string, a: nat, e: nat)
    requires a <= e <= |s|
    requires forall i | 0 <= i < a :: IsWhiteSpace(s[i])
    requires forall i | e <= i < |s| :: IsWhiteSpace(s[i])
    requires a < |s| ==> !IsWhiteSpace(s[a])
    ensures s[a..e] == [] <==> AllWhiteSpace(s)
  {
  }

  /** Trimming text whose ends are not white space changes nothing. */
  lemma TrimUnpadded(s: string)
    requires s != [] ==> !IsWhiteSpace(s[0]) && !IsWhiteSpace(s[|s| - 1])
    ensures Trim(s) == s
  {
    if s != [] {
      assert LeadingWhiteSpace(s) == 0;
      assert s[0..] == s;
    }
  }

  /** Trimming is idempotent. */
  lemma TrimIdempotent(s: string)
    ensures Trim(Trim(s)) == Trim(s)
  {
    TrimUnpadded(Trim(s));
  }

  lemma {:induction false} LeadingOfPadded(pad: string, rest: string)
    requires AllWhiteSpace(pad)
    requires rest != [] && !IsWhiteSpace(rest[0])
    ensures LeadingWhiteSpace(pad + rest) == |pad|
    decreases |pad|
  {
    if pad != [] {
      assert (pad + rest)[1..] == pad[1..] + rest;
      LeadingOfPadded(pad[1..], rest);
    }
  }

  lemma {:induction false} TrailingOfPadded(rest: string, pad: string)
    requires AllWhiteSpace(pad)
    requires rest != [] && !IsWhiteSpace(rest[|rest| - 1])
    ensures TrailingWhiteSpace(rest + pad) == |pad|
    decreases |pad|
  {
    if pad != [] {
      assert (rest + pad)[..|rest + pad| - 1] == rest + pad[..|pad| - 1];
      TrailingOfPadded(rest, pad[..|pad| - 1]);
    }
  }

  /** Trimming removes exactly the white space around non-blank text. */
  lemma TrimPadded(left: string, t: string, right: string)
    requires AllWhiteSpace(left) && AllWhiteSpace(right)
    requires t != [] && !IsWhiteSpace(t[0]) && !IsWhiteSpace(t[|t| - 1])
    ensures Trim(left + t + right) == t
  {
    var s := left + t + right;
    assert s == left + (t + right);
    LeadingOfPadded(left, t + right);
    assert s[|left|..] == t + right;
    TrailingOfPadded(t, right);
    assert s[|left|..|s| - |right|] == t;
  }

  const Int32Min: int := -0x8000_0000
  const Int32Max: int := 0x7FFF_FFFF

  predicate IsDigit(c: char) {
    '0' <= c <= '9'
  }

  predicate AllDigits(s: string) {
    forall i | 0 <= i < |s| :: IsDigit(s[i])
  }

  function DigitValue(c: char): nat
    requires IsDigit(c)
  {
    (c as int) - ('0' as int)
  }

  /** The value of a string of decimal digits, most significant first. */
  function DigitsValue(ds: string): nat
    requires AllDigits(ds)
  {
    if ds == [] then 0 else DigitsValue(ds[..|ds| - 1]) * 10 + DigitValue(ds[|ds| - 1])
  }

  /** 1 when the text starts with a sign, else 0. */
  function SignLength(t: string): nat {
    if |t| > 0 && (t[0] == '+' || t[0] == '-') then 1 else 0
  }

  /** An optional sign followed by one or more ASCII digits. */
  predicate IsSignedDigits(t: string) {
    t[SignLength(t)..] != [] && AllDigits(t[SignLength(t)..])
  }

  /** The value such text denotes: its digits, negated after a minus sign. */
  function SignedValue(t: string): int
    requires IsSignedDigits(t)
  {
    var magnitude: int := DigitsValue(t[SignLength(t)..]);
    if t[0] == '-' then -magnitude else magnitude
  }

  /** `int.TryParse` on text with no surrounding white space: it succeeds
      exactly on signed digits whose value fits in 32 bits, with that value. */
  function TryParseInt32(t: string): (r: Option<int>)
    ensures r.Some? <==> IsSignedDigits(t) && Int32Min <= SignedValue(t) <= Int32Max
    ensures r.Some? ==> r.value == SignedValue(t)
    ensures r.Some? ==> |t| > 0 && (IsDigit(t[0]) || t[0] == '+' || t[0] == '-')
  {
    var sign := SignLength(t);
    var digits := t[sign..];
    if digits == [] || !AllDigits(digits) then None
    else
      assert forall i | sign <= i < |t| :: t[i] == digits[i - sign];
      var magnitude: int := DigitsValue(digits);
      var v := if sign == 1 && t[0] == '-' then -magnitude else magnitude;
      if Int32Min <= v <= Int32Max then Some(v) else None
  }

  function DigitChar(d: nat): (c: char)
    requires d < 10
    ensures IsDigit(c) && DigitValue(c) == d
  {
    (('0' as int) + d) as char
  }

  /** The decimal digits of a natural number, without leading zeros. */
  function NatDigits(n: nat): (ds: string)
    ensures ds != [] && AllDigits(ds)
  {
    if n < 10 then [DigitChar(n)] else NatDigits(n / 10) + [DigitChar(n % 10)]
  }

  /** `int.ToString()`: a minus sign for negative values, then the digits. */
  function FormatInt(n: int): string {
    if n < 0 then "-" + NatDigits(-n) else NatDigits(n)
  }

  lemma {:induction false} DigitsValueOfNatDigits(n: nat)
    ensures DigitsValue(NatDigits(n)) == n
  {
    if n >= 10 {
      var ds := NatDigits(n);
      assert ds[..|ds| - 1] == NatDigits(n / 10);
      DigitsValueOfNatDigits(n / 10);
    }
  }

  /** Formatting a 32-bit integer and parsing it back gives the same integer. */
  lemma TryParseFormat(n: int)
    requires Int32Min <= n <= Int32Max
    ensures TryParseInt32(FormatInt(n)) == Some(n)
  {
    var t := FormatInt(n);
    if n < 0 {
      assert t[1..] == NatDigits(-n);
      DigitsValueOfNatDigits(-n);
    } else {
      assert t[0..] == t;
      DigitsValueOfNatDigits(n);
    }
  }

  /** A leading zero digit does not change the value of a string of digits. */
  lemma {:induction false} LeadingZeroValue(ds: string)
    requires AllDigits(ds)
    ensures AllDigits("0" + ds) && DigitsValue("0" + ds) == DigitsValue(ds)
    decreases |ds|
  {
    var zs := "0" + ds;
    if ds == [] {
      assert zs[..|zs| - 1] == [];
    } else {
      assert zs[..|zs| - 1] == "0" + ds[..|ds| - 1];
      assert zs[|zs| - 1] == ds[|ds| - 1];
      LeadingZeroValue(ds[..|ds| - 1]);
    }
  }

  /** "03" parses like "3": leading zeros are accepted and do not change the value. */
  lemma TryParseLeadingZero(ds: string)
    requires ds != [] && AllDigits(ds)
    ensures TryParseInt32("0" + ds) == TryParseInt32(ds)
  {
    LeadingZeroValue(ds);
    assert ("0" + ds)[0..] == "0" + ds && ds[0..] == ds;
  }

  /** "+3" parses like "3": a plus sign is accepted and does not change the value. */
  lemma TryParsePlusSign(ds: string)
    requires ds != [] && AllDigits(ds)
    ensures TryParseInt32("+" + ds) == TryParseInt32(ds)
  {
    assert ("+" + ds)[1..] == ds && ds[0..] == ds;
  }

  /** Formatted integers carry no white space to trim. */
  lemma TrimFormatInt(n: int)
    ensures Trim(FormatInt(n)) == FormatInt(n)
  {
    var t := FormatInt(n);
    var ds := if n < 0 then NatDigits(-n) else NatDigits(n);
    assert t[|t| - 1] == ds[|ds| - 1];
    assert IsDigit(t[|t| - 1]);
    TrimUnpadded(t);
  }

  /** The sign is accepted: "+1" is 1 and "-0" is 0; "99" is numeric, a name is not. */
  lemma TryParseExamples()
    ensures TryParseInt32("+1") == Some(1)
    ensures TryParseInt32("-0") == Some(0)
    ensures TryParseInt32("99") == Some(99)
    ensures TryParseInt32("3") == Some(3)
    ensures TryParseInt32("Sedan") == None
    ensures TryParseInt32("") == None
  {
    assert "+1"[1..] == "1";
    assert "-0"[1..] == "0";
    assert "99"[0..] == "99" && "99"[..1] == "9";
    assert "3"[0..] == "3";
  }

  /** ASCII case folding; `Enum.TryParse(ignoreCase: true)` compares ordinally ignoring case. */
  function ToLowerAscii(c: char): char {
    if 'A' <= c <= 'Z' then ((c as int) + 32) as char else c
  }

  predicate EqualsIgnoreCase(a: string, b: string) {
    |a| == |b| && forall i | 0 <= i < |a| :: ToLowerAscii(a[i]) == ToLowerAscii(b[i])
  }
}
