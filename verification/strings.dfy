/**
 * String and number helpers with the semantics of the JavaScript built-ins the
 * components call: `indexOf`, `lastIndexOf`, `substring`, `replace` with a
 * string pattern, `toLowerCase`/`toUpperCase`, number-to-string conversion in
 * template literals, and `parseInt`.
 */
module Strings {
  import opened Wrappers

  /** A JavaScript number as the modelled code produces it: an integer or NaN. */
  datatype JsNumber = Finite(value: int) | NaN

  // ---------------------------------------------------------------------------
  // Searching

  /** `pat` occurs in `s` starting at position `i`. */
  predicate OccursAt(s: string, pat: string, i: nat) {
    i + |pat| <= |s| && s[i..i + |pat|] == pat
  }

  predicate Contains(s: string, pat: string) {
    exists i: nat | i <= |s| :: OccursAt(s, pat, i)
  }

  /** `s.indexOf(pat, from)`, with None for -1. */
  function IndexOf(s: string, pat: string, from: nat): (r: Option<nat>)
    ensures r.Some? ==> from <= r.value && OccursAt(s, pat, r.value)
    ensures r.Some? ==> forall j: nat :: from <= j < r.value ==> !OccursAt(s, pat, j)
    ensures r.None? ==> forall j: nat :: from <= j ==> !OccursAt(s, pat, j)
    decreases |s| - from
  {
    if from + |pat| > |s| then None
    else if OccursAt(s, pat, from) then Some(from)
    else IndexOf(s, pat, from + 1)
  }

  /** Position `p` is the first place `pat` occurs in `s`. */
  predicate FirstOccurrence(s: string, pat: string, p: nat) {
    OccursAt(s, pat, p) && forall j: nat :: j < p ==> !OccursAt(s, pat, j)
  }

  /** The first occurrence found by `IndexOf` from 0 decides `Contains`. */
  lemma IndexOfDecidesContains(s: string, pat: string)
    ensures IndexOf(s, pat, 0).Some? <==> Contains(s, pat)
  {
    if IndexOf(s, pat, 0).Some? {
      assert OccursAt(s, pat, IndexOf(s, pat, 0).value);
    }
  }

  /** The first occurrence is unique, and it is the one `IndexOf` from 0 finds. */
  lemma IndexOfIsFirst(s: string, pat: string)
    ensures forall p: nat :: FirstOccurrence(s, pat, p) ==> IndexOf(s, pat, 0) == Some(p)
  {
    forall p: nat | FirstOccurrence(s, pat, p)
      ensures IndexOf(s, pat, 0) == Some(p)
    {
      var r := IndexOf(s, pat, 0);
      assert r.Some?;
      assert !(r.value < p);
    }
  }

  /** `s.lastIndexOf(c)` for a one-character pattern, with None for -1. */
  function LastIndexOf(s: string, c: char): (r: Option<nat>)
    ensures r.Some? ==> r.value < |s| && s[r.value] == c
    ensures r.Some? ==> forall j :: r.value < j < |s| ==> s[j] != c
    ensures r.None? ==> forall j :: 0 <= j < |s| ==> s[j] != c
  {
    if |s| == 0 then None
    else if s[|s| - 1] == c then Some(|s| - 1)
    else LastIndexOf(s[..|s| - 1], c)
  }

  /**
   * `s.replace(pat, rep)` with a string pattern: only the first occurrence is
   * replaced, and a string without `pat` comes back unchanged. `rep` is
   * inserted literally, which is what JavaScript does when `rep` holds no '$'.
   */
  function ReplaceFirst(s: string, pat: string, rep: string): (r: string)
    ensures !Contains(s, pat) ==> r == s
    ensures Contains(s, pat) ==> |r| == |s| - |pat| + |rep|
    ensures forall p: nat :: FirstOccurrence(s, pat, p) ==> r == s[..p] + rep + s[p + |pat|..]
  {
    IndexOfDecidesContains(s, pat);
    IndexOfIsFirst(s, pat);
    match IndexOf(s, pat, 0)
    case None => s
    case Some(p) => s[..p] + rep + s[p + |pat|..]
  }

  /**
   * When nothing before `pat` can start an occurrence of it, `replace` swaps
   * exactly that `pat` and keeps both sides.
   */
  lemma ReplaceAfterPrefix(pre: string, pat: string, rep: string, rest: string)
    requires |pat| > 0
    requires forall i :: 0 <= i < |pre| ==> pre[i] != pat[0]
    ensures ReplaceFirst(pre + pat + rest, pat, rep) == pre + rep + rest
  {
    var s := pre + pat + rest;
    assert OccursAt(s, pat, |pre|) by {
      assert s[|pre|..|pre| + |pat|] == pat;
    }
    forall j: nat | j < |pre|
      ensures !OccursAt(s, pat, j)
    {
      assert s[j] == pre[j];
    }
    var r := IndexOf(s, pat, 0);
    assert r == Some(|pre|);
    assert s[..|pre|] == pre;
    assert s[|pre| + |pat|..] == rest;
  }

  // ---------------------------------------------------------------------------
  // Case mapping (ASCII letters)

  predicate IsUpper(c: char) { 'A' <= c <= 'Z' }

  predicate IsLower(c: char) { 'a' <= c <= 'z' }

  /** The distance from a capital letter to its lower-case letter. */
  const CaseShift: int := 'a' as int - 'A' as int

  function LowerChar(c: char): (r: char)
    ensures !IsUpper(r)
    ensures !IsUpper(c) ==> r == c
    ensures IsUpper(c) ==> IsLower(r) && r as int == c as int + CaseShift
  {
    if IsUpper(c) then (c as int + 32) as char else c
  }

  function UpperChar(c: char): (r: char)
    ensures !IsLower(r)
    ensures !IsLower(c) ==> r == c
    ensures IsLower(c) ==> IsUpper(r) && r as int == c as int - CaseShift
  {
    if IsLower(c) then (c as int - 32) as char else c
  }

  /**
   * `s.toLowerCase()`: same length, each capital replaced by its lower-case
   * letter, every other character kept.
   */
  function ToLower(s: string): (r: string)
    ensures |r| == |s|
    ensures forall i :: 0 <= i < |r| ==> !IsUpper(r[i])
    ensures forall i :: 0 <= i < |r| && !IsUpper(s[i]) ==> r[i] == s[i]
    ensures forall i :: 0 <= i < |s| && IsUpper(s[i]) ==> IsLower(r[i]) && r[i] as int == s[i] as int + CaseShift
  {
    if |s| == 0 then [] else [LowerChar(s[0])] + ToLower(s[1..])
  }

  /**
   * `s.toUpperCase()`: same length, each lower-case letter replaced by its
   * capital, every other character kept.
   */
  function ToUpper(s: string): (r: string)
    ensures |r| == |s|
    ensures forall i :: 0 <= i < |r| ==> !IsLower(r[i])
    ensures forall i :: 0 <= i < |r| && !IsLower(s[i]) ==> r[i] == s[i]
    ensures forall i :: 0 <= i < |s| && IsLower(s[i]) ==> IsUpper(r[i]) && r[i] as int == s[i] as int - CaseShift
  {
    if |s| == 0 then [] else [UpperChar(s[0])] + ToUpper(s[1..])
  }

  /**
   * Lower-casing loses nothing `toUpperCase` can see: upper-casing the
   * lower-cased text gives the same as upper-casing the original.
   */
  lemma {:induction false} UpperOfLower(s: string)
    ensures ToUpper(ToLower(s)) == ToUpper(s)
  {
    if |s| > 0 {
      UpperOfLower(s[1..]);
      assert ToLower(s)[1..] == ToLower(s[1..]);
      assert ToUpper(ToLower(s)) == [UpperChar(LowerChar(s[0]))] + ToUpper(ToLower(s[1..]));
    }
  }

  /** The dual: lower-casing the upper-cased text gives the same as lower-casing the original. */
  lemma {:induction false} LowerOfUpper(s: string)
    ensures ToLower(ToUpper(s)) == ToLower(s)
  {
    if |s| > 0 {
      LowerOfUpper(s[1..]);
      assert ToUpper(s)[1..] == ToUpper(s[1..]);
      assert ToLower(ToUpper(s)) == [LowerChar(UpperChar(s[0]))] + ToLower(ToUpper(s[1..]));
    }
  }

  /** `toLowerCase` maps each character on its own: any text built that way is the lower case. */
  lemma ToLowerIs(s: string, t: string)
    requires |s| == |t| && forall i :: 0 <= i < |s| ==> t[i] == LowerChar(s[i])
    ensures ToLower(s) == t
  {
    var r := ToLower(s);
    forall i | 0 <= i < |s|
      ensures r[i] == t[i]
    {
      if IsUpper(s[i]) {
      }
    }
  }

  /** `toUpperCase` maps each character on its own: any text built that way is the upper case. */
  lemma ToUpperIs(s: string, t: string)
    requires |s| == |t| && forall i :: 0 <= i < |s| ==> t[i] == UpperChar(s[i])
    ensures ToUpper(s) == t
  {
    var r := ToUpper(s);
    forall i | 0 <= i < |s|
      ensures r[i] == t[i]
    {
      if IsLower(s[i]) {
      }
    }
  }

  /** Case mapping works character by character, so it distributes over concatenation. */
  lemma {:induction false} ToLowerConcat(a: string, b: string)
    ensures ToLower(a + b) == ToLower(a) + ToLower(b)
  {
    if |a| == 0 {
      assert a + b == b;
    } else {
      assert (a + b)[0] == a[0] && (a + b)[1..] == a[1..] + b;
      ToLowerConcat(a[1..], b);
      assert ToLower(a + b) == [LowerChar(a[0])] + (ToLower(a[1..]) + ToLower(b));
    }
  }

  lemma {:induction false} ToUpperConcat(a: string, b: string)
    ensures ToUpper(a + b) == ToUpper(a) + ToUpper(b)
  {
    if |a| == 0 {
      assert a + b == b;
    } else {
      assert (a + b)[0] == a[0] && (a + b)[1..] == a[1..] + b;
      ToUpperConcat(a[1..], b);
      assert ToUpper(a + b) == [UpperChar(a[0])] + (ToUpper(a[1..]) + ToUpper(b));
    }
  }

    // ---------------------------------------------------------------------------
  // Numbers as text

  predicate IsDigit(c: char) { '0' <= c <= '9' }

  predicate AllDigits(s: string) {
    forall i :: 0 <= i < |s| ==> IsDigit(s[i])
  }

  function DigitChar(d: nat): (c: char)
    requires d < 10
    ensures IsDigit(c)
  {
    ('0' as int + d) as char
  }

  function DigitValue(c: char): (d: nat)
    requires IsDigit(c)
    ensures d < 10 && DigitChar(d) == c
  {
    c as int - '0' as int
  }

  /** The number a string of decimal digits denotes. */
  function DigitsValue(s: string): (r: nat)
    requires AllDigits(s)
  {
    if |s| == 0 then 0 else DigitsValue(s[..|s| - 1]) * 10 + DigitValue(s[|s| - 1])
  }

  /**
   * The decimal text of a non-negative integer, as `${n}` produces it: only
   * digits, and no leading zero unless the number is zero.
   */
  function NatToString(n: nat): (r: string)
    ensures |r| > 0 && AllDigits(r)
    ensures |r| > 1 ==> r[0] != '0'
  {
    if n < 10 then [DigitChar(n)] else NatToString(n / 10) + [DigitChar(n % 10)]
  }

  /** Reading back the decimal text of `n` gives `n`. */
  lemma {:induction false} DecimalRoundTrip(n: nat)
    ensures DigitsValue(NatToString(n)) == n
  {
    if n >= 10 {
      var s := NatToString(n);
      assert s[..|s| - 1] == NatToString(n / 10);
      DecimalRoundTrip(n / 10);
    }
  }

  /** `${i}` for an integer. */
  function IntToString(i: int): (r: string)
    ensures i >= 0 ==> r == NatToString(i)
    ensures i < 0 ==> r == "-" + NatToString(-i)
  {
    if i < 0 then "-" + NatToString(-i) else NatToString(i)
  }

  /** `${x}` for a JavaScript number that is an integer or NaN. */
  function NumberToString(x: JsNumber): (r: string) {
    match x
    case Finite(i) => IntToString(i)
    case NaN => "NaN"
  }

  // ---------------------------------------------------------------------------
  // parseInt

  /** The white-space characters `parseInt` skips before the number. */
  predicate IsJsSpace(c: char) {
    c == ' ' || c == '\t' || c == '\n' || c == '\r' || c == '\U{B}' || c == '\U{C}'
    || c == '\U{A0}' || c == '\U{FEFF}' || c == '\U{2028}' || c == '\U{2029}'
  }

  /** `s` without its leading white space. */
  function TrimStart(s: string): (r: string)
    ensures |r| <= |s| && r == s[|s| - |r|..]
    ensures forall i :: 0 <= i < |s| - |r| ==> IsJsSpace(s[i])
    ensures |r| > 0 ==> !IsJsSpace(r[0])
    ensures |s| > 0 && !IsJsSpace(s[0]) ==> r == s
  {
    if |s| > 0 && IsJsSpace(s[0]) then
      var r := TrimStart(s[1..]);
      assert forall i :: 1 <= i < |s| - |r| ==> s[i] == s[1..][i - 1];
      r
    else s
  }

  /** The longest prefix of `s` made only of decimal digits. */
  function LeadingDigits(s: string): (r: string)
    ensures AllDigits(r) && r <= s
    ensures |r| < |s| ==> !IsDigit(s[|r|])
  {
    if |s| > 0 && IsDigit(s[0]) then [s[0]] + LeadingDigits(s[1..]) else []
  }

  predicate IsHexDigit(c: char) {
    IsDigit(c) || 'a' <= c <= 'f' || 'A' <= c <= 'F'
  }

  function HexDigitValue(c: char): (d: nat)
    requires IsHexDigit(c)
    ensures d < 16
  {
    if IsDigit(c) then DigitValue(c)
    else if 'a' <= c <= 'f' then c as int - 'a' as int + 10
    else c as int - 'A' as int + 10
  }

  /** The longest prefix of `s` made only of hexadecimal digits. */
  function LeadingHexDigits(s: string): (r: string)
    ensures r <= s
    ensures forall i :: 0 <= i < |r| ==> IsHexDigit(r[i])
  {
    if |s| > 0 && IsHexDigit(s[0]) then [s[0]] + LeadingHexDigits(s[1..]) else []
  }

  function HexValue(s: string): (r: nat)
    requires forall i :: 0 <= i < |s| ==> IsHexDigit(s[i])
  {
    if |s| == 0 then 0 else HexValue(s[..|s| - 1]) * 16 + HexDigitValue(s[|s| - 1])
  }

  /** Applies the sign `parseInt` read to the magnitude it read. */
  function Signed(negative: bool, magnitude: nat): (r: JsNumber) {
    if negative then Finite(-(magnitude as int)) else Finite(magnitude)
  }

  /** The sign `parseInt` reads after the white space, and the text after it. */
  function SplitSign(t: string): (r: (bool, string))
    ensures |t| - 1 <= |r.1| <= |t| && r.1 == t[|t| - |r.1|..]
    ensures r.0 ==> |t| > 0 && t[0] == '-'
  {
    if |t| > 0 && t[0] == '-' then (true, t[1..])
    else if |t| > 0 && t[0] == '+' then (false, t[1..])
    else (false, t)
  }

  /** The decimal part of `parseInt`: the digit prefix, or NaN if there is none. */
  function DecimalBody(negative: bool, body: string): (r: JsNumber)
    ensures r.NaN? <==> |body| == 0 || !IsDigit(body[0])
  {
    var digits := LeadingDigits(body);
    if |digits| == 0 then NaN else Signed(negative, DigitsValue(digits))
  }

  /**
   * `s` is white space `ws`, then an optional sign, then `body`, split the
   * way `parseInt` reads it: all of the leading white space, then a sign only
   * if one is there.
   */
  predicate SplitsAs(s: string, ws: string, sign: string, body: string) {
    && s == ws + sign + body
    && (forall i :: 0 <= i < |ws| ==> IsJsSpace(ws[i]))
    && (sign == "" || sign == "+" || sign == "-")
    && (|sign + body| > 0 ==> !IsJsSpace((sign + body)[0]))
    && (sign == "" && |body| > 0 ==> body[0] != '+' && body[0] != '-')
  }

  /** The decimal reading of a body: NaN without a leading digit, else the signed digit prefix. */
  function DecimalReading(sign: string, body: string): (r: JsNumber)
    ensures r.NaN? <==> |body| == 0 || !IsDigit(body[0])
    ensures r.Finite? ==> r == Signed(sign == "-", DigitsValue(LeadingDigits(body)))
  {
    DecimalBody(sign == "-", body)
  }

  /** `parseInt(s, 10)`. */
  function ParseIntDecimal(s: string): (r: JsNumber)
    ensures |s| == 0 ==> r == NaN
    ensures AllDigits(s) && |s| > 0 ==> r == Finite(DigitsValue(s))
    ensures forall ws, sign, body :: SplitsAs(s, ws, sign, body) ==> r == DecimalReading(sign, body)
  {
    SplitIsWhatParseIntReads(s);
    var (negative, body) := SplitSign(TrimStart(s));
    AllDigitsAreLeading(s);
    DigitsAreTheWholeBody(s);
    DecimalBody(negative, body)
  }

  /**
   * `parseInt(s)` with no radix: a `0x` or `0X` after the sign switches to
   * hexadecimal, otherwise the text is read as decimal.
   */
  function ParseIntAuto(s: string): (r: JsNumber)
    ensures |s| == 0 ==> r == NaN
    ensures AllDigits(s) && |s| > 0 ==> r == Finite(DigitsValue(s))
    ensures forall ws, sign, body :: SplitsAs(s, ws, sign, body) && !HasHexPrefix(body) ==>
      r == DecimalReading(sign, body)
    ensures forall ws, sign, body :: SplitsAs(s, ws, sign, body) && HasHexPrefix(body) ==>
      r == HexReading(sign, body[2..])
  {
    SplitIsWhatParseIntReads(s);
    var (negative, body) := SplitSign(TrimStart(s));
    AllDigitsAreLeading(s);
    DigitsAreTheWholeBody(s);
    if HasHexPrefix(body) then HexBody(negative, body[2..]) else DecimalBody(negative, body)
  }

  predicate HasHexPrefix(body: string) {
    |body| >= 2 && body[0] == '0' && (body[1] == 'x' || body[1] == 'X')
  }

  /** The hexadecimal part of `parseInt`: the hex-digit prefix, or NaN if there is none. */
  function HexBody(negative: bool, rest: string): (r: JsNumber)
    ensures r.NaN? <==> |rest| == 0 || !IsHexDigit(rest[0])
  {
    var hex := LeadingHexDigits(rest);
    if |hex| == 0 then NaN else Signed(negative, HexValue(hex))
  }

  /** The hexadecimal reading after `0x`: NaN without a hex digit, else the signed hex-digit prefix. */
  function HexReading(sign: string, rest: string): (r: JsNumber)
    ensures r.NaN? <==> |rest| == 0 || !IsHexDigit(rest[0])
    ensures r.Finite? ==> r == Signed(sign == "-", HexValue(LeadingHexDigits(rest)))
  {
    HexBody(sign == "-", rest)
  }

  /** Skipping white space in front of a text that starts with none leaves that text. */
  lemma {:induction false} TrimStartSkips(ws: string, t: string)
    requires forall i :: 0 <= i < |ws| ==> IsJsSpace(ws[i])
    requires |t| > 0 ==> !IsJsSpace(t[0])
    ensures TrimStart(ws + t) == t
  {
    if |ws| == 0 {
      assert ws + t == t;
      if |t| == 0 {
        assert TrimStart(t) == t;
      }
    } else {
      assert (ws + t)[0] == ws[0] && (ws + t)[1..] == ws[1..] + t;
      TrimStartSkips(ws[1..], t);
    }
  }

  /** Every split of `s` is the one `parseInt` makes: its sign and body are what it reads. */
  lemma SplitIsWhatParseIntReads(s: string)
    ensures forall ws, sign, body :: SplitsAs(s, ws, sign, body) ==>
      SplitSign(TrimStart(s)) == (sign == "-", body)
  {
    forall ws, sign, body | SplitsAs(s, ws, sign, body)
      ensures SplitSign(TrimStart(s)) == (sign == "-", body)
    {
      assert s == ws + (sign + body);
      TrimStartSkips(ws, sign + body);
      if sign != "" {
        assert (sign + body)[0] == sign[0] && (sign + body)[1..] == body;
      } else {
        assert sign + body == body;
      }
    }
  }

  /** Every text splits into white space, a sign and a body. */
  lemma SplitExists(s: string)
    ensures exists ws, sign, body :: SplitsAs(s, ws, sign, body)
  {
    var ws, t := LeadingSpace(s);
    var sign, body := LeadingSign(t);
    assert s == ws + sign + body;
    assert SplitsAs(s, ws, sign, body);
  }

  /** The white space `parseInt` skips and the text after it. */
  lemma LeadingSpace(s: string) returns (ws: string, t: string)
    ensures s == ws + t
    ensures forall i :: 0 <= i < |ws| ==> IsJsSpace(ws[i])
    ensures |t| > 0 ==> !IsJsSpace(t[0])
  {
    t := TrimStart(s);
    ws := s[..|s| - |t|];
  }

  /** The optional sign at the start of `t` and the text after it. */
  lemma LeadingSign(t: string) returns (sign: string, body: string)
    ensures t == sign + body
    ensures sign == "" || sign == "+" || sign == "-"
    ensures sign == "" && |body| > 0 ==> body[0] != '+' && body[0] != '-'
    ensures |sign| > 0 ==> sign[0] == t[0]
  {
    if |t| > 0 && (t[0] == '-' || t[0] == '+') {
      sign, body := [t[0]], t[1..];
    } else {
      sign, body := "", t;
    }
  }

  /** Unlike `parseInt(s, 10)`, the parse with no radix reads `0x1A` as hexadecimal 26. */
  lemma HexPrefixSwitchesRadix()
    ensures ParseIntAuto("0x1A") == Finite(26)
    ensures ParseIntDecimal("0x1A") == Finite(0)
  {
    assert SplitsAs("0x1A", "", "", "0x1A");
    assert HasHexPrefix("0x1A") && "0x1A"[2..] == "1A";
    assert LeadingHexDigits("1A") == "1A";
    assert HexValue("1A") == 26 by {
      assert "1A"[..1] == "1";
    }
    assert LeadingDigits("0x1A") == "0";
  }

  /** A digit string has no white space or sign for `parseInt` to skip. */
  lemma DigitsAreTheWholeBody(s: string)
    ensures AllDigits(s) && |s| > 0 ==> SplitSign(TrimStart(s)) == (false, s)
  {
    if AllDigits(s) && |s| > 0 {
      assert IsDigit(s[0]);
    }
  }

  lemma {:induction false} AllDigitsAreLeading(s: string)
    ensures AllDigits(s) ==> LeadingDigits(s) == s
  {
    if |s| > 0 && AllDigits(s) {
      AllDigitsAreLeading(s[1..]);
    }
  }

  /** `parseInt` reads back the text `${n}` of a non-negative integer, with or without radix 10. */
  lemma ParseIntOfDecimal(n: nat)
    ensures ParseIntDecimal(NatToString(n)) == Finite(n)
    ensures ParseIntAuto(NatToString(n)) == Finite(n)
  {
    DecimalRoundTrip(n);
  }

  /** `parseInt(s, 10)` stops at the first character after the digits. */
  lemma ParseIntStopsAtNonDigit(digits: string, rest: string)
    requires |digits| > 0 && AllDigits(digits)
    requires |rest| > 0 ==> !IsDigit(rest[0])
    ensures ParseIntDecimal(digits + rest) == Finite(DigitsValue(digits))
  {
    var s := digits + rest;
    assert s[0] == digits[0];
    ParseIntOfLeadingDigit(s);
    LeadingDigitsOfConcat(digits, rest);
  }

  /** Text starting with a digit has no white space or sign, so `parseInt(s, 10)` reads its digit prefix. */
  lemma ParseIntOfLeadingDigit(s: string)
    requires |s| > 0 && IsDigit(s[0])
    ensures ParseIntDecimal(s) == Finite(DigitsValue(LeadingDigits(s)))
  {
    assert !IsJsSpace(s[0]);
    assert TrimStart(s) == s;
    assert SplitSign(s) == (false, s);
    assert ParseIntDecimal(s) == DecimalBody(false, s);
  }

  lemma {:induction false} LeadingDigitsOfConcat(digits: string, rest: string)
    requires AllDigits(digits)
    requires |rest| > 0 ==> !IsDigit(rest[0])
    ensures LeadingDigits(digits + rest) == digits
  {
    if |digits| > 0 {
      assert (digits + rest)[1..] == digits[1..] + rest;
      LeadingDigitsOfConcat(digits[1..], rest);
    }
  }
}
