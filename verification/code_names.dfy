/**
 * The "name - code" labels the side menu offers for drainage areas and
 * counties, and how the map views read the code back out of a chosen label.
 */
module CodeNames {
  import opened Wrappers
  import opened Strings

  const Separator: string := " - "

  /** One record of the geometry service's list of drainage areas or counties. */
  datatype Place = Place(code: nat, name: string)

  /**
   * The menu label `${name} - ${code}`: the name, the separator, then the
   * code's decimal digits.
   */
  function Format(name: string, code: nat): (r: string)
    ensures |r| > |name| + |Separator| && r[..|name|] == name && OccursAt(r, Separator, |name|)
    ensures AllDigits(r[|name| + |Separator|..]) && DigitsValue(r[|name| + |Separator|..]) == code
  {
    DecimalRoundTrip(code);
    var r := name + Separator + NatToString(code);
    assert r[|name| + |Separator|..] == NatToString(code);
    r
  }

  /** An occurrence inside a slice is an occurrence in the whole string. */
  lemma OccursInSlice(s: string, pat: string, a: nat, b: nat, k: nat)
    requires a <= b <= |s|
    requires OccursAt(s[a..b], pat, k)
    ensures OccursAt(s, pat, a + k)
  {
    var t := s[a..b];
    forall i | k <= i < k + |pat|
      ensures t[i] == s[a + i]
    {
    }
    assert t[k..k + |pat|] == s[a + k..a + k + |pat|];
  }

  /**
   * `seg` is the text of `s` from `start` up to the first separator at or
   * after `start`, or up to the end of `s` when none follows.
   */
  predicate RunsToNextSeparator(s: string, start: nat, seg: string) {
    && start + |seg| <= |s|
    && s[start..start + |seg|] == seg
    && (start + |seg| == |s| || OccursAt(s, Separator, start + |seg|))
    && forall j: nat :: start <= j < start + |seg| ==> !OccursAt(s, Separator, j)
  }

  /**
   * `s.split(' - ')[1]`: the text between the first separator and the next
   * one (or the end), and None (`undefined`) when `s` has no separator.
   */
  function SecondSegment(s: string): (r: Option<string>)
    ensures r.None? <==> !Contains(s, Separator)
    ensures r.Some? ==> !Contains(r.value, Separator)
    ensures r.Some? ==> exists p: nat :: FirstOccurrence(s, Separator, p) && r.value <= s[p + |Separator|..]
    ensures forall p: nat :: FirstOccurrence(s, Separator, p) ==>
      r.Some? && RunsToNextSeparator(s, p + |Separator|, r.value)
  {
    IndexOfDecidesContains(s, Separator);
    IndexOfIsFirst(s, Separator);
    match IndexOf(s, Separator, 0)
    case None => None
    case Some(p) =>
      var seg := SegmentFrom(s, p + |Separator|);
      assert FirstOccurrence(s, Separator, p);
      Some(seg)
  }

  /** The text of `s` from `start` up to the next separator, or to the end. */
  function SegmentFrom(s: string, start: nat): (seg: string)
    requires start <= |s|
    ensures RunsToNextSeparator(s, start, seg)
    ensures !Contains(seg, Separator)
  {
    var seg := match IndexOf(s, Separator, start)
      case None => s[start..]
      case Some(q) => s[start..q];
    assert seg == s[start..start + |seg|];
    SegmentHasNoSeparator(s, start, |seg|);
    seg
  }

  /** The text from `start` up to the next separator holds no separator. */
  lemma SegmentHasNoSeparator(s: string, start: nat, len: nat)
    requires start + len <= |s|
    requires IndexOf(s, Separator, start).None? ==> start + len == |s|
    requires IndexOf(s, Separator, start).Some? ==> start + len == IndexOf(s, Separator, start).value
    ensures !Contains(s[start..start + len], Separator)
  {
    var seg := s[start..start + len];
    forall k: nat | k <= |seg| && OccursAt(seg, Separator, k)
      ensures false
    {
      OccursInSlice(s, Separator, start, start + len, k);
    }
  }

  /** The Drainage view's code: `parseInt(label.split(' - ')[1], 10)`. */
  function CodeOfDecimal(text: string): (r: JsNumber)
    ensures !Contains(text, Separator) ==> r == NaN
  {
    match SecondSegment(text)
    case None => NaN
    case Some(seg) => ParseIntDecimal(seg)
  }

  /** The County view's code: `parseInt(label.split(' - ')[1])`, with no radix. */
  function CodeOfAuto(text: string): (r: JsNumber)
    ensures !Contains(text, Separator) ==> r == NaN
  {
    match SecondSegment(text)
    case None => NaN
    case Some(seg) => ParseIntAuto(seg)
  }

  /**
   * A name is safe when the label built from it has its first separator right
   * after the name: the name holds no " - " and does not end in " -".
   */
  predicate SafeName(name: string) {
    !Contains(name + " ", Separator)
  }

  /** A name without any '-' is safe. */
  lemma NoDashIsSafe(name: string)
    requires forall i :: 0 <= i < |name| ==> name[i] != '-'
    ensures SafeName(name)
  {
    var t := name + " ";
    forall i: nat | i <= |t|
      ensures !OccursAt(t, Separator, i)
    {
      if i + 3 <= |t| {
        assert t[i + 1] == name[i + 1] && t[i..i + 3][1] == t[i + 1];
      }
    }
  }

  /**
   * Formatting then parsing gives the code back, for both parsers, whenever
   * the name is safe.
   */
  lemma {:induction false} FormatThenParse(name: string, code: nat)
    requires SafeName(name)
    ensures SecondSegment(Format(name, code)) == Some(NatToString(code))
    ensures CodeOfDecimal(Format(name, code)) == Finite(code)
    ensures CodeOfAuto(Format(name, code)) == Finite(code)
  {
    var s := Format(name, code);
    var n := |name|;
    FirstSeparatorFollowsName(name, code);
    NoSeparatorAmongDigits(name, code);
    assert s[n + 3..] == NatToString(code);
    ParseIntOfDecimal(code);
  }

  /** In a label built from a safe name, the first separator is the one `Format` put in. */
  lemma FirstSeparatorFollowsName(name: string, code: nat)
    requires SafeName(name)
    ensures IndexOf(Format(name, code), Separator, 0) == Some(|name|)
  {
    var digits := NatToString(code);
    var s := Format(name, code);
    var n := |name|;
    assert s[..n + 1] == name + " ";
    assert OccursAt(s, Separator, n) by { assert s[n..n + 3] == Separator; }
    forall j: nat | j < n
      ensures !OccursAt(s, Separator, j)
    {
      if j + 3 <= n + 1 {
        assert s[j..j + 3] == (name + " ")[j..j + 3];
        assert !OccursAt(name + " ", Separator, j);
      } else {
        assert s[j + 1] == ' ' && Separator[1] == '-';
        assert s[j..j + 3][1] == s[j + 1];
      }
    }
  }

  /** After the separator `Format` put in, a label holds only digits, so no further separator. */
  lemma NoSeparatorAmongDigits(name: string, code: nat)
    ensures IndexOf(Format(name, code), Separator, |name| + 3).None?
  {
    var s := Format(name, code);
    assert s[|name| + 3..] == NatToString(code);
    NoSeparatorInDigitTail(s, |name| + 3);
  }

  lemma NoSeparatorInDigitTail(s: string, from: nat)
    requires from <= |s| && AllDigits(s[from..])
    ensures IndexOf(s, Separator, from).None?
  {
    forall j: nat | from <= j
      ensures !OccursAt(s, Separator, j)
    {
      if j + 3 <= |s| {
        assert s[from..][j - from] == s[j];
        assert s[j..j + 3][0] == s[j];
      }
    }
  }

  /**
   * A name that itself contains the separator loses the code: the label
   * "A - B - 7" yields the segment "B", which does not parse.
   */
  lemma NameWithSeparatorLosesCode()
    ensures !SafeName("A - B")
    ensures Format("A - B", 7) == "A - B - 7"
    ensures SecondSegment("A - B - 7") == Some("B")
    ensures CodeOfDecimal("A - B - 7") == NaN
  {
    var s := "A - B - 7";
    assert ("A - B" + " ")[1..4] == Separator;
    assert OccursAt("A - B" + " ", Separator, 1);
    assert s[1..4] == Separator;
    assert s[0] == 'A' && s[4] == 'B';
    assert !OccursAt(s, Separator, 0) by {
      assert s[0..3][0] == s[0];
    }
    assert IndexOf(s, Separator, 0) == Some(1);
    assert s[5..8] == Separator;
    assert OccursAt(s, Separator, 5);
    assert !OccursAt(s, Separator, 4) by {
      assert s[4..7][0] == s[4];
    }
    assert IndexOf(s, Separator, 4) == Some(5);
    assert s[4..5] == "B";
  }

  /** The menu's list of labels: `${name} - ${code}` built record by record. */
  function Labels(places: seq<Place>): (r: seq<string>)
    ensures |r| == |places|
    ensures forall i :: 0 <= i < |r| ==> r[i] == Format(places[i].name, places[i].code)
  {
    if |places| == 0 then [] else [Format(places[0].name, places[0].code)] + Labels(places[1..])
  }

  /** The `{code, name}` record a view keeps for the selected drainage area or county. */
  datatype Selected = Selected(code: JsNumber, name: string)

  /** Every label of the menu parses back to its own record's code. */
  lemma LabelsParseBack(places: seq<Place>, i: nat)
    requires i < |places| && SafeName(places[i].name)
    ensures CodeOfDecimal(Labels(places)[i]) == Finite(places[i].code)
    ensures CodeOfAuto(Labels(places)[i]) == Finite(places[i].code)
  {
    FormatThenParse(places[i].name, places[i].code);
  }
}
