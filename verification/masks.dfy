/** The form helpers of the home page: the three input masks (phone, SSN,
    date) and the text shown beside a file input.

    Each mask handler strips the input to its digits and rebuilds the field
    by conditional appends: a leading part (the first group of digits,
    after an optional opening text), then each further separator and group
    only once enough digits exist. The three handlers differ only in their
    texts and cut points, so they share one definition, `Layout`, applied
    to the three constant `MaskLayout`s. */
module Masks {
  import opened Wrappers
  import opened Text

  /** `lead` + digits [0, cut1) + `sep1` + digits [cut1, cut2) + `sep2` +
      digits [cut2, cut3). */
  datatype MaskLayout = MaskLayout(lead: string, sep1: string, sep2: string, cut1: nat, cut2: nat, cut3: nat)

  /** `(XXX) XXX-XXXX` */
  const Phone := MaskLayout("(", ") ", "-", 3, 6, 10)
  /** `XXX-XX-XXXX` */
  const Ssn := MaskLayout("", "-", "-", 3, 5, 9)
  /** `MM/DD/YYYY` */
  const Date := MaskLayout("", "/", "/", 2, 4, 8)

  /** The cut points increase and the fixed texts hold no digits. */
  predicate ProperLayout(m: MaskLayout) {
    && 0 < m.cut1 < m.cut2 < m.cut3
    && NoDigits(m.lead) && NoDigits(m.sep1) && NoDigits(m.sep2)
  }

  lemma LayoutsAreProper()
    ensures ProperLayout(Phone) && ProperLayout(Ssn) && ProperLayout(Date)
  {
  }

  /** `s.substring(start, end)` for `0 <= start <= end`: both ends are
      clamped to the length of `s`. */
  function Substring(s: string, start: nat, end: nat): (r: string)
    requires start <= end
    ensures |r| <= end - start
  {
    var a := if start < |s| then start else |s|;
    var b := if end < |s| then end else |s|;
    s[a..b]
  }

  /** The handler's body on the digit string `value`. */
  function Layout(m: MaskLayout, value: string): (r: string)
    requires m.cut1 <= m.cut2 <= m.cut3
    ensures value == "" ==> r == ""
    ensures value != "" ==> |m.lead| <= |r| && r[..|m.lead|] == m.lead
    ensures |r| <= |m.lead| + |m.sep1| + |m.sep2| + m.cut3
  {
    var f0 := if |value| > 0 then m.lead + Substring(value, 0, m.cut1) else "";
    var f1 := if |value| >= m.cut1 + 1 then f0 + m.sep1 + Substring(value, m.cut1, m.cut2) else f0;
    if |value| >= m.cut2 + 1 then f1 + m.sep2 + Substring(value, m.cut2, m.cut3) else f1
  }

  /** The new value of a masked input after an `input` event. */
  function ApplyMask(m: MaskLayout, input: string): (r: string)
    requires m.cut1 <= m.cut2 <= m.cut3
    ensures NoDigits(input) ==> r == ""
    ensures |r| <= |m.lead| + |m.sep1| + |m.sep2| + m.cut3
  {
    DigitsEmptyIff(input);
    Layout(m, Digits(input))
  }

  /** The shape a mask is meant to produce from a digit string `d`, case by
      case on how many of its digits are kept. */
  function Shaped(m: MaskLayout, d: string): string
    requires ProperLayout(m)
  {
    var k := Take(d, m.cut3);
    if |k| == 0 then ""
    else if |k| <= m.cut1 then m.lead + k
    else if |k| <= m.cut2 then m.lead + k[..m.cut1] + m.sep1 + k[m.cut1..]
    else m.lead + k[..m.cut1] + m.sep1 + k[m.cut1..m.cut2] + m.sep2 + k[m.cut2..]
  }

  /** A slice of the kept prefix is the same slice of the whole string. */
  lemma TakeSlice(v: string, n: nat, a: nat, b: nat)
    requires a <= b <= |Take(v, n)|
    ensures Take(v, n)[a..b] == v[a..b]
  {
  }

  /** The conditional appends build exactly the intended shape from the
      first `cut3` digits of the input. */
  lemma MaskIsShaped(m: MaskLayout, input: string)
    requires ProperLayout(m)
    ensures ApplyMask(m, input) == Shaped(m, Digits(input))
  {
    var v := Digits(input);
    var k := Take(v, m.cut3);
    if |v| == 0 {
    } else if |v| <= m.cut1 {
      assert Substring(v, 0, m.cut1) == k;
    } else if |v| <= m.cut2 {
      TakeSlice(v, m.cut3, 0, m.cut1);
      TakeSlice(v, m.cut3, m.cut1, |k|);
    } else {
      TakeSlice(v, m.cut3, 0, m.cut1);
      TakeSlice(v, m.cut3, m.cut1, m.cut2);
      TakeSlice(v, m.cut3, m.cut2, |k|);
    }
  }

  /** The masked text is empty exactly when the input holds no digit. */
  lemma MaskEmptyIff(m: MaskLayout, input: string)
    requires ProperLayout(m)
    ensures ApplyMask(m, input) == "" <==> NoDigits(input)
  {
    MaskIsShaped(m, input);
    DigitsEmptyIff(input);
  }

  lemma DigitsOfOneGroup(m: MaskLayout, a: string)
    requires ProperLayout(m) && AllDigits(a)
    ensures Digits(m.lead + a) == a
  {
    DigitsOfNoDigits(m.lead);
    DigitsOfDigitString(a);
    DigitsAppend(m.lead, a);
  }

  lemma DigitsOfTwoGroups(m: MaskLayout, a: string, b: string)
    requires ProperLayout(m) && AllDigits(a) && AllDigits(b)
    ensures Digits(m.lead + a + m.sep1 + b) == a + b
  {
    var first := m.lead + a;
    var upToSecond := first + m.sep1;
    DigitsOfOneGroup(m, a);
    DigitsOfNoDigits(m.sep1);
    DigitsAppend(first, m.sep1);
    assert Digits(upToSecond) == a;
    DigitsOfDigitString(b);
    DigitsAppend(upToSecond, b);
  }

  lemma DigitsOfThreeGroups(m: MaskLayout, a: string, b: string, c: string)
    requires ProperLayout(m) && AllDigits(a) && AllDigits(b) && AllDigits(c)
    ensures Digits(m.lead + a + m.sep1 + b + m.sep2 + c) == a + b + c
  {
    var two := m.lead + a + m.sep1 + b;
    var upToThird := two + m.sep2;
    DigitsOfTwoGroups(m, a, b);
    DigitsOfNoDigits(m.sep2);
    DigitsAppend(two, m.sep2);
    assert Digits(upToThird) == a + b;
    DigitsOfDigitString(c);
    DigitsAppend(upToThird, c);
  }

  /** Removing the separators from the masked text gives back the first
      `cut3` digits of the input, in order. */
  lemma MaskKeepsDigitPrefix(m: MaskLayout, input: string)
    requires ProperLayout(m)
    ensures Digits(ApplyMask(m, input)) == Take(Digits(input), m.cut3)
  {
    MaskIsShaped(m, input);
    DigitsOfShape(m, Digits(input));
  }

  /** The separators of a shape hold no digits, so its digits are the kept
      ones. */
  lemma DigitsOfShape(m: MaskLayout, d: string)
    requires ProperLayout(m) && AllDigits(d)
    ensures Digits(Shaped(m, d)) == Take(d, m.cut3)
  {
    var k := Take(d, m.cut3);
    assert AllDigits(k);
    if |k| == 0 {
    } else if |k| <= m.cut1 {
      DigitsOfOneGroup(m, k);
    } else if |k| <= m.cut2 {
      DigitsOfTwoGroups(m, k[..m.cut1], k[m.cut1..]);
      assert k[..m.cut1] + k[m.cut1..] == k;
    } else {
      DigitsOfThreeGroups(m, k[..m.cut1], k[m.cut1..m.cut2], k[m.cut2..]);
      assert k[..m.cut1] + k[m.cut1..m.cut2] + k[m.cut2..] == k;
    }
  }

  /** Applying a mask to its own output changes nothing. */
  lemma MaskIdempotent(m: MaskLayout, input: string)
    requires ProperLayout(m)
    ensures ApplyMask(m, ApplyMask(m, input)) == ApplyMask(m, input)
  {
    var once := ApplyMask(m, input);
    MaskKeepsDigitPrefix(m, input);
    MaskIsShaped(m, input);
    MaskIsShaped(m, once);
    var k := Take(Digits(input), m.cut3);
    assert Take(k, m.cut3) == k;
  }

  /** The masked text never exceeds the fixed texts plus `cut3` digits. */
  lemma MaskLengthBound(m: MaskLayout, input: string)
    requires ProperLayout(m)
    ensures |ApplyMask(m, input)| <= |m.lead| + |m.sep1| + |m.sep2| + m.cut3
  {
    MaskIsShaped(m, input);
  }

  /** A phone number with ten or more digits reads `(ddd) ddd-dddd`. */
  lemma PhoneMaskFull(input: string)
    requires |Digits(input)| >= 10
    ensures var d := Digits(input);
            ApplyMask(Phone, input) == "(" + d[..3] + ") " + d[3..6] + "-" + d[6..10]
    ensures |ApplyMask(Phone, input)| == 14
  {
    MaskIsShaped(Phone, input);
  }

  /** An SSN with nine or more digits reads `ddd-dd-dddd`. */
  lemma SsnMaskFull(input: string)
    requires |Digits(input)| >= 9
    ensures var d := Digits(input);
            ApplyMask(Ssn, input) == d[..3] + "-" + d[3..5] + "-" + d[5..9]
    ensures |ApplyMask(Ssn, input)| == 11
  {
    MaskIsShaped(Ssn, input);
  }

  /** A date with eight or more digits reads `dd/dd/dddd`. */
  lemma DateMaskFull(input: string)
    requires |Digits(input)| >= 8
    ensures var d := Digits(input);
            ApplyMask(Date, input) == d[..2] + "/" + d[2..4] + "/" + d[4..8]
    ensures |ApplyMask(Date, input)| == 10
  {
    MaskIsShaped(Date, input);
  }

  // ---------------------------------------------------------------
  // File input label
  // ---------------------------------------------------------------

  /** The characters `.` in a regular expression does not match. */
  predicate IsLineTerminator(c: char) {
    c == '\n' || c == '\r' || c == '\U{2028}' || c == '\U{2029}'
  }

  /** `s.replace(/\\/g, '/')`. */
  function SlashesForBackslashes(s: string): (r: string)
    ensures |r| == |s|
    ensures forall i :: 0 <= i < |s| ==> r[i] == (if s[i] == '\\' then '/' else s[i])
  {
    if s == [] then [] else [if s[0] == '\\' then '/' else s[0]] + SlashesForBackslashes(s[1..])
  }

  /** The index of the first line terminator in `s`, or `|s|`. */
  function LineEnd(s: string): (k: nat)
    ensures k <= |s|
    ensures forall i :: 0 <= i < k ==> !IsLineTerminator(s[i])
    ensures k < |s| ==> IsLineTerminator(s[k])
  {
    if s == [] || IsLineTerminator(s[0]) then 0 else 1 + LineEnd(s[1..])
  }

  /** The index of the last `/` in `s`, or -1. */
  function LastSlash(s: string): (j: int)
    ensures -1 <= j < |s|
    ensures j >= 0 ==> s[j] == '/'
    ensures forall i :: j < i < |s| ==> s[i] != '/'
  {
    if s == [] then -1 else if s[|s| - 1] == '/' then |s| - 1 else LastSlash(s[..|s| - 1])
  }

  /** `s.replace(/.*\//, '')`: the first match of `.*\/` starts at the
      beginning of the first line that holds a `/` and ends at that line's
      last `/`; it is removed. Without any match, `s` is returned. */
  function StripThroughLastSlash(s: string): (r: string)
    ensures forall c :: c in r ==> c in s
    ensures |r| <= |s|
    decreases |s|
  {
    var k := LineEnd(s);
    var j := LastSlash(s[..k]);
    if j >= 0 then s[j + 1..]
    else if k == |s| then s
    else s[..k + 1] + StripThroughLastSlash(s[k + 1..])
  }

  /** Without any `/` there is nothing to remove. */
  lemma {:induction false} StripWithoutSlash(s: string)
    ensures '/' !in s ==> StripThroughLastSlash(s) == s
    decreases |s|
  {
    if '/' !in s {
      assert forall i :: 0 <= i < |s| ==> s[i] != '/';
      var k := LineEnd(s);
      assert LastSlash(s[..k]) == -1;
      if k < |s| {
        var t := s[k + 1..];
        assert forall i :: 0 <= i < |t| ==> t[i] == s[k + 1 + i];
        StripWithoutSlash(t);
        assert s[..k + 1] + t == s;
      }
    }
  }

  /** The file name shown for the value of a file input. */
  function FileLabel(value: string): (r: string)
    ensures |r| <= |value|
    ensures '\\' !in r
    ensures forall c :: c in r ==> c == '/' || c in value
    ensures '/' !in value && '\\' !in value ==> r == value
  {
    var n := SlashesForBackslashes(value);
    assert forall c :: c in n ==> c == '/' || (c in value && c != '\\');
    assert '/' !in value && '\\' !in value ==> n == value;
    StripWithoutSlash(n);
    StripThroughLastSlash(n)
  }

  /** For a one-line value (as a file input gives), the label is the text
      after the last `/` or `\`, or the whole value when it has neither. */
  lemma FileLabelIsBaseName(value: string)
    requires forall i :: 0 <= i < |value| ==> !IsLineTerminator(value[i])
    ensures var n := SlashesForBackslashes(value);
            var r := FileLabel(value);
            && |r| <= |n| && r == n[|n| - |r|..]
            && '/' !in r && '\\' !in r
            && ('/' in n ==> n[|n| - |r| - 1] == '/')
            && ('/' !in n ==> r == n)
  {
    var n := SlashesForBackslashes(value);
    assert forall i :: 0 <= i < |n| ==> !IsLineTerminator(n[i]);
    StripOneLine(n);
  }

  /** On a single line the first match of `.*\/` runs from the start to the
      last `/`. */
  lemma StripOneLine(n: string)
    requires forall i :: 0 <= i < |n| ==> !IsLineTerminator(n[i])
    ensures var r := StripThroughLastSlash(n);
            && |r| <= |n| && r == n[|n| - |r|..] && '/' !in r
            && ('/' in n ==> n[|n| - |r| - 1] == '/')
            && ('/' !in n ==> r == n)
  {
    assert LineEnd(n) == |n|;
    assert n[..|n|] == n;
    var j := LastSlash(n);
    var r := StripThroughLastSlash(n);
    if j >= 0 {
      assert r == n[j + 1..];
      assert forall m :: 0 <= m < |r| ==> r[m] == n[j + 1 + m] != '/';
    } else {
      assert r == n;
    }
  }

  /** The text written beside a file input: `"<N> files selected"` when more
      than one file is chosen, otherwise the label. A missing file list
      counts as one file. */
  function FileInputText(files: Option<nat>, value: string): (r: string)
    ensures var n := files.GetOr(1);
            && (n > 1 ==> |r| > 15 && r[|r| - 15..] == " files selected"
                          && AllDigits(r[..|r| - 15]) && ParseDecimal(r[..|r| - 15]) == n)
            && (n <= 1 ==> r == FileLabel(value))
  {
    var numFiles := if files.Some? then files.value else 1;
    if numFiles > 1 then
      var count := NatToString(numFiles);
      var r := count + " files selected";
      assert r[..|r| - 15] == count;
      ParseNatToString(numFiles);
      r
    else FileLabel(value)
  }
}
