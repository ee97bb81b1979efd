/** The input masks and the age rule of `src/utils/masks.ts`.

    Each `.replace` with a non-global regular expression is modelled by its match
    semantics on the string it is applied to: the leftmost position where the pattern
    matches, then the replacement text spliced in there. Only the three pattern shapes
    the file uses are modelled (a run of digits split after a prefix, the CPF tail
    anchored at `$`, the eleven-digit phone pattern). */
module Masks {
  import opened Common

  predicate IsDigit(c: char) {
    '0' <= c <= '9'
  }

  predicate AllDigits(s: string) {
    forall i :: 0 <= i < |s| ==> IsDigit(s[i])
  }

  /** `value.replace(/\D/g, '')`: the digits of `s`, in order. */
  function UnformatValue(s: string): (r: string)
    ensures AllDigits(r) && |r| <= |s|
  {
    Filter(s, IsDigit)
  }

  /** `unformatValue` keeps every digit and nothing else, in order, and is idempotent. */
  lemma UnformatValueProperties(s: string)
    ensures forall c :: c in UnformatValue(s) <==> c in s && IsDigit(c)
    ensures IsSubsequence(UnformatValue(s), s)
    ensures UnformatValue(UnformatValue(s)) == UnformatValue(s)
  {
    forall c ensures c in UnformatValue(s) <==> c in s && IsDigit(c) {
      FilterMembership(s, IsDigit, c);
    }
    FilterIsSubsequence(s, IsDigit);
    FilterKeepsAll(UnformatValue(s), IsDigit);
  }

  lemma UnformatDigits(d: string)
    requires AllDigits(d)
    ensures UnformatValue(d) == d
  {
    FilterKeepsAll(d, IsDigit);
  }

  lemma UnformatAppend(a: string, b: string)
    ensures UnformatValue(a + b) == UnformatValue(a) + UnformatValue(b)
  {
    FilterAppend(a, b, IsDigit);
  }

  // ------------------------------------------------------------ regex steps

  /** `s` holds `w` consecutive digits starting at `j`. */
  predicate RunAt(s: string, w: nat, j: int) {
    0 <= j && j + w <= |s| && AllDigits(s[j..j + w])
  }

  /** The leftmost position at or after `from` where `/\d{w}/` matches. */
  function FirstRun(s: string, w: nat, from: nat): (r: Option<nat>)
    ensures r.Some? ==> from <= r.value && RunAt(s, w, r.value)
    ensures r.Some? ==> forall j :: from <= j < r.value ==> !RunAt(s, w, j)
    ensures r.None? ==> forall j :: from <= j ==> !RunAt(s, w, j)
    decreases |s| - from
  {
    if from + w > |s| then None
    else if AllDigits(s[from..from + w]) then Some(from)
    else FirstRun(s, w, from + 1)
  }

  /** `s.replace(/(\d{head})(\d)/, pre + '$1' + mid + '$2')`. */
  function SplitFirstRun(s: string, head: nat, pre: string, mid: string): (r: string)
    ensures FirstRun(s, head + 1, 0).None? ==> r == s
  {
    match FirstRun(s, head + 1, 0)
    case None => s
    case Some(i) => s[..i] + pre + s[i..i + head] + mid + s[i + head..]
  }

  /** `s.replace(/(\d{3})(\d{1,2})$/, '$1-$2')`: the leftmost start from which the rest of
      the string is three digits and then one or two digits. */
  function CpfTail(s: string): string {
    if |s| >= 5 && RunAt(s, 5, |s| - 5) then s[..|s| - 2] + "-" + s[|s| - 2..]
    else if |s| >= 4 && RunAt(s, 4, |s| - 4) then s[..|s| - 1] + "-" + s[|s| - 1..]
    else s
  }

  /** `s.replace(/(\d{2})(\d{1})(\d{4})(\d{4})/, '($1) $2 $3-$4')`. */
  function PhoneLongSplit(s: string): string {
    match FirstRun(s, 11, 0)
    case None => s
    case Some(i) =>
      s[..i] + "(" + s[i..i + 2] + ") " + s[i + 2..i + 3] + " " + s[i + 3..i + 7] + "-" + s[i + 7..]
  }

  /** `s.substring(0, n)` */
  function Take(s: string, n: nat): (r: string)
    ensures |r| <= n && |r| <= |s|
    ensures |s| <= n ==> r == s
  {
    if |s| <= n then s else s[..n]
  }

  // ------------------------------------------------------------ the masks

  /** `formatCPF` */
  function FormatCPF(value: string): (r: string)
    ensures |r| <= 14
    ensures value == "" ==> r == ""
  {
    if value == "" then ""
    else
      var digits := UnformatValue(value);
      Take(CpfTail(SplitFirstRun(SplitFirstRun(digits, 3, "", "."), 3, "", ".")), 14)
  }

  /** `formatPhone` */
  function FormatPhone(value: string): (r: string)
    ensures value == "" ==> r == ""
    ensures |UnformatValue(value)| <= 10 ==> |r| <= 14
    ensures |r| <= 17
  {
    if value == "" then ""
    else
      var digits := UnformatValue(value);
      if |digits| <= 10 then
        Take(SplitFirstRun(SplitFirstRun(digits, 2, "(", ") "), 4, "", "-"), 14)
      else
        Take(PhoneLongSplit(digits), 17)
  }

  // ------------------------------------------------------------ reference patterns

  /** The CPF mask `###.###.###-##` filled from the left with up to eleven digits:
      separators appear only once a digit follows them. */
  function CpfPattern(d: string): string
    requires |d| <= 11
  {
    if |d| <= 3 then d
    else if |d| <= 6 then d[..3] + "." + d[3..]
    else if |d| <= 9 then d[..3] + "." + d[3..6] + "." + d[6..]
    else d[..3] + "." + d[3..6] + "." + d[6..9] + "-" + d[9..]
  }

  /** The phone masks `(##) ####-####` (up to ten digits) and `(##) # ####-####`
      (eleven digits) filled from the left. */
  function PhonePattern(d: string): string
    requires |d| <= 11
  {
    if |d| <= 2 then d
    else if |d| <= 6 then "(" + d[..2] + ") " + d[2..]
    else if |d| <= 10 then "(" + d[..2] + ") " + d[2..6] + "-" + d[6..]
    else "(" + d[..2] + ") " + d[2..3] + " " + d[3..7] + "-" + d[7..]
  }

  // ------------------------------------------------------------ step lemmas

  /** A window that covers a non-digit is not a run. */
  lemma NoRunOver(s: string, w: nat, j: int, k: int)
    requires 0 <= j <= k < j + w && k < |s| && !IsDigit(s[k])
    ensures !RunAt(s, w, j)
  {
    if j + w <= |s| {
      assert s[j..j + w][k - j] == s[k];
    }
  }

  lemma DigitsRun(d: string, w: nat, j: int)
    requires AllDigits(d) && 0 <= j && j + w <= |d|
    ensures RunAt(d, w, j)
  {
    DigitsSlice(d, j, j + w);
  }

  /** On a string of digits the first run of `w` digits starts at 0. */
  lemma FirstRunOfDigits(d: string, w: nat)
    requires AllDigits(d)
    ensures |d| >= w ==> FirstRun(d, w, 0) == Some(0)
    ensures |d| < w ==> FirstRun(d, w, 0) == None
  {
    if |d| >= w {
      DigitsRun(d, w, 0);
    } else {
      assert 0 + w > |d|;
    }
  }

  /** The first run is at `i` when there is a run at `i` and every earlier window holds
      a non-digit. */
  lemma FirstRunIs(s: string, w: nat, i: nat)
    requires RunAt(s, w, i)
    requires forall j :: 0 <= j < i ==> !RunAt(s, w, j)
    ensures FirstRun(s, w, 0) == Some(i)
  {
  }

  lemma FirstRunNone(s: string, w: nat)
    requires forall j :: 0 <= j ==> !RunAt(s, w, j)
    ensures FirstRun(s, w, 0) == None
  {
  }

  /** First step of the CPF mask on a digit string. */
  lemma CpfFirstSplit(d: string)
    requires AllDigits(d)
    ensures |d| < 4 ==> SplitFirstRun(d, 3, "", ".") == d
    ensures |d| >= 4 ==> SplitFirstRun(d, 3, "", ".") == d[..3] + "." + d[3..]
  {
    FirstRunOfDigits(d, 4);
    if |d| >= 4 {
      assert d[..0] + "" + d[0..3] + "." + d[3..] == d[..3] + "." + d[3..];
    }
  }

  /** Second step of the CPF mask: the first four-digit run lies after the first dot. */
  lemma CpfSecondSplit(d: string)
    requires AllDigits(d) && |d| >= 4
    ensures |d| < 7 ==> SplitFirstRun(d[..3] + "." + d[3..], 3, "", ".") == d[..3] + "." + d[3..]
    ensures |d| >= 7 ==>
      SplitFirstRun(d[..3] + "." + d[3..], 3, "", ".") == d[..3] + "." + d[3..6] + "." + d[6..]
  {
    var s1 := d[..3] + "." + d[3..];
    assert s1[3] == '.';
    forall j | 0 <= j < 4 ensures !RunAt(s1, 4, j) {
      NoRunOver(s1, 4, j, 3);
    }
    if |d| >= 7 {
      assert s1[4..8] == d[3..7];
      DigitsRun(d, 4, 3);
      FirstRunIs(s1, 4, 4);
      assert s1[..4] + "" + s1[4..7] + "." + s1[7..] == d[..3] + "." + d[3..6] + "." + d[6..];
    } else {
      forall j | 0 <= j ensures !RunAt(s1, 4, j) {
        if j < 4 {
          NoRunOver(s1, 4, j, 3);
        }
      }
      FirstRunNone(s1, 4);
    }
  }

  /** The CPF mask of at most eleven digits is the reference pattern. */
  lemma CpfShape(value: string)
    requires value != "" && |UnformatValue(value)| <= 11
    ensures FormatCPF(value) == CpfPattern(UnformatValue(value))
  {
    var d := UnformatValue(value);
    var n := |d|;
    CpfFirstSplit(d);
    if n < 4 {
      assert SplitFirstRun(d, 3, "", ".") == d;
      FirstRunOfDigits(d, 4);
      assert CpfTail(d) == d;
    } else {
      CpfSecondSplit(d);
      var s1 := d[..3] + "." + d[3..];
      if n < 7 {
        assert s1[3] == '.';
        if |s1| >= 5 {
          NoRunOver(s1, 5, |s1| - 5, 3);
        }
        NoRunOver(s1, 4, |s1| - 4, 3);
        assert CpfTail(s1) == s1;
      } else {
        var p := d[..3] + "." + d[3..6] + ".";
        var s2 := p + d[6..];
        assert s2 == d[..3] + "." + d[3..6] + "." + d[6..];
        assert |p| == 8 && s2[7] == '.';
        if n <= 9 {
          NoRunOver(s2, 5, |s2| - 5, 7);
          NoRunOver(s2, 4, |s2| - 4, 7);
          assert CpfTail(s2) == s2;
        } else {
          CatSlices(p, d[6..], n - 6);
          DigitsSlice(d, 6, n);
          assert RunAt(s2, n - 6, 8);
          if n == 10 {
            NoRunOver(s2, 5, |s2| - 5, 7);
          }
          assert CpfTail(s2) == s2[..11] + "-" + s2[11..];
          CatSlices(p, d[6..], 3);
          assert d[6..][..3] == d[6..9] && d[6..][3..] == d[9..];
          assert s2[..11] + "-" + s2[11..] == d[..3] + "." + d[3..6] + "." + d[6..9] + "-" + d[9..];
        }
      }
    }
  }

  /** For exactly eleven digits `formatCPF` gives `DDD.DDD.DDD-DD`. */
  lemma CpfElevenDigits(value: string)
    requires |UnformatValue(value)| == 11
    ensures var d := UnformatValue(value);
      FormatCPF(value) == d[0..3] + "." + d[3..6] + "." + d[6..9] + "-" + d[9..11]
  {
    assert UnformatValue("") == "";
    CpfShape(value);
    var d := UnformatValue(value);
    assert d[9..] == d[9..11];
  }

  /** Removing the punctuation of a masked CPF gives back the digits typed. */
  lemma CpfRoundTrip(value: string)
    requires |UnformatValue(value)| <= 11
    ensures UnformatValue(FormatCPF(value)) == UnformatValue(value)
  {
    if value == "" {
      assert UnformatValue("") == "";
    } else {
      CpfShape(value);
      var d := UnformatValue(value);
      CpfPatternDigits(d);
    }
  }

  /** Slicing a concatenation past its first part. */
  lemma CatSlices(p: string, q: string, i: nat)
    requires i <= |q|
    ensures (p + q)[|p|..|p| + i] == q[..i]
    ensures (p + q)[..|p| + i] == p + q[..i]
    ensures (p + q)[|p| + i..] == q[i..]
  {
  }

  lemma DigitsSlice(d: string, i: int, j: int)
    requires AllDigits(d) && 0 <= i <= j <= |d|
    ensures AllDigits(d[i..j])
  {
    assert forall k :: 0 <= k < j - i ==> d[i..j][k] == d[i + k];
  }

  /** Unformatting skips a separator and keeps a following block of digits. */
  lemma UnformatJoin(a: string, sep: string, b: string)
    requires UnformatValue(sep) == "" && AllDigits(b)
    ensures UnformatValue(a + sep + b) == UnformatValue(a) + b
  {
    UnformatAppend(a + sep, b);
    UnformatAppend(a, sep);
    UnformatDigits(b);
  }

  /** Unformatting the CPF reference pattern gives back its digits. */
  lemma CpfPatternDigits(d: string)
    requires AllDigits(d) && |d| <= 11
    ensures UnformatValue(CpfPattern(d)) == d
  {
    assert UnformatValue(".") == "" && UnformatValue("-") == "";
    if |d| <= 3 {
      UnformatDigits(d);
    } else {
      DigitsSlice(d, 0, 3);
      UnformatDigits(d[..3]);
      if |d| <= 6 {
        DigitsSlice(d, 3, |d|);
        UnformatJoin(d[..3], ".", d[3..]);
        assert d[..3] + d[3..] == d;
      } else if |d| <= 9 {
        DigitsSlice(d, 3, 6);
        DigitsSlice(d, 6, |d|);
        UnformatJoin(d[..3], ".", d[3..6]);
        UnformatJoin(d[..3] + "." + d[3..6], ".", d[6..]);
        assert d[..3] + d[3..6] + d[6..] == d;
      } else {
        DigitsSlice(d, 3, 6);
        DigitsSlice(d, 6, 9);
        DigitsSlice(d, 9, |d|);
        UnformatJoin(d[..3], ".", d[3..6]);
        UnformatJoin(d[..3] + "." + d[3..6], ".", d[6..9]);
        UnformatJoin(d[..3] + "." + d[3..6] + "." + d[6..9], "-", d[9..]);
        assert d[..3] + d[3..6] + d[6..9] + d[9..] == d;
      }
    }
  }

  /** Unformatting the phone reference pattern gives back its digits. */
  lemma PhonePatternDigits(d: string)
    requires AllDigits(d) && |d| <= 11
    ensures UnformatValue(PhonePattern(d)) == d
  {
    if |d| <= 2 {
      UnformatDigits(d);
    } else {
      DigitsSlice(d, 0, 2);
      assert UnformatValue("(") == "";
      UnformatJoin("", "(", d[..2]);
      assert "" + "(" + d[..2] == "(" + d[..2];
      if |d| <= 6 {
        PatternDigitsShort(d);
      } else if |d| <= 10 {
        PatternDigitsMid(d);
      } else {
        PatternDigitsLong(d);
      }
    }
  }

  lemma PatternDigitsShort(d: string)
    requires AllDigits(d) && 2 <= |d| && UnformatValue("(" + d[..2]) == d[..2]
    ensures UnformatValue("(" + d[..2] + ") " + d[2..]) == d
  {
    assert UnformatValue(") ") == "";
    DigitsSlice(d, 2, |d|);
    UnformatJoin("(" + d[..2], ") ", d[2..]);
    assert d[..2] + d[2..] == d;
  }

  lemma PatternDigitsMid(d: string)
    requires AllDigits(d) && 6 <= |d| && UnformatValue("(" + d[..2]) == d[..2]
    ensures UnformatValue("(" + d[..2] + ") " + d[2..6] + "-" + d[6..]) == d
  {
    assert UnformatValue(") ") == "" && UnformatValue("-") == "";
    DigitsSlice(d, 2, 6);
    DigitsSlice(d, 6, |d|);
    var a0 := "(" + d[..2];
    UnformatJoin(a0, ") ", d[2..6]);
    var a1 := a0 + ") " + d[2..6];
    assert d[..2] + d[2..6] == d[..6];
    UnformatJoin(a1, "-", d[6..]);
    assert d[..6] + d[6..] == d;
  }

  lemma PatternDigitsLong(d: string)
    requires AllDigits(d) && 7 <= |d| && UnformatValue("(" + d[..2]) == d[..2]
    ensures UnformatValue("(" + d[..2] + ") " + d[2..3] + " " + d[3..7] + "-" + d[7..]) == d
  {
    assert UnformatValue(") ") == "" && UnformatValue(" ") == "" && UnformatValue("-") == "";
    DigitsSlice(d, 2, 3);
    DigitsSlice(d, 3, 7);
    DigitsSlice(d, 7, |d|);
    var a0 := "(" + d[..2];
    UnformatJoin(a0, ") ", d[2..3]);
    var a1 := a0 + ") " + d[2..3];
    assert d[..2] + d[2..3] == d[..3];
    UnformatJoin(a1, " ", d[3..7]);
    var a2 := a1 + " " + d[3..7];
    assert d[..3] + d[3..7] == d[..7];
    UnformatJoin(a2, "-", d[7..]);
    assert d[..7] + d[7..] == d;
  }

  /** First step of the short phone mask on a digit string. */
  lemma PhoneFirstSplit(d: string)
    requires AllDigits(d)
    ensures |d| < 3 ==> SplitFirstRun(d, 2, "(", ") ") == d
    ensures |d| >= 3 ==> SplitFirstRun(d, 2, "(", ") ") == "(" + d[..2] + ") " + d[2..]
  {
    FirstRunOfDigits(d, 3);
    if |d| >= 3 {
      assert d[..0] + "(" + d[0..2] + ") " + d[2..] == "(" + d[..2] + ") " + d[2..];
    }
  }

  /** Second step of the short phone mask: the first five-digit run follows `(DD) `. */
  lemma PhoneSecondSplit(d: string)
    requires AllDigits(d) && |d| >= 3
    ensures |d| < 7 ==>
      SplitFirstRun("(" + d[..2] + ") " + d[2..], 4, "", "-") == "(" + d[..2] + ") " + d[2..]
    ensures |d| >= 7 ==>
      SplitFirstRun("(" + d[..2] + ") " + d[2..], 4, "", "-") == "(" + d[..2] + ") " + d[2..6] + "-" + d[6..]
  {
    var s1 := "(" + d[..2] + ") " + d[2..];
    assert s1[4] == ' ';
    if |d| >= 7 {
      forall j | 0 <= j < 5 ensures !RunAt(s1, 5, j) {
        NoRunOver(s1, 5, j, 4);
      }
      assert s1[5..10] == d[2..7];
      DigitsRun(d, 5, 2);
      FirstRunIs(s1, 5, 5);
      assert s1[..5] + "" + s1[5..9] + "-" + s1[9..] == "(" + d[..2] + ") " + d[2..6] + "-" + d[6..];
    } else {
      forall j | 0 <= j ensures !RunAt(s1, 5, j) {
        if j < 5 {
          NoRunOver(s1, 5, j, 4);
        }
      }
      FirstRunNone(s1, 5);
    }
  }

  /** The phone mask of at most eleven digits is the reference pattern. */
  lemma PhoneShape(value: string)
    requires value != "" && |UnformatValue(value)| <= 11
    ensures FormatPhone(value) == PhonePattern(UnformatValue(value))
  {
    var d := UnformatValue(value);
    if |d| <= 10 {
      PhoneShortShape(d);
    } else {
      PhoneLongShape(d);
    }
  }

  lemma PhoneShortShape(d: string)
    requires AllDigits(d) && |d| <= 10
    ensures Take(SplitFirstRun(SplitFirstRun(d, 2, "(", ") "), 4, "", "-"), 14) == PhonePattern(d)
  {
    PhoneFirstSplit(d);
    if |d| < 3 {
      FirstRunOfDigits(d, 5);
    } else {
      PhoneSecondSplit(d);
    }
  }

  lemma PhoneLongShape(d: string)
    requires AllDigits(d) && |d| == 11
    ensures Take(PhoneLongSplit(d), 17) == PhonePattern(d)
  {
    FirstRunOfDigits(d, 11);
    var r := "(" + d[..2] + ") " + d[2..3] + " " + d[3..7] + "-" + d[7..];
    assert d[..0] == [] && d[0..2] == d[..2];
    assert PhoneLongSplit(d) == r;
    assert |r| == 16;
  }

  /** For exactly eleven digits `formatPhone` gives `(DD) D DDDD-DDDD`. */
  lemma PhoneElevenDigits(value: string)
    requires |UnformatValue(value)| == 11
    ensures var d := UnformatValue(value);
      FormatPhone(value) == "(" + d[0..2] + ") " + d[2..3] + " " + d[3..7] + "-" + d[7..11]
  {
    var d := UnformatValue(value);
    assert UnformatValue("") == "";
    PhoneShape(value);
    assert d[7..] == d[7..11];
  }

  /** Removing the punctuation of a masked phone number gives back the digits typed. */
  lemma PhoneRoundTrip(value: string)
    requires |UnformatValue(value)| <= 11
    ensures UnformatValue(FormatPhone(value)) == UnformatValue(value)
  {
    if value == "" {
      assert UnformatValue("") == "";
    } else {
      PhoneShape(value);
      PhonePatternDigits(UnformatValue(value));
    }
  }

  // ------------------------------------------------------------ age

  /** A calendar date as the `Date` getters see it. Months may be counted from 0 or
      from 1: only their difference matters. */
  datatype Date = Date(year: int, month: int, day: int)

  /** Calendar order: year, then month, then day. */
  predicate DateLe(a: Date, b: Date) {
    a.year < b.year
    || (a.year == b.year && a.month < b.month)
    || (a.year == b.year && a.month == b.month && a.day <= b.day)
  }

  /** `calculateAge(birthDate)` evaluated on the day `today`. */
  /** The age is the difference of the years, or one less before this year's birthday;
      on the birthday itself it is the full difference. */
  function CalculateAge(birth: Date, today: Date): (age: int)
    ensures today.year - birth.year - 1 <= age <= today.year - birth.year
    ensures today.month == birth.month && today.day == birth.day ==> age == today.year - birth.year
  {
    var age := today.year - birth.year;
    var monthDifference := today.month - birth.month;
    if monthDifference < 0 || (monthDifference == 0 && today.day < birth.day) then age - 1 else age
  }

  /** The `k`-th birthday (same month and day, `k` years later) has been reached by `today`. */
  predicate AnniversaryReached(birth: Date, today: Date, k: int) {
    DateLe(Date(birth.year + k, birth.month, birth.day), today)
  }

  /** The age is the number of birthdays reached: exactly the `k` up to the age have
      their anniversary on or before `today`. */
  lemma AgeCountsAnniversaries(birth: Date, today: Date, k: int)
    ensures AnniversaryReached(birth, today, k) <==> k <= CalculateAge(birth, today)
  {
  }

  /** The age is the year difference, one less exactly when this year's birthday is
      still to come; so it is never negative for a birth date not after `today`. */
  lemma AgeFacts(birth: Date, today: Date)
    ensures var notYet := DateLe(today, Date(today.year, birth.month, birth.day))
                          && Date(today.year, birth.month, birth.day) != today;
      CalculateAge(birth, today) == today.year - birth.year - (if notYet then 1 else 0)
    ensures DateLe(birth, today) ==> CalculateAge(birth, today) >= 0
  {
    AgeCountsAnniversaries(birth, today, 0);
  }

  /** Ages do not go down as time passes. */
  lemma AgeMonotonic(birth: Date, today: Date, later: Date)
    requires DateLe(today, later)
    ensures CalculateAge(birth, today) <= CalculateAge(birth, later)
  {
    var a := CalculateAge(birth, today);
    AgeCountsAnniversaries(birth, today, a);
    AgeCountsAnniversaries(birth, later, a);
  }
}
