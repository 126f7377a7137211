/**
 Browser-family aliases as the build script derives them from the profile labels: each family is
 mapped to its newest profile.
 */
module ProfileAliases {
  import opened Wrappers

  type Version = seq<nat>

  const U32_MAX: nat := 0xFFFF_FFFF

  // ----- Labels -----

  /** The position behind the last underscore, or 0. */
  function AfterLastUnderscore(profile: string): (n: nat)
    ensures n <= |profile|
    ensures n > 0 ==> profile[n - 1] == '_'
    ensures forall i :: n <= i < |profile| ==> profile[i] != '_'
    ensures n == 0 ==> '_' !in profile
  {
    if profile == "" then 0
    else if profile[|profile| - 1] == '_' then |profile|
    else AfterLastUnderscore(profile[..|profile| - 1])
  }

  /** The position of the first dot, or the length. */
  function FirstDot(s: string): (n: nat)
    ensures n <= |s| && (n < |s| ==> s[n] == '.')
    ensures forall i :: 0 <= i < n ==> s[i] != '.'
  {
    if s == "" || s[0] == '.' then 0 else 1 + FirstDot(s[1..])
  }

  function SplitDots(s: string): (parts: seq<string>)
    ensures |parts| >= 1
    decreases |s|
  {
    var n := FirstDot(s);
    if n == |s| then [s] else [s[..n]] + SplitDots(s[n + 1..])
  }

  predicate IsDigit(c: char) {
    '0' <= c <= '9'
  }

  predicate AllDigits(s: string) {
    forall i :: 0 <= i < |s| ==> IsDigit(s[i])
  }

  function DigitValue(c: char): nat
    requires IsDigit(c)
  {
    c as int - '0' as int
  }

  function DigitsValue(s: string): nat
    requires AllDigits(s)
  {
    if s == "" then 0 else 10 * DigitsValue(s[..|s| - 1]) + DigitValue(s[|s| - 1])
  }

  /** `str::parse::<u32>`: digits with an optional plus sign, within 32 bits. */
  function ParseU32(s: string): Option<nat> {
    var digits := if s != "" && s[0] == '+' then s[1..] else s;
    if digits == "" || !AllDigits(digits) then None
    else if DigitsValue(digits) > U32_MAX then None
    else Some(DigitsValue(digits))
  }

  /** All segments parsed, or None if one does not parse. */
  function ParseSegments(parts: seq<string>): Option<Version> {
    if parts == [] then Some([])
    else
      match (ParseU32(parts[0]), ParseSegments(parts[1..]))
      case (Some(n), Some(rest)) => Some([n] + rest)
      case _ => None
  }

  datatype Label = Label(family: string, version: Version)

  /** Splits at the last underscore; None without a family or without a numeric version. */
  function SplitLabel(profile: string): Option<Label> {
    var n := AfterLastUnderscore(profile);
    if n <= 1 then None
    else
      match ParseSegments(SplitDots(profile[n..]))
      case Some(version) => Some(Label(profile[..n - 1], version))
      case None => None
  }

  predicate InFamily(profile: string, family: string) {
    SplitLabel(profile).Some? && SplitLabel(profile).value.family == family
  }

  function VersionOf(profile: string): Version
    requires SplitLabel(profile).Some?
  {
    SplitLabel(profile).value.version
  }

  // ----- Labels as they are written -----

  function Decimal(n: nat): (s: string)
    ensures s != ""
  {
    (if n < 10 then "" else Decimal(n / 10)) + ["0123456789"[n % 10]]
  }

  lemma DigitChar(n: nat)
    requires n < 10
    ensures IsDigit("0123456789"[n]) && DigitValue("0123456789"[n]) == n
  {
    assert "0123456789" == ['0', '1', '2', '3', '4', '5', '6', '7', '8', '9'];
  }

  lemma DigitsValueSnoc(s: string, c: char)
    requires AllDigits(s) && IsDigit(c)
    ensures AllDigits(s + [c]) && DigitsValue(s + [c]) == 10 * DigitsValue(s) + DigitValue(c)
  {
    assert (s + [c])[..|s|] == s;
  }

  lemma {:induction false} DecimalIsRead(n: nat)
    ensures AllDigits(Decimal(n)) && DigitsValue(Decimal(n)) == n
  {
    DigitChar(n % 10);
    if n < 10 {
      DigitsValueSnoc("", "0123456789"[n]);
    } else {
      DecimalIsRead(n / 10);
      DigitsValueSnoc(Decimal(n / 10), "0123456789"[n % 10]);
    }
  }

  function Zeros(k: nat): string {
    seq(k, _ => '0')
  }

  lemma {:induction false} ZerosAreRead(k: nat, s: string)
    requires AllDigits(s)
    ensures AllDigits(Zeros(k) + s) && DigitsValue(Zeros(k) + s) == DigitsValue(s)
    decreases |s|, k
  {
    if s == "" {
      assert Zeros(k) + s == Zeros(k);
      if k > 0 {
        assert Zeros(k) == Zeros(k - 1) + ['0'];
        ZerosAreRead(k - 1, "");
        assert Zeros(k - 1) + "" == Zeros(k - 1);
      }
    } else {
      var n := |s| - 1;
      ZerosAreRead(k, s[..n]);
      assert Zeros(k) + s == (Zeros(k) + s[..n]) + [s[n]];
      DigitsValueSnoc(Zeros(k) + s[..n], s[n]);
    }
  }

  /** Every string of digits is the decimal form of its value behind some zeros. */
  lemma {:induction false} DigitsAreDecimal(s: string) returns (k: nat)
    requires AllDigits(s) && s != ""
    ensures s == Zeros(k) + Decimal(DigitsValue(s))
    decreases |s|
  {
    var n := |s| - 1;
    var d := DigitValue(s[n]);
    assert "0123456789"[d] == s[n] by {
      assert "0123456789" == ['0', '1', '2', '3', '4', '5', '6', '7', '8', '9'];
    }
    if DigitsValue(s[..n]) == 0 {
      k := n;
      AllZeros(s[..n]);
      assert s == s[..n] + [s[n]] && Decimal(d) == [s[n]];
    } else {
      k := DigitsAreDecimal(s[..n]);
      assert DigitsValue(s) / 10 == DigitsValue(s[..n]) && DigitsValue(s) % 10 == d;
      assert s == s[..n] + [s[n]];
      assert Decimal(DigitsValue(s)) == Decimal(DigitsValue(s[..n])) + [s[n]];
    }
  }

  lemma {:induction false} AllZeros(s: string)
    requires AllDigits(s) && DigitsValue(s) == 0
    ensures s == Zeros(|s|)
    decreases |s|
  {
    if s != "" {
      var n := |s| - 1;
      AllZeros(s[..n]);
      assert s == s[..n] + ['0'] && Zeros(|s|) == Zeros(n) + ['0'];
    }
  }

  /** A number of 32 bits in decimal form, perhaps with zeros in front, and those with a plus sign. */
  ghost predicate IsNumeral(s: string, n: nat) {
    n <= 4294967295 && exists k: nat ::
      s == Zeros(k) + Decimal(n) || s == "+" + (Zeros(k) + Decimal(n))
  }

  lemma ParsedIsNumeral(s: string, n: nat)
    requires ParseU32(s) == Some(n)
    ensures IsNumeral(s, n)
  {
    var digits := if s != "" && s[0] == '+' then s[1..] else s;
    assert AllDigits(digits);
    var k := DigitsAreDecimal(digits);
    assert digits == s || s == "+" + digits;
  }

  lemma DigitsAreParsed(digits: string, n: nat)
    requires digits != "" && AllDigits(digits) && DigitsValue(digits) == n && n <= 4294967295
    ensures ParseU32(digits) == Some(n) && ParseU32("+" + digits) == Some(n)
  {
    assert IsDigit(digits[0]);
    assert ("+" + digits)[1..] == digits && ("+" + digits)[0] == '+';
  }

  lemma ParseU32Means(s: string, n: nat)
    ensures ParseU32(s) == Some(n) <==> IsNumeral(s, n)
  {
    if ParseU32(s) == Some(n) {
      ParsedIsNumeral(s, n);
    }
    if IsNumeral(s, n) {
      var k: nat :| s == Zeros(k) + Decimal(n) || s == "+" + (Zeros(k) + Decimal(n));
      DecimalIsRead(n);
      ZerosAreRead(k, Decimal(n));
      DigitsAreParsed(Zeros(k) + Decimal(n), n);
    }
  }

  lemma Around(a: string, c: char, b: string)
    ensures var s := a + [c] + b;
      && |s| == |a| + 1 + |b| && s[..|a|] == a && s[|a|] == c && s[|a| + 1..] == b
      && (forall i :: 0 <= i < |a| ==> s[i] == a[i])
      && (forall i :: |a| < i < |s| ==> s[i] == b[i - |a| - 1])
  {
  }

  function JoinDots(parts: seq<string>): string
    requires parts != []
  {
    if |parts| == 1 then parts[0] else parts[0] + ['.'] + JoinDots(parts[1..])
  }

  predicate Dotless(parts: seq<string>) {
    forall i :: 0 <= i < |parts| ==> '.' !in parts[i]
  }

  lemma FirstDotIs(s: string, n: nat)
    requires n <= |s| && (n < |s| ==> s[n] == '.') && forall i :: 0 <= i < n ==> s[i] != '.'
    ensures FirstDot(s) == n
  {
  }

  lemma SplitDotsAt(s: string, n: nat)
    requires n <= |s| && (n < |s| ==> s[n] == '.') && forall i :: 0 <= i < n ==> s[i] != '.'
    ensures SplitDots(s) == if n == |s| then [s] else [s[..n]] + SplitDots(s[n + 1..])
  {
    FirstDotIs(s, n);
  }

  lemma {:induction false} SplitOfJoinDots(parts: seq<string>)
    requires parts != [] && Dotless(parts)
    ensures SplitDots(JoinDots(parts)) == parts
  {
    if |parts| == 1 {
      SplitDotsAt(parts[0], |parts[0]|);
    } else {
      SplitJoined(parts[0], JoinDots(parts[1..]));
      SplitOfJoinDots(parts[1..]);
    }
  }

  lemma SplitJoined(part: string, rest: string)
    requires '.' !in part
    ensures SplitDots(part + ['.'] + rest) == [part] + SplitDots(rest)
  {
    Around(part, '.', rest);
    SplitDotsAt(part + ['.'] + rest, |part|);
  }

  lemma JoinDotsCons(part: string, rest: seq<string>)
    requires rest != []
    ensures JoinDots([part] + rest) == part + ['.'] + JoinDots(rest)
  {
    assert ([part] + rest)[1..] == rest;
  }

  lemma {:induction false} JoinOfSplitDots(s: string)
    ensures JoinDots(SplitDots(s)) == s
    decreases |s|
  {
    var n := FirstDot(s);
    if n < |s| {
      JoinOfSplitDots(s[n + 1..]);
      JoinDotsCons(s[..n], SplitDots(s[n + 1..]));
      CutAt(s, n);
    }
  }

  lemma CutAt(s: string, n: nat)
    requires n < |s|
    ensures s == s[..n] + [s[n]] + s[n + 1..]
  {
  }

  ghost predicate AreNumerals(parts: seq<string>, version: Version) {
    |parts| == |version| && forall i :: 0 <= i < |parts| ==> IsNumeral(parts[i], version[i])
  }

  lemma {:induction false} ParseSegmentsMeans(parts: seq<string>, version: Version)
    ensures ParseSegments(parts) == Some(version) <==> AreNumerals(parts, version)
    decreases |parts|
  {
    if parts != [] && version != [] {
      ParseU32Means(parts[0], version[0]);
      ParseSegmentsMeans(parts[1..], version[1..]);
      assert version == [version[0]] + version[1..];
      assert AreNumerals(parts, version) <==> IsNumeral(parts[0], version[0]) && AreNumerals(parts[1..], version[1..]) by {
        assert forall i :: 1 <= i < |parts| ==> parts[i] == parts[1..][i - 1];
        assert forall i :: 1 <= i < |version| ==> version[i] == version[1..][i - 1];
        assert forall i :: 0 <= i < |parts[1..]| ==> parts[1..][i] == parts[i + 1];
        assert forall i :: 0 <= i < |version[1..]| ==> version[1..][i] == version[i + 1];
      }
    }
  }

  /** The label is the family, an underscore and the segments, which are numerals, joined by dots. */
  ghost predicate IsLabelOf(profile: string, family: string, version: Version) {
    && family != "" && version != []
    && exists parts :: AreNumerals(parts, version) && profile == family + ['_'] + JoinDots(parts)
  }

  lemma NumeralChars(s: string, n: nat)
    requires IsNumeral(s, n)
    ensures '.' !in s && '_' !in s
  {
    var k: nat :| s == Zeros(k) + Decimal(n) || s == "+" + (Zeros(k) + Decimal(n));
    DecimalIsRead(n);
    ZerosAreRead(k, Decimal(n));
    DigitsHaveNoMarks(Zeros(k) + Decimal(n));
  }

  lemma DigitsHaveNoMarks(digits: string)
    requires AllDigits(digits)
    ensures '.' !in digits && '_' !in digits
    ensures '.' !in "+" + digits && '_' !in "+" + digits
  {
    forall i | 0 <= i < |digits| ensures digits[i] != '.' && digits[i] != '_' {
      assert IsDigit(digits[i]);
    }
  }

  lemma {:induction false} JoinedChars(parts: seq<string>)
    requires parts != [] && forall i :: 0 <= i < |parts| ==> '_' !in parts[i]
    ensures '_' !in JoinDots(parts)
  {
    if |parts| > 1 {
      JoinedChars(parts[1..]);
    }
  }

  lemma LastUnderscoreIs(family: string, text: string)
    requires '_' !in text
    ensures AfterLastUnderscore(family + ['_'] + text) == |family| + 1
  {
    Around(family, '_', text);
    UnderscoreIs(family + ['_'] + text, |family|);
  }

  lemma UnderscoreIs(s: string, n: nat)
    requires n < |s| && s[n] == '_' && forall i :: n < i < |s| ==> s[i] != '_'
    ensures AfterLastUnderscore(s) == n + 1
  {
    var last := AfterLastUnderscore(s);
    assert last > 0 && s[last - 1] == '_';
    assert last >= n + 1;
  }

  lemma SplitIsLabel(profile: string, family: string, version: Version)
    requires SplitLabel(profile) == Some(Label(family, version))
    ensures IsLabelOf(profile, family, version)
  {
    var n := AfterLastUnderscore(profile);
    var parts := SplitDots(profile[n..]);
    ParseSegmentsMeans(parts, version);
    JoinOfSplitDots(profile[n..]);
    CutAt(profile, n - 1);
  }

  /** Exactly the labels of that form are split, into that family and that version. */
  lemma SplitLabelMeans(profile: string, family: string, version: Version)
    ensures SplitLabel(profile) == Some(Label(family, version)) <==> IsLabelOf(profile, family, version)
  {
    if SplitLabel(profile) == Some(Label(family, version)) {
      SplitIsLabel(profile, family, version);
    }
    if IsLabelOf(profile, family, version) {
      var parts :| AreNumerals(parts, version) && profile == family + ['_'] + JoinDots(parts);
      LabelIsSplit(family, parts, version);
    }
  }

  lemma LabelIsSplit(family: string, parts: seq<string>, version: Version)
    requires family != "" && parts != [] && AreNumerals(parts, version)
    ensures SplitLabel(family + ['_'] + JoinDots(parts)) == Some(Label(family, version))
  {
    forall i | 0 <= i < |parts| ensures '.' !in parts[i] && '_' !in parts[i] {
      NumeralChars(parts[i], version[i]);
    }
    var text := JoinDots(parts);
    JoinedChars(parts);
    LastUnderscoreIs(family, text);
    Around(family, '_', text);
    SplitOfJoinDots(parts);
    ParseSegmentsMeans(parts, version);
  }

  // ----- Versions -----

  /** Missing segments count as zero. */
  function Segment(v: Version, i: nat): nat {
    if i < |v| then v[i] else 0
  }

  predicate AgreeBelow(a: Version, b: Version, i: nat) {
    forall j: nat :: j < i ==> Segment(a, j) == Segment(b, j)
  }

  /** The first segment in which the versions differ decides. */
  ghost predicate Older(a: Version, b: Version) {
    exists i: nat :: Segment(a, i) < Segment(b, i) && AgreeBelow(a, b, i)
  }

  ghost predicate SameVersion(a: Version, b: Version) {
    forall i: nat :: Segment(a, i) == Segment(b, i)
  }

  datatype Ordering = Less | Equal | Greater

  function Max(a: nat, b: nat): nat {
    if a < b then b else a
  }

  /** Compares segment by segment, up to the longer version. */
  method CompareVersions(left: Version, right: Version) returns (ordering: Ordering)
    ensures ordering == Less <==> Older(left, right)
    ensures ordering == Equal <==> SameVersion(left, right)
    ensures ordering == Greater <==> Older(right, left)
  {
    for index := 0 to Max(|left|, |right|)
      invariant AgreeBelow(left, right, index)
    {
      var l, r := Segment(left, index), Segment(right, index);
      if l < r {
        OlderIsOneWay(left, right, index);
        return Less;
      }
      if r < l {
        OlderIsOneWay(right, left, index);
        return Greater;
      }
    }
    assert SameVersion(left, right);
    return Equal;
  }

  lemma OlderIsOneWay(a: Version, b: Version, i: nat)
    requires Segment(a, i) < Segment(b, i) && AgreeBelow(a, b, i)
    ensures Older(a, b) && !SameVersion(a, b) && !Older(b, a)
  {
  }

  lemma {:induction false} FirstDifference(a: Version, b: Version, i: nat) returns (d: nat)
    requires Segment(a, i) != Segment(b, i)
    ensures d <= i && Segment(a, d) != Segment(b, d) && AgreeBelow(a, b, d)
  {
    if j: nat :| j < i && Segment(a, j) != Segment(b, j) {
      d := FirstDifference(a, b, j);
    } else {
      d := i;
    }
  }

  /** Any two versions are comparable, in exactly one way. */
  lemma Trichotomy(a: Version, b: Version)
    ensures Older(a, b) || Older(b, a) || SameVersion(a, b)
    ensures !(Older(a, b) && Older(b, a)) && !(SameVersion(a, b) && (Older(a, b) || Older(b, a)))
  {
    if !SameVersion(a, b) {
      var i: nat :| Segment(a, i) != Segment(b, i);
      var d := FirstDifference(a, b, i);
      if Segment(a, d) < Segment(b, d) {
        OlderIsOneWay(a, b, d);
      } else {
        OlderIsOneWay(b, a, d);
      }
    }
  }

  lemma OlderTransitive(a: Version, b: Version, c: Version)
    requires Older(a, b) && Older(b, c)
    ensures Older(a, c)
  {
  }

  lemma SameVersionOlder(a: Version, b: Version, c: Version)
    requires SameVersion(a, b)
    ensures Older(a, c) <==> Older(b, c)
    ensures Older(c, a) <==> Older(c, b)
  {
  }

  function StripZeros(v: Version): Version {
    if v != [] && v[|v| - 1] == 0 then StripZeros(v[..|v| - 1]) else v
  }

  lemma {:induction false} StripZerosKeepsSegments(v: Version, i: nat)
    ensures Segment(StripZeros(v), i) == Segment(v, i)
    ensures StripZeros(v) != [] ==> StripZeros(v)[|StripZeros(v)| - 1] != 0
    decreases |v|
  {
    if v != [] && v[|v| - 1] == 0 {
      StripZerosKeepsSegments(v[..|v| - 1], i);
    }
  }

  /** Versions are the same exactly when they differ only in trailing zero segments. */
  lemma SameVersionIgnoresTrailingZeros(a: Version, b: Version)
    ensures SameVersion(a, b) <==> StripZeros(a) == StripZeros(b)
  {
    var x, y := StripZeros(a), StripZeros(b);
    forall i: nat ensures Segment(x, i) == Segment(a, i) && Segment(y, i) == Segment(b, i) {
      StripZerosKeepsSegments(a, i);
      StripZerosKeepsSegments(b, i);
    }
    StripZerosKeepsSegments(a, 0);
    StripZerosKeepsSegments(b, 0);
    if SameVersion(a, b) {
      SameSegmentsSameLength(x, y);
      SameSegmentsSameLength(y, x);
      assert forall i :: 0 <= i < |x| ==> x[i] == Segment(x, i) == Segment(y, i) == y[i];
    }
  }

  lemma SameSegmentsSameLength(x: Version, y: Version)
    requires forall i: nat :: Segment(x, i) == Segment(y, i)
    requires x != [] ==> x[|x| - 1] != 0
    ensures |x| <= |y|
  {
    if x != [] {
      assert Segment(x, |x| - 1) == Segment(y, |x| - 1);
    }
  }

  // ----- Aliases -----

  /** `k` is the first profile of the family whose version no other one exceeds. */
  ghost predicate IsNewest(profiles: seq<string>, family: string, k: nat) {
    && k < |profiles| && InFamily(profiles[k], family)
    && (forall j :: 0 <= j < |profiles| && InFamily(profiles[j], family) ==>
          !Older(VersionOf(profiles[k]), VersionOf(profiles[j])))
    && (forall j :: 0 <= j < k && InFamily(profiles[j], family) ==>
          Older(VersionOf(profiles[j]), VersionOf(profiles[k])))
  }

  lemma NewestIsUnique(profiles: seq<string>, family: string, k: nat, l: nat)
    requires IsNewest(profiles, family, k) && IsNewest(profiles, family, l)
    ensures k == l
  {
  }

  /** Reordering the profiles can change a family's alias only to one of the same version. */
  lemma ReorderingKeepsVersion(profiles: seq<string>, other: seq<string>, family: string, k: nat, l: nat)
    requires multiset(profiles) == multiset(other)
    requires IsNewest(profiles, family, k) && IsNewest(other, family, l)
    ensures SameVersion(VersionOf(profiles[k]), VersionOf(other[l]))
  {
    assert profiles[k] in multiset(other) && other[l] in multiset(profiles);
    var i :| 0 <= i < |other| && other[i] == profiles[k];
    var j :| 0 <= j < |profiles| && profiles[j] == other[l];
    Trichotomy(VersionOf(profiles[k]), VersionOf(other[l]));
  }

  // Strings in the order of a BTreeMap: by code point, a prefix first.

  predicate Precedes(a: string, b: string) {
    b != "" && (a == "" || a[0] < b[0] || (a[0] == b[0] && Precedes(a[1..], b[1..])))
  }

  lemma {:induction false} PrecedesTotal(a: string, b: string)
    ensures Precedes(a, b) || Precedes(b, a) || a == b
  {
    if a != "" && b != "" && a[0] == b[0] {
      PrecedesTotal(a[1..], b[1..]);
      assert a == [a[0]] + a[1..] && b == [b[0]] + b[1..];
    }
  }

  lemma {:induction false} PrecedesTransitive(a: string, b: string, c: string)
    requires Precedes(a, b) && Precedes(b, c)
    ensures Precedes(a, c)
  {
    if a != "" && a[0] == b[0] && b[0] == c[0] {
      PrecedesTransitive(a[1..], b[1..], c[1..]);
    }
  }

  /** At the first position where they differ the smaller code point comes first, and an end before everything. */
  ghost predicate DifferAt(a: string, b: string, k: nat) {
    && k <= |a| && k < |b| && a[..k] == b[..k]
    && (k == |a| || a[k] as int < b[k] as int)
  }

  lemma {:induction false} PrecedesMeans(a: string, b: string)
    ensures Precedes(a, b) <==> exists k: nat :: DifferAt(a, b, k)
  {
    if b != "" && (a == "" || a[0] < b[0]) {
      assert DifferAt(a, b, 0);
    } else if a != "" && b != "" && a[0] == b[0] {
      PrecedesMeans(a[1..], b[1..]);
      DifferLater(a, b);
    }
  }

  lemma DifferLater(a: string, b: string)
    requires a != "" && b != "" && a[0] == b[0]
    ensures (exists k: nat :: DifferAt(a, b, k)) <==> exists k: nat :: DifferAt(a[1..], b[1..], k)
  {
    if exists k: nat :: DifferAt(a, b, k) {
      var k: nat :| DifferAt(a, b, k);
      assert k > 0 && a[1..][..k - 1] == a[..k][1..] && b[1..][..k - 1] == b[..k][1..];
      assert DifferAt(a[1..], b[1..], k - 1);
    }
    if exists k: nat :: DifferAt(a[1..], b[1..], k) {
      var k: nat :| DifferAt(a[1..], b[1..], k);
      assert a[..k + 1] == [a[0]] + a[1..][..k] && b[..k + 1] == [b[0]] + b[1..][..k];
      assert DifferAt(a, b, k + 1);
    }
  }

  predicate Before(a: string, b: string) {
    a == b || Precedes(a, b)
  }

  lemma {:induction false} LeastExists(keys: set<string>) returns (least: string)
    requires keys != {}
    ensures least in keys && forall key :: key in keys ==> Before(least, key)
    decreases |keys|
  {
    var key :| key in keys;
    if keys == {key} {
      least := key;
    } else {
      var rest := LeastExists(keys - {key});
      PrecedesTotal(rest, key);
      least := if Before(rest, key) then rest else key;
      forall other | other in keys ensures Before(least, other) {
        if other != key {
          assert other in keys - {key} && Before(rest, other);
          if least == key && rest != key && rest != other {
            PrecedesTransitive(key, rest, other);
          }
        }
      }
    }
  }

  predicate StrictlySorted(keys: seq<string>) {
    forall i, j :: 0 <= i < j < |keys| ==> Precedes(keys[i], keys[j])
  }

  /** The keys of an ordered map in iteration order. */
  method SortedKeys(keys: set<string>) returns (sorted: seq<string>)
    ensures StrictlySorted(sorted)
    ensures forall key :: key in sorted <==> key in keys
  {
    var rest := keys;
    sorted := [];
    while rest != {}
      invariant StrictlySorted(sorted)
      invariant forall key :: key in keys <==> key in sorted || key in rest
      invariant forall i, key :: 0 <= i < |sorted| && key in rest ==> Precedes(sorted[i], key)
      decreases rest
    {
      ghost var minimum := LeastExists(rest);
      var least :| least in rest && forall key :: key in rest ==> Before(least, key);
      forall key | key in rest - {least} ensures Precedes(least, key) {
        assert Before(least, key);
      }
      sorted := sorted + [least];
      rest := rest - {least};
    }
  }

  predicate HasFamily(profiles: seq<string>, family: string) {
    exists j :: 0 <= j < |profiles| && InFamily(profiles[j], family)
  }

  datatype Candidate = Candidate(version: Version, profile: string)

  /** What the loop of `DeriveAliases` knows of the newest profile of one family. */
  ghost predicate Tracked(profiles: seq<string>, family: string, candidate: Candidate) {
    exists k: nat :: IsNewest(profiles, family, k)
      && candidate == Candidate(VersionOf(profiles[k]), profiles[k])
  }

  ghost predicate Tracks(profiles: seq<string>, newest: map<string, Candidate>) {
    && (forall family :: family in newest <==> HasFamily(profiles, family))
    && (forall family :: family in newest ==> Tracked(profiles, family, newest[family]))
  }

  lemma HasFamilySnoc(profiles: seq<string>, profile: string, family: string)
    ensures HasFamily(profiles + [profile], family) <==> HasFamily(profiles, family) || InFamily(profile, family)
  {
    var all := profiles + [profile];
    assert all[|profiles|] == profile;
    if HasFamily(profiles, family) {
      var j :| 0 <= j < |profiles| && InFamily(profiles[j], family);
      assert all[j] == profiles[j];
    }
  }

  /** A profile that is not newer than the family's newest, or of another family, changes nothing. */
  lemma NewestStays(profiles: seq<string>, profile: string, family: string, candidate: Candidate)
    requires Tracked(profiles, family, candidate)
    requires !InFamily(profile, family) || !Older(candidate.version, VersionOf(profile))
    ensures Tracked(profiles + [profile], family, candidate)
  {
    var k: nat :| IsNewest(profiles, family, k) && candidate == Candidate(VersionOf(profiles[k]), profiles[k]);
    var all := profiles + [profile];
    assert all[k] == profiles[k];
    assert IsNewest(all, family, k);
  }

  lemma OldersOfNewest(profiles: seq<string>, family: string, k: nat, v: Version, j: nat)
    requires IsNewest(profiles, family, k) && Older(VersionOf(profiles[k]), v)
    requires j < |profiles| && InFamily(profiles[j], family)
    ensures Older(VersionOf(profiles[j]), v) && !Older(v, VersionOf(profiles[j]))
  {
    var w := VersionOf(profiles[j]);
    Trichotomy(w, VersionOf(profiles[k]));
    if Older(w, VersionOf(profiles[k])) {
      OlderTransitive(w, VersionOf(profiles[k]), v);
    } else {
      SameVersionOlder(w, VersionOf(profiles[k]), v);
    }
    Trichotomy(w, v);
  }

  /** A newer profile of the family becomes its newest. */
  lemma NewestChanges(profiles: seq<string>, profile: string, family: string, candidate: Candidate)
    requires Tracked(profiles, family, candidate)
    requires InFamily(profile, family) && Older(candidate.version, VersionOf(profile))
    ensures Tracked(profiles + [profile], family, Candidate(VersionOf(profile), profile))
  {
    var k: nat :| IsNewest(profiles, family, k) && candidate == Candidate(VersionOf(profiles[k]), profiles[k]);
    var all := profiles + [profile];
    forall j | 0 <= j < |profiles| && InFamily(all[j], family)
      ensures Older(VersionOf(all[j]), VersionOf(profile)) && !Older(VersionOf(profile), VersionOf(all[j]))
    {
      OldersOfNewest(profiles, family, k, VersionOf(profile), j);
    }
    Trichotomy(VersionOf(profile), VersionOf(profile));
    assert all[|profiles|] == profile && IsNewest(all, family, |profiles|);
  }

  lemma FirstOfFamily(profiles: seq<string>, profile: string, family: string)
    requires InFamily(profile, family) && !HasFamily(profiles, family)
    ensures Tracked(profiles + [profile], family, Candidate(VersionOf(profile), profile))
  {
    var all := profiles + [profile];
    Trichotomy(VersionOf(profile), VersionOf(profile));
    assert forall j :: 0 <= j < |profiles| ==> !InFamily(profiles[j], family) && all[j] == profiles[j];
    assert all[|profiles|] == profile && IsNewest(all, family, |profiles|);
  }

  /** The newest profiles after one more: it replaces its family's unless that is at least as new. */
  ghost function NewestAfter(newest: map<string, Candidate>, profile: string): map<string, Candidate> {
    match SplitLabel(profile)
    case None => newest
    case Some(Label(family, version)) =>
      if family !in newest || Older(newest[family].version, version) then
        newest[family := Candidate(version, profile)]
      else newest
  }

  /** What the update does to one family. */
  lemma NewestAfterAt(newest: map<string, Candidate>, profile: string, family: string)
    ensures var after := NewestAfter(newest, profile);
      && (family in after <==> family in newest || InFamily(profile, family))
      && (family in after ==>
            var replaced := InFamily(profile, family)
              && (family !in newest || Older(newest[family].version, VersionOf(profile)));
            after[family] == if replaced then Candidate(VersionOf(profile), profile) else newest[family])
  {
  }

  lemma TrackedAfter(profiles: seq<string>, newest: map<string, Candidate>, profile: string, family: string)
    requires Tracks(profiles, newest)
    ensures family in NewestAfter(newest, profile) <==> HasFamily(profiles + [profile], family)
    ensures family in NewestAfter(newest, profile) ==>
      Tracked(profiles + [profile], family, NewestAfter(newest, profile)[family])
  {
    HasFamilySnoc(profiles, profile, family);
    NewestAfterAt(newest, profile, family);
    if !InFamily(profile, family) {
      if family in newest {
        NewestStays(profiles, profile, family, newest[family]);
      }
    } else if family !in newest {
      FirstOfFamily(profiles, profile, family);
    } else if Older(newest[family].version, VersionOf(profile)) {
      NewestChanges(profiles, profile, family, newest[family]);
    } else {
      NewestStays(profiles, profile, family, newest[family]);
    }
  }

  lemma TracksSnoc(profiles: seq<string>, newest: map<string, Candidate>, profile: string)
    requires Tracks(profiles, newest)
    ensures Tracks(profiles + [profile], NewestAfter(newest, profile))
  {
    forall family {
      TrackedAfter(profiles, newest, profile, family);
    }
  }

  /** One turn of the loop over the profiles. */
  method Track(newest: map<string, Candidate>, profile: string) returns (updated: map<string, Candidate>)
    ensures updated == NewestAfter(newest, profile)
  {
    match SplitLabel(profile) {
      case None => return newest;
      case Some(Label(family, version)) =>
        if family in newest {
          var ordering := CompareVersions(version, newest[family].version);
          if ordering != Greater {
            return newest;
          }
        }
        return newest[family := Candidate(version, profile)];
    }
  }

  // ----- The newest label, in terms of the labels as they are written -----

  /** At the first segment where they differ, missing ones counting as zero, the first version has the larger. */
  ghost predicate AtLeast(v: Version, w: Version) {
    forall d: nat :: AgreeBelow(v, w, d) ==> (if d < |v| then v[d] else 0) >= (if d < |w| then w[d] else 0)
  }

  lemma AtLeastMeans(v: Version, w: Version)
    ensures AtLeast(v, w) <==> !Older(v, w)
  {
    forall d: nat ensures Segment(v, d) == if d < |v| then v[d] else 0 {
    }
    forall d: nat ensures Segment(w, d) == if d < |w| then w[d] else 0 {
    }
  }

  /** The label is one of the family's, no other one is newer, and among those as new it is the first. */
  ghost predicate IsNewestLabel(profiles: seq<string>, family: string, k: nat, v: Version) {
    && k < |profiles| && IsLabelOf(profiles[k], family, v)
    && (forall j :: 0 <= j < |profiles| ==> NotNewer(profiles[j], family, v))
    && (forall j :: 0 <= j < k ==> IsOlder(profiles[j], family, v))
  }

  /** If the label is one of the family's, the version is at least its own. */
  ghost predicate NotNewer(profile: string, family: string, v: Version) {
    forall w :: IsLabelOf(profile, family, w) ==> AtLeast(v, w)
  }

  ghost predicate IsOlder(profile: string, family: string, v: Version) {
    forall w :: IsLabelOf(profile, family, w) ==> !AtLeast(w, v)
  }

  lemma NewestAgainst(profiles: seq<string>, family: string, k: nat, j: nat)
    requires IsNewest(profiles, family, k) && j < |profiles|
    ensures NotNewer(profiles[j], family, VersionOf(profiles[k]))
    ensures j < k ==> IsOlder(profiles[j], family, VersionOf(profiles[k]))
  {
    forall w | IsLabelOf(profiles[j], family, w)
      ensures AtLeast(VersionOf(profiles[k]), w) && (j < k ==> !AtLeast(w, VersionOf(profiles[k])))
    {
      SplitLabelMeans(profiles[j], family, w);
      NewestAgainstVersion(profiles, family, k, j, w);
    }
  }

  lemma NewestAgainstVersion(profiles: seq<string>, family: string, k: nat, j: nat, w: Version)
    requires IsNewest(profiles, family, k) && j < |profiles| && SplitLabel(profiles[j]) == Some(Label(family, w))
    ensures AtLeast(VersionOf(profiles[k]), w) && (j < k ==> !AtLeast(w, VersionOf(profiles[k])))
  {
    assert InFamily(profiles[j], family) && VersionOf(profiles[j]) == w;
    AtLeastMeans(VersionOf(profiles[k]), w);
    AtLeastMeans(w, VersionOf(profiles[k]));
  }

  lemma NewestIsNewestLabel(profiles: seq<string>, family: string, k: nat)
    requires IsNewest(profiles, family, k)
    ensures IsNewestLabel(profiles, family, k, VersionOf(profiles[k]))
  {
    SplitLabelMeans(profiles[k], family, VersionOf(profiles[k]));
    forall j: nat | j < |profiles|
      ensures NotNewer(profiles[j], family, VersionOf(profiles[k]))
      ensures j < k ==> IsOlder(profiles[j], family, VersionOf(profiles[k]))
    {
      NewestAgainst(profiles, family, k, j);
    }
  }

  ghost predicate HasLabel(profiles: seq<string>, family: string) {
    exists j, v :: 0 <= j < |profiles| && IsLabelOf(profiles[j], family, v)
  }

  lemma FamilyMeansLabel(profiles: seq<string>, family: string)
    ensures HasFamily(profiles, family) <==> HasLabel(profiles, family)
  {
    if HasFamily(profiles, family) {
      var j :| 0 <= j < |profiles| && InFamily(profiles[j], family);
      SplitLabelMeans(profiles[j], family, VersionOf(profiles[j]));
    }
    if HasLabel(profiles, family) {
      var j, v :| 0 <= j < |profiles| && IsLabelOf(profiles[j], family, v);
      SplitLabelMeans(profiles[j], family, v);
      assert InFamily(profiles[j], family);
    }
  }

  ghost predicate IsAliasOfLabel(profiles: seq<string>, alias: (string, string)) {
    exists k: nat, v :: IsNewestLabel(profiles, alias.0, k, v) && alias.1 == profiles[k]
  }

  /** What the aliases are, in terms of the labels as they are written. */
  ghost predicate AliasesOfLabels(profiles: seq<string>, aliases: seq<(string, string)>) {
    && (forall family :: HasAlias(aliases, family) <==> HasLabel(profiles, family) && family !in profiles)
    && (forall i :: 0 <= i < |aliases| ==> IsAliasOfLabel(profiles, aliases[i]))
  }

  lemma AliasesAreOfLabels(profiles: seq<string>, aliases: seq<(string, string)>)
    requires forall family :: HasAlias(aliases, family) <==> HasFamily(profiles, family) && family !in profiles
    requires forall i :: 0 <= i < |aliases| ==> IsAlias(profiles, aliases[i])
    ensures AliasesOfLabels(profiles, aliases)
  {
    forall family ensures HasFamily(profiles, family) <==> HasLabel(profiles, family) {
      FamilyMeansLabel(profiles, family);
    }
    forall i | 0 <= i < |aliases| ensures IsAliasOfLabel(profiles, aliases[i]) {
      var k: nat :| IsNewest(profiles, aliases[i].0, k) && aliases[i].1 == profiles[k];
      NewestIsNewestLabel(profiles, aliases[i].0, k);
    }
  }

  // ----- The final list -----

  /** Families in order, without those whose alias would shadow a profile. */
  function AliasList(profiles: seq<string>, newest: map<string, Candidate>, families: seq<string>): seq<(string, string)>
    requires forall i :: 0 <= i < |families| ==> families[i] in newest
  {
    if families == [] then []
    else
      (if families[0] in profiles then [] else [(families[0], newest[families[0]].profile)])
      + AliasList(profiles, newest, families[1..])
  }

  predicate SortedByFamily(aliases: seq<(string, string)>) {
    forall i, j :: 0 <= i < j < |aliases| ==> Precedes(aliases[i].0, aliases[j].0)
  }

  predicate HasAlias(aliases: seq<(string, string)>, family: string) {
    exists i :: 0 <= i < |aliases| && aliases[i].0 == family
  }

  lemma {:induction false} AliasEntries(profiles: seq<string>, newest: map<string, Candidate>, families: seq<string>, i: nat)
    requires forall k :: 0 <= k < |families| ==> families[k] in newest
    requires i < |AliasList(profiles, newest, families)|
    ensures var alias := AliasList(profiles, newest, families)[i];
      alias.0 in families && alias.0 !in profiles && alias.1 == newest[alias.0].profile
    decreases |families|
  {
    var head := |AliasList(profiles, newest, families)| - |AliasList(profiles, newest, families[1..])|;
    if i >= head {
      AliasEntries(profiles, newest, families[1..], i - head);
    }
  }

  lemma {:induction false} AliasForEach(profiles: seq<string>, newest: map<string, Candidate>, families: seq<string>, family: string)
    requires forall k :: 0 <= k < |families| ==> families[k] in newest
    requires family in families && family !in profiles
    ensures HasAlias(AliasList(profiles, newest, families), family)
    decreases |families|
  {
    var aliases, rest := AliasList(profiles, newest, families), AliasList(profiles, newest, families[1..]);
    if families[0] == family {
      assert aliases[0].0 == family;
    } else {
      AliasForEach(profiles, newest, families[1..], family);
      var i :| 0 <= i < |rest| && rest[i].0 == family;
      assert aliases[|aliases| - |rest| + i] == rest[i];
    }
  }

  lemma {:induction false} AliasListSorted(profiles: seq<string>, newest: map<string, Candidate>, families: seq<string>)
    requires forall k :: 0 <= k < |families| ==> families[k] in newest
    requires StrictlySorted(families)
    ensures SortedByFamily(AliasList(profiles, newest, families))
    decreases |families|
  {
    if families != [] {
      var rest := AliasList(profiles, newest, families[1..]);
      AliasListSorted(profiles, newest, families[1..]);
      forall j | 0 <= j < |rest| ensures Precedes(families[0], rest[j].0) {
        AliasEntries(profiles, newest, families[1..], j);
        var k :| 0 <= k < |families[1..]| && families[1..][k] == rest[j].0;
        assert families[k + 1] == rest[j].0;
      }
    }
  }

  ghost predicate IsAlias(profiles: seq<string>, alias: (string, string)) {
    exists k: nat :: IsNewest(profiles, alias.0, k) && alias.1 == profiles[k]
  }

  /**
   The aliases come strictly sorted by family. Exactly the families of some profile that are not
   themselves profile names have one, and it is the first newest profile of exactly that family.
   */
  method DeriveAliases(profiles: seq<string>) returns (aliases: seq<(string, string)>)
    ensures SortedByFamily(aliases)
    ensures forall family :: HasAlias(aliases, family) <==> HasFamily(profiles, family) && family !in profiles
    ensures forall i :: 0 <= i < |aliases| ==> IsAlias(profiles, aliases[i])
    ensures AliasesOfLabels(profiles, aliases)
  {
    var newest: map<string, Candidate> := map[];
    for i := 0 to |profiles|
      invariant Tracks(profiles[..i], newest)
    {
      TracksSnoc(profiles[..i], newest, profiles[i]);
      newest := Track(newest, profiles[i]);
      assert profiles[..i + 1] == profiles[..i] + [profiles[i]];
    }
    assert profiles[..|profiles|] == profiles;
    var families := SortedKeys(newest.Keys);
    assert forall k :: 0 <= k < |families| ==> families[k] in families;
    aliases := AliasList(profiles, newest, families);
    AliasListSorted(profiles, newest, families);
    AliasesAreRight(profiles, newest, families);
    AliasesAreOfLabels(profiles, aliases);
  }

  lemma AliasesAreRight(profiles: seq<string>, newest: map<string, Candidate>, families: seq<string>)
    requires Tracks(profiles, newest)
    requires forall k :: 0 <= k < |families| ==> families[k] in newest
    requires forall family :: family in newest ==> family in families
    ensures var aliases := AliasList(profiles, newest, families);
      && (forall family :: HasAlias(aliases, family) <==> HasFamily(profiles, family) && family !in profiles)
      && (forall i :: 0 <= i < |aliases| ==> IsAlias(profiles, aliases[i]))
  {
    var aliases := AliasList(profiles, newest, families);
    forall i | 0 <= i < |aliases| ensures IsAlias(profiles, aliases[i])
      && HasFamily(profiles, aliases[i].0) && aliases[i].0 !in profiles
    {
      AliasEntries(profiles, newest, families, i);
      assert Tracked(profiles, aliases[i].0, newest[aliases[i].0]);
    }
    forall family | HasFamily(profiles, family) && family !in profiles ensures HasAlias(aliases, family) {
      AliasForEach(profiles, newest, families, family);
    }
  }
}
