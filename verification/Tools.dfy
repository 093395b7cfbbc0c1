// internal/tools/tools.go: items searches and the kernel version encoding.

module Tools {
  import opened Options
  import opened Text
  import opened Constants

  method ArrayContains(items: seq<string>, str: string) returns (found: bool)
    ensures found <==> str in items
  {
    for i := 0 to |items|
      invariant str !in items[..i]
    {
      if items[i] == str {
        return true;
      }
    }
    return false;
  }

  predicate PrefixedByAny(items: seq<string>, str: string) {
    exists k | 0 <= k < |items| :: HasPrefix(str, items[k])
  }

  lemma PrefixedExactly(items: seq<string>, str: string)
    ensures PrefixedByAny(items, str) <==> exists p | p in items :: p <= str
  {
    forall k | 0 <= k < |items| ensures HasPrefix(str, items[k]) <==> items[k] <= str {
    }
    if PrefixedByAny(items, str) {
      var k :| 0 <= k < |items| && HasPrefix(str, items[k]);
      assert items[k] in items;
    }
  }

  method ArrayContainsPrefix(items: seq<string>, str: string) returns (found: bool)
    ensures found <==> PrefixedByAny(items, str)
    ensures found <==> exists k | 0 <= k < |items| :: items[k] <= str
  {
    for i := 0 to |items|
      invariant !PrefixedByAny(items[..i], str)
    {
      if HasPrefix(str, items[i]) {
        return true;
      }
      assert forall k | 0 <= k < i :: items[..i][k] == items[..i + 1][k];
    }
    assert items[..|items|] == items;
    return false;
  }

  // ---------- Kernel version ----------

  /** fmt's %04s: zeros on the left up to four characters; longer text is kept whole. */
  function Pad4(s: string): (r: string)
    ensures |r| == if |s| < 4 then 4 else |s|
    ensures AllDigits(s) ==> AllDigits(r)
  {
    if |s| < 4 then "0000"[..4 - |s|] + s else s
  }

  /** All components, padded and written one after the other. */
  function Padded(parts: seq<string>): string {
    if parts == [] then "" else Padded(parts[..|parts| - 1]) + Pad4(parts[|parts| - 1])
  }

  /** The numeric components a version text is read as. */
  function VersionParts(version: string): seq<string> {
    Split(Split(Without(version, '+'), "-")[0], ".")
  }

  function KernelInt(version: string): Option<int> {
    Atoi(Padded(VersionParts(version)))
  }

  /** None stands for the parse error, with which the source returns -1. */
  method KernelVersionInt(version: string) returns (value: Option<int>)
    ensures value == KernelInt(version)
  {
    var stripped := Without(version, '+');
    stripped := Split(stripped, "-")[0];
    var split := Split(stripped, ".");
    var padded := "";
    for i := 0 to |split|
      invariant padded == Padded(split[..i])
    {
      assert split[..i + 1][..i] == split[..i];
      padded := padded + Pad4(split[i]);
    }
    assert split[..|split|] == split;
    value := Atoi(padded);
  }

  /** A component as the kernel writes it: one to four digits. */
  predicate Component(s: string) {
    1 <= |s| <= 4 && AllDigits(s)
  }

  /** `version` spells the components, with any '+' signs added and any "-suffix" behind them. */
  ghost predicate Spells(version: string, parts: seq<string>) {
    && parts != []
    && (forall k | 0 <= k < |parts| :: Component(parts[k]))
    && (|| Without(version, '+') == Join(parts, ".")
        || exists suffix :: Without(version, '+') == Join(parts, ".") + "-" + suffix)
  }

  function Values(parts: seq<string>): (v: seq<int>)
    requires forall k | 0 <= k < |parts| :: Component(parts[k])
    ensures |v| == |parts|
    ensures forall k | 0 <= k < |v| :: Component(parts[k]) && v[k] == Decimal(parts[k])
    ensures forall k | 0 <= k < |v| :: 0 <= v[k] < 10000
  {
    if parts == [] then []
    else
      ComponentBound(parts[|parts| - 1]);
      Values(parts[..|parts| - 1]) + [Decimal(parts[|parts| - 1])]
  }

  /** The components as digits in base 10000. */
  function Base10000(v: seq<int>): int {
    if v == [] then 0 else Base10000(v[..|v| - 1]) * 10000 + v[|v| - 1]
  }

  ghost predicate LexicographicallyLess(a: seq<int>, b: seq<int>)
    requires |a| == |b|
  {
    exists k | 0 <= k < |a| :: a[..k] == b[..k] && a[k] < b[k]
  }

  lemma {:induction false} DecimalAppend(a: string, b: string)
    requires AllDigits(a) && AllDigits(b)
    ensures Decimal(a + b) == Decimal(a) * Pow10(|b|) + Decimal(b)
  {
    if b == "" {
      assert a + b == a;
    } else {
      var front := b[..|b| - 1];
      DecimalAppend(a, front);
      assert (a + b)[..|a + b| - 1] == a + front;
      var p := Pow10(|front|);
      assert Pow10(|b|) == 10 * p;
      assert Decimal(a) * (10 * p) == (Decimal(a) * p) * 10;
    }
  }

  lemma {:induction false} DecimalBound(s: string)
    requires AllDigits(s)
    ensures 0 <= Decimal(s) < Pow10(|s|)
  {
    if s != "" {
      DecimalBound(s[..|s| - 1]);
    }
  }

  lemma {:induction false} ZerosDecimal(zeros: string)
    requires forall k | 0 <= k < |zeros| :: zeros[k] == '0'
    ensures AllDigits(zeros) && Decimal(zeros) == 0
  {
    if zeros != "" {
      ZerosDecimal(zeros[..|zeros| - 1]);
    }
  }

  lemma ComponentBound(s: string)
    requires Component(s)
    ensures 0 <= Decimal(s) < 10000 && Decimal(Pad4(s)) == Decimal(s)
  {
    var zeros := Pad4(s)[..|Pad4(s)| - |s|];
    DecimalBound(Pad4(s));
    Pow10Values();
    assert zeros + s == Pad4(s);
    DecimalAppend(zeros, s);
    ZerosDecimal(zeros);
  }

  lemma {:induction false} PaddedValue(parts: seq<string>)
    requires forall k | 0 <= k < |parts| :: Component(parts[k])
    ensures AllDigits(Padded(parts)) && Decimal(Padded(parts)) == Base10000(Values(parts))
  {
    if parts != [] {
      var front, last := parts[..|parts| - 1], parts[|parts| - 1];
      PaddedValue(front);
      ComponentBound(last);
      DecimalAppend(Padded(front), Pad4(last));
      Pow10Values();
      assert Values(parts)[..|parts| - 1] == Values(front);
    }
  }

  lemma {:induction false} JoinCharset(parts: seq<string>)
    requires forall k | 0 <= k < |parts| :: Component(parts[k])
    ensures '-' !in Join(parts, ".")
  {
    if |parts| > 1 {
      JoinCharset(parts[1..]);
    }
    if parts != [] {
      assert forall i | 0 <= i < |parts[0]| :: IsDigit(parts[0][i]);
    }
  }

  lemma SpelledParts(version: string, parts: seq<string>)
    requires Spells(version, parts)
    ensures VersionParts(version) == parts
  {
    var text := Join(parts, ".");
    JoinCharset(parts);
    if Without(version, '+') == text {
      SplitWhole(text, '-');
    } else {
      var suffix :| Without(version, '+') == text + "-" + suffix;
      SplitPeelChar(text, '-', suffix);
    }
    forall k | 0 <= k < |parts| ensures '.' !in parts[k] {
      assert forall i | 0 <= i < |parts[k]| :: IsDigit(parts[k][i]);
    }
    SplitJoin(parts, '.');
  }

  /** The encoding is the base-10000 value of the components, and an error exactly beyond int64. */
  lemma KernelIntValue(version: string, parts: seq<string>)
    requires Spells(version, parts)
    ensures var value := Base10000(Values(parts));
            KernelInt(version) == if value <= INT64_MAX then Some(value) else None
  {
    SpelledParts(version, parts);
    PaddedValue(parts);
    AtoiOfDigits(Padded(parts));
  }

  lemma {:induction false} Base10000Bound(v: seq<int>)
    requires forall k | 0 <= k < |v| :: 0 <= v[k] < 10000
    ensures 0 <= Base10000(v) < Pow10(4 * |v|)
  {
    if v != [] {
      var front := v[..|v| - 1];
      Base10000Bound(front);
      Pow10Four(4 * |front|);
    }
  }

  /** Up to four components always fit an int64. */
  lemma FourComponentsFit(version: string, parts: seq<string>)
    requires Spells(version, parts) && |parts| <= 4
    ensures KernelInt(version) == Some(Base10000(Values(parts)))
  {
    KernelIntValue(version, parts);
    Base10000Bound(Values(parts));
    Pow10Values();
    Pow10Monotone(4 * |parts|, 16);
  }

  lemma {:induction false} Base10000Order(a: seq<int>, b: seq<int>)
    requires |a| == |b|
    requires forall k | 0 <= k < |a| :: 0 <= a[k] < 10000 && 0 <= b[k] < 10000
    ensures Base10000(a) < Base10000(b) <==> LexicographicallyLess(a, b)
    ensures Base10000(a) == Base10000(b) <==> a == b
  {
    if a != [] {
      var n := |a| - 1;
      var fa, fb := a[..n], b[..n];
      Base10000Order(fa, fb);
      assert a == fa + [a[n]] && b == fb + [b[n]];
      LexicographicSplit(a, b);
    }
  }

  lemma LexicographicSplit(a: seq<int>, b: seq<int>)
    requires |a| == |b| > 0
    ensures var n := |a| - 1;
            LexicographicallyLess(a, b)
            <==> LexicographicallyLess(a[..n], b[..n]) || (a[..n] == b[..n] && a[n] < b[n])
  {
    var n := |a| - 1;
    forall k | 0 <= k < n ensures a[..n][..k] == a[..k] && b[..n][..k] == b[..k] {
    }
    if LexicographicallyLess(a[..n], b[..n]) {
      var k :| 0 <= k < n && a[..n][..k] == b[..n][..k] && a[..n][k] < b[..n][k];
      assert a[..k] == b[..k] && a[k] < b[k];
    }
    if LexicographicallyLess(a, b) {
      var k :| 0 <= k < |a| && a[..k] == b[..k] && a[k] < b[k];
      if k < n {
        assert a[..n][..k] == b[..n][..k] && a[..n][k] < b[..n][k];
      }
    }
  }

  /**
   The integer order is the version order for versions with equally many components
   (and errors cannot occur up to four components).
   */
  lemma KernelOrder(v1: string, p1: seq<string>, v2: string, p2: seq<string>)
    requires Spells(v1, p1) && Spells(v2, p2) && |p1| == |p2| <= 4
    ensures KernelInt(v1).Some? && KernelInt(v2).Some?
    ensures KernelInt(v1).value < KernelInt(v2).value <==> LexicographicallyLess(Values(p1), Values(p2))
  {
    FourComponentsFit(v1, p1);
    FourComponentsFit(v2, p2);
    Base10000Order(Values(p1), Values(p2));
  }

  lemma MinimumSpelled()
    ensures Spells(MINIMUM_LINUX, ["4", "18", "0"]) && Values(["4", "18", "0"]) == [4, 18, 0]
  {
    var minimum := ["4", "18", "0"];
    assert minimum[1..] == ["18", "0"] && ["18", "0"][1..] == ["0"];
    assert Join(minimum, ".") == MINIMUM_LINUX;
    SmallDecimals();
    assert Values(minimum)[0] == 4 && Values(minimum)[1] == 18 && Values(minimum)[2] == 0;
  }

  lemma SmallDecimals()
    ensures Decimal("4") == 4 && Decimal("18") == 18 && Decimal("0") == 0
  {
    assert "4"[..0] == "" && "0"[..0] == "" && "18"[..1] == "1" && "1"[..0] == "";
    assert Decimal("1") == 1;
  }

  /** checkHost accepts a three-part kernel version exactly when it is not below 4.18.0. */
  lemma MinimumKernelCheck(version: string, parts: seq<string>)
    requires Spells(version, parts) && |parts| == 3
    ensures KernelInt(version).Some? && KernelInt(MINIMUM_LINUX).Some?
    ensures KernelInt(version).value < KernelInt(MINIMUM_LINUX).value
            <==> LexicographicallyLess(Values(parts), [4, 18, 0])
  {
    MinimumSpelled();
    KernelOrder(version, parts, MINIMUM_LINUX, ["4", "18", "0"]);
  }

  lemma Base10000Lower(v: seq<int>)
    requires v != [] && v[0] > 0 && forall k | 0 <= k < |v| :: 0 <= v[k] < 10000
    ensures Base10000(v) >= Pow10(4 * (|v| - 1))
    decreases |v|
  {
    if |v| > 1 {
      var front := v[..|v| - 1];
      Base10000Lower(front);
      Pow10Four(4 * (|front| - 1));
    } else {
      assert v[..0] == [];
    }
  }

  lemma {:induction false} Pow10Monotone(j: nat, k: nat)
    requires j <= k
    ensures Pow10(j) <= Pow10(k)
    decreases k
  {
    if j < k {
      Pow10Monotone(j, k - 1);
    }
  }

  lemma ShorterIsSmaller(a: seq<int>, b: seq<int>)
    requires |a| < |b| && b[0] > 0
    requires forall k | 0 <= k < |a| :: 0 <= a[k] < 10000
    requires forall k | 0 <= k < |b| :: 0 <= b[k] < 10000
    ensures Base10000(a) < Base10000(b)
  {
    Base10000Bound(a);
    Base10000Lower(b);
    Pow10Monotone(4 * |a|, 4 * (|b| - 1));
  }

  // ---------- Versions of different lengths ----------

  function Zeros(n: nat): (z: seq<int>)
    ensures |z| == n && forall k | 0 <= k < n :: z[k] == 0
  {
    seq(n, _ => 0)
  }

  /** The components as version numbers mean them: a missing component is a zero behind the others. */
  function FourParts(v: seq<int>): (w: seq<int>)
    requires |v| <= 4
    ensures |w| == 4 && w[..|v|] == v
  {
    v + Zeros(4 - |v|)
  }

  /** The components as the encoding aligns them: the zeros come in front. */
  function RightAligned(v: seq<int>): (w: seq<int>)
    requires |v| <= 4
    ensures |w| == 4 && w[4 - |v|..] == v
  {
    Zeros(4 - |v|) + v
  }

  /** The order of versions of up to four components. */
  ghost predicate VersionLess(a: seq<int>, b: seq<int>)
    requires |a| <= 4 && |b| <= 4
  {
    LexicographicallyLess(FourParts(a), FourParts(b))
  }

  lemma {:induction false} ZerosInFront(n: nat, v: seq<int>)
    ensures Base10000(Zeros(n) + v) == Base10000(v)
    decreases n + |v|
  {
    var w := Zeros(n) + v;
    if v != [] {
      assert w[..|w| - 1] == Zeros(n) + v[..|v| - 1];
      ZerosInFront(n, v[..|v| - 1]);
    } else if n > 0 {
      assert w[..n - 1] == Zeros(n - 1) + v;
      ZerosInFront(n - 1, v);
    } else {
      assert w == v;
    }
  }

  lemma RightAlignedBase(v: seq<int>)
    requires |v| <= 4
    ensures Base10000(RightAligned(v)) == Base10000(v)
  {
    ZerosInFront(4 - |v|, v);
  }

  lemma RightAlignedOrder(a: seq<int>, b: seq<int>)
    requires |a| <= 4 && |b| <= 4
    requires (forall k | 0 <= k < |a| :: 0 <= a[k] < 10000) && (forall k | 0 <= k < |b| :: 0 <= b[k] < 10000)
    ensures Base10000(a) < Base10000(b) <==> LexicographicallyLess(RightAligned(a), RightAligned(b))
  {
    RightAlignedBase(a);
    RightAlignedBase(b);
    Base10000Order(RightAligned(a), RightAligned(b));
  }

  /** What the encoding really compares, for any two versions of up to four components. */
  lemma ComparisonIsRightAligned(v1: string, p1: seq<string>, v2: string, p2: seq<string>)
    requires Spells(v1, p1) && Spells(v2, p2) && |p1| <= 4 && |p2| <= 4
    ensures KernelInt(v1).Some? && KernelInt(v2).Some?
    ensures KernelInt(v1).value < KernelInt(v2).value
            <==> LexicographicallyLess(RightAligned(Values(p1)), RightAligned(Values(p2)))
  {
    FourComponentsFit(v1, p1);
    FourComponentsFit(v2, p2);
    RightAlignedOrder(Values(p1), Values(p2));
  }

  /** Between versions of different lengths the one with fewer components always compares as the older. */
  lemma FewerComponentsCompareOlder(v1: string, p1: seq<string>, v2: string, p2: seq<string>)
    requires Spells(v1, p1) && Spells(v2, p2) && |p1| < |p2| <= 4
    requires Decimal(p2[0]) > 0
    ensures KernelInt(v1).Some? && KernelInt(v2).Some?
    ensures KernelInt(v1).value < KernelInt(v2).value
  {
    FourComponentsFit(v1, p1);
    FourComponentsFit(v2, p2);
    ShorterIsSmaller(Values(p1), Values(p2));
  }

  /** For versions that start above zero the comparison looks at the number of components first. */
  lemma ComparisonExactly(v1: string, p1: seq<string>, v2: string, p2: seq<string>)
    requires Spells(v1, p1) && Spells(v2, p2) && |p1| <= 4 && |p2| <= 4
    requires Decimal(p1[0]) > 0 && Decimal(p2[0]) > 0
    ensures KernelInt(v1).Some? && KernelInt(v2).Some?
    ensures KernelInt(v1).value < KernelInt(v2).value
            <==> |p1| < |p2| || (|p1| == |p2| && LexicographicallyLess(Values(p1), Values(p2)))
  {
    if |p1| < |p2| {
      FewerComponentsCompareOlder(v1, p1, v2, p2);
    } else if |p2| < |p1| {
      FewerComponentsCompareOlder(v2, p2, v1, p1);
    } else {
      KernelOrder(v1, p1, v2, p2);
    }
  }

  /** A version is older than a longer one if its components are, or if they are a prefix and more than zeros follow. */
  lemma ShorterVersionLess(a: seq<int>, b: seq<int>)
    requires |a| <= |b| <= 4 && forall k | 0 <= k < |b| :: b[k] >= 0
    ensures VersionLess(a, b)
            <==> LexicographicallyLess(a, b[..|a|]) || (a == b[..|a|] && exists k | |a| <= k < |b| :: b[k] > 0)
  {
    var x, y := FourParts(a), FourParts(b);
    if VersionLess(a, b) {
      var k :| 0 <= k < 4 && x[..k] == y[..k] && x[k] < y[k];
      if k < |a| {
        assert a[..k] == x[..k] && b[..|a|][..k] == y[..k];
      } else {
        assert a == x[..k][..|a|] && b[..|a|] == y[..k][..|a|];
      }
    }
    if LexicographicallyLess(a, b[..|a|]) {
      var k :| 0 <= k < |a| && a[..k] == b[..|a|][..k] && a[k] < b[..|a|][k];
      assert x[..k] == a[..k] && y[..k] == b[..|a|][..k];
      assert x[k] < y[k];
    }
    if a == b[..|a|] && exists k | |a| <= k < |b| :: b[k] > 0 {
      FirstPositive(a, b);
    }
  }

  lemma FirstPositive(a: seq<int>, b: seq<int>)
    requires |a| <= |b| <= 4 && (forall k | 0 <= k < |b| :: b[k] >= 0)
    requires a == b[..|a|] && exists k | |a| <= k < |b| :: b[k] > 0
    ensures VersionLess(a, b)
  {
    var k := |a|;
    while b[k] == 0
      invariant |a| <= k < |b| && forall i | |a| <= i < k :: b[i] == 0
      invariant exists i | k <= i < |b| :: b[i] > 0
      decreases |b| - k
    {
      k := k + 1;
    }
    assert FourParts(a)[..k] == FourParts(b)[..k];
  }

  /** A version is newer than a shorter one's continuation by zeros if one of the shared components is. */
  lemma LongerVersionLess(a: seq<int>, b: seq<int>)
    requires |b| <= |a| <= 4 && forall k | 0 <= k < |a| :: a[k] >= 0
    ensures VersionLess(a, b) <==> LexicographicallyLess(a[..|b|], b)
  {
    var x, y := FourParts(a), FourParts(b);
    if VersionLess(a, b) {
      var k :| 0 <= k < 4 && x[..k] == y[..k] && x[k] < y[k];
      assert a[..|b|][..k] == x[..k] && b[..k] == y[..k];
    }
    if LexicographicallyLess(a[..|b|], b) {
      var k :| 0 <= k < |b| && a[..|b|][..k] == b[..k] && a[..|b|][k] < b[k];
      assert x[..k] == a[..|b|][..k] && y[..k] == b[..k];
      assert x[k] < y[k];
    }
  }

  /**
   When the comparison is right, for all versions of up to four components that start above zero: always for equally
   many components; otherwise the shared components of the longer version have to decide for it, and if the longer
   version is on the right they may also be equal as long as more than zeros follow.
   */
  ghost predicate Comparable(a: seq<int>, b: seq<int>) {
    || |a| == |b|
    || (|a| < |b| && (|| LexicographicallyLess(a, b[..|a|])
                      || (a == b[..|a|] && exists k | |a| <= k < |b| :: b[k] > 0)))
    || (|b| < |a| && !LexicographicallyLess(a[..|b|], b))
  }

  lemma ComparisonAgreesExactly(v1: string, p1: seq<string>, v2: string, p2: seq<string>)
    requires Spells(v1, p1) && Spells(v2, p2) && |p1| <= 4 && |p2| <= 4
    requires Decimal(p1[0]) > 0 && Decimal(p2[0]) > 0
    ensures KernelInt(v1).Some? && KernelInt(v2).Some?
    ensures (KernelInt(v1).value < KernelInt(v2).value <==> VersionLess(Values(p1), Values(p2)))
            <==> Comparable(Values(p1), Values(p2))
  {
    var a, b := Values(p1), Values(p2);
    ComparisonExactly(v1, p1, v2, p2);
    if |a| <= |b| {
      ShorterVersionLess(a, b);
      assert b[..|b|] == b;
    } else {
      LongerVersionLess(a, b);
    }
  }

  lemma OneComponentLess(a: int, b: int)
    ensures LexicographicallyLess([a], [b]) <==> a < b
  {
    assert [a][..0] == [b][..0];
  }

  const MINIMUM: seq<int> := [4, 18, 0]

  lemma ComparableWithMinimum(v: seq<int>)
    requires 1 <= |v| <= 4
    ensures Comparable(v, MINIMUM) <==>
            || |v| == 3
            || (|v| == 1 && v[0] <= 4)
            || (|v| == 2 && LexicographicallyLess(v, [4, 18]))
            || (|v| == 4 && !LexicographicallyLess(v[..3], MINIMUM))
  {
    assert MINIMUM[..1] == [4] && MINIMUM[..2] == [4, 18];
    assert MINIMUM[1] > 0;
    if |v| == 1 {
      assert v == [v[0]];
      OneComponentLess(v[0], 4);
    }
  }

  /**
   checkHost for versions of one to four components: what it accepts, and when that is right, that is, when it accepts
   exactly the versions that are not below 4.18.0.
   */
  lemma CheckHostExactly(version: string, parts: seq<string>)
    requires Spells(version, parts) && |parts| <= 4 && Decimal(parts[0]) > 0
    ensures KernelInt(version).Some? && KernelInt(MINIMUM_LINUX).Some?
    ensures var v := Values(parts);
            var accepted := KernelInt(version).value >= KernelInt(MINIMUM_LINUX).value;
      && (accepted <==> |v| == 4 || (|v| == 3 && !LexicographicallyLess(v, MINIMUM)))
      && ((accepted <==> !VersionLess(v, MINIMUM)) <==>
            || |v| == 3
            || (|v| == 1 && v[0] <= 4)
            || (|v| == 2 && LexicographicallyLess(v, [4, 18]))
            || (|v| == 4 && !LexicographicallyLess(v[..3], MINIMUM)))
  {
    MinimumSpelled();
    SmallDecimals();
    ComparisonExactly(version, parts, MINIMUM_LINUX, ["4", "18", "0"]);
    ComparisonAgreesExactly(version, parts, MINIMUM_LINUX, ["4", "18", "0"]);
    ComparableWithMinimum(Values(parts));
  }

  lemma TwoParts(a: string, b: string)
    requires Component(a) && Component(b)
    ensures Spells(a + "." + b, [a, b]) && Values([a, b]) == [Decimal(a), Decimal(b)]
  {
    var version := a + "." + b;
    assert [a, b][1..] == [b];
    assert Join([a, b], ".") == version;
    assert '+' !in version;
  }

  /** The check refuses 5.15 although it is newer than 4.18.0. */
  lemma NewerVersionRefused()
    ensures Spells("5.15", ["5", "15"]) && Values(["5", "15"]) == [5, 15]
    ensures KernelInt("5.15").Some? && KernelInt(MINIMUM_LINUX).Some?
    ensures KernelInt("5.15").value < KernelInt(MINIMUM_LINUX).value
    ensures VersionLess(MINIMUM, [5, 15]) && !VersionLess([5, 15], MINIMUM)
  {
    assert "5"[..0] == "" && "15"[..1] == "1" && "1"[..0] == "";
    assert Decimal("1") == 1 && Decimal("15") == 15 && Decimal("5") == 5;
    TwoParts("5", "15");
    assert "5" + "." + "15" == "5.15";
    CheckHostExactly("5.15", ["5", "15"]);
    FiveIsNewer();
  }

  lemma FiveIsNewer()
    ensures VersionLess(MINIMUM, [5, 15]) && !VersionLess([5, 15], MINIMUM)
  {
    assert FourParts(MINIMUM)[..0] == FourParts([5, 15])[..0];
    assert FourParts(MINIMUM)[0] == 4 && FourParts([5, 15])[0] == 5;
  }

  lemma FourPartsSpelled(a: string, b: string, c: string, d: string)
    requires Component(a) && Component(b) && Component(c) && Component(d)
    ensures Spells(a + "." + (b + "." + (c + "." + d)), [a, b, c, d])
    ensures Values([a, b, c, d]) == [Decimal(a), Decimal(b), Decimal(c), Decimal(d)]
  {
    var version := a + "." + (b + "." + (c + "." + d));
    assert [a, b, c, d][1..] == [b, c, d] && [b, c, d][1..] == [c, d] && [c, d][1..] == [d];
    assert Join([c, d], ".") == c + "." + d;
    assert Join([b, c, d], ".") == b + "." + (c + "." + d);
    assert Join([a, b, c, d], ".") == version;
    assert '+' !in version;
  }

  /** The check accepts 4.17.0.1 although it is older than 4.18.0. */
  lemma OlderVersionAccepted()
    ensures Spells("4.17.0.1", ["4", "17", "0", "1"]) && Values(["4", "17", "0", "1"]) == [4, 17, 0, 1]
    ensures KernelInt("4.17.0.1").Some? && KernelInt(MINIMUM_LINUX).Some?
    ensures KernelInt("4.17.0.1").value >= KernelInt(MINIMUM_LINUX).value
    ensures VersionLess([4, 17, 0, 1], MINIMUM)
  {
    SmallDecimals();
    assert "1"[..0] == "" && "17"[..1] == "1";
    assert Decimal("1") == 1 && Decimal("17") == 17;
    FourPartsSpelled("4", "17", "0", "1");
    assert "4" + "." + ("17" + "." + ("0" + "." + "1")) == "4.17.0.1";
    CheckHostExactly("4.17.0.1", ["4", "17", "0", "1"]);
    SeventeenIsOlder();
  }

  lemma SeventeenIsOlder()
    ensures VersionLess([4, 17, 0, 1], MINIMUM)
  {
    assert FourParts([4, 17, 0, 1])[..1] == FourParts(MINIMUM)[..1];
    assert FourParts([4, 17, 0, 1])[1] == 17 && FourParts(MINIMUM)[1] == 18;
  }
}
