// The Go string operations the plugin relies on: searching, splitting, joining,
// removing spaces, and the decimal printing and parsing of strconv.

module Options {
  datatype Option<+T> = None | Some(value: T)
}

module Sequences {
  lemma ConcatAssoc<T>(a: seq<T>, b: seq<T>, c: seq<T>)
    ensures (a + b) + c == a + (b + c)
  {
  }

  lemma AppendTwo<T>(a: seq<T>, x: T, y: T)
    ensures (a + [x]) + [y] == a + [x, y]
  {
  }

  lemma PrependToTwo<T>(x: T, y: T, z: T)
    ensures [x] + [y, z] == [x, y, z]
  {
  }

  lemma PrependToThree<T>(w: T, x: T, y: T, z: T)
    ensures [w] + [x, y, z] == [w, x, y, z]
  {
  }
}

module Text {
  import opened Options
  import opened Sequences

  const INT64_MAX := 0x7FFF_FFFF_FFFF_FFFF
  const INT64_MIN := -0x8000_0000_0000_0000

  // ---------- Searching ----------

  predicate HasPrefix(s: string, prefix: string) {
    |prefix| <= |s| && s[..|prefix|] == prefix
  }

  predicate OccursAt(s: string, sub: string, i: nat) {
    i + |sub| <= |s| && s[i..i + |sub|] == sub
  }

  predicate Contains(s: string, sub: string) {
    exists i: nat | i <= |s| :: OccursAt(s, sub, i)
  }

  lemma ContainsExactly(s: string, sub: string)
    ensures Contains(s, sub) <==> exists a, b :: s == a + sub + b
  {
    if Contains(s, sub) {
      var i: nat :| i <= |s| && OccursAt(s, sub, i);
      assert s == s[..i] + sub + s[i + |sub|..];
    }
    forall a, b | s == a + sub + b ensures Contains(s, sub) {
      assert s[|a|..|a| + |sub|] == sub;
      assert OccursAt(s, sub, |a|);
    }
  }

  /** The first position of `sep` in `s`. */
  function Index(s: string, sep: string): (r: Option<nat>)
    ensures r.None? <==> !Contains(s, sep)
    ensures r.Some? ==> OccursAt(s, sep, r.value) && forall j: nat | j < r.value :: !OccursAt(s, sep, j)
  {
    IndexFrom(s, sep, 0)
  }

  function IndexFrom(s: string, sep: string, from: nat): (r: Option<nat>)
    requires from <= |s| + 1
    ensures r.None? <==> forall i: nat | from <= i <= |s| :: !OccursAt(s, sep, i)
    ensures r.Some? ==> from <= r.value && OccursAt(s, sep, r.value)
    ensures r.Some? ==> forall j: nat | from <= j < r.value :: !OccursAt(s, sep, j)
    decreases |s| + 1 - from
  {
    if from == |s| + 1 then None
    else if OccursAt(s, sep, from) then Some(from)
    else IndexFrom(s, sep, from + 1)
  }

  lemma OccursInPrefix(s: string, n: nat, sub: string, i: nat)
    requires i + |sub| <= n <= |s|
    ensures OccursAt(s[..n], sub, i) <==> OccursAt(s, sub, i)
  {
    assert s[..n][i..i + |sub|] == s[i..i + |sub|];
  }

  lemma OccursOne(s: string, c: char, i: nat)
    requires i < |s|
    ensures OccursAt(s, [c], i) <==> s[i] == c
  {
    assert s[i..i + 1] == [s[i]];
  }

  lemma OccursTwo(s: string, c: char, d: char, i: nat)
    requires i + 1 < |s|
    ensures OccursAt(s, [c, d], i) <==> s[i] == c && s[i + 1] == d
  {
    assert s[i..i + 2] == [s[i], s[i + 1]];
  }

  // ---------- Splitting and joining ----------

  function Split(s: string, sep: string): (parts: seq<string>)
    requires sep != ""
    ensures parts != []
  {
    match Index(s, sep)
    case None => [s]
    case Some(i) => [s[..i]] + Split(s[i + |sep|..], sep)
  }

  function Join(parts: seq<string>, sep: string): string {
    if parts == [] then ""
    else if |parts| == 1 then parts[0]
    else parts[0] + sep + Join(parts[1..], sep)
  }

  lemma JoinCons(first: string, rest: seq<string>, sep: string)
    requires rest != []
    ensures Join([first] + rest, sep) == first + sep + Join(rest, sep)
  {
    assert ([first] + rest)[1..] == rest;
  }

  lemma {:induction false} JoinSplit(s: string, sep: string)
    requires sep != ""
    ensures Join(Split(s, sep), sep) == s
    decreases |s|
  {
    match Index(s, sep)
    case None =>
    case Some(i) =>
      var rest := s[i + |sep|..];
      JoinSplit(rest, sep);
      JoinCons(s[..i], Split(rest, sep), sep);
      assert s == s[..i] + s[i..i + |sep|] + rest;
  }

  predicate AllClean(parts: seq<string>, sep: string) {
    forall k | 0 <= k < |parts| :: !Contains(parts[k], sep)
  }

  lemma AllCleanCons(first: string, rest: seq<string>, sep: string)
    requires !Contains(first, sep) && AllClean(rest, sep)
    ensures AllClean([first] + rest, sep)
  {
  }

  lemma BeforeFirstIsClean(s: string, sep: string, k: nat)
    requires k <= |s| && forall j: nat | j < k :: !OccursAt(s, sep, j)
    requires sep != ""
    ensures !Contains(s[..k], sep)
  {
    forall j: nat | j + |sep| <= k ensures !OccursAt(s[..k], sep, j) {
      OccursInPrefix(s, k, sep, j);
    }
  }

  /** No piece of a split contains the separator. */
  lemma {:induction false} SplitPiecesClean(s: string, sep: string)
    requires sep != ""
    ensures AllClean(Split(s, sep), sep)
    decreases |s|
  {
    match Index(s, sep)
    case None =>
      assert Split(s, sep) == [s];
    case Some(i) =>
      var rest := Split(s[i + |sep|..], sep);
      SplitPiecesClean(s[i + |sep|..], sep);
      BeforeFirstIsClean(s, sep, i);
      AllCleanCons(s[..i], rest, sep);
      assert Split(s, sep) == [s[..i]] + rest;
  }

  lemma FirstIndex(s: string, sep: string, k: nat)
    requires OccursAt(s, sep, k)
    requires forall j: nat | j < k :: !OccursAt(s, sep, j)
    ensures Index(s, sep) == Some(k)
  {
    assert Contains(s, sep);
  }

  lemma SplitAt(s: string, sep: string, k: nat)
    requires sep != "" && OccursAt(s, sep, k)
    requires forall j: nat | j < k :: !OccursAt(s, sep, j)
    ensures Split(s, sep) == [s[..k]] + Split(s[k + |sep|..], sep)
  {
    FirstIndex(s, sep, k);
  }

  /** If the first separator of `a + sep + b` starts at |a|, splitting peels off `a`. */
  lemma SplitPeel(a: string, sep: string, b: string)
    requires sep != ""
    requires forall j: nat | j < |a| :: !OccursAt(a + sep + b, sep, j)
    ensures Split(a + sep + b, sep) == [a] + Split(b, sep)
  {
    var s := a + sep + b;
    assert s[|a|..|a| + |sep|] == sep;
    assert s[..|a|] == a && s[|a| + |sep|..] == b;
    SplitAt(s, sep, |a|);
  }

  lemma OneCharClean(s: string, c: char)
    ensures Contains(s, [c]) <==> c in s
  {
    forall i: nat | i < |s| ensures OccursAt(s, [c], i) <==> s[i] == c {
      OccursOne(s, c, i);
    }
  }

  lemma SplitPeelChar(a: string, c: char, b: string)
    requires c !in a
    ensures Split(a + [c] + b, [c]) == [a] + Split(b, [c])
  {
    forall j: nat | j < |a| ensures !OccursAt(a + [c] + b, [c], j) {
      OccursOne(a + [c] + b, c, j);
    }
    SplitPeel(a, [c], b);
  }

  lemma SplitWhole(a: string, c: char)
    requires c !in a
    ensures Split(a, [c]) == [a]
  {
    OneCharClean(a, c);
  }

  /** Splitting undoes joining for pieces free of the separator character. */
  lemma {:induction false} SplitJoin(parts: seq<string>, c: char)
    requires parts != [] && forall k | 0 <= k < |parts| :: c !in parts[k]
    ensures Split(Join(parts, [c]), [c]) == parts
  {
    if |parts| == 1 {
      SplitWhole(parts[0], c);
    } else {
      SplitJoin(parts[1..], c);
      SplitPeelChar(parts[0], c, Join(parts[1..], [c]));
      assert parts == [parts[0]] + parts[1..];
    }
  }

  /** A split at one character has exactly two pieces `head` and `rest` when the text is head, separator, rest. */
  lemma SplitInTwo(s: string, head: string, c: char)
    requires c !in head
    ensures |Split(s, [c])| == 2 && Split(s, [c])[0] == head
            <==> exists rest :: s == head + [c] + rest && c !in rest
    ensures forall rest | s == head + [c] + rest && c !in rest :: Split(s, [c]) == [head, rest]
  {
    forall rest | s == head + [c] + rest && c !in rest ensures Split(s, [c]) == [head, rest] {
      SplitPeelChar(head, c, rest);
      SplitWhole(rest, c);
    }
    var parts := Split(s, [c]);
    if |parts| == 2 && parts[0] == head {
      JoinSplit(s, [c]);
      SplitPiecesClean(s, [c]);
      OneCharClean(parts[1], c);
      assert parts[1..] == [parts[1]];
      assert s == head + [c] + parts[1];
    }
  }

  /** The three pieces of a text with exactly two separators. */
  lemma SplitOfThree(a: string, b: string, d: string, c: char)
    requires c !in a && c !in b && c !in d
    ensures Split(a + [c] + b + [c] + d, [c]) == [a, b, d]
  {
    var head, tail := a + [c], b + [c] + d;
    ConcatAssoc(head, b, [c]);
    ConcatAssoc(head, b + [c], d);
    SplitPeelChar(a, c, tail);
    SplitPeelChar(b, c, d);
    SplitWhole(d, c);
    AppendSplits(a, b, d);
  }

  lemma AppendSplits(a: string, b: string, d: string)
    ensures [a] + ([b] + [d]) == [a, b, d]
  {
  }

  lemma JoinThree(a: string, b: string, d: string, sep: string)
    ensures Join([a, b, d], sep) == a + sep + (b + sep + d)
  {
    assert [a, b, d][1..] == [b, d] && [b, d][1..] == [d];
    assert Join([b, d], sep) == b + sep + d;
  }

  lemma SplitThreeShape(s: string, c: char)
    requires |Split(s, [c])| == 3
    ensures var p := Split(s, [c]); s == p[0] + [c] + p[1] + [c] + p[2] && c !in p[0] && c !in p[1] && c !in p[2]
  {
    JoinSplit(s, [c]);
    SplitPiecesClean(s, [c]);
    ThreeJoined(Split(s, [c]), c);
  }

  lemma ThreeJoined(p: seq<string>, c: char)
    requires |p| == 3 && forall k | 0 <= k < |p| :: !Contains(p[k], [c])
    ensures Join(p, [c]) == p[0] + [c] + p[1] + [c] + p[2] && c !in p[0] && c !in p[1] && c !in p[2]
  {
    assert p == [p[0], p[1], p[2]];
    JoinThree(p[0], p[1], p[2], [c]);
    OneCharClean(p[0], c);
    OneCharClean(p[1], c);
    OneCharClean(p[2], c);
    assert p[0] + [c] + (p[1] + [c] + p[2]) == p[0] + [c] + p[1] + [c] + p[2];
  }

  // ---------- Removing one character (strings.ReplaceAll(s, c, "")) ----------

  function Without(s: string, c: char): (r: string)
    ensures c !in r
    ensures c !in s ==> r == s
  {
    if s == "" then "" else (if s[0] == c then "" else [s[0]]) + Without(s[1..], c)
  }

  lemma {:induction false} WithoutKeeps(s: string, c: char, d: char)
    requires d != c
    ensures d in Without(s, c) <==> d in s
  {
    if s != "" {
      WithoutKeeps(s[1..], c, d);
      assert s == [s[0]] + s[1..];
    }
  }

  lemma WithoutOne(d: char, c: char)
    ensures Without([d], c) == if d == c then "" else [d]
  {
    assert [d][1..] == "";
  }

  /** With WithoutOne: exactly the occurrences of the character go, and everything else stays in order. */
  lemma {:induction false} WithoutAppend(a: string, b: string, c: char)
    ensures Without(a + b, c) == Without(a, c) + Without(b, c)
  {
    if a == "" {
      assert a + b == b && "" + Without(b, c) == Without(b, c);
    } else {
      assert (a + b)[1..] == a[1..] + b;
      WithoutAppend(a[1..], b, c);
      ConcatAssoc(if a[0] == c then "" else [a[0]], Without(a[1..], c), Without(b, c));
    }
  }

  // ---------- Decimal numbers ----------

  predicate IsDigit(c: char) { '0' <= c <= '9' }

  predicate AllDigits(s: string) { forall k | 0 <= k < |s| :: IsDigit(s[k]) }

  function DigitChar(d: nat): (c: char)
    requires d < 10
    ensures IsDigit(c) && DigitValue(c) == d
  {
    ('0' as int + d) as char
  }

  function DigitValue(c: char): (d: nat)
    requires IsDigit(c)
    ensures d < 10
  {
    c as int - '0' as int
  }

  /** The decimal digits of a natural number. */
  function Digits(n: nat): (s: string)
    ensures s != "" && AllDigits(s)
  {
    if n < 10 then [DigitChar(n)] else Digits(n / 10) + [DigitChar(n % 10)]
  }

  /** strconv.Itoa and fmt's %d. */
  function Itoa(n: int): (s: string)
    ensures s != ""
  {
    if n < 0 then "-" + Digits(-n) else Digits(n)
  }

  /** The number a string of digits denotes. */
  function Decimal(s: string): (n: int)
    requires AllDigits(s)
    ensures n >= 0
  {
    if s == "" then 0 else Decimal(s[..|s| - 1]) * 10 + DigitValue(s[|s| - 1])
  }

  /** strconv.Atoi and strconv.ParseInt(s, 10, 64): an optional sign, digits, and the int64 range. */
  function Atoi(s: string): Option<int> {
    var negative := s != "" && s[0] == '-';
    var digits := if s != "" && (s[0] == '-' || s[0] == '+') then s[1..] else s;
    if digits == "" || !AllDigits(digits) then None
    else
      var value: int := if negative then -Decimal(digits) else Decimal(digits);
      if INT64_MIN <= value <= INT64_MAX then Some(value) else None
  }

  lemma {:induction false} DecimalOfDigits(n: nat)
    ensures Decimal(Digits(n)) == n
  {
    if n < 10 {
      assert Digits(n)[..0] == "";
    } else {
      DecimalOfDigits(n / 10);
      assert Digits(n)[..|Digits(n)| - 1] == Digits(n / 10);
    }
  }

  lemma DigitsInjective(m: nat, n: nat)
    requires Digits(m) == Digits(n)
    ensures m == n
  {
    DecimalOfDigits(m);
    DecimalOfDigits(n);
  }

  lemma AtoiOfDigits(s: string)
    requires s != "" && AllDigits(s)
    ensures Atoi(s) == if Decimal(s) <= INT64_MAX then Some(Decimal(s)) else None
  {
    assert IsDigit(s[0]);
  }

  /** Numbers are printed without leading zeros. */
  lemma {:induction false} DigitsCanonical(n: nat)
    ensures Digits(n)[0] == '0' <==> n == 0
    ensures n == 0 ==> Digits(n) == "0"
  {
    if n >= 10 {
      DigitsCanonical(n / 10);
      assert Digits(n)[0] == Digits(n / 10)[0];
    } else {
      assert DigitValue(Digits(n)[0]) == n;
    }
  }

  /** A text with this sign and these digits, and the number it denotes. */
  ghost predicate Numeral(s: string, sign: string, digits: string, n: int) {
    && s == sign + digits && (sign == "" || sign == "+" || sign == "-")
    && digits != "" && AllDigits(digits)
    && n == if sign == "-" then -Decimal(digits) else Decimal(digits)
  }

  /** What is read as a number: an optional sign, one or more digits, and a value in the range of int64. */
  lemma AtoiExactly(s: string, n: int)
    ensures Atoi(s) == Some(n)
            <==> INT64_MIN <= n <= INT64_MAX && exists sign, digits :: Numeral(s, sign, digits, n)
  {
    var sign := if s != "" && (s[0] == '-' || s[0] == '+') then [s[0]] else "";
    var digits := s[|sign|..];
    assert s == sign + digits;
    if Atoi(s) == Some(n) {
      assert Numeral(s, sign, digits, n);
    }
    forall sign', digits' | Numeral(s, sign', digits', n) ensures sign' == sign && digits' == digits {
      assert sign' == "" ==> IsDigit(s[0]);
      assert s[|sign'|..] == digits';
    }
  }

  /** Numerals contain neither separators nor slashes. */
  lemma NumeralShape(s: string)
    requires Atoi(s).Some?
    ensures '/' !in s && ',' !in s && ' ' !in s
  {
    var digits := if s != "" && (s[0] == '-' || s[0] == '+') then s[1..] else s;
    assert forall k | 1 <= k < |s| :: IsDigit(s[k]) by {
      forall k | 1 <= k < |s| ensures IsDigit(s[k]) {
        if |digits| == |s| {
          assert IsDigit(digits[k]);
        } else {
          assert IsDigit(digits[k - 1]);
        }
      }
    }
    assert |digits| == |s| ==> IsDigit(digits[0]);
  }

  lemma AtoiOfItoa(n: int)
    requires INT64_MIN <= n <= INT64_MAX
    ensures Atoi(Itoa(n)) == Some(n)
  {
    if n < 0 {
      DecimalOfDigits(-n);
      assert Itoa(n)[1..] == Digits(-n);
    } else {
      DecimalOfDigits(n);
      AtoiOfDigits(Itoa(n));
    }
  }

  function Pow10(k: nat): (p: nat)
    ensures p > 0
  {
    if k == 0 then 1 else 10 * Pow10(k - 1)
  }

  lemma Pow10Four(k: nat)
    ensures Pow10(k + 4) == 10_000 * Pow10(k)
  {
    assert Pow10(k + 1) == 10 * Pow10(k);
    assert Pow10(k + 2) == 100 * Pow10(k);
    assert Pow10(k + 3) == 1000 * Pow10(k);
  }

  lemma Pow10Values()
    ensures Pow10(3) == 1000 && Pow10(4) == 10_000 && Pow10(8) == 100_000_000
    ensures Pow10(12) == 1_000_000_000_000 && Pow10(16) == 10_000_000_000_000_000
    ensures Pow10(19) == 10_000_000_000_000_000_000
  {
    assert Pow10(1) == 10 && Pow10(2) == 100;
    Pow10Four(0);
    Pow10Four(4);
    Pow10Four(8);
    Pow10Four(12);
    assert Pow10(17) == 10 * Pow10(16) && Pow10(18) == 10 * Pow10(17);
  }

  lemma {:induction false} DigitsLength(n: nat, k: nat)
    requires k > 0 && n < Pow10(k)
    ensures |Digits(n)| <= k
  {
    if n >= 10 {
      assert n / 10 < Pow10(k - 1);
      DigitsLength(n / 10, k - 1);
    }
  }

  /** An int64 prints in at most 20 characters, none of them a comma, a space or a slash. */
  lemma ItoaShape(n: int)
    requires INT64_MIN <= n <= INT64_MAX
    ensures |Itoa(n)| <= 20
    ensures ',' !in Itoa(n) && ' ' !in Itoa(n) && '/' !in Itoa(n)
  {
    var m := if n < 0 then -n else n;
    Pow10Values();
    DigitsLength(m, 19);
    assert forall k | 0 <= k < |Digits(m)| :: IsDigit(Digits(m)[k]);
  }

  // ---------- Subfunction names ----------

  /** The name newly created subfunction number i of a device gets. */
  function SfName(host: string, i: nat): string {
    host + "sf" + Digits(i)
  }

  /** The length of the run of digits a name ends in. */
  function TrailingDigits(s: string): nat {
    if s != "" && IsDigit(s[|s| - 1]) then 1 + TrailingDigits(s[..|s| - 1]) else 0
  }

  lemma {:induction false} TrailingDigitsOf(a: string, d: string)
    requires a != "" && !IsDigit(a[|a| - 1]) && AllDigits(d)
    ensures TrailingDigits(a + d) == |d|
  {
    if d == "" {
      assert a + d == a;
    } else {
      TrailingDigitsOf(a, d[..|d| - 1]);
      assert (a + d)[..|a + d| - 1] == a + d[..|d| - 1];
    }
  }

  /** Subfunction names identify the device and the number. */
  lemma SfNameInjective(h1: string, i1: nat, h2: string, i2: nat)
    requires SfName(h1, i1) == SfName(h2, i2)
    ensures h1 == h2 && i1 == i2
  {
    var s, d1, d2 := SfName(h1, i1), Digits(i1), Digits(i2);
    TrailingDigitsOf(h1 + "sf", d1);
    TrailingDigitsOf(h2 + "sf", d2);
    assert s[|s| - |d1|..] == d1 && s[|s| - |d2|..] == d2;
    DigitsInjective(i1, i2);
    assert s[..|s| - |d1| - 2] == h1 && s[..|s| - |d2| - 2] == h2;
  }

  lemma SfNameDiffers(host: string, i: nat)
    ensures SfName(host, i) != host
  {
    assert |SfName(host, i)| > |host|;
  }

  /** The number ActivateCdqSubfunction extracts from a subfunction's name. */
  function SfNumber(name: string): Option<string> {
    var parts := Split(name, "sf");
    if |parts| < 2 then None else Some(parts[1])
  }

  lemma CleanHostOccurrence(host: string, tail: string, j: nat)
    requires !Contains(host, "sf") && j < |host|
    ensures !OccursAt(host + "sf" + tail, "sf", j)
  {
    var s := host + "sf" + tail;
    OccursTwo(s, 's', 'f', j);
    if j + 1 < |host| {
      OccursTwo(host, 's', 'f', j);
    }
  }

  lemma DigitsClean(i: nat)
    ensures !Contains(Digits(i), "sf")
  {
    var d := Digits(i);
    forall j: nat | j + 1 < |d| ensures !OccursAt(d, "sf", j) {
      OccursTwo(d, 's', 'f', j);
    }
  }

  /** If the device name contains "sf", the extracted text does not depend on the number at all. */
  lemma SfNumberStuck(host: string, i: nat, j: nat)
    requires Contains(host, "sf")
    ensures SfNumber(SfName(host, i)) == SfNumber(SfName(host, j))
  {
    var k := Index(host, "sf").value;
    var a, b := host[..k], host[k + 2..];
    assert host == a + "sf" + b;
    forall t: nat | t + 2 <= |a| ensures !OccursAt(a, "sf", t) {
      OccursInPrefix(host, k, "sf", t);
    }
    assert !Contains(a, "sf");
    SfNumberTail(a, b, i, host);
    SfNumberTail(a, b, j, host);
    PieceBeforeNext(b, i);
    PieceBeforeNext(b, j);
  }

  lemma SfNumberTail(a: string, b: string, i: nat, host: string)
    requires !Contains(a, "sf") && host == a + "sf" + b
    ensures SfNumber(SfName(host, i)) == Some(Split(b + "sf" + Digits(i), "sf")[0])
  {
    var tail := b + "sf" + Digits(i);
    assert SfName(host, i) == a + "sf" + tail;
    forall t: nat | t < |a| ensures !OccursAt(a + "sf" + tail, "sf", t) {
      CleanHostOccurrence(a, tail, t);
    }
    SplitPeel(a, "sf", tail);
  }

  lemma SplitHead(s: string, sep: string, k: nat)
    requires sep != "" && OccursAt(s, sep, k)
    requires forall t: nat | t < k :: !OccursAt(s, sep, t)
    ensures Split(s, sep)[0] == s[..k]
  {
    assert Index(s, sep) == Some(k);
  }

  /** The first piece of b + "sf" + digits is decided by b alone. */
  lemma PieceBeforeNext(b: string, i: nat)
    ensures Split(b + "sf" + Digits(i), "sf")[0]
         == if Contains(b, "sf") then b[..Index(b, "sf").value] else b
  {
    var s := b + "sf" + Digits(i);
    assert b == s[..|b|];
    if Contains(b, "sf") {
      var k := Index(b, "sf").value;
      forall t: nat | t <= k ensures OccursAt(s, "sf", t) <==> OccursAt(b, "sf", t) {
        OccursInPrefix(s, |b|, "sf", t);
      }
      SplitHead(s, "sf", k);
    } else {
      forall t: nat | t < |b| ensures !OccursAt(s, "sf", t) {
        CleanHostOccurrence(b, Digits(i), t);
      }
      assert s[|b|..|b| + 2] == "sf";
      SplitHead(s, "sf", |b|);
    }
  }

  /** The extraction returns every subfunction's own number exactly for device names without "sf". */
  lemma SfNumberExact(host: string)
    ensures (forall i: nat | 1 <= i <= 64 :: SfNumber(SfName(host, i)) == Some(Digits(i)))
            <==> !Contains(host, "sf")
  {
    if Contains(host, "sf") {
      SfNumberStuck(host, 1, 2);
      assert Digits(1) != Digits(2) by {
        DecimalOfDigits(1);
        DecimalOfDigits(2);
      }
      assert exists i: nat | 1 <= i <= 64 :: SfNumber(SfName(host, i)) != Some(Digits(i)) by {
        assert SfNumber(SfName(host, 1)) != Some(Digits(1)) || SfNumber(SfName(host, 2)) != Some(Digits(2));
      }
    } else {
      forall i: nat | 1 <= i <= 64 ensures SfNumber(SfName(host, i)) == Some(Digits(i)) {
        forall t: nat | t < |host| ensures !OccursAt(host + "sf" + Digits(i), "sf", t) {
          CleanHostOccurrence(host, Digits(i), t);
        }
        SplitPeel(host, "sf", Digits(i));
        DigitsClean(i);
      }
    }
  }
}
