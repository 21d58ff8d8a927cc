/** SlightlyBetterSort, the comparator that orders the upgrade tooltip lines:
    it finds the first match of the pattern `(\d+)[^\d]` in each string and,
    when both strings have one and both digit groups fit in an int, compares
    the numbers; otherwise (no match, or Integer.parseInt throws) it falls
    back to String.compareTo. */
module SlightlyBetterSort {
  import opened Wrappers
  import opened Decimal

  const MaxInt: int := 0x7fff_ffff

  /** A match of the pattern: the digit group is s[start..end], and s[end] is
      the non-digit that follows it. */
  datatype Span = Span(start: nat, end: nat)

  /** The pattern `(\d+)[^\d]` matches s at i with the group ending at j. */
  ghost predicate IsMatch(s: string, i: int, j: int) {
    0 <= i < j < |s| && (forall k | i <= k < j :: IsDigit(s[k])) && !IsDigit(s[j])
  }

  /** The end of the digit run that starts at i. */
  function RunEnd(s: string, i: nat): (j: nat)
    requires i <= |s|
    ensures i <= j <= |s|
    ensures forall k | i <= k < j :: IsDigit(s[k])
    ensures j < |s| ==> !IsDigit(s[j])
    decreases |s| - i
  {
    if i == |s| || !IsDigit(s[i]) then i else RunEnd(s, i + 1)
  }

  /** The pattern anchored at i. `\d+` takes the whole digit run; giving a
      digit back cannot help, since `[^\d]` would then face a digit, so the
      pattern matches exactly when the run is followed by a character. */
  function MatchAt(s: string, i: nat): (r: Option<nat>)
    requires i < |s|
    ensures forall j :: IsMatch(s, i, j) <==> r == Some(j)
  {
    if !IsDigit(s[i]) then None
    else
      var j := RunEnd(s, i);
      if j < |s| then Some(j) else None
  }

  /** Matcher.find from position i: try each start position in turn. */
  function FindFrom(s: string, i: nat): (r: Option<Span>)
    requires i <= |s|
    ensures r.Some? ==> i <= r.value.start && IsMatch(s, r.value.start, r.value.end)
    ensures r.Some? ==> forall k, j | i <= k < r.value.start :: !IsMatch(s, k, j)
    ensures r.None? ==> forall k, j | i <= k :: !IsMatch(s, k, j)
    decreases |s| - i
  {
    if i == |s| then None
    else match MatchAt(s, i)
      case Some(j) => Some(Span(i, j))
      case None => FindFrom(s, i + 1)
  }

  /** Matcher.find: the leftmost match, which always begins a maximal digit
      run; None when the pattern occurs nowhere. */
  function Find(s: string): (r: Option<Span>)
    ensures r.Some? ==> IsMatch(s, r.value.start, r.value.end)
    ensures r.Some? ==> forall k, j | 0 <= k < r.value.start :: !IsMatch(s, k, j)
    ensures r.Some? ==> r.value.start == 0 || !IsDigit(s[r.value.start - 1])
    ensures r.None? <==> forall k, j :: !IsMatch(s, k, j)
  {
    var r := FindFrom(s, 0);
    // a digit before the start would give an earlier match
    assert r.Some? && r.value.start > 0 && IsDigit(s[r.value.start - 1])
      ==> IsMatch(s, r.value.start - 1, r.value.end);
    r
  }

  /** group(1) of the first match. */
  function FirstNumber(s: string): (r: Option<string>)
    ensures r.Some? ==> 0 < |r.value| && AllDigits(r.value)
    ensures r.Some? ==> exists i, j :: IsMatch(s, i, j) && r.value == s[i..j]
                                     && forall k, j' | 0 <= k < i :: !IsMatch(s, k, j')
    ensures r.None? <==> forall k, j :: !IsMatch(s, k, j)
  {
    match Find(s)
    case Some(sp) => Some(s[sp.start..sp.end])
    case None => None
  }

  /** Integer.parseInt on a digit string: the value, or None where Java
      throws NumberFormatException because the value exceeds an int. */
  function ParseInt(ds: string): (r: Option<int>)
    requires 0 < |ds| && AllDigits(ds)
    ensures r.Some? ==> 0 <= r.value <= MaxInt
  {
    if ValueOf(ds) <= MaxInt then Some(ValueOf(ds)) else None
  }

  /** The int the comparator reads from s, when it reads one. */
  function NumericKey(s: string): (k: Option<int>)
    ensures k.Some? ==> FirstNumber(s).Some? && k.value == ValueOf(FirstNumber(s).value) <= MaxInt
    ensures k.None? ==> FirstNumber(s).None? || ValueOf(FirstNumber(s).value) > MaxInt
  {
    match FirstNumber(s)
    case Some(ds) => ParseInt(ds)
    case None => None
  }

  /** Integer.compare. */
  function IntCompare(x: int, y: int): (r: int)
    ensures r == -1 <==> x < y
    ensures r == 0 <==> x == y
    ensures r == 1 <==> x > y
  {
    if x < y then -1 else if x == y then 0 else 1
  }

  /** String.compareTo: the difference of the first differing characters, or
      of the lengths when one string is a prefix of the other. */
  function CompareTo(a: string, b: string): (r: int)
    ensures r == 0 <==> a == b
    decreases |a|
  {
    if |a| == 0 || |b| == 0 then |a| - |b|
    else if a[0] != b[0] then a[0] as int - b[0] as int
    else
      var r := CompareTo(a[1..], b[1..]);
      assert a == [a[0]] + a[1..] && b == [b[0]] + b[1..];
      r
  }

  /** SlightlyBetterSort.compare: by the numbers when both strings have a
      key, lexicographic otherwise. */
  function Compare(a: string, b: string): (r: int)
    ensures NumericKey(a).Some? && NumericKey(b).Some? ==>
      && (r < 0 <==> NumericKey(a).value < NumericKey(b).value)
      && (r == 0 <==> NumericKey(a).value == NumericKey(b).value)
    ensures NumericKey(a).None? || NumericKey(b).None? ==>
      && (r < 0 <==> LexLess(a, b))
      && (r == 0 <==> a == b)
  {
    var ka := NumericKey(a);
    var kb := NumericKey(b);
    CompareToIsLexicographic(a, b);
    if ka.Some? && kb.Some? then IntCompare(ka.value, kb.value) else CompareTo(a, b)
  }

  function Sign(x: int): int {
    if x < 0 then -1 else if x == 0 then 0 else 1
  }

  /** The length of the longest common prefix of two strings. */
  function CommonPrefix(a: string, b: string): (k: nat)
    ensures k <= |a| && k <= |b|
    ensures forall j | 0 <= j < k :: a[j] == b[j]
    ensures k == |a| || k == |b| || a[k] != b[k]
  {
    if |a| == 0 || |b| == 0 || a[0] != b[0] then 0 else 1 + CommonPrefix(a[1..], b[1..])
  }

  /** Lexicographic order, stated directly: past the common prefix, a
      string that has ended comes first, and otherwise the first differing
      character decides. */
  predicate LexLess(a: string, b: string) {
    var k := CommonPrefix(a, b);
    k < |b| && (k == |a| || a[k] < b[k])
  }

  /** String.compareTo is negative exactly when the first string comes first
      in lexicographic order. */
  lemma {:induction false} CompareToIsLexicographic(a: string, b: string)
    ensures CompareTo(a, b) < 0 <==> LexLess(a, b)
    decreases |a|
  {
    if |a| > 0 && |b| > 0 && a[0] == b[0] {
      CompareToIsLexicographic(a[1..], b[1..]);
    }
  }

  lemma {:induction false} CompareToAntisymmetric(a: string, b: string)
    ensures CompareTo(a, b) == -CompareTo(b, a)
    decreases |a|
  {
    if |a| > 0 && |b| > 0 && a[0] == b[0] {
      CompareToAntisymmetric(a[1..], b[1..]);
    }
  }

  /** compare(s, s) == 0 for every string. */
  lemma CompareReflexive(s: string)
    ensures Compare(s, s) == 0
  {
  }

  /** compare(a, b) and compare(b, a) have opposite signs, on both the
      numeric and the fallback path. */
  lemma CompareAntisymmetric(a: string, b: string)
    ensures Sign(Compare(a, b)) == -Sign(Compare(b, a))
  {
  }

  /** When both strings carry a number that fits in an int, the numbers
      alone decide. */
  lemma CompareNumeric(a: string, b: string)
    requires FirstNumber(a).Some? && ValueOf(FirstNumber(a).value) <= MaxInt
    requires FirstNumber(b).Some? && ValueOf(FirstNumber(b).value) <= MaxInt
    ensures Sign(Compare(a, b)) == Sign(ValueOf(FirstNumber(a).value) - ValueOf(FirstNumber(b).value))
  {
  }

  /** When either string has no number, or a number too large for an int,
      the order is the lexicographic one. */
  lemma CompareFallback(a: string, b: string)
    requires || FirstNumber(a).None? || FirstNumber(b).None?
             || ValueOf(FirstNumber(a).value) > MaxInt || ValueOf(FirstNumber(b).value) > MaxInt
    ensures Compare(a, b) < 0 <==> LexLess(a, b)
    ensures Compare(a, b) == 0 <==> a == b
  {
  }

  /** The comparator is not a total order: three strings, two with a number
      and one without, compare in a cycle. */
  lemma CompareNotTransitive()
    ensures Compare("b1 ", "a2 ") < 0
    ensures Compare("a2 ", "ab") < 0
    ensures Compare("ab", "b1 ") < 0
  {
  }
}
