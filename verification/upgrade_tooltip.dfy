/** The upgrade card tooltip of ItemMultiMaterial.addCheckedInformation: one
    line per machine the upgrade supports, named by its group name when the
    machine's item reports one and by its display name otherwise, suffixed
    with " (limit)" when more than one card fits, and never listed twice. */
module UpgradeTooltip {
  import opened Wrappers
  import opened Decimal
  import SlightlyBetterSort

  newtype int32 = x: int | -0x8000_0000 <= x < 0x8000_0000

  /** One entry of Upgrades.getSupported(), in iteration order: the localized
      group name (None when the item is no IItemGroup or reports no group),
      the stack's display name, and the number of cards that fit. */
  datatype SupportedEntry = SupportedEntry(groupName: Option<string>, displayName: string, limit: int32)

  function BaseName(e: SupportedEntry): string {
    e.groupName.GetOr(e.displayName)
  }

  predicate StartsWith(s: string, prefix: string) {
    |prefix| <= |s| && s[..|prefix|] == prefix
  }

  /** The name of an entry: the base name, then " (" + limit + ")" when the
      limit is above one. */
  function EntryName(e: SupportedEntry): (name: string)
    ensures StartsWith(name, BaseName(e))
    ensures e.limit <= 1 ==> name == BaseName(e)
    ensures e.limit > 1 ==> |name| >= |BaseName(e)| + 4 && name[|name| - 1] == ')'
  {
    BaseName(e) + (if e.limit > 1 then " (" + ToDecimal(e.limit as nat) + ")" else "")
  }

  /** textList.add(name) guarded by !textList.contains(name). */
  function AddIfAbsent(names: seq<string>, name: string): (r: seq<string>)
    ensures name in r
    ensures forall n :: n in r <==> n in names || n == name
    ensures |names| <= |r| <= |names| + 1
    ensures r[..|names|] == names
  {
    if name in names then names else names + [name]
  }

  predicate NoDuplicates(names: seq<string>) {
    forall i, j | 0 <= i < j < |names| :: names[i] != names[j]
  }

  /** The dedup loop over the supported entries. */
  function TooltipNames(entries: seq<SupportedEntry>): (r: seq<string>)
    ensures NoDuplicates(r)
    ensures forall k | 0 <= k < |entries| :: EntryName(entries[k]) in r
    ensures forall n | n in r :: exists k | 0 <= k < |entries| :: EntryName(entries[k]) == n
    ensures |r| <= |entries|
  {
    if |entries| == 0 then []
    else
      var prefix := entries[..|entries| - 1];
      var names := TooltipNames(prefix);
      var r := AddIfAbsent(names, EntryName(entries[|entries| - 1]));
      assert forall k | 0 <= k < |prefix| :: entries[k] == prefix[k];
      r
  }

  /** The suffix appears exactly when the limit is above one: otherwise the
      line is the bare base name. */
  lemma SuffixIffLimitAboveOne(e: SupportedEntry)
    ensures EntryName(e)[..|BaseName(e)|] == BaseName(e)
    ensures EntryName(e) != BaseName(e) <==> e.limit > 1
  {
  }

  /** Above a limit of one, the base name is followed by " (", the limit in
      decimal without a leading zero, and ")". */
  lemma SuffixIsLimit(e: SupportedEntry)
    requires e.limit > 1
    ensures var name := EntryName(e);
      var k := |BaseName(e)| + 2;
      && k < |name|
      && name[|BaseName(e)|..k] == " ("
      && name[|name| - 1] == ')'
      && AllDigits(name[k..|name| - 1])
      && name[k] != '0'
      && ValueOf(name[k..|name| - 1]) == e.limit as int
  {
    var base := BaseName(e);
    var ds := ToDecimal(e.limit as nat);
    var name := EntryName(e);
    assert name == base + " (" + ds + ")";
    assert name[|base|..|base| + 2] == " (";
    assert name[|base| + 2..|name| - 1] == ds;
  }

  predicate NoDigit(s: string) {
    forall k | 0 <= k < |s| :: !IsDigit(s[k])
  }

  /** The sort pattern `(\d+)[^\d]` reads a limit suffix back: in a name whose
      base has no digit, the first number is the limit itself, closed by ")". */
  lemma LimitIsFirstNumber(e: SupportedEntry)
    requires NoDigit(BaseName(e)) && e.limit > 1
    ensures SlightlyBetterSort.FirstNumber(EntryName(e)) == Some(ToDecimal(e.limit as nat))
    ensures SlightlyBetterSort.NumericKey(EntryName(e)) == Some(e.limit as int)
  {
    var base := BaseName(e);
    var ds := ToDecimal(e.limit as nat);
    var name := EntryName(e);
    assert name == base + " (" + ds + ")";
    var i := |base| + 2;
    var j := i + |ds|;
    assert name[i..j] == ds;
    assert SlightlyBetterSort.IsMatch(name, i, j);
    var found := SlightlyBetterSort.Find(name);
    assert found.Some?;
    var sp := found.value;
    assert sp.start <= i;
    // no digit precedes the suffix, so the match cannot start earlier
    assert forall k | 0 <= k < i :: !IsDigit(name[k]);
    assert IsDigit(name[sp.start]);
    assert sp.start == i;
    assert sp.end == j;
  }

  /** Two suffixed names with digit-free bases sort by their limits. */
  lemma SuffixedNamesSortByLimit(e1: SupportedEntry, e2: SupportedEntry)
    requires NoDigit(BaseName(e1)) && e1.limit > 1
    requires NoDigit(BaseName(e2)) && e2.limit > 1
    ensures SlightlyBetterSort.Sign(SlightlyBetterSort.Compare(EntryName(e1), EntryName(e2)))
         == SlightlyBetterSort.Sign(e1.limit as int - e2.limit as int)
  {
    LimitIsFirstNumber(e1);
    LimitIsFirstNumber(e2);
  }
}
