/** The settings a view cell keeps in its stack's NBT compound: whether it is
    enabled (ViewMode), its ore-dictionary filter and its fuzzy mode. */
module ViewCellSettings {
  import opened Nbt

  const ViewModeKey: string := "ViewMode"
  const OreFilterKey: string := "OreFilter"
  const FuzzyModeKey: string := "FuzzyMode"

  /** The fuzzy comparison levels; a cell stores one by its constant name. */
  datatype FuzzyMode = Percent99 | Percent75 | Percent50 | Percent25 | IgnoreAll {

    function Name(): string {
      match this
      case Percent99 => "PERCENT_99"
      case Percent75 => "PERCENT_75"
      case Percent50 => "PERCENT_50"
      case Percent25 => "PERCENT_25"
      case IgnoreAll => "IGNORE_ALL"
    }
  }

  /** getViewMode: a cell is enabled unless its compound says otherwise; a
      missing key reads as enabled, although NBT's own default for a
      missing boolean is false. A key that holds no number reads as disabled. */
  function GetViewMode(c: Compound): (on: bool)
    ensures ViewModeKey !in c ==> on
    ensures ViewModeKey in c && !c[ViewModeKey].NumberTag? ==> !on
  {
    if ViewModeKey !in c then true else GetBoolean(c, ViewModeKey)
  }

  /** getOreFilter: the stored filter string, empty when none is stored. */
  function GetOreFilter(c: Compound): (filter: string)
    ensures OreFilterKey !in c ==> filter == []
  {
    GetString(c, OreFilterKey)
  }

  /** setOreFilter: getOreFilter reads back what was set, and the view mode
      is untouched. */
  function SetOreFilter(c: Compound, filter: string): (r: Compound)
    ensures GetOreFilter(r) == filter
    ensures GetViewMode(r) == GetViewMode(c)
    ensures r.Keys == c.Keys + {OreFilterKey}
    ensures forall k | k != OreFilterKey && k in c :: r[k] == c[k]
  {
    SetString(c, OreFilterKey, filter)
  }

  /** toggleViewMode: negates the current mode and leaves the ore filter
      alone. */
  function ToggleViewMode(c: Compound): (r: Compound)
    ensures GetViewMode(r) == !GetViewMode(c)
    ensures GetOreFilter(r) == GetOreFilter(c)
    ensures r.Keys == c.Keys + {ViewModeKey}
    ensures forall k | k != ViewModeKey && k in c :: r[k] == c[k]
  {
    SetBoolean(c, ViewModeKey, !GetViewMode(c))
  }

  /** setFuzzyMode: stores the mode's name, leaving view mode and ore filter
      alone. */
  function SetFuzzyMode(c: Compound, mode: FuzzyMode): (r: Compound)
    ensures GetString(r, FuzzyModeKey) == mode.Name()
    ensures GetViewMode(r) == GetViewMode(c)
    ensures GetOreFilter(r) == GetOreFilter(c)
    ensures r.Keys == c.Keys + {FuzzyModeKey}
    ensures forall k | k != FuzzyModeKey && k in c :: r[k] == c[k]
  {
    SetString(c, FuzzyModeKey, mode.Name())
  }

  /** Toggling twice restores the mode. */
  lemma ToggleTwiceRestoresMode(c: Compound)
    ensures GetViewMode(ToggleViewMode(ToggleViewMode(c))) == GetViewMode(c)
    ensures GetOreFilter(ToggleViewMode(ToggleViewMode(c))) == GetOreFilter(c)
  {
  }

  /** ... but not necessarily the compound: a fresh cell has no ViewMode key
      and gains one. */
  lemma ToggleTwiceAddsKey()
    ensures ToggleViewMode(ToggleViewMode(map[])) != map[]
  {
  }

  /** The stored name determines the mode. */
  lemma FuzzyModeNamesDistinct(m1: FuzzyMode, m2: FuzzyMode)
    ensures m1.Name() == m2.Name() <==> m1 == m2
  {
  }
}
