/** ItemViewCell.createFilter: merges the filters of an ordered array of view
    cell stacks into one priority list. The lists themselves are opaque here:
    an entry records which kind of list the cell asked for, with the inputs it
    was built from, and whether it was added as inclusive. */
module ViewCellFilter {
  import opened Wrappers
  import opened Nbt
  import opened Materials
  import opened ViewCellSettings

  /** The item of a stack, as far as createFilter tells items apart. */
  datatype Item =
    | ViewCellItem
    | MultiMaterialItem                          // the material item; its getType reads the damage table
    | UpgradeModuleItem(reports: Option<Upgrade>) // any other IUpgradeModule, with what its getType reports
    | OtherItem(id: nat)

  /** An item stack. `upgrades` and `config` stand for the upgrade and config
      inventories a view cell keeps in its compound; other items ignore them. */
  datatype Stack = Stack(item: Item, damage: int, tag: Compound, upgrades: seq<Option<Stack>>, config: seq<Option<Stack>>)

  /** The list kinds a cell can contribute, with what each is built from. */
  datatype Matcher =
    | OreFilteredList(filter: string)
    | FuzzyPriorityList(items: seq<Stack>, mode: FuzzyMode)
    | PrecisePriorityList(items: seq<Stack>)

  /** One addNewList call: the list and its inclusivity. */
  datatype Entry = Entry(matcher: Matcher, inclusive: bool)

  datatype UpgradeFlags = UpgradeFlags(inverter: bool, fuzzy: bool, oreFilter: bool)

  /** The upgrade an upgrade-inventory slot holds: none for an empty slot or
      an item that is no upgrade module. */
  function SlotUpgrade(reg: Registry, slot: Option<Stack>): (u: Option<Upgrade>)
    ensures slot.None? ==> u.None?
    ensures u.Some? && slot.value.item == MultiMaterialItem ==> GetTypeByStack(reg, slot.value.damage) == CardFor(u.value)
    ensures forall v | slot.Some? && slot.value.item == MultiMaterialItem
                       && GetTypeByStack(reg, slot.value.damage) == CardFor(v) :: u == Some(v)
    ensures slot.Some? && slot.value.item.UpgradeModuleItem? ==> u == slot.value.item.reports
    ensures slot.Some? && (slot.value.item == ViewCellItem || slot.value.item.OtherItem?) ==> u.None?
  {
    match slot
    case None => None
    case Some(s) =>
      match s.item
      case MultiMaterialItem => UpgradeOfStack(reg, s.damage)
      case UpgradeModuleItem(u) => u
      case _ => None
  }

  ghost predicate HasUpgrade(reg: Registry, slots: seq<Option<Stack>>, u: Upgrade) {
    exists i | 0 <= i < |slots| :: SlotUpgrade(reg, slots[i]) == Some(u)
  }

  /** One pass of the switch: FUZZY, INVERTER and ORE_FILTER set their flag,
      every other upgrade is ignored. */
  function Absorb(f: UpgradeFlags, u: Option<Upgrade>): (r: UpgradeFlags)
    ensures r.fuzzy <==> f.fuzzy || u == Some(Fuzzy)
    ensures r.inverter <==> f.inverter || u == Some(Inverter)
    ensures r.oreFilter <==> f.oreFilter || u == Some(OreFilter)
  {
    match u
    case Some(Fuzzy) => f.(fuzzy := true)
    case Some(Inverter) => f.(inverter := true)
    case Some(OreFilter) => f.(oreFilter := true)
    case _ => f
  }

  /** The scan of the upgrade inventory: each flag is set exactly when some
      slot holds that upgrade. */
  function ScanUpgrades(reg: Registry, slots: seq<Option<Stack>>): (f: UpgradeFlags)
    ensures f.fuzzy <==> HasUpgrade(reg, slots, Fuzzy)
    ensures f.inverter <==> HasUpgrade(reg, slots, Inverter)
    ensures f.oreFilter <==> HasUpgrade(reg, slots, OreFilter)
  {
    if |slots| == 0 then UpgradeFlags(false, false, false)
    else
      var prefix := slots[..|slots| - 1];
      var f := Absorb(ScanUpgrades(reg, prefix), SlotUpgrade(reg, slots[|slots| - 1]));
      assert forall i | 0 <= i < |prefix| :: slots[i] == prefix[i];
      f
  }

  /** The flags depend only on which upgrades are present: not on slot
      order, empty slots or how many copies there are. */
  lemma FlagsDependOnlyOnPresentUpgrades(reg: Registry, a: seq<Option<Stack>>, b: seq<Option<Stack>>)
    requires forall u :: HasUpgrade(reg, a, u) <==> HasUpgrade(reg, b, u)
    ensures ScanUpgrades(reg, a) == ScanUpgrades(reg, b)
  {
  }

  /** The stacks of the non-empty config slots, in slot order. */
  function ConfiguredItems(config: seq<Option<Stack>>): (items: seq<Stack>)
    ensures |items| <= |config|
    ensures forall s :: s in items <==> Some(s) in config
  {
    if |config| == 0 then []
    else
      var prefix := config[..|config| - 1];
      var last := config[|config| - 1];
      assert config == prefix + [last];
      ConfiguredItems(prefix) + (if last.Some? then [last.value] else [])
  }

  /** The ore filter wins when its upgrade is present and the filter string
      is not empty. */
  ghost predicate OreFilterApplies(reg: Registry, cell: Stack) {
    HasUpgrade(reg, cell.upgrades, OreFilter) && GetOreFilter(cell.tag) != []
  }

  /** The entry an enabled view cell adds, if any. */
  function CellEntry(reg: Registry, cell: Stack, fuzzyOf: Compound -> FuzzyMode): (e: Option<Entry>)
    ensures e.Some? ==> e.value.inclusive == !HasUpgrade(reg, cell.upgrades, Inverter)
    ensures OreFilterApplies(reg, cell) ==> e.Some? && e.value.matcher == OreFilteredList(GetOreFilter(cell.tag))
    ensures !OreFilterApplies(reg, cell) ==> (e.Some? <==> exists i | 0 <= i < |cell.config| :: cell.config[i].Some?)
    ensures !OreFilterApplies(reg, cell) && e.Some? ==>
      && !e.value.matcher.OreFilteredList?
      && e.value.matcher.items == ConfiguredItems(cell.config)
      && (e.value.matcher.FuzzyPriorityList? <==> HasUpgrade(reg, cell.upgrades, Fuzzy))
    ensures e.Some? && e.value.matcher.FuzzyPriorityList? ==> e.value.matcher.mode == fuzzyOf(cell.tag)
  {
    var flags := ScanUpgrades(reg, cell.upgrades);
    var filter := GetOreFilter(cell.tag);
    if flags.oreFilter && filter != [] then
      Some(Entry(OreFilteredList(filter), !flags.inverter))
    else
      var items := ConfiguredItems(cell.config);
      assert items == [] <==> forall i | 0 <= i < |cell.config| :: cell.config[i].None? by {
        if items != [] {
          assert Some(items[0]) in cell.config;
        }
        if i :| 0 <= i < |cell.config| && cell.config[i].Some? {
          assert cell.config[i].value in items;
        }
      }
      if items == [] then None
      else if flags.fuzzy then Some(Entry(FuzzyPriorityList(items, fuzzyOf(cell.tag)), !flags.inverter))
      else Some(Entry(PrecisePriorityList(items), !flags.inverter))
  }

  /** A slot that counts: a view cell stack whose view mode is on. Empty
      slots, other items and disabled cells are skipped. */
  predicate IsActiveCell(slot: Option<Stack>)
    ensures IsActiveCell(slot) ==> slot.Some? && slot.value.item == ViewCellItem
    ensures slot.Some? && slot.value.item == ViewCellItem && ViewModeKey !in slot.value.tag ==> IsActiveCell(slot)
    ensures slot.Some? && !GetViewMode(slot.value.tag) ==> !IsActiveCell(slot)
  {
    slot.Some? && slot.value.item == ViewCellItem && GetViewMode(slot.value.tag)
  }

  /** What one slot appends to the merged list: at most one entry, and
      nothing unless the slot is an active cell. */
  function Contribution(reg: Registry, slot: Option<Stack>, fuzzyOf: Compound -> FuzzyMode): (es: seq<Entry>)
    ensures |es| <= 1
    ensures !IsActiveCell(slot) ==> es == []
    ensures |es| == 1 ==> CellEntry(reg, slot.value, fuzzyOf) == Some(es[0])
    ensures IsActiveCell(slot) && CellEntry(reg, slot.value, fuzzyOf).Some? ==> es == [CellEntry(reg, slot.value, fuzzyOf).value]
    ensures IsActiveCell(slot) && CellEntry(reg, slot.value, fuzzyOf).None? ==> es == []
  {
    if IsActiveCell(slot) then
      match CellEntry(reg, slot.value, fuzzyOf)
      case Some(e) => [e]
      case None => []
    else []
  }

  /** The entry a slot adds: its own entry when it is an active cell, and
      none otherwise. */
  function SlotEntry(reg: Registry, slot: Option<Stack>, fuzzyOf: Compound -> FuzzyMode): (e: Option<Entry>)
    ensures e.Some? ==> IsActiveCell(slot)
    ensures IsActiveCell(slot) ==> e == CellEntry(reg, slot.value, fuzzyOf)
  {
    if IsActiveCell(slot) then CellEntry(reg, slot.value, fuzzyOf) else None
  }

  /** The number of slots that are active cells with an entry of their own. */
  function EntryCount(reg: Registry, cells: seq<Option<Stack>>, fuzzyOf: Compound -> FuzzyMode): (n: nat)
    ensures n <= |cells|
    ensures (forall i | 0 <= i < |cells| :: !IsActiveCell(cells[i])) ==> n == 0
  {
    if |cells| == 0 then 0
    else
      var prefix := cells[..|cells| - 1];
      var last := cells[|cells| - 1];
      assert forall i | 0 <= i < |prefix| :: cells[i] == prefix[i];
      EntryCount(reg, prefix, fuzzyOf)
        + (if SlotEntry(reg, last, fuzzyOf).Some? then 1 else 0)
  }

  /** createFilter: the loop over the array, kept as a left fold. The result
      is None (Java's null) when no active cell was seen; otherwise the
      merged list, which may be empty. */
  function CreateFilter(reg: Registry, cells: seq<Option<Stack>>, fuzzyOf: Compound -> FuzzyMode): (r: Option<seq<Entry>>)
    ensures r.None? <==> forall i | 0 <= i < |cells| :: !IsActiveCell(cells[i])
    ensures r.Some? ==> |r.value| == EntryCount(reg, cells, fuzzyOf)
    ensures r.Some? ==> forall slot | slot in cells && SlotEntry(reg, slot, fuzzyOf).Some? :: SlotEntry(reg, slot, fuzzyOf).value in r.value
    ensures r.Some? ==> forall e | e in r.value :: exists slot | slot in cells :: SlotEntry(reg, slot, fuzzyOf) == Some(e)
  {
    if |cells| == 0 then None
    else
      var prefix := cells[..|cells| - 1];
      var last := cells[|cells| - 1];
      var acc := CreateFilter(reg, prefix, fuzzyOf);
      assert forall i | 0 <= i < |prefix| :: cells[i] == prefix[i];
      assert cells == prefix + [last];
      if IsActiveCell(last) then
        Some(acc.GetOr([]) + Contribution(reg, last, fuzzyOf))
      else acc
  }

  /** The reference reading of createFilter's list: each slot's
      contribution, concatenated in array order. */
  function Contributions(reg: Registry, cells: seq<Option<Stack>>, fuzzyOf: Compound -> FuzzyMode): seq<Entry> {
    if |cells| == 0 then [] else Contribution(reg, cells[0], fuzzyOf) + Contributions(reg, cells[1..], fuzzyOf)
  }

  lemma {:induction false} ContributionsAppend(reg: Registry, a: seq<Option<Stack>>, b: seq<Option<Stack>>, fuzzyOf: Compound -> FuzzyMode)
    ensures Contributions(reg, a + b, fuzzyOf) == Contributions(reg, a, fuzzyOf) + Contributions(reg, b, fuzzyOf)
  {
    if |a| > 0 {
      assert (a + b)[1..] == a[1..] + b;
      ContributionsAppend(reg, a[1..], b, fuzzyOf);
    } else {
      assert a + b == b;
    }
  }

  /** The merged list holds the slots' contributions in array order: each
      active cell appends at most its own entry, after those of the cells
      before it. */
  lemma {:induction false} CreateFilterIsConcatenation(reg: Registry, cells: seq<Option<Stack>>, fuzzyOf: Compound -> FuzzyMode)
    ensures CreateFilter(reg, cells, fuzzyOf).GetOr([]) == Contributions(reg, cells, fuzzyOf)
    decreases |cells|
  {
    if |cells| > 0 {
      var prefix := cells[..|cells| - 1];
      var last := cells[|cells| - 1];
      assert cells == prefix + [last];
      CreateFilterIsConcatenation(reg, prefix, fuzzyOf);
      ContributionsAppend(reg, prefix, [last], fuzzyOf);
      assert Contributions(reg, [last], fuzzyOf) == Contribution(reg, last, fuzzyOf) + Contributions(reg, [], fuzzyOf);
    }
  }

  /** Combining the results of two arrays: null only when both are. */
  function Merge(x: Option<seq<Entry>>, y: Option<seq<Entry>>): (r: Option<seq<Entry>>)
    ensures r.None? <==> x.None? && y.None?
  {
    if x.None? && y.None? then None else Some(x.GetOr([]) + y.GetOr([]))
  }

  /** createFilter over two arrays laid end to end is the merge of the two
      results. */
  lemma CreateFilterAppend(reg: Registry, a: seq<Option<Stack>>, b: seq<Option<Stack>>, fuzzyOf: Compound -> FuzzyMode)
    ensures CreateFilter(reg, a + b, fuzzyOf) == Merge(CreateFilter(reg, a, fuzzyOf), CreateFilter(reg, b, fuzzyOf))
  {
    CreateFilterIsConcatenation(reg, a + b, fuzzyOf);
    CreateFilterIsConcatenation(reg, a, fuzzyOf);
    CreateFilterIsConcatenation(reg, b, fuzzyOf);
    ContributionsAppend(reg, a, b, fuzzyOf);
    var ab := CreateFilter(reg, a + b, fuzzyOf);
    if ab.None? {
      assert forall i | 0 <= i < |a| :: (a + b)[i] == a[i];
      assert forall i | 0 <= i < |b| :: (a + b)[|a| + i] == b[i];
    } else {
      var i :| 0 <= i < |a + b| && IsActiveCell((a + b)[i]);
      if i < |a| {
        assert (a + b)[i] == a[i];
      } else {
        assert (a + b)[i] == b[i - |a|];
      }
    }
  }

  /** A null slot, a stack of another item or a disabled cell can be put
      anywhere in the array without changing the result. */
  lemma InactiveSlotIsIgnored(reg: Registry, a: seq<Option<Stack>>, slot: Option<Stack>, b: seq<Option<Stack>>, fuzzyOf: Compound -> FuzzyMode)
    requires !IsActiveCell(slot)
    ensures CreateFilter(reg, a + [slot] + b, fuzzyOf) == CreateFilter(reg, a + b, fuzzyOf)
  {
    CreateFilterAppend(reg, a + [slot], b, fuzzyOf);
    CreateFilterAppend(reg, a, [slot], fuzzyOf);
    CreateFilterAppend(reg, a, b, fuzzyOf);
    assert CreateFilter(reg, [slot], fuzzyOf) == None;
  }

  /** A view cell whose view mode is off is skipped wherever it sits in the
      array. */
  lemma DisabledCellIsIgnored(reg: Registry, a: seq<Option<Stack>>, cell: Stack, b: seq<Option<Stack>>, fuzzyOf: Compound -> FuzzyMode)
    requires cell.item == ViewCellItem && !GetViewMode(cell.tag)
    ensures CreateFilter(reg, a + [Some(cell)] + b, fuzzyOf) == CreateFilter(reg, a + b, fuzzyOf)
  {
    InactiveSlotIsIgnored(reg, a, Some(cell), b, fuzzyOf);
  }

  /** An enabled cell with a registered fuzzy card and at least one config
      item, and no ore filter or inverter card, yields one inclusive fuzzy
      list over its config items with the cell's fuzzy mode. */
  lemma FuzzyCardCellYieldsFuzzyList(reg: Registry, cardDamage: int, cell: Stack, fuzzyOf: Compound -> FuzzyMode)
    requires GetTypeByStack(reg, cardDamage) == CardFuzzy
    requires cell.item == ViewCellItem && GetViewMode(cell.tag)
    requires cell.upgrades == [Some(Stack(MultiMaterialItem, cardDamage, map[], [], [])), None]
    requires exists i | 0 <= i < |cell.config| :: cell.config[i].Some?
    ensures CreateFilter(reg, [Some(cell)], fuzzyOf)
         == Some([Entry(FuzzyPriorityList(ConfiguredItems(cell.config), fuzzyOf(cell.tag)), true)])
  {
    // slot 0 holds the fuzzy card and slot 1 is empty
    assert SlotUpgrade(reg, cell.upgrades[0]) == Some(Fuzzy);
    assert SlotUpgrade(reg, cell.upgrades[1]) == None;
    var e := Entry(FuzzyPriorityList(ConfiguredItems(cell.config), fuzzyOf(cell.tag)), true);
    assert CellEntry(reg, cell, fuzzyOf) == Some(e);
    var cells := [Some(cell)];
    assert cells[..|cells| - 1] == [];
    assert CreateFilter(reg, cells, fuzzyOf) == Some([] + [e]);
    assert [] + [e] == [e];
  }
}
