# View cell filters and the multi-material item, in Dafny

This project models two pieces of Applied Energistics 2 (the 1.7.10 unofficial
branch):

- `ItemViewCell.createFilter`, which turns the view cells placed in a terminal
  into one merged priority list. Empty slots, foreign items and disabled cells
  are skipped. Each enabled cell reads its upgrade cards (fuzzy, inverter, ore
  filter) and its config items. It then adds at most one list (ore-filtered,
  fuzzy or precise), inclusive unless an inverter card is present. The result
  is `null` when no enabled cell was seen, and otherwise the merged list, which
  may be empty. The cell's NBT settings (view mode, ore filter, fuzzy mode) are
  modelled as well.
- `ItemMultiMaterial`: the damage-value table of materials, the card-to-upgrade
  mapping that `createFilter` relies on to recognise its cards, material
  registration with feature gating and overlap detection, the storage-part byte
  table, the tooltip name dedup loop and the `SlightlyBetterSort` comparator.

Modules, one per concept:

| file | module | models |
|---|---|---|
| `wrappers.dfy` | `Wrappers` | `Option` for a nullable reference, `Result` for a throwing call |
| `nbt.dfy` | `Nbt` | an NBT compound as a map, with the getters' defaults |
| `decimal.dfy` | `Decimal` | digit strings, their value, and the rendering of an int |
| `materials.dfy` | `Materials` | `getTypeByStack`, `getType`, `createMaterial`, `getBytes`, `isStorageComponent` |
| `slightly_better_sort.dfy` | `SlightlyBetterSort` | the regex search, `Integer.parseInt`, `String.compareTo`, the comparator |
| `upgrade_tooltip.dfy` | `UpgradeTooltip` | the tooltip name dedup loop |
| `view_cell_settings.dfy` | `ViewCellSettings` | view mode, ore filter and fuzzy mode in the cell's NBT |
| `view_cell_filter.dfy` | `ViewCellFilter` | `createFilter` |

Mutable Java state becomes values. The material item's table and "registered"
marks form a `Registry`, and `createMaterial` maps one registry to the next, or
to an error. `createFilter`'s result is an `Option<seq<Entry>>`, where `None`
is Java's `null`. Each entry records the kind of list and the inputs it was
built from. Collaborators that this model does not include become parameters:

- the feature configuration is a set of enabled features;
- `FuzzyMode.fromItemStack` is a function from compound to mode;
- `Upgrades.getSupported()` is an ordered sequence of entries.

`createFilter` returns `null` only when no enabled view cell occurs in the
array. An enabled cell that adds nothing (no config items and no applicable ore
filter) still makes the result the merged list, which is then empty. The model
has the same shape: `CreateFilter`'s result is `None` exactly when no slot is an
active cell.

## Model

| member | source | states |
|---|---|---|
| `ViewCellFilter.CreateFilter` | src/main/java/appeng/items/storage/ItemViewCell.java:51-111 | the result is null exactly when no slot holds an enabled view cell; otherwise every enabled cell that has an entry has it in the list, the list holds exactly as many entries as such cells, and each entry is the entry of one of them |
| `ViewCellFilter.CreateFilterIsConcatenation` | src/main/java/appeng/items/storage/ItemViewCell.java:56-107 | the merged list is the cells' contributions concatenated in array order (an independent right-to-left definition of the loop's left-to-right accumulation) |
| `ViewCellFilter.CreateFilterAppend` | src/main/java/appeng/items/storage/ItemViewCell.java:52-110 | createFilter over two arrays laid end to end is the merge of the two results: null only if both are null, otherwise the two lists concatenated |
| `ViewCellFilter.InactiveSlotIsIgnored` | src/main/java/appeng/items/storage/ItemViewCell.java:56-62 | a null slot, a non-view-cell stack or a disabled cell inserted anywhere changes neither the entries nor whether the result is null |
| `ViewCellFilter.DisabledCellIsIgnored` | src/main/java/appeng/items/storage/ItemViewCell.java:57-62 | a view cell whose view mode is off, inserted anywhere in the array, leaves the result unchanged |
| `ViewCellFilter.Contribution` | src/main/java/appeng/items/storage/ItemViewCell.java:56-105 | a slot appends nothing unless it is an enabled view cell; an enabled cell appends exactly its own entry when it has one and nothing when it has none |
| `ViewCellFilter.CellEntry` | src/main/java/appeng/items/storage/ItemViewCell.java:86-104 | an ore filter card with a non-empty filter yields an ore-filtered list and config items are ignored; otherwise there is an entry exactly when some config slot is filled, fuzzy exactly when a fuzzy card is present (with the cell's fuzzy mode), over the config items; every entry is inclusive exactly when no inverter card is present |
| `ViewCellFilter.ScanUpgrades` | src/main/java/appeng/items/storage/ItemViewCell.java:68-84 | each of the three flags is set exactly when some upgrade slot holds that upgrade |
| `ViewCellFilter.FlagsDependOnlyOnPresentUpgrades` | src/main/java/appeng/items/storage/ItemViewCell.java:68-84 | two upgrade inventories with the same upgrades present give the same flags, whatever the slot order or copy count |
| `ViewCellFilter.ConfiguredItems` | src/main/java/appeng/items/storage/ItemViewCell.java:89-96 | the list holds exactly the stacks of the filled config slots, and no more items than there are slots |
| `ViewCellFilter.SlotUpgrade` | src/main/java/appeng/items/storage/ItemViewCell.java:72-75 | an empty slot, a view cell or another item holds no upgrade; an upgrade module holds what its getType reports; a material stack holds upgrade u exactly when its damage value is registered to the card for u |
| `ViewCellFilter.FuzzyCardCellYieldsFuzzyList` | src/main/java/appeng/items/storage/ItemViewCell.java:71-100 | an enabled cell whose upgrade inventory is [registered fuzzy card, empty slot] and which has a config item yields exactly one inclusive fuzzy list over its config items with the cell's fuzzy mode |
| `ViewCellSettings.GetViewMode` | src/main/java/appeng/items/storage/ItemViewCell.java:160-165 | a missing ViewMode key reads as enabled; a key holding a non-numeric tag reads as disabled |
| `ViewCellSettings.ToggleViewMode` | src/main/java/appeng/items/storage/ItemViewCell.java:156-158 | toggling negates the view mode, keeps the ore filter, only ever adds the ViewMode key, and keeps every other key's value |
| `ViewCellSettings.ToggleTwiceRestoresMode` | src/main/java/appeng/items/storage/ItemViewCell.java:156-165 | toggling twice restores the view mode and the ore filter |
| `ViewCellSettings.ToggleTwiceAddsKey` | src/main/java/appeng/items/storage/ItemViewCell.java:156-165 | toggling twice need not restore the compound: a fresh cell gains a ViewMode key |
| `ViewCellSettings.GetOreFilter` | src/main/java/appeng/items/storage/ItemViewCell.java:146-149 | a cell with no stored filter has the empty filter |
| `ViewCellSettings.SetOreFilter` | src/main/java/appeng/items/storage/ItemViewCell.java:151-154 | getOreFilter after setOreFilter(s) returns s; the view mode and every other key's value are unchanged |
| `ViewCellSettings.SetFuzzyMode` | src/main/java/appeng/items/storage/ItemViewCell.java:141-144 | the mode's name is stored under FuzzyMode; only that key is added and every other key's value is unchanged |
| `ViewCellSettings.FuzzyModeNamesDistinct` | src/main/java/appeng/items/storage/ItemViewCell.java:142-144 | the stored name determines the fuzzy mode |
| `Materials.GetTypeByStack` | src/main/java/appeng/items/materials/ItemMultiMaterial.java:125-130 | a registered damage value gives its material, and any other value gives InvalidType |
| `Materials.UpgradeOf` | src/main/java/appeng/items/materials/ItemMultiMaterial.java:132-154 | a material gives FUZZY, INVERTER or ORE_FILTER exactly when it is CardFuzzy, CardInverter or CardOreFilter |
| `Materials.CardFor` | src/main/java/appeng/items/materials/ItemMultiMaterial.java:133-153 | every one of the 17 upgrades has a card that getType maps to it |
| `Materials.UpgradeOfIsInjective` | src/main/java/appeng/items/materials/ItemMultiMaterial.java:133-153 | a material gives upgrade u exactly when it is the card for u, so the cards give distinct upgrades and every other material gives null |
| `Materials.UpgradeOfStack` | src/main/java/appeng/items/materials/ItemMultiMaterial.java:132-134 | a stack gives upgrade u exactly when its damage value is registered to the card for u; an unregistered damage value gives none |
| `Materials.FeaturesEnabled` | src/main/java/appeng/items/materials/ItemMultiMaterial.java:159-163 | the material is enabled exactly when every one of its features is enabled |
| `Materials.CreateMaterial` | src/main/java/appeng/items/materials/ItemMultiMaterial.java:156-180 | creating a material fails as a duplicate exactly when it is already registered; "Meta Overlap" is reported exactly when an enabled, fresh material's damage slot is taken; otherwise it succeeds; no existing mapping is overwritten; a disabled material leaves the item unchanged; an enabled one is found by its damage value afterwards and is the only addition |
| `Materials.EmptyRegistryIsValid` | src/main/java/appeng/items/materials/ItemMultiMaterial.java:69 | the initial empty table is consistent |
| `Materials.CreateMaterialPreservesValid` | src/main/java/appeng/items/materials/ItemMultiMaterial.java:156-177 | successful registrations keep every entry at its own damage value, marked registered, with no material at two damage values |
| `Materials.LookupIsRegisteredAtDamage` | src/main/java/appeng/items/materials/ItemMultiMaterial.java:125-130 | in a consistent table, a lookup that does not give InvalidType gives a registered material that sits at that very damage value |
| `Materials.GetBytes` | src/main/java/appeng/items/materials/ItemMultiMaterial.java:349-367 | a stack of the 1k, 4k, 16k or 64k storage part has 1024, 4096, 16384 or 65536 bytes; any other material, and an unregistered damage value, has 0 |
| `Materials.Bytes` | src/main/java/appeng/items/materials/ItemMultiMaterial.java:351-366 | Cell1kPart, Cell4kPart, Cell16kPart and Cell64kPart have 1, 4, 16 and 64 times KILO_SCALAR bytes, every other material has 0, and the count is positive exactly for the storage parts |
| `Materials.IsStorageComponent` | src/main/java/appeng/items/materials/ItemMultiMaterial.java:349-378 | isStorageComponent holds exactly when getBytes is positive, and only for registered damage values |
| `SlightlyBetterSort.RunEnd` | src/main/java/appeng/items/materials/ItemMultiMaterial.java:118 | the digit run starting at a position ends at the first non-digit or at the end of the string |
| `SlightlyBetterSort.MatchAt` | src/main/java/appeng/items/materials/ItemMultiMaterial.java:118 | the pattern (\d+)[^\d] anchored at i matches with group end j exactly when i..j is all digits and a non-digit follows |
| `SlightlyBetterSort.FindFrom` | src/main/java/appeng/items/materials/ItemMultiMaterial.java:391-393 | the search from i returns a match and no earlier one from i, or none when no match starts at or after i |
| `SlightlyBetterSort.Find` | src/main/java/appeng/items/materials/ItemMultiMaterial.java:391-393 | find returns the leftmost match, which starts a maximal digit run, and fails exactly when the pattern occurs nowhere |
| `SlightlyBetterSort.FirstNumber` | src/main/java/appeng/items/materials/ItemMultiMaterial.java:393-395 | group(1) is the non-empty digit string of the leftmost match of the pattern, and it is absent exactly when the pattern occurs nowhere |
| `SlightlyBetterSort.ParseInt` | src/main/java/appeng/items/materials/ItemMultiMaterial.java:394-395 | a parsed number lies between 0 and Integer.MAX_VALUE |
| `SlightlyBetterSort.NumericKey` | src/main/java/appeng/items/materials/ItemMultiMaterial.java:390-398 | the comparator reads the value of the first number exactly when there is one and it fits in an int |
| `SlightlyBetterSort.CompareTo` | src/main/java/appeng/items/materials/ItemMultiMaterial.java:401 | String.compareTo is zero exactly for equal strings |
| `SlightlyBetterSort.CompareToIsLexicographic` | src/main/java/appeng/items/materials/ItemMultiMaterial.java:401 | String.compareTo is negative exactly when the first string is a proper prefix of the second or has the smaller character at the first difference |
| `SlightlyBetterSort.CompareToAntisymmetric` | src/main/java/appeng/items/materials/ItemMultiMaterial.java:401 | compareTo(a, b) is the negation of compareTo(b, a) |
| `ViewCellFilter.IsActiveCell` | src/main/java/appeng/items/storage/ItemViewCell.java:57-62 | only a view cell stack can count, a view cell whose view mode is off never counts, and a view cell with no ViewMode key always counts |
| `ViewCellFilter.Absorb` | src/main/java/appeng/items/storage/ItemViewCell.java:76-81 | a slot's upgrade sets the fuzzy, inverter or ore filter flag exactly when it is that upgrade, and never clears a flag |
| `SlightlyBetterSort.IntCompare` | src/main/java/appeng/items/materials/ItemMultiMaterial.java:396 | Integer.compare gives -1, 0 or 1 exactly when the first int is smaller, equal or larger |
| `SlightlyBetterSort.Compare` | src/main/java/appeng/items/materials/ItemMultiMaterial.java:389-402 | when both strings have a number that fits in an int the comparison orders by those numbers; otherwise it is lexicographic and zero only for equal strings |
| `UpgradeTooltip.EntryName` | src/main/java/appeng/items/materials/ItemMultiMaterial.java:98-111 | a line starts with the group name or display name; with a limit of at most one it is exactly that name, otherwise a suffix closed by ")" follows |
| `SlightlyBetterSort.CompareReflexive` | src/main/java/appeng/items/materials/ItemMultiMaterial.java:389-402 | compare(s, s) is 0 |
| `SlightlyBetterSort.CompareAntisymmetric` | src/main/java/appeng/items/materials/ItemMultiMaterial.java:389-402 | compare(a, b) and compare(b, a) have opposite signs |
| `SlightlyBetterSort.CompareNumeric` | src/main/java/appeng/items/materials/ItemMultiMaterial.java:393-396 | when both strings carry a number that fits in an int, the order is that of the numbers |
| `SlightlyBetterSort.CompareFallback` | src/main/java/appeng/items/materials/ItemMultiMaterial.java:390-401 | when either string has no number or one that overflows an int, the order is lexicographic and only equal strings compare equal |
| `SlightlyBetterSort.CompareNotTransitive` | src/main/java/appeng/items/materials/ItemMultiMaterial.java:389-402 | "b1 " < "a2 " < "ab" < "b1 ": the comparator is not transitive |
| `Decimal.ToDecimal` | src/main/java/appeng/items/materials/ItemMultiMaterial.java:105 | the rendering of a limit is a non-empty digit string without a leading zero, and reading it back gives the limit |
| `UpgradeTooltip.AddIfAbsent` | src/main/java/appeng/items/materials/ItemMultiMaterial.java:113-115 | the name ends up in the list, nothing else is added, and the list only ever grows at its end |
| `UpgradeTooltip.TooltipNames` | src/main/java/appeng/items/materials/ItemMultiMaterial.java:96-116 | the list has no duplicates, has every entry's name, and has nothing but entries' names |
| `UpgradeTooltip.SuffixIffLimitAboveOne` | src/main/java/appeng/items/materials/ItemMultiMaterial.java:100-111 | a name starts with its base name, and differs from it exactly when the limit is above one |
| `UpgradeTooltip.SuffixIsLimit` | src/main/java/appeng/items/materials/ItemMultiMaterial.java:105-110 | above a limit of one the line is the base name, " (", the limit in decimal without a leading zero, and ")" |
| `UpgradeTooltip.LimitIsFirstNumber` | src/main/java/appeng/items/materials/ItemMultiMaterial.java:105-118 | with a digit-free base name, the sort pattern's first number is the limit suffix and reads back as the limit |
| `UpgradeTooltip.SuffixedNamesSortByLimit` | src/main/java/appeng/items/materials/ItemMultiMaterial.java:110-120 | two suffixed names with digit-free bases compare as their limits do |

## Left out

- The matching of `MergedPriorityList`, `FuzzyPriorityList`, `OreFilteredList` and `PrecisePriorityList`: those classes are not part of this model. An entry only records the kind of list, its inputs and its inclusivity.
- `IItemList` and `AEItemStack.create`: the config items are kept as the sequence of filled slot stacks, in slot order. The item list would also merge equal stacks.
- `CellUpgrades`, `CellConfig` and `FuzzyMode.fromItemStack` are not part of this model. The two inventories are fields of a stack, and the fuzzy mode comes from a function parameter. The two-slot size of the upgrade inventory is not enforced: the scan covers every slot it is given.
- `MaterialType`, `Upgrades`, `FuzzyMode` and `AEFeature` are not part of this model. For `MaterialType` and `Upgrades`, only the constants the modelled code names are listed, and the remaining material constants are `OtherMaterial(name)`. The code shown names no `FuzzyMode` constant; the five modes and their stored names (`PERCENT_99`, `PERCENT_75`, `PERCENT_50`, `PERCENT_25`, `IGNORE_ALL`) are those of the AE2 API's `FuzzyMode` enum. Damage values and feature lists, which the enum fixes per constant, are inputs (`MaterialDef`).
- `Materials.CreateMaterial`: on "Meta Overlap detected" Java has already marked the material ready and set its item instance before throwing. The model returns only the error, because the exception aborts registration. The stack source's contents are not modelled.
- `AEConfig.isFeatureEnabled` is a set of enabled features passed in.
- `makeUnique`: it is driven by the external `OreDictionary`.
- `onItemUseFirst`, `onItemRightClick`, `createEntity` and `hasCustomEntity`: world and player access, reflection and the server check.
- `registerIcons`, `getIconFromDamage`, `getUnlocalizedName`, `nameOf` and `getCheckedSubItems`: rendering, names and the creative tab.
- `ItemViewCell.addCheckedInformation` and everything in `ItemMultiMaterial.addCheckedInformation` except the dedup loop: these are localized text. That covers the super call, the name press "InscribeName" line, localization of group names (group names enter already localized) and display names.
- `textList.sort`: the order Java's TimSort produces is not modelled. The comparator is shown not to be transitive (`CompareNotTransitive`), so that order depends on the sort's internals.
- The static `instance` field and `RegistryContainer`: a singleton and field accessors, with no logic.
- `SlightlyBetterSort.CompareTo`: Java compares UTF-16 code units, and the model compares Unicode scalar values. The two orders differ only between a supplementary character and a character at or above U+E000.
- Nbt.GetString: a non-string tag under the key is modelled as reading ""; the library getter that decides this is not part of this model, and this code only ever writes strings under its string keys.
- NBT floating-point tags are not modelled. Integral numeric tags are narrowed to a byte explicitly when read as a boolean.
- The iteration order of `Upgrades.getSupported()` comes from a hash map. It is an input sequence.
