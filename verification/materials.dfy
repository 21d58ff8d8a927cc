/** ItemMultiMaterial: the damage-value table of registered materials, the
    card-to-upgrade mapping, material registration with feature gating and
    overlap detection, and the storage-component byte table. */
module Materials {
  import opened Wrappers

  /** The MaterialType constants the item's own code names, plus
      `OtherMaterial` for every remaining constant of the enum. */
  datatype MaterialType =
    | InvalidType
    | CardOreFilter | CardPatternCapacity | CardCapacity | CardFuzzy | CardRedstone
    | CardSpeed | CardSuperSpeed | CardInverter | CardCrafting | CardPatternRefiller
    | CardAdvancedBlocking | CardLockCrafting | CardSticky | CardFakeCrafting
    | CardSuperluminalSpeed | CardVoidOverflow | CardDistribution
    | Cell1kPart | Cell4kPart | Cell16kPart | Cell64kPart
    | NamePress
    | OtherMaterial(name: string)

  /** The upgrade kinds a card can install. */
  datatype Upgrade =
    | OreFilter | PatternCapacity | Capacity | Fuzzy | Redstone | Speed | SuperSpeed
    | Inverter | Crafting | PatternRefiller | AdvancedBlocking | LockCrafting | Sticky
    | FakeCrafting | SuperluminalSpeed | VoidOverflow | Distribution

  /** A configuration feature that can be switched off. */
  datatype Feature = Feature(name: string)

  /** The fixed attributes of one MaterialType constant. */
  datatype MaterialDef = MaterialDef(kind: MaterialType, damage: int, features: seq<Feature>)

  /** The item's state: damage value to material, and the materials that
      registration has marked ready (MaterialType.isRegistered). */
  datatype Registry = Registry(table: map<int, MaterialDef>, registered: set<MaterialType>)

  datatype CreateError =
    | CreatedTwice   // "Cannot create the same material twice."
    | MetaOverlap    // "Meta Overlap detected."

  /** The stack source handed back for a material. */
  datatype StackSrc = MaterialStackSrc(kind: MaterialType)

  datatype Created = Created(registry: Registry, src: StackSrc)

  const KiloScalar: int := 1024

  const EmptyRegistry := Registry(map[], {})

  /** getTypeByStack: the material registered for a damage value, and
      InvalidType (never null) for a value nobody registered. */
  function GetTypeByStack(reg: Registry, damage: int): (m: MaterialType)
    ensures damage !in reg.table ==> m == InvalidType
    ensures damage in reg.table ==> m == reg.table[damage].kind
  {
    if damage in reg.table then reg.table[damage].kind else InvalidType
  }

  /** getType on a material: the upgrade a card installs; None for every
      material that is not a card. */
  function UpgradeOf(m: MaterialType): (u: Option<Upgrade>)
    ensures u == Some(Fuzzy) <==> m == CardFuzzy
    ensures u == Some(Inverter) <==> m == CardInverter
    ensures u == Some(OreFilter) <==> m == CardOreFilter
  {
    match m
    case CardOreFilter => Some(OreFilter)
    case CardPatternCapacity => Some(PatternCapacity)
    case CardCapacity => Some(Capacity)
    case CardFuzzy => Some(Fuzzy)
    case CardRedstone => Some(Redstone)
    case CardSpeed => Some(Speed)
    case CardSuperSpeed => Some(SuperSpeed)
    case CardInverter => Some(Inverter)
    case CardCrafting => Some(Crafting)
    case CardPatternRefiller => Some(PatternRefiller)
    case CardAdvancedBlocking => Some(AdvancedBlocking)
    case CardLockCrafting => Some(LockCrafting)
    case CardSticky => Some(Sticky)
    case CardFakeCrafting => Some(FakeCrafting)
    case CardSuperluminalSpeed => Some(SuperluminalSpeed)
    case CardVoidOverflow => Some(VoidOverflow)
    case CardDistribution => Some(Distribution)
    case _ => None
  }

  /** The card that installs `u`: the inverse of UpgradeOf on cards. */
  function CardFor(u: Upgrade): (m: MaterialType)
    ensures UpgradeOf(m) == Some(u)
  {
    match u
    case OreFilter => CardOreFilter
    case PatternCapacity => CardPatternCapacity
    case Capacity => CardCapacity
    case Fuzzy => CardFuzzy
    case Redstone => CardRedstone
    case Speed => CardSpeed
    case SuperSpeed => CardSuperSpeed
    case Inverter => CardInverter
    case Crafting => CardCrafting
    case PatternRefiller => CardPatternRefiller
    case AdvancedBlocking => CardAdvancedBlocking
    case LockCrafting => CardLockCrafting
    case Sticky => CardSticky
    case FakeCrafting => CardFakeCrafting
    case SuperluminalSpeed => CardSuperluminalSpeed
    case VoidOverflow => CardVoidOverflow
    case Distribution => CardDistribution
  }

  /** getType is one-to-one on cards: a material installs `u` exactly when it
      is the card for `u`, so no two materials install the same upgrade. */
  lemma UpgradeOfIsInjective(m: MaterialType, u: Upgrade)
    ensures UpgradeOf(m) == Some(u) <==> m == CardFor(u)
  {
  }

  /** getType on a stack of this item, through its damage value. */
  function UpgradeOfStack(reg: Registry, damage: int): (u: Option<Upgrade>)
    ensures damage !in reg.table ==> u.None?
    ensures u.Some? ==> damage in reg.table && reg.table[damage].kind == CardFor(u.value)
    ensures forall v | damage in reg.table && reg.table[damage].kind == CardFor(v) :: u == Some(v)
  {
    var m := GetTypeByStack(reg, damage);
    var u := UpgradeOf(m);
    if u.Some? then UpgradeOfIsInjective(m, u.value); u else u
  }

  /** The feature gate: the loop `enabled = enabled && isFeatureEnabled(f)`
      over the material's features, with the configuration given as the set
      of enabled features. */
  function FeaturesEnabled(features: seq<Feature>, enabled: set<Feature>): (on: bool)
    ensures on <==> forall i | 0 <= i < |features| :: features[i] in enabled
  {
    if |features| == 0 then true
    else FeaturesEnabled(features[..|features| - 1], enabled) && features[|features| - 1] in enabled
  }

  /** createMaterial. A material may be created once; when all its features
      are enabled it is marked ready and claims its damage value, which must
      be free; when any feature is disabled the table is left alone. */
  function CreateMaterial(reg: Registry, def: MaterialDef, enabled: set<Feature>): (r: Result<Created, CreateError>)
    ensures r == Err(CreatedTwice) <==> def.kind in reg.registered
    ensures r == Err(MetaOverlap) <==>
      def.kind !in reg.registered && FeaturesEnabled(def.features, enabled) && def.damage in reg.table
    ensures r.Ok? ==> r.value.src == MaterialStackSrc(def.kind)
    // never overwrites an existing mapping
    ensures r.Ok? ==> forall d | d in reg.table :: d in r.value.registry.table && r.value.registry.table[d] == reg.table[d]
    // a disabled material leaves the item untouched
    ensures r.Ok? && !FeaturesEnabled(def.features, enabled) ==> r.value.registry == reg
    // an enabled one is found afterwards by its damage value, and nothing else is added
    ensures r.Ok? && FeaturesEnabled(def.features, enabled) ==>
      && GetTypeByStack(r.value.registry, def.damage) == def.kind
      && r.value.registry.table.Keys == reg.table.Keys + {def.damage}
      && r.value.registry.registered == reg.registered + {def.kind}
  {
    if def.kind in reg.registered then Err(CreatedTwice)
    else if !FeaturesEnabled(def.features, enabled) then Ok(Created(reg, MaterialStackSrc(def.kind)))
    else if def.damage in reg.table then Err(MetaOverlap)
    else Ok(Created(Registry(reg.table[def.damage := def], reg.registered + {def.kind}), MaterialStackSrc(def.kind)))
  }

  /** What registration keeps true of the item: every table entry sits at its
      own damage value and is marked ready, and no material occupies two
      damage values. */
  ghost predicate Valid(reg: Registry) {
    && (forall d | d in reg.table :: reg.table[d].damage == d && reg.table[d].kind in reg.registered)
    && (forall d1, d2 | d1 in reg.table && d2 in reg.table && d1 != d2 :: reg.table[d1].kind != reg.table[d2].kind)
  }

  lemma EmptyRegistryIsValid()
    ensures Valid(EmptyRegistry)
  {
  }

  /** Every successful createMaterial keeps the item's table consistent. */
  lemma CreateMaterialPreservesValid(reg: Registry, def: MaterialDef, enabled: set<Feature>)
    requires Valid(reg)
    requires CreateMaterial(reg, def, enabled).Ok?
    ensures Valid(CreateMaterial(reg, def, enabled).value.registry)
  {
  }

  /** A lookup in a consistent table returns a material registered at that
      very damage value. */
  lemma LookupIsRegisteredAtDamage(reg: Registry, damage: int)
    requires Valid(reg)
    requires GetTypeByStack(reg, damage) != InvalidType
    ensures GetTypeByStack(reg, damage) in reg.registered
    ensures exists d :: d in reg.table.Values && d.kind == GetTypeByStack(reg, damage) && d.damage == damage
  {
  }

  /** isStorageComponent on a material: exactly the four storage cell parts. */
  predicate IsStorageMaterial(m: MaterialType) {
    m == Cell1kPart || m == Cell4kPart || m == Cell16kPart || m == Cell64kPart
  }

  /** getBytes on a material. */
  function Bytes(m: MaterialType): (b: int)
    ensures b == 0 || b == KiloScalar || b == 4 * KiloScalar || b == 16 * KiloScalar || b == 64 * KiloScalar
    ensures m == Cell1kPart ==> b == KiloScalar
    ensures m == Cell4kPart ==> b == 4 * KiloScalar
    ensures m == Cell16kPart ==> b == 16 * KiloScalar
    ensures m == Cell64kPart ==> b == 64 * KiloScalar
    ensures m !in {Cell1kPart, Cell4kPart, Cell16kPart, Cell64kPart} ==> b == 0
    ensures b > 0 <==> IsStorageMaterial(m)
  {
    match m
    case Cell1kPart => KiloScalar
    case Cell4kPart => KiloScalar * 4
    case Cell16kPart => KiloScalar * 16
    case Cell64kPart => KiloScalar * 64
    case _ => 0
  }

  /** getBytes on a stack of this item. */
  function GetBytes(reg: Registry, damage: int): (b: int)
    ensures b in {0, 1024, 4096, 16384, 65536}
    ensures damage !in reg.table ==> b == 0
    ensures GetTypeByStack(reg, damage) == Cell1kPart ==> b == 1024
    ensures GetTypeByStack(reg, damage) == Cell4kPart ==> b == 4096
    ensures GetTypeByStack(reg, damage) == Cell16kPart ==> b == 16384
    ensures GetTypeByStack(reg, damage) == Cell64kPart ==> b == 65536
    ensures GetTypeByStack(reg, damage) !in {Cell1kPart, Cell4kPart, Cell16kPart, Cell64kPart} ==> b == 0
  {
    Bytes(GetTypeByStack(reg, damage))
  }

  /** isStorageComponent on a stack of this item: it agrees with the byte
      table, holding exactly when the stack has a positive byte count. */
  function IsStorageComponent(reg: Registry, damage: int): (r: bool)
    ensures r ==> damage in reg.table
    ensures r <==> GetBytes(reg, damage) > 0
  {
    IsStorageMaterial(GetTypeByStack(reg, damage))
  }
}
