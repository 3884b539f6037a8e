/**
 * Saving an entity into a tag compound and loading it back
 * (MetaTileEntity.writeToNBT / readFromNBT), stated on a snapshot of the
 * entity's saved state.  The class in the metatileentity module applies these
 * functions to its fields.
 */
module Persistence {
  import opened Wrappers
  import opened Packets
  import opened Inventory
  import opened Facings
  import opened Nbt
  import opened Traits

  /** The parts of an entity that writeToNBT saves. */
  datatype EntityState = EntityState(
    facing: Facing,
    color: Int32,
    importSlots: seq<ItemStack>,
    exportSlots: seq<ItemStack>,
    importTanks: seq<Tank>,
    exportTanks: seq<Tank>,
    traits: seq<Trait>)

  const FacingKey := "FrontFacing"
  const ColorKey := "PaintingColor"
  const ImportItemsKey := "ImportInventory"
  const ExportItemsKey := "ExportInventory"
  const ImportFluidsKey := "ImportFluidInventory"
  const ExportFluidsKey := "ExportFluidInventory"
  const TanksKey := "Tanks"

  /** The keys writeToNBT writes itself, before the traits' keys. */
  function ReservedKeys(withInventories: bool): (r: set<string>)
    ensures FacingKey in r && ColorKey in r
    ensures withInventories <==> ImportItemsKey in r
  {
    {FacingKey, ColorKey} + if withInventories then {ImportItemsKey, ExportItemsKey, ImportFluidsKey, ExportFluidsKey} else {}
  }

  // ----- item slots and tanks (the helpers writing them are not part of this model) -----

  function ItemsTag(slots: seq<ItemStack>): Tag {
    TItems(slots)
  }

  /** FluidTankList.serializeNBT: each tank's fluid; capacities are not saved. */
  function TanksTag(tanks: seq<Tank>): Tag {
    TCompound(map[TanksKey := TFluids(seq(|tanks|, i requires 0 <= i < |tanks| => FluidStack(tanks[i].kind, tanks[i].amount)))])
  }

  /** `current` with its first elements replaced by the saved ones; the number of elements never changes. */
  function Overlay<T>(current: seq<T>, saved: seq<T>): (r: seq<T>)
    ensures |r| == |current|
    ensures forall i :: 0 <= i < |r| && i < |saved| ==> r[i] == saved[i]
    ensures forall i :: |saved| <= i < |r| ==> r[i] == current[i]
  {
    seq(|current|, i requires 0 <= i < |current| => if i < |saved| then saved[i] else current[i])
  }

  /** GTUtility.readItems: slots keep their contents when the key is missing. */
  function ReadItems(slots: seq<ItemStack>, data: Compound, key: string): (r: seq<ItemStack>)
    ensures |r| == |slots|
    ensures !(key in data && data[key].TItems?) ==> r == slots
  {
    if key in data && data[key].TItems? then Overlay(slots, data[key].stacks) else slots
  }

  /** FluidTankList.deserializeNBT: each tank takes the saved fluid and keeps its capacity. */
  function ReadTanks(tanks: seq<Tank>, c: Compound): (r: seq<Tank>)
    ensures SameCapacities(r, tanks)
    ensures !(TanksKey in c && c[TanksKey].TFluids?) ==> r == tanks
  {
    if TanksKey in c && c[TanksKey].TFluids? then
      var saved := c[TanksKey].contents;
      seq(|tanks|, i requires 0 <= i < |tanks| =>
        if i < |saved| then Tank(saved[i].kind, saved[i].amount, tanks[i].capacity) else tanks[i])
    else tanks
  }

  // ----- traits -----

  /** for (trait : mteTraits) data.setTag(trait.getName(), trait.serializeNBT()) */
  function WriteTraits(ts: seq<Trait>, data: Compound): (r: Compound)
    ensures data.Keys <= r.Keys
    ensures forall k :: k !in NameSet(ts) ==> (k in r <==> k in data) && (k in data ==> r[k] == data[k])
    ensures UniqueNames(ts) ==> forall i :: 0 <= i < |ts| ==> ts[i].name in r && r[ts[i].name] == TCompound(ts[i].data)
    decreases |ts|
  {
    if ts == [] then data
    else
      var r := WriteTraits(ts[1..], data[ts[0].name := TCompound(ts[0].data)]);
      NameSetCons(ts);
      assert UniqueNames(ts) ==> forall i :: 1 <= i < |ts| ==> ts[i] == ts[1..][i - 1] by {
        if UniqueNames(ts) { UniqueNamesTail(ts); }
      }
      r
  }

  /** for (trait : mteTraits) trait.deserializeNBT(data.getCompoundTag(trait.getName())) */
  function ReadTraits(ts: seq<Trait>, data: Compound): (r: seq<Trait>)
    ensures |r| == |ts|
    ensures forall i :: 0 <= i < |ts| ==> r[i] == ts[i].(data := GetCompoundTag(data, ts[i].name))
  {
    seq(|ts|, i requires 0 <= i < |ts| => ts[i].(data := GetCompoundTag(data, ts[i].name)))
  }

  // ----- the whole entity -----

  /** The four inventories, each under its own key. */
  function InventoryTags(s: EntityState, data: Compound): (r: Compound)
    ensures ImportItemsKey in r && r[ImportItemsKey] == ItemsTag(s.importSlots)
    ensures ExportItemsKey in r && r[ExportItemsKey] == ItemsTag(s.exportSlots)
    ensures ImportFluidsKey in r && r[ImportFluidsKey] == TanksTag(s.importTanks)
    ensures ExportFluidsKey in r && r[ExportFluidsKey] == TanksTag(s.exportTanks)
    ensures forall k :: k !in ReservedKeys(true) - ReservedKeys(false) ==> (k in r <==> k in data) && (k in data ==> r[k] == data[k])
  {
    ReservedKeysDistinct();
    data[ImportItemsKey := ItemsTag(s.importSlots)][ExportItemsKey := ItemsTag(s.exportSlots)]
      [ImportFluidsKey := TanksTag(s.importTanks)][ExportFluidsKey := TanksTag(s.exportTanks)]
  }

  /** What writeToNBT writes before the traits: facing index and colour, then (optionally) the four inventories. */
  function HeaderTags(s: EntityState, withInventories: bool, data: Compound): (r: Compound)
    ensures FacingKey in r && r[FacingKey] == TInt(s.facing)
    ensures ColorKey in r && r[ColorKey] == TInt(s.color)
    ensures withInventories ==>
      && ImportItemsKey in r && r[ImportItemsKey] == ItemsTag(s.importSlots)
      && ExportItemsKey in r && r[ExportItemsKey] == ItemsTag(s.exportSlots)
      && ImportFluidsKey in r && r[ImportFluidsKey] == TanksTag(s.importTanks)
      && ExportFluidsKey in r && r[ExportFluidsKey] == TanksTag(s.exportTanks)
    ensures forall k :: k !in ReservedKeys(withInventories) ==> (k in r <==> k in data) && (k in data ==> r[k] == data[k])
  {
    ReservedKeysDistinct();
    var d := data[FacingKey := TInt(s.facing)][ColorKey := TInt(s.color)];
    if withInventories then InventoryTags(s, d) else d
  }

  /** writeToNBT: the header tags, then each trait under its name. */
  function EncodeNBT(s: EntityState, withInventories: bool, data: Compound): (r: Compound)
    ensures ReservedKeys(withInventories) <= r.Keys
    ensures forall k :: k !in NameSet(s.traits) && k !in ReservedKeys(withInventories) ==>
      (k in r <==> k in data) && (k in data ==> r[k] == data[k])
  {
    WriteTraits(s.traits, HeaderTags(s, withInventories, data))
  }

  datatype LoadResult = FacingOutOfRange(index: Int32) | Loaded(state: EntityState)

  /**
   * readFromNBT into an entity whose state is `s`.  EnumFacing.VALUES[index]
   * throws before anything is assigned when the stored index is not 0..5;
   * a missing facing reads as index 0 (DOWN) and a missing colour as 0.
   */
  function DecodeNBT(data: Compound, s: EntityState, withInventories: bool): (r: LoadResult)
    ensures r.FacingOutOfRange? <==> FacingAt(GetInteger(data, FacingKey)).None?
    ensures r.Loaded? ==> r.state.facing == GetInteger(data, FacingKey) && r.state.color == GetInteger(data, ColorKey)
    ensures r.Loaded? ==> r.state.traits == ReadTraits(s.traits, data)
    ensures r.Loaded? && !withInventories ==>
      r.state.importSlots == s.importSlots && r.state.exportSlots == s.exportSlots
      && r.state.importTanks == s.importTanks && r.state.exportTanks == s.exportTanks
  {
    var index := GetInteger(data, FacingKey);
    match FacingAt(index)
    case None => FacingOutOfRange(index)
    case Some(f) =>
      var s := s.(facing := f, color := GetInteger(data, ColorKey));
      var s := if withInventories then
        s.(importSlots := ReadItems(s.importSlots, data, ImportItemsKey),
           exportSlots := ReadItems(s.exportSlots, data, ExportItemsKey),
           importTanks := ReadTanks(s.importTanks, GetCompoundTag(data, ImportFluidsKey)),
           exportTanks := ReadTanks(s.exportTanks, GetCompoundTag(data, ExportFluidsKey)))
        else s;
      Loaded(s.(traits := ReadTraits(s.traits, data)))
  }

  /** Inventories of the same sizes, tanks of the same capacities. */
  predicate SameShape(a: EntityState, b: EntityState) {
    |a.importSlots| == |b.importSlots| && |a.exportSlots| == |b.exportSlots|
    && SameCapacities(a.importTanks, b.importTanks) && SameCapacities(a.exportTanks, b.exportTanks)
  }

  lemma OverlayAll<T>(current: seq<T>, saved: seq<T>)
    requires |current| == |saved|
    ensures Overlay(current, saved) == saved
  {
  }

  lemma ReadTanksRoundTrip(tanks: seq<Tank>, receiver: seq<Tank>)
    requires SameCapacities(tanks, receiver)
    ensures TanksTag(tanks).TCompound? && ReadTanks(receiver, TanksTag(tanks).entries) == tanks
  {
  }

  lemma ReservedKeysDistinct()
    ensures FacingKey != ColorKey
    ensures FacingKey != ImportItemsKey && FacingKey != ExportItemsKey && FacingKey != ImportFluidsKey && FacingKey != ExportFluidsKey
    ensures ColorKey != ImportItemsKey && ColorKey != ExportItemsKey && ColorKey != ImportFluidsKey && ColorKey != ExportFluidsKey
    ensures ImportItemsKey != ExportItemsKey && ImportItemsKey != ImportFluidsKey && ImportItemsKey != ExportFluidsKey
    ensures ExportItemsKey != ImportFluidsKey && ExportItemsKey != ExportFluidsKey && ImportFluidsKey != ExportFluidsKey
  {
    assert FacingKey[0] == 'F' && ColorKey[0] == 'P' && ImportItemsKey[0] == 'I' && ExportItemsKey[0] == 'E';
    assert |ImportItemsKey| == 15 && |ExportItemsKey| == 15 && |ImportFluidsKey| == 20 && |ExportFluidsKey| == 20;
    assert ImportFluidsKey[0] == 'I' && ExportFluidsKey[0] == 'E';
  }

  /** writeToNBT stores the facing and colour, and the four inventories when asked, under their own keys. */
  lemma EncodeNBTReserved(s: EntityState, withInventories: bool, data: Compound)
    requires forall i :: 0 <= i < |s.traits| ==> s.traits[i].name !in ReservedKeys(withInventories)
    ensures var c := EncodeNBT(s, withInventories, data);
      && c[FacingKey] == TInt(s.facing) && c[ColorKey] == TInt(s.color)
      && (withInventories ==>
            c[ImportItemsKey] == ItemsTag(s.importSlots) && c[ExportItemsKey] == ItemsTag(s.exportSlots)
            && c[ImportFluidsKey] == TanksTag(s.importTanks) && c[ExportFluidsKey] == TanksTag(s.exportTanks))
  {
    var reserved := ReservedKeys(withInventories);
    assert forall k :: k in reserved ==> k !in NameSet(s.traits);
  }

  /**
   * Loading what was saved gives back the saved state, into an entity built
   * the same way (same trait names in the same order, same inventory shapes):
   * facing, colour and every trait's compound, and the inventories when they
   * are saved at all; otherwise the receiver keeps its own inventories.  Trait
   * names must be unique and must not clash with the entity's own keys (a
   * trait named "FrontFacing" would overwrite the facing).
   */
  lemma NbtRoundTrip(s: EntityState, receiver: EntityState, withInventories: bool, data: Compound)
    requires UniqueNames(s.traits)
    requires forall i :: 0 <= i < |s.traits| ==> s.traits[i].name !in ReservedKeys(withInventories)
    requires SameNames(s.traits, receiver.traits) && SameShape(s, receiver)
    ensures var r := DecodeNBT(EncodeNBT(s, withInventories, data), receiver, withInventories);
      && r.Loaded?
      && r.state.facing == s.facing && r.state.color == s.color
      && (forall i :: 0 <= i < |s.traits| ==> r.state.traits[i] == receiver.traits[i].(data := s.traits[i].data))
      && (withInventories ==>
            r.state.importSlots == s.importSlots && r.state.exportSlots == s.exportSlots
            && r.state.importTanks == s.importTanks && r.state.exportTanks == s.exportTanks)
      && (!withInventories ==>
            r.state.importSlots == receiver.importSlots && r.state.exportSlots == receiver.exportSlots
            && r.state.importTanks == receiver.importTanks && r.state.exportTanks == receiver.exportTanks)
  {
    var c := EncodeNBT(s, withInventories, data);
    EncodeNBTReserved(s, withInventories, data);
    if withInventories {
      OverlayAll(receiver.importSlots, s.importSlots);
      OverlayAll(receiver.exportSlots, s.exportSlots);
      ReadTanksRoundTrip(s.importTanks, receiver.importTanks);
      ReadTanksRoundTrip(s.exportTanks, receiver.exportTanks);
    }
    var r := DecodeNBT(c, receiver, withInventories);
    forall i | 0 <= i < |s.traits| ensures r.state.traits[i] == receiver.traits[i].(data := s.traits[i].data) {
      assert c[s.traits[i].name] == TCompound(s.traits[i].data);
    }
  }

  /** An absent facing key loads as DOWN and an absent colour as 0. */
  lemma MissingKeysLoadDefaults(data: Compound, s: EntityState, withInventories: bool)
    requires FacingKey !in data && ColorKey !in data
    ensures DecodeNBT(data, s, withInventories) == Loaded(DecodeNBT(data, s, withInventories).state)
    ensures DecodeNBT(data, s, withInventories).state.facing == Down
    ensures DecodeNBT(data, s, withInventories).state.color == 0
  {
  }
}
