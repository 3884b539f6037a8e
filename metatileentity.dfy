/**
 * MetaTileEntity: the behaviour object a machine block's tile entity (its
 * holder) delegates to.  It owns an ordered list of named traits, import and
 * export item slots and fluid tanks, a front facing, a painting colour, six
 * redstone outputs and a cached comparator value.  Its methods change these
 * fields in place and are proved to end in the state the Traits, Persistence,
 * Sync and Transfer modules describe.
 */
module Machine {
  import opened Wrappers
  import opened Packets
  import opened Inventory
  import opened Facings
  import opened Nbt
  import opened Traits
  import Persistence
  import Sync
  import Transfer
  import Containers
  import Handlers

  /** A delta for watching clients: its discriminator and the bytes its writer produced. */
  datatype Packet = Packet(discriminator: int, payload: seq<Byte>)

  /** The painting colour a new entity starts with. */
  const DefaultColor: Int32 := 0xFF_FFFF

  /**
   * MetaTileEntityHolder, the tile entity hosting an entity: whether it is in
   * a world and on which side, and a log of what the entity asks of it.
   */
  class MetaTileEntityHolder {
    const hasWorld: bool   // getWorld() != null
    const isRemote: bool   // getWorld().isRemote
    var dirtyMarks: nat
    var packets: seq<Packet>
    var blockUpdates: nat
    var renderUpdates: nat

    constructor (hasWorld: bool, isRemote: bool)
      ensures this.hasWorld == hasWorld && this.isRemote == isRemote
      ensures dirtyMarks == 0 && packets == [] && blockUpdates == 0 && renderUpdates == 0
    {
      this.hasWorld := hasWorld;
      this.isRemote := isRemote;
      dirtyMarks := 0;
      packets := [];
      blockUpdates := 0;
      renderUpdates := 0;
    }

    method MarkDirty()
      modifies this`dirtyMarks
      ensures dirtyMarks == old(dirtyMarks) + 1
    {
      dirtyMarks := dirtyMarks + 1;
    }

    method WriteCustomData(discriminator: int, payload: seq<Byte>)
      modifies this`packets
      ensures packets == old(packets) + [Packet(discriminator, payload)]
    {
      packets := packets + [Packet(discriminator, payload)];
    }

    method NotifyBlockUpdate()
      modifies this`blockUpdates
      ensures blockUpdates == old(blockUpdates) + 1
    {
      blockUpdates := blockUpdates + 1;
    }

    method ScheduleChunkForRenderUpdate()
      modifies this`renderUpdates
      ensures renderUpdates == old(renderUpdates) + 1
    {
      renderUpdates := renderUpdates + 1;
    }
  }

  // ----- names -----

  /** getMetaName: the translation key of an entity id. */
  function MetaName(id: string): (r: string)
    ensures |r| == 17 + |id| && r[..17] == "gregtech.machine." && r[17..] == id
  {
    "gregtech.machine." + id
  }

  /** getMetaFullName: the translation key of the entity's display name. */
  function MetaFullName(id: string): (r: string)
    ensures r == MetaName(id) + ".name"
  {
    "gregtech.machine." + id + ".name"
  }

  /** Different entity ids never share a translation key. */
  lemma MetaNameInjective(a: string, b: string)
    requires MetaName(a) == MetaName(b) || MetaFullName(a) == MetaFullName(b)
    ensures a == b
  {
    if MetaFullName(a) == MetaFullName(b) {
      assert MetaName(a) == MetaFullName(a)[..|MetaFullName(a)| - 5];
      assert MetaName(b) == MetaFullName(b)[..|MetaFullName(b)| - 5];
    }
    assert a == MetaName(a)[17..];
    assert b == MetaName(b)[17..];
  }

  // ----- the item-stack colour stash -----

  /**
   * writeItemStackData as the source writes it: the colour is stored unless
   * it equals 0xFFFFFFFF, which as a Java int is -1.
   */
  function ItemStackDataAsWritten(color: Int32, tag: Compound): (r: Compound)
    ensures color != -1 ==> HasIntKey(r, Persistence.ColorKey) && GetInteger(r, Persistence.ColorKey) == color
    ensures color == -1 ==> r == tag
    ensures forall k :: k != Persistence.ColorKey ==> (k in r <==> k in tag) && (k in tag ==> r[k] == tag[k])
  {
    if color != -1 then tag[Persistence.ColorKey := TInt(color)] else tag
  }

  /**
   * writeItemStackData as intended: an entity still in the default colour
   * 0xFFFFFF leaves the item's tag alone, so that its item stacks with new ones.
   */
  function ItemStackData(color: Int32, tag: Compound): (r: Compound)
    ensures color != DefaultColor ==> HasIntKey(r, Persistence.ColorKey) && GetInteger(r, Persistence.ColorKey) == color
    ensures color == DefaultColor ==> r == tag
    ensures forall k :: k != Persistence.ColorKey ==> (k in r <==> k in tag) && (k in tag ==> r[k] == tag[k])
  {
    if color != DefaultColor then tag[Persistence.ColorKey := TInt(color)] else tag
  }

  /** initFromItemStackData: the colour an item's tag carries, or `current` when it carries none. */
  function ColorFromItemStack(tag: Compound, current: Int32): (r: Int32)
    ensures HasIntKey(tag, Persistence.ColorKey) ==> r == GetInteger(tag, Persistence.ColorKey)
    ensures !HasIntKey(tag, Persistence.ColorKey) ==> r == current
  {
    if HasIntKey(tag, Persistence.ColorKey) then GetInteger(tag, Persistence.ColorKey) else current
  }

  /**
   * Breaking an entity into an item and placing that item gives a new entity
   * (default colour) with the old colour, whatever it was.
   */
  lemma ItemStackColorRoundTrip(color: Int32, tag: Compound)
    requires !HasIntKey(tag, Persistence.ColorKey)
    ensures ColorFromItemStack(ItemStackData(color, tag), DefaultColor) == color
  {
  }

  /**
   * The comparison with 0xFFFFFFFF never matches the default colour: an
   * uncoloured entity writes PaintingColor into its item's empty tag, so
   * the item differs from a new one and does not stack with it, while the
   * intended definition leaves the tag empty.  And an entity painted -1
   * (0xFFFFFFFF) writes nothing, so its item places as 0xFFFFFF.
   */
  lemma ItemStackDataAsWrittenMarksDefault()
    ensures ItemStackDataAsWritten(DefaultColor, map[]) == map[Persistence.ColorKey := TInt(DefaultColor)]
    ensures ItemStackDataAsWritten(DefaultColor, map[]) != map[]
    ensures ItemStackData(DefaultColor, map[]) == map[]
    ensures ColorFromItemStack(ItemStackDataAsWritten(-1, map[]), DefaultColor) == DefaultColor != -1
  {
    assert Persistence.ColorKey in ItemStackDataAsWritten(DefaultColor, map[]);
  }

  // ----- capabilities -----

  /** What getCapability returns: one of the two inventory proxies, a trait, or null. */
  datatype CapabilityAnswer = FluidInventory | ItemInventory | TraitCapability(index: nat) | NoCapability

  /** The slots of an item handler of a list, one list of slots per handler. */
  function SlotsOf(hs: seq<ItemHandler>): (r: seq<seq<ItemStack>>)
    reads hs
    ensures |r| == |hs| && forall g :: 0 <= g < |hs| ==> r[g] == hs[g].slots
    ensures HandlersValid(hs) ==> Transfer.SlotShapes(r, LimitsOf(hs))
  {
    seq(|hs|, g requires 0 <= g < |hs| reads hs => hs[g].slots)
  }

  function LimitsOf(hs: seq<ItemHandler>): (r: seq<seq<nat>>)
    ensures |r| == |hs| && forall g :: 0 <= g < |hs| ==> r[g] == hs[g].limits
  {
    seq(|hs|, g requires 0 <= g < |hs| => hs[g].limits)
  }

  function TanksOf(hs: seq<FluidTankList>): (r: seq<seq<Tank>>)
    reads hs
    ensures |r| == |hs| && forall g :: 0 <= g < |hs| ==> r[g] == hs[g].tanks
  {
    seq(|hs|, g requires 0 <= g < |hs| reads hs => hs[g].tanks)
  }

  /** The traits after update(): each trait the entity lets update has been updated once. */
  function UpdatedTraits(ts: seq<Trait>, shouldUpdate: Trait -> bool): (r: seq<Trait>)
    ensures SameNames(r, ts)
    ensures forall i :: 0 <= i < |ts| ==> r[i] == if shouldUpdate(ts[i]) then Updated(ts[i]) else ts[i]
  {
    seq(|ts|, i requires 0 <= i < |ts| => if shouldUpdate(ts[i]) then Updated(ts[i]) else ts[i])
  }

  /** The traits after each was told of a new front facing. */
  function NotifiedTraits(ts: seq<Trait>, f: Facing): (r: seq<Trait>)
    ensures SameNames(r, ts)
    ensures forall i :: 0 <= i < |ts| ==> r[i] == NotifiedOfFacing(ts[i], f)
  {
    seq(|ts|, i requires 0 <= i < |ts| => NotifiedOfFacing(ts[i], f))
  }

  /** The largest of a list of signal strengths, 0 for none (IntStream.max().orElse(0)). */
  function MaxOf(s: seq<Int32>): (m: Int32)
    ensures s == [] ==> m == 0
    ensures forall i :: 0 <= i < |s| ==> s[i] <= m
    ensures s != [] ==> exists i :: 0 <= i < |s| && s[i] == m
    decreases |s|
  {
    if s == [] then 0
    else if |s| == 1 then s[0]
    else
      var rest := MaxOf(s[1..]);
      assert forall i :: 1 <= i < |s| ==> s[i] == s[1..][i - 1];
      if s[0] >= rest then s[0] else rest
  }

  ghost predicate HandlersValid(hs: seq<ItemHandler>)
    reads hs
  {
    forall g :: 0 <= g < |hs| ==> hs[g].Valid()
  }

  ghost predicate TankListsValid(hs: seq<FluidTankList>)
    reads hs
  {
    forall g :: 0 <= g < |hs| ==> hs[g].Valid()
  }

  predicate DistinctItemHandlers(hs: seq<ItemHandler>) {
    forall a, b :: 0 <= a < b < |hs| ==> hs[a] != hs[b]
  }

  predicate DistinctTankLists(hs: seq<FluidTankList>) {
    forall a, b :: 0 <= a < b < |hs| ==> hs[a] != hs[b]
  }

  // ----- static inventory helpers -----

  /** isItemHandlerEmpty: true when every slot is empty; the scan stops at the first that is not. */
  method IsItemHandlerEmpty(h: ItemHandler) returns (empty: bool)
    ensures empty <==> forall k :: 0 <= k < |h.slots| ==> h.slots[k].IsEmpty()
  {
    empty := true;
    var i := 0;
    while i < |h.slots| && empty
      invariant 0 <= i <= |h.slots|
      invariant empty ==> forall k :: 0 <= k < i ==> h.slots[k].IsEmpty()
      invariant !empty ==> i < |h.slots| && !h.slots[i].IsEmpty()
      decreases |h.slots| - i, empty
    {
      if !h.slots[i].IsEmpty() {
        empty := false;
      } else {
        i := i + 1;
      }
    }
  }

  /**
   * addItemsToItemHandler: each stack is inserted, stacked; the answer is
   * whether all went in whole.  For real, a stack that does not fit does not
   * stop the later ones.  When simulating, every stack is tried on the
   * unchanged slots, and the first that does not fit ends the scan.
   */
  method AddItemsToItemHandler(h: ItemHandler, simulate: bool, items: seq<ItemStack>) returns (insertedAll: bool)
    requires h.Valid()
    modifies h
    ensures h.Valid()
    ensures insertedAll == if simulate then Handlers.AddItemsSimulatedAsWritten(old(h.slots), h.limits, items)
                           else Handlers.AddItems(old(h.slots), h.limits, items).all
    ensures h.slots == if simulate then old(h.slots) else Handlers.AddItems(old(h.slots), h.limits, items).slots
  {
    ghost var goal := Handlers.AddItems(h.slots, h.limits, items);
    insertedAll := true;
    var k := 0;
    while k < |items| && (insertedAll || !simulate)
      invariant 0 <= k <= |items| && h.Valid()
      invariant simulate ==> h.slots == old(h.slots)
      invariant simulate ==> (insertedAll <==> forall j :: 0 <= j < k ==> InsertStacked(old(h.slots), h.limits, items[j]).stack.IsEmpty())
      invariant !simulate ==> (insertedAll && Handlers.AddItems(h.slots, h.limits, items[k..]).all) == goal.all
      invariant !simulate ==> Handlers.AddItems(h.slots, h.limits, items[k..]).slots == goal.slots
    {
      assert items[k..][0] == items[k] && items[k..][1..] == items[k + 1..];
      var leftover := InsertItemStacked(h, items[k], simulate);
      insertedAll := insertedAll && leftover.IsEmpty();
      k := k + 1;
    }
  }

  /**
   * The dry run addItemsToItemHandler evidently means: the stacks inserted
   * one after another into a copy of the slots, so that the answer is the
   * one the real insertion gives.
   */
  method CanAddItemsToItemHandler(h: ItemHandler, items: seq<ItemStack>) returns (fits: bool)
    requires h.Valid()
    ensures fits == Handlers.AddItems(h.slots, h.limits, items).all
  {
    var slots := h.slots;
    fits := true;
    var k := 0;
    while k < |items| && fits
      invariant 0 <= k <= |items| && |slots| == |h.limits|
      invariant (fits && Handlers.AddItems(slots, h.limits, items[k..]).all) == Handlers.AddItems(h.slots, h.limits, items).all
    {
      assert items[k..][0] == items[k] && items[k..][1..] == items[k + 1..];
      var r := InsertStacked(slots, h.limits, items[k]);
      fits := r.stack.IsEmpty();
      slots := r.slots;
      k := k + 1;
    }
  }

  /**
   * addFluidsToFluidHandler: each stack is filled; the answer is whether
   * every stack was taken whole.  When simulating, every stack is tried on
   * the unchanged tanks, and the first that is not taken whole ends the scan.
   */
  method AddFluidsToFluidHandler(h: FluidTankList, simulate: bool, stacks: seq<FluidStack>) returns (filledAll: bool)
    requires h.Valid()
    modifies h
    ensures h.Valid()
    ensures filledAll == if simulate then Handlers.AddFluidsSimulatedAsWritten(old(h.tanks), stacks)
                         else Handlers.AddFluids(old(h.tanks), stacks).all
    ensures h.tanks == if simulate then old(h.tanks) else Handlers.AddFluids(old(h.tanks), stacks).tanks
  {
    ghost var goal := Handlers.AddFluids(h.tanks, stacks);
    filledAll := true;
    var k := 0;
    while k < |stacks| && (filledAll || !simulate)
      invariant 0 <= k <= |stacks| && h.Valid()
      invariant simulate ==> h.tanks == old(h.tanks)
      invariant simulate ==> (filledAll <==> forall j :: 0 <= j < k ==> FillTanks(old(h.tanks), stacks[j]).filled == stacks[j].amount)
      invariant !simulate ==> (filledAll && Handlers.AddFluids(h.tanks, stacks[k..]).all) == goal.all
      invariant !simulate ==> Handlers.AddFluids(h.tanks, stacks[k..]).tanks == goal.tanks
    {
      assert stacks[k..][0] == stacks[k] && stacks[k..][1..] == stacks[k + 1..];
      var filled := h.Fill(stacks[k], !simulate);
      filledAll := filledAll && filled == stacks[k].amount;
      k := k + 1;
    }
  }

  /** The dry run addFluidsToFluidHandler evidently means: the stacks filled one after another into a copy of the tanks. */
  method CanAddFluidsToFluidHandler(h: FluidTankList, stacks: seq<FluidStack>) returns (fits: bool)
    ensures fits == Handlers.AddFluids(h.tanks, stacks).all
  {
    var tanks := h.tanks;
    fits := true;
    var k := 0;
    while k < |stacks| && fits
      invariant 0 <= k <= |stacks|
      invariant (fits && Handlers.AddFluids(tanks, stacks[k..]).all) == Handlers.AddFluids(h.tanks, stacks).all
    {
      assert stacks[k..][0] == stacks[k] && stacks[k..][1..] == stacks[k + 1..];
      var f := FillTanks(tanks, stacks[k]);
      fits := f.filled == stacks[k].amount;
      tanks := f.tanks;
      k := k + 1;
    }
  }

  /**
   * clearInventory: every non-empty slot is set to EMPTY and its stack
   * appended to the buffer, in slot order.
   */
  method ClearInventory(itemBuffer: seq<ItemStack>, inventory: ItemHandler) returns (buffer: seq<ItemStack>)
    requires inventory.Valid()
    modifies inventory
    ensures inventory.Valid() && inventory.slots == Handlers.Cleared(old(inventory.slots))
    ensures buffer == itemBuffer + Handlers.NonEmptyStacks(old(inventory.slots))
  {
    ghost var slots0 := inventory.slots;
    buffer := itemBuffer;
    var i := 0;
    while i < |inventory.limits|
      invariant 0 <= i <= |inventory.limits| && inventory.Valid()
      invariant forall k :: 0 <= k < i ==> inventory.slots[k] == Handlers.Cleared(slots0)[k]
      invariant forall k :: i <= k < |slots0| ==> inventory.slots[k] == slots0[k]
      invariant buffer == itemBuffer + Handlers.NonEmptyStacks(slots0[..i])
    {
      var stackInSlot := inventory.slots[i];
      Handlers.NonEmptyStacksAppend(slots0[..i], [slots0[i]]);
      assert slots0[..i + 1] == slots0[..i] + [slots0[i]];
      if !stackInSlot.IsEmpty() {
        inventory.SetStackInSlot(i, EmptyStack);
        buffer := buffer + [stackInSlot];
      }
      i := i + 1;
    }
    assert slots0[..i] == slots0;
  }

  class MetaTileEntity {
    const metaTileEntityId: string
    const serializeInventories: bool   // shouldSerializeInventories()
    var holder: MetaTileEntityHolder?
    const importItems: ItemHandler
    const exportItems: ItemHandler
    const importFluids: FluidTankList
    const exportFluids: FluidTankList
    var traits: seq<Trait>
    var frontFacing: Facing
    var paintingColor: Int32
    const sidedRedstoneOutput: array<Int32>
    var cachedComparatorValue: Int32

    ghost predicate Valid()
      reads this, importItems, exportItems, importFluids, exportFluids
    {
      && importItems != exportItems && importFluids != exportFluids
      && importItems.Valid() && exportItems.Valid() && importFluids.Valid() && exportFluids.Valid()
      && sidedRedstoneOutput.Length == 6
      && TraitsValid()
    }

    /** The part of Valid() about the trait list: names unique, and short enough to be sent. */
    ghost predicate TraitsValid()
      reads this
    {
      UniqueNames(traits) && NamesFit(traits)
    }

    /**
     * A new entity: the inventories the create*Handler hooks build (slot
     * limits and tank capacities given here), no traits, no holder, facing
     * NORTH, colour 0xFFFFFF, all redstone outputs 0.
     */
    constructor (id: string, importLimits: seq<nat>, exportLimits: seq<nat>,
                 importCapacities: seq<nat>, exportCapacities: seq<nat>, serializeInventories: bool)
      ensures Valid() && fresh(importItems) && fresh(exportItems) && fresh(importFluids) && fresh(exportFluids)
      ensures fresh(sidedRedstoneOutput) && sidedRedstoneOutput[..] == [0, 0, 0, 0, 0, 0]
      ensures metaTileEntityId == id && this.serializeInventories == serializeInventories
      ensures holder == null && traits == [] && frontFacing == North && paintingColor == DefaultColor
      ensures cachedComparatorValue == 0
      ensures importItems.limits == importLimits && exportItems.limits == exportLimits
      ensures importFluids.capacities == importCapacities && exportFluids.capacities == exportCapacities
    {
      metaTileEntityId := id;
      this.serializeInventories := serializeInventories;
      holder := null;
      importItems := new ItemHandler(importLimits);
      exportItems := new ItemHandler(exportLimits);
      importFluids := new FluidTankList(importCapacities);
      exportFluids := new FluidTankList(exportCapacities);
      traits := [];
      frontFacing := North;
      paintingColor := DefaultColor;
      sidedRedstoneOutput := new Int32[6](_ => 0);
      cachedComparatorValue := 0;
    }

    /** getWorld() != null && !getWorld().isRemote: the entity is on the authoritative side. */
    predicate Authoritative()
      reads this
    {
      holder != null && holder.hasWorld && !holder.isRemote
    }

    /** The holder, as a frame: empty while there is none. */
    function HolderSet(): set<MetaTileEntityHolder>
      reads this
    {
      if holder == null then {} else {holder}
    }

    method MarkDirty()
      modifies HolderSet()`dirtyMarks
      ensures holder != null ==> holder.dirtyMarks == old(holder.dirtyMarks) + 1
    {
      if holder != null {
        holder.MarkDirty();
      }
    }

    method WriteCustomData(discriminator: int, payload: seq<Byte>)
      modifies HolderSet()`packets
      ensures holder != null ==> holder.packets == old(holder.packets) + [Packet(discriminator, payload)]
    {
      if holder != null {
        holder.WriteCustomData(discriminator, payload);
      }
    }

    // ----- traits -----

    /**
     * addMetaTileEntityTrait: any trait of the same name is removed, then the
     * new one is appended, so it is the last and the only one of its name.
     */
    method AddMetaTileEntityTrait(t: Trait)
      requires Valid() && |t.name| <= MaxStringLength
      modifies this`traits
      ensures Valid() && traits == AddTrait(old(traits), t)
      ensures traits[|traits| - 1] == t && CountNamed(traits, t.name) == 1
      ensures |traits| == |old(traits)| + if t.name in NameSet(old(traits)) then 0 else 1
    {
      AddTraitProperties(traits, t);
      RemoveNamedMembers(traits, t.name);
      traits := RemoveNamed(traits, t.name);
      traits := traits + [t];
    }

    /** update(): every trait that shouldUpdate admits is updated, in list order. */
    method Update(shouldUpdate: Trait -> bool)
      requires Valid()
      modifies this`traits
      ensures Valid() && traits == UpdatedTraits(old(traits), shouldUpdate)
    {
      var i := 0;
      while i < |traits|
        invariant 0 <= i <= |traits| && |traits| == |old(traits)|
        invariant forall j :: 0 <= j < i ==> traits[j] == if shouldUpdate(old(traits)[j]) then Updated(old(traits)[j]) else old(traits)[j]
        invariant forall j :: i <= j < |traits| ==> traits[j] == old(traits)[j]
      {
        if shouldUpdate(traits[i]) {
          traits := traits[i := Updated(traits[i])];
        }
        i := i + 1;
      }
      assert SameNames(traits, old(traits));
    }

    // ----- capabilities -----

    /** The tanks the fluid proxy reports: the import tanks, then the export tanks. */
    function FluidTankCount(): nat {
      |importFluids.capacities| + |exportFluids.capacities|
    }

    /** The slots the item proxy reports: the import slots, then the export slots. */
    function ItemSlotCount(): nat {
      |importItems.limits| + |exportItems.limits|
    }

    /**
     * getCapability: the fluid proxy when asked for fluid handling and there
     * is a tank, else the item proxy when asked for item handling and there is
     * a slot, else the first trait implementing the capability, else null.
     */
    function GetCapability(cap: Capability): (r: CapabilityAnswer)
      reads this
      ensures r.FluidInventory? <==> cap == FluidHandlerCapability && FluidTankCount() > 0
      ensures r.ItemInventory? <==> cap == ItemHandlerCapability && ItemSlotCount() > 0
      ensures r.TraitCapability? ==>
        && r.index < |traits| && traits[r.index].capability == Some(cap)
        && forall j :: 0 <= j < r.index ==> traits[j].capability != Some(cap)
      ensures r.NoCapability? <==>
        && !(cap == FluidHandlerCapability && FluidTankCount() > 0)
        && !(cap == ItemHandlerCapability && ItemSlotCount() > 0)
        && forall j :: 0 <= j < |traits| ==> traits[j].capability != Some(cap)
    {
      if cap == FluidHandlerCapability && FluidTankCount() > 0 then FluidInventory
      else if cap == ItemHandlerCapability && ItemSlotCount() > 0 then ItemInventory
      else
        match FirstProvider(traits, cap)
        case None => NoCapability
        case Some(i) => TraitCapability(i)
    }

    /** hasCapability: exactly when getCapability returns something. */
    predicate HasCapability(cap: Capability)
      reads this
      ensures HasCapability(cap) <==> !GetCapability(cap).NoCapability?
    {
      || (cap == FluidHandlerCapability && FluidTankCount() > 0)
      || (cap == ItemHandlerCapability && ItemSlotCount() > 0)
      || exists j :: 0 <= j < |traits| && traits[j].capability == Some(cap)
    }

    // ----- saving and loading -----

    /** The saved parts of the entity. */
    function State(): Persistence.EntityState
      reads this, importItems, exportItems, importFluids, exportFluids
    {
      Persistence.EntityState(frontFacing, paintingColor, importItems.slots, exportItems.slots,
                              importFluids.tanks, exportFluids.tanks, traits)
    }

    /** writeToNBT: `data` with the entity's keys written into it. */
    method WriteToNBT(data: Compound) returns (r: Compound)
      requires Valid()
      ensures r == Persistence.EncodeNBT(State(), serializeInventories, data)
    {
      var d := data[Persistence.FacingKey := TInt(frontFacing)][Persistence.ColorKey := TInt(paintingColor)];
      if serializeInventories {
        d := d[Persistence.ImportItemsKey := Persistence.ItemsTag(importItems.slots)]
              [Persistence.ExportItemsKey := Persistence.ItemsTag(exportItems.slots)]
              [Persistence.ImportFluidsKey := Persistence.TanksTag(importFluids.tanks)]
              [Persistence.ExportFluidsKey := Persistence.TanksTag(exportFluids.tanks)];
      }
      ghost var start := d;
      var i := 0;
      while i < |traits|
        invariant 0 <= i <= |traits|
        invariant Persistence.WriteTraits(traits[i..], d) == Persistence.WriteTraits(traits, start)
      {
        assert traits[i..][1..] == traits[i + 1..];
        d := d[traits[i].name := TCompound(traits[i].data)];
        i := i + 1;
      }
      r := d;
    }

    /**
     * readFromNBT: facing and colour, the inventories when they are saved at
     * all, then each trait's compound.  A stored facing index outside 0..5
     * throws before anything is assigned; the result is then false.
     */
    method ReadFromNBT(data: Compound) returns (loaded: bool)
      requires Valid()
      modifies this`frontFacing, this`paintingColor, this`traits
      modifies importItems`slots, exportItems`slots, importFluids`tanks, exportFluids`tanks
      ensures Valid()
      ensures loaded <==> Persistence.DecodeNBT(data, old(State()), serializeInventories).Loaded?
      ensures loaded ==> State() == Persistence.DecodeNBT(data, old(State()), serializeInventories).state
      ensures !loaded ==> State() == old(State())
    {
      ghost var result := Persistence.DecodeNBT(data, State(), serializeInventories);
      var index := GetInteger(data, Persistence.FacingKey);
      var f := FacingAt(index);
      if f.None? {
        return false;
      }
      frontFacing := f.value;
      paintingColor := GetInteger(data, Persistence.ColorKey);
      if serializeInventories {
        importItems.SetSlots(Persistence.ReadItems(importItems.slots, data, Persistence.ImportItemsKey));
        exportItems.SetSlots(Persistence.ReadItems(exportItems.slots, data, Persistence.ExportItemsKey));
        importFluids.SetTanks(Persistence.ReadTanks(importFluids.tanks, GetCompoundTag(data, Persistence.ImportFluidsKey)));
        exportFluids.SetTanks(Persistence.ReadTanks(exportFluids.tanks, GetCompoundTag(data, Persistence.ExportFluidsKey)));
      }
      ghost var loadedInventories := State();
      assert result.Loaded? && result.state == loadedInventories.(traits := Persistence.ReadTraits(old(traits), data));
      ReadTraitsFromNBT(data);
      loaded := true;
    }

    /** The trait loop of readFromNBT: each trait reads the compound stored under its name. */
    method ReadTraitsFromNBT(data: Compound)
      requires TraitsValid()
      modifies this`traits
      ensures TraitsValid() && traits == Persistence.ReadTraits(old(traits), data)
    {
      var i := 0;
      while i < |traits|
        invariant 0 <= i <= |traits| && |traits| == |old(traits)|
        invariant forall j :: 0 <= j < i ==> traits[j] == old(traits)[j].(data := GetCompoundTag(data, old(traits)[j].name))
        invariant forall j :: i <= j < |traits| ==> traits[j] == old(traits)[j]
      {
        traits := traits[i := traits[i].(data := GetCompoundTag(data, traits[i].name))];
        i := i + 1;
      }
      assert SameNames(traits, old(traits));
      assert traits == Persistence.ReadTraits(old(traits), data);
    }

    // ----- the item-stack colour stash -----

    /** initFromItemStackData: take the colour the item's tag carries, if any. */
    method InitFromItemStackData(tag: Compound)
      modifies this`paintingColor
      ensures paintingColor == ColorFromItemStack(tag, old(paintingColor))
    {
      if HasIntKey(tag, Persistence.ColorKey) {
        paintingColor := GetInteger(tag, Persistence.ColorKey);
      }
    }

    /** writeItemStackData as the source writes it: the colour is stored unless it is 0xFFFFFFFF (-1). */
    method WriteItemStackData(tag: Compound) returns (r: Compound)
      ensures r == ItemStackDataAsWritten(paintingColor, tag)
    {
      r := tag;
      if paintingColor != -1 {
        r := r[Persistence.ColorKey := TInt(paintingColor)];
      }
    }

    /** writeItemStackData with the comparison against the default colour 0xFFFFFF it is meant to make. */
    method WriteItemStackDataUnlessDefault(tag: Compound) returns (r: Compound)
      ensures r == ItemStackData(paintingColor, tag)
    {
      r := tag;
      if paintingColor != DefaultColor {
        r := r[Persistence.ColorKey := TInt(paintingColor)];
      }
    }

    // ----- network sync -----

    /** The parts of the entity the full sync carries. */
    function SyncState(): Sync.SyncState
      reads this
    {
      Sync.SyncState(frontFacing, paintingColor, traits)
    }

    /** writeInitialSyncData: facing byte, colour, trait count, then each trait's name and initial data. */
    method WriteInitialSyncData(buf: PacketBuffer)
      requires Valid()
      modifies buf`data
      ensures buf.data == old(buf.data) + Sync.InitialSyncBytes(SyncState())
    {
      ghost var goal := old(buf.data) + Sync.InitialSyncBytes(SyncState());
      Sync.InitialSyncBytesSplit(SyncState());
      buf.WriteByte(frontFacing);
      buf.WriteInt(paintingColor);
      buf.WriteShort(|traits|);
      var i := 0;
      while i < |traits|
        invariant 0 <= i <= |traits| && NamesFit(traits[i..])
        invariant buf.data + Sync.TraitsSyncBytes(traits[i..]) == goal
      {
        Sync.TraitsSyncStep(traits, i, buf.data, goal);
        buf.WriteString(traits[i].name);
        buf.WriteInt(traits[i].syncValue);
        i := i + 1;
      }
      assert traits[i..] == [];
    }

    /** receiveInitialSyncData: the decoder of Sync.ReceiveInitial, run in place on the buffer. */
    method ReceiveInitialSyncData(buf: PacketBuffer) returns (error: Option<Sync.SyncError>)
      requires Valid() && buf.Valid()
      modifies this`frontFacing, this`paintingColor, this`traits, buf`readIndex
      ensures Valid() && buf.Valid()
      ensures var o := Sync.ReceiveInitial(old(buf.data), old(buf.readIndex), old(SyncState()));
        SyncState() == o.state && buf.readIndex == o.pos && error == o.error
    {
      ghost var o := Sync.ReceiveInitial(buf.data, buf.readIndex, SyncState());
      var b := buf.ReadByte();
      if b.None? {
        return Some(Sync.BufferUnderflow);
      }
      var f := FacingAt(b.value);
      if f.None? {
        return Some(Sync.FacingOutOfRange(b.value));
      }
      frontFacing := f.value;
      var c := buf.ReadInt();
      if c.None? {
        return Some(Sync.BufferUnderflow);
      }
      paintingColor := c.value;
      var n := buf.ReadShort();
      if n.None? {
        return Some(Sync.BufferUnderflow);
      }
      error := ReceiveTraitEntries(buf, n.value);
    }

    /** The trait loop of receiveInitialSyncData: `amount` entries, each a name and that trait's initial data. */
    method ReceiveTraitEntries(buf: PacketBuffer, amount: int) returns (error: Option<Sync.SyncError>)
      requires TraitsValid() && buf.Valid()
      modifies this`traits, buf`readIndex
      ensures TraitsValid() && buf.Valid()
      ensures var o := Sync.ReceiveTraits(old(buf.data), old(buf.readIndex), old(SyncState()), amount);
        SyncState() == o.state && buf.readIndex == o.pos && error == o.error
    {
      ghost var o := Sync.ReceiveTraits(buf.data, buf.readIndex, SyncState(), amount);
      var remaining := amount;
      error := None;
      while remaining > 0 && error.None?
        invariant TraitsValid() && buf.Valid() && buf.data == old(buf.data)
        invariant error.None? ==> Sync.ReceiveTraits(old(buf.data), buf.readIndex, SyncState(), remaining) == o
        invariant error.Some? ==> SyncState() == o.state && buf.readIndex == o.pos && error == o.error
        decreases remaining
      {
        error := ReceiveTraitEntry(buf, remaining);
        remaining := remaining - 1;
      }
    }

    /**
     * One pass of that loop with `remaining` entries still to read: read a
     * name, find the trait of that name, let it read its initial data.
     */
    method ReceiveTraitEntry(buf: PacketBuffer, remaining: int) returns (error: Option<Sync.SyncError>)
      requires TraitsValid() && buf.Valid() && remaining > 0
      modifies this`traits, buf`readIndex
      ensures TraitsValid() && buf.Valid()
      ensures var o := Sync.ReceiveTraits(old(buf.data), old(buf.readIndex), old(SyncState()), remaining);
        && (error.Some? ==> SyncState() == o.state && buf.readIndex == o.pos && error == o.error)
        && (error.None? ==> Sync.ReceiveTraits(old(buf.data), buf.readIndex, SyncState(), remaining - 1) == o)
    {
      ghost var pos := buf.readIndex;
      var name := buf.ReadString(MaxStringLength);
      if name.None? {
        Sync.ReceiveTraitsBadString(buf.data, pos, SyncState(), remaining);
        return Some(Sync.BadString);
      }
      ghost var q := buf.readIndex;
      ReadSucceeded(DecodeString(buf.data, pos, MaxStringLength), pos);
      var k := FindTrait(traits, name.value);
      if k.None? {
        Sync.ReceiveTraitsUnknownName(buf.data, pos, SyncState(), remaining, name.value, q);
        return Some(Sync.UnknownTrait(name.value));
      }
      var v := buf.ReadInt();
      if v.None? {
        Sync.ReceiveTraitsShortValue(buf.data, pos, SyncState(), remaining, name.value, q, k.value);
        return Some(Sync.BufferUnderflow);
      }
      ReadSucceeded(DecodeInt(buf.data, q), q);
      Sync.ReceiveTraitsStep(buf.data, pos, SyncState(), remaining, name.value, q, k.value, v.value);
      traits := Sync.SetSyncValue(traits, k.value, v.value);
      return None;
    }

    /**
     * receiveCustomData: -1 reads the facing, -2 the colour (each then asks
     * the holder for a render update), -4 hands the rest of the packet to the
     * trait it names; any other discriminator is ignored.
     */
    method ReceiveCustomData(id: int, buf: PacketBuffer) returns (error: Option<Sync.SyncError>)
      requires Valid() && buf.Valid()
      modifies this`frontFacing, this`paintingColor, this`traits, buf`readIndex, HolderSet()`renderUpdates
      ensures Valid() && buf.Valid()
      ensures var o := Sync.ReceiveCustom(id, old(buf.data), old(buf.readIndex), old(SyncState()), holder != null);
        && SyncState() == o.state && buf.readIndex == o.pos && error == o.error
        && (holder != null ==> holder.renderUpdates == old(holder.renderUpdates) + if Sync.SchedulesRenderUpdate(id, o) then 1 else 0)
    {
      if id == Sync.FacingDelta {
        error := ReceiveFacingDelta(buf);
      } else if id == Sync.ColorDelta {
        error := ReceiveColorDelta(buf);
      } else if id == Sync.TraitDelta {
        error := ReceiveTraitDelta(buf);
      } else {
        error := None;
      }
    }

    /** The -1 delta: the facing byte, then a render update. */
    method ReceiveFacingDelta(buf: PacketBuffer) returns (error: Option<Sync.SyncError>)
      requires Valid() && buf.Valid()
      modifies this`frontFacing, buf`readIndex, HolderSet()`renderUpdates
      ensures Valid() && buf.Valid()
      ensures var o := Sync.ReceiveCustom(Sync.FacingDelta, old(buf.data), old(buf.readIndex), old(SyncState()), holder != null);
        && SyncState() == o.state && buf.readIndex == o.pos && error == o.error
        && (holder != null ==> holder.renderUpdates == old(holder.renderUpdates) + if o.error.None? then 1 else 0)
    {
      var b := buf.ReadByte();
      if b.None? {
        return Some(Sync.BufferUnderflow);
      }
      var f := FacingAt(b.value);
      if f.None? {
        return Some(Sync.FacingOutOfRange(b.value));
      }
      frontFacing := f.value;
      if holder == null {
        return Some(Sync.MissingHolder);
      }
      holder.ScheduleChunkForRenderUpdate();
      return None;
    }

    /** The -2 delta: the colour int, then a render update. */
    method ReceiveColorDelta(buf: PacketBuffer) returns (error: Option<Sync.SyncError>)
      requires Valid() && buf.Valid()
      modifies this`paintingColor, buf`readIndex, HolderSet()`renderUpdates
      ensures Valid() && buf.Valid()
      ensures var o := Sync.ReceiveCustom(Sync.ColorDelta, old(buf.data), old(buf.readIndex), old(SyncState()), holder != null);
        && SyncState() == o.state && buf.readIndex == o.pos && error == o.error
        && (holder != null ==> holder.renderUpdates == old(holder.renderUpdates) + if o.error.None? then 1 else 0)
    {
      var c := buf.ReadInt();
      if c.None? {
        return Some(Sync.BufferUnderflow);
      }
      paintingColor := c.value;
      if holder == null {
        return Some(Sync.MissingHolder);
      }
      holder.ScheduleChunkForRenderUpdate();
      return None;
    }

    /** The -4 delta: a trait name, then the rest of the packet for that trait. */
    method ReceiveTraitDelta(buf: PacketBuffer) returns (error: Option<Sync.SyncError>)
      requires TraitsValid() && buf.Valid()
      modifies this`traits, buf`readIndex
      ensures TraitsValid() && buf.Valid()
      ensures var o := Sync.ReceiveCustom(Sync.TraitDelta, old(buf.data), old(buf.readIndex), old(SyncState()), holder != null);
        SyncState() == o.state && buf.readIndex == o.pos && error == o.error
    {
      var name := buf.ReadString(MaxStringLength);
      if name.None? {
        return Some(Sync.BadString);
      }
      var k := FindTrait(traits, name.value);
      if k.None? {
        return Some(Sync.UnknownTrait(name.value));
      }
      var payload := buf.ReadRemaining();
      var t := traits[k.value];
      traits := traits[k.value := t.(received := t.received + [payload])];
      assert SameNames(traits, old(traits));
      return None;
    }

    // ----- facing and colour -----

    /** isValidFrontFacing: a machine may face any horizontal direction, never up or down. */
    predicate IsValidFrontFacing(f: Facing)
      ensures IsValidFrontFacing(f) <==> f in {North, South, West, East}
    {
      f != Up && f != Down
    }

    /**
     * setFrontFacing: the field always changes; on the authoritative side the
     * holder is marked dirty, one -1 delta carrying the facing byte is sent,
     * and every trait is told of the new facing, in list order.
     */
    method SetFrontFacing(f: Facing)
      requires Valid()
      modifies this`frontFacing, this`traits, HolderSet()`dirtyMarks, HolderSet()`packets
      ensures Valid() && frontFacing == f
      ensures Authoritative() ==>
        && traits == NotifiedTraits(old(traits), f)
        && holder.dirtyMarks == old(holder.dirtyMarks) + 1
        && holder.packets == old(holder.packets) + [Packet(Sync.FacingDelta, Sync.FacingDeltaBytes(f))]
      ensures !Authoritative() ==>
        && traits == old(traits)
        && (holder != null ==> holder.dirtyMarks == old(holder.dirtyMarks) && holder.packets == old(holder.packets))
    {
      frontFacing := f;
      if Authoritative() {
        MarkDirty();
        WriteCustomData(Sync.FacingDelta, Sync.FacingDeltaBytes(f));
        ghost var marks := holder.dirtyMarks;
        ghost var sent := holder.packets;
        var i := 0;
        while i < |traits|
          invariant 0 <= i <= |traits| && |traits| == |old(traits)|
          invariant frontFacing == f && holder.dirtyMarks == marks && holder.packets == sent
          invariant forall j :: 0 <= j < i ==> traits[j] == NotifiedOfFacing(old(traits)[j], f)
          invariant forall j :: i <= j < |traits| ==> traits[j] == old(traits)[j]
        {
          traits := traits[i := NotifiedOfFacing(traits[i], f)];
          i := i + 1;
        }
        assert SameNames(traits, old(traits));
      }
    }

    /** setPaintingColor: the field always changes; on the authoritative side, dirty mark and a -2 delta. */
    method SetPaintingColor(c: Int32)
      modifies this`paintingColor, HolderSet()`dirtyMarks, HolderSet()`packets
      ensures paintingColor == c
      ensures Authoritative() ==>
        && holder.dirtyMarks == old(holder.dirtyMarks) + 1
        && holder.packets == old(holder.packets) + [Packet(Sync.ColorDelta, Sync.ColorDeltaBytes(c))]
      ensures !Authoritative() && holder != null ==>
        holder.dirtyMarks == old(holder.dirtyMarks) && holder.packets == old(holder.packets)
    {
      paintingColor := c;
      if Authoritative() {
        MarkDirty();
        WriteCustomData(Sync.ColorDelta, Sync.ColorDeltaBytes(c));
      }
    }

    /**
     * onWrenchClick: a sneaking player turns the machine to the clicked side
     * when that side is horizontal and not already the front.  A click with
     * no side (null, which isValidFrontFacing lets through) reports success
     * and turns nothing.
     */
    method OnWrenchClick(sneaking: bool, side: Option<Facing>) returns (acted: bool)
      requires Valid()
      modifies this`frontFacing, this`traits, HolderSet()`dirtyMarks, HolderSet()`packets
      ensures Valid()
      ensures acted <==> sneaking && side != Some(old(frontFacing)) && (side.None? || IsValidFrontFacing(side.value))
      ensures var turned := acted && side.Some?;
        var signalled := turned && Authoritative();
        && frontFacing == (if turned then side.value else old(frontFacing))
        && traits == (if signalled then NotifiedTraits(old(traits), side.value) else old(traits))
        && (holder != null ==> holder.dirtyMarks == old(holder.dirtyMarks) + (if signalled then 1 else 0))
        && (holder != null ==>
              holder.packets == old(holder.packets) + if signalled then [Packet(Sync.FacingDelta, Sync.FacingDeltaBytes(side.value))] else [])
    {
      if !sneaking {
        return false;
      }
      if side == Some(frontFacing) || (side.Some? && !IsValidFrontFacing(side.value)) {
        return false;
      }
      if side.Some? {
        SetFrontFacing(side.value);
      }
      return true;
    }

    // ----- comparator and redstone -----

    /**
     * updateComparatorValue, given what getComparatorValue() returns now: a
     * changed value is cached, and with `update` set on the authoritative
     * side the holder is asked for a block update.
     */
    method UpdateComparatorValue(newValue: Int32, update: bool)
      modifies this`cachedComparatorValue, HolderSet()`blockUpdates
      ensures cachedComparatorValue == newValue
      ensures holder != null ==>
                holder.blockUpdates == old(holder.blockUpdates) + if old(cachedComparatorValue) != newValue && update && Authoritative() then 1 else 0
    {
      if cachedComparatorValue != newValue {
        cachedComparatorValue := newValue;
        if update && Authoritative() {
          holder.NotifyBlockUpdate();
        }
      }
    }

    /** onPostNBTLoad: refresh the cached comparator value without a block update. */
    method OnPostNBTLoad(newValue: Int32)
      modifies this`cachedComparatorValue, HolderSet()`blockUpdates
      ensures cachedComparatorValue == newValue
      ensures holder != null ==> holder.blockUpdates == old(holder.blockUpdates)
    {
      UpdateComparatorValue(newValue, false);
    }

    /** getOutputRedstoneSignal: the side's output, or the strongest of all six for no side. */
    function GetOutputRedstoneSignal(side: Option<Facing>): (r: Int32)
      reads sidedRedstoneOutput
      requires sidedRedstoneOutput.Length == 6
      ensures side.Some? ==> r == sidedRedstoneOutput[side.value]
      ensures side.None? ==>
        && (forall i :: 0 <= i < 6 ==> sidedRedstoneOutput[i] <= r)
        && exists i :: 0 <= i < 6 && sidedRedstoneOutput[i] == r
    {
      if side.None? then MaxOf(sidedRedstoneOutput[..]) else sidedRedstoneOutput[side.value]
    }

    /** setOutputRedstoneSignal: one side's output changes; on the authoritative side the holder is marked dirty. */
    method SetOutputRedstoneSignal(side: Facing, strength: Int32)
      requires sidedRedstoneOutput.Length == 6
      modifies sidedRedstoneOutput, HolderSet()`dirtyMarks
      ensures sidedRedstoneOutput[..] == old(sidedRedstoneOutput[..])[side := strength]
      ensures holder != null ==> holder.dirtyMarks == old(holder.dirtyMarks) + if Authoritative() then 1 else 0
    {
      sidedRedstoneOutput[side] := strength;
      if Authoritative() {
        MarkDirty();
      }
    }

    // ----- pushing and pulling -----

    /**
     * pushItemsIntoNearbyHandlers: the export slots are offered, face by face,
     * to the item handlers found on the allowed faces (faces with no tile
     * entity or no handler are already left out of `neighbours`).
     */
    method PushItemsIntoNearbyHandlers(neighbours: seq<ItemHandler>)
      requires Valid() && DistinctItemHandlers(neighbours)
      requires importItems !in neighbours && exportItems !in neighbours
      requires HandlersValid(neighbours)
      modifies exportItems, neighbours
      ensures Valid() && HandlersValid(neighbours)
      ensures var o := Transfer.PushFaces(old(exportItems.slots), old(SlotsOf(neighbours)), LimitsOf(neighbours), 0);
        exportItems.slots == o.local && SlotsOf(neighbours) == o.remote
    {
      ghost var nl := LimitsOf(neighbours);
      ghost var cur := SlotsOf(neighbours);
      ghost var goal := Transfer.PushFaces(exportItems.slots, cur, nl, 0);
      var f := 0;
      while f < |neighbours|
        invariant 0 <= f <= |neighbours| && exportItems.Valid() && |cur| == |neighbours| && Transfer.SlotShapes(cur, nl)
        invariant forall g :: 0 <= g < |neighbours| ==> neighbours[g].Valid() && neighbours[g].slots == cur[g]
        invariant Transfer.PushFaces(exportItems.slots, cur, nl, f) == goal
      {
        PushItemsInto(neighbours[f]);
        cur := cur[f := neighbours[f].slots];
        f := f + 1;
      }
      assert SlotsOf(neighbours) == cur;
    }

    /** The export slots offered to one neighbour, slot by slot; empty slots are skipped. */
    method PushItemsInto(h: ItemHandler)
      requires exportItems.Valid() && h.Valid() && h != exportItems
      modifies exportItems, h
      ensures exportItems.Valid() && h.Valid()
      ensures var m := Transfer.PushSlots(old(exportItems.slots), old(h.slots), h.limits, 0);
        exportItems.slots == m.local && h.slots == m.remote
    {
      ghost var goal := Transfer.PushSlots(exportItems.slots, h.slots, h.limits, 0);
      var i := 0;
      while i < |exportItems.limits|
        invariant 0 <= i <= |exportItems.limits| && exportItems.Valid() && h.Valid()
        invariant Transfer.PushSlots(exportItems.slots, h.slots, h.limits, i) == goal
      {
        if !exportItems.slots[i].IsEmpty() {
          PushStackInto(h, i);
        }
        i := i + 1;
      }
    }

    /** One export slot offered to the neighbour's slots in order, until nothing is left. */
    method PushStackInto(h: ItemHandler, i: nat)
      requires exportItems.Valid() && h.Valid() && h != exportItems && i < |exportItems.limits|
      modifies exportItems, h
      ensures exportItems.Valid() && h.Valid()
      ensures var o := Transfer.PushStack(old(exportItems.slots[i]), old(h.slots), h.limits, 0);
        exportItems.slots == old(exportItems.slots)[i := o.stack] && h.slots == o.slots
    {
      ghost var goal := Transfer.PushStack(exportItems.slots[i], h.slots, h.limits, 0);
      var stack := exportItems.slots[i];
      var j := 0;
      while j < |h.limits| && !stack.IsEmpty()
        invariant 0 <= j <= |h.limits| && exportItems.Valid() && h.Valid()
        invariant exportItems.slots == old(exportItems.slots)[i := stack]
        invariant Transfer.PushStack(stack, h.slots, h.limits, j) == goal
      {
        var remaining := h.InsertItem(j, stack, false);
        if remaining != stack {
          stack := remaining;
          exportItems.SetStackInSlot(i, remaining);
        }
        j := j + 1;
      }
    }

    /**
     * pullItemsFromNearbyHandlers: each neighbour's slots, face by face, are
     * offered to the import slots.
     */
    method PullItemsFromNearbyHandlers(neighbours: seq<ItemHandler>)
      requires Valid() && DistinctItemHandlers(neighbours)
      requires importItems !in neighbours && exportItems !in neighbours
      requires HandlersValid(neighbours)
      modifies importItems, neighbours
      ensures Valid() && HandlersValid(neighbours)
      ensures var o := Transfer.PullFaces(old(importItems.slots), importItems.limits, old(SlotsOf(neighbours)), LimitsOf(neighbours), 0);
        importItems.slots == o.local && SlotsOf(neighbours) == o.remote
    {
      ghost var nl := LimitsOf(neighbours);
      ghost var cur := SlotsOf(neighbours);
      ghost var goal := Transfer.PullFaces(importItems.slots, importItems.limits, cur, nl, 0);
      var f := 0;
      while f < |neighbours|
        invariant 0 <= f <= |neighbours| && importItems.Valid() && |cur| == |neighbours| && Transfer.SlotShapes(cur, nl)
        invariant forall g :: 0 <= g < |neighbours| ==> neighbours[g].Valid() && neighbours[g].slots == cur[g]
        invariant Transfer.PullFaces(importItems.slots, importItems.limits, cur, nl, f) == goal
      {
        PullItemsFrom(neighbours[f]);
        cur := cur[f := neighbours[f].slots];
        f := f + 1;
      }
      assert SlotsOf(neighbours) == cur;
    }

    /** One neighbour's slots, each offered in full (up to its slot limit) to the import slots. */
    method PullItemsFrom(h: ItemHandler)
      requires importItems.Valid() && h.Valid() && h != importItems
      modifies importItems, h
      ensures importItems.Valid() && h.Valid()
      ensures var m := Transfer.PullSlots(old(h.slots), h.limits, old(importItems.slots), importItems.limits, 0);
        importItems.slots == m.local && h.slots == m.remote
    {
      ghost var goal := Transfer.PullSlots(h.slots, h.limits, importItems.slots, importItems.limits, 0);
      var i := 0;
      while i < |h.limits|
        invariant 0 <= i <= |h.limits| && importItems.Valid() && h.Valid()
        invariant Transfer.PullSlots(h.slots, h.limits, importItems.slots, importItems.limits, i) == goal
      {
        var stack := h.ExtractItem(i, h.limits[i], true);
        if !stack.IsEmpty() {
          PullStackFrom(h, i, stack);
        }
        i := i + 1;
      }
    }

    /**
     * What neighbour slot `i` offers, tried on each import slot by a dry run;
     * an import slot that takes anything gets it extracted and inserted for real.
     */
    method PullStackFrom(h: ItemHandler, i: nat, offered: ItemStack)
      requires importItems.Valid() && h.Valid() && h != importItems && i < |h.limits|
      modifies importItems, h
      ensures importItems.Valid() && h.Valid()
      ensures var m := Transfer.PullInto(offered, old(h.slots), i, old(importItems.slots), importItems.limits, 0);
        importItems.slots == m.local && h.slots == m.remote
    {
      ghost var goal := Transfer.PullInto(offered, h.slots, i, importItems.slots, importItems.limits, 0);
      var stack := offered;
      var k := 0;
      while k < |importItems.limits| && !stack.IsEmpty()
        invariant 0 <= k <= |importItems.limits| && importItems.Valid() && h.Valid()
        invariant Transfer.PullInto(stack, h.slots, i, importItems.slots, importItems.limits, k) == goal
      {
        var remaining := importItems.InsertItem(k, stack, true);
        if remaining != stack {
          var actual := h.ExtractItem(i, stack.count - remaining.count, false);
          stack := importItems.InsertItem(k, actual, false);
        }
        k := k + 1;
      }
    }

    /**
     * pushFluidsIntoNearbyHandlers: the export tanks are offered, face by face,
     * to the fluid handlers found on the allowed faces.
     */
    method PushFluidsIntoNearbyHandlers(neighbours: seq<FluidTankList>)
      requires Valid() && DistinctTankLists(neighbours)
      requires importFluids !in neighbours && exportFluids !in neighbours
      requires TankListsValid(neighbours)
      modifies exportFluids, neighbours
      ensures Valid() && TankListsValid(neighbours)
      ensures var o := Transfer.PushFluidFaces(old(exportFluids.tanks), old(TanksOf(neighbours)), 0);
        exportFluids.tanks == o.local && TanksOf(neighbours) == o.remote
    {
      ghost var cur := TanksOf(neighbours);
      ghost var goal := Transfer.PushFluidFaces(exportFluids.tanks, cur, 0);
      var f := 0;
      while f < |neighbours|
        invariant 0 <= f <= |neighbours| && exportFluids.Valid() && |cur| == |neighbours|
        invariant forall g :: 0 <= g < |neighbours| ==> neighbours[g].Valid() && neighbours[g].tanks == cur[g]
        invariant Transfer.PushFluidFaces(exportFluids.tanks, cur, f) == goal
      {
        PushFluidsInto(neighbours[f]);
        cur := cur[f := neighbours[f].tanks];
        f := f + 1;
      }
      assert TanksOf(neighbours) == cur;
    }

    /** The export tanks offered to one neighbour: what it takes in a dry run is filled and drained for real. */
    method PushFluidsInto(h: FluidTankList)
      requires exportFluids.Valid() && h.Valid() && h != exportFluids
      modifies exportFluids, h
      ensures exportFluids.Valid() && h.Valid()
      ensures var m := Transfer.PushTanks(old(exportFluids.tanks), old(h.tanks), 0);
        exportFluids.tanks == m.local && h.tanks == m.remote
    {
      ghost var goal := Transfer.PushTanks(exportFluids.tanks, h.tanks, 0);
      var i := 0;
      while i < |exportFluids.capacities|
        invariant 0 <= i <= |exportFluids.capacities| && exportFluids.Valid() && h.Valid()
        invariant Transfer.PushTanks(exportFluids.tanks, h.tanks, i) == goal
      {
        var fluid := TankFluid(exportFluids.tanks[i]);
        if fluid.Some? {
          var accepted := h.Fill(fluid.value, false);
          if accepted != 0 {
            var filled := h.Fill(fluid.value, true);
            var _ := exportFluids.DrainTankAt(i, filled, true);
          }
        }
        i := i + 1;
      }
    }

    /**
     * pullFluidsFromNearbyHandlers: from each neighbour, face by face, what a
     * dry-run drain offers and a dry-run fill accepts is drained and filled
     * for real.
     */
    method PullFluidsFromNearbyHandlers(neighbours: seq<FluidTankList>)
      requires Valid() && DistinctTankLists(neighbours)
      requires importFluids !in neighbours && exportFluids !in neighbours
      requires TankListsValid(neighbours)
      modifies importFluids, neighbours
      ensures Valid() && TankListsValid(neighbours)
      ensures var o := Transfer.PullFluidFaces(old(importFluids.tanks), old(TanksOf(neighbours)), 0);
        importFluids.tanks == o.local && TanksOf(neighbours) == o.remote
    {
      ghost var cur := TanksOf(neighbours);
      ghost var goal := Transfer.PullFluidFaces(importFluids.tanks, cur, 0);
      var f := 0;
      while f < |neighbours|
        invariant 0 <= f <= |neighbours| && importFluids.Valid() && |cur| == |neighbours|
        invariant forall g :: 0 <= g < |neighbours| ==> neighbours[g].Valid() && neighbours[g].tanks == cur[g]
        invariant Transfer.PullFluidFaces(importFluids.tanks, cur, f) == goal
      {
        PullFluidsFrom(neighbours[f]);
        cur := cur[f := neighbours[f].tanks];
        f := f + 1;
      }
      assert TanksOf(neighbours) == cur;
    }

    method PullFluidsFrom(h: FluidTankList)
      requires importFluids.Valid() && h.Valid() && h != importFluids
      modifies importFluids, h
      ensures importFluids.Valid() && h.Valid()
      ensures var m := Transfer.PullTanks(old(h.tanks), old(importFluids.tanks));
        importFluids.tanks == m.local && h.tanks == m.remote
    {
      var offer := h.Drain(Transfer.MaxInt, false);
      if offer.Some? && offer.value.amount != 0 {
        var can := importFluids.Fill(offer.value, false);
        if can > 0 {
          var taken := h.Drain(can, true);
          if taken.Some? {
            var _ := importFluids.Fill(taken.value, true);
          }
        }
      }
    }
  
    /** clearMachineInventory: the import slots, then the export slots, cleared into the buffer. */
    method ClearMachineInventory(itemBuffer: seq<ItemStack>) returns (buffer: seq<ItemStack>)
      requires Valid()
      modifies importItems, exportItems
      ensures Valid()
      ensures importItems.slots == Handlers.Cleared(old(importItems.slots))
      ensures exportItems.slots == Handlers.Cleared(old(exportItems.slots))
      ensures buffer == itemBuffer + Handlers.NonEmptyStacks(old(importItems.slots)) + Handlers.NonEmptyStacks(old(exportItems.slots))
    {
      buffer := ClearInventory(itemBuffer, importItems);
      buffer := ClearInventory(buffer, exportItems);
    }

    // ----- fluid containers -----

    /**
     * fillInternalTankFromFluidContainer: one container item from the input
     * slot is emptied into the import tanks and what is left of it goes to
     * the output slot, unless the dry runs show the item would not change or
     * the output slot would not take it whole.
     */
    method FillInternalTankFromFluidContainer(rules: Containers.ContainerRules, imports: ItemHandler, exports: ItemHandler,
                                              inputSlot: nat, outputSlot: nat) returns (done: bool)
      requires importFluids.Valid() && imports.Valid() && exports.Valid() && imports != exports
      requires inputSlot < |imports.limits| && outputSlot < |exports.limits|
      modifies imports, exports, importFluids
      ensures imports.Valid() && exports.Valid() && importFluids.Valid()
      ensures var r := Containers.FillFromContainer(rules, old(imports.slots), old(exports.slots), exports.limits,
                                                    old(importFluids.tanks), inputSlot, outputSlot);
        && done == r.Some?
        && imports.slots == (if r.Some? then r.value.imports else old(imports.slots))
        && exports.slots == (if r.Some? then r.value.exports else old(exports.slots))
        && importFluids.tanks == (if r.Some? then r.value.tanks else old(importFluids.tanks))
    {
      var input := imports.ExtractItem(inputSlot, 1, true);
      var result := Containers.TryEmptyContainer(rules, input, importFluids.tanks);
      if result.Failure? {
        return false;
      }
      var remaining := result.result;
      if AreItemStacksEqual(input, remaining) {
        return false;
      }
      if !remaining.IsEmpty() {
        var rest := exports.InsertItem(outputSlot, remaining, true);
        if !rest.IsEmpty() {
          return false;
        }
      }
      // the committed tryEmptyContainer fills the tanks with what the dry run moved
      var _ := importFluids.Fill(result.moved, true);
      var _ := imports.ExtractItem(inputSlot, 1, false);
      var _ := exports.InsertItem(outputSlot, remaining, false);
      return true;
    }

    /**
     * fillContainerFromInternalTank: one empty container from the input slot
     * is filled from the export tanks and goes to the output slot, unless the
     * dry run shows the output slot would not take it whole.
     */
    method FillContainerFromInternalTank(rules: Containers.ContainerRules, imports: ItemHandler, exports: ItemHandler,
                                         inputSlot: nat, outputSlot: nat) returns (done: bool)
      requires exportFluids.Valid() && imports.Valid() && exports.Valid() && imports != exports
      requires inputSlot < |imports.limits| && outputSlot < |exports.limits|
      modifies imports, exports, exportFluids
      ensures imports.Valid() && exports.Valid() && exportFluids.Valid()
      ensures var r := Containers.FillIntoContainer(rules, old(imports.slots), old(exports.slots), exports.limits,
                                                    old(exportFluids.tanks), inputSlot, outputSlot);
        && done == r.Some?
        && imports.slots == (if r.Some? then r.value.imports else old(imports.slots))
        && exports.slots == (if r.Some? then r.value.exports else old(exports.slots))
        && exportFluids.tanks == (if r.Some? then r.value.tanks else old(exportFluids.tanks))
    {
      var emptyContainer := imports.ExtractItem(inputSlot, 1, true);
      var result := Containers.TryFillContainer(rules, emptyContainer, exportFluids.tanks);
      if result.Failure? {
        return false;
      }
      var remaining := result.result;
      if !remaining.IsEmpty() {
        var rest := exports.InsertItem(outputSlot, remaining, true);
        if !rest.IsEmpty() {
          return false;
        }
      }
      // the committed tryFillContainer drains from the tanks what the dry run moved
      var _ := exportFluids.Drain(result.moved.amount, true);
      var _ := imports.ExtractItem(inputSlot, 1, false);
      var _ := exports.InsertItem(outputSlot, remaining, false);
      return true;
    }
  }
}
