# GregTech MetaTileEntity and SolidMaterial, modelled in Dafny

GregTech builds its machines from `MetaTileEntity` objects. Each one is the
behaviour object that a machine block's tile entity, its `MetaTileEntityHolder`,
delegates to. A meta tile entity owns:

- an ordered list of named traits (energy containers, workable logic and so on);
- import and export item slots and fluid tanks;
- a front facing and a painting colour;
- six sided redstone outputs and a cached comparator value.

The meta tile entity does the following:

- saves itself into an NBT compound and loads itself back;
- writes a full client sync and decodes it, along with three kinds of delta
  (facing, colour, trait data);
- answers capability queries;
- moves items and fluids to and from the neighbouring blocks' handlers, each
  step simulated first and then committed;
- empties fluid container items into its tanks, or fills them from its tanks;
- clears its inventories into a drop list.

`SolidMaterial` is the material class for anything workable into solid forms.
Before handing its generation flags to the parent class it closes them: a gear
needs plates and a rod, and a long rod needs a rod.

The project has these modules:

| module | file | contents |
|---|---|---|
| `Wrappers` | wrappers.dfy | `Option`, a decoded value with its end position, `Min` |
| `Facings` | facing.dfy | `EnumFacing` as indices 0..5 (DOWN, UP, NORTH, SOUTH, WEST, EAST) |
| `Packets` | packets.dfy | the byte stream a `PacketBuffer` writes and reads; a `PacketBuffer` class with a read index |
| `Nbt` | nbt.dfy | NBT tags and the compound getters (`getInteger`, `getCompoundTag`) |
| `Inventory` | inventory.dfy | item stacks, an `ItemStackHandler` class, fluid tanks, a `FluidTankList` class, and `ItemHandlerHelper.insertItemStacked` |
| `Traits` | traits.dfy | traits as values: the unique-name trait list, `addMetaTileEntityTrait`, lookups by name and by capability |
| `Persistence` | persistence.dfy | `writeToNBT` / `readFromNBT` as functions on a snapshot of the entity |
| `Sync` | sync.dfy | the full sync and the deltas, as byte strings and as decoders |
| `Transfer` | transfer.dfy | the push/pull loops as functions on slot and tank values |
| `Containers` | containers.dfy | `FluidUtil.tryEmptyContainer` / `tryFillContainer` and the two container exchanges |
| `Handlers` | handlers.dfy | the static helpers `addItemsToItemHandler`, `addFluidsToFluidHandler` and `clearInventory` as functions |
| `Machine` | metatileentity.dfy | the `MetaTileEntityHolder` and `MetaTileEntity` classes, whose methods change their fields in place |
| `Materials` | solidmaterial.dfy | the flag closure and the `SolidMaterial` class |

## Model

Source paths are relative to the repository root.

| member | source | states |
|---|---|---|
| Machine.MetaName | src/main/java/gregtech/api/metatileentity/MetaTileEntity.java:187-189 | the meta name is "gregtech.machine." followed by the id |
| Machine.MetaFullName | src/main/java/gregtech/api/metatileentity/MetaTileEntity.java:191-193 | the full name is the meta name followed by ".name" |
| Machine.MetaNameInjective | src/main/java/gregtech/api/metatileentity/MetaTileEntity.java:187-193 | two entities with the same meta name, or the same full name, have the same id |
| Machine.MetaTileEntity.constructor | src/main/java/gregtech/api/metatileentity/MetaTileEntity.java:52-87 | a new entity has fresh distinct inventories, no traits and no holder, faces NORTH, has colour 0xFFFFFF, and all six redstone outputs 0 |
| Machine.MetaTileEntity.MarkDirty | src/main/java/gregtech/api/metatileentity/MetaTileEntity.java:102-105 | with a holder, its dirty-mark count grows by exactly one; without one nothing happens |
| Machine.MetaTileEntity.WriteCustomData | src/main/java/gregtech/api/metatileentity/MetaTileEntity.java:111-115 | with a holder, exactly the packet (discriminator, payload) is appended to its outgoing packets; without one nothing happens |
| Traits.AddTraitNames | src/main/java/gregtech/api/metatileentity/MetaTileEntity.java:203-206 | after adding a trait, the set of names is the old set plus the new name |
| Traits.AddTraitUnique | src/main/java/gregtech/api/metatileentity/MetaTileEntity.java:203-206 | adding a trait keeps names unique; the new trait is last; the other traits keep their relative order |
| Traits.AddTraitProperties | src/main/java/gregtech/api/metatileentity/MetaTileEntity.java:203-206 | the result contains exactly the old traits of other names plus the new one, and the new one is last |
| Traits.RemoveNamedMembers | src/main/java/gregtech/api/metatileentity/MetaTileEntity.java:204 | `removeIf` keeps exactly the traits whose name differs |
| Traits.RemoveNamedSubsequence | src/main/java/gregtech/api/metatileentity/MetaTileEntity.java:204 | `removeIf` keeps the survivors in their order |
| Traits.RemoveNamedLength | src/main/java/gregtech/api/metatileentity/MetaTileEntity.java:204 | `removeIf` drops exactly as many traits as carry the name |
| Traits.RemovePreservesUnique | src/main/java/gregtech/api/metatileentity/MetaTileEntity.java:204 | removing by name keeps the names unique |
| Machine.MetaTileEntity.AddMetaTileEntityTrait | src/main/java/gregtech/api/metatileentity/MetaTileEntity.java:203-206 | the trait list becomes `AddTrait` of the old one; the new trait is last and its name occurs once; the list grows by one exactly when the name was new |
| Machine.UpdatedTraits | src/main/java/gregtech/api/metatileentity/MetaTileEntity.java:302-306 | every trait that `shouldUpdate` accepts is ticked once and the others are untouched; names are kept |
| Machine.MetaTileEntity.Update | src/main/java/gregtech/api/metatileentity/MetaTileEntity.java:302-310 | the trait list becomes `UpdatedTraits` of the old one, with `shouldUpdate` given as a parameter |
| Traits.FindTrait | src/main/java/gregtech/api/metatileentity/MetaTileEntity.java:432-435 | the stream lookup by name: the first index with that name, or no trait has it |
| Traits.FindTraitFound | src/main/java/gregtech/api/metatileentity/MetaTileEntity.java:432-435 | the lookup succeeds exactly when the name is among the trait names |
| Traits.FirstProvider | src/main/java/gregtech/api/metatileentity/MetaTileEntity.java:477-481 | the first trait implementing the capability, or none does |
| Machine.MetaTileEntity.GetCapability | src/main/java/gregtech/api/metatileentity/MetaTileEntity.java:469-483 | for each capability asked: the fluid proxy when there are tanks, else the item proxy when there are slots, else the first trait implementing it, else null; each case stated both ways |
| Machine.MetaTileEntity.HasCapability | src/main/java/gregtech/api/metatileentity/MetaTileEntity.java:456-467 | true exactly when getCapability returns something |
| Persistence.ReservedKeys | src/main/java/gregtech/api/metatileentity/MetaTileEntity.java:380-390 | the keys writeToNBT uses itself; the four inventory keys are among them exactly when inventories are saved |
| Persistence.HeaderTags | src/main/java/gregtech/api/metatileentity/MetaTileEntity.java:380-390 | FrontFacing and PaintingColor are stored as ints, plus the four inventories when asked; every other key is untouched |
| Persistence.WriteTraits | src/main/java/gregtech/api/metatileentity/MetaTileEntity.java:392-394 | each trait's compound is stored under its name, and keys that are not trait names are untouched |
| Persistence.EncodeNBT | src/main/java/gregtech/api/metatileentity/MetaTileEntity.java:380-397 | every reserved key is present, and keys that are neither reserved nor trait names are untouched |
| Persistence.EncodeNBTReserved | src/main/java/gregtech/api/metatileentity/MetaTileEntity.java:380-397 | if no trait is named like a reserved key, the facing, colour and inventories survive the trait loop |
| Machine.MetaTileEntity.WriteToNBT | src/main/java/gregtech/api/metatileentity/MetaTileEntity.java:380-397 | the returned compound is `EncodeNBT` of the entity's state |
| Persistence.DecodeNBT | src/main/java/gregtech/api/metatileentity/MetaTileEntity.java:399-415 | a facing index out of 0..5 throws; otherwise the facing and colour are read, each trait reads the compound under its name (empty when absent), and without saved inventories the inventories are kept |
| Persistence.ReadTraits | src/main/java/gregtech/api/metatileentity/MetaTileEntity.java:411-414 | every trait's data becomes `getCompoundTag(name)`; nothing else changes |
| Persistence.ReadItems | src/main/java/gregtech/api/metatileentity/MetaTileEntity.java:404-405 | the slot count is kept, and the slots are unchanged when the key is missing |
| Persistence.ReadTanks | src/main/java/gregtech/api/metatileentity/MetaTileEntity.java:407-408 | capacities are kept, and the tanks are unchanged when the compound holds no tanks |
| Persistence.NbtRoundTrip | src/main/java/gregtech/api/metatileentity/MetaTileEntity.java:380-415 | loading what was saved restores facing, colour, every trait's data, and the inventories when they are saved; otherwise the receiver keeps its own |
| Persistence.MissingKeysLoadDefaults | src/main/java/gregtech/api/metatileentity/MetaTileEntity.java:399-401 | a compound without facing and colour loads as DOWN and colour 0 |
| Machine.MetaTileEntity.ReadFromNBT | src/main/java/gregtech/api/metatileentity/MetaTileEntity.java:399-415 | the entity's state becomes `DecodeNBT`'s result, and is unchanged when the facing index throws |
| Machine.MetaTileEntity.ReadTraitsFromNBT | src/main/java/gregtech/api/metatileentity/MetaTileEntity.java:411-414 | the trait list becomes `ReadTraits` of the old one |
| Machine.ItemStackData | src/main/java/gregtech/api/metatileentity/MetaTileEntity.java:181-185 | corrected version: PaintingColor is written exactly when the colour is not the default 0xFFFFFF; other keys are untouched |
| Machine.ItemStackDataAsWritten | src/main/java/gregtech/api/metatileentity/MetaTileEntity.java:181-185 | as written: PaintingColor is written unless the colour is 0xFFFFFFFF (-1); other keys are untouched |
| Machine.ItemStackDataAsWrittenMarksDefault | src/main/java/gregtech/api/metatileentity/MetaTileEntity.java:181-185 | as written, an unpainted machine's item gets a PaintingColor tag; this witnesses the finding |
| Machine.ColorFromItemStack | src/main/java/gregtech/api/metatileentity/MetaTileEntity.java:170-174 | the colour is read from an int PaintingColor key, or kept when there is none |
| Machine.ItemStackColorRoundTrip | src/main/java/gregtech/api/metatileentity/MetaTileEntity.java:170-185 | the colour written into an item restores itself when the item is placed |
| Machine.MetaTileEntity.InitFromItemStackData | src/main/java/gregtech/api/metatileentity/MetaTileEntity.java:170-174 | the painting colour becomes `ColorFromItemStack` of the tag |
| Machine.MetaTileEntity.WriteItemStackData | src/main/java/gregtech/api/metatileentity/MetaTileEntity.java:181-185 | the item tag becomes `ItemStackDataAsWritten`: the colour is added unless it is -1, even when it is the default |
| Machine.MetaTileEntity.WriteItemStackDataUnlessDefault | src/main/java/gregtech/api/metatileentity/MetaTileEntity.java:181-185 | the item tag becomes `ItemStackData`: the colour is added exactly when it is not the default 0xFFFFFF |
| Packets.ByteRoundTrip | src/main/java/gregtech/api/metatileentity/MetaTileEntity.java:418 | a written byte reads back as the same signed byte |
| Packets.ShortRoundTrip | src/main/java/gregtech/api/metatileentity/MetaTileEntity.java:420 | a written short reads back as the same signed short |
| Packets.IntRoundTrip | src/main/java/gregtech/api/metatileentity/MetaTileEntity.java:419 | a written int reads back as the same int |
| Packets.CharsRoundTrip | src/main/java/gregtech/api/metatileentity/MetaTileEntity.java:422 | the characters of a written string read back in order |
| Packets.StringRoundTrip | src/main/java/gregtech/api/metatileentity/MetaTileEntity.java:422 | a written string of at most 32767 characters reads back with that limit |
| Packets.DecodeString | src/main/java/gregtech/api/metatileentity/MetaTileEntity.java:432 | a read string is within the length limit and lies within the buffer |
| Packets.PacketBuffer.ReadString | src/main/java/gregtech/api/metatileentity/MetaTileEntity.java:432 | the value and the new read index are those of `DecodeString` |
| Sync.InitialSyncBytes | src/main/java/gregtech/api/metatileentity/MetaTileEntity.java:417-425 | the full sync is a facing byte, a colour int, a short trait count, then each trait's name and initial data |
| Machine.MetaTileEntity.WriteInitialSyncData | src/main/java/gregtech/api/metatileentity/MetaTileEntity.java:417-425 | the buffer gains exactly `InitialSyncBytes` of the entity |
| Sync.InitialSyncHeader | src/main/java/gregtech/api/metatileentity/MetaTileEntity.java:417-430 | the header of a full sync decodes as written, leaving the traits loop over the sender's entries |
| Sync.InitialSyncRoundTrip | src/main/java/gregtech/api/metatileentity/MetaTileEntity.java:417-438 | a receiver with the same trait names decodes the facing, colour and every trait's value, and consumes exactly the bytes written |
| Sync.InitialSyncRejectsUnknownTrait | src/main/java/gregtech/api/metatileentity/MetaTileEntity.java:431-435 | a full sync naming a trait the receiver lacks ends in the "Invalid trait name" error |
| Sync.ReceiveInitialKeeps | src/main/java/gregtech/api/metatileentity/MetaTileEntity.java:427-438 | a full sync keeps the trait names; an unknown-trait error names a missing trait; an out-of-range facing changes nothing |
| Sync.ReceiveTraitsKeeps | src/main/java/gregtech/api/metatileentity/MetaTileEntity.java:431-437 | the traits loop changes only trait values; every error it raises is one of its three kinds |
| Sync.ReceiveTraitsEntries | src/main/java/gregtech/api/metatileentity/MetaTileEntity.java:431-437 | on well-formed entries, the byte-level loop equals applying the entries one by one |
| Sync.ApplyEntriesCompletes | src/main/java/gregtech/api/metatileentity/MetaTileEntity.java:431-437 | entries that all name known traits are applied without error and consumed exactly |
| Sync.ApplyEntriesValue | src/main/java/gregtech/api/metatileentity/MetaTileEntity.java:431-437 | each trait ends with the value of the last entry naming it |
| Sync.ApplyEntriesRejects | src/main/java/gregtech/api/metatileentity/MetaTileEntity.java:433-435 | an entry naming an unknown trait ends in an UnknownTrait error |
| Sync.SetSyncValue | src/main/java/gregtech/api/metatileentity/MetaTileEntity.java:436 | exactly one trait receives its value; names are kept |
| Machine.MetaTileEntity.ReceiveInitialSyncData | src/main/java/gregtech/api/metatileentity/MetaTileEntity.java:427-438 | the entity's state, read index and error are those of `ReceiveInitial` |
| Machine.MetaTileEntity.ReceiveTraitEntries | src/main/java/gregtech/api/metatileentity/MetaTileEntity.java:430-437 | the traits, read index and error are those of `ReceiveTraits` |
| Machine.MetaTileEntity.ReceiveTraitEntry | src/main/java/gregtech/api/metatileentity/MetaTileEntity.java:431-436 | one pass of the trait loop; on an error the state, read index and error are those of `ReceiveTraits`, otherwise `ReceiveTraits` on the remaining entries from the new state gives the same outcome as from the old one |
| Sync.ReceiveCustom | src/main/java/gregtech/api/metatileentity/MetaTileEntity.java:440-454 | ids other than -1, -2 and -4 change nothing; each delta changes only its own field; an unknown trait changes nothing |
| Sync.ReceiveCustomKeeps | src/main/java/gregtech/api/metatileentity/MetaTileEntity.java:440-454 | a delta keeps the trait names, and an unknown-trait error names a trait the entity lacks |
| Sync.FacingDeltaRoundTrip | src/main/java/gregtech/api/metatileentity/MetaTileEntity.java:441-443 | the -1 delta written by setFrontFacing sets exactly the facing |
| Sync.ColorDeltaRoundTrip | src/main/java/gregtech/api/metatileentity/MetaTileEntity.java:444-446 | the -2 delta written by setPaintingColor sets exactly the colour |
| Sync.TraitDeltaRoundTrip | src/main/java/gregtech/api/metatileentity/MetaTileEntity.java:447-453 | a -4 delta reaches the trait of that name with exactly its payload, and nothing else changes |
| Sync.TraitDeltaUnknownName | src/main/java/gregtech/api/metatileentity/MetaTileEntity.java:447-451 | a -4 delta for an unknown trait is an error and changes nothing |
| Sync.EnergyScenario | src/main/java/gregtech/api/metatileentity/MetaTileEntity.java:417-454 | a concrete full sync of a machine with one "energy" trait decodes to the server's state; a facing delta to NORTH keeps it, and a second delta to EAST turns it, with nothing else changed |
| Machine.MetaTileEntity.ReceiveCustomData | src/main/java/gregtech/api/metatileentity/MetaTileEntity.java:440-454 | the state, read index and error are those of `ReceiveCustom`; a render update is scheduled for the facing and colour deltas |
| Machine.MetaTileEntity.ReceiveFacingDelta | src/main/java/gregtech/api/metatileentity/MetaTileEntity.java:441-443 | the facing, read index and error are those of `ReceiveCustom` for the -1 delta; the holder gets one render update exactly when the facing byte was valid |
| Machine.MetaTileEntity.ReceiveColorDelta | src/main/java/gregtech/api/metatileentity/MetaTileEntity.java:444-446 | the colour, read index and error are those of `ReceiveCustom` for the -2 delta; the holder gets one render update exactly when the int was read |
| Machine.MetaTileEntity.ReceiveTraitDelta | src/main/java/gregtech/api/metatileentity/MetaTileEntity.java:447-453 | the traits, read index and error are those of `ReceiveCustom` for the -4 delta: the named trait reads the rest of the packet, and an unknown name is an error |
| Machine.MetaTileEntity.IsValidFrontFacing | src/main/java/gregtech/api/metatileentity/MetaTileEntity.java:648-650 | exactly the four horizontal facings are valid |
| Machine.MetaTileEntity.SetFrontFacing | src/main/java/gregtech/api/metatileentity/MetaTileEntity.java:630-638 | the facing is set; on the authoritative side there is one dirty mark and one -1 delta, and every trait is notified in order; elsewhere nothing else changes |
| Machine.NotifiedTraits | src/main/java/gregtech/api/metatileentity/MetaTileEntity.java:635 | every trait, in list order, is told of the new facing; names are kept |
| Machine.MetaTileEntity.SetPaintingColor | src/main/java/gregtech/api/metatileentity/MetaTileEntity.java:640-646 | the colour is set; on the authoritative side there is one dirty mark and one -2 delta |
| Machine.MetaTileEntity.OnWrenchClick | src/main/java/gregtech/api/metatileentity/MetaTileEntity.java:253-263 | true exactly when the player is sneaking and the side is not the front and is valid or null; only a real side turns the machine |
| Machine.MetaTileEntity.UpdateComparatorValue | src/main/java/gregtech/api/metatileentity/MetaTileEntity.java:292-300 | a changed value is cached; a block update is issued only when the value changed, `update` is set, and the side is authoritative |
| Machine.MetaTileEntity.OnPostNBTLoad | src/main/java/gregtech/api/metatileentity/MetaTileEntity.java:288-290 | the value is refreshed without a block update |
| Machine.MaxOf | src/main/java/gregtech/api/metatileentity/MetaTileEntity.java:618-619 | the maximum of the six outputs: at least each of them and equal to one |
| Machine.MetaTileEntity.GetOutputRedstoneSignal | src/main/java/gregtech/api/metatileentity/MetaTileEntity.java:617-620 | the given side's output, or the strongest of all six for a null side |
| Machine.MetaTileEntity.SetOutputRedstoneSignal | src/main/java/gregtech/api/metatileentity/MetaTileEntity.java:622-628 | exactly one side changes; a dirty mark is made on the authoritative side only |
| Inventory.Insert | src/main/java/gregtech/api/metatileentity/MetaTileEntity.java:542-548 | `insertItem` on one slot: counts are conserved, the limit is respected, only compatible stacks merge, and the stack comes back whole exactly when the slot refuses it |
| Inventory.Extract | src/main/java/gregtech/api/metatileentity/MetaTileEntity.java:561-566 | `extractItem`: takes min(amount, count) of the slot's kind, and counts are conserved |
| Transfer.PushStackConserves | src/main/java/gregtech/api/metatileentity/MetaTileEntity.java:542-549 | offering one export stack to a neighbour conserves every item kind |
| Transfer.PushStackLeftover | src/main/java/gregtech/api/metatileentity/MetaTileEntity.java:542-549 | whatever is left was refused by every later neighbour slot |
| Transfer.PushSlotsConserves | src/main/java/gregtech/api/metatileentity/MetaTileEntity.java:539-550 | pushing all export slots into one neighbour conserves every item kind |
| Transfer.PushSlotsLeftover | src/main/java/gregtech/api/metatileentity/MetaTileEntity.java:539-550 | an export stack left behind is refused by every neighbour slot |
| Transfer.PushFortyExample | src/main/java/gregtech/api/metatileentity/MetaTileEntity.java:539-550 | 40 items into slots of limits 10 and 50 end as 10 and 30 |
| Transfer.PushFacesConserves | src/main/java/gregtech/api/metatileentity/MetaTileEntity.java:533-552 | pushing to every neighbour conserves every item kind, summed over the entity and all neighbours |
| Machine.MetaTileEntity.PushItemsIntoNearbyHandlers | src/main/java/gregtech/api/metatileentity/MetaTileEntity.java:533-552 | the export slots and every neighbour's slots end as `PushFaces` says |
| Machine.MetaTileEntity.PushItemsInto | src/main/java/gregtech/api/metatileentity/MetaTileEntity.java:539-550 | one neighbour: the slots end as `PushSlots` says |
| Machine.MetaTileEntity.PushStackInto | src/main/java/gregtech/api/metatileentity/MetaTileEntity.java:540-549 | one export slot: the slots end as `PushStack` says |
| Transfer.PullIntoConserves | src/main/java/gregtech/api/metatileentity/MetaTileEntity.java:563-570 | pulling one offered stack conserves every item kind |
| Transfer.PullIntoFillsOneSlot | src/main/java/gregtech/api/metatileentity/MetaTileEntity.java:563-570 | after one committed insert the loop stops, so at most one import slot takes items from each neighbour slot |
| Transfer.PullSlotsConserves | src/main/java/gregtech/api/metatileentity/MetaTileEntity.java:560-571 | pulling from one neighbour conserves every item kind |
| Transfer.PullFacesConserves | src/main/java/gregtech/api/metatileentity/MetaTileEntity.java:554-573 | pulling from every neighbour conserves every item kind |
| Machine.MetaTileEntity.PullItemsFromNearbyHandlers | src/main/java/gregtech/api/metatileentity/MetaTileEntity.java:554-573 | the import slots and every neighbour's slots end as `PullFaces` says |
| Machine.MetaTileEntity.PullItemsFrom | src/main/java/gregtech/api/metatileentity/MetaTileEntity.java:560-571 | one neighbour: the slots end as `PullSlots` says |
| Machine.MetaTileEntity.PullStackFrom | src/main/java/gregtech/api/metatileentity/MetaTileEntity.java:563-570 | one offered stack: the slots end as `PullInto` says |
| Inventory.FillTanks | src/main/java/gregtech/api/metatileentity/MetaTileEntity.java:525-526 | a fill never takes more than offered, and filling nothing changes nothing |
| Inventory.FillTanksTotal | src/main/java/gregtech/api/metatileentity/MetaTileEntity.java:525-527 | the tanks gain exactly the amount filled, of the offered kind only |
| Inventory.DrainTanks | src/main/java/gregtech/api/metatileentity/MetaTileEntity.java:580-584 | a drain keeps capacities, drains between 1 and max when it drains anything, and changes nothing otherwise |
| Inventory.DrainTanksTotal | src/main/java/gregtech/api/metatileentity/MetaTileEntity.java:580-585 | the tanks lose exactly what was drained |
| Transfer.PushTanksConserves | src/main/java/gregtech/api/metatileentity/MetaTileEntity.java:522-529 | pushing the export tanks into one neighbour conserves every fluid and respects capacities |
| Transfer.PushFluidFacesConserves | src/main/java/gregtech/api/metatileentity/MetaTileEntity.java:517-531 | pushing to every neighbour conserves every fluid |
| Machine.MetaTileEntity.PushFluidsIntoNearbyHandlers | src/main/java/gregtech/api/metatileentity/MetaTileEntity.java:517-531 | the export tanks and every neighbour's tanks end as `PushFluidFaces` says |
| Machine.MetaTileEntity.PushFluidsInto | src/main/java/gregtech/api/metatileentity/MetaTileEntity.java:522-529 | one neighbour: the tanks end as `PushTanks` says |
| Transfer.PullTanksConserves | src/main/java/gregtech/api/metatileentity/MetaTileEntity.java:579-586 | pulling from one neighbour conserves every fluid and respects capacities |
| Transfer.PullFluidFacesConserves | src/main/java/gregtech/api/metatileentity/MetaTileEntity.java:575-588 | pulling from every neighbour conserves every fluid |
| Machine.MetaTileEntity.PullFluidsFromNearbyHandlers | src/main/java/gregtech/api/metatileentity/MetaTileEntity.java:575-588 | the import tanks and every neighbour's tanks end as `PullFluidFaces` says |
| Machine.MetaTileEntity.PullFluidsFrom | src/main/java/gregtech/api/metatileentity/MetaTileEntity.java:579-586 | one neighbour: the tanks end as `PullTanks` says |
| Containers.TryEmptyContainer | src/main/java/gregtech/api/metatileentity/MetaTileEntity.java:486-489 | success needs a non-empty container holding fluid; the moved fluid is of its kind, is positive, and fits the tanks in full |
| Containers.TryFillContainer | src/main/java/gregtech/api/metatileentity/MetaTileEntity.java:503-506 | success needs a non-empty container; the moved fluid is positive and is exactly what draining that amount yields |
| Containers.FillFromContainerEffect | src/main/java/gregtech/api/metatileentity/MetaTileEntity.java:485-500 | the exchange happens exactly when the container gives some fluid, the item left differs, and the output slot takes it whole; then one item leaves the input, the item left enters the output, and the tanks gain the fluid moved |
| Machine.MetaTileEntity.FillInternalTankFromFluidContainer | src/main/java/gregtech/api/metatileentity/MetaTileEntity.java:485-500 | the result and the slots and tanks afterwards are those of `FillFromContainer`; on false nothing changes |
| Containers.FillIntoContainerEffect | src/main/java/gregtech/api/metatileentity/MetaTileEntity.java:502-515 | the exchange happens exactly when the container takes some fluid and the output slot takes the filled item whole; then one item leaves the input, the filled item enters the output, and the tanks lose the fluid moved |
| Machine.MetaTileEntity.FillContainerFromInternalTank | src/main/java/gregtech/api/metatileentity/MetaTileEntity.java:502-515 | the result and the slots and tanks afterwards are those of `FillIntoContainer`; on false nothing changes |
| Handlers.EmptyIffNoItems | src/main/java/gregtech/api/metatileentity/MetaTileEntity.java:590-596 | every slot is empty exactly when the slots hold no item of any kind |
| Machine.IsItemHandlerEmpty | src/main/java/gregtech/api/metatileentity/MetaTileEntity.java:590-596 | true exactly when every slot is empty |
| Inventory.InsertStackedConserves | src/main/java/gregtech/api/metatileentity/MetaTileEntity.java:601 | `insertItemStacked` conserves every item kind |
| Inventory.InsertItemStacked | src/main/java/gregtech/api/metatileentity/MetaTileEntity.java:601 | the leftover is `InsertStacked`'s, and the slots change only when not simulating |
| Handlers.AddItemsConserves | src/main/java/gregtech/api/metatileentity/MetaTileEntity.java:598-605 | adding items never creates any, and adds exactly the given items when all fit |
| Handlers.AddItemsSimulationOverestimates | src/main/java/gregtech/api/metatileentity/MetaTileEntity.java:598-605 | as written, a simulation can answer yes for stacks that do not fit together (see Findings) |
| Machine.AddItemsToItemHandler | src/main/java/gregtech/api/metatileentity/MetaTileEntity.java:598-605 | as written: with simulate, the answer tries each stack against the unchanged slots; without it, the slots and answer are those of `AddItems` |
| Machine.CanAddItemsToItemHandler | src/main/java/gregtech/api/metatileentity/MetaTileEntity.java:598-605 | corrected simulation: true exactly when inserting the stacks one after the other leaves nothing over |
| Handlers.AddFluidsConserves | src/main/java/gregtech/api/metatileentity/MetaTileEntity.java:607-614 | adding fluids never creates any, and adds exactly the given fluids when all fit |
| Handlers.AddFluidsSimulationOverestimates | src/main/java/gregtech/api/metatileentity/MetaTileEntity.java:607-614 | as written, a simulation can answer yes for fluids that do not fit together (see Findings) |
| Machine.AddFluidsToFluidHandler | src/main/java/gregtech/api/metatileentity/MetaTileEntity.java:607-614 | as written: with simulate, each stack is tried against the unchanged tanks; without it, the tanks and answer are those of `AddFluids` |
| Machine.CanAddFluidsToFluidHandler | src/main/java/gregtech/api/metatileentity/MetaTileEntity.java:607-614 | corrected simulation: true exactly when filling the stacks one after the other fills each in full |
| Handlers.ClearKeepsItems | src/main/java/gregtech/api/metatileentity/MetaTileEntity.java:661-669 | clearing moves every item: the buffer gains exactly the items the slots held, only as non-empty stacks, and every slot is left empty |
| Machine.ClearInventory | src/main/java/gregtech/api/metatileentity/MetaTileEntity.java:661-669 | the buffer gains the non-empty stacks in slot order, and each of those slots becomes empty |
| Machine.MetaTileEntity.ClearMachineInventory | src/main/java/gregtech/api/metatileentity/MetaTileEntity.java:656-659 | the import stacks and then the export stacks go to the buffer, and both inventories are cleared |
| Materials.CloseGenerationBits | src/main/java/gregtech/api/unification/material/type/SolidMaterial.java:86-96 | after closing, a gear implies plate and rod and a long rod implies rod; only those two flags are ever added, a plate only for a gear and a rod only for a gear or a long rod |
| Materials.TestsBit | src/main/java/gregtech/api/unification/material/type/SolidMaterial.java:88-93 | the `(bits & FLAG) > 0` test of a flag below the sign bit is membership of that bit |
| Materials.VerifyMaterialBits | src/main/java/gregtech/api/unification/material/type/SolidMaterial.java:86-96 | the parent check receives a superset of the flags, closed under gear ⇒ plate and rod and long rod ⇒ rod, with plate added only for a gear and rod only for a gear or a long rod |
| Materials.CloseIdempotent | src/main/java/gregtech/api/unification/material/type/SolidMaterial.java:86-96 | closing twice gives what closing once gives |
| Materials.CloseWithoutGearOrLongRod | src/main/java/gregtech/api/unification/material/type/SolidMaterial.java:86-96 | without gear and long rod the flags pass unchanged |
| Materials.SolidMaterial.constructor | src/main/java/gregtech/api/unification/material/type/SolidMaterial.java:79-84 | a new material macerates and smelts into itself, and has no tool enchantments and no handle material |
| Materials.SolidMaterial.SetMaceratingInto | src/main/java/gregtech/api/unification/material/type/SolidMaterial.java:98-100 | the maceration target is replaced |
| Materials.SolidMaterial.AddEnchantmentForTools | src/main/java/gregtech/api/unification/material/type/SolidMaterial.java:102-104 | one enchantment with its level is appended, and the earlier ones are kept |

## Left out

- The world: `getWorld()`, `getPos()` and the holder's world are reduced to two flags on the holder (`hasWorld`, `isRemote`).
- Neighbours: the neighbour lookups (`getTileEntity(pos.offset(face))` and `getCapability` on the neighbour) are modelled as the sequence of neighbour handlers already found for the allowed faces.
  - Faces with no tile entity or no handler are not in the sequence.
  - The handlers are distinct from each other and from the entity's own inventories.
- Neighbour handler kinds: neighbour item handlers are `ItemStackHandler`s and neighbour fluid handlers are `FluidTankList`s.
  - Other handler implementations, and inventories that share storage with another handler, are not modelled.
- FluidTankList: GregTech's own class (`gregtech.api.capability.impl.FluidTankList`) is not among the modelled files, so the rules of `Inventory.FluidTankList` are this model's own.
  - `FillTanks` spreads one fill across the tanks in index order.
  - `DrainTanks` drains only the first non-empty tank.
  - The boolean passed to `new FluidTankList(false)` (MetaTileEntity.java:217 and 221) is ignored.
  - `PushFluidsIntoNearbyHandlers`, `PullFluidsFromNearbyHandlers`, the container methods and `AddFluidsToFluidHandler` depend on these rules.
- Trait names: `TraitsValid` and the requires of `AddMetaTileEntityTrait` cap trait names at 32767 characters, while the source accepts any name.
  - In the source only `writeString` in `writeInitialSyncData` would throw on a longer name; the cap keeps every full sync writable.
- Item stacks: an item stack is a kind, a count and a tag value; any two stacks of equal kind and tag may stack.
  - The per-item maximum stack size is folded into each slot's limit.
- `insertItemStacked` and the `FluidUtil` helpers belong to Forge.
  - `Inventory.InsertStacked` assumes every stack is stackable.
  - Its simulated leftover is the leftover the commit would leave.
  - The container items' own fluid handlers are given as `Containers.ContainerRules`.
- Container methods require distinct slot handlers: `FillInternalTankFromFluidContainer` and `FillContainerFromInternalTank` require the import and export item handlers passed in to be distinct objects.
  - The source does not demand this, but aliasing them is not modelled.
  - Both also require the slot indices to be within range, where the source would throw.
- Serialization internals: `GTUtility.writeItems` / `readItems` and `FluidTankList.serializeNBT` / `deserializeNBT` are not part of this model.
  - They are represented by dedicated tag constructors: `TItems` keeps the slots whole, and `TFluids`, inside a compound (`Persistence.TanksTag`), keeps each tank's fluid kind and amount.
  - Tank capacities are not saved; reading the tanks keeps the capacities the entity already has.
  - Nbt.ItemsTag and the other helpers only stand for them.
- Trait behaviour: a trait's own behaviour (`update`, `serializeNBT`, `writeInitialData`, `receiveInitialData`, `readSyncData`, `onFrontFacingSet`) lives in subclasses that are not part of this model.
  - A trait is a value that records what was done to it: a tick counter, a persisted compound, one synced int, the payloads received, and the facings it was told of.
- Byte encoding: the byte layout of strings (a length, then three bytes per character) is this model's own, not Netty's UTF-8.
  - The round trips are proved for that layout.
  - A read that fails consumes nothing.
- Exceptions: the source throws these, and the model returns them as error values instead:
  - an out-of-range facing index (`EnumFacing.VALUES[...]`);
  - an unknown trait name (`IllegalArgumentException`);
  - a short buffer.
- `getHolder()` may be null in `receiveCustomData`: the source would then throw a NullPointerException after setting the facing or colour.
  - The model sets the field and returns a MissingHolder error.
- `Machine.MetaTileEntity.UpdateComparatorValue` takes the value `getComparatorValue()` would return as a parameter, since subclasses override it.
  - `Update` takes `shouldUpdate` as a parameter for the same reason.
- Left unmodelled:
  - rendering (`renderMetaTileEntity`, `getPaintingColorForRendering`, particle textures);
  - GUIs (`onRightClick`, `createUI`);
  - `getStackForm`;
  - `getInputRedstoneSignal` (a world lookup);
  - the block-property getters (light, opacity, collision, harvest tool);
  - `getDrops`, `onRemoval`, `addInformation`, the screwdriver and left-click hooks, and the plain field getters.
- The item and fluid proxies (`ItemHandlerProxy`, `FluidHandlerProxy`) are represented only by the slot and tank counts that `hasCapability` and `getCapability` test.
- Machine.MetaTileEntity.ReceiveTraitEntries: it counts the announced number of entries down instead of counting an index up.
  - The entries are read in the same order and the same number of times; a negative count gives no pass, as in the source's loop.
  - A trait's `receiveInitialData` is modelled as reading one int.
- Materials.VerifyMaterialBits: the parent class's `verifyMaterialBits` (DustMaterial and its super classes) is not part of this model and is given as a function parameter.
  - The contract states what is passed to it (the closed flags) and that its answer is the result; nothing is said about what the parent check does.
- Materials: flags are 64-bit sets written as sets of bit positions, and `GTUtility.createFlag(id)` is taken to be the single bit `id`.
  - GENERATE_PLATE is defined by the parent class, which is not part of this model, and is taken to be bit 12.
- Materials: the float `toolSpeed` field is not modelled, since floating point is out of scope.
  - The CraftTweaker entry point `ctAddEnchantmentForTools` is left out: after unwrapping CraftTweaker's `IEnchantment` into an enchantment and a level, it appends the same `EnchantmentData` entry that `addEnchantmentForTools` appends.
  - Flag registration is left out.
  - Other materials (the maceration target, the handle material) are plain object references.

## Findings

| source | as written | input that shows it | evidently intended | confidence | as-written member | corrected member |
|---|---|---|---|---|---|---|
| src/main/java/gregtech/api/metatileentity/MetaTileEntity.java:181-185 | `writeItemStackData` writes the colour unless it equals `0xFFFFFFFF` (-1), while the default colour is `0xFFFFFF` | an unpainted machine (colour 0xFFFFFF) broken into an item gets a PaintingColor tag, so it no longer stacks with fresh items (the comment says "for machines to stack") | skip the tag exactly when the colour is the default 0xFFFFFF | not executed | Machine.ItemStackDataAsWritten, Machine.ItemStackDataAsWrittenMarksDefault | Machine.ItemStackData, Machine.ItemStackColorRoundTrip, Machine.MetaTileEntity.WriteItemStackDataUnlessDefault |
| src/main/java/gregtech/api/metatileentity/MetaTileEntity.java:598-605 | with `simulate`, every stack is tried against the same, unchanged handler, so the answer says whether each stack fits alone | one empty slot of limit 64 and items [64 × A, 64 × A]: each fits alone, so the answer is true, but together only one fits | true exactly when all stacks fit together | not executed | Machine.AddItemsToItemHandler, Handlers.AddItemsSimulationOverestimates | Machine.CanAddItemsToItemHandler |
| src/main/java/gregtech/api/metatileentity/MetaTileEntity.java:607-614 | with `simulate`, every fluid stack is tried against the same, unchanged tanks | one tank of capacity 1000 and stacks [1000 of F, 1000 of F]: the answer is true, but only the first stack fits | true exactly when all stacks fit together | not executed | Machine.AddFluidsToFluidHandler, Handlers.AddFluidsSimulationOverestimates | Machine.CanAddFluidsToFluidHandler |
