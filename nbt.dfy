/**
 * The nested tag tree the entity is saved into (NBTTagCompound).  Integers and
 * compounds are modelled as Minecraft has them; the item-slot and tank lists
 * written by helpers outside this model are represented by one tag each.
 */
module Nbt {
  import opened Packets
  import opened Inventory

  datatype Tag =
    | TInt(value: Int32)
    | TCompound(entries: map<string, Tag>)
    | TItems(stacks: seq<ItemStack>)
    | TFluids(contents: seq<FluidStack>)

  type Compound = map<string, Tag>

  /** NBTTagCompound.getInteger: 0 when the key is missing or holds no integer. */
  function GetInteger(c: Compound, key: string): (r: Int32)
    ensures key in c && c[key].TInt? ==> r == c[key].value
    ensures !(key in c && c[key].TInt?) ==> r == 0
  {
    if key in c && c[key].TInt? then c[key].value else 0
  }

  /** NBTTagCompound.getCompoundTag: the empty compound when the key is missing or holds no compound. */
  function GetCompoundTag(c: Compound, key: string): (r: Compound)
    ensures key in c && c[key].TCompound? ==> r == c[key].entries
    ensures !(key in c && c[key].TCompound?) ==> r == map[]
  {
    if key in c && c[key].TCompound? then c[key].entries else map[]
  }

  /** NBTTagCompound.hasKey(key, NBT.TAG_INT) */
  predicate HasIntKey(c: Compound, key: string) {
    key in c && c[key].TInt?
  }
}
