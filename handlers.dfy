/**
 * The static inventory helpers of MetaTileEntity, as functions on values:
 * adding a list of item stacks to an item handler, adding a list of fluid
 * stacks to a tank list, and what clearing an inventory leaves behind.
 */
module Handlers {
  import opened Inventory

  // ----- emptiness -----

  lemma {:induction false} TotalZero(slots: seq<ItemStack>, kind: int, tag: int)
    requires forall k :: 0 <= k < |slots| ==> slots[k].IsEmpty()
    ensures Total(slots, kind, tag) == 0
    decreases |slots|
  {
    if slots != [] {
      TotalZero(slots[1..], kind, tag);
    }
  }

  lemma {:induction false} TotalAtLeast(slots: seq<ItemStack>, k: nat)
    requires k < |slots|
    ensures Total(slots, slots[k].kind, slots[k].tag) >= CountOf(slots[k], slots[k].kind, slots[k].tag)
    decreases |slots|
  {
    if k > 0 {
      TotalAtLeast(slots[1..], k - 1);
    }
  }

  /** Every slot is empty exactly when the slots hold no items of any kind. */
  lemma EmptyIffNoItems(slots: seq<ItemStack>)
    ensures (forall k :: 0 <= k < |slots| ==> slots[k].IsEmpty())
        <==> (forall kind, tag :: Total(slots, kind, tag) == 0)
  {
    if forall k :: 0 <= k < |slots| ==> slots[k].IsEmpty() {
      forall kind, tag ensures Total(slots, kind, tag) == 0 {
        TotalZero(slots, kind, tag);
      }
    } else {
      var k :| 0 <= k < |slots| && !slots[k].IsEmpty();
      TotalAtLeast(slots, k);
    }
  }

  // ----- adding items -----

  /** Whether every stack went in whole, and the slots afterwards. */
  datatype ItemsAdded = ItemsAdded(all: bool, slots: seq<ItemStack>)

  /**
   * addItemsToItemHandler for real: each stack in turn is inserted, stacked,
   * into what the earlier ones left.  A stack that does not fit does not stop
   * the later ones.
   */
  function AddItems(slots: seq<ItemStack>, limits: seq<nat>, items: seq<ItemStack>): (o: ItemsAdded)
    requires |slots| == |limits|
    ensures |o.slots| == |slots|
    decreases |items|
  {
    if items == [] then ItemsAdded(true, slots)
    else
      var r := InsertStacked(slots, limits, items[0]);
      var rest := AddItems(r.slots, limits, items[1..]);
      ItemsAdded(r.stack.IsEmpty() && rest.all, rest.slots)
  }

  /**
   * addItemsToItemHandler with simulate set, as written: every stack is tried
   * on the same, unchanged slots.
   */
  predicate AddItemsSimulatedAsWritten(slots: seq<ItemStack>, limits: seq<nat>, items: seq<ItemStack>)
    requires |slots| == |limits|
  {
    forall k :: 0 <= k < |items| ==> InsertStacked(slots, limits, items[k]).stack.IsEmpty()
  }

  /**
   * Adding items never creates any: the slots gain at most what the stacks
   * held, and exactly that when every stack went in.
   */
  lemma {:induction false} AddItemsConserves(slots: seq<ItemStack>, limits: seq<nat>, items: seq<ItemStack>, kind: int, tag: int)
    requires |slots| == |limits|
    ensures var o := AddItems(slots, limits, items);
      && Total(o.slots, kind, tag) <= Total(slots, kind, tag) + Total(items, kind, tag)
      && (o.all ==> Total(o.slots, kind, tag) == Total(slots, kind, tag) + Total(items, kind, tag))
    decreases |items|
  {
    if items != [] {
      var r := InsertStacked(slots, limits, items[0]);
      InsertStackedConserves(slots, limits, items[0], kind, tag);
      AddItemsConserves(r.slots, limits, items[1..], kind, tag);
    }
  }

  /**
   * The simulated answer as written can be yes when the real insertion
   * fails: two full stacks for one empty slot each fit alone, not together.
   */
  lemma AddItemsSimulationOverestimates()
    ensures AddItemsSimulatedAsWritten([EmptyStack], [64], [ItemStack(1, 64, 0), ItemStack(1, 64, 0)])
    ensures !AddItems([EmptyStack], [64], [ItemStack(1, 64, 0), ItemStack(1, 64, 0)]).all
  {
    var s := ItemStack(1, 64, 0);
    assert StackOnto([EmptyStack], [64], s, 0) == SlotsAndStack(s, [EmptyStack]);
    assert Insert([EmptyStack], [64], 0, s) == SlotsAndStack(EmptyStack, [s]);
    assert StackIntoEmpty([EmptyStack], [64], s, 0) == SlotsAndStack(EmptyStack, [s]);
    assert InsertStacked([EmptyStack], [64], s) == SlotsAndStack(EmptyStack, [s]);
    assert Insert([s], [64], 0, s) == SlotsAndStack(s, [s]);
    assert StackOnto([s], [64], s, 0) == SlotsAndStack(s, [s]);
    assert StackIntoEmpty([s], [64], s, 0) == SlotsAndStack(s, [s]);
    assert InsertStacked([s], [64], s) == SlotsAndStack(s, [s]);
  }

  // ----- adding fluids -----

  /** Whether every stack was filled whole, and the tanks afterwards. */
  datatype FluidsAdded = FluidsAdded(all: bool, tanks: seq<Tank>)

  /** How much of a fluid kind a list of fluid stacks holds. */
  function FluidAmount(stacks: seq<FluidStack>, kind: int): nat {
    if stacks == [] then 0 else (if stacks[0].kind == kind then stacks[0].amount else 0) + FluidAmount(stacks[1..], kind)
  }

  /** addFluidsToFluidHandler for real: each stack in turn is filled into what the earlier ones left. */
  function AddFluids(tanks: seq<Tank>, stacks: seq<FluidStack>): (o: FluidsAdded)
    ensures |o.tanks| == |tanks|
    decreases |stacks|
  {
    if stacks == [] then FluidsAdded(true, tanks)
    else
      var f := FillTanks(tanks, stacks[0]);
      var rest := AddFluids(f.tanks, stacks[1..]);
      FluidsAdded(f.filled == stacks[0].amount && rest.all, rest.tanks)
  }

  /** addFluidsToFluidHandler with simulate set, as written: every stack is tried on the same, unchanged tanks. */
  predicate AddFluidsSimulatedAsWritten(tanks: seq<Tank>, stacks: seq<FluidStack>) {
    forall k :: 0 <= k < |stacks| ==> FillTanks(tanks, stacks[k]).filled == stacks[k].amount
  }

  /**
   * Adding fluids never creates any: the tanks gain at most what the stacks
   * held, and exactly that when every stack was filled whole.
   */
  lemma {:induction false} AddFluidsConserves(tanks: seq<Tank>, stacks: seq<FluidStack>, kind: int)
    ensures var o := AddFluids(tanks, stacks);
      && FluidTotal(o.tanks, kind) <= FluidTotal(tanks, kind) + FluidAmount(stacks, kind)
      && (o.all ==> FluidTotal(o.tanks, kind) == FluidTotal(tanks, kind) + FluidAmount(stacks, kind))
    decreases |stacks|
  {
    if stacks != [] {
      var f := FillTanks(tanks, stacks[0]);
      FillTanksTotal(tanks, stacks[0], kind);
      AddFluidsConserves(f.tanks, stacks[1..], kind);
    }
  }

  /** The simulated answer as written can be yes when the real fill fails: two full loads for one tank. */
  lemma AddFluidsSimulationOverestimates()
    ensures AddFluidsSimulatedAsWritten([Tank(0, 0, 1000)], [FluidStack(1, 1000), FluidStack(1, 1000)])
    ensures !AddFluids([Tank(0, 0, 1000)], [FluidStack(1, 1000), FluidStack(1, 1000)]).all
  {
    var w := FluidStack(1, 1000);
    assert FillTanks([Tank(0, 0, 1000)], w) == Filled(1000, [Tank(1, 1000, 1000)]);
    assert FillTanks([Tank(1, 1000, 1000)], w).filled == 0;
  }

  // ----- clearing -----

  /** The non-empty stacks of a slot array, in slot order: what clearInventory appends to the buffer. */
  function NonEmptyStacks(slots: seq<ItemStack>): (r: seq<ItemStack>)
    decreases |slots|
  {
    if slots == [] then []
    else (if slots[0].IsEmpty() then [] else [slots[0]]) + NonEmptyStacks(slots[1..])
  }

  /** The slots after clearInventory: every non-empty one is set to EMPTY. */
  function Cleared(slots: seq<ItemStack>): (r: seq<ItemStack>)
    ensures |r| == |slots|
  {
    seq(|slots|, k requires 0 <= k < |slots| => if slots[k].IsEmpty() then slots[k] else EmptyStack)
  }

  /**
   * Clearing moves every item to the buffer: the buffer gets exactly the
   * items of every kind the slots held, only non-empty stacks, and the
   * slots are left all empty.
   */
  lemma {:induction false} ClearKeepsItems(slots: seq<ItemStack>, kind: int, tag: int)
    ensures Total(NonEmptyStacks(slots), kind, tag) == Total(slots, kind, tag)
    ensures forall k :: 0 <= k < |NonEmptyStacks(slots)| ==> !NonEmptyStacks(slots)[k].IsEmpty()
    ensures forall k :: 0 <= k < |slots| ==> Cleared(slots)[k].IsEmpty()
    decreases |slots|
  {
    if slots != [] {
      var head: seq<ItemStack> := if slots[0].IsEmpty() then [] else [slots[0]];
      ClearKeepsItems(slots[1..], kind, tag);
      TotalAppend(head, NonEmptyStacks(slots[1..]), kind, tag);
    }
  }

  lemma {:induction false} TotalAppend(a: seq<ItemStack>, b: seq<ItemStack>, kind: int, tag: int)
    ensures Total(a + b, kind, tag) == Total(a, kind, tag) + Total(b, kind, tag)
    decreases |a|
  {
    if a != [] {
      assert (a + b)[1..] == a[1..] + b;
      TotalAppend(a[1..], b, kind, tag);
    } else {
      assert a + b == b;
    }
  }

  lemma {:induction false} NonEmptyStacksAppend(a: seq<ItemStack>, b: seq<ItemStack>)
    ensures NonEmptyStacks(a + b) == NonEmptyStacks(a) + NonEmptyStacks(b)
    decreases |a|
  {
    if a == [] {
      assert a + b == b;
    } else {
      assert (a + b)[0] == a[0] && (a + b)[1..] == a[1..] + b;
      NonEmptyStacksAppend(a[1..], b);
    }
  }
}
