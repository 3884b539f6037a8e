/**
 * Fluid container items in the entity's slots: emptying one into the import
 * tanks (fillInternalTankFromFluidContainer) and filling one from the export
 * tanks (fillContainerFromInternalTank), as functions on values.  How a
 * container item holds and takes fluid belongs to Forge, not to this
 * repository, so it is given as ContainerRules; FluidUtil.tryEmptyContainer
 * and FluidUtil.tryFillContainer are modelled on top of those rules.
 */
module Containers {
  import opened Wrappers
  import opened Inventory
  import Transfer

  /**
   * What a container item holds, the item it becomes after giving up an
   * amount, how much of a fluid it has room for, and the item it becomes after
   * taking a fluid.
   */
  datatype ContainerRules = ContainerRules(
    contents: ItemStack -> Option<FluidStack>,
    emptied: (ItemStack, nat) -> ItemStack,
    room: (ItemStack, FluidStack) -> nat,
    filledWith: (ItemStack, FluidStack) -> ItemStack)

  /** FluidActionResult: failure, or the container item left over and the fluid that moved. */
  datatype ActionResult = Failure | Success(result: ItemStack, moved: FluidStack)

  /**
   * FluidUtil.tryEmptyContainer into a tank list: the container gives up what
   * the tanks accept of its contents.  An empty stack has no fluid handler; a
   * container holding nothing, or tanks accepting none of it, make it fail.
   */
  function TryEmptyContainer(rules: ContainerRules, container: ItemStack, tanks: seq<Tank>): (r: ActionResult)
    ensures r.Success? ==> !container.IsEmpty() && rules.contents(container).Some?
    ensures r.Success? ==> 0 < r.moved.amount && r.moved.kind == rules.contents(container).value.kind
    ensures r.Success? ==> FillTanks(tanks, r.moved).filled == r.moved.amount
  {
    if container.IsEmpty() then Failure
    else match rules.contents(container)
      case None => Failure
      case Some(fluid) =>
        var accepted := FillTanks(tanks, fluid).filled;
        if accepted == 0 then Failure
        else
          Transfer.FillTanksAgain(tanks, fluid);
          Success(rules.emptied(container, accepted), fluid.(amount := accepted))
  }

  /**
   * FluidUtil.tryFillContainer from a tank list: the first tank holding fluid
   * offers it, the container takes what it has room for, and that much is
   * drained.  An empty stack, empty tanks or a full container make it fail.
   */
  function TryFillContainer(rules: ContainerRules, container: ItemStack, tanks: seq<Tank>): (r: ActionResult)
    ensures r.Success? ==> !container.IsEmpty() && 0 < r.moved.amount
    ensures r.Success? ==> DrainTanks(tanks, r.moved.amount).drained == Some(r.moved)
  {
    if container.IsEmpty() then Failure
    else match DrainTanks(tanks, Transfer.MaxInt).drained
      case None => Failure
      case Some(fluid) =>
        var accepted := Min(rules.room(container, fluid), fluid.amount);
        if accepted == 0 then Failure
        else
          Transfer.DrainTanksLess(tanks, Transfer.MaxInt, accepted);
          var drained := DrainTanks(tanks, accepted).drained.value;
          Success(rules.filledWith(container, drained), drained)
  }

  /** The import slots, export slots and tanks after a container exchange. */
  datatype Exchange = Exchange(imports: seq<ItemStack>, exports: seq<ItemStack>, tanks: seq<Tank>)

  /** The output slot takes `s` in full, or there is nothing to put there. */
  predicate FitsInSlot(outs: seq<ItemStack>, outl: seq<nat>, slot: nat, s: ItemStack)
    requires |outs| == |outl| && slot < |outs|
  {
    s.IsEmpty() || Insert(outs, outl, slot, s).stack.IsEmpty()
  }

  /**
   * fillInternalTankFromFluidContainer on values: None when it returns false,
   * in which case nothing changes.  One container item is taken from the input
   * slot, emptied into the tanks, and what is left of it goes to the output slot.
   */
  function FillFromContainer(rules: ContainerRules, ins: seq<ItemStack>, outs: seq<ItemStack>, outl: seq<nat>,
                             tanks: seq<Tank>, inputSlot: nat, outputSlot: nat): Option<Exchange>
    requires inputSlot < |ins| && |outs| == |outl| && outputSlot < |outs|
  {
    var input := Extract(ins, inputSlot, 1).stack;
    match TryEmptyContainer(rules, input, tanks)
    case Failure => None
    case Success(remaining, moved) =>
      if AreItemStacksEqual(input, remaining) then None
      else if !FitsInSlot(outs, outl, outputSlot, remaining) then None
      else Some(Exchange(Extract(ins, inputSlot, 1).slots, Insert(outs, outl, outputSlot, remaining).slots,
                         FillTanks(tanks, moved).tanks))
  }

  /**
   * fillContainerFromInternalTank on values: None when it returns false.  One
   * empty container is taken from the input slot, filled from the tanks, and
   * the filled item goes to the output slot.
   */
  function FillIntoContainer(rules: ContainerRules, ins: seq<ItemStack>, outs: seq<ItemStack>, outl: seq<nat>,
                             tanks: seq<Tank>, inputSlot: nat, outputSlot: nat): Option<Exchange>
    requires inputSlot < |ins| && |outs| == |outl| && outputSlot < |outs|
  {
    var container := Extract(ins, inputSlot, 1).stack;
    match TryFillContainer(rules, container, tanks)
    case Failure => None
    case Success(remaining, moved) =>
      if !FitsInSlot(outs, outl, outputSlot, remaining) then None
      else Some(Exchange(Extract(ins, inputSlot, 1).slots, Insert(outs, outl, outputSlot, remaining).slots,
                         DrainTanks(tanks, moved.amount).tanks))
  }

  /**
   * Emptying a container succeeds exactly when the tanks take some of its
   * fluid, the item left differs from the one taken, and the output slot takes
   * that item in full.  Then the input slot loses exactly the one container
   * item, the output slots gain exactly the item left, and the tanks gain
   * exactly the fluid that moved.
   */
  lemma FillFromContainerEffect(rules: ContainerRules, ins: seq<ItemStack>, outs: seq<ItemStack>, outl: seq<nat>,
                                tanks: seq<Tank>, inputSlot: nat, outputSlot: nat, kind: int, tag: int, fluid: int)
    requires inputSlot < |ins| && |outs| == |outl| && outputSlot < |outs|
    ensures var input := Extract(ins, inputSlot, 1).stack;
      var e := TryEmptyContainer(rules, input, tanks);
      var r := FillFromContainer(rules, ins, outs, outl, tanks, inputSlot, outputSlot);
      && (r.Some? <==> e.Success? && !AreItemStacksEqual(input, e.result) && FitsInSlot(outs, outl, outputSlot, e.result))
      && (r.Some? ==>
          && input.count == 1
          && Total(r.value.imports, kind, tag) + CountOf(input, kind, tag) == Total(ins, kind, tag)
          && Total(r.value.exports, kind, tag) == Total(outs, kind, tag) + CountOf(e.result, kind, tag)
          && FluidTotal(r.value.tanks, fluid) == FluidTotal(tanks, fluid) + if fluid == e.moved.kind then e.moved.amount else 0)
  {
    var input := Extract(ins, inputSlot, 1).stack;
    var e := TryEmptyContainer(rules, input, tanks);
    var r := FillFromContainer(rules, ins, outs, outl, tanks, inputSlot, outputSlot);
    if r.Some? {
      var x := Extract(ins, inputSlot, 1);
      var o := Insert(outs, outl, outputSlot, e.result);
      TotalUpdate(ins, inputSlot, x.slots[inputSlot], kind, tag);
      assert x.slots == ins[inputSlot := x.slots[inputSlot]];
      TotalUpdate(outs, outputSlot, o.slots[outputSlot], kind, tag);
      assert o.slots == outs[outputSlot := o.slots[outputSlot]];
      FillTanksTotal(tanks, e.moved, fluid);
    }
  }

  /**
   * Filling a container succeeds exactly when the tanks hold fluid the
   * container has room for and the output slot takes the filled item in full.
   * Then the input slot loses exactly the one empty container, the output
   * slots gain exactly the filled item, and the tanks lose exactly the fluid
   * that moved.
   */
  lemma FillIntoContainerEffect(rules: ContainerRules, ins: seq<ItemStack>, outs: seq<ItemStack>, outl: seq<nat>,
                                tanks: seq<Tank>, inputSlot: nat, outputSlot: nat, kind: int, tag: int, fluid: int)
    requires inputSlot < |ins| && |outs| == |outl| && outputSlot < |outs|
    ensures var container := Extract(ins, inputSlot, 1).stack;
      var e := TryFillContainer(rules, container, tanks);
      var r := FillIntoContainer(rules, ins, outs, outl, tanks, inputSlot, outputSlot);
      && (r.Some? <==> e.Success? && FitsInSlot(outs, outl, outputSlot, e.result))
      && (r.Some? ==>
          && container.count == 1
          && Total(r.value.imports, kind, tag) + CountOf(container, kind, tag) == Total(ins, kind, tag)
          && Total(r.value.exports, kind, tag) == Total(outs, kind, tag) + CountOf(e.result, kind, tag)
          && FluidTotal(r.value.tanks, fluid) + (if fluid == e.moved.kind then e.moved.amount else 0) == FluidTotal(tanks, fluid))
  {
    var container := Extract(ins, inputSlot, 1).stack;
    var e := TryFillContainer(rules, container, tanks);
    var r := FillIntoContainer(rules, ins, outs, outl, tanks, inputSlot, outputSlot);
    if r.Some? {
      var x := Extract(ins, inputSlot, 1);
      var o := Insert(outs, outl, outputSlot, e.result);
      TotalUpdate(ins, inputSlot, x.slots[inputSlot], kind, tag);
      assert x.slots == ins[inputSlot := x.slots[inputSlot]];
      TotalUpdate(outs, outputSlot, o.slots[outputSlot], kind, tag);
      assert o.slots == outs[outputSlot := o.slots[outputSlot]];
      DrainTanksTotal(tanks, e.moved.amount, fluid);
    }
  }
}
