/**
 * Item and fluid inventories as the entity sees them: Forge's ItemStackHandler
 * (a fixed array of slots, each with its own stack limit) and a list of fluid
 * tanks.  The insert/extract/fill/drain rules are given once as functions on
 * values; the two classes apply them in place, with a `simulate` flag that
 * leaves the contents alone.
 */
module Inventory {
  import opened Wrappers

  /** A stack of items: kind (item and metadata), count and auxiliary tag data.  Count 0 is empty. */
  datatype ItemStack = ItemStack(kind: int, count: nat, tag: int) {
    predicate IsEmpty() { count == 0 }
  }

  /** ItemStack.EMPTY */
  const EmptyStack := ItemStack(0, 0, 0)

  /** ItemHandlerHelper.canItemStacksStack: both non-empty, same kind and same tag. */
  predicate CanStack(a: ItemStack, b: ItemStack) {
    !a.IsEmpty() && !b.IsEmpty() && a.kind == b.kind && a.tag == b.tag
  }

  /** ItemStack.areItemStacksEqual: both empty, or equal in kind, count and tag. */
  predicate AreItemStacksEqual(a: ItemStack, b: ItemStack) {
    (a.IsEmpty() && b.IsEmpty()) || a == b
  }

  /** How many items of the given kind and tag a stack holds. */
  function CountOf(s: ItemStack, kind: int, tag: int): nat {
    if !s.IsEmpty() && s.kind == kind && s.tag == tag then s.count else 0
  }

  /** How many items of the given kind and tag a slot array holds in all. */
  function Total(slots: seq<ItemStack>, kind: int, tag: int): nat {
    if slots == [] then 0 else CountOf(slots[0], kind, tag) + Total(slots[1..], kind, tag)
  }

  lemma {:induction false} TotalUpdate(slots: seq<ItemStack>, i: nat, x: ItemStack, kind: int, tag: int)
    requires i < |slots|
    ensures Total(slots[i := x], kind, tag) + CountOf(slots[i], kind, tag)
         == Total(slots, kind, tag) + CountOf(x, kind, tag)
    decreases |slots|
  {
    if i == 0 {
      assert slots[i := x][1..] == slots[1..];
    } else {
      TotalUpdate(slots[1..], i - 1, x, kind, tag);
      assert slots[i := x][1..] == slots[1..][i - 1 := x];
    }
  }

  /** A stack together with the slot array an operation leaves behind. */
  datatype SlotsAndStack = SlotsAndStack(stack: ItemStack, slots: seq<ItemStack>)

  /**
   * A slot holding `slot` under stack limit `limit` takes nothing of the
   * non-empty stack `s`: it holds another kind or tag, or it is full.
   */
  predicate Refuses(slot: ItemStack, limit: nat, s: ItemStack) {
    !s.IsEmpty() && ((!slot.IsEmpty() && !CanStack(s, slot)) || limit <= slot.count)
  }

  /**
   * ItemStackHandler.insertItem: the stack that does not fit, and the slots with
   * the rest added to slot i.  A slot holding a different kind or tag, or a full
   * slot, refuses the whole stack.
   */
  function Insert(slots: seq<ItemStack>, limits: seq<nat>, i: nat, stack: ItemStack): (o: SlotsAndStack)
    requires |slots| == |limits| && i < |slots|
    ensures |o.slots| == |slots| && o.slots == slots[i := o.slots[i]]
    ensures o.slots[i].count + o.stack.count == slots[i].count + stack.count
    ensures o.slots[i].count <= limits[i] || o.slots[i] == slots[i]
    ensures o.stack.count <= stack.count && (o.stack.count == stack.count ==> o.slots == slots)
    ensures o.stack.count < stack.count ==> o.slots[i].kind == stack.kind && o.slots[i].tag == stack.tag
    ensures !o.stack.IsEmpty() ==> o.stack.kind == stack.kind && o.stack.tag == stack.tag
    ensures !stack.IsEmpty() && o.stack.count == stack.count ==> o.stack == stack
    ensures !stack.IsEmpty() ==> (o.stack == stack <==> Refuses(slots[i], limits[i], stack))
    ensures forall kind, tag :: CountOf(o.slots[i], kind, tag) + CountOf(o.stack, kind, tag)
                             == CountOf(slots[i], kind, tag) + CountOf(stack, kind, tag)
  {
    var existing := slots[i];
    if stack.IsEmpty() then SlotsAndStack(EmptyStack, slots)
    else if !existing.IsEmpty() && !CanStack(stack, existing) then SlotsAndStack(stack, slots)
    else
      var room := limits[i] - existing.count;
      if room <= 0 then SlotsAndStack(stack, slots)
      else if stack.count > room then
        SlotsAndStack(stack.(count := stack.count - room), slots[i := stack.(count := existing.count + room)])
      else
        SlotsAndStack(EmptyStack, slots[i := stack.(count := existing.count + stack.count)])
  }

  /**
   * What a slot accepted of a stack it accepts again in full: offering just
   * the accepted part leaves nothing over and fills the slot the same way.
   */
  lemma InsertAcceptedFits(slots: seq<ItemStack>, limits: seq<nat>, i: nat, stack: ItemStack)
    requires |slots| == |limits| && i < |slots|
    requires Insert(slots, limits, i, stack).stack.count < stack.count
    ensures var c := stack.count - Insert(slots, limits, i, stack).stack.count;
      && Insert(slots, limits, i, stack.(count := c)).stack.IsEmpty()
      && Insert(slots, limits, i, stack.(count := c)).slots == Insert(slots, limits, i, stack).slots
  {
  }

  /**
   * A slot that refuses a stack keeps refusing it, whatever is inserted into
   * whichever slot afterwards: inserting only adds to a slot, of its own kind.
   */
  lemma RefusesAfterInsert(slots: seq<ItemStack>, limits: seq<nat>, k: nat, s: ItemStack, i: nat, t: ItemStack)
    requires |slots| == |limits| && k < |slots| && i < |slots|
    requires Refuses(slots[k], limits[k], s)
    ensures Refuses(Insert(slots, limits, i, t).slots[k], limits[k], s)
  {
  }

  /**
   * ItemStackHandler.extractItem: up to `amount` items taken from slot i, and
   * the slots without them.
   */
  function Extract(slots: seq<ItemStack>, i: nat, amount: nat): (o: SlotsAndStack)
    requires i < |slots|
    ensures |o.slots| == |slots| && o.slots == slots[i := o.slots[i]]
    ensures o.stack.count == Min(amount, slots[i].count)
    ensures o.slots[i].count + o.stack.count == slots[i].count
    ensures !o.stack.IsEmpty() ==> o.stack.kind == slots[i].kind && o.stack.tag == slots[i].tag
    ensures forall kind, tag :: CountOf(o.slots[i], kind, tag) + CountOf(o.stack, kind, tag)
                             == CountOf(slots[i], kind, tag)
  {
    var existing := slots[i];
    if amount == 0 || existing.IsEmpty() then SlotsAndStack(EmptyStack, slots)
    else if existing.count <= amount then SlotsAndStack(existing, slots[i := EmptyStack])
    else SlotsAndStack(existing.(count := amount), slots[i := existing.(count := existing.count - amount)])
  }

  /**
   * The first pass of ItemHandlerHelper.insertItemStacked: from slot i on,
   * every slot already holding the stack's kind and tag is offered what is
   * left, until nothing is.
   */
  function StackOnto(slots: seq<ItemStack>, limits: seq<nat>, stack: ItemStack, i: nat): (o: SlotsAndStack)
    requires |slots| == |limits|
    ensures |o.slots| == |slots|
    decreases |slots| - i
  {
    if i >= |slots| || stack.IsEmpty() then SlotsAndStack(stack, slots)
    else if CanStack(slots[i], stack) then
      var o := Insert(slots, limits, i, stack);
      StackOnto(o.slots, limits, o.stack, i + 1)
    else StackOnto(slots, limits, stack, i + 1)
  }

  /** The second pass: from slot i on, every empty slot is offered what is left. */
  function StackIntoEmpty(slots: seq<ItemStack>, limits: seq<nat>, stack: ItemStack, i: nat): (o: SlotsAndStack)
    requires |slots| == |limits|
    ensures |o.slots| == |slots|
    decreases |slots| - i
  {
    if i >= |slots| || stack.IsEmpty() then SlotsAndStack(stack, slots)
    else if slots[i].IsEmpty() then
      var o := Insert(slots, limits, i, stack);
      StackIntoEmpty(o.slots, limits, o.stack, i + 1)
    else StackIntoEmpty(slots, limits, stack, i + 1)
  }

  /**
   * ItemHandlerHelper.insertItemStacked for a stackable stack: slots holding
   * the same items first, then empty slots; the result is what did not fit.
   */
  function InsertStacked(slots: seq<ItemStack>, limits: seq<nat>, stack: ItemStack): (o: SlotsAndStack)
    requires |slots| == |limits|
    ensures |o.slots| == |slots|
  {
    var first := StackOnto(slots, limits, stack, 0);
    if first.stack.IsEmpty() then first else StackIntoEmpty(first.slots, limits, first.stack, 0)
  }

  lemma {:induction false} StackOntoConserves(slots: seq<ItemStack>, limits: seq<nat>, stack: ItemStack, i: nat, kind: int, tag: int)
    requires |slots| == |limits|
    ensures var o := StackOnto(slots, limits, stack, i);
      Total(o.slots, kind, tag) + CountOf(o.stack, kind, tag) == Total(slots, kind, tag) + CountOf(stack, kind, tag)
    decreases |slots| - i
  {
    if i < |slots| && !stack.IsEmpty() {
      if CanStack(slots[i], stack) {
        var o := Insert(slots, limits, i, stack);
        TotalUpdate(slots, i, o.slots[i], kind, tag);
        StackOntoConserves(o.slots, limits, o.stack, i + 1, kind, tag);
      } else {
        StackOntoConserves(slots, limits, stack, i + 1, kind, tag);
      }
    }
  }

  lemma {:induction false} StackIntoEmptyConserves(slots: seq<ItemStack>, limits: seq<nat>, stack: ItemStack, i: nat, kind: int, tag: int)
    requires |slots| == |limits|
    ensures var o := StackIntoEmpty(slots, limits, stack, i);
      Total(o.slots, kind, tag) + CountOf(o.stack, kind, tag) == Total(slots, kind, tag) + CountOf(stack, kind, tag)
    decreases |slots| - i
  {
    if i < |slots| && !stack.IsEmpty() {
      if slots[i].IsEmpty() {
        var o := Insert(slots, limits, i, stack);
        TotalUpdate(slots, i, o.slots[i], kind, tag);
        StackIntoEmptyConserves(o.slots, limits, o.stack, i + 1, kind, tag);
      } else {
        StackIntoEmptyConserves(slots, limits, stack, i + 1, kind, tag);
      }
    }
  }

  /** Inserting a stack stacked neither creates nor destroys items: what is not left over is in the slots. */
  lemma InsertStackedConserves(slots: seq<ItemStack>, limits: seq<nat>, stack: ItemStack, kind: int, tag: int)
    requires |slots| == |limits|
    ensures var o := InsertStacked(slots, limits, stack);
      Total(o.slots, kind, tag) + CountOf(o.stack, kind, tag) == Total(slots, kind, tag) + CountOf(stack, kind, tag)
  {
    var first := StackOnto(slots, limits, stack, 0);
    StackOntoConserves(slots, limits, stack, 0, kind, tag);
    if !first.stack.IsEmpty() {
      StackIntoEmptyConserves(first.slots, limits, first.stack, 0, kind, tag);
    }
  }

  /** A fluid stack: kind (fluid and tag) and amount. */
  datatype FluidStack = FluidStack(kind: int, amount: nat)

  /** A tank: the kind and amount it holds (amount 0 is empty) and its capacity. */
  datatype Tank = Tank(kind: int, amount: nat, capacity: nat)

  /** IFluidTank.getFluid: nothing when the tank is empty. */
  function TankFluid(t: Tank): (r: Option<FluidStack>)
    ensures r.Some? <==> t.amount > 0
    ensures r.Some? ==> r.value == FluidStack(t.kind, t.amount)
  {
    if t.amount == 0 then None else Some(FluidStack(t.kind, t.amount))
  }

  /** The amount of one fluid kind in a tank. */
  function AmountOf(t: Tank, kind: int): nat {
    if t.kind == kind then t.amount else 0
  }

  /** The amount of one fluid kind in a list of tanks. */
  function FluidTotal(tanks: seq<Tank>, kind: int): nat {
    if tanks == [] then 0 else AmountOf(tanks[0], kind) + FluidTotal(tanks[1..], kind)
  }

  lemma {:induction false} FluidTotalUpdate(tanks: seq<Tank>, i: nat, t: Tank, kind: int)
    requires i < |tanks|
    ensures FluidTotal(tanks[i := t], kind) + AmountOf(tanks[i], kind) == FluidTotal(tanks, kind) + AmountOf(t, kind)
    decreases |tanks|
  {
    if i == 0 {
      assert tanks[i := t][1..] == tanks[1..];
    } else {
      FluidTotalUpdate(tanks[1..], i - 1, t, kind);
      assert tanks[i := t][1..] == tanks[1..][i - 1 := t];
    }
  }

  predicate TankWithinCapacity(t: Tank) { t.amount <= t.capacity }

  /**
   * FluidTank.fill: how much of `res` one tank accepts.  An empty tank takes
   * any kind up to its capacity; a tank holding another kind takes nothing.
   */
  function TankAccepts(t: Tank, res: FluidStack): (f: nat)
    ensures f <= res.amount
    ensures TankWithinCapacity(t) ==> t.amount + f <= t.capacity
    ensures f > 0 ==> t.amount == 0 || t.kind == res.kind
  {
    if res.amount == 0 then 0
    else if t.amount == 0 then Min(t.capacity, res.amount)
    else if t.kind != res.kind then 0
    else if t.amount >= t.capacity then 0
    else Min(t.capacity - t.amount, res.amount)
  }

  /** The tank after accepting `f` units of `res`. */
  function FilledTank(t: Tank, res: FluidStack, f: nat): (r: Tank)
    requires f > 0 ==> t.amount == 0 || t.kind == res.kind
    ensures r.capacity == t.capacity && r.amount == t.amount + f
    ensures forall kind :: AmountOf(r, kind) == AmountOf(t, kind) + (if kind == res.kind then f else 0)
  {
    if f == 0 then t else Tank(res.kind, t.amount + f, t.capacity)
  }

  datatype Filled = Filled(filled: nat, tanks: seq<Tank>)

  predicate SameCapacities(a: seq<Tank>, b: seq<Tank>) {
    |a| == |b| && forall i :: 0 <= i < |a| ==> a[i].capacity == b[i].capacity
  }

  predicate AllWithinCapacity(tanks: seq<Tank>) {
    forall i :: 0 <= i < |tanks| ==> TankWithinCapacity(tanks[i])
  }

  /**
   * Filling a tank list: each tank in index order takes what it can of what is
   * left.  Exactly the amount reported is added, all of it of the offered kind.
   */
  function FillTanks(tanks: seq<Tank>, res: FluidStack): (o: Filled)
    ensures |o.tanks| == |tanks| && o.filled <= res.amount
    ensures o.filled == 0 ==> o.tanks == tanks
    decreases |tanks|
  {
    if tanks == [] then Filled(0, [])
    else
      var f := TankAccepts(tanks[0], res);
      var rest := FillTanks(tanks[1..], res.(amount := res.amount - f));
      var r := Filled(f + rest.filled, [FilledTank(tanks[0], res, f)] + rest.tanks);
      assert r.tanks[1..] == rest.tanks;
      assert f == 0 && rest.filled == 0 ==> r.tanks == [tanks[0]] + tanks[1..];
      r
  }

  /** Filling keeps every tank's capacity and fills no tank past it. */
  lemma {:induction false} FillTanksShape(tanks: seq<Tank>, res: FluidStack)
    ensures SameCapacities(FillTanks(tanks, res).tanks, tanks)
    ensures AllWithinCapacity(tanks) ==> AllWithinCapacity(FillTanks(tanks, res).tanks)
    decreases |tanks|
  {
    if tanks != [] {
      var f := TankAccepts(tanks[0], res);
      var rest := FillTanks(tanks[1..], res.(amount := res.amount - f));
      var o := FillTanks(tanks, res);
      var first := FilledTank(tanks[0], res, f);
      assert o == Filled(f + rest.filled, [first] + rest.tanks);
      FillTanksShape(tanks[1..], res.(amount := res.amount - f));
      assert forall i :: 1 <= i < |o.tanks| ==> o.tanks[i] == rest.tanks[i - 1];
    }
  }

  datatype Drained = Drained(drained: Option<FluidStack>, tanks: seq<Tank>)

  /** FluidTank.drain on one tank: at most `max` units of what it holds. */
  function DrainTank(t: Tank, max: nat): (o: (Option<FluidStack>, Tank))
    ensures o.1.capacity == t.capacity && o.1.kind == t.kind
    ensures o.0.Some? <==> t.amount > 0 && max > 0
    ensures o.0.Some? ==> o.0.value == FluidStack(t.kind, Min(t.amount, max)) && o.1.amount == t.amount - Min(t.amount, max)
    ensures o.0.None? ==> o.1 == t
  {
    if t.amount == 0 || max == 0 then (None, t)
    else
      var d := Min(t.amount, max);
      (Some(FluidStack(t.kind, d)), t.(amount := t.amount - d))
  }

  /**
   * Draining a tank list: at most `max` units from the first tank that holds
   * anything; nothing when every tank is empty.
   */
  function DrainTanks(tanks: seq<Tank>, max: nat): (o: Drained)
    ensures SameCapacities(o.tanks, tanks)
    ensures AllWithinCapacity(tanks) ==> AllWithinCapacity(o.tanks)
    ensures o.drained.Some? ==> 0 < o.drained.value.amount <= max
    ensures o.drained.None? ==> o.tanks == tanks
    decreases |tanks|
  {
    if tanks == [] then Drained(None, [])
    else if tanks[0].amount == 0 then
      var rest := DrainTanks(tanks[1..], max);
      var r := Drained(rest.drained, [tanks[0]] + rest.tanks);
      assert r.tanks[1..] == rest.tanks;
      r
    else
      var d := DrainTank(tanks[0], max);
      var r := Drained(d.0, [d.1] + tanks[1..]);
      assert r.tanks[1..] == tanks[1..];
      r
  }

  /** Exactly the amount a fill reports is added, all of it of the offered kind. */
  lemma {:induction false} FillTanksTotal(tanks: seq<Tank>, res: FluidStack, kind: int)
    ensures var o := FillTanks(tanks, res);
      FluidTotal(o.tanks, kind) == FluidTotal(tanks, kind) + if kind == res.kind then o.filled else 0
    decreases |tanks|
  {
    if tanks != [] {
      var f := TankAccepts(tanks[0], res);
      var rest := FillTanks(tanks[1..], res.(amount := res.amount - f));
      var o := FillTanks(tanks, res);
      var first := FilledTank(tanks[0], res, f);
      assert o == Filled(f + rest.filled, [first] + rest.tanks);
      FillTanksTotal(tanks[1..], res.(amount := res.amount - f), kind);
      assert o.tanks[0] == first && o.tanks[1..] == rest.tanks;
      assert AmountOf(first, kind) == AmountOf(tanks[0], kind) + if kind == res.kind then f else 0;
      assert FluidTotal(o.tanks, kind) == AmountOf(first, kind) + FluidTotal(rest.tanks, kind);
    }
  }

  /** Exactly the fluid a drain reports leaves the tanks. */
  lemma {:induction false} DrainTanksTotal(tanks: seq<Tank>, max: nat, kind: int)
    ensures var o := DrainTanks(tanks, max);
      FluidTotal(o.tanks, kind) + (if o.drained.Some? && o.drained.value.kind == kind then o.drained.value.amount else 0)
        == FluidTotal(tanks, kind)
    decreases |tanks|
  {
    if tanks != [] {
      if tanks[0].amount == 0 {
        DrainTanksTotal(tanks[1..], max, kind);
        assert DrainTanks(tanks, max).tanks[1..] == DrainTanks(tanks[1..], max).tanks;
      } else {
        assert DrainTanks(tanks, max).tanks[1..] == tanks[1..];
      }
    }
  }

  /** A slot array with per-slot stack limits (Forge's ItemStackHandler). */
  class ItemHandler {
    const limits: seq<nat>
    var slots: seq<ItemStack>

    ghost predicate Valid()
      reads this
    {
      |slots| == |limits|
    }

    constructor (limits: seq<nat>)
      ensures Valid() && this.limits == limits
      ensures forall i :: 0 <= i < |slots| ==> slots[i] == EmptyStack
    {
      this.limits := limits;
      slots := seq(|limits|, _ => EmptyStack);
    }

    function SlotCount(): nat {
      |limits|
    }

    method SetStackInSlot(i: nat, stack: ItemStack)
      requires Valid() && i < |limits|
      modifies this`slots
      ensures Valid() && slots == old(slots)[i := stack]
    {
      slots := slots[i := stack];
    }

    /** Replaces every slot at once, as the helpers loading saved slots do. */
    method SetSlots(newSlots: seq<ItemStack>)
      requires |newSlots| == |limits|
      modifies this`slots
      ensures Valid() && slots == newSlots
    {
      slots := newSlots;
    }

    method InsertItem(i: nat, stack: ItemStack, simulate: bool) returns (remaining: ItemStack)
      requires Valid() && i < |limits|
      modifies this`slots
      ensures Valid()
      ensures remaining == Insert(old(slots), limits, i, stack).stack
      ensures slots == if simulate then old(slots) else Insert(old(slots), limits, i, stack).slots
    {
      var o := Insert(slots, limits, i, stack);
      remaining := o.stack;
      if !simulate {
        slots := o.slots;
      }
    }

    method ExtractItem(i: nat, amount: nat, simulate: bool) returns (extracted: ItemStack)
      requires Valid() && i < |limits|
      modifies this`slots
      ensures Valid()
      ensures extracted == Extract(old(slots), i, amount).stack
      ensures slots == if simulate then old(slots) else Extract(old(slots), i, amount).slots
    {
      var o := Extract(slots, i, amount);
      extracted := o.stack;
      if !simulate {
        slots := o.slots;
      }
    }
  }

  /** A list of tanks whose number and capacities are fixed at construction. */
  class FluidTankList {
    const capacities: seq<nat>
    var tanks: seq<Tank>

    ghost predicate Valid()
      reads this
    {
      |tanks| == |capacities|
      && forall i :: 0 <= i < |tanks| ==> tanks[i].capacity == capacities[i]
    }

    constructor (capacities: seq<nat>)
      ensures Valid() && this.capacities == capacities
      ensures forall i :: 0 <= i < |tanks| ==> tanks[i].amount == 0
    {
      this.capacities := capacities;
      tanks := seq(|capacities|, i requires 0 <= i < |capacities| => Tank(0, 0, capacities[i]));
    }

    function TankCount(): nat {
      |capacities|
    }

    /** Replaces the contents of every tank at once, as deserializeNBT does. */
    method SetTanks(newTanks: seq<Tank>)
      requires |newTanks| == |capacities| && forall i :: 0 <= i < |newTanks| ==> newTanks[i].capacity == capacities[i]
      modifies this`tanks
      ensures Valid() && tanks == newTanks
    {
      tanks := newTanks;
    }

    method Fill(res: FluidStack, doFill: bool) returns (filled: nat)
      requires Valid()
      modifies this`tanks
      ensures Valid()
      ensures filled == FillTanks(old(tanks), res).filled
      ensures tanks == if doFill then FillTanks(old(tanks), res).tanks else old(tanks)
    {
      var o := FillTanks(tanks, res);
      FillTanksShape(tanks, res);
      filled := o.filled;
      if doFill {
        tanks := o.tanks;
      }
    }

    method Drain(max: nat, doDrain: bool) returns (drained: Option<FluidStack>)
      requires Valid()
      modifies this`tanks
      ensures Valid()
      ensures drained == DrainTanks(old(tanks), max).drained
      ensures tanks == if doDrain then DrainTanks(old(tanks), max).tanks else old(tanks)
    {
      var o := DrainTanks(tanks, max);
      drained := o.drained;
      if doDrain {
        tanks := o.tanks;
      }
    }

    /** getTankAt(i).drain(max, doDrain) */
    method DrainTankAt(i: nat, max: nat, doDrain: bool) returns (drained: Option<FluidStack>)
      requires Valid() && i < |capacities|
      modifies this`tanks
      ensures Valid()
      ensures drained == DrainTank(old(tanks)[i], max).0
      ensures tanks == if doDrain then old(tanks)[i := DrainTank(old(tanks)[i], max).1] else old(tanks)
    {
      var o := DrainTank(tanks[i], max);
      drained := o.0;
      if doDrain {
        tanks := tanks[i := o.1];
      }
    }
  }

  /**
   * ItemHandlerHelper.insertItemStacked on a handler: the leftover, and the
   * slots changed unless simulating.  Each slot is offered the stack at most
   * once, so the dry run's leftover is the real one's.
   */
  method InsertItemStacked(h: ItemHandler, stack: ItemStack, simulate: bool) returns (leftover: ItemStack)
    requires h.Valid()
    modifies h
    ensures h.Valid()
    ensures leftover == InsertStacked(old(h.slots), h.limits, stack).stack
    ensures h.slots == if simulate then old(h.slots) else InsertStacked(old(h.slots), h.limits, stack).slots
  {
    var o := InsertStacked(h.slots, h.limits, stack);
    leftover := o.stack;
    if !simulate {
      h.SetSlots(o.slots);
    }
  }
}
