/**
 * The resource-transfer loops of a MetaTileEntity, as functions on values:
 * pushing the export slots into a neighbour's item handler, pulling a
 * neighbour's slots into the import slots, and the two fluid variants.  Each
 * follows simulate-then-commit: a dry run decides whether and how much, the
 * commit moves it.  The entity's methods run these loops in place and are
 * proved to end in the state these functions describe; the lemmas here say
 * that nothing is created or lost.
 */
module Transfer {
  import opened Wrappers
  import opened Inventory

  /** Integer.MAX_VALUE, the amount pullFluidsFromNearbyHandlers asks a neighbour to drain. */
  const MaxInt: nat := 0x7FFF_FFFF

  /** The slots of the entity's side and of the neighbour's side after a transfer. */
  datatype Moved = Moved(local: seq<ItemStack>, remote: seq<ItemStack>)

  // ----- pushing items -----

  /**
   * The inner loop of pushItemsIntoNearbyHandlers: the neighbour's slots from
   * `j` on are offered what is left of `stack`, in index order, until nothing
   * is left.  The result is the leftover and the neighbour's slots.
   */
  function PushStack(stack: ItemStack, hs: seq<ItemStack>, hl: seq<nat>, j: nat): (o: SlotsAndStack)
    requires |hs| == |hl|
    ensures |o.slots| == |hs|
    ensures o.stack.count <= stack.count
    ensures !o.stack.IsEmpty() ==> o.stack.kind == stack.kind && o.stack.tag == stack.tag
    ensures forall k :: 0 <= k < j && k < |hs| ==> o.slots[k] == hs[k]
    decreases |hs| - j
  {
    if j >= |hs| || stack.IsEmpty() then SlotsAndStack(stack, hs)
    else
      var o := Insert(hs, hl, j, stack);
      PushStack(o.stack, o.slots, hl, j + 1)
  }

  /** The outer loop over the export slots; empty slots are skipped. */
  function PushSlots(es: seq<ItemStack>, hs: seq<ItemStack>, hl: seq<nat>, i: nat): (o: Moved)
    requires |hs| == |hl|
    ensures |o.local| == |es| && |o.remote| == |hs|
    decreases |es| - i
  {
    if i >= |es| then Moved(es, hs)
    else if es[i].IsEmpty() then PushSlots(es, hs, hl, i + 1)
    else
      var o := PushStack(es[i], hs, hl, 0);
      PushSlots(es[i := o.stack], o.slots, hl, i + 1)
  }

  /** Pushing one stack neither creates nor destroys items of any kind. */
  lemma {:induction false} PushStackConserves(stack: ItemStack, hs: seq<ItemStack>, hl: seq<nat>, j: nat, kind: int, tag: int)
    requires |hs| == |hl|
    ensures var o := PushStack(stack, hs, hl, j);
      Total(o.slots, kind, tag) + CountOf(o.stack, kind, tag) == Total(hs, kind, tag) + CountOf(stack, kind, tag)
    decreases |hs| - j
  {
    if j < |hs| && !stack.IsEmpty() {
      var o := Insert(hs, hl, j, stack);
      TotalUpdate(hs, j, o.slots[j], kind, tag);
      PushStackConserves(o.stack, o.slots, hl, j + 1, kind, tag);
    }
  }

  /**
   * A stack is left over only when every neighbour slot from `j` on refuses
   * it: the loop stops early only once nothing is left.
   */
  lemma {:induction false} PushStackLeftover(stack: ItemStack, hs: seq<ItemStack>, hl: seq<nat>, j: nat, k: nat)
    requires |hs| == |hl| && j <= k < |hs|
    requires !PushStack(stack, hs, hl, j).stack.IsEmpty()
    ensures var o := PushStack(stack, hs, hl, j); Refuses(o.slots[k], hl[k], o.stack)
    decreases |hs| - j
  {
    var o1 := Insert(hs, hl, j, stack);
    var o := PushStack(stack, hs, hl, j);
    assert o == PushStack(o1.stack, o1.slots, hl, j + 1);
    if k == j {
      assert !o1.stack.IsEmpty();
      assert o.slots[j] == o1.slots[j];
    } else {
      PushStackLeftover(o1.stack, o1.slots, hl, j + 1, k);
    }
  }

  /** A neighbour slot that refuses a stack still refuses it after more stacks are pushed. */
  lemma {:induction false} PushStackKeepsRefusal(stack: ItemStack, hs: seq<ItemStack>, hl: seq<nat>, j: nat, k: nat, s: ItemStack)
    requires |hs| == |hl| && k < |hs| && Refuses(hs[k], hl[k], s)
    ensures Refuses(PushStack(stack, hs, hl, j).slots[k], hl[k], s)
    decreases |hs| - j
  {
    if j < |hs| && !stack.IsEmpty() {
      var o := Insert(hs, hl, j, stack);
      RefusesAfterInsert(hs, hl, k, s, j, stack);
      PushStackKeepsRefusal(o.stack, o.slots, hl, j + 1, k, s);
    }
  }

  /** Pushing all export slots conserves every kind of item across the two sides. */
  lemma {:induction false} PushSlotsConserves(es: seq<ItemStack>, hs: seq<ItemStack>, hl: seq<nat>, i: nat, kind: int, tag: int)
    requires |hs| == |hl|
    ensures var o := PushSlots(es, hs, hl, i);
      Total(o.local, kind, tag) + Total(o.remote, kind, tag) == Total(es, kind, tag) + Total(hs, kind, tag)
    decreases |es| - i
  {
    if i < |es| {
      if es[i].IsEmpty() {
        PushSlotsConserves(es, hs, hl, i + 1, kind, tag);
      } else {
        var o := PushStack(es[i], hs, hl, 0);
        PushStackConserves(es[i], hs, hl, 0, kind, tag);
        TotalUpdate(es, i, o.stack, kind, tag);
        PushSlotsConserves(es[i := o.stack], o.slots, hl, i + 1, kind, tag);
      }
    }
  }

  /**
   * After the push, whatever is still in an export slot the loop has passed
   * fits nowhere in the neighbour: every neighbour slot refuses it.
   */
  lemma {:induction false} PushSlotsLeftover(es: seq<ItemStack>, hs: seq<ItemStack>, hl: seq<nat>, i: nat, x: nat, k: nat)
    requires |hs| == |hl| && k < |hs| && x < |es|
    requires x < i ==> Refuses(hs[k], hl[k], es[x]) || es[x].IsEmpty()
    ensures var o := PushSlots(es, hs, hl, i); o.local[x].IsEmpty() || Refuses(o.remote[k], hl[k], o.local[x])
    decreases |es| - i
  {
    if i < |es| {
      if es[i].IsEmpty() {
        PushSlotsLeftover(es, hs, hl, i + 1, x, k);
      } else {
        var o := PushStack(es[i], hs, hl, 0);
        var es' := es[i := o.stack];
        if x == i {
          if !o.stack.IsEmpty() {
            PushStackLeftover(es[i], hs, hl, 0, k);
          }
        } else if x < i && !es[x].IsEmpty() {
          PushStackKeepsRefusal(es[i], hs, hl, 0, k, es[x]);
        }
        assert es'[x] == if x == i then o.stack else es[x];
        PushSlotsLeftover(es', o.slots, hl, i + 1, x, k);
      }
    }
  }

  // ----- pulling items -----

  /**
   * The inner loop of pullItemsFromNearbyHandlers for the neighbour's slot
   * `i`: `stack` is what the neighbour offers, and each import slot from `k`
   * on is asked, by a dry run, how much it takes.  When it takes something,
   * that many items are extracted from the neighbour for real and inserted for
   * real, and what the commit leaves over is offered further.
   */
  function PullInto(stack: ItemStack, hs: seq<ItemStack>, i: nat, ins: seq<ItemStack>, inl: seq<nat>, k: nat): (o: Moved)
    requires |ins| == |inl| && i < |hs|
    ensures |o.local| == |ins| && |o.remote| == |hs|
    decreases |ins| - k
  {
    if k >= |ins| || stack.IsEmpty() then Moved(ins, hs)
    else
      var sim := Insert(ins, inl, k, stack).stack;
      if sim != stack then
        var actual := Extract(hs, i, stack.count - sim.count);
        var committed := Insert(ins, inl, k, actual.stack);
        PullInto(committed.stack, actual.slots, i, committed.slots, inl, k + 1)
      else
        PullInto(stack, hs, i, ins, inl, k + 1)
  }

  /** One neighbour slot: offer everything it holds, up to its slot limit; an empty offer is skipped. */
  function PullSlot(hs: seq<ItemStack>, hl: seq<nat>, i: nat, ins: seq<ItemStack>, inl: seq<nat>): (o: Moved)
    requires |hs| == |hl| && i < |hs| && |ins| == |inl|
    ensures |o.local| == |ins| && |o.remote| == |hs|
  {
    var stack := Extract(hs, i, hl[i]).stack;
    if stack.IsEmpty() then Moved(ins, hs) else PullInto(stack, hs, i, ins, inl, 0)
  }

  /** The outer loop over the neighbour's slots, from `i` on. */
  function PullSlots(hs: seq<ItemStack>, hl: seq<nat>, ins: seq<ItemStack>, inl: seq<nat>, i: nat): (o: Moved)
    requires |hs| == |hl| && |ins| == |inl|
    ensures |o.local| == |ins| && |o.remote| == |hs|
    decreases |hs| - i
  {
    if i >= |hs| then Moved(ins, hs)
    else
      var o := PullSlot(hs, hl, i, ins, inl);
      PullSlots(o.remote, hl, o.local, inl, i + 1)
  }

  /** What the neighbour offers from slot `i` is backed by what that slot holds. */
  predicate Offered(stack: ItemStack, hs: seq<ItemStack>, i: nat)
    requires i < |hs|
  {
    stack.IsEmpty() || (stack.kind == hs[i].kind && stack.tag == hs[i].tag && stack.count <= hs[i].count)
  }

  /**
   * Pulling from one neighbour slot fills at most one import slot, the first
   * that takes anything, with exactly what the dry run said it takes; the
   * neighbour loses exactly that, and the commit leaves nothing over.
   */
  lemma PullIntoStep(stack: ItemStack, hs: seq<ItemStack>, i: nat, ins: seq<ItemStack>, inl: seq<nat>, k: nat)
    requires |ins| == |inl| && i < |hs| && k < |ins| && !stack.IsEmpty() && Offered(stack, hs, i)
    requires Insert(ins, inl, k, stack).stack != stack
    ensures var c := stack.count - Insert(ins, inl, k, stack).stack.count;
      && c > 0
      && PullInto(stack, hs, i, ins, inl, k) == Moved(Insert(ins, inl, k, stack).slots, Extract(hs, i, c).slots)
      && Insert(ins, inl, k, stack).slots == ins[k := Insert(ins, inl, k, stack).slots[k]]
      && Extract(hs, i, c).stack == stack.(count := c)
  {
    var sim := Insert(ins, inl, k, stack).stack;
    var c := stack.count - sim.count;
    var actual := Extract(hs, i, c);
    assert actual.stack == stack.(count := c);
    InsertAcceptedFits(ins, inl, k, stack);
  }

  /** Pulling from one neighbour slot conserves every kind of item. */
  lemma {:induction false} PullIntoConserves(stack: ItemStack, hs: seq<ItemStack>, i: nat, ins: seq<ItemStack>, inl: seq<nat>, k: nat, kind: int, tag: int)
    requires |ins| == |inl| && i < |hs| && Offered(stack, hs, i)
    ensures var o := PullInto(stack, hs, i, ins, inl, k);
      Total(o.local, kind, tag) + Total(o.remote, kind, tag) == Total(ins, kind, tag) + Total(hs, kind, tag)
    decreases |ins| - k
  {
    if k < |ins| && !stack.IsEmpty() {
      var o := Insert(ins, inl, k, stack);
      if o.stack != stack {
        PullIntoStep(stack, hs, i, ins, inl, k);
        var c := stack.count - o.stack.count;
        var e := Extract(hs, i, c);
        TotalUpdate(ins, k, o.slots[k], kind, tag);
        TotalUpdate(hs, i, e.slots[i], kind, tag);
        assert CountOf(o.slots[k], kind, tag) + CountOf(o.stack, kind, tag) == CountOf(ins[k], kind, tag) + CountOf(stack, kind, tag);
        assert CountOf(e.slots[i], kind, tag) + CountOf(e.stack, kind, tag) == CountOf(hs[i], kind, tag);
        assert CountOf(e.stack, kind, tag) + CountOf(o.stack, kind, tag) == CountOf(stack, kind, tag);
      } else {
        PullIntoConserves(stack, hs, i, ins, inl, k + 1, kind, tag);
      }
    }
  }

  /**
   * Pulling from one neighbour slot changes at most one import slot: once an
   * import slot has taken something, no later one changes.
   */
  lemma {:induction false} PullIntoFillsOneSlot(stack: ItemStack, hs: seq<ItemStack>, i: nat, ins: seq<ItemStack>, inl: seq<nat>, k: nat, a: nat, b: nat)
    requires |ins| == |inl| && i < |hs| && Offered(stack, hs, i)
    requires a < b < |ins|
    requires PullInto(stack, hs, i, ins, inl, k).local[a] != ins[a]
    ensures PullInto(stack, hs, i, ins, inl, k).local[b] == ins[b]
    decreases |ins| - k
  {
    if k < |ins| && !stack.IsEmpty() {
      var o := Insert(ins, inl, k, stack);
      if o.stack != stack {
        PullIntoStep(stack, hs, i, ins, inl, k);
      } else {
        PullIntoFillsOneSlot(stack, hs, i, ins, inl, k + 1, a, b);
      }
    }
  }

  lemma {:induction false} PullSlotsConserves(hs: seq<ItemStack>, hl: seq<nat>, ins: seq<ItemStack>, inl: seq<nat>, i: nat, kind: int, tag: int)
    requires |hs| == |hl| && |ins| == |inl|
    ensures var o := PullSlots(hs, hl, ins, inl, i);
      Total(o.local, kind, tag) + Total(o.remote, kind, tag) == Total(ins, kind, tag) + Total(hs, kind, tag)
    decreases |hs| - i
  {
    if i < |hs| {
      var stack := Extract(hs, i, hl[i]).stack;
      if !stack.IsEmpty() {
        PullIntoConserves(stack, hs, i, ins, inl, 0, kind, tag);
      }
      var o := PullSlot(hs, hl, i, ins, inl);
      PullSlotsConserves(o.remote, hl, o.local, inl, i + 1, kind, tag);
    }
  }

  // ----- fluids -----

  /** The entity's tanks and the neighbour's tanks after a fluid transfer. */
  datatype Poured = Poured(local: seq<Tank>, remote: seq<Tank>)

  /**
   * pushFluidsIntoNearbyHandlers for one neighbour, tanks from `i` on: a tank
   * holding fluid is offered to the neighbour by a dry run, and when the
   * neighbour takes some, the committed fill's amount is drained from the tank.
   */
  function PushTanks(ets: seq<Tank>, nts: seq<Tank>, i: nat): (o: Poured)
    ensures SameCapacities(o.local, ets) && SameCapacities(o.remote, nts)
    decreases |ets| - i
  {
    if i >= |ets| then Poured(ets, nts)
    else
      match TankFluid(ets[i])
      case None => PushTanks(ets, nts, i + 1)
      case Some(fluid) =>
        if FillTanks(nts, fluid).filled == 0 then PushTanks(ets, nts, i + 1)
        else
          var filled := FillTanks(nts, fluid);
          var drained := DrainTank(ets[i], filled.filled).1;
          FillTanksShape(nts, fluid);
          PushTanks(ets[i := drained], filled.tanks, i + 1)
  }

  /** Pushing fluids conserves every kind of fluid across the two sides, and no tank goes over capacity. */
  lemma {:induction false} PushTanksConserves(ets: seq<Tank>, nts: seq<Tank>, i: nat, kind: int)
    ensures var o := PushTanks(ets, nts, i);
      FluidTotal(o.local, kind) + FluidTotal(o.remote, kind) == FluidTotal(ets, kind) + FluidTotal(nts, kind)
    ensures AllWithinCapacity(ets) && AllWithinCapacity(nts) ==>
      AllWithinCapacity(PushTanks(ets, nts, i).local) && AllWithinCapacity(PushTanks(ets, nts, i).remote)
    decreases |ets| - i
  {
    if i < |ets| {
      match TankFluid(ets[i])
      case None => PushTanksConserves(ets, nts, i + 1, kind);
      case Some(fluid) =>
        var filled := FillTanks(nts, fluid);
        if filled.filled == 0 {
          PushTanksConserves(ets, nts, i + 1, kind);
        } else {
          var drained := DrainTank(ets[i], filled.filled).1;
          assert drained.amount == ets[i].amount - filled.filled;
          FillTanksTotal(nts, fluid, kind);
          FillTanksShape(nts, fluid);
          FluidTotalUpdate(ets, i, drained, kind);
          PushTanksConserves(ets[i := drained], filled.tanks, i + 1, kind);
        }
    }
  }

  /** A tank offered anything between what it accepted and the original offer accepts the same. */
  lemma TankAcceptsAgain(t: Tank, res: FluidStack, amount: nat)
    requires TankAccepts(t, res) <= amount <= res.amount
    ensures TankAccepts(t, res.(amount := amount)) == TankAccepts(t, res)
  {
  }

  /** One step of FillTanks: the first tank takes what it accepts, the rest take from what is left. */
  lemma FillTanksUnfold(tanks: seq<Tank>, res: FluidStack, f: nat, rest: Filled)
    requires tanks != [] && f == TankAccepts(tanks[0], res)
    requires rest == FillTanks(tanks[1..], res.(amount := res.amount - f))
    ensures FillTanks(tanks, res) == Filled(f + rest.filled, [FilledTank(tanks[0], res, f)] + rest.tanks)
  {
  }

  /** Filling again with exactly what a fill accepted is accepted in full, and fills the same way. */
  lemma {:induction false} FillTanksAgain(tanks: seq<Tank>, res: FluidStack)
    ensures var f := FillTanks(tanks, res).filled;
      FillTanks(tanks, res.(amount := f)) == FillTanks(tanks, res)
    decreases |tanks|
  {
    if tanks != [] {
      var t0 := TankAccepts(tanks[0], res);
      var rest := res.(amount := res.amount - t0);
      var tail := FillTanks(tanks[1..], rest);
      FillTanksUnfold(tanks, res, t0, tail);
      var f := t0 + tail.filled;
      var again := res.(amount := f);
      TankAcceptsAgain(tanks[0], res, f);
      FillTanksAgain(tanks[1..], rest);
      assert again.(amount := again.amount - t0) == rest.(amount := tail.filled);
      FillTanksUnfold(tanks, again, t0, tail);
      assert FilledTank(tanks[0], again, t0) == FilledTank(tanks[0], res, t0);
      assert FillTanks(tanks, res).filled == f;
      assert FillTanks(tanks, again) == FillTanks(tanks, res);
    } else {
      assert FillTanks(tanks, res) == Filled(0, []);
    }
  }

  /** Draining less than a drain offered takes it from the same tank, of the same kind. */
  lemma {:induction false} DrainTanksLess(tanks: seq<Tank>, max: nat, c: nat)
    requires DrainTanks(tanks, max).drained.Some? && 0 < c <= DrainTanks(tanks, max).drained.value.amount
    ensures DrainTanks(tanks, c).drained == Some(DrainTanks(tanks, max).drained.value.(amount := c))
    decreases |tanks|
  {
    if tanks[0].amount == 0 {
      DrainTanksLess(tanks[1..], max, c);
    }
  }

  /**
   * pullFluidsFromNearbyHandlers for one neighbour: a dry-run drain of
   * everything offers the neighbour's first non-empty tank, a dry-run fill
   * says how much the entity takes, and that much is drained and filled for
   * real.
   */
  function PullTanks(nts: seq<Tank>, its: seq<Tank>): (o: Poured)
    ensures SameCapacities(o.remote, nts) && SameCapacities(o.local, its)
  {
    match DrainTanks(nts, MaxInt).drained
    case None => Poured(its, nts)
    case Some(offer) =>
      if offer.amount == 0 then Poured(its, nts)
      else
        var can := FillTanks(its, offer).filled;
        if can == 0 then Poured(its, nts)
        else
          var taken := DrainTanks(nts, can);
          match taken.drained
          case None => Poured(its, taken.tanks)
          case Some(fluid) =>
            FillTanksShape(its, fluid);
            Poured(FillTanks(its, fluid).tanks, taken.tanks)
  }

  /** Pulling fluid moves exactly what the dry-run fill accepted and conserves every kind. */
  lemma PullTanksConserves(nts: seq<Tank>, its: seq<Tank>, kind: int)
    ensures var o := PullTanks(nts, its);
      FluidTotal(o.local, kind) + FluidTotal(o.remote, kind) == FluidTotal(its, kind) + FluidTotal(nts, kind)
    ensures AllWithinCapacity(nts) && AllWithinCapacity(its) ==>
      AllWithinCapacity(PullTanks(nts, its).local) && AllWithinCapacity(PullTanks(nts, its).remote)
  {
    match DrainTanks(nts, MaxInt).drained
    case None =>
    case Some(offer) =>
      var can := FillTanks(its, offer).filled;
      if offer.amount != 0 && can != 0 {
        DrainTanksLess(nts, MaxInt, can);
        DrainTanksTotal(nts, can, kind);
        FillTanksAgain(its, offer);
        FillTanksTotal(its, offer.(amount := can), kind);
        FillTanksShape(its, offer.(amount := can));
      }
  }

  // ----- over all allowed faces -----

  predicate SlotShapes(ns: seq<seq<ItemStack>>, nl: seq<seq<nat>>) {
    |ns| == |nl| && forall g :: 0 <= g < |ns| ==> |ns[g]| == |nl[g]|
  }

  /** How many items of a kind and tag a list of neighbours holds in all. */
  function NeighbourTotal(ns: seq<seq<ItemStack>>, kind: int, tag: int): nat {
    if ns == [] then 0 else Total(ns[0], kind, tag) + NeighbourTotal(ns[1..], kind, tag)
  }

  lemma {:induction false} NeighbourTotalUpdate(ns: seq<seq<ItemStack>>, f: nat, x: seq<ItemStack>, kind: int, tag: int)
    requires f < |ns|
    ensures NeighbourTotal(ns[f := x], kind, tag) + Total(ns[f], kind, tag) == NeighbourTotal(ns, kind, tag) + Total(x, kind, tag)
    decreases |ns|
  {
    if f == 0 {
      assert ns[f := x][1..] == ns[1..];
    } else {
      NeighbourTotalUpdate(ns[1..], f - 1, x, kind, tag);
      assert ns[f := x][1..] == ns[1..][f - 1 := x];
    }
  }

  /** The export slots and the neighbours' slots after pushing into the neighbours from face `f` on. */
  datatype Spread = Spread(local: seq<ItemStack>, remote: seq<seq<ItemStack>>)

  function PushFaces(es: seq<ItemStack>, ns: seq<seq<ItemStack>>, nl: seq<seq<nat>>, f: nat): (o: Spread)
    requires SlotShapes(ns, nl)
    ensures |o.local| == |es| && SlotShapes(o.remote, nl)
    decreases |ns| - f
  {
    if f >= |ns| then Spread(es, ns)
    else
      var m := PushSlots(es, ns[f], nl[f], 0);
      PushFaces(m.local, ns[f := m.remote], nl, f + 1)
  }

  function PullFaces(ins: seq<ItemStack>, inl: seq<nat>, ns: seq<seq<ItemStack>>, nl: seq<seq<nat>>, f: nat): (o: Spread)
    requires SlotShapes(ns, nl) && |ins| == |inl|
    ensures |o.local| == |ins| && SlotShapes(o.remote, nl)
    decreases |ns| - f
  {
    if f >= |ns| then Spread(ins, ns)
    else
      var m := PullSlots(ns[f], nl[f], ins, inl, 0);
      PullFaces(m.local, inl, ns[f := m.remote], nl, f + 1)
  }

  /** Pushing into every allowed neighbour conserves every kind of item. */
  lemma {:induction false} PushFacesConserves(es: seq<ItemStack>, ns: seq<seq<ItemStack>>, nl: seq<seq<nat>>, f: nat, kind: int, tag: int)
    requires SlotShapes(ns, nl)
    ensures var o := PushFaces(es, ns, nl, f);
      Total(o.local, kind, tag) + NeighbourTotal(o.remote, kind, tag) == Total(es, kind, tag) + NeighbourTotal(ns, kind, tag)
    decreases |ns| - f
  {
    if f < |ns| {
      var m := PushSlots(es, ns[f], nl[f], 0);
      PushSlotsConserves(es, ns[f], nl[f], 0, kind, tag);
      NeighbourTotalUpdate(ns, f, m.remote, kind, tag);
      PushFacesConserves(m.local, ns[f := m.remote], nl, f + 1, kind, tag);
    }
  }

  /** Pulling from every allowed neighbour conserves every kind of item. */
  lemma {:induction false} PullFacesConserves(ins: seq<ItemStack>, inl: seq<nat>, ns: seq<seq<ItemStack>>, nl: seq<seq<nat>>, f: nat, kind: int, tag: int)
    requires SlotShapes(ns, nl) && |ins| == |inl|
    ensures var o := PullFaces(ins, inl, ns, nl, f);
      Total(o.local, kind, tag) + NeighbourTotal(o.remote, kind, tag) == Total(ins, kind, tag) + NeighbourTotal(ns, kind, tag)
    decreases |ns| - f
  {
    if f < |ns| {
      var m := PullSlots(ns[f], nl[f], ins, inl, 0);
      PullSlotsConserves(ns[f], nl[f], ins, inl, 0, kind, tag);
      NeighbourTotalUpdate(ns, f, m.remote, kind, tag);
      PullFacesConserves(m.local, inl, ns[f := m.remote], nl, f + 1, kind, tag);
    }
  }

  /** The entity's tanks and the neighbours' tanks after a fluid transfer over faces from `f` on. */
  datatype Flowed = Flowed(local: seq<Tank>, remote: seq<seq<Tank>>)

  /** How much of a fluid kind a list of neighbours holds in all. */
  function NeighbourFluid(ns: seq<seq<Tank>>, kind: int): nat {
    if ns == [] then 0 else FluidTotal(ns[0], kind) + NeighbourFluid(ns[1..], kind)
  }

  lemma {:induction false} NeighbourFluidUpdate(ns: seq<seq<Tank>>, f: nat, x: seq<Tank>, kind: int)
    requires f < |ns|
    ensures NeighbourFluid(ns[f := x], kind) + FluidTotal(ns[f], kind) == NeighbourFluid(ns, kind) + FluidTotal(x, kind)
    decreases |ns|
  {
    if f == 0 {
      assert ns[f := x][1..] == ns[1..];
    } else {
      NeighbourFluidUpdate(ns[1..], f - 1, x, kind);
      assert ns[f := x][1..] == ns[1..][f - 1 := x];
    }
  }

  function PushFluidFaces(ets: seq<Tank>, ns: seq<seq<Tank>>, f: nat): (o: Flowed)
    ensures |o.local| == |ets| && |o.remote| == |ns|
    decreases |ns| - f
  {
    if f >= |ns| then Flowed(ets, ns)
    else
      var m := PushTanks(ets, ns[f], 0);
      PushFluidFaces(m.local, ns[f := m.remote], f + 1)
  }

  function PullFluidFaces(its: seq<Tank>, ns: seq<seq<Tank>>, f: nat): (o: Flowed)
    ensures |o.local| == |its| && |o.remote| == |ns|
    decreases |ns| - f
  {
    if f >= |ns| then Flowed(its, ns)
    else
      var m := PullTanks(ns[f], its);
      PullFluidFaces(m.local, ns[f := m.remote], f + 1)
  }

  /** Pushing fluid into every allowed neighbour conserves every kind of fluid. */
  lemma {:induction false} PushFluidFacesConserves(ets: seq<Tank>, ns: seq<seq<Tank>>, f: nat, kind: int)
    ensures var o := PushFluidFaces(ets, ns, f);
      FluidTotal(o.local, kind) + NeighbourFluid(o.remote, kind) == FluidTotal(ets, kind) + NeighbourFluid(ns, kind)
    decreases |ns| - f
  {
    if f < |ns| {
      var m := PushTanks(ets, ns[f], 0);
      PushTanksConserves(ets, ns[f], 0, kind);
      NeighbourFluidUpdate(ns, f, m.remote, kind);
      PushFluidFacesConserves(m.local, ns[f := m.remote], f + 1, kind);
    }
  }

  /** Pulling fluid from every allowed neighbour conserves every kind of fluid. */
  lemma {:induction false} PullFluidFacesConserves(its: seq<Tank>, ns: seq<seq<Tank>>, f: nat, kind: int)
    ensures var o := PullFluidFaces(its, ns, f);
      FluidTotal(o.local, kind) + NeighbourFluid(o.remote, kind) == FluidTotal(its, kind) + NeighbourFluid(ns, kind)
    decreases |ns| - f
  {
    if f < |ns| {
      var m := PullTanks(ns[f], its);
      PullTanksConserves(ns[f], its, kind);
      NeighbourFluidUpdate(ns, f, m.remote, kind);
      PullFluidFacesConserves(m.local, ns[f := m.remote], f + 1, kind);
    }
  }

  // ----- worked examples -----

  /**
   * Forty items in one export slot pushed into a neighbour whose two slots
   * take 10 and 50: the first is filled completely before the second is
   * touched, leaving nothing behind and 10 and 30 in the neighbour.
   */
  lemma PushFortyExample(kind: int)
    ensures PushSlots([ItemStack(kind, 40, 0)], [EmptyStack, EmptyStack], [10, 50], 0)
         == Moved([EmptyStack], [ItemStack(kind, 10, 0), ItemStack(kind, 30, 0)])
  {
    var s := ItemStack(kind, 40, 0);
    var o1 := Insert([EmptyStack, EmptyStack], [10, 50], 0, s);
    assert o1 == SlotsAndStack(ItemStack(kind, 30, 0), [ItemStack(kind, 10, 0), EmptyStack]);
    var o2 := Insert(o1.slots, [10, 50], 1, o1.stack);
    assert o2 == SlotsAndStack(EmptyStack, [ItemStack(kind, 10, 0), ItemStack(kind, 30, 0)]);
    assert PushStack(o2.stack, o2.slots, [10, 50], 2) == o2;
    assert PushStack(o1.stack, o1.slots, [10, 50], 1) == o2;
    assert PushStack(s, [EmptyStack, EmptyStack], [10, 50], 0) == o2;
    assert [ItemStack(kind, 40, 0)][0 := EmptyStack] == [EmptyStack];
  }
}
