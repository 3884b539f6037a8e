/**
 * The network sync protocol of an entity: the full sync sent when a client
 * starts watching it (writeInitialSyncData / receiveInitialSyncData) and the
 * delta packets dispatched on their discriminator (receiveCustomData).  The
 * decoders are stated on a snapshot of the synced state; a Java exception is
 * an error value here, carrying the state reached when it was thrown.
 */
module Sync {
  import opened Wrappers
  import opened Packets
  import opened Facings
  import opened Traits

  /** The parts of an entity that the full sync carries. */
  datatype SyncState = SyncState(facing: Facing, color: Int32, traits: seq<Trait>)

  datatype SyncError =
    | BufferUnderflow            // a read past the end of the buffer
    | FacingOutOfRange(index: int) // EnumFacing.VALUES[index] with index not in 0..5
    | BadString                  // readString: short buffer or bad length
    | UnknownTrait(name: string) // IllegalArgumentException("Invalid trait name: ...")
    | MissingHolder              // getHolder() is null when a render update is scheduled

  datatype SyncOutcome = SyncOutcome(state: SyncState, pos: nat, error: Option<SyncError>)

  /** Discriminators of the deltas the entity itself sends. */
  const FacingDelta: int := -1
  const ColorDelta: int := -2
  const TraitDelta: int := -4

  // ----- the full sync -----

  /** Each trait's name, then its initial data, in list order. */
  function TraitsSyncBytes(ts: seq<Trait>): seq<Byte>
    requires NamesFit(ts)
    decreases |ts|
  {
    if ts == [] then [] else EncodeString(ts[0].name) + InitialData(ts[0]) + TraitsSyncBytes(ts[1..])
  }

  /** writeInitialSyncData: facing byte, colour int, trait count as a short, then the traits. */
  function InitialSyncBytes(s: SyncState): seq<Byte>
    requires NamesFit(s.traits)
  {
    EncodeByte(s.facing) + EncodeInt(s.color) + EncodeShort(|s.traits|) + TraitsSyncBytes(s.traits)
  }

  /** The trait list with the given trait's syncValue replaced. */
  function SetSyncValue(ts: seq<Trait>, i: nat, v: Int32): (r: seq<Trait>)
    requires i < |ts|
    ensures SameNames(r, ts)
    ensures r[i] == ts[i].(syncValue := v)
    ensures forall j :: 0 <= j < |ts| && j != i ==> r[j] == ts[j]
  {
    ts[i := ts[i].(syncValue := v)]
  }

  /**
   * The loop of receiveInitialSyncData over `remaining` traits: read a name,
   * find the trait of that name, let it read its initial data.
   */
  function ReceiveTraits(bs: seq<Byte>, pos: nat, s: SyncState, remaining: int): SyncOutcome
    decreases if remaining > 0 then remaining else 0
  {
    if remaining <= 0 then SyncOutcome(s, pos, None)
    else
      match DecodeString(bs, pos, MaxStringLength)
      case None => SyncOutcome(s, pos, Some(BadString))
      case Some(n) =>
        match FindTrait(s.traits, n.value)
        case None => SyncOutcome(s, n.next, Some(UnknownTrait(n.value)))
        case Some(i) =>
          match DecodeInt(bs, n.next)
          case None => SyncOutcome(s, n.next, Some(BufferUnderflow))
          case Some(v) =>
            var s' := s.(traits := SetSyncValue(s.traits, i, v.value));
            ReceiveTraits(bs, v.next, s', remaining - 1)
  }

  /**
   * The traits loop changes only trait values: the facing, the colour and
   * every name stay, an UnknownTrait error names a trait the entity does not
   * have, and no other kind of error than its own three arises.
   */
  lemma {:induction false} ReceiveTraitsKeeps(bs: seq<Byte>, pos: nat, s: SyncState, remaining: int)
    ensures var o := ReceiveTraits(bs, pos, s, remaining);
      && o.state.facing == s.facing && o.state.color == s.color
      && SameNames(o.state.traits, s.traits)
      && (o.pos == pos || o.pos <= |bs|)
      && (o.error.Some? && o.error.value.UnknownTrait? ==>
            forall j :: 0 <= j < |s.traits| ==> s.traits[j].name != o.error.value.name)
      && (o.error.Some? ==> o.error.value.BadString? || o.error.value.UnknownTrait? || o.error.value.BufferUnderflow?)
    decreases if remaining > 0 then remaining else 0
  {
    if remaining > 0 {
      match DecodeString(bs, pos, MaxStringLength)
      case None =>
      case Some(n) =>
        match FindTrait(s.traits, n.value)
        case None =>
        case Some(i) =>
          match DecodeInt(bs, n.next)
          case None =>
          case Some(v) =>
            var s' := s.(traits := SetSyncValue(s.traits, i, v.value));
            ReceiveTraitsKeeps(bs, v.next, s', remaining - 1);
    }
  }

  /** receiveInitialSyncData on an entity whose synced state is `s`. */
  function ReceiveInitial(bs: seq<Byte>, pos: nat, s: SyncState): SyncOutcome
  {
    match DecodeByte(bs, pos)
    case None => SyncOutcome(s, pos, Some(BufferUnderflow))
    case Some(b) =>
      match FacingAt(b.value)
      case None => SyncOutcome(s, b.next, Some(FacingOutOfRange(b.value)))
      case Some(f) =>
        var s1 := s.(facing := f);
        match DecodeInt(bs, b.next)
        case None => SyncOutcome(s1, b.next, Some(BufferUnderflow))
        case Some(c) =>
          var s2 := s1.(color := c.value);
          match DecodeShort(bs, c.next)
          case None => SyncOutcome(s2, c.next, Some(BufferUnderflow))
          case Some(n) => ReceiveTraits(bs, n.next, s2, n.value)
  }

  /**
   * A full sync keeps every trait name; an UnknownTrait error names a trait
   * the entity does not have; a facing out of range leaves the state as it was.
   */
  lemma ReceiveInitialKeeps(bs: seq<Byte>, pos: nat, s: SyncState)
    ensures var o := ReceiveInitial(bs, pos, s);
      && SameNames(o.state.traits, s.traits)
      && (o.error.Some? && o.error.value.UnknownTrait? ==>
            forall j :: 0 <= j < |s.traits| ==> s.traits[j].name != o.error.value.name)
      && (o.error.Some? && o.error.value.FacingOutOfRange? ==> o.state == s)
  {
    match DecodeByte(bs, pos)
    case None =>
    case Some(b) =>
      match FacingAt(b.value)
      case None =>
      case Some(f) =>
        match DecodeInt(bs, b.next)
        case None =>
        case Some(c) =>
          match DecodeShort(bs, c.next)
          case None =>
          case Some(n) => ReceiveTraitsKeeps(bs, n.next, s.(facing := f, color := c.value), n.value);
  }

  /** The initial data the trait of the given name wrote (0 when there is none). */
  function SyncValueOf(ts: seq<Trait>, name: string): Int32 {
    match FindTrait(ts, name)
    case None => 0
    case Some(i) => ts[i].syncValue
  }

  lemma SyncValueOfCons(ts: seq<Trait>, n: string)
    requires ts != []
    ensures SyncValueOf(ts, n) == if n == ts[0].name then ts[0].syncValue else SyncValueOf(ts[1..], n)
  {
    if n != ts[0].name {
      match FindTrait(ts[1..], n)
      case None =>
      case Some(k) => assert FindTrait(ts, n) == Some(k + 1);
    }
  }

  lemma TraitsSyncBytesCons(ts: seq<Trait>)
    requires ts != [] && NamesFit(ts)
    ensures NamesFit(ts[1..]) && |ts[0].name| <= MaxStringLength
    ensures TraitsSyncBytes(ts) == (EncodeString(ts[0].name) + InitialData(ts[0])) + TraitsSyncBytes(ts[1..])
  {
    assert forall j :: 0 <= j < |ts[1..]| ==> ts[1..][j] == ts[j + 1];
  }

  /** The traits part from trait `i` on: that trait's entry, then the rest. */
  lemma TraitsSyncBytesAt(ts: seq<Trait>, i: nat)
    requires NamesFit(ts) && i < |ts|
    ensures NamesFit(ts[i..]) && NamesFit(ts[i + 1..]) && |ts[i].name| <= MaxStringLength
    ensures TraitsSyncBytes(ts[i..]) == (EncodeString(ts[i].name) + InitialData(ts[i])) + TraitsSyncBytes(ts[i + 1..])
  {
    assert forall j :: 0 <= j < |ts[i..]| ==> ts[i..][j] == ts[i + j];
    assert ts[i..][1..] == ts[i + 1..];
    TraitsSyncBytesCons(ts[i..]);
  }

  /** Every suffix of a trait list whose names fit has names that fit. */
  lemma NamesFitSuffix(ts: seq<Trait>, i: nat)
    requires NamesFit(ts) && i <= |ts|
    ensures NamesFit(ts[i..])
  {
    assert forall j :: 0 <= j < |ts[i..]| ==> ts[i..][j] == ts[i + j];
  }

  /**
   * Writing trait `i`'s entry after bytes that, followed by the traits part
   * from `i` on, make `goal`, leaves bytes that the part from `i + 1` on completes.
   */
  lemma TraitsSyncStep(ts: seq<Trait>, i: nat, before: seq<Byte>, goal: seq<Byte>)
    requires NamesFit(ts) && i < |ts| && NamesFit(ts[i..])
    requires before + TraitsSyncBytes(ts[i..]) == goal
    ensures NamesFit(ts[i + 1..]) && |ts[i].name| <= MaxStringLength
    ensures before + EncodeString(ts[i].name) + EncodeInt(ts[i].syncValue) + TraitsSyncBytes(ts[i + 1..]) == goal
  {
    TraitsSyncBytesAt(ts, i);
    var entry := EncodeString(ts[i].name) + InitialData(ts[i]);
    var rest := TraitsSyncBytes(ts[i + 1..]);
    assert before + (entry + rest) == before + entry + rest;
  }

  /** The full sync is the header followed by the traits part from the first trait on. */
  lemma InitialSyncBytesSplit(s: SyncState)
    requires NamesFit(s.traits)
    ensures NamesFit(s.traits[0..])
    ensures InitialSyncBytes(s) == EncodeByte(s.facing) + EncodeInt(s.color) + EncodeShort(|s.traits|) + TraitsSyncBytes(s.traits[0..])
  {
    assert s.traits[0..] == s.traits;
  }

  /** Where the entry of trait `t` in the traits part ends, when it starts at `pos`. */
  function EntryEnd(pos: nat, t: Trait): nat {
    pos + 2 + 3 * |t.name| + 4
  }

  /** The bytes at `pos` decode as trait `t`'s entry: its name, then its initial data. */
  predicate EntryAt(bs: seq<Byte>, pos: nat, t: Trait) {
    && DecodeString(bs, pos, MaxStringLength) == Some(Decoded(t.name, pos + 2 + 3 * |t.name|))
    && DecodeInt(bs, pos + 2 + 3 * |t.name|) == Some(Decoded(t.syncValue, EntryEnd(pos, t)))
  }

  /** The bytes at `pos` decode as the entries of the traits `ts`, in order. */
  predicate EntriesAt(bs: seq<Byte>, pos: nat, ts: seq<Trait>)
    decreases |ts|
  {
    ts == [] || (EntryAt(bs, pos, ts[0]) && EntriesAt(bs, EntryEnd(pos, ts[0]), ts[1..]))
  }

  lemma EntryAtFromBytes(bs: seq<Byte>, pos: nat, t: Trait)
    requires |t.name| <= MaxStringLength && WrittenAt(bs, pos, EncodeString(t.name) + InitialData(t))
    ensures EntryAt(bs, pos, t)
  {
    WrittenAtSplit(bs, pos, EncodeString(t.name), InitialData(t));
    StringRoundTrip(t.name, bs, pos);
    IntRoundTrip(t.syncValue, bs, pos + |EncodeString(t.name)|);
  }

  lemma {:induction false} EntriesAtFromBytes(bs: seq<Byte>, pos: nat, ts: seq<Trait>)
    requires NamesFit(ts) && WrittenAt(bs, pos, TraitsSyncBytes(ts))
    ensures EntriesAt(bs, pos, ts)
    decreases |ts|
  {
    if ts != [] {
      var t := ts[0];
      TraitsSyncBytesCons(ts);
      WrittenAtSplit(bs, pos, EncodeString(t.name) + InitialData(t), TraitsSyncBytes(ts[1..]));
      EntryAtFromBytes(bs, pos, t);
      assert pos + |EncodeString(t.name) + InitialData(t)| == EntryEnd(pos, t);
      EntriesAtFromBytes(bs, EntryEnd(pos, t), ts[1..]);
    }
  }

  lemma ReceiveTraitsStep(bs: seq<Byte>, pos: nat, s: SyncState, remaining: int, name: string, q: nat, i: nat, v: Int32)
    requires remaining > 0
    requires DecodeString(bs, pos, MaxStringLength) == Some(Decoded(name, q))
    requires FindTrait(s.traits, name) == Some(i)
    requires DecodeInt(bs, q) == Some(Decoded(v, q + 4))
    ensures ReceiveTraits(bs, pos, s, remaining) == ReceiveTraits(bs, q + 4, s.(traits := SetSyncValue(s.traits, i, v)), remaining - 1)
  {
  }

  /** The three ways one step of the traits loop can fail, and what each leaves. */
  lemma ReceiveTraitsBadString(bs: seq<Byte>, pos: nat, s: SyncState, remaining: int)
    requires remaining > 0 && DecodeString(bs, pos, MaxStringLength).None?
    ensures ReceiveTraits(bs, pos, s, remaining) == SyncOutcome(s, pos, Some(BadString))
  {
  }

  lemma ReceiveTraitsUnknownName(bs: seq<Byte>, pos: nat, s: SyncState, remaining: int, name: string, q: nat)
    requires remaining > 0 && DecodeString(bs, pos, MaxStringLength) == Some(Decoded(name, q))
    requires FindTrait(s.traits, name).None?
    ensures ReceiveTraits(bs, pos, s, remaining) == SyncOutcome(s, q, Some(UnknownTrait(name)))
  {
  }

  lemma ReceiveTraitsShortValue(bs: seq<Byte>, pos: nat, s: SyncState, remaining: int, name: string, q: nat, i: nat)
    requires remaining > 0 && DecodeString(bs, pos, MaxStringLength) == Some(Decoded(name, q))
    requires FindTrait(s.traits, name) == Some(i) && DecodeInt(bs, q).None?
    ensures ReceiveTraits(bs, pos, s, remaining) == SyncOutcome(s, q, Some(BufferUnderflow))
  {
  }

  /** Where the traits part of a full sync ends. */
  function TraitsEnd(pos: nat, ts: seq<Trait>): nat
    decreases |ts|
  {
    if ts == [] then pos else TraitsEnd(EntryEnd(pos, ts[0]), ts[1..])
  }

  lemma {:induction false} TraitsEndLength(pos: nat, ts: seq<Trait>)
    requires NamesFit(ts)
    ensures TraitsEnd(pos, ts) == pos + |TraitsSyncBytes(ts)|
    decreases |ts|
  {
    if ts != [] {
      TraitsSyncBytesCons(ts);
      TraitsEndLength(EntryEnd(pos, ts[0]), ts[1..]);
    }
  }

  /** A receiving trait after a full sync from `ts`: it takes the initial data of the sender's trait of its name, if any. */
  function Synced(t: Trait, ts: seq<Trait>): Trait {
    if t.name in NameSet(ts) then t.(syncValue := SyncValueOf(ts, t.name)) else t
  }

  lemma SameNamesNameSet(a: seq<Trait>, b: seq<Trait>)
    requires SameNames(a, b)
    ensures NameSet(a) == NameSet(b)
  {
    assert forall n :: n in NameSet(a) ==> n in NameSet(b) by {
      forall n | n in NameSet(a) ensures n in NameSet(b) {
        var i :| 0 <= i < |a| && a[i].name == n;
        assert b[i].name == n;
      }
    }
    assert forall n :: n in NameSet(b) ==> n in NameSet(a) by {
      forall n | n in NameSet(b) ensures n in NameSet(a) {
        var i :| 0 <= i < |b| && b[i].name == n;
        assert a[i].name == n;
      }
    }
  }

  /**
   * The traits loop stated on the entries the bytes hold: each entry's name
   * is looked up, an unknown name stops the loop with UnknownTrait, a known
   * one hands that trait the entry's initial data.
   */
  function ApplyEntries(ts: seq<Trait>, pos: nat, s: SyncState): SyncOutcome
    decreases |ts|
  {
    if ts == [] then SyncOutcome(s, pos, None)
    else
      match FindTrait(s.traits, ts[0].name)
      case None => SyncOutcome(s, pos + 2 + 3 * |ts[0].name|, Some(UnknownTrait(ts[0].name)))
      case Some(i) => ApplyEntries(ts[1..], EntryEnd(pos, ts[0]), s.(traits := SetSyncValue(s.traits, i, ts[0].syncValue)))
  }

  /** Over bytes that hold the entries `ts`, the traits loop does what ApplyEntries says. */
  lemma {:induction false} ReceiveTraitsEntries(ts: seq<Trait>, bs: seq<Byte>, pos: nat, s: SyncState)
    requires EntriesAt(bs, pos, ts)
    ensures ReceiveTraits(bs, pos, s, |ts|) == ApplyEntries(ts, pos, s)
    decreases |ts|
  {
    if ts != [] {
      var t := ts[0];
      var q := pos + 2 + 3 * |t.name|;
      assert EntryAt(bs, pos, t);
      match FindTrait(s.traits, t.name)
      case None =>
        ReceiveTraitsUnknownName(bs, pos, s, |ts|, t.name, q);
      case Some(i) =>
        var s' := s.(traits := SetSyncValue(s.traits, i, t.syncValue));
        ReceiveTraitsStep(bs, pos, s, |ts|, t.name, q, i, t.syncValue);
        assert |ts[1..]| == |ts| - 1;
        ReceiveTraitsEntries(ts[1..], bs, EntryEnd(pos, t), s');
    }
  }

  /** Entries whose names the receiver all has are applied to the end without error. */
  lemma {:induction false} ApplyEntriesCompletes(ts: seq<Trait>, pos: nat, s: SyncState)
    requires NameSet(ts) <= NameSet(s.traits)
    ensures ApplyEntries(ts, pos, s).error.None?
    ensures ApplyEntries(ts, pos, s).pos == TraitsEnd(pos, ts)
    decreases |ts|
  {
    if ts != [] {
      var t := ts[0];
      assert t.name in NameSet(ts);
      FindTraitFound(s.traits, t.name);
      var i := FindTrait(s.traits, t.name).value;
      var s' := s.(traits := SetSyncValue(s.traits, i, t.syncValue));
      NameSetCons(ts);
      SameNamesNameSet(s'.traits, s.traits);
      ApplyEntriesCompletes(ts[1..], EntryEnd(pos, t), s');
    }
  }

  /** Receiving the first entry, then the rest, agrees with receiving them all. */
  lemma SyncedStep(ts: seq<Trait>, xs: seq<Trait>, i: nat, j: nat)
    requires ts != [] && UniqueNames(ts) && UniqueNames(xs)
    requires i < |xs| && j < |xs| && xs[i].name == ts[0].name
    ensures Synced(SetSyncValue(xs, i, ts[0].syncValue)[j], ts[1..]) == Synced(xs[j], ts)
  {
    var n := xs[j].name;
    NameSetCons(ts);
    UniqueNamesTail(ts);
    SyncValueOfCons(ts, n);
    if n == ts[0].name {
      assert j == i;
    }
  }

  /**
   * Applying the entries of a full sync: the receiving trait at `j` takes
   * the initial data of the sender's trait of its name, if there is one.
   */
  lemma {:induction false} ApplyEntriesValue(ts: seq<Trait>, pos: nat, s: SyncState, j: nat)
    requires UniqueNames(ts) && UniqueNames(s.traits) && NameSet(ts) <= NameSet(s.traits) && j < |s.traits|
    ensures j < |ApplyEntries(ts, pos, s).state.traits|
    ensures ApplyEntries(ts, pos, s).state.traits[j] == Synced(s.traits[j], ts)
    decreases |ts|
  {
    if ts != [] {
      var t := ts[0];
      assert t.name in NameSet(ts);
      FindTraitFound(s.traits, t.name);
      var i := FindTrait(s.traits, t.name).value;
      var s' := s.(traits := SetSyncValue(s.traits, i, t.syncValue));
      NameSetCons(ts);
      UniqueNamesTail(ts);
      SameNamesNameSet(s'.traits, s.traits);
      assert UniqueNames(s'.traits);
      ApplyEntriesValue(ts[1..], EntryEnd(pos, t), s', j);
      SyncedStep(ts, s.traits, i, j);
    }
  }

  /**
   * An entry whose name no receiving trait has stops the traits loop with
   * UnknownTrait (the source throws there), whatever entries come before it.
   */
  lemma {:induction false} ApplyEntriesRejects(ts: seq<Trait>, pos: nat, s: SyncState, k: nat)
    requires k < |ts| && ts[k].name !in NameSet(s.traits)
    ensures ApplyEntries(ts, pos, s).error.Some?
    ensures ApplyEntries(ts, pos, s).error.value.UnknownTrait?
    decreases k
  {
    var t := ts[0];
    FindTraitFound(s.traits, t.name);
    if FindTrait(s.traits, t.name).Some? {
      var i := FindTrait(s.traits, t.name).value;
      var s' := s.(traits := SetSyncValue(s.traits, i, t.syncValue));
      SameNamesNameSet(s'.traits, s.traits);
      assert ts[1..][k - 1] == ts[k];
      ApplyEntriesRejects(ts[1..], EntryEnd(pos, t), s', k - 1);
    }
  }

  /** The header of a full sync decodes as written, leaving the traits loop over the sender's entries. */
  lemma InitialSyncHeader(sender: SyncState, receiver: SyncState, bs: seq<Byte>, pos: nat)
    requires NamesFit(sender.traits) && |sender.traits| <= 0x7FFF
    requires WrittenAt(bs, pos, InitialSyncBytes(sender))
    ensures EntriesAt(bs, pos + 7, sender.traits)
    ensures ReceiveInitial(bs, pos, receiver)
         == ReceiveTraits(bs, pos + 7, receiver.(facing := sender.facing, color := sender.color), |sender.traits|)
  {
    var ts := sender.traits;
    assert InitialSyncBytes(sender) == EncodeByte(sender.facing) + (EncodeInt(sender.color) + (EncodeShort(|ts|) + TraitsSyncBytes(ts)));
    WrittenAtSplit(bs, pos, EncodeByte(sender.facing), EncodeInt(sender.color) + (EncodeShort(|ts|) + TraitsSyncBytes(ts)));
    WrittenAtSplit(bs, pos + 1, EncodeInt(sender.color), EncodeShort(|ts|) + TraitsSyncBytes(ts));
    WrittenAtSplit(bs, pos + 5, EncodeShort(|ts|), TraitsSyncBytes(ts));
    ByteRoundTrip(sender.facing, bs, pos);
    IntRoundTrip(sender.color, bs, pos + 1);
    ShortRoundTrip(|ts|, bs, pos + 5);
    EntriesAtFromBytes(bs, pos + 7, ts);
  }

  /** A full sync naming a trait the receiver does not have fails with UnknownTrait. */
  lemma InitialSyncRejectsUnknownTrait(sender: SyncState, receiver: SyncState, bs: seq<Byte>, pos: nat, k: nat)
    requires NamesFit(sender.traits) && |sender.traits| <= 0x7FFF
    requires WrittenAt(bs, pos, InitialSyncBytes(sender))
    requires k < |sender.traits| && sender.traits[k].name !in NameSet(receiver.traits)
    ensures ReceiveInitial(bs, pos, receiver).error.Some?
    ensures ReceiveInitial(bs, pos, receiver).error.value.UnknownTrait?
  {
    InitialSyncHeader(sender, receiver, bs, pos);
    var s2 := receiver.(facing := sender.facing, color := sender.color);
    ReceiveTraitsEntries(sender.traits, bs, pos + 7, s2);
    ApplyEntriesRejects(sender.traits, pos + 7, s2, k);
  }

  /**
   * Full-sync round trip: an entity with the same traits (the same names,
   * in any order) decodes the sender's facing, colour and every trait's
   * initial data, and consumes exactly the bytes written.
   */
  lemma InitialSyncRoundTrip(sender: SyncState, receiver: SyncState, bs: seq<Byte>, pos: nat)
    requires NamesFit(sender.traits) && UniqueNames(sender.traits) && |sender.traits| <= 0x7FFF
    requires UniqueNames(receiver.traits) && NameSet(receiver.traits) == NameSet(sender.traits)
    requires WrittenAt(bs, pos, InitialSyncBytes(sender))
    ensures var o := ReceiveInitial(bs, pos, receiver);
      && o.error.None? && o.pos == pos + |InitialSyncBytes(sender)|
      && o.state.facing == sender.facing && o.state.color == sender.color
      && |o.state.traits| == |receiver.traits|
      && forall j :: 0 <= j < |receiver.traits| ==>
           o.state.traits[j] == receiver.traits[j].(syncValue := SyncValueOf(sender.traits, receiver.traits[j].name))
  {
    var ts := sender.traits;
    InitialSyncHeader(sender, receiver, bs, pos);
    var s2 := receiver.(facing := sender.facing, color := sender.color);
    TraitsEndLength(pos + 7, ts);
    ReceiveTraitsEntries(ts, bs, pos + 7, s2);
    ReceiveTraitsKeeps(bs, pos + 7, s2, |ts|);
    ApplyEntriesCompletes(ts, pos + 7, s2);
    forall j | 0 <= j < |receiver.traits|
      ensures ReceiveTraits(bs, pos + 7, s2, |ts|).state.traits[j] == receiver.traits[j].(syncValue := SyncValueOf(ts, receiver.traits[j].name))
    {
      assert receiver.traits[j].name in NameSet(receiver.traits);
      ApplyEntriesValue(ts, pos + 7, s2, j);
    }
  }

  // ----- delta packets -----

  /**
   * receiveCustomData: -1 reads a facing byte, -2 a colour int, -4 a trait
   * name and hands the rest of the packet to that trait; any other
   * discriminator is not the entity's and changes nothing.  `hasHolder` is
   * whether getHolder() is non-null when the render update is scheduled.
   */
  function ReceiveCustom(id: int, bs: seq<Byte>, pos: nat, s: SyncState, hasHolder: bool): (o: SyncOutcome)
    ensures id != FacingDelta && id != ColorDelta && id != TraitDelta ==> o == SyncOutcome(s, pos, None)
    ensures id != FacingDelta ==> o.state.facing == s.facing
    ensures id != ColorDelta ==> o.state.color == s.color
    ensures id != TraitDelta ==> o.state.traits == s.traits
    ensures o.error.Some? && o.error.value.UnknownTrait? ==> o.state == s
  {
    if id == FacingDelta then
      match DecodeByte(bs, pos)
      case None => SyncOutcome(s, pos, Some(BufferUnderflow))
      case Some(b) =>
        match FacingAt(b.value)
        case None => SyncOutcome(s, b.next, Some(FacingOutOfRange(b.value)))
        case Some(f) => SyncOutcome(s.(facing := f), b.next, if hasHolder then None else Some(MissingHolder))
    else if id == ColorDelta then
      match DecodeInt(bs, pos)
      case None => SyncOutcome(s, pos, Some(BufferUnderflow))
      case Some(c) => SyncOutcome(s.(color := c.value), c.next, if hasHolder then None else Some(MissingHolder))
    else if id == TraitDelta then
      match DecodeString(bs, pos, MaxStringLength)
      case None => SyncOutcome(s, pos, Some(BadString))
      case Some(n) =>
        match FindTrait(s.traits, n.value)
        case None => SyncOutcome(s, n.next, Some(UnknownTrait(n.value)))
        case Some(i) =>
          var t := s.traits[i];
          SyncOutcome(s.(traits := s.traits[i := t.(received := t.received + [bs[n.next..]])]), |bs|, None)
    else SyncOutcome(s, pos, None)
  }

  /**
   * A delta keeps every trait name, and an UnknownTrait error names a trait
   * the entity does not have.
   */
  lemma ReceiveCustomKeeps(id: int, bs: seq<Byte>, pos: nat, s: SyncState, hasHolder: bool)
    ensures var o := ReceiveCustom(id, bs, pos, s, hasHolder);
      && SameNames(o.state.traits, s.traits)
      && (o.error.Some? && o.error.value.UnknownTrait? ==>
            forall j :: 0 <= j < |s.traits| ==> s.traits[j].name != o.error.value.name)
  {
  }

  /** Whether the client schedules a chunk render update for this delta. */
  predicate SchedulesRenderUpdate(id: int, o: SyncOutcome) {
    (id == FacingDelta || id == ColorDelta) && o.error.None?
  }

  /** The bytes setFrontFacing sends under discriminator -1. */
  function FacingDeltaBytes(f: Facing): seq<Byte> {
    EncodeByte(f)
  }

  /** The bytes setPaintingColor sends under discriminator -2. */
  function ColorDeltaBytes(c: Int32): seq<Byte> {
    EncodeInt(c)
  }

  /** The bytes a trait sends under discriminator -4: its name, then its own payload. */
  function TraitDeltaBytes(name: string, payload: seq<Byte>): seq<Byte>
    requires |name| <= MaxStringLength
  {
    EncodeString(name) + payload
  }

  lemma FacingDeltaRoundTrip(f: Facing, bs: seq<Byte>, pos: nat, s: SyncState)
    requires WrittenAt(bs, pos, FacingDeltaBytes(f))
    ensures ReceiveCustom(FacingDelta, bs, pos, s, true) == SyncOutcome(s.(facing := f), pos + 1, None)
  {
    ByteRoundTrip(f, bs, pos);
  }

  lemma ColorDeltaRoundTrip(c: Int32, bs: seq<Byte>, pos: nat, s: SyncState)
    requires WrittenAt(bs, pos, ColorDeltaBytes(c))
    ensures ReceiveCustom(ColorDelta, bs, pos, s, true) == SyncOutcome(s.(color := c), pos + 4, None)
  {
    IntRoundTrip(c, bs, pos);
  }

  /**
   * A trait delta reaches the trait of that name, which receives exactly the
   * payload; no other trait and nothing else changes.
   */
  lemma TraitDeltaRoundTrip(name: string, payload: seq<Byte>, bs: seq<Byte>, pos: nat, s: SyncState, i: nat, hasHolder: bool)
    requires |name| <= MaxStringLength && pos <= |bs| && bs[pos..] == TraitDeltaBytes(name, payload)
    requires UniqueNames(s.traits) && i < |s.traits| && s.traits[i].name == name
    ensures var o := ReceiveCustom(TraitDelta, bs, pos, s, hasHolder);
      && o.error.None? && o.pos == |bs| && o.state.facing == s.facing && o.state.color == s.color
      && o.state.traits == s.traits[i := s.traits[i].(received := s.traits[i].received + [payload])]
  {
    assert WrittenAt(bs, pos, EncodeString(name) + payload);
    WrittenAtSplit(bs, pos, EncodeString(name), payload);
    StringRoundTrip(name, bs, pos);
    FindTraitUnique(s.traits, name, i);
    assert bs[pos + |EncodeString(name)|..] == payload;
  }

  /** A trait delta naming no trait of the receiver is an error and changes nothing. */
  lemma TraitDeltaUnknownName(name: string, payload: seq<Byte>, bs: seq<Byte>, pos: nat, s: SyncState, hasHolder: bool)
    requires |name| <= MaxStringLength && pos <= |bs| && bs[pos..] == TraitDeltaBytes(name, payload)
    requires name !in NameSet(s.traits)
    ensures var o := ReceiveCustom(TraitDelta, bs, pos, s, hasHolder);
      o.error == Some(UnknownTrait(name)) && o.state == s
  {
    assert WrittenAt(bs, pos, EncodeString(name) + payload);
    WrittenAtSplit(bs, pos, EncodeString(name), payload);
    StringRoundTrip(name, bs, pos);
  }

  /**
   * The scenario of a machine facing NORTH with colour 0xFFFFFF and one trait
   * "energy" holding 100: a client entity with the same trait decodes the full
   * sync; a facing delta with byte 2 keeps it at NORTH, and a second delta
   * with byte 5 turns it to EAST, with nothing else changed.
   */
  lemma EnergyScenario(client: SyncState, delta: seq<Byte>, turn: seq<Byte>)
    requires |client.traits| == 1 && client.traits[0].name == "energy"
    requires delta == FacingDeltaBytes(2) && turn == FacingDeltaBytes(5)
    ensures var energy := client.traits[0].(syncValue := 100);
      var server := SyncState(North, 0xFF_FFFF, [energy]);
      var o := ReceiveInitial(InitialSyncBytes(server), 0, client);
      var d := ReceiveCustom(FacingDelta, delta, 0, o.state, true);
      var t := ReceiveCustom(FacingDelta, turn, 0, d.state, true);
      && o.error.None? && o.state == server
      && d.error.None? && d.state == server.(facing := North)
      && t.error.None? && t.state == server.(facing := East)
  {
    var energy := client.traits[0].(syncValue := 100);
    var server := SyncState(North, 0xFF_FFFF, [energy]);
    assert NameSet(server.traits) == {"energy"} == NameSet(client.traits);
    InitialSyncRoundTrip(server, client, InitialSyncBytes(server), 0);
    assert FindTrait(server.traits, "energy") == Some(0);
    var o := ReceiveInitial(InitialSyncBytes(server), 0, client);
    assert o.state.traits == [energy];
    FacingDeltaRoundTrip(2, delta, 0, o.state);
    var d := ReceiveCustom(FacingDelta, delta, 0, o.state, true);
    FacingDeltaRoundTrip(5, turn, 0, d.state);
  }
}
