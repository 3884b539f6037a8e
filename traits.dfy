/**
 * The traits an entity is composed of, seen from the entity: each has a name
 * unique within its entity and at most one capability it implements.  What a
 * trait class does with its own state is outside this model; the parts of that
 * state the entity moves around are fields here: the compound it saves, the
 * value it writes into the full sync, and logs of the calls it receives.
 */
module Traits {
  import opened Wrappers
  import opened Packets
  import opened Facings
  import opened Nbt

  /** Capability tokens: Forge's fluid and item handler capabilities, and any other. */
  datatype Capability = FluidHandlerCapability | ItemHandlerCapability | OtherCapability(id: int)

  datatype Trait = Trait(
    name: string,
    capability: Option<Capability>, // getImplementingCapability(); None for null
    data: Compound,                 // serializeNBT() / deserializeNBT
    syncValue: Int32,               // writeInitialData / receiveInitialData
    updates: nat,                   // calls of update()
    facingLog: seq<Facing>,         // calls of onFrontFacingSet
    received: seq<seq<Byte>>)       // payloads passed to readSyncData

  /** MTETrait.update() */
  function Updated(t: Trait): (r: Trait)
    ensures r.name == t.name && r.updates == t.updates + 1
  {
    t.(updates := t.updates + 1)
  }

  /** MTETrait.onFrontFacingSet(facing) */
  function NotifiedOfFacing(t: Trait, f: Facing): (r: Trait)
    ensures r.name == t.name && r.facingLog == t.facingLog + [f]
  {
    t.(facingLog := t.facingLog + [f])
  }

  /** MTETrait.writeInitialData: the bytes the trait appends to the full sync. */
  function InitialData(t: Trait): seq<Byte> {
    EncodeInt(t.syncValue)
  }

  // ----- the registry: an ordered list with unique names -----

  predicate UniqueNames(ts: seq<Trait>) {
    forall i, j :: 0 <= i < j < |ts| ==> ts[i].name != ts[j].name
  }

  /** Every name can be written by PacketBuffer.writeString. */
  predicate NamesFit(ts: seq<Trait>) {
    forall i :: 0 <= i < |ts| ==> |ts[i].name| <= MaxStringLength
  }

  function NameSet(ts: seq<Trait>): set<string> {
    set i | 0 <= i < |ts| :: ts[i].name
  }

  lemma NameSetCons(ts: seq<Trait>)
    requires ts != []
    ensures NameSet(ts) == {ts[0].name} + NameSet(ts[1..])
  {
    forall n | n in NameSet(ts) ensures n in {ts[0].name} + NameSet(ts[1..]) {
      var i :| 0 <= i < |ts| && ts[i].name == n;
      if i > 0 { assert ts[1..][i - 1].name == n; }
    }
    forall n | n in NameSet(ts[1..]) ensures n in NameSet(ts) {
      var i :| 0 <= i < |ts[1..]| && ts[1..][i].name == n;
      assert ts[i + 1].name == n;
    }
  }

  /** Dropping the first trait keeps the names unique. */
  lemma UniqueNamesTail(ts: seq<Trait>)
    requires ts != [] && UniqueNames(ts)
    ensures UniqueNames(ts[1..]) && ts[0].name !in NameSet(ts[1..])
  {
    forall i, j | 0 <= i < j < |ts[1..]| ensures ts[1..][i].name != ts[1..][j].name {
      assert ts[i + 1].name != ts[j + 1].name;
    }
  }

  /** Two trait lists with the same names at the same positions. */
  predicate SameNames(a: seq<Trait>, b: seq<Trait>) {
    |a| == |b| && forall j :: 0 <= j < |a| ==> a[j].name == b[j].name
  }

  function CountNamed(ts: seq<Trait>, name: string): nat {
    if ts == [] then 0 else (if ts[0].name == name then 1 else 0) + CountNamed(ts[1..], name)
  }

  /** `a` is `b` with some elements left out, the rest in their order. */
  predicate IsSubsequence<T(==)>(a: seq<T>, b: seq<T>)
    decreases |b|
  {
    if a == [] then true
    else if b == [] then false
    else (a[0] == b[0] && IsSubsequence(a[1..], b[1..])) || IsSubsequence(a, b[1..])
  }

  /** mteTraits.removeIf(other -> other.getName().equals(name)) */
  function RemoveNamed(ts: seq<Trait>, name: string): (r: seq<Trait>)
    ensures |r| <= |ts|
    decreases |ts|
  {
    if ts == [] then []
    else if ts[0].name == name then RemoveNamed(ts[1..], name)
    else [ts[0]] + RemoveNamed(ts[1..], name)
  }

  /** addMetaTileEntityTrait: drop any trait of the same name, then append. */
  function AddTrait(ts: seq<Trait>, t: Trait): seq<Trait> {
    RemoveNamed(ts, t.name) + [t]
  }

  lemma {:induction false} RemoveNamedMembers(ts: seq<Trait>, name: string)
    ensures forall x :: x in RemoveNamed(ts, name) <==> x in ts && x.name != name
    decreases |ts|
  {
    if ts != [] {
      RemoveNamedMembers(ts[1..], name);
      assert ts == [ts[0]] + ts[1..];
    }
  }

  lemma {:induction false} RemoveNamedSubsequence(ts: seq<Trait>, name: string)
    ensures IsSubsequence(RemoveNamed(ts, name), ts)
    decreases |ts|
  {
    if ts != [] {
      RemoveNamedSubsequence(ts[1..], name);
      if ts[0].name != name {
        assert ([ts[0]] + RemoveNamed(ts[1..], name))[1..] == RemoveNamed(ts[1..], name);
      }
    }
  }

  lemma {:induction false} RemoveNamedLength(ts: seq<Trait>, name: string)
    ensures |RemoveNamed(ts, name)| == |ts| - CountNamed(ts, name)
    decreases |ts|
  {
    if ts != [] {
      RemoveNamedLength(ts[1..], name);
    }
  }

  lemma InNameSet(ts: seq<Trait>, n: string)
    ensures n in NameSet(ts) <==> exists x :: x in ts && x.name == n
  {
    if n in NameSet(ts) {
      var i :| 0 <= i < |ts| && ts[i].name == n;
      assert ts[i] in ts;
    }
  }

  lemma RemoveNamedNames(ts: seq<Trait>, name: string)
    ensures NameSet(RemoveNamed(ts, name)) == NameSet(ts) - {name}
  {
    RemoveNamedMembers(ts, name);
    forall n ensures n in NameSet(RemoveNamed(ts, name)) <==> n in NameSet(ts) - {name} {
      InNameSet(ts, n);
      InNameSet(RemoveNamed(ts, name), n);
    }
  }

  lemma {:induction false} CountNamedZero(ts: seq<Trait>, name: string)
    ensures CountNamed(ts, name) == 0 <==> name !in NameSet(ts)
    decreases |ts|
  {
    if ts != [] {
      CountNamedZero(ts[1..], name);
      if name in NameSet(ts) && ts[0].name != name {
        var i :| 0 <= i < |ts| && ts[i].name == name;
        assert ts[1..][i - 1].name == name;
      }
      if name in NameSet(ts[1..]) {
        var i :| 0 <= i < |ts[1..]| && ts[1..][i].name == name;
        assert ts[i + 1].name == name;
      }
    }
  }

  lemma {:induction false} CountNamedUnique(ts: seq<Trait>, name: string)
    requires UniqueNames(ts)
    ensures CountNamed(ts, name) <= 1
    decreases |ts|
  {
    if ts != [] {
      assert UniqueNames(ts[1..]) by {
        forall i, j | 0 <= i < j < |ts[1..]| ensures ts[1..][i].name != ts[1..][j].name {
          assert ts[i + 1].name != ts[j + 1].name;
        }
      }
      CountNamedUnique(ts[1..], name);
      if ts[0].name == name {
        CountNamedZero(ts[1..], name);
        if name in NameSet(ts[1..]) {
          var i :| 0 <= i < |ts[1..]| && ts[1..][i].name == name;
        }
      }
    }
  }

  lemma {:induction false} CountNamedAppend(a: seq<Trait>, b: seq<Trait>, name: string)
    ensures CountNamed(a + b, name) == CountNamed(a, name) + CountNamed(b, name)
    decreases |a|
  {
    if a != [] {
      assert (a + b)[0] == a[0] && (a + b)[1..] == a[1..] + b;
      CountNamedAppend(a[1..], b, name);
    } else {
      assert a + b == b;
    }
  }

  /** After addMetaTileEntityTrait(t) the names are the old ones and t's. */
  lemma AddTraitNames(ts: seq<Trait>, t: Trait)
    ensures NameSet(AddTrait(ts, t)) == NameSet(ts) + {t.name}
  {
    var rest := RemoveNamed(ts, t.name);
    var r := AddTrait(ts, t);
    RemoveNamedNames(ts, t.name);
    assert NameSet(r) == NameSet(rest) + {t.name} by {
      forall n | n in NameSet(r) ensures n in NameSet(rest) + {t.name} {
        var i :| 0 <= i < |r| && r[i].name == n;
        if i < |rest| { assert rest[i].name == n; }
      }
      forall n | n in NameSet(rest) ensures n in NameSet(r) {
        var i :| 0 <= i < |rest| && rest[i].name == n;
        assert r[i].name == n;
      }
      assert r[|rest|].name == t.name;
    }
  }

  /** addMetaTileEntityTrait keeps names unique; the list grows by one exactly when the name was new. */
  lemma AddTraitUnique(ts: seq<Trait>, t: Trait)
    requires UniqueNames(ts)
    ensures var r := AddTrait(ts, t);
      && UniqueNames(r)
      && (|r| == |ts| + 1 <==> t.name !in NameSet(ts))
      && (t.name in NameSet(ts) ==> |r| == |ts|)
  {
    var rest := RemoveNamed(ts, t.name);
    var r := AddTrait(ts, t);
    RemoveNamedMembers(ts, t.name);
    RemoveNamedLength(ts, t.name);
    RemovePreservesUnique(ts, t.name);
    assert UniqueNames(r) by {
      forall i, j | 0 <= i < j < |r| ensures r[i].name != r[j].name {
        if j == |rest| {
          assert r[i] == rest[i];
          assert r[i] in rest;
        } else {
          assert r[i] == rest[i] && r[j] == rest[j];
        }
      }
    }
    CountNamedZero(ts, t.name);
    CountNamedUnique(ts, t.name);
  }

  /**
   * After addMetaTileEntityTrait(t): exactly one trait is named t.name, it is t
   * and it is last; the others are the old ones of other names in their old
   * order; names stay unique; the list grows by one exactly when the name was new.
   */
  lemma AddTraitProperties(ts: seq<Trait>, t: Trait)
    ensures var r := AddTrait(ts, t);
      && |r| > 0 && r[|r| - 1] == t
      && CountNamed(r, t.name) == 1
      && IsSubsequence(r[..|r| - 1], ts)
      && (forall x :: x in r[..|r| - 1] <==> x in ts && x.name != t.name)
      && NameSet(r) == NameSet(ts) + {t.name}
      && (UniqueNames(ts) ==> UniqueNames(r))
      && (UniqueNames(ts) ==> (|r| == |ts| + 1 <==> t.name !in NameSet(ts)))
      && (UniqueNames(ts) && t.name in NameSet(ts) ==> |r| == |ts|)
  {
    var rest := RemoveNamed(ts, t.name);
    var r := AddTrait(ts, t);
    RemoveNamedMembers(ts, t.name);
    RemoveNamedSubsequence(ts, t.name);
    CountNamedZero(rest, t.name);
    assert r[..|r| - 1] == rest;
    CountNamedAppend(rest, [t], t.name);
    assert [t][1..] == [];
    AddTraitNames(ts, t);
    if UniqueNames(ts) {
      AddTraitUnique(ts, t);
    }
  }

  lemma {:induction false} RemovePreservesUnique(ts: seq<Trait>, name: string)
    requires UniqueNames(ts)
    ensures UniqueNames(RemoveNamed(ts, name))
    decreases |ts|
  {
    if ts != [] {
      assert UniqueNames(ts[1..]) by {
        forall i, j | 0 <= i < j < |ts[1..]| ensures ts[1..][i].name != ts[1..][j].name {
          assert ts[i + 1].name != ts[j + 1].name;
        }
      }
      RemovePreservesUnique(ts[1..], name);
      if ts[0].name != name {
        var rest := RemoveNamed(ts[1..], name);
        RemoveNamedMembers(ts[1..], name);
        var r := [ts[0]] + rest;
        forall i, j | 0 <= i < j < |r| ensures r[i].name != r[j].name {
          if i == 0 {
            assert r[j] in ts[1..];
            var k :| 0 <= k < |ts[1..]| && ts[1..][k] == r[j];
            assert ts[0].name != ts[k + 1].name;
          } else {
            assert r[i] == rest[i - 1] && r[j] == rest[j - 1];
          }
        }
      }
    }
  }

  // ----- lookups -----

  /** The first trait with the given name (Stream.filter(...).findAny() on a list). */
  function FindTrait(ts: seq<Trait>, name: string): (r: Option<nat>)
    ensures r.Some? ==> r.value < |ts| && ts[r.value].name == name
    ensures r.Some? ==> forall j :: 0 <= j < r.value ==> ts[j].name != name
    ensures r.None? ==> forall j :: 0 <= j < |ts| ==> ts[j].name != name
    decreases |ts|
  {
    if ts == [] then None
    else if ts[0].name == name then Some(0)
    else
      match FindTrait(ts[1..], name)
      case None =>
        assert forall j :: 1 <= j < |ts| ==> ts[j].name == ts[1..][j - 1].name;
        None
      case Some(i) =>
        assert ts[i + 1].name == name;
        Some(i + 1)
  }

  /** A trait of the given name is found exactly when the name is among the traits' names. */
  lemma FindTraitFound(ts: seq<Trait>, name: string)
    ensures FindTrait(ts, name).Some? <==> name in NameSet(ts)
  {
    if name in NameSet(ts) {
      var j :| 0 <= j < |ts| && ts[j].name == name;
    }
  }

  /** With unique names, the trait found under a name is the only one with that name. */
  lemma FindTraitUnique(ts: seq<Trait>, name: string, j: nat)
    requires UniqueNames(ts) && j < |ts| && ts[j].name == name
    ensures FindTrait(ts, name) == Some(j)
  {
  }

  /** The first trait, in list order, whose implementing capability is `cap`. */
  function FirstProvider(ts: seq<Trait>, cap: Capability): (r: Option<nat>)
    ensures r.Some? ==> r.value < |ts| && ts[r.value].capability == Some(cap)
    ensures r.Some? ==> forall j :: 0 <= j < r.value ==> ts[j].capability != Some(cap)
    ensures r.None? ==> forall j :: 0 <= j < |ts| ==> ts[j].capability != Some(cap)
    decreases |ts|
  {
    if ts == [] then None
    else if ts[0].capability == Some(cap) then Some(0)
    else
      match FirstProvider(ts[1..], cap)
      case None =>
        assert forall j :: 1 <= j < |ts| ==> ts[j].capability == ts[1..][j - 1].capability;
        None
      case Some(i) =>
        assert forall j :: 1 <= j < i + 1 ==> ts[j].capability == ts[1..][j - 1].capability;
        Some(i + 1)
  }
}
