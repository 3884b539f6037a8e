/**
 * SolidMaterial: a material that can be worked into solid forms and tools.
 * Its only logic is the generation-flag closure run before the flags reach
 * the parent class (a gear needs plates and a rod, a long rod needs a rod),
 * plus two field setters.  Flags are 64-bit sets, one bit per flag.
 */
module Materials {

  /** A 64-bit flag set, as the positions of its set bits. */
  type Flags = s: set<nat> | forall b :: b in s ==> b < 64

  /** GTUtility.createFlag(id), taken to be the single bit `id`. */
  function CreateFlag(id: nat): (f: Flags)
    requires id < 64
    ensures f == {id}
  {
    {id}
  }

  // GENERATE_PLATE belongs to the parent class; it is taken to be bit 12.
  const GeneratePlate: Flags := CreateFlag(12)
  const GenerateRod: Flags := CreateFlag(20)
  const GenerateGear: Flags := CreateFlag(21)
  const GenerateLongRod: Flags := CreateFlag(22)
  const MortarGrindable: Flags := CreateFlag(24)

  /** Java's `x > 0` on a long: some bit set, and not the sign bit. */
  predicate Positive(x: Flags) {
    x != {} && 63 !in x
  }

  /**
   * The closure verifyMaterialBits applies before handing the flags on
   * (`&` is `*`, `|` is `+`): gear implies plate and rod, long rod implies
   * rod, and nothing but GENERATE_PLATE and GENERATE_ROD is ever added.
   */
  function CloseGenerationBits(bits: Flags): (r: Flags)
    ensures 21 in r ==> 12 in r && 20 in r
    ensures 22 in r ==> 20 in r
    ensures bits <= r <= bits + GeneratePlate + GenerateRod
    ensures 12 in r ==> 12 in bits || 21 in bits
    ensures 20 in r ==> 20 in bits || 21 in bits || 22 in bits
  {
    var withGear := if Positive(bits * GenerateGear) then bits + GeneratePlate + GenerateRod else bits;
    TestsBit(bits, 21);
    TestsBit(withGear, 22);
    if Positive(withGear * GenerateLongRod) then withGear + GenerateRod else withGear
  }

  /** For a flag below the sign bit, the `> 0` test of `bits & flag` is a test of the flag's bit. */
  lemma TestsBit(bits: Flags, id: nat)
    requires id < 63
    ensures Positive(bits * CreateFlag(id)) <==> id in bits
  {
    if id in bits {
      assert id in bits * CreateFlag(id);
    }
  }

  /**
   * verifyMaterialBits: the closed flags handed to the parent class's own
   * check, which is not part of this model and is given as `parent`.
   */
  function VerifyMaterialBits(bits: Flags, parent: Flags -> Flags): (r: Flags)
    ensures exists closed: Flags ::
      && r == parent(closed)
      && bits <= closed <= bits + GeneratePlate + GenerateRod
      && (21 in closed ==> 12 in closed && 20 in closed) && (22 in closed ==> 20 in closed)
      && (12 in closed ==> 12 in bits || 21 in bits) && (20 in closed ==> 20 in bits || 21 in bits || 22 in bits)
  {
    var closed := CloseGenerationBits(bits);
    parent(closed)
  }

  /** Closing twice gives what closing once gives. */
  lemma CloseIdempotent(bits: Flags)
    ensures CloseGenerationBits(CloseGenerationBits(bits)) == CloseGenerationBits(bits)
  {
  }

  /** Without GENERATE_GEAR and GENERATE_LONG_ROD the flags reach the parent unchanged. */
  lemma CloseWithoutGearOrLongRod(bits: Flags)
    requires 21 !in bits && 22 !in bits
    ensures CloseGenerationBits(bits) == bits
  {
  }

  /** An enchantment applied to tools made of the material, with its level. */
  datatype EnchantmentData = EnchantmentData(enchantment: int, level: int)

  class SolidMaterial {
    /** Durability of tools made of the material; 0 when it makes no tools. */
    const toolDurability: int
    var toolEnchantments: seq<EnchantmentData>
    var handleMaterial: SolidMaterial?
    /** What macerating anything of this material gives (a DustMaterial). */
    var macerateInto: object
    /** The parent class's directSmelting, which this constructor sets. */
    var directSmelting: object

    /** A new material: it macerates and smelts into itself, and has no tool enchantments or handle. */
    constructor (toolDurability: int)
      ensures this.toolDurability == toolDurability
      ensures toolEnchantments == [] && handleMaterial == null
      ensures macerateInto == this && directSmelting == this
    {
      this.toolDurability := toolDurability;
      toolEnchantments := [];
      handleMaterial := null;
      macerateInto := this;
      directSmelting := this;
    }

    method SetMaceratingInto(m: object)
      modifies this`macerateInto
      ensures macerateInto == m
    {
      macerateInto := m;
    }

    /** addEnchantmentForTools: one entry appended, the earlier ones kept. */
    method AddEnchantmentForTools(enchantment: int, level: int)
      modifies this`toolEnchantments
      ensures toolEnchantments == old(toolEnchantments) + [EnchantmentData(enchantment, level)]
    {
      toolEnchantments := toolEnchantments + [EnchantmentData(enchantment, level)];
    }
  }
}
