/** Minecraft's EnumFacing, by index. */
module Facings {
  import opened Wrappers

  type Facing = i: int | 0 <= i < 6

  const Down: Facing := 0
  const Up: Facing := 1
  const North: Facing := 2
  const South: Facing := 3
  const West: Facing := 4
  const East: Facing := 5

  /** EnumFacing.VALUES[index]: nothing when the index is outside 0..5. */
  function FacingAt(index: int): (r: Option<Facing>)
    ensures r.Some? <==> 0 <= index < 6
    ensures r.Some? ==> r.value == index
  {
    if 0 <= index < 6 then Some(index) else None
  }
}
