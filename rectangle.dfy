/** The `Rectangle` struct and its `area` function. */
module Rectangles {
  import opened Ascii

  datatype Rectangle = Rectangle(width: u32, height: u32)

  /** The `u32` product of the sides does not overflow. */
  predicate AreaFits(r: Rectangle) {
    r.width * r.height <= U32_MAX
  }

  /** `area(&Rectangle) -> u32`. The rectangle is an immutable value, so it
      is read and never changed. */
  function Area(r: Rectangle): (a: u32)
    requires AreaFits(r)
    ensures a == 0 <==> r.width == 0 || r.height == 0
    ensures r.height != 0 ==> r.width <= a
    ensures r.width != 0 ==> r.height <= a
  {
    r.width * r.height
  }

  /** Counts the unit squares of a `width` by `height` rectangle, row by row. */
  function UnitSquares(width: nat, height: nat): nat {
    if height == 0 then 0 else width + UnitSquares(width, height - 1)
  }

  lemma {:induction false} UnitSquaresIsProduct(width: nat, height: nat)
    ensures UnitSquares(width, height) == width * height
  {
    if height != 0 {
      UnitSquaresIsProduct(width, height - 1);
    }
  }

  /** The area is the number of unit squares the rectangle covers. */
  lemma AreaCountsUnitSquares(r: Rectangle)
    requires AreaFits(r)
    ensures Area(r) == UnitSquares(r.width, r.height)
  {
    UnitSquaresIsProduct(r.width, r.height);
  }

  /** Swapping the sides keeps the area. */
  lemma AreaSwapSides(r: Rectangle)
    requires AreaFits(r)
    ensures AreaFits(Rectangle(r.height, r.width))
    ensures Area(Rectangle(r.height, r.width)) == Area(r)
  {
  }

  /** Where `u32` runs out: 65535 by 65537 is exactly `u32::MAX`, one more unit
      of height overflows, and so does the 65536 by 65536 square. */
  lemma AreaLimit()
    ensures AreaFits(Rectangle(65535, 65537)) && Area(Rectangle(65535, 65537)) == U32_MAX
    ensures !AreaFits(Rectangle(65535, 65538))
    ensures !AreaFits(Rectangle(65536, 65536))
  {
  }

  /** The listing's `main`: `rect1` is 30 by 50 and its area is 1500. */
  method AreaOfRect1() returns (a: u32)
    ensures a == 1500
  {
    var rect1 := Rectangle(30, 50);
    a := Area(rect1);
  }
}
