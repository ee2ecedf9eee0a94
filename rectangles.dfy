/** The `Rectangle` struct of the structs chapter, with `u32` sides. */
module Rectangles {
  import opened Prelude

  datatype Rectangle = Rectangle(width: u32, height: u32) {

    /** `area`; a product beyond `u32` panics, so it is excluded. */
    function Area(): (a: u32)
      requires width * height <= U32_MAX
      ensures a == width * height
    {
      width * height
    }

    /** The method `width`: whether the width field is non-zero. */
    function Width(): (nonZero: bool)
      ensures nonZero <==> width > 0
    {
      width > 0
    }

    /** `can_hold`: strictly wider and strictly taller than `other`. */
    function CanHold(other: Rectangle): (holds: bool)
      ensures holds <==> width > other.width && height > other.height
    {
      width > other.width && height > other.height
    }

    /** `Rectangle::square`. */
    static function Square(size: u32): (r: Rectangle)
      ensures r.width == size && r.height == size
    {
      Rectangle(size, size)
    }
  }

  /** The area is zero exactly when the rectangle has no width or no height. */
  lemma AreaZeroIffDegenerate(r: Rectangle)
    requires r.width * r.height <= U32_MAX
    ensures r.Area() == 0 <==> !r.Width() || r.height == 0
  {
    if r.width > 0 && r.height > 0 {
      MulStrict(0, r.width, r.height);
    }
  }

  /** A square of side `size` has area `size * size`. */
  lemma SquareArea(size: u32)
    requires size * size <= U32_MAX
    ensures Rectangle.Square(size).Area() == size * size
    ensures Rectangle.Square(size).CanHold(Rectangle.Square(size)) == false
  {
  }

  /** No rectangle can hold itself. */
  lemma CanHoldIrreflexive(r: Rectangle)
    ensures !r.CanHold(r)
  {
  }

  /** Holding is strict: a rectangle that fits inside another cannot hold it,
      holding is transitive, and the holder has the larger area. */
  lemma CanHoldIsStrictOrder(a: Rectangle, b: Rectangle, c: Rectangle)
    ensures a.CanHold(b) ==> !b.CanHold(a)
    ensures a.CanHold(b) && b.CanHold(c) ==> a.CanHold(c)
    ensures a.CanHold(b) && a.width * a.height <= U32_MAX ==>
      b.width * b.height < a.width * a.height
  {
    if a.CanHold(b) {
      if b.height == 0 {
        MulStrict(0, a.width, a.height);
      } else {
        MulStrict(b.width, a.width, b.height);
        MulMonotone(b.height, a.height, a.width);
      }
    }
  }

  lemma MulMonotone(x: nat, y: nat, z: nat)
    requires x <= y
    ensures x * z <= y * z
  {
  }

  lemma MulStrict(x: nat, y: nat, z: nat)
    requires x < y && z > 0
    ensures x * z < y * z
  {
  }

  /** `main` compares `30x50` with `10x40` and `60x45`. */
  lemma MainComparisons()
    ensures Rectangle(30, 50).CanHold(Rectangle(10, 40))
    ensures !Rectangle(30, 50).CanHold(Rectangle(60, 45))
    ensures Rectangle(30 * 2, 50).Area() == 3000
  {
  }
}
