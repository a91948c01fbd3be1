/** Two-dimensional extents (`na::Vector2<usize>`) and row-major flat indexing. */
module Shapes {

  /** A width-by-height extent; `Product` is the length of the flat buffer it describes. */
  datatype Size = Size(x: nat, y: nat) {

    function Product(): nat {
      x * y
    }

    /** Componentwise `other <= this`: the unsigned subtraction `this - other` does not underflow. */
    predicate Covers(other: Size) {
      other.x <= x && other.y <= y
    }
  }

  /** Flat row-major position of column `col`, row `row` in a grid `width` wide. */
  function Index(col: nat, row: nat, width: nat): nat {
    col + row * width
  }

  lemma MulLeft(a: nat, b: nat, n: nat)
    requires a <= b
    ensures a * n <= b * n
  {
  }

  /** Every in-grid coordinate has a flat index below the buffer length. */
  lemma {:induction false} IndexInBounds(col: nat, row: nat, s: Size)
    requires col < s.x && row < s.y
    ensures Index(col, row, s.x) < s.Product()
  {
    MulLeft(row, s.y - 1, s.x);
    assert (s.y - 1) * s.x == s.y * s.x - s.x;
  }

  /** Column of flat position `k` in a grid `width` wide (`k % width`, by repeated subtraction). */
  function Column(k: nat, width: nat): nat
    requires width > 0
  {
    if k < width then k else Column(k - width, width)
  }

  /** Row of flat position `k` in a grid `width` wide (`k / width`, by repeated subtraction). */
  function Row(k: nat, width: nat): nat
    requires width > 0
  {
    if k < width then 0 else Row(k - width, width) + 1
  }

  /** The flat index determines its coordinates: `Column` and `Row` recover them. */
  lemma {:induction false} IndexCoordinates(col: nat, row: nat, width: nat)
    requires col < width
    ensures Column(Index(col, row, width), width) == col
    ensures Row(Index(col, row, width), width) == row
  {
    if row > 0 {
      IndexCoordinates(col, row - 1, width);
      assert Index(col, row, width) - width == Index(col, row - 1, width);
    }
  }

  /** Every flat position of a grid is the index of an in-grid coordinate. */
  lemma {:induction false} CoordinatesOf(k: nat, s: Size)
    requires k < s.Product()
    ensures s.x > 0 && Column(k, s.x) < s.x && Row(k, s.x) < s.y
    ensures Index(Column(k, s.x), Row(k, s.x), s.x) == k
  {
    if k >= s.x {
      assert k - s.x < Size(s.x, s.y - 1).Product();
      CoordinatesOf(k - s.x, Size(s.x, s.y - 1));
    }
  }
}
