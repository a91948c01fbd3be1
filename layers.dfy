/** The convolutional layer: valid-mode 2-D convolution, stride 1, no padding,
    each accumulated sum divided by the filter's element count. */
module Layers {
  import opened Shapes

  /** The value a `ConvolutionalLayer` holds: its bound input size, its filter size
      and the filter weights, flat and row-major. */
  datatype Conv = Conv(inputSize: Size, filterSize: Size, weights: seq<real>) {

    /** The filter fits inside the input, so `input_size - filter_size` does not underflow. */
    predicate Fits() {
      inputSize.Covers(filterSize)
    }

    /** Everything `evaluate` needs: a fitting, non-empty filter with one weight per cell. */
    predicate CanEvaluate() {
      Fits() && filterSize.x > 0 && filterSize.y > 0 && |weights| == filterSize.Product()
    }

    /** `input_size - filter_size + (1, 1)`: the number of filter placements along each axis. */
    function OutputSize(): (r: Size)
      requires Fits()
      ensures r.x + filterSize.x == inputSize.x + 1
      ensures r.y + filterSize.y == inputSize.y + 1
    {
      Size(inputSize.x - filterSize.x + 1, inputSize.y - filterSize.y + 1)
    }
  }

  /** `input` is a buffer of the layer's input size and (ox, oy) an output cell. */
  predicate AtCell(c: Conv, input: seq<real>, ox: nat, oy: nat) {
    c.CanEvaluate() && |input| == c.inputSize.Product() &&
    ox < c.OutputSize().x && oy < c.OutputSize().y
  }

  /** The input cell under filter offset (fx, fy) at output (ox, oy), times that filter weight. */
  function Term(c: Conv, input: seq<real>, ox: nat, oy: nat, fx: nat, fy: nat): real
    requires AtCell(c, input, ox, oy) && fx < c.filterSize.x && fy < c.filterSize.y
  {
    AccessesInBounds(c, ox, oy, fx, fy);
    input[Index(ox + fx, oy + fy, c.inputSize.x)] * c.weights[Index(fx, fy, c.filterSize.x)]
  }

  /** One step of the inner filter loop: the column sum gains the term at the indices the loop computes. */
  lemma Accumulate(c: Conv, input: seq<real>, ox: nat, oy: nat, fx: nat, fy: nat, ii: int, fi: int)
    requires AtCell(c, input, ox, oy) && fx < c.filterSize.x && fy < c.filterSize.y
    requires ii == (ox + fx) + (oy + fy) * c.inputSize.x && fi == fx + fy * c.filterSize.x
    ensures 0 <= ii < |input| && 0 <= fi < |c.weights|
    ensures ColumnSum(c, input, ox, oy, fx, fy + 1) == ColumnSum(c, input, ox, oy, fx, fy) + input[ii] * c.weights[fi]
  {
    AccessesInBounds(c, ox, oy, fx, fy);
  }

  /** Sum of the first `n` terms of filter column `fx`, in the order of the inner `filter_y` loop. */
  function ColumnSum(c: Conv, input: seq<real>, ox: nat, oy: nat, fx: nat, n: nat): real
    requires AtCell(c, input, ox, oy) && fx < c.filterSize.x && n <= c.filterSize.y
  {
    if n == 0 then 0.0 else ColumnSum(c, input, ox, oy, fx, n - 1) + Term(c, input, ox, oy, fx, n - 1)
  }

  /** Sum of the first `n` whole filter columns, in the order of the `filter_x` loop. */
  function FilterSum(c: Conv, input: seq<real>, ox: nat, oy: nat, n: nat): real
    requires AtCell(c, input, ox, oy) && n <= c.filterSize.x
  {
    if n == 0 then 0.0
    else FilterSum(c, input, ox, oy, n - 1) + ColumnSum(c, input, ox, oy, n - 1, c.filterSize.y)
  }

  /** Output cell (ox, oy): the filter-weighted sum under the filter, divided by the filter's cell count. */
  function Cell(c: Conv, input: seq<real>, ox: nat, oy: nat): (r: real)
    requires AtCell(c, input, ox, oy)
    ensures r * (c.filterSize.Product() as real) == FilterSum(c, input, ox, oy, c.filterSize.x)
  {
    FilterSum(c, input, ox, oy, c.filterSize.x) / (c.filterSize.Product() as real)
  }

  /** The whole output buffer, row-major over the output size. */
  function Convolve(c: Conv, input: seq<real>): (r: seq<real>)
    requires c.CanEvaluate() && |input| == c.inputSize.Product()
    ensures |r| == c.OutputSize().Product()
  {
    var out := c.OutputSize();
    seq(out.Product(), k requires 0 <= k < out.Product() =>
      CoordinatesOf(k, out);
      Cell(c, input, Column(k, out.x), Row(k, out.x)))
  }

  /** Every output, filter and input index `evaluate` computes is inside its buffer. */
  lemma {:induction false} AccessesInBounds(c: Conv, ox: nat, oy: nat, fx: nat, fy: nat)
    requires c.Fits()
    requires ox < c.OutputSize().x && oy < c.OutputSize().y
    requires fx < c.filterSize.x && fy < c.filterSize.y
    ensures Index(ox, oy, c.OutputSize().x) < c.OutputSize().Product()
    ensures Index(fx, fy, c.filterSize.x) < c.filterSize.Product()
    ensures ox + fx < c.inputSize.x && oy + fy < c.inputSize.y
    ensures Index(ox + fx, oy + fy, c.inputSize.x) < c.inputSize.Product()
  {
    IndexInBounds(ox, oy, c.OutputSize());
    IndexInBounds(fx, fy, c.filterSize);
    IndexInBounds(ox + fx, oy + fy, c.inputSize);
  }

  /** Output cell (ox, oy) sits at row-major position `ox + oy * width` of the output. */
  lemma {:induction false} ConvolveAt(c: Conv, input: seq<real>, ox: nat, oy: nat)
    requires AtCell(c, input, ox, oy)
    ensures Index(ox, oy, c.OutputSize().x) < |Convolve(c, input)|
    ensures Convolve(c, input)[Index(ox, oy, c.OutputSize().x)] == Cell(c, input, ox, oy)
  {
    IndexInBounds(ox, oy, c.OutputSize());
    IndexCoordinates(ox, oy, c.OutputSize().x);
  }

  lemma {:induction false} ColumnSumZero(c: Conv, input: seq<real>, ox: nat, oy: nat, fx: nat, n: nat)
    requires AtCell(c, input, ox, oy) && fx < c.filterSize.x && n <= c.filterSize.y
    requires forall i :: 0 <= i < |c.weights| ==> c.weights[i] == 0.0
    ensures ColumnSum(c, input, ox, oy, fx, n) == 0.0
  {
    if n > 0 {
      ColumnSumZero(c, input, ox, oy, fx, n - 1);
      AccessesInBounds(c, ox, oy, fx, n - 1);
    }
  }

  lemma {:induction false} FilterSumZero(c: Conv, input: seq<real>, ox: nat, oy: nat, n: nat)
    requires AtCell(c, input, ox, oy) && n <= c.filterSize.x
    requires forall i :: 0 <= i < |c.weights| ==> c.weights[i] == 0.0
    ensures FilterSum(c, input, ox, oy, n) == 0.0
  {
    if n > 0 {
      FilterSumZero(c, input, ox, oy, n - 1);
      ColumnSumZero(c, input, ox, oy, n - 1, c.filterSize.y);
    }
  }

  /** An all-zero filter produces an all-zero output of the output size, whatever the input. */
  lemma ZeroFilter(c: Conv, input: seq<real>)
    requires c.CanEvaluate() && |input| == c.inputSize.Product()
    requires forall i :: 0 <= i < |c.weights| ==> c.weights[i] == 0.0
    ensures forall k :: 0 <= k < |Convolve(c, input)| ==> Convolve(c, input)[k] == 0.0
  {
    var out := c.OutputSize();
    forall k | 0 <= k < |Convolve(c, input)|
      ensures Convolve(c, input)[k] == 0.0
    {
      CoordinatesOf(k, out);
      FilterSumZero(c, input, Column(k, out.x), Row(k, out.x), c.filterSize.x);
    }
  }

  /** A 1x1 filter of weight 1 is the identity: same size, same buffer. */
  lemma IdentityFilter(c: Conv, input: seq<real>)
    requires c.Fits() && c.filterSize == Size(1, 1) && c.weights == [1.0]
    requires |input| == c.inputSize.Product()
    ensures c.CanEvaluate() && c.OutputSize() == c.inputSize
    ensures Convolve(c, input) == input
  {
    var r := Convolve(c, input);
    forall k | 0 <= k < |input|
      ensures r[k] == input[k]
    {
      CoordinatesOf(k, c.inputSize);
      var ox, oy := Column(k, c.inputSize.x), Row(k, c.inputSize.x);
      assert Term(c, input, ox, oy, 0, 0) == input[k] * 1.0;
      assert ColumnSum(c, input, ox, oy, 0, 1) == input[k];
      assert FilterSum(c, input, ox, oy, 1) == input[k];
      assert r[k] == Cell(c, input, ox, oy) == input[k] / 1.0;
    }
  }

  /** A convolutional layer (`struct ConvolutionalLayer`). */
  class ConvolutionalLayer {
    var inputSize: Size
    var filterSize: Size
    var filterWeights: seq<real>

    /** One weight per filter cell. */
    ghost predicate Valid()
      reads this
    {
      |filterWeights| == filterSize.Product()
    }

    function Model(): Conv
      reads this
    {
      Conv(inputSize, filterSize, filterWeights)
    }

    /** `ConvolutionalLayer::new`: input size zero, the weights an arbitrary sequence of the
        filter's size (the source draws them at random). */
    constructor (filterSize: Size, weights: seq<real>)
      requires |weights| == filterSize.Product()
      ensures Valid()
      ensures inputSize == Size(0, 0) && this.filterSize == filterSize && filterWeights == weights
    {
      inputSize := Size(0, 0);
      this.filterSize := filterSize;
      filterWeights := weights;
    }

    /** `Layer::set_input_size`: rebinds the input size and nothing else. */
    method SetInputSize(size: Size)
      modifies this`inputSize
      ensures inputSize == size
      ensures filterSize == old(filterSize) && filterWeights == old(filterWeights)
    {
      inputSize := size;
    }

    /** `Layer::output_size`. */
    function OutputSize(): (r: Size)
      reads this
      requires Model().Fits()
      ensures r.x + filterSize.x == inputSize.x + 1 && r.y + filterSize.y == inputSize.y + 1
    {
      Model().OutputSize()
    }

    /** `Layer::evaluate`: fills a zeroed output buffer one cell at a time, for every output
        column and, within it, every output row. */
    method Evaluate(input: seq<real>) returns (output: seq<real>)
      requires Model().CanEvaluate() && |input| == inputSize.Product()
      ensures output == Convolve(Model(), input)
    {
      var c := Model();
      ghost var expected := Convolve(c, input);
      var outputSize := OutputSize();
      var width := outputSize.x;
      var out := new real[outputSize.Product()](_ => 0.0);
      for outputX := 0 to outputSize.x
        invariant Filled(out[..], expected, outputSize, outputX, 0)
      {
        for outputY := 0 to outputSize.y
          invariant Filled(out[..], expected, outputSize, outputX, outputY)
        {
          var outputIndex := Index(outputX, outputY, width);
          ghost var before := out[..];
          NotYetWritten(before, expected, outputSize, outputX, outputY);
          FillCell(c, input, out, outputX, outputY, outputIndex);
          ConvolveAt(c, input, outputX, outputY);
          CellWritten(before, out[..], expected, outputSize, outputX, outputY);
        }
        ColumnDone(out[..], expected, outputSize, outputX);
      }
      FilledAll(out[..], expected, outputSize);
      output := out[..];
    }
  }

  /** The body of `ConvolutionalLayer::evaluate` for one output cell: accumulates in place the
      product of every filter weight with the input cell under it, then divides by the
      filter's cell count. */
  method FillCell(layer: Conv, input: seq<real>, output: array<real>, outputX: nat, outputY: nat, outputIndex: nat)
    requires AtCell(layer, input, outputX, outputY)
    requires outputIndex < output.Length && output[outputIndex] == 0.0
    modifies output
    ensures output[..] == old(output[..])[outputIndex := Cell(layer, input, outputX, outputY)]
  {
    for filterX := 0 to layer.filterSize.x
      invariant output[outputIndex] == FilterSum(layer, input, outputX, outputY, filterX)
      invariant forall k :: 0 <= k < output.Length && k != outputIndex ==> output[k] == old(output[k])
    {
      for filterY := 0 to layer.filterSize.y
        invariant output[outputIndex] ==
          FilterSum(layer, input, outputX, outputY, filterX) + ColumnSum(layer, input, outputX, outputY, filterX, filterY)
        invariant forall k :: 0 <= k < output.Length && k != outputIndex ==> output[k] == old(output[k])
      {
        var filterIndex := filterX + filterY * layer.filterSize.x;
        var inputX := outputX + filterX;
        var inputY := outputY + filterY;
        var inputIndex := inputX + inputY * layer.inputSize.x;
        Accumulate(layer, input, outputX, outputY, filterX, filterY, inputIndex, filterIndex);
        output[outputIndex] := output[outputIndex] + input[inputIndex] * layer.weights[filterIndex];
      }
    }
    output[outputIndex] := output[outputIndex] / (layer.filterSize.Product() as real);
  }

  /** Output cell `k` of a grid `width` wide is written once the outer loop has passed its
      column, or the inner loop has passed its row within the current column. */
  ghost predicate Written(k: nat, width: nat, outputX: nat, outputY: nat)
    requires width > 0
  {
    Column(k, width) < outputX || (Column(k, width) == outputX && Row(k, width) < outputY)
  }

  /** `s`, a buffer of `size`, holds the expected value at every cell already written and
      zero elsewhere. */
  ghost predicate Filled(s: seq<real>, expected: seq<real>, size: Size, outputX: nat, outputY: nat)
  {
    size.x > 0 && |s| == |expected| == size.Product() &&
    forall k :: 0 <= k < |s| ==> s[k] == if Written(k, size.x, outputX, outputY) then expected[k] else 0.0
  }

  /** The cell about to be written still holds its initial zero. */
  lemma NotYetWritten(s: seq<real>, expected: seq<real>, size: Size, outputX: nat, outputY: nat)
    requires outputX < size.x && outputY < size.y && Filled(s, expected, size, outputX, outputY)
    ensures Index(outputX, outputY, size.x) < |s| && s[Index(outputX, outputY, size.x)] == 0.0
  {
    IndexInBounds(outputX, outputY, size);
    IndexCoordinates(outputX, outputY, size.x);
  }

  /** Writing the expected value into cell (outputX, outputY), and nothing else, advances
      `Filled` by one row. */
  lemma CellWritten(before: seq<real>, after: seq<real>, expected: seq<real>, size: Size, outputX: nat, outputY: nat)
    requires outputX < size.x && Filled(before, expected, size, outputX, outputY)
    requires |after| == |before| && Index(outputX, outputY, size.x) < |after|
    requires after[Index(outputX, outputY, size.x)] == expected[Index(outputX, outputY, size.x)]
    requires forall k :: 0 <= k < |after| && k != Index(outputX, outputY, size.x) ==> after[k] == before[k]
    ensures Filled(after, expected, size, outputX, outputY + 1)
  {
    IndexCoordinates(outputX, outputY, size.x);
    forall k | 0 <= k < |after|
      ensures after[k] == if Written(k, size.x, outputX, outputY + 1) then expected[k] else 0.0
    {
      CoordinatesOf(k, size);
    }
  }

  /** A finished column leaves the buffer filled up to the start of the next column. */
  lemma ColumnDone(s: seq<real>, expected: seq<real>, size: Size, outputX: nat)
    requires outputX < size.x && Filled(s, expected, size, outputX, size.y)
    ensures Filled(s, expected, size, outputX + 1, 0)
  {
    forall k | 0 <= k < |s|
      ensures Written(k, size.x, outputX, size.y) <==> Written(k, size.x, outputX + 1, 0)
    {
      CoordinatesOf(k, size);
    }
  }

  /** When every cell is written the buffer is the expected one. */
  lemma FilledAll(s: seq<real>, expected: seq<real>, size: Size)
    requires Filled(s, expected, size, size.x, 0)
    ensures s == expected
  {
    forall k | 0 <= k < |s|
      ensures Written(k, size.x, size.x, 0)
    {
      CoordinatesOf(k, size);
    }
  }
}
