/** The layer pipeline (`struct Network`): a declared input size and an ordered list of
    layers, each bound on insertion to the previous layer's output size. */
module NetworkModel {
  import opened Shapes
  import opened Layers

  /** Neighbouring layers chain: the first takes the network's input size and every later
      one takes its predecessor's output size (which therefore must not underflow). */
  predicate Chained(layers: seq<Conv>, inputSize: Size) {
    (|layers| > 0 ==> layers[0].inputSize == inputSize) &&
    forall i :: 0 <= i < |layers| - 1 ==>
      layers[i].Fits() && layers[i + 1].inputSize == layers[i].OutputSize()
  }

  /** Every layer can be evaluated on a buffer of its input size. */
  predicate Evaluable(layers: seq<Conv>) {
    forall i :: 0 <= i < |layers| ==> layers[i].CanEvaluate()
  }

  /** Size of the buffer after all layers have run; the input size when there are none. */
  function SizeAfter(layers: seq<Conv>, inputSize: Size): Size
    requires Chained(layers, inputSize) && Evaluable(layers)
  {
    if layers == [] then inputSize else layers[|layers| - 1].OutputSize()
  }

  /** `Network::output_size` on the layers' values: the last layer's output size, or (0, 0). */
  function FinalSize(layers: seq<Conv>): (r: Size)
    requires |layers| > 0 ==> layers[|layers| - 1].Fits()
    ensures layers == [] ==> r.Product() == 0
  {
    if layers == [] then Size(0, 0) else layers[|layers| - 1].OutputSize()
  }

  /** The buffer after running the layers one after another, the loop's running value:
      each layer takes what the previous ones produced. */
  function Propagate(layers: seq<Conv>, inputSize: Size, input: seq<real>): (r: seq<real>)
    requires Chained(layers, inputSize) && Evaluable(layers) && |input| == inputSize.Product()
    ensures |r| == SizeAfter(layers, inputSize).Product()
  {
    if layers == [] then input
    else
      var init := layers[..|layers| - 1];
      assert Chained(init, inputSize);
      Convolve(layers[|layers| - 1], Propagate(init, inputSize, input))
  }

  /** `Network::evaluate` on the layers' values: the left fold of the layer evaluations, and an
      empty buffer when there are no layers. */
  function Run(layers: seq<Conv>, inputSize: Size, input: seq<real>): (r: seq<real>)
    requires Chained(layers, inputSize) && Evaluable(layers) && |input| == inputSize.Product()
    ensures |r| == FinalSize(layers).Product()
  {
    if layers == [] then [] else Propagate(layers, inputSize, input)
  }

  /** Reference definition of the fold, first layer outermost. */
  function Fold(layers: seq<Conv>, inputSize: Size, input: seq<real>): seq<real>
    requires Chained(layers, inputSize) && Evaluable(layers) && |input| == inputSize.Product()
    decreases |layers|
  {
    if layers == [] then input
    else
      assert Chained(layers[1..], layers[0].OutputSize());
      Fold(layers[1..], layers[0].OutputSize(), Convolve(layers[0], input))
  }

  /** Running one more layer after a fold is folding over the longer list. */
  lemma {:induction false} FoldSnoc(layers: seq<Conv>, inputSize: Size, input: seq<real>)
    requires |layers| > 0 && Chained(layers, inputSize) && Evaluable(layers)
    requires |input| == inputSize.Product()
    ensures Chained(layers[..|layers| - 1], inputSize)
    ensures |Fold(layers[..|layers| - 1], inputSize, input)| == layers[|layers| - 1].inputSize.Product()
    ensures Fold(layers, inputSize, input) ==
      Convolve(layers[|layers| - 1], Fold(layers[..|layers| - 1], inputSize, input))
  {
    var init := layers[..|layers| - 1];
    assert Chained(init, inputSize);
    if |layers| == 1 {
      assert init == [];
    } else {
      var rest := layers[1..];
      var mid := Convolve(layers[0], input);
      assert Chained(rest, layers[0].OutputSize());
      FoldSnoc(rest, layers[0].OutputSize(), mid);
      assert rest[..|rest| - 1] == init[1..];
      FoldLength(init, inputSize, input);
    }
  }

  lemma {:induction false} FoldLength(layers: seq<Conv>, inputSize: Size, input: seq<real>)
    requires Chained(layers, inputSize) && Evaluable(layers) && |input| == inputSize.Product()
    ensures |Fold(layers, inputSize, input)| == SizeAfter(layers, inputSize).Product()
  {
    if layers != [] {
      assert Chained(layers[1..], layers[0].OutputSize());
      FoldLength(layers[1..], layers[0].OutputSize(), Convolve(layers[0], input));
    }
  }

  /** The running value of the evaluation loop is the fold of the layers over the input. */
  lemma {:induction false} PropagateIsFold(layers: seq<Conv>, inputSize: Size, input: seq<real>)
    requires Chained(layers, inputSize) && Evaluable(layers) && |input| == inputSize.Product()
    ensures Propagate(layers, inputSize, input) == Fold(layers, inputSize, input)
  {
    if layers != [] {
      var init := layers[..|layers| - 1];
      assert Chained(init, inputSize);
      PropagateIsFold(init, inputSize, input);
      FoldSnoc(layers, inputSize, input);
    }
  }

  /** One more turn of the evaluation loop: layer `i` receives a buffer of its input size and
      its output is the running value over one more layer. */
  lemma PropagateStep(layers: seq<Conv>, inputSize: Size, input: seq<real>, i: nat)
    requires Chained(layers, inputSize) && Evaluable(layers) && |input| == inputSize.Product()
    requires i < |layers|
    ensures Chained(layers[..i], inputSize) && Chained(layers[..i + 1], inputSize)
    ensures |Propagate(layers[..i], inputSize, input)| == layers[i].inputSize.Product()
    ensures Propagate(layers[..i + 1], inputSize, input) ==
      Convolve(layers[i], Propagate(layers[..i], inputSize, input))
  {
    assert Chained(layers[..i], inputSize);
    assert Chained(layers[..i + 1], inputSize);
    assert layers[..i + 1][..i] == layers[..i];
  }

  /** Appending a layer bound to the current output size keeps the chain. */
  lemma AppendChained(layers: seq<Conv>, inputSize: Size, layer: Conv)
    requires Chained(layers, inputSize)
    requires |layers| > 0 ==> layers[|layers| - 1].Fits()
    requires layer.inputSize == if layers == [] then inputSize else layers[|layers| - 1].OutputSize()
    ensures Chained(layers + [layer], inputSize)
  {
  }

  /** A network (`struct Network`). */
  class Network {
    var inputSize: Size
    var layers: seq<ConvolutionalLayer>

    /** The values of the layers, in order. */
    function Layers(): seq<Conv>
      reads this, layers
    {
      seq(|layers|, i reads this, layers requires 0 <= i < |layers| => layers[i].Model())
    }

    /** Each layer is owned once, holds one weight per filter cell, and the layers chain. */
    ghost predicate Valid()
      reads this, layers
    {
      (forall i, j :: 0 <= i < j < |layers| ==> layers[i] != layers[j]) &&
      (forall i :: 0 <= i < |layers| ==> layers[i].Valid()) &&
      Chained(Layers(), inputSize)
    }

    /** `Network::new`. */
    constructor (inputSize: Size)
      ensures Valid()
      ensures this.inputSize == inputSize && layers == []
    {
      this.inputSize := inputSize;
      layers := [];
    }

    /** `Network::add_layer`: binds the layer's input size to the last layer's output size
        (the network's input size when empty), then appends it. */
    method AddLayer(layer: ConvolutionalLayer)
      requires Valid() && layer.Valid() && layer !in layers
      requires |layers| > 0 ==> layers[|layers| - 1].Model().Fits()
      modifies this`layers, layer`inputSize
      ensures Valid()
      ensures layers == old(layers) + [layer] && inputSize == old(inputSize)
      ensures Layers() == old(Layers()) + [layer.Model()]
      ensures layer.inputSize ==
        if old(layers) == [] then inputSize else old(layers[|layers| - 1].OutputSize())
      ensures layer.filterSize == old(layer.filterSize) && layer.filterWeights == old(layer.filterWeights)
    {
      var size := if |layers| > 0 then layers[|layers| - 1].OutputSize() else inputSize;
      ghost var before := Layers();
      layer.SetInputSize(size);
      layers := layers + [layer];
      assert Layers() == before + [layer.Model()];
      AppendChained(before, inputSize, layer.Model());
    }

    /** `Network::output_size`. */
    function OutputSize(): (r: Size)
      reads this, layers
      requires Valid() && (|layers| > 0 ==> layers[|layers| - 1].Model().Fits())
      ensures r == FinalSize(Layers())
      ensures |layers| == 0 ==> r == Size(0, 0)
    {
      if |layers| > 0 then layers[|layers| - 1].OutputSize() else Size(0, 0)
    }

    /** `Network::evaluate`: threads the buffer through the layers in order; the result is the
        last layer's output, or empty when there are no layers. */
    method Evaluate(input: seq<real>) returns (output: seq<real>)
      requires Valid() && Evaluable(Layers()) && |input| == inputSize.Product()
      ensures output == Run(Layers(), inputSize, input)
      ensures |output| == OutputSize().Product()
    {
      output := EvaluateLayers(layers, Layers(), inputSize, input);
      assert OutputSize() == FinalSize(Layers());
    }
  }

  /** The loop of `Network::evaluate`: each layer evaluates the previous layer's output, the
      first one the network's input; `all` holds the layers' values. */
  method EvaluateLayers(layers: seq<ConvolutionalLayer>, ghost all: seq<Conv>, inputSize: Size, input: seq<real>)
    returns (output: seq<real>)
    requires |layers| == |all| && forall i :: 0 <= i < |layers| ==> layers[i].Model() == all[i]
    requires Chained(all, inputSize) && Evaluable(all) && |input| == inputSize.Product()
    ensures output == Run(all, inputSize, input)
  {
    var current := input;
    output := [];
    for i := 0 to |layers|
      invariant current == Propagate(all[..i], inputSize, input)
      invariant output == if i == 0 then [] else current
    {
      PropagateStep(all, inputSize, input, i);
      output := layers[i].Evaluate(current);
      current := output;
    }
    assert all[..|layers|] == all;
  }

  /** The network `main` builds: a 28 x 28 digit image into one 5 x 5 convolution. Its output
      is 24 x 24, and a filter of zeros maps every image to zeros. */
  method DigitNetwork(weights: seq<real>, image: seq<real>) returns (size: Size, output: seq<real>)
    requires |weights| == 25 && |image| == 28 * 28
    ensures size == Size(24, 24) && |output| == size.Product()
    ensures (forall i :: 0 <= i < |weights| ==> weights[i] == 0.0) ==>
      forall k :: 0 <= k < |output| ==> output[k] == 0.0
  {
    var network := new Network(Size(28, 28));
    var layer := new ConvolutionalLayer(Size(5, 5), weights);
    network.AddLayer(layer);
    size := network.OutputSize();
    output := network.Evaluate(image);
    var c := Conv(Size(28, 28), Size(5, 5), weights);
    assert network.Layers() == [c];
    assert output == Convolve(c, image) by {
      assert Chained([], Size(28, 28)) && [c][..0] == [];
      assert Propagate([c], Size(28, 28), image) == Convolve(c, Propagate([], Size(28, 28), image));
    }
    if forall i :: 0 <= i < |weights| ==> weights[i] == 0.0 {
      ZeroFilter(c, image);
    }
  }
}
