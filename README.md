# nnett core in Dafny

A model of the core of `nnett`, a small convolutional network that is shown MNIST digits.
It covers two parts.

- **The network** (`src/network.rs`). A `Network` has a declared input size and an ordered list
  of layers. `add_layer` binds each new layer's input size to the previous layer's output size,
  or to the network's input size when the list is empty, and then appends it. `evaluate` threads
  a flat row-major buffer through the layers in order. The one layer kind is
  `ConvolutionalLayer`: a valid-mode 2-D convolution with stride 1 and no padding. It divides
  each accumulated sum by the filter's cell count.
- **The MNIST reader** (`src/mnist.rs`). It decodes IDX image and label files. Each file starts
  with a big-endian `u32` header: magic number 2051 for images or 2049 for labels, then the
  count, then (for images) width and height. The records follow as raw bytes.

Files:

- `shapes.dfy`, module `Shapes`: `Size` (the source's `na::Vector2<usize>`) and row-major
  indexing `x + y * width`. `Column` and `Row` invert the indexing.
- `layers.dfy`, module `Layers`:
  - the value `Conv`, with the specification functions `Cell` and `Convolve`;
  - the class `ConvolutionalLayer`, whose `Evaluate` keeps the source's four nested loops and
    its in-place accumulation into an `array`;
  - `FillCell`, the body of the two outer loops for one output cell.
- `network.dfy`, module `NetworkModel`:
  - the class `Network`, whose `layers` field is a sequence of `ConvolutionalLayer` objects;
  - the specification functions `Propagate`/`Run` (the loop's running value) and `Fold`
    (an independent left fold).
- `mnist.dfy`, module `Mnist`:
  - the class `File`: the file's bytes plus a read cursor, with `ReadExact`;
  - methods for `read_u32`, `read_u8`, `parse_mnist_images` and `parse_mnist_labels`, each
    proved equal to a specification function on the unread bytes (`ImagesFromBytes`,
    `LabelsFromBytes`).
- `mnist.dfy`, module `MnistFiles`: file encoders and the lemmas that relate them to the parsers.
- `wrappers.dfy`: the `Result` type. Every `panic!`/`unwrap` in the reader becomes an `Err`.

Real numbers stand in for `f32`. A panic becomes either a precondition (network) or an `Err`
result (reader), as listed under "Left out".

## Model

| member | source | states |
|---|---|---|
| Shapes.IndexInBounds | src/network.rs:68 | the row-major index `x + y * width` of an in-grid cell is below `width * height` |
| Shapes.IndexCoordinates | src/network.rs:68 | the row-major index determines its column and row |
| Shapes.CoordinatesOf | src/network.rs:66-68 | every flat output position is the index of an in-grid (x, y), namely (`Column`, `Row`) of it |
| Layers.Conv.OutputSize | src/network.rs:98-100 | output size plus filter size is input size plus one along each axis |
| Layers.AccessesInBounds | src/network.rs:68-83 | every output, filter and input index the loops compute is inside its buffer when the filter fits |
| Layers.Accumulate | src/network.rs:77-83 | one inner-loop step adds `input[input_index] * weights[filter_index]` to the running sum, both indices in bounds |
| Layers.Cell | src/network.rs:75-87 | the cell value times the filter's cell count is the accumulated weighted sum: the sum divided by that count |
| Layers.Convolve | src/network.rs:61-92 | the output has `output_size().product()` cells |
| Layers.ConvolveAt | src/network.rs:66-88 | output cell (x, y), at index `x + y * out.x`, is the filter-weighted sum under the filter divided by the filter's cell count |
| Layers.ColumnSumZero | src/network.rs:76-84 | with all weights zero, every filter column contributes zero |
| Layers.FilterSumZero | src/network.rs:75-85 | with all weights zero, the accumulated sum is zero |
| Layers.ZeroFilter | src/network.rs:61-92 | an all-zero filter gives an all-zero output, whatever the input |
| Layers.IdentityFilter | src/network.rs:61-100 | a 1x1 filter of weight 1 keeps the size and returns the input unchanged |
| Layers.ConvolutionalLayer.constructor | src/network.rs:104-113 | input size (0, 0), the given filter size, one weight per filter cell |
| Layers.ConvolutionalLayer.SetInputSize | src/network.rs:94-96 | the input size is replaced; filter size and weights are unchanged |
| Layers.ConvolutionalLayer.OutputSize | src/network.rs:98-100 | output size plus filter size is the bound input size plus one along each axis |
| Layers.ConvolutionalLayer.Evaluate | src/network.rs:61-92 | the four nested loops with in-place accumulation produce exactly `Convolve` of the layer and the input |
| Layers.FillCell | src/network.rs:75-87 | the cell's slot ends up holding `Cell`; every other slot of the output array is unchanged |
| Layers.NotYetWritten | src/network.rs:64-68 | the cell about to be visited still holds its initial 0.0 |
| Layers.CellWritten | src/network.rs:67-88 | writing one cell leaves earlier cells intact and later ones zero; each cell is written only by its own iteration |
| Layers.ColumnDone | src/network.rs:66-89 | finishing the `output_y` loop completes column `output_x` |
| Layers.FilledAll | src/network.rs:66-91 | once both loops finish, every cell holds its expected value |
| NetworkModel.FinalSize | src/network.rs:39-45 | with no layers the output size is (0, 0), a zero-length buffer |
| NetworkModel.Propagate | src/network.rs:24-33 | after the first i layers the buffer has the i-th layer's output-size product as its length |
| NetworkModel.Run | src/network.rs:24-33 | the evaluated buffer has `output_size().product()` cells; empty with no layers |
| NetworkModel.FoldSnoc | src/network.rs:27-30 | one more loop turn is the fold over a list one layer longer |
| NetworkModel.FoldLength | src/network.rs:24-33 | the folded buffer has the size the last layer produces |
| NetworkModel.PropagateIsFold | src/network.rs:24-33 | the loop's running value is the left fold of the layer evaluations over the input |
| NetworkModel.PropagateStep | src/network.rs:27-30 | layer i receives a buffer of its own input size, and its output is the running value one step further |
| NetworkModel.AppendChained | src/network.rs:14-22 | a layer bound to the last output size (or the input size) keeps the layers chained |
| NetworkModel.Network.constructor | src/network.rs:7-12 | the input size is stored unchanged and there are no layers |
| NetworkModel.Network.AddLayer | src/network.rs:14-22 | the list grows by one, earlier layers are unchanged, the new layer is last with input size bound to the previous output size (or the network's input size), and neighbouring layers stay chained |
| NetworkModel.Network.OutputSize | src/network.rs:39-45 | agrees with `FinalSize` of the layers' values: the last layer's output size, or (0, 0) with no layers |
| NetworkModel.Network.Evaluate | src/network.rs:24-33 | the result is `Run` (the left fold of the layers, or empty with no layers) and its length is `output_size().product()` |
| NetworkModel.EvaluateLayers | src/network.rs:25-32 | the loop, calling each layer object's `Evaluate` on the previous output, returns `Run` of the layers' values |
| NetworkModel.DigitNetwork | src/main.rs:18-19 | a 28x28 network with one 5x5 layer outputs 24x24 cells, all zero when the weights are zero |
| Mnist.U32FromBeBytes | src/mnist.rs:33-37 | a decoded header word is below 2^32 |
| Mnist.U32RoundTrip | src/mnist.rs:36 | decoding the big-endian encoding of a `u32` gives it back |
| Mnist.U32BytesRoundTrip | src/mnist.rs:36 | encoding a decoded word gives back the four bytes: the decoding is one-to-one |
| Mnist.OffsetIsProduct | src/mnist.rs:15-17 | record k starts at `header + k * n` |
| Mnist.OffsetMonotonic | src/mnist.rs:15-17 | later records start no earlier |
| Mnist.ImagesFromBytes | src/mnist.rs:5-20 | fewer than 4 bytes is `UnexpectedEof`; another magic number is `WrongMagic` carrying it; a success has magic 2051, the header's count of images, each of the header's width and height, and fits in the input |
| Mnist.LabelsFromBytes | src/mnist.rs:22-31 | fewer than 4 bytes is `UnexpectedEof`; another magic number is `WrongMagic` carrying it; a success has magic 2049 and is exactly bytes 8 .. 8 + count |
| Mnist.Images | src/mnist.rs:15-19 | `count` records give `count` images, each `width` x `height` |
| Mnist.File.constructor | src/mnist.rs:5 | an opened file is read from its first byte |
| Mnist.File.ReadExact | src/mnist.rs:17 | fills the buffer and advances the cursor by its length iff enough bytes remain; otherwise reports failure with the cursor at the end |
| Mnist.ReadU32 | src/mnist.rs:33-37 | consumes exactly four bytes and returns their big-endian value, or fails with `UnexpectedEof` when fewer remain |
| Mnist.ReadU8 | src/mnist.rs:39-43 | consumes exactly one byte and returns it, or fails on an empty remainder |
| Mnist.NextImage | src/mnist.rs:15-19 | the image read at record k extends the first k images |
| Mnist.ReadImage | src/mnist.rs:16-18 | a `width * height` past `u32::MAX` fails; otherwise the next `width * height` bytes become the image, or the read fails with `UnexpectedEof` |
| Mnist.ReadImages | src/mnist.rs:15-19 | the collected images are `ImageRecords` of the unread bytes, and the cursor ends after the last record |
| Mnist.ParseMnistImages | src/mnist.rs:5-20 | the result is `ImagesFromBytes` of the unread bytes (a wrong magic number, short input and overflow are errors), and on success exactly header plus `count * width * height` bytes are consumed |
| Mnist.ParseMnistLabels | src/mnist.rs:22-31 | the result is `LabelsFromBytes` of the unread bytes, and on success exactly 8 + `count` bytes are consumed |
| MnistFiles.ImagesOfFlatten | src/mnist.rs:15-19 | reading images back from where their pixels were laid out one after another gives the same images |
| MnistFiles.ImagesHeader | src/mnist.rs:6-13 | the four header words of a written image file decode to 2051, count, width and height |
| MnistFiles.ImagesRoundTrip | src/mnist.rs:5-20 | parsing a written image file, with any trailing bytes, gives back exactly the written images |
| MnistFiles.TruncatedImagesFail | src/mnist.rs:5-20 | every proper prefix of an image file fails with `UnexpectedEof` |
| MnistFiles.ImageAt | src/mnist.rs:15-19 | image k holds bytes `start + k * n .. start + (k + 1) * n` |
| MnistFiles.ParsedImageAt | src/mnist.rs:15-19 | image k of a successful parse holds bytes `16 + k * w * h .. 16 + (k + 1) * w * h` |
| MnistFiles.ImagesExtend | src/mnist.rs:15-19 | bytes after the last record do not change the images read |
| MnistFiles.ImagesIgnoreTrailing | src/mnist.rs:5-20 | a successful image parse does not depend on the bytes after the last image |
| MnistFiles.LabelsRoundTrip | src/mnist.rs:22-31 | parsing a written label file, with any trailing bytes, gives back exactly the written labels |
| MnistFiles.TruncatedLabelsFail | src/mnist.rs:22-31 | every proper prefix of a label file fails with `UnexpectedEof` |
| MnistFiles.LabelsIgnoreTrailing | src/mnist.rs:22-31 | a successful label parse does not depend on the bytes after the last label |
| MnistFiles.FormatsDistinct | src/mnist.rs:7-9 | each parser rejects the other format's files with `WrongMagic`, naming the other magic number |

## Left out

- `f32` arithmetic: values are real numbers, so rounding, overflow to infinity and NaN are not modelled.
- Layers.ConvolutionalLayer.Evaluate: requires a filter at least 1x1 (`CanEvaluate`). With a zero-width filter the source divides 0 by 0 and produces NaN, which reals cannot express.
- Layers.ConvolutionalLayer.Evaluate: requires an input buffer of exactly the layer's input size. In the source a shorter buffer panics at the read, and a longer one is accepted with its extra cells ignored.
- NetworkModel.Network.Evaluate: requires an input buffer of exactly the network's input size. In the source a shorter buffer panics in the first layer, a longer one has its extra cells ignored, and with no layers any length is accepted.
- Layers.ConvolutionalLayer.OutputSize: requires a filter that fits the input. `input_size - filter_size` is `usize` subtraction, which panics in debug builds and wraps in release builds.
- NetworkModel.Network.AddLayer: requires the current last layer's filter to fit, for the same reason.
- Layers.ConvolutionalLayer.constructor: the weights are a parameter. The source draws them from `rand::random`, and any sequence of the right length is allowed.
- Layer polymorphism: the `Layer` trait has a single implementation, so `Network` holds `ConvolutionalLayer` objects directly.
- `Network::layers` is a plain accessor and is not modelled.
- NetworkModel.Network.Evaluate: with no layers it returns an empty buffer, not its input, as network.rs:24-33 does.
- The file system: a `File` is its contents plus a cursor. Opening files, OS errors and partial reads are not modelled.
- Mnist.ParseMnistImages: a `width * height` product past `u32::MAX` is reported as `DimensionOverflow`, and only when at least one image is to be read. This matches where the source multiplies. The source panics in debug builds; in release builds it wraps and then panics on the read or in `from_vec`, and the model does not distinguish which panic.
- `ImageBuffer::from_vec` is modelled as pairing the width and height with the pixel bytes. The buffer always has exactly `width * height` bytes, so it cannot fail there.
- `src/main.rs` (the window, drawing and image scaling) is not part of this model, apart from the network it builds, which `DigitNetwork` reproduces.
