/** The MNIST IDX decoder: big-endian `u32` header fields, a magic-number check, then
    `count` records read as consecutive raw bytes from a file cursor. */
module Mnist {
  import opened Wrappers

  newtype Byte = x: int | 0 <= x < 0x100

  const U32_BOUND: nat := 0x1_0000_0000
  const IMAGES_MAGIC: nat := 2051
  const LABELS_MAGIC: nat := 2049
  /** Magic number, count, width and height. */
  const IMAGES_HEADER: nat := 16
  /** Magic number and count. */
  const LABELS_HEADER: nat := 8

  /** Why decoding stops; the source panics in each case. */
  datatype ParseError =
    | UnexpectedEof              // `read_exact(..).unwrap()` on a short file
    | WrongMagic(found: nat)     // `panic!("wrong magic number: {}", ..)`
    | DimensionOverflow          // `image_width * image_height` overflows `u32`

  /** A decoded image (`GrayImage`): its size and its pixels, row-major. */
  datatype GrayImage = GrayImage(width: nat, height: nat, pixels: seq<Byte>)

  /** `u32::from_be_bytes`: the most significant byte first. */
  function U32FromBeBytes(b: seq<Byte>): (r: nat)
    requires |b| == 4
    ensures r < U32_BOUND
  {
    ((b[0] as nat * 0x100 + b[1] as nat) * 0x100 + b[2] as nat) * 0x100 + b[3] as nat
  }

  /** `u32::to_be_bytes`, the encoding the files are written in. */
  function U32ToBeBytes(v: nat): (r: seq<Byte>)
    requires v < U32_BOUND
    ensures |r| == 4
  {
    var q1 := v / 0x100;
    var q2 := q1 / 0x100;
    var q3 := q2 / 0x100;
    [q3 as Byte, (q2 % 0x100) as Byte, (q1 % 0x100) as Byte, (v % 0x100) as Byte]
  }

  lemma U32RoundTrip(v: nat)
    requires v < U32_BOUND
    ensures U32FromBeBytes(U32ToBeBytes(v)) == v
  {
  }

  lemma U32BytesRoundTrip(b: seq<Byte>)
    requires |b| == 4
    ensures U32ToBeBytes(U32FromBeBytes(b)) == b
  {
    var high := b[0] as nat * 0x100 + b[1] as nat;
    assert U32FromBeBytes(b) / 0x100 == high * 0x100 + b[2] as nat;
    assert (high * 0x100 + b[2] as nat) / 0x100 == high;
  }

  /** The `i`-th big-endian `u32` of a header. */
  function Field(d: seq<Byte>, i: nat): nat
    requires 4 * i + 4 <= |d|
  {
    U32FromBeBytes(d[4 * i..4 * i + 4])
  }

  /** The byte length of one `width` x `height` image. */
  function PixelCount(width: nat, height: nat): nat {
    width * height
  }

  /** Where record `k` of `n`-byte records starts after a `header`-byte header
      (`header + k * n`, as `OffsetIsProduct` shows). */
  function Offset(header: nat, k: nat, n: nat): (r: nat)
    ensures r >= header
  {
    if k == 0 then header else Offset(header, k - 1, n) + n
  }

  lemma {:induction false} OffsetIsProduct(header: nat, k: nat, n: nat)
    ensures Offset(header, k, n) == header + k * n
  {
    if k > 0 {
      OffsetIsProduct(header, k - 1, n);
    }
  }

  /** Later records start no earlier. */
  lemma {:induction false} OffsetMonotonic(header: nat, j: nat, k: nat, n: nat)
    requires j <= k
    ensures Offset(header, j, n) <= Offset(header, k, n)
  {
    if j < k {
      OffsetMonotonic(header, j, k - 1, n);
    }
  }

  /** The first `count` images of `width` x `height` pixels stored back to back from `start`. */
  function Images(d: seq<Byte>, start: nat, width: nat, height: nat, count: nat): (r: seq<GrayImage>)
    requires Offset(start, count, PixelCount(width, height)) <= |d|
    ensures |r| == count
    ensures forall i :: 0 <= i < count ==> r[i].width == width && r[i].height == height
  {
    if count == 0 then []
    else
      var n := PixelCount(width, height);
      Images(d, start, width, height, count - 1) +
      [GrayImage(width, height, d[Offset(start, count - 1, n)..Offset(start, count, n)])]
  }

  /** What `parse_mnist_images` returns for a file whose unread bytes are `d`. */
  function ImagesFromBytes(d: seq<Byte>): (r: Result<seq<GrayImage>, ParseError>)
    ensures |d| < 4 ==> r == Err(UnexpectedEof)
    ensures |d| >= 4 && Field(d, 0) != IMAGES_MAGIC ==> r == Err(WrongMagic(Field(d, 0)))
    ensures r.Ok? ==> |d| >= IMAGES_HEADER && Field(d, 0) == IMAGES_MAGIC
    ensures r.Ok? ==> |r.value| == Field(d, 1) && ImagesExtent(d) <= |d|
    ensures r.Ok? ==> forall i :: 0 <= i < |r.value| ==> r.value[i].width == Field(d, 2) && r.value[i].height == Field(d, 3)
  {
    if |d| < 4 then Err(UnexpectedEof)
    else if Field(d, 0) != IMAGES_MAGIC then Err(WrongMagic(Field(d, 0)))
    else if |d| < IMAGES_HEADER then Err(UnexpectedEof)
    else ImageRecords(d, Field(d, 1), Field(d, 2), Field(d, 3))
  }

  /** The `count` images of `width` x `height` pixels that follow the header in `d`. */
  function ImageRecords(d: seq<Byte>, count: nat, width: nat, height: nat): Result<seq<GrayImage>, ParseError> {
    var n := PixelCount(width, height);
    if count > 0 && n >= U32_BOUND then Err(DimensionOverflow)
    else if |d| < Offset(IMAGES_HEADER, count, n) then Err(UnexpectedEof)
    else Ok(Images(d, IMAGES_HEADER, width, height, count))
  }

  /** How many bytes a successful `parse_mnist_images` consumes. */
  function ImagesExtent(d: seq<Byte>): nat
    requires |d| >= IMAGES_HEADER
  {
    var n := PixelCount(Field(d, 2), Field(d, 3));
    Offset(IMAGES_HEADER, Field(d, 1), n)
  }

  /** The first `fields` big-endian words read from `bytes` at `start` are the header fields. */
  lemma HeaderFields(bytes: seq<Byte>, start: nat, fields: nat)
    requires start + 4 * fields <= |bytes|
    ensures forall i :: 0 <= i < fields ==> bytes[start + 4 * i..][..4] == bytes[start..][4 * i..4 * i + 4]
  {
  }

  /** What `parse_mnist_labels` returns for a file whose unread bytes are `d`. */
  function LabelsFromBytes(d: seq<Byte>): (r: Result<seq<Byte>, ParseError>)
    ensures |d| < 4 ==> r == Err(UnexpectedEof)
    ensures |d| >= 4 && Field(d, 0) != LABELS_MAGIC ==> r == Err(WrongMagic(Field(d, 0)))
    ensures r.Ok? ==> |d| >= LABELS_HEADER && Field(d, 0) == LABELS_MAGIC && |r.value| == Field(d, 1)
    ensures r.Ok? ==> LABELS_HEADER + |r.value| <= |d| && r.value == d[LABELS_HEADER..LABELS_HEADER + |r.value|]
  {
    if |d| < 4 then Err(UnexpectedEof)
    else if Field(d, 0) != LABELS_MAGIC then Err(WrongMagic(Field(d, 0)))
    else if |d| < LABELS_HEADER then Err(UnexpectedEof)
    else
      var count := Field(d, 1);
      if |d| < LABELS_HEADER + count then Err(UnexpectedEof)
      else Ok(d[LABELS_HEADER..LABELS_HEADER + count])
  }

  /** An open file (`std::fs::File`): its contents and the read cursor. */
  class File {
    const bytes: seq<Byte>
    var position: nat

    ghost predicate Valid()
      reads this
    {
      position <= |bytes|
    }

    /** The bytes not yet read. */
    function Remaining(): seq<Byte>
      reads this
      requires Valid()
    {
      bytes[position..]
    }

    constructor (bytes: seq<Byte>)
      ensures Valid() && this.bytes == bytes && position == 0
    {
      this.bytes := bytes;
      position := 0;
    }

    /** `Read::read_exact`: fills `buf` from the cursor. On a short file it copies what is
        left, leaves the cursor at the end and reports failure. */
    method ReadExact(buf: array<Byte>) returns (ok: bool)
      requires Valid()
      modifies this, buf
      ensures Valid()
      ensures ok <==> buf.Length <= |old(Remaining())|
      ensures ok ==> position == old(position) + buf.Length && buf[..] == old(Remaining())[..buf.Length]
      ensures !ok ==> position == |bytes|
      ensures !ok ==> buf[..] == old(Remaining()) + old(buf[..])[|old(Remaining())|..]
    {
      var n := if buf.Length <= |bytes| - position then buf.Length else |bytes| - position;
      forall i | 0 <= i < n {
        buf[i] := bytes[position + i];
      }
      position := position + n;
      ok := n == buf.Length;
    }
  }

  /** `read_u32`: four bytes, big-endian. */
  method ReadU32(file: File) returns (r: Result<nat, ParseError>)
    requires file.Valid()
    modifies file
    ensures file.Valid()
    ensures r.Ok? <==> 4 <= |old(file.Remaining())|
    ensures r.Ok? ==> r.value == U32FromBeBytes(old(file.Remaining())[..4])
    ensures r.Ok? ==> file.position == old(file.position) + 4
    ensures r.Err? ==> r.error == UnexpectedEof && file.position == |file.bytes|
  {
    var bytes := new Byte[4];
    var ok := file.ReadExact(bytes);
    if !ok {
      return Err(UnexpectedEof);
    }
    r := Ok(U32FromBeBytes(bytes[..]));
  }

  /** `read_u8`: one byte. */
  method ReadU8(file: File) returns (r: Result<Byte, ParseError>)
    requires file.Valid()
    modifies file
    ensures file.Valid()
    ensures r.Ok? <==> 1 <= |old(file.Remaining())|
    ensures r.Ok? ==> r.value == old(file.Remaining())[0] && file.position == old(file.position) + 1
    ensures r.Err? ==> r.error == UnexpectedEof && file.position == |file.bytes|
  {
    var bytes := new Byte[1];
    var ok := file.ReadExact(bytes);
    if !ok {
      return Err(UnexpectedEof);
    }
    r := Ok(bytes[0]);
  }

  /** The image read at record `k` of the unread bytes `d` extends the first `k` images. */
  lemma NextImage(bytes: seq<Byte>, start: nat, d: seq<Byte>, width: nat, height: nat, k: nat)
    requires start <= |bytes| && bytes[start..] == d
    requires start + Offset(IMAGES_HEADER, k, PixelCount(width, height)) + PixelCount(width, height) <= |bytes|
    ensures Offset(IMAGES_HEADER, k + 1, PixelCount(width, height)) <= |d|
    ensures Images(d, IMAGES_HEADER, width, height, k + 1) == Images(d, IMAGES_HEADER, width, height, k) +
      [GrayImage(width, height, bytes[start + Offset(IMAGES_HEADER, k, PixelCount(width, height))..][..PixelCount(width, height)])]
  {
    var n := PixelCount(width, height);
    assert bytes[start + Offset(IMAGES_HEADER, k, n)..][..n] == d[Offset(IMAGES_HEADER, k, n)..Offset(IMAGES_HEADER, k + 1, n)];
  }

  /** One image: `width * height` pixel bytes. The product is `u32` arithmetic in the source,
      so a product past `u32::MAX` is an error rather than a buffer size. */
  method ReadImage(file: File, width: nat, height: nat) returns (r: Result<GrayImage, ParseError>)
    requires file.Valid()
    modifies file
    ensures file.Valid()
    ensures PixelCount(width, height) >= U32_BOUND ==> r == Err(DimensionOverflow)
    ensures PixelCount(width, height) < U32_BOUND ==> (r.Ok? <==> PixelCount(width, height) <= |old(file.Remaining())|)
    ensures r.Ok? ==> r.value == GrayImage(width, height, old(file.Remaining())[..PixelCount(width, height)])
    ensures r.Ok? ==> file.position == old(file.position) + PixelCount(width, height)
    ensures r.Err? && PixelCount(width, height) < U32_BOUND ==> r.error == UnexpectedEof
  {
    var size := width * height;
    if size >= U32_BOUND {
      return Err(DimensionOverflow);
    }
    var pixels := new Byte[size];
    var ok := file.ReadExact(pixels);
    if !ok {
      return Err(UnexpectedEof);
    }
    r := Ok(GrayImage(width, height, pixels[..]));
  }

  /** `parse_mnist_images`: the header, then `count` images of `PixelCount(width, height)` bytes each. */
  method ParseMnistImages(file: File) returns (r: Result<seq<GrayImage>, ParseError>)
    requires file.Valid()
    modifies file
    ensures file.Valid()
    ensures r == ImagesFromBytes(old(file.Remaining()))
    ensures r.Ok? ==> file.position == old(file.position) + ImagesExtent(old(file.Remaining()))
  {
    ghost var d := file.Remaining();
    ghost var start := file.position;
    var magicNumber :- ReadU32(file);
    if magicNumber != IMAGES_MAGIC {
      return Err(WrongMagic(magicNumber));
    }
    var imageCount :- ReadU32(file);
    var imageWidth :- ReadU32(file);
    var imageHeight :- ReadU32(file);
    HeaderFields(file.bytes, start, 4);
    r := ReadImages(file, imageCount, imageWidth, imageHeight, d, start);
  }

  /** The `(0..image_count).map(..).collect()` of `parse_mnist_images`: `count` images read one
      after another, the first error ending the sequence. */
  method ReadImages(file: File, count: nat, width: nat, height: nat, ghost d: seq<Byte>, ghost start: nat)
    returns (r: Result<seq<GrayImage>, ParseError>)
    requires file.Valid() && start <= |file.bytes| && file.bytes[start..] == d
    requires file.position == start + IMAGES_HEADER
    modifies file
    ensures file.Valid()
    ensures r == ImageRecords(d, count, width, height)
    ensures r.Ok? ==> file.position == start + Offset(IMAGES_HEADER, count, PixelCount(width, height))
  {
    ghost var n := PixelCount(width, height);
    var images: seq<GrayImage> := [];
    for k := 0 to count
      invariant file.Valid()
      invariant start + Offset(IMAGES_HEADER, k, n) <= |file.bytes|
      invariant file.position == start + Offset(IMAGES_HEADER, k, n)
      invariant k > 0 ==> n < U32_BOUND
      invariant images == Images(d, IMAGES_HEADER, width, height, k)
    {
      var image := ReadImage(file, width, height);
      if image.Err? {
        OffsetMonotonic(IMAGES_HEADER, k + 1, count, n);
        return Err(image.error);
      }
      NextImage(file.bytes, start, d, width, height, k);
      images := images + [image.value];
    }
    r := Ok(images);
  }

  /** `parse_mnist_labels`: the header, then `count` single-byte labels. */
  method ParseMnistLabels(file: File) returns (r: Result<seq<Byte>, ParseError>)
    requires file.Valid()
    modifies file
    ensures file.Valid()
    ensures r == LabelsFromBytes(old(file.Remaining()))
    ensures r.Ok? ==> file.position == old(file.position) + LABELS_HEADER + |r.value|
  {
    ghost var d := file.Remaining();
    ghost var start := file.position;
    var magicNumber :- ReadU32(file);
    if magicNumber != LABELS_MAGIC {
      return Err(WrongMagic(magicNumber));
    }
    var itemCount :- ReadU32(file);
    var labels: seq<Byte> := [];
    for k := 0 to itemCount
      invariant file.Valid()
      invariant LABELS_HEADER + k <= |d|
      invariant file.position == start + LABELS_HEADER + k
      invariant labels == d[LABELS_HEADER..LABELS_HEADER + k]
    {
      var item :- ReadU8(file);
      labels := labels + [item];
    }
    r := Ok(labels);
  }
}

module MnistFiles {
  import opened Wrappers
  import opened Mnist

  /** The pixels of `images`, one image after another. */
  function Flatten(images: seq<GrayImage>): seq<Byte> {
    if |images| == 0 then [] else Flatten(images[..|images| - 1]) + images[|images| - 1].pixels
  }

  /** Every image is `width` x `height` and has that many pixels. */
  predicate Uniform(images: seq<GrayImage>, width: nat, height: nat) {
    forall i :: 0 <= i < |images| ==>
      images[i].width == width && images[i].height == height && |images[i].pixels| == PixelCount(width, height)
  }

  /** An IDX image file holding `images`. */
  function ImagesFile(width: nat, height: nat, images: seq<GrayImage>): seq<Byte>
    requires width < U32_BOUND && height < U32_BOUND && |images| < U32_BOUND
  {
    U32ToBeBytes(IMAGES_MAGIC) + U32ToBeBytes(|images|) + U32ToBeBytes(width) + U32ToBeBytes(height) + Flatten(images)
  }

  /** An IDX label file holding `labels`. */
  function LabelsFile(labels: seq<Byte>): seq<Byte>
    requires |labels| < U32_BOUND
  {
    U32ToBeBytes(LABELS_MAGIC) + U32ToBeBytes(|labels|) + labels
  }

  lemma {:induction false} FlattenLength(images: seq<GrayImage>, width: nat, height: nat, start: nat)
    requires Uniform(images, width, height)
    ensures start + |Flatten(images)| == Offset(start, |images|, PixelCount(width, height))
  {
    if |images| > 0 {
      FlattenLength(images[..|images| - 1], width, height, start);
    }
  }

  /** A slice of `d` inside the stretch where `s` is stored is the matching slice of `s`. */
  lemma SubSlice(d: seq<Byte>, s: seq<Byte>, start: nat, lo: nat, hi: nat)
    requires start + |s| <= |d| && d[start..start + |s|] == s && start <= lo <= hi <= start + |s|
    ensures d[lo..hi] == s[lo - start..hi - start]
  {
    forall i | 0 <= i < hi - lo
      ensures d[lo..hi][i] == s[lo - start..hi - start][i]
    {
      assert d[lo..hi][i] == d[start..start + |s|][lo - start + i];
    }
  }

  /** Reading images from where `images` were flattened gives them back. */
  lemma {:induction false} ImagesOfFlatten(d: seq<Byte>, start: nat, images: seq<GrayImage>, width: nat, height: nat)
    requires Uniform(images, width, height)
    requires start + |Flatten(images)| <= |d| && d[start..start + |Flatten(images)|] == Flatten(images)
    ensures Offset(start, |images|, PixelCount(width, height)) <= |d|
    ensures Images(d, start, width, height, |images|) == images
  {
    FlattenLength(images, width, height, start);
    if |images| > 0 {
      var init, last := images[..|images| - 1], images[|images| - 1];
      var f := Flatten(images);
      var lo := start + |Flatten(init)|;
      SubSlice(d, f, start, start, lo);
      assert f[0..lo - start] == Flatten(init);
      ImagesOfFlatten(d, start, init, width, height);
      FlattenLength(init, width, height, start);
      SubSlice(d, f, start, lo, start + |f|);
      assert f[lo - start..|f|] == last.pixels;
      assert images == init + [last];
    }
  }

  /** Decoding the header of a file written by `ImagesFile`. */
  lemma ImagesHeader(width: nat, height: nat, images: seq<GrayImage>, d: seq<Byte>)
    requires width < U32_BOUND && height < U32_BOUND && |images| < U32_BOUND
    requires |d| >= IMAGES_HEADER && d[..IMAGES_HEADER] == ImagesFile(width, height, images)[..IMAGES_HEADER]
    ensures Field(d, 0) == IMAGES_MAGIC && Field(d, 1) == |images| && Field(d, 2) == width && Field(d, 3) == height
  {
    var f := ImagesFile(width, height, images);
    assert d[0..4] == f[0..4] == U32ToBeBytes(IMAGES_MAGIC);
    assert d[4..8] == f[4..8] == U32ToBeBytes(|images|);
    assert d[8..12] == f[8..12] == U32ToBeBytes(width);
    assert d[12..16] == f[12..16] == U32ToBeBytes(height);
    U32RoundTrip(IMAGES_MAGIC);
    U32RoundTrip(|images|);
    U32RoundTrip(width);
    U32RoundTrip(height);
  }

  /** Writing images out and parsing them back gives the same images, whatever follows them. */
  lemma ImagesRoundTrip(width: nat, height: nat, images: seq<GrayImage>, rest: seq<Byte>)
    requires width < U32_BOUND && height < U32_BOUND && |images| < U32_BOUND
    requires Uniform(images, width, height) && (|images| > 0 ==> PixelCount(width, height) < U32_BOUND)
    ensures ImagesFromBytes(ImagesFile(width, height, images) + rest) == Ok(images)
  {
    var f := Flatten(images);
    var d := ImagesFile(width, height, images) + rest;
    assert d[..IMAGES_HEADER] == ImagesFile(width, height, images)[..IMAGES_HEADER];
    ImagesHeader(width, height, images, d);
    FlattenLength(images, width, height, IMAGES_HEADER);
    assert d[IMAGES_HEADER..IMAGES_HEADER + |f|] == f;
    ImagesOfFlatten(d, IMAGES_HEADER, images, width, height);
  }

  /** Every proper prefix of an image file fails to parse, with `UnexpectedEof`. */
  lemma TruncatedImagesFail(width: nat, height: nat, images: seq<GrayImage>, m: nat)
    requires width < U32_BOUND && height < U32_BOUND && |images| < U32_BOUND
    requires Uniform(images, width, height) && (|images| > 0 ==> PixelCount(width, height) < U32_BOUND)
    requires m < |ImagesFile(width, height, images)|
    ensures ImagesFromBytes(ImagesFile(width, height, images)[..m]) == Err(UnexpectedEof)
  {
    var f := ImagesFile(width, height, images);
    var d := f[..m];
    FlattenLength(images, width, height, IMAGES_HEADER);
    if m >= 4 {
      assert d[0..4] == f[0..4];
      U32RoundTrip(IMAGES_MAGIC);
    }
    if m >= IMAGES_HEADER {
      ImagesHeader(width, height, images, d);
    }
  }

  /** The `k`-th parsed image holds the `k`-th record after the header. */
  lemma {:induction false} ImageAt(d: seq<Byte>, start: nat, width: nat, height: nat, count: nat, k: nat)
    requires Offset(start, count, PixelCount(width, height)) <= |d| && k < count
    ensures Offset(start, k + 1, PixelCount(width, height)) <= |d|
    ensures Images(d, start, width, height, count)[k] ==
      GrayImage(width, height, d[Offset(start, k, PixelCount(width, height))..Offset(start, k + 1, PixelCount(width, height))])
  {
    OffsetMonotonic(start, k + 1, count, PixelCount(width, height));
    if k < count - 1 {
      ImageAt(d, start, width, height, count - 1, k);
    }
  }

  /** Image `k` of a successful parse is bytes `16 + k * n .. 16 + (k + 1) * n`, `n` its pixel count. */
  lemma ParsedImageAt(d: seq<Byte>, k: nat)
    requires ImagesFromBytes(d).Ok? && k < |ImagesFromBytes(d).value|
    ensures |d| >= IMAGES_HEADER
    ensures var n := PixelCount(Field(d, 2), Field(d, 3));
      IMAGES_HEADER + (k + 1) * n <= |d| &&
      ImagesFromBytes(d).value[k] == GrayImage(Field(d, 2), Field(d, 3), d[IMAGES_HEADER + k * n..IMAGES_HEADER + (k + 1) * n])
  {
    var width, height := Field(d, 2), Field(d, 3);
    ImageAt(d, IMAGES_HEADER, width, height, Field(d, 1), k);
    OffsetIsProduct(IMAGES_HEADER, k, PixelCount(width, height));
    OffsetIsProduct(IMAGES_HEADER, k + 1, PixelCount(width, height));
  }

  lemma {:induction false} ImagesExtend(d: seq<Byte>, rest: seq<Byte>, start: nat, width: nat, height: nat, count: nat)
    requires Offset(start, count, PixelCount(width, height)) <= |d|
    ensures Images(d + rest, start, width, height, count) == Images(d, start, width, height, count)
  {
    if count > 0 {
      ImagesExtend(d, rest, start, width, height, count - 1);
      var n := PixelCount(width, height);
      assert (d + rest)[Offset(start, count - 1, n)..Offset(start, count, n)] == d[Offset(start, count - 1, n)..Offset(start, count, n)];
    }
  }

  /** Bytes after the last image never change the result: the parser does not read them. */
  lemma ImagesIgnoreTrailing(d: seq<Byte>, rest: seq<Byte>)
    requires ImagesFromBytes(d).Ok?
    ensures ImagesFromBytes(d + rest) == ImagesFromBytes(d)
  {
    var e := d + rest;
    assert e[0..4] == d[0..4] && e[4..8] == d[4..8] && e[8..12] == d[8..12] && e[12..16] == d[12..16];
    ImagesExtend(d, rest, IMAGES_HEADER, Field(d, 2), Field(d, 3), Field(d, 1));
  }

  /** Writing labels out and parsing them back gives the same labels, whatever follows them. */
  lemma LabelsRoundTrip(labels: seq<Byte>, rest: seq<Byte>)
    requires |labels| < U32_BOUND
    ensures LabelsFromBytes(LabelsFile(labels) + rest) == Ok(labels)
  {
    var d := LabelsFile(labels) + rest;
    assert d[0..4] == U32ToBeBytes(LABELS_MAGIC) && d[4..8] == U32ToBeBytes(|labels|);
    U32RoundTrip(LABELS_MAGIC);
    U32RoundTrip(|labels|);
    assert d[LABELS_HEADER..LABELS_HEADER + |labels|] == labels;
  }

  /** Every proper prefix of a label file fails to parse, with `UnexpectedEof`. */
  lemma TruncatedLabelsFail(labels: seq<Byte>, m: nat)
    requires |labels| < U32_BOUND && m < |LabelsFile(labels)|
    ensures LabelsFromBytes(LabelsFile(labels)[..m]) == Err(UnexpectedEof)
  {
    var f := LabelsFile(labels);
    var d := f[..m];
    if m >= 4 {
      assert d[0..4] == U32ToBeBytes(LABELS_MAGIC);
      U32RoundTrip(LABELS_MAGIC);
    }
    if m >= LABELS_HEADER {
      assert d[4..8] == U32ToBeBytes(|labels|);
      U32RoundTrip(|labels|);
    }
  }

  /** Bytes after the last label never change the result. */
  lemma LabelsIgnoreTrailing(d: seq<Byte>, rest: seq<Byte>)
    requires LabelsFromBytes(d).Ok?
    ensures LabelsFromBytes(d + rest) == LabelsFromBytes(d)
  {
    var e := d + rest;
    assert e[0..4] == d[0..4] && e[4..8] == d[4..8];
    assert e[LABELS_HEADER..LABELS_HEADER + Field(d, 1)] == d[LABELS_HEADER..LABELS_HEADER + Field(d, 1)];
  }

  /** The magic numbers tell the two formats apart: each parser rejects the other's files. */
  lemma FormatsDistinct(width: nat, height: nat, images: seq<GrayImage>, labels: seq<Byte>, rest: seq<Byte>)
    requires width < U32_BOUND && height < U32_BOUND && |images| < U32_BOUND && |labels| < U32_BOUND
    ensures ImagesFromBytes(LabelsFile(labels) + rest) == Err(WrongMagic(LABELS_MAGIC))
    ensures LabelsFromBytes(ImagesFile(width, height, images) + rest) == Err(WrongMagic(IMAGES_MAGIC))
  {
    var l := LabelsFile(labels) + rest;
    var i := ImagesFile(width, height, images) + rest;
    assert l[0..4] == U32ToBeBytes(LABELS_MAGIC);
    assert i[0..4] == U32ToBeBytes(IMAGES_MAGIC);
    U32RoundTrip(LABELS_MAGIC);
    U32RoundTrip(IMAGES_MAGIC);
  }
}
