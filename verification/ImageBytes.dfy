/** The ASCOM ImageBytes codec (metadata version 1) of alpaca/imagebytes.go. */
module ImageBytes {
  import opened Bytes
  import opened Grid
  import opened Transpose
  import opened Writes

  const IMAGE_BYTES_HEADER_LEN := 44
  const IMAGE_BYTES_VERSION := 1

  const IMG_UNKNOWN: int32 := 0
  const IMG_INT16: int32 := 1
  const IMG_INT32: int32 := 2
  const IMG_DOUBLE: int32 := 3
  const IMG_SINGLE: int32 := 4
  const IMG_UINT64: int32 := 5
  const IMG_BYTE: int32 := 6
  const IMG_INT64: int32 := 7
  const IMG_UINT16: int32 := 8
  const IMG_UINT32: int32 := 9

  datatype ImageFrame = ImageFrame(
    rank: int, width: int, height: int, planes: int,
    elementType: int32, transmissionElementType: int32,
    pixels: seq<byte>)
  {
    /** The element type the pixels are in. */
    function Transmit(): int32 {
      if transmissionElementType == 0 then elementType else transmissionElementType
    }

    /** Whether the codec exchanges the axes of this frame's pixels. */
    predicate Transposes() {
      var es := ElementSize(Transmit());
      rank == 2 && es > 0 && width > 0 && height > 0 && |pixels| == width * height * es
    }
  }

  /** What decoding a response gives: a frame, the device error the envelope carries, or neither. */
  datatype Decoded = Frame(frame: ImageFrame) | DeviceError(number: int, message: seq<byte>) | TooShort

  function ElementSize(t: int32): nat {
    if t == IMG_BYTE then 1
    else if t == IMG_INT16 || t == IMG_UINT16 then 2
    else if t == IMG_INT32 || t == IMG_UINT32 || t == IMG_SINGLE then 4
    else if t == IMG_INT64 || t == IMG_UINT64 || t == IMG_DOUBLE then 8
    else 0
  }

  // ---- the header: eleven little-endian words ----

  type Fields = f: seq<word32> | |f| == 11 witness seq(11, _ => 0)

  function HeaderFields(errNum: int32, clientTx: word32, serverTx: word32, elem: int32, transmit: int32,
                        rank: int, dim1: int, dim2: int, dim3: int): Fields
  {
    [IMAGE_BYTES_VERSION, ToWord32(errNum), clientTx, serverTx, IMAGE_BYTES_HEADER_LEN,
     ToWord32(elem), ToWord32(transmit), ToWord32(rank), ToWord32(dim1), ToWord32(dim2), ToWord32(dim3)]
  }

  /** The data starts with these field values. */
  ghost predicate HasFields(data: seq<byte>, fields: Fields, n: nat)
    requires n <= 11
  {
    4 * n <= |data| && forall i: nat | i < n :: Le32(data, 4 * i) == fields[i]
  }

  function HeaderBytes(fields: Fields): (h: seq<byte>)
    ensures |h| == IMAGE_BYTES_HEADER_LEN
  {
    seq(IMAGE_BYTES_HEADER_LEN, k requires 0 <= k < IMAGE_BYTES_HEADER_LEN => Word32Bytes(fields[k / 4])[k % 4])
  }

  lemma HeaderHasFields(fields: Fields, rest: seq<byte>)
    ensures HasFields(HeaderBytes(fields) + rest, fields, 11)
  {
    hide HeaderBytes, Word32Bytes;
    var data := HeaderBytes(fields) + rest;
    forall i: nat | i < 11
      ensures Le32(data, 4 * i) == fields[i]
    {
      HeaderByte(fields, rest, i, 0);
      HeaderByte(fields, rest, i, 1);
      HeaderByte(fields, rest, i, 2);
      HeaderByte(fields, rest, i, 3);
    }
  }

  lemma HeaderByte(fields: Fields, rest: seq<byte>, i: nat, j: nat)
    requires i < 11 && j < 4
    ensures 4 * i + j < |HeaderBytes(fields) + rest|
    ensures (HeaderBytes(fields) + rest)[4 * i + j] == Word32Bytes(fields[i])[j]
  {
    hide Word32Bytes;
    assert (4 * i + j) / 4 == i && (4 * i + j) % 4 == j;
  }

  lemma FieldReads(fields: Fields, rest: seq<byte>)
    ensures var data := HeaderBytes(fields) + rest;
            && Le32(data, 0) == fields[0] && Le32(data, 8) == fields[2] && Le32(data, 12) == fields[3]
            && Le32(data, 4) == fields[1] && Le32(data, 16) == fields[4] && Le32(data, 20) == fields[5]
            && Le32(data, 24) == fields[6] && Le32(data, 28) == fields[7] && Le32(data, 32) == fields[8]
            && Le32(data, 36) == fields[9] && Le32(data, 40) == fields[10]
  {
    HeaderHasFields(fields, rest);
    var data := HeaderBytes(fields) + rest;
    hide HeaderBytes, Le32;
    assert Le32(data, 4 * 0) == fields[0] && Le32(data, 4 * 2) == fields[2] && Le32(data, 4 * 3) == fields[3];
    assert Le32(data, 4 * 1) == fields[1] && Le32(data, 4 * 4) == fields[4];
    assert Le32(data, 4 * 5) == fields[5] && Le32(data, 4 * 6) == fields[6];
    assert Le32(data, 4 * 7) == fields[7] && Le32(data, 4 * 8) == fields[8];
    assert Le32(data, 4 * 9) == fields[9] && Le32(data, 4 * 10) == fields[10];
  }

  /** A header is determined by its fields. */
  lemma HeaderUnique(data: seq<byte>, fields: Fields)
    requires HasFields(data, fields, 11)
    ensures data[..IMAGE_BYTES_HEADER_LEN] == HeaderBytes(fields)
  {
    forall k | 0 <= k < IMAGE_BYTES_HEADER_LEN
      ensures data[k] == HeaderBytes(fields)[k]
    {
      var i := k / 4;
      assert 4 * i + 4 <= 44;
      Word32Unique(data, 4 * i);
      assert data[4 * i..4 * i + 4][k % 4] == data[k];
      assert Le32(data, 4 * i) == fields[i];
    }
  }

  /** binary.LittleEndian.PutUint32 on the buffer's contents. */
  function Poke32(s: seq<byte>, at: nat, w: word32): (t: seq<byte>)
    requires at + 4 <= |s|
    ensures |t| == |s|
  {
    s[..at] + Word32Bytes(w) + s[at + 4..]
  }

  lemma PokeReads(s: seq<byte>, at: nat, w: word32, other: nat)
    requires at + 4 <= |s| && other + 4 <= |s|
    requires other == at || other + 4 <= at || at + 4 <= other
    ensures Le32(Poke32(s, at, w), other) == if other == at then w else Le32(s, other)
  {
    var t, b := Poke32(s, at, w), Word32Bytes(w);
    assert t[at] == b[0] && t[at + 1] == b[1] && t[at + 2] == b[2] && t[at + 3] == b[3];
  }

  method PutUint32(buf: array<byte>, at: nat, w: word32)
    requires at + 4 <= buf.Length
    modifies buf
    ensures buf[..] == Poke32(old(buf[..]), at, w)
  {
    var b := Word32Bytes(w);
    buf[at] := b[0];
    buf[at + 1] := b[1];
    buf[at + 2] := b[2];
    buf[at + 3] := b[3];
  }

  /** One of the eleven stores of putImageBytesHeader, made after the ones before it. */
  method PutField(buf: array<byte>, i: nat, w: word32, ghost fields: Fields)
    requires i < 11 && buf.Length >= IMAGE_BYTES_HEADER_LEN && fields[i] == w
    requires HasFields(buf[..], fields, i)
    modifies buf
    ensures HasFields(buf[..], fields, i + 1)
    ensures buf[IMAGE_BYTES_HEADER_LEN..] == old(buf[IMAGE_BYTES_HEADER_LEN..])
  {
    forall j: nat | j <= i
      ensures Le32(Poke32(buf[..], 4 * i, w), 4 * j) == fields[j]
    {
      PokeReads(buf[..], 4 * i, w, 4 * j);
    }
    PutUint32(buf, 4 * i, w);
  }

  method PutImageBytesHeader(buf: array<byte>, errNum: int32, clientTx: word32, serverTx: word32,
                             elem: int32, transmit: int32, rank: int, dim1: int, dim2: int, dim3: int)
    requires buf.Length >= IMAGE_BYTES_HEADER_LEN
    modifies buf
    ensures buf[..] == HeaderBytes(HeaderFields(errNum, clientTx, serverTx, elem, transmit, rank, dim1, dim2, dim3))
                       + old(buf[IMAGE_BYTES_HEADER_LEN..])
  {
    PutFields(buf, HeaderFields(errNum, clientTx, serverTx, elem, transmit, rank, dim1, dim2, dim3));
  }

  method PutFields(buf: array<byte>, fields: Fields)
    requires buf.Length >= IMAGE_BYTES_HEADER_LEN
    modifies buf
    ensures buf[..] == HeaderBytes(fields) + old(buf[IMAGE_BYTES_HEADER_LEN..])
  {
    for i := 0 to 11
      invariant HasFields(buf[..], fields, i)
      invariant buf[IMAGE_BYTES_HEADER_LEN..] == old(buf[IMAGE_BYTES_HEADER_LEN..])
    {
      PutField(buf, i, fields[i], fields);
    }
    HeaderUnique(buf[..], fields);
    assert buf[..] == buf[..IMAGE_BYTES_HEADER_LEN] + buf[IMAGE_BYTES_HEADER_LEN..];
  }

  // ---- encoding ----

  /** The pixel region of the message: columns one after the other for a rank-2 frame. */
  function WirePixels(f: ImageFrame): (wire: seq<byte>)
    ensures |wire| == |f.pixels|
  {
    if f.Transposes() then Transposed(f.pixels, f.height, f.width, ElementSize(f.Transmit())) else f.pixels
  }

  function FrameFields(f: ImageFrame, clientTx: word32, serverTx: word32): Fields {
    HeaderFields(0, clientTx, serverTx, f.elementType, f.Transmit(), f.rank, f.width, f.height, f.planes)
  }

  function Encoded(f: ImageFrame, clientTx: word32, serverTx: word32): seq<byte> {
    HeaderBytes(FrameFields(f, clientTx, serverTx)) + WirePixels(f)
  }

  /** The layout the transport is defined by: the sample of column x and row y is sample x*height+y on the wire. */
  lemma WireOrder(f: ImageFrame, clientTx: word32, serverTx: word32, x: nat, y: nat, j: nat)
    requires f.Transposes()
    requires x < f.width && y < f.height && j < ElementSize(f.Transmit())
    ensures var es, h, w := ElementSize(f.Transmit()), f.height, f.width;
            var wire := Encoded(f, clientTx, serverTx)[IMAGE_BYTES_HEADER_LEN..];
            && Offset(x, y, h, es, j) < |wire| == |f.pixels|
            && Offset(y, x, w, es, j) < |f.pixels|
            && wire[Offset(x, y, h, es, j)] == f.pixels[Offset(y, x, w, es, j)]
  {
    TransposedAt(f.pixels, f.height, f.width, ElementSize(f.Transmit()), y, x, j);
    assert Encoded(f, clientTx, serverTx)[IMAGE_BYTES_HEADER_LEN..] == WirePixels(f);
  }

  method EncodeImageBytesInto(dst: array<byte>, f: ImageFrame, clientTx: word32, serverTx: word32, gomaxprocs: nat)
    requires dst.Length == IMAGE_BYTES_HEADER_LEN + |f.pixels|
    modifies dst
    ensures dst[..] == Encoded(f, clientTx, serverTx)
  {
    var transmit := f.transmissionElementType;
    if transmit == 0 {
      transmit := f.elementType;
    }
    PutImageBytesHeader(dst, 0, clientTx, serverTx, f.elementType, transmit, f.rank, f.width, f.height, f.planes);
    ghost var header := dst[..IMAGE_BYTES_HEADER_LEN];
    var es := ElementSize(transmit);
    if f.rank == 2 && es > 0 && f.width > 0 && f.height > 0 && |f.pixels| == f.width * f.height * es {
      ghost var traces := TransposeInto(dst, IMAGE_BYTES_HEADER_LEN, f.pixels, f.height, f.width, es, gomaxprocs);
    } else {
      Copy(dst, IMAGE_BYTES_HEADER_LEN, f.pixels);
    }
    assert dst[..] == header + dst[IMAGE_BYTES_HEADER_LEN..];
  }

  /** copy(dst[at:], src). */
  method Copy(dst: array<byte>, at: nat, src: seq<byte>)
    requires at + |src| <= dst.Length
    modifies dst
    ensures dst[..] == old(dst[..at]) + src + old(dst[at + |src|..])
  {
    for i := 0 to |src|
      invariant dst[..at] == old(dst[..at]) && dst[at..at + i] == src[..i] && dst[at + i..] == old(dst[at + i..])
    {
      dst[at + i] := src[i];
    }
    assert dst[..] == dst[..at] + dst[at..at + |src|] + dst[at + |src|..];
  }

  /** The error envelope: the header with a non-zero number, then the message. */
  function EncodedError(errNum: int, message: seq<byte>, clientTx: word32, serverTx: word32): seq<byte> {
    HeaderBytes(HeaderFields(ToInt32(errNum), clientTx, serverTx, IMG_UNKNOWN, IMG_UNKNOWN, 0, 0, 0, 0)) + message
  }

  method EncodeImageBytesError(errNum: int, message: seq<byte>, clientTx: word32, serverTx: word32)
    returns (buf: array<byte>)
    ensures fresh(buf) && buf[..] == EncodedError(errNum, message, clientTx, serverTx)
  {
    buf := new byte[IMAGE_BYTES_HEADER_LEN + |message|];
    PutImageBytesHeader(buf, ToInt32(errNum), clientTx, serverTx, IMG_UNKNOWN, IMG_UNKNOWN, 0, 0, 0, 0);
    ghost var header := buf[..IMAGE_BYTES_HEADER_LEN];
    Copy(buf, IMAGE_BYTES_HEADER_LEN, message);
    assert buf[..] == header + message;
  }

  // ---- decoding ----

  /** A frame whose pixels are in wire order, with them back in sensor order. */
  function SensorOrder(f: ImageFrame): ImageFrame {
    if f.Transposes() then
      f.(pixels := Transposed(f.pixels, f.width, f.height, ElementSize(f.Transmit())))
    else
      f
  }

  function DataStart(data: seq<byte>): (start: nat)
    requires |data| >= IMAGE_BYTES_HEADER_LEN
    ensures start <= |data|
  {
    if Le32(data, 16) > |data| then |data| else Le32(data, 16)
  }

  /** The frame the header describes, its pixels as they are on the wire. */
  function WireFrame(data: seq<byte>): ImageFrame
    requires |data| >= IMAGE_BYTES_HEADER_LEN
  {
    ImageFrame(Le32(data, 28), Le32(data, 32), Le32(data, 36), Le32(data, 40),
               ToInt32(Le32(data, 20)), ToInt32(Le32(data, 24)), data[DataStart(data)..])
  }

  function Decode(data: seq<byte>): Decoded {
    if |data| < IMAGE_BYTES_HEADER_LEN then TooShort
    else if ToInt32(Le32(data, 4)) != 0 then DeviceError(ToInt32(Le32(data, 4)), data[DataStart(data)..])
    else Frame(SensorOrder(WireFrame(data)))
  }

  method DecodeImageBytes(data: seq<byte>, gomaxprocs: nat) returns (r: Decoded)
    ensures r == Decode(data)
  {
    if |data| < IMAGE_BYTES_HEADER_LEN {
      return TooShort;
    }
    var errNum := ToInt32(Le32(data, 4));
    var dataStart: nat := Le32(data, 16);
    if dataStart > |data| {
      dataStart := |data|;
    }
    if errNum != 0 {
      return DeviceError(errNum, data[dataStart..]);
    }
    var frame := ImageFrame(Le32(data, 28), Le32(data, 32), Le32(data, 36), Le32(data, 40),
                            ToInt32(Le32(data, 20)), ToInt32(Le32(data, 24)), data[dataStart..]);
    var transmit := frame.transmissionElementType;
    if transmit == 0 {
      transmit := frame.elementType;
    }
    var pixels := data[dataStart..];
    var es := ElementSize(transmit);
    if frame.rank == 2 && es > 0 && frame.width > 0 && frame.height > 0 && |pixels| == frame.width * frame.height * es {
      var dst := TransposeElems(pixels, frame.width, frame.height, es, gomaxprocs);
      frame := frame.(pixels := dst[..]);
    }
    return Frame(frame);
  }

  method TransposeElems(src: seq<byte>, rows: nat, cols: nat, es: nat, gomaxprocs: nat) returns (dst: array<byte>)
    requires |src| == rows * cols * es && es > 0
    ensures fresh(dst) && dst[..] == Transposed(src, rows, cols, es)
  {
    dst := new byte[|src|];
    ghost var traces := TransposeInto(dst, 0, src, rows, cols, es, gomaxprocs);
    assert dst[0..] == dst[..];
  }

  // ---- round trips ----

  predicate IsWord32(x: int) {
    0 <= x < 0x1_0000_0000
  }

  /** What the header has room for. */
  predicate Fits(f: ImageFrame) {
    IsWord32(f.rank) && IsWord32(f.width) && IsWord32(f.height) && IsWord32(f.planes)
  }

  /** A frame that spells its transmission type out. */
  function Normalised(f: ImageFrame): ImageFrame {
    f.(transmissionElementType := f.Transmit())
  }

  lemma SignedThroughWord(x: int32)
    ensures ToInt32(ToWord32(x)) == x
  {
  }

  /** What the header of an encoded frame reads back as. */
  lemma EncodedFields(f: ImageFrame, clientTx: word32, serverTx: word32)
    ensures var data := Encoded(f, clientTx, serverTx);
            && ToInt32(Le32(data, 4)) == 0
            && DataStart(data) == IMAGE_BYTES_HEADER_LEN
            && WireFrame(data)
               == ImageFrame(ToWord32(f.rank), ToWord32(f.width), ToWord32(f.height), ToWord32(f.planes),
                             f.elementType, f.Transmit(), WirePixels(f))
  {
    var fields := FrameFields(f, clientTx, serverTx);
    FieldReads(fields, WirePixels(f));
    SignedThroughWord(f.elementType);
    SignedThroughWord(f.Transmit());
  }

  /** The little-endian word at an offset, spelt out. */
  lemma WordAt(data: seq<byte>, at: nat)
    requires at + 4 <= |data|
    ensures Le32(data, at)
            == data[at] as int + 256 * data[at + 1] as int + 65536 * data[at + 2] as int
               + 16777216 * data[at + 3] as int
  {
  }

  /** Every word of an encoded frame's header, the transaction numbers included, and how its types and sizes are put. */
  lemma EncodedWords(f: ImageFrame, clientTx: word32, serverTx: word32)
    ensures var d := Encoded(f, clientTx, serverTx);
            && |d| == 44 + |f.pixels|
            && Le32(d, 0) == 1 && Le32(d, 4) == 0 && Le32(d, 8) == clientTx && Le32(d, 12) == serverTx
            && Le32(d, 16) == 44
            && ToInt32(Le32(d, 20)) == f.elementType
            && ToInt32(Le32(d, 24)) == (if f.transmissionElementType == 0 then f.elementType
                                        else f.transmissionElementType)
            && Le32(d, 28) == f.rank % 0x1_0000_0000 && Le32(d, 32) == f.width % 0x1_0000_0000
            && Le32(d, 36) == f.height % 0x1_0000_0000 && Le32(d, 40) == f.planes % 0x1_0000_0000
  {
    hide HeaderBytes, Le32, WirePixels;
    FieldReads(FrameFields(f, clientTx, serverTx), WirePixels(f));
    SignedThroughWord(f.elementType);
    SignedThroughWord(f.Transmit());
  }

  /** Every word of an error envelope's header, and the message behind it. */
  lemma ErrorWords(errNum: int, message: seq<byte>, clientTx: word32, serverTx: word32)
    ensures var d := EncodedError(errNum, message, clientTx, serverTx);
            && |d| == 44 + |message| && d[44..] == message
            && Le32(d, 0) == 1 && Le32(d, 4) == errNum % 0x1_0000_0000
            && Le32(d, 8) == clientTx && Le32(d, 12) == serverTx && Le32(d, 16) == 44
            && Le32(d, 20) == 0 && Le32(d, 24) == 0 && Le32(d, 28) == 0 && Le32(d, 32) == 0
            && Le32(d, 36) == 0 && Le32(d, 40) == 0
  {
    var fields := HeaderFields(ToInt32(errNum), clientTx, serverTx, IMG_UNKNOWN, IMG_UNKNOWN, 0, 0, 0, 0);
    hide HeaderBytes, Le32;
    FieldReads(fields, message);
  }

  /**
   * Decoding an encoded frame gives the frame back, transposed, copied and length-mismatched frames alike,
   * exactly when its dimensions fit the header's unsigned words.
   */
  lemma RoundTrip(f: ImageFrame, clientTx: word32, serverTx: word32)
    ensures Decode(Encoded(f, clientTx, serverTx)) == Frame(Normalised(f)) <==> Fits(f)
  {
    EncodedFields(f, clientTx, serverTx);
    if Fits(f) && f.Transposes() {
      TransposedTwice(f.pixels, f.height, f.width, ElementSize(f.Transmit()));
    }
  }

  /** An error envelope gives back its number and message, unless the number is zero in 32 bits. */
  lemma ErrorRoundTrip(errNum: int, message: seq<byte>, clientTx: word32, serverTx: word32)
    ensures Decode(EncodedError(errNum, message, clientTx, serverTx)) ==
            if errNum % 0x1_0000_0000 != 0 then DeviceError(ToInt32(errNum), message)
            else Frame(ImageFrame(0, 0, 0, 0, IMG_UNKNOWN, IMG_UNKNOWN, message))
  {
    var fields := HeaderFields(ToInt32(errNum), clientTx, serverTx, IMG_UNKNOWN, IMG_UNKNOWN, 0, 0, 0, 0);
    FieldReads(fields, message);
    SignedThroughWord(ToInt32(errNum));
  }

  // ---- the header on its own ----

  datatype ImageBytesHeader = ImageBytesHeader(
    errorNumber: int, dataStart: int, elementType: int32, transmissionElementType: int32,
    rank: int, width: int, height: int, planes: int)
  {
    function Transmit(): int32 {
      if transmissionElementType != 0 then transmissionElementType else elementType
    }

    /** How many pixel bytes the header announces. */
    function PixelBytes(): int {
      var es := ElementSize(Transmit());
      if es <= 0 || width <= 0 || height <= 0 then 0
      else
        var p := if rank != 3 || planes <= 0 then 1 else planes;
        width * height * p * es
    }
  }

  datatype ParsedHeader = Header(header: ImageBytesHeader) | HeaderTooShort

  function ParseImageBytesHeader(data: seq<byte>): ParsedHeader {
    if |data| < IMAGE_BYTES_HEADER_LEN then HeaderTooShort
    else
      Header(ImageBytesHeader(
               ToInt32(Le32(data, 4)), Le32(data, 16), ToInt32(Le32(data, 20)), ToInt32(Le32(data, 24)),
               Le32(data, 28), Le32(data, 32), Le32(data, 36), Le32(data, 40)))
  }

  /** A frame whose pixel buffer is as long as its dimensions say. */
  predicate WellFormed(f: ImageFrame) {
    var es := ElementSize(f.Transmit());
    && Fits(f) && es > 0 && f.width > 0 && f.height > 0
    && (f.rank == 2 || (f.rank == 3 && f.planes > 0))
    && |f.pixels| == f.width * f.height * (if f.rank == 3 then f.planes else 1) * es
  }

  /** Parsed before any pixel arrives, the header announces exactly the bytes that follow it. */
  lemma HeaderAnnouncesPixels(f: ImageFrame, clientTx: word32, serverTx: word32)
    requires WellFormed(f)
    ensures var data := Encoded(f, clientTx, serverTx);
            var parsed := ParseImageBytesHeader(data[..IMAGE_BYTES_HEADER_LEN]);
            && parsed.Header?
            && parsed.header == ImageBytesHeader(0, IMAGE_BYTES_HEADER_LEN, f.elementType, f.Transmit(),
                                                 f.rank, f.width, f.height, f.planes)
            && parsed.header.PixelBytes() == |data| - IMAGE_BYTES_HEADER_LEN
  {
    EncodedFields(f, clientTx, serverTx);
    HeaderPrefix(Encoded(f, clientTx, serverTx));
  }

  lemma HeaderPrefix(data: seq<byte>)
    requires |data| >= IMAGE_BYTES_HEADER_LEN
    ensures ParseImageBytesHeader(data[..IMAGE_BYTES_HEADER_LEN]) == ParseImageBytesHeader(data)
  {
    hide Le32, ToInt32;
    forall at: nat | at + 4 <= IMAGE_BYTES_HEADER_LEN
      ensures Le32(data[..IMAGE_BYTES_HEADER_LEN], at) == Le32(data, at)
    {
      PrefixWord(data, at);
    }
  }

  lemma PrefixWord(data: seq<byte>, at: nat)
    requires |data| >= IMAGE_BYTES_HEADER_LEN && at + 4 <= IMAGE_BYTES_HEADER_LEN
    ensures Le32(data[..IMAGE_BYTES_HEADER_LEN], at) == Le32(data, at)
  {
  }
}
