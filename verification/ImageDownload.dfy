/** A streamed download (client/imagestream.go) into the sinks of its tests (client/imagestream_test.go), end to end. */
module ImageDownload {
  import opened Bytes
  import opened ImageBytes
  import opened ImageStream
  import opened Sinks

  /** How u16Sink answers: Header takes two-byte samples, Write and Close never fail. */
  const U16_ANSWERS := Sink((h: ImageBytesHeader) => ElementSize(h.Transmit()) == 2, (trace, p) => true, trace => true)

  lemma {:induction false} DeliveredGrows(trace: seq<ImageStream.Call>, i: nat)
    requires i <= |trace|
    ensures Delivered(trace[..i]) <= Delivered(trace)
  {
    if i == |trace| {
      assert trace[..i] == trace;
    } else {
      var n := |trace| - 1;
      DeliveredGrows(trace[..n], i);
      assert trace[..n][..i] == trace[..i];
    }
  }

  lemma DeliveredNext(trace: seq<ImageStream.Call>, i: nat)
    requires i < |trace| && trace[i].Write?
    ensures Delivered(trace[..i + 1]) == Delivered(trace[..i]) + trace[i].p
    ensures |Delivered(trace[..i])| + |trace[i].p| <= |Delivered(trace)|
  {
    assert trace[..i + 1] == trace[..i] + [trace[i]];
    DeliveredMore(trace[..i], trace[i]);
    DeliveredGrows(trace, i + 1);
  }

  lemma DeliveredEnds(trace: seq<ImageStream.Call>)
    requires Orderly(trace) && trace != []
    ensures Delivered(trace[..1]) == [] && Delivered(trace[..|trace| - 1]) == Delivered(trace)
  {
    assert trace[..1][..0] == [];
  }

  /** The calls of a download, made on a sink, by one Write of the repository or the other. */
  method CarryOut(sink: U16Sink, trace: seq<ImageStream.Call>, parallel: bool, gomaxprocs: nat)
    requires sink.held == 0 && sink.x == 0 && sink.y == 0 && sink.carry.Length == 8
    requires Orderly(trace)
    requires trace != [] ==>
               var h := trace[0].header;
               && h.width >= 0 && h.height >= 0
               && (ElementSize(h.Transmit()) == 2 ==> Roomy(|Delivered(trace)| / 2, h.width, h.height, parallel))
               && (ElementSize(h.Transmit()) != 2 ==> |trace| == 2)
    modifies sink, sink.pix, sink.carry
    ensures trace != [] && ElementSize(trace[0].header.Transmit()) == 2 ==>
              && sink.Valid() && sink.received == Delivered(trace)
              && sink.w == trace[0].header.width && sink.h == trace[0].header.height
  {
    hide Delivered;
    if trace == [] {
      return;
    }
    var ok := sink.Header(trace[0].header);
    if !ok {
      return;
    }
    DeliveredEnds(trace);
    for i := 1 to |trace| - 1
      invariant sink.Valid() && sink.received == Delivered(trace[..i])
      invariant sink.w == trace[0].header.width && sink.h == trace[0].header.height
      invariant sink.carry == old(sink.carry) && fresh(sink.pix)
    {
      DeliveredNext(trace, i);
      if parallel {
        sink.ParWrite(trace[i].p, gomaxprocs);
      } else {
        sink.Write(trace[i].p);
      }
    }
  }

  /** A response whose pixel bytes are streamed: it has a header that fits the sink, no error, and the pixels' start. */
  predicate Streams(r: Reply) {
    && r.Response? && r.status == STATUS_OK && r.imageBytes && |r.data| >= IMAGE_BYTES_HEADER_LEN
    && ToInt32(Le32(r.data, 4)) == 0
    && ElementSize(WireFrame(r.data).Transmit()) == 2
    && Le32(r.data, 16) <= |r.data|
  }

  /**
   * Every sample that comes has a place in the array announced, or u16Sink would index past its end; and one of its own
   * if goroutines place them, or they would race for it.
   */
  predicate HasRoom(r: Reply, parallel: bool) {
    Streams(r) ==>
      Roomy(|StreamPixels(r.data)| / 2, WireFrame(r.data).width, WireFrame(r.data).height, parallel)
  }

  /** A sink that never refuses is given everything that arrives, however it ends. */
  lemma {:induction false} CopiedAll(r: Reply, at: nat, trace: seq<ImageStream.Call>)
    requires r.Response? && at <= |r.data|
    ensures var (t, failed) := Copied(r, U16_ANSWERS, at, trace);
            trace <= t && Delivered(t) == Delivered(trace) + r.data[at..] && (failed <==> !r.cleanEnd)
    decreases |r.data| - at
  {
    hide ReadSize, Delivered;
    if at == |r.data| {
      assert Delivered(trace) + r.data[at..] == Delivered(trace);
    } else {
      var next := at + ReadSize(r, at);
      var p := r.data[at..next];
      DeliveredMore(trace, Write(p));
      CopiedAll(r, next, trace + [Write(p)]);
      assert Delivered(trace) + p + r.data[next..] == Delivered(trace) + r.data[at..];
    }
  }

  lemma HeaderDelivers(h: ImageBytesHeader)
    ensures Delivered([ImageStream.Call.Header(h)]) == []
  {
    assert [ImageStream.Call.Header(h)][..0] == [];
  }

  /** What the sink is asked for such a response: the frame's header, then everything from the data start on. */
  lemma DownloadTrace(r: Reply)
    requires Streams(r)
    ensures var o := Streamed(false, r, U16_ANSWERS);
            var f := WireFrame(r.data);
            && o.trace != [] && Orderly(o.trace) && ElementSize(o.trace[0].header.Transmit()) == 2
            && o.trace[0].header.width == f.width >= 0 && o.trace[0].header.height == f.height >= 0
            && Delivered(o.trace) == StreamPixels(r.data)
            && o.err == (if r.cleanEnd then Ok else BodyError) && !o.latched
  {
    hide Copied, Delivered, ReadSize, Le32;
    SinkProtocol(false, r, U16_ANSWERS);
    HeaderPrefix(r.data);
    var h := ParseImageBytesHeader(r.data[..IMAGE_BYTES_HEADER_LEN]).header;
    var at := IMAGE_BYTES_HEADER_LEN + Skip(h);
    Begun(r, U16_ANSWERS);
    CopiedAll(r, at, [ImageStream.Call.Header(h)]);
    var (t, failed) := Copied(r, U16_ANSWERS, at, [ImageStream.Call.Header(h)]);
    DeliveredMore(t, Close);
    HeaderDelivers(h);
    assert [] + r.data[at..] == r.data[at..];
  }

  /** Any other response leaves the sink without a byte, and is an error. */
  lemma NoDownload(r: Reply)
    requires !Streams(r)
    ensures var o := Streamed(false, r, U16_ANSWERS);
            && o.err != Ok && Orderly(o.trace)
            && (o.trace != [] ==>
                  |o.trace| == 2 && ElementSize(o.trace[0].header.Transmit()) != 2
                  && o.trace[0].header.width >= 0 && o.trace[0].header.height >= 0)
  {
    hide Copied, Le32;
    var o := Streamed(false, r, U16_ANSWERS);
    if o.trace != [] {
      Begun(r, U16_ANSWERS);
      HeaderPrefix(r.data);
      Begins(r);
    }
  }

  /** A transfer that gets as far as asking the sink is one that streams, if the sink takes its header. */
  lemma Begins(r: Reply)
    requires Streamed(false, r, U16_ANSWERS).trace != []
    ensures r.Response? && |r.data| >= IMAGE_BYTES_HEADER_LEN
    ensures ElementSize(ParseImageBytesHeader(r.data[..IMAGE_BYTES_HEADER_LEN]).header.Transmit()) == 2 ==> Streams(r)
  {
    hide Copied, Le32;
    if r.Response? && |r.data| >= IMAGE_BYTES_HEADER_LEN {
      HeaderPrefix(r.data);
    }
  }

  /** The sink holds what buffering the whole message and decoding it would give. */
  ghost predicate HoldsDecoded(pix: seq<word16>, r: Reply)
    requires r.Response?
  {
    Decode(r.data).Frame? && pix == Widened(Decode(r.data).frame.pixels)
  }

  /** All announced pixel bytes came, or one more than these, of a picture that is its own transpose. */
  ghost predicate Complete(f: ImageFrame)
    requires f.width >= 0 && f.height >= 0
  {
    var n := 2 * (f.width * f.height);
    |f.pixels| == n || (|f.pixels| == n + 1 && Image(f.pixels, f.width, f.height) == Widened(f.pixels))
  }

  /** For a rank-2 message, exactly when it is complete: one of any other length is not even transposed. */
  lemma DecodedWhenComplete(r: Reply)
    requires Streams(r) && WireFrame(r.data).rank == 2 && Le32(r.data, 16) >= IMAGE_BYTES_HEADER_LEN
    ensures var f := WireFrame(r.data);
            && StreamPixels(r.data) == f.pixels
            && (HoldsDecoded(Image(f.pixels, f.width, f.height), r) <==> Complete(f))
  {
    HeaderPrefix(r.data);
    var f := WireFrame(r.data);
    assert StreamPixels(r.data) == f.pixels;
    if |f.pixels| == 2 * (f.width * f.height) {
      if f.Transposes() {
        ImageOfWire(f.pixels, f.width, f.height);
      } else {
        NoArea(f.width, f.height);
        assert f.pixels == [] && Image(f.pixels, f.width, f.height) == Widened([]);
      }
    } else {
      OtherLength(f);
    }
  }

  lemma NoArea(w: nat, h: nat)
    ensures w == 0 || h == 0 <==> w * h == 0
  {
  }

  lemma OtherLength(f: ImageFrame)
    requires f.width >= 0 && f.height >= 0 && |f.pixels| != 2 * (f.width * f.height)
    requires ElementSize(f.Transmit()) == 2
    ensures SensorOrder(f) == f
    ensures |Widened(f.pixels)| == |Image(f.pixels, f.width, f.height)| ==> |f.pixels| == 2 * (f.width * f.height) + 1
  {
  }

  /**
   * For every response, with room unless streaming was refused before, every way its body arrives and either sink
   * with any number of workers. The download succeeds if and only if streaming was not refused before, the response is
   * one that streams, and its body ends cleanly, at whatever length. The sink then holds all bytes that arrived, and
   * these are the decoded picture if and only if they are as many as announced, an odd byte at the end aside.
   */
  method Download(device: Device, r: Reply, sink: U16Sink, parallel: bool, gomaxprocs: nat)
    returns (err: ImageStream.Error)
    requires device.noStream || HasRoom(r, parallel)
    requires sink.held == 0 && sink.x == 0 && sink.y == 0 && sink.carry.Length == 8
    modifies device, sink, sink.pix, sink.carry
    ensures err == Streamed(old(device.noStream), r, U16_ANSWERS).err
    ensures device.noStream == Streamed(old(device.noStream), r, U16_ANSWERS).latched
    ensures err == Ok <==> !old(device.noStream) && Streams(r) && r.cleanEnd
    ensures !old(device.noStream) && Streams(r) ==>
              var f := WireFrame(r.data);
              sink.received == StreamPixels(r.data) && sink.pix[..] == Image(sink.received, f.width, f.height)
    ensures !old(device.noStream) && Streams(r) && WireFrame(r.data).rank == 2
            && Le32(r.data, 16) >= IMAGE_BYTES_HEADER_LEN ==>
              var f := WireFrame(r.data);
              HoldsDecoded(sink.pix[..], r) <==> Complete(f)
  {
    hide Streamed, Decode, WireFrame, Image, StreamPixels, HoldsDecoded, Complete, Le32, Delivered, InBounds;
    var latched := device.noStream;
    var trace, sent;
    err, trace, sent := device.GetImageStream(r, U16_ANSWERS);
    if latched {
      Latched(r);
    } else if Streams(r) {
      DownloadTrace(r);
      if WireFrame(r.data).rank == 2 && Le32(r.data, 16) >= IMAGE_BYTES_HEADER_LEN {
        DecodedWhenComplete(r);
      }
    } else {
      NoDownload(r);
    }
    CarryOut(sink, trace, parallel, gomaxprocs);
  }

  lemma Latched(r: Reply)
    ensures Streamed(true, r, U16_ANSWERS) == Outcome(Unstreamable, [], false, true)
  {
  }

  /**
   * An encoded frame cut short anywhere behind its header and ended cleanly streams without an error, though fewer
   * bytes came than its header announces.
   */
  lemma TruncatedSucceeds(f: ImageFrame, clientTx: word32, serverTx: word32, r: Reply, n: nat)
    requires WellFormed(f) && ElementSize(f.Transmit()) == 2 && n < |f.pixels|
    requires r.Response? && r.status == STATUS_OK && r.imageBytes && r.cleanEnd
    requires r.data == Encoded(f, clientTx, serverTx)[..IMAGE_BYTES_HEADER_LEN + n]
    ensures var o := Streamed(false, r, U16_ANSWERS);
            && o.err == Ok && o.trace != [] && o.trace[0].Header?
            && |Delivered(o.trace)| == n < o.trace[0].header.PixelBytes()
  {
    hide Encoded, Streamed, Delivered, ParseImageBytesHeader, Streams, StreamPixels;
    var whole := Encoded(f, clientTx, serverTx);
    HeaderAnnouncesPixels(f, clientTx, serverTx);
    EncodedLength(f, clientTx, serverTx);
    assert r.data[..IMAGE_BYTES_HEADER_LEN] == whole[..IMAGE_BYTES_HEADER_LEN];
    HeaderStreams(r, f.Transmit());
    DownloadTrace(r);
    Begun(r, U16_ANSWERS);
    BeginsWithHeader(r);
  }

  /**
   * A body with more samples than pixels, but less than a column more, streams without an error too: the first of the
   * samples too many takes the place of the one below the first.
   */
  lemma OverlongSucceeds(r: Reply)
    requires Streams(r) && r.cleanEnd && HasRoom(r, false)
    requires |StreamPixels(r.data)| / 2 > WireFrame(r.data).width * WireFrame(r.data).height
    ensures var f, pixels := WireFrame(r.data), StreamPixels(r.data);
            && Streamed(false, r, U16_ANSWERS).err == Ok
            && 0 < f.width < f.width * f.height
            && Image(pixels, f.width, f.height)[f.width] == Le16(pixels, 2 * (f.width * f.height))
  {
    hide Streamed, WireFrame, StreamPixels, Le16, Le32, Delivered;
    DownloadTrace(r);
    var f := WireFrame(r.data);
    FirstBeyond(StreamPixels(r.data), f.width, f.height);
  }

  lemma FirstBeyond(pixels: seq<byte>, w: nat, h: nat)
    requires InBounds(|pixels| / 2, w, h) && |pixels| / 2 > w * h
    ensures 0 < w < w * h && Image(pixels, w, h)[w] == Le16(pixels, 2 * (w * h))
  {
    PixelBeyond(0, w, h);
  }

  lemma EncodedLength(f: ImageFrame, clientTx: word32, serverTx: word32)
    ensures |Encoded(f, clientTx, serverTx)| == IMAGE_BYTES_HEADER_LEN + |f.pixels|
  {
  }

  lemma HeaderStreams(r: Reply, t: int32)
    requires r.Response? && r.status == STATUS_OK && r.imageBytes && |r.data| >= IMAGE_BYTES_HEADER_LEN
    requires ElementSize(t) == 2
    requires var parsed := ParseImageBytesHeader(r.data[..IMAGE_BYTES_HEADER_LEN]);
             && parsed.Header? && parsed.header.errorNumber == 0 && parsed.header.dataStart == IMAGE_BYTES_HEADER_LEN
             && parsed.header.Transmit() == t
    ensures Streams(r) && |StreamPixels(r.data)| == |r.data| - IMAGE_BYTES_HEADER_LEN
  {
    hide Le32;
    HeaderPrefix(r.data);
  }

  /** The first call hands over the header that was parsed. */
  lemma BeginsWithHeader(r: Reply)
    requires Streams(r)
    ensures var o := Streamed(false, r, U16_ANSWERS);
            && o.trace != []
            && o.trace[0] == ImageStream.Call.Header(ParseImageBytesHeader(r.data[..IMAGE_BYTES_HEADER_LEN]).header)
  {
    hide Copied, Le32, Delivered, ReadSize;
    HeaderPrefix(r.data);
    var h := ParseImageBytesHeader(r.data[..IMAGE_BYTES_HEADER_LEN]).header;
    var n := CopiedWrites(r, U16_ANSWERS, IMAGE_BYTES_HEADER_LEN + Skip(h), [ImageStream.Call.Header(h)]);
  }
}
