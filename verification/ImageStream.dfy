/** Streaming a camera image into a sink (client/imagestream.go), for any server and any sink. */
module ImageStream {
  import opened Bytes
  import opened ImageBytes

  const STATUS_OK := 200
  const MAX_ERROR_BODY := 65536
  const MAX_JSON_BODY := 0x10_0000

  /** What one request meets: failures before a response, or a response with its body and the way it arrives. */
  datatype Reply =
    | PrepareFails
    | SendFails
    | Response(
        status: int,
        imageBytes: bool,       // the content type names ImageBytes
        errorNumber: seq<byte> -> int, // what encoding/json reads as ErrorNumber, 0 if the bytes do not parse
        data: seq<byte>,        // the body
        cleanEnd: bool,         // it ends with EOF rather than an error
        cut: nat -> nat)        // the read at offset k returns at most 1 + cut(k) bytes

  datatype Call = Header(header: ImageBytesHeader) | Write(p: seq<byte>) | Close

  /** A sink: its answers may depend on everything asked of it before. */
  datatype Sink = Sink(
    acceptsHeader: ImageBytesHeader -> bool,
    accepts: (seq<Call>, seq<byte>) -> bool, // Write takes the whole of p and returns no error
    closes: seq<Call> -> bool)

  datatype Error =
    | Ok | Unstreamable | PrepareError | SendError | RequestError(status: int)
    | DeviceError(number: int, message: seq<byte>)
    | JsonDeviceError(number: int) | HeaderError | PaddingError | SinkRefused | BodyError | CloseError

  /** What a call returns and does: its error, what it asked of the sink, whether it sent a request, and the latch. */
  datatype Outcome = Outcome(err: Error, trace: seq<Call>, sent: bool, latched: bool)

  /** The bytes between the fixed header and the pixels. */
  function Skip(h: ImageBytesHeader): nat {
    if h.dataStart > IMAGE_BYTES_HEADER_LEN then h.dataStart - IMAGE_BYTES_HEADER_LEN else 0
  }

  /** The message after the header of an error envelope, as far as it is read. */
  function DeviceMessage(data: seq<byte>): seq<byte>
    requires |data| >= IMAGE_BYTES_HEADER_LEN
  {
    var message := data[IMAGE_BYTES_HEADER_LEN..];
    if |message| > MAX_ERROR_BODY then message[..MAX_ERROR_BODY] else message
  }

  /** The device error streamRefusedJSON finds: in the part of the body it reads. */
  function RefusalError(r: Reply): int
    requires r.Response?
  {
    r.errorNumber(if |r.data| > MAX_JSON_BODY then r.data[..MAX_JSON_BODY] else r.data)
  }

  function ReadSize(r: Reply, at: nat): (n: nat)
    requires r.Response? && at < |r.data|
    ensures 0 < n && at + n <= |r.data|
  {
    if 1 + r.cut(at) < |r.data| - at then 1 + r.cut(at) else |r.data| - at
  }

  /** io.CopyBuffer from offset `at` on: the sink calls made, and whether the transfer failed. */
  function Copied(r: Reply, sink: Sink, at: nat, trace: seq<Call>): (c: (seq<Call>, bool))
    requires r.Response? && at <= |r.data|
    decreases |r.data| - at
  {
    if at == |r.data| then (trace, !r.cleanEnd)
    else
      var p := r.data[at..at + ReadSize(r, at)];
      if sink.accepts(trace, p) then Copied(r, sink, at + |p|, trace + [Write(p)])
      else (trace + [Write(p)], true)
  }

  /** The transfer of a response that is ImageBytes. */
  function Transferred(r: Reply, sink: Sink): (Error, seq<Call>)
    requires r.Response?
  {
    var front := if |r.data| < IMAGE_BYTES_HEADER_LEN then r.data else r.data[..IMAGE_BYTES_HEADER_LEN];
    var parsed := ParseImageBytesHeader(front);
    if parsed.HeaderTooShort? then (HeaderError, [])
    else
      var h := parsed.header;
      var at := IMAGE_BYTES_HEADER_LEN + Skip(h);
      if h.errorNumber != 0 then (Error.DeviceError(h.errorNumber, DeviceMessage(r.data)), [])
      else if at > |r.data| then (PaddingError, [])
      else if !sink.acceptsHeader(h) then (SinkRefused, [Call.Header(h), Close])
      else
        var (trace, failed) := Copied(r, sink, at, [Call.Header(h)]);
        var err := if failed then BodyError else if sink.closes(trace) then Ok else CloseError;
        (err, trace + [Close])
  }

  /** getImageStream, as a function of the latch, the server and the sink. */
  function Streamed(latched: bool, r: Reply, sink: Sink): Outcome {
    if latched then Outcome(Unstreamable, [], false, true)
    else
      match r
      case PrepareFails => Outcome(PrepareError, [], false, false)
      case SendFails => Outcome(SendError, [], true, false)
      case Response(status, imageBytes, _, _, _, _) =>
        if status != STATUS_OK then Outcome(RequestError(status), [], true, false)
        else if !imageBytes then
          if RefusalError(r) != 0 then Outcome(JsonDeviceError(RefusalError(r)), [], true, false)
          else Outcome(Unstreamable, [], true, true)
        else
          var (err, trace) := Transferred(r, sink);
          Outcome(err, trace, true, false)
  }

  class Device {
    var noStream: bool

    method GetImageStream(r: Reply, sink: Sink) returns (err: Error, trace: seq<Call>, sent: bool)
      modifies this
      ensures Outcome(err, trace, sent, noStream) == Streamed(old(noStream), r, sink)
    {
      trace, sent := [], false;
      if noStream {
        return Unstreamable, trace, sent;
      }
      if r.PrepareFails? {
        return PrepareError, trace, sent;
      }
      sent := true;
      if r.SendFails? {
        return SendError, trace, sent;
      }
      if r.status != STATUS_OK {
        return RequestError(r.status), trace, sent;
      }
      if !r.imageBytes {
        var number := r.errorNumber(if |r.data| > MAX_JSON_BODY then r.data[..MAX_JSON_BODY] else r.data);
        if number != 0 {
          return JsonDeviceError(number), trace, sent;
        }
        noStream := true;
        return Unstreamable, trace, sent;
      }
      err, trace := Transfer(r, sink);
    }
  }

  method Transfer(r: Reply, sink: Sink) returns (err: Error, trace: seq<Call>)
    requires r.Response?
    ensures (err, trace) == Transferred(r, sink)
  {
    hide Copied;
    trace := [];
    if |r.data| < IMAGE_BYTES_HEADER_LEN {
      return HeaderError, trace;
    }
    var hdr := ParseImageBytesHeader(r.data[..IMAGE_BYTES_HEADER_LEN]).header;
    if hdr.errorNumber != 0 {
      return Error.DeviceError(hdr.errorNumber, DeviceMessage(r.data)), trace;
    }
    var at := IMAGE_BYTES_HEADER_LEN;
    var skip := hdr.dataStart - IMAGE_BYTES_HEADER_LEN;
    if skip > 0 {
      if at + skip > |r.data| {
        return PaddingError, trace;
      }
      at := at + skip;
    }
    trace := trace + [Call.Header(hdr)];
    assert trace == [Call.Header(hdr)];
    if !sink.acceptsHeader(hdr) {
      trace := trace + [Close];
      assert trace == [Call.Header(hdr), Close];
      return SinkRefused, trace;
    }
    var failed;
    trace, failed := CopyBody(r, sink, at, trace);
    err := if failed then BodyError else Ok;
    var closed := sink.closes(trace);
    trace := trace + [Close];
    if err == Ok && !closed {
      err := CloseError;
    }
  }

  method CopyBody(r: Reply, sink: Sink, start: nat, before: seq<Call>) returns (trace: seq<Call>, failed: bool)
    requires r.Response? && start <= |r.data|
    ensures (trace, failed) == Copied(r, sink, start, before)
  {
    hide ReadSize;
    var at := start;
    trace, failed := before, false;
    while at < |r.data| && !failed
      invariant start <= at <= |r.data|
      invariant Copied(r, sink, start, before) == if failed then (trace, true) else Copied(r, sink, at, trace)
      decreases !failed, |r.data| - at
    {
      var p := r.data[at..at + ReadSize(r, at)];
      if !sink.accepts(trace, p) {
        failed := true;
      }
      trace := trace + [Write(p)];
      at := at + |p|;
    }
    if !failed && !r.cleanEnd {
      failed := true;
    }
  }

  // ---- the contract with the sink ----

  /** Nothing at all, or Header, then Writes, then one Close. */
  ghost predicate Orderly(trace: seq<Call>) {
    trace == [] ||
    (|trace| >= 2 && trace[0].Header? && trace[|trace| - 1] == Close
     && forall i | 0 < i < |trace| - 1 :: trace[i].Write?)
  }

  /** The bytes the sink was given, in order. */
  function Delivered(trace: seq<Call>): seq<byte> {
    if trace == [] then []
    else
      var last := trace[|trace| - 1];
      Delivered(trace[..|trace| - 1]) + (if last.Write? then last.p else [])
  }

  lemma DeliveredMore(trace: seq<Call>, c: Call)
    ensures Delivered(trace + [c]) == Delivered(trace) + (if c.Write? then c.p else [])
  {
    assert (trace + [c])[..|trace|] == trace;
  }

  /** What copying adds to a header and some writes: more writes, whose bytes are the body's up to offset n. */
  lemma {:induction false} CopiedWrites(r: Reply, sink: Sink, at: nat, trace: seq<Call>) returns (n: nat)
    requires r.Response? && at <= |r.data| && trace != [] && trace[0].Header?
    requires forall i | 0 < i < |trace| :: trace[i].Write?
    ensures var (t, failed) := Copied(r, sink, at, trace);
            && |t| >= |trace| && t[0] == trace[0] && (forall i | 0 < i < |t| :: t[i].Write?)
            && at <= n <= |r.data| && Delivered(t) == Delivered(trace) + r.data[at..n]
            && (!failed ==> r.cleanEnd && n == |r.data|)
    decreases |r.data| - at
  {
    hide ReadSize, Delivered;
    if at == |r.data| {
      n := at;
      assert Delivered(trace) + r.data[at..at] == Delivered(trace);
    } else {
      var next := at + ReadSize(r, at);
      var p := r.data[at..next];
      DeliveredMore(trace, Write(p));
      if sink.accepts(trace, p) {
        n := CopiedWrites(r, sink, next, trace + [Write(p)]);
        Regroup(Delivered(trace), r.data, at, next, n);
      } else {
        n := next;
      }
    }
  }

  lemma Regroup(before: seq<byte>, data: seq<byte>, at: nat, next: nat, n: nat)
    requires at <= next <= n <= |data|
    ensures before + data[at..next] + data[next..n] == before + data[at..n]
  {
  }

  lemma ParsedHeader(data: seq<byte>)
    ensures |data| >= IMAGE_BYTES_HEADER_LEN <==>
            var front := if |data| < IMAGE_BYTES_HEADER_LEN then data else data[..IMAGE_BYTES_HEADER_LEN];
            ParseImageBytesHeader(front).Header?
  {
  }

  /** For every server and every sink: no calls, or Header, Writes and exactly one Close at the end. */
  lemma SinkProtocol(latched: bool, r: Reply, sink: Sink)
    ensures Orderly(Streamed(latched, r, sink).trace)
  {
    hide Copied, ParseImageBytesHeader;
    if r.Response? && |r.data| >= IMAGE_BYTES_HEADER_LEN {
      ParsedHeader(r.data);
      var h := ParseImageBytesHeader(r.data[..IMAGE_BYTES_HEADER_LEN]).header;
      var at := IMAGE_BYTES_HEADER_LEN + Skip(h);
      if at <= |r.data| {
        var _ := CopiedWrites(r, sink, at, [Call.Header(h)]);
      }
    }
  }

  /** The pixel bytes of a whole response as the stream sees them, if it gets that far. */
  function StreamPixels(data: seq<byte>): (p: seq<byte>)
    requires |data| >= IMAGE_BYTES_HEADER_LEN
  {
    var at := IMAGE_BYTES_HEADER_LEN + Skip(ParseImageBytesHeader(data[..IMAGE_BYTES_HEADER_LEN]).header);
    if at > |data| then [] else data[at..]
  }

  /**
   * The error says what went wrong first. A transfer error is returned whatever Close answers; only after every
   * pixel byte was taken and the body ended cleanly does Close's answer count.
   */
  lemma TransferErrorWins(r: Reply, sink: Sink)
    requires Streamed(false, r, sink).trace != []
    ensures var o := Streamed(false, r, sink);
            var before := o.trace[..|o.trace| - 1];
            && |r.data| >= IMAGE_BYTES_HEADER_LEN
            && (o.err in {Ok, CloseError} ==> r.cleanEnd && Delivered(o.trace) == StreamPixels(r.data))
            && (o.err == Ok ==> sink.closes(before))
            && (o.err == CloseError ==> !sink.closes(before))
            && (o.err in {Ok, CloseError, BodyError}
                || (o.err == SinkRefused && !sink.acceptsHeader(o.trace[0].header)))
            && (o.err == BodyError ==> !r.cleanEnd || !Taken(sink, before))
  {
    hide Copied, Delivered, ParseImageBytesHeader, Streamed, Transferred, Taken;
    Begun(r, sink);
    var h := ParseImageBytesHeader(r.data[..IMAGE_BYTES_HEADER_LEN]).header;
    var at := IMAGE_BYTES_HEADER_LEN + Skip(h);
    if sink.acceptsHeader(h) {
      var n := CopiedWrites(r, sink, at, [Call.Header(h)]);
      NothingTakenYet(sink, h);
      CopiedTaken(r, sink, at, [Call.Header(h)]);
      var (t, failed) := Copied(r, sink, at, [Call.Header(h)]);
      DeliveredMore(t, Close);
      assert (t + [Close])[..|t|] == t;
      assert !failed ==> Delivered(t) == [] + r.data[at..n] == r.data[at..];
    }
  }

  lemma NothingTakenYet(sink: Sink, h: ImageBytesHeader)
    ensures Taken(sink, [Call.Header(h)]) && Delivered([Call.Header(h)]) == []
  {
    DeliveredMore([], Call.Header(h));
    assert [] + [Call.Header(h)] == [Call.Header(h)];
  }

  /** How a transfer that asks anything of its sink goes on. */
  lemma Begun(r: Reply, sink: Sink)
    requires Streamed(false, r, sink).trace != []
    ensures r.Response? && |r.data| >= IMAGE_BYTES_HEADER_LEN
    ensures ParseImageBytesHeader(r.data[..IMAGE_BYTES_HEADER_LEN]).Header?
    ensures var h := ParseImageBytesHeader(r.data[..IMAGE_BYTES_HEADER_LEN]).header;
            var at := IMAGE_BYTES_HEADER_LEN + Skip(h);
            var o := Streamed(false, r, sink);
            && at <= |r.data|
            && (!sink.acceptsHeader(h) ==> o.err == SinkRefused && o.trace == [Call.Header(h), Close])
            && (sink.acceptsHeader(h) ==>
                  var (t, failed) := Copied(r, sink, at, [Call.Header(h)]);
                  && o.trace == t + [Close]
                  && o.err == if failed then BodyError else if sink.closes(t) then Ok else CloseError)
  {
    hide Copied;
  }

  /** The sink took every Write. */
  ghost predicate Taken(sink: Sink, trace: seq<Call>) {
    forall i | 0 <= i < |trace| && trace[i].Write? :: sink.accepts(trace[..i], trace[i].p)
  }

  lemma {:induction false} CopiedTaken(r: Reply, sink: Sink, at: nat, trace: seq<Call>)
    requires r.Response? && at <= |r.data| && Taken(sink, trace)
    ensures var (t, failed) := Copied(r, sink, at, trace); failed <==> (!r.cleanEnd || !Taken(sink, t))
    decreases |r.data| - at
  {
    if at < |r.data| {
      var p := r.data[at..at + ReadSize(r, at)];
      var more := trace + [Write(p)];
      assert more[..|trace|] == trace;
      assert forall i | 0 <= i < |trace| :: more[..i] == trace[..i];
      if sink.accepts(trace, p) {
        CopiedTaken(r, sink, at + |p|, more);
      } else {
        assert !Taken(sink, more);
      }
    }
  }

  // ---- the latch ----

  /** The latch after a run of calls. */
  function Latch(latched: bool, calls: seq<(Reply, Sink)>): bool
    decreases calls
  {
    if calls == [] then latched else Latch(Streamed(latched, calls[0].0, calls[0].1).latched, calls[1..])
  }

  /** A successful answer that is not ImageBytes. */
  predicate AnswersJson(r: Reply) {
    r.Response? && r.status == 200 && !r.imageBytes
  }

  /** Such an answer in whose first MiB no device error is found. */
  predicate Refuses(r: Reply) {
    AnswersJson(r) && RefusalError(r) == 0
  }

  /** The latch is set by a refused negotiation and by nothing else. */
  lemma {:induction false} LatchedByRefusal(calls: seq<(Reply, Sink)>)
    ensures Latch(false, calls) <==> exists i :: 0 <= i < |calls| && Refuses(calls[i].0)
    decreases calls
  {
    if calls != [] {
      if Refuses(calls[0].0) {
        StaysLatched(calls[1..]);
      } else {
        LatchedByRefusal(calls[1..]);
        assert forall i | 0 <= i < |calls| - 1 :: calls[1..][i] == calls[i + 1];
      }
    }
  }

  lemma {:induction false} StaysLatched(calls: seq<(Reply, Sink)>)
    ensures Latch(true, calls)
    decreases calls
  {
    if calls != [] {
      StaysLatched(calls[1..]);
    }
  }

  /**
   * A JSON device error sets the latch if and only if its number is lost with what is not read of the body; in a body
   * of at most one MiB nothing is lost.
   */
  lemma DeviceErrorLatches(r: Reply, sink: Sink)
    requires AnswersJson(r) && r.errorNumber(r.data) != 0
    ensures var o := Streamed(false, r, sink);
            && (o.latched <==> RefusalError(r) == 0)
            && (|r.data| <= 0x10_0000 ==> !o.latched && o.err == JsonDeviceError(r.errorNumber(r.data)))
  {
  }

  const BRACE: byte := 125

  /** No text is an object without its closing brace. */
  ghost predicate NeedsBrace(errorNumber: seq<byte> -> int) {
    forall text: seq<byte> | BRACE !in text :: errorNumber(text) == 0
  }

  /** A device error whose message alone fills the part that is read sets the latch, whatever the error is. */
  lemma LongDeviceErrorLatches(r: Reply, sink: Sink, before: seq<byte>, message: seq<byte>, after: seq<byte>)
    requires AnswersJson(r) && r.errorNumber(r.data) != 0 && NeedsBrace(r.errorNumber)
    requires r.data == before + message + after && |message| >= 0x10_0000 && after != []
    requires BRACE !in before && BRACE !in message
    ensures Streamed(false, r, sink) == Outcome(Unstreamable, [], true, true)
  {
    var text := r.data[..MAX_JSON_BODY];
    assert text == (before + message)[..MAX_JSON_BODY];
    assert BRACE !in text;
  }

  /** Failures before a body is looked at: nothing is asked of the sink, and the next call tries again. */
  lemma NoBody(r: Reply, sink: Sink)
    ensures var o := Streamed(false, r, sink);
            && (r.PrepareFails? ==> o == Outcome(PrepareError, [], false, false))
            && (r.SendFails? ==> o == Outcome(SendError, [], true, false))
            && (r.Response? && r.status != 200 ==> o == Outcome(RequestError(r.status), [], true, false))
            && (r.Response? && r.status == 200 && r.imageBytes && |r.data| < 44 ==>
                  o == Outcome(HeaderError, [], true, false))
  {
  }

  /**
   * An error envelope is reported with its number and the first 64 KiB of its message, and asks nothing of the sink; if
   * the number is zero in 32 bits it is no error envelope.
   */
  lemma EnvelopeReported(r: Reply, sink: Sink, number: int, message: seq<byte>, clientTx: word32, serverTx: word32)
    requires r.Response? && r.status == 200 && r.imageBytes && number % 0x1_0000_0000 != 0
    requires r.data == EncodedError(number, message, clientTx, serverTx)
    ensures Streamed(false, r, sink) ==
            Outcome(Error.DeviceError(ToInt32(number), if |message| <= 65536 then message else message[..65536]), [],
                    true, false)
  {
    hide Copied, EncodedError, Le32;
    ErrorWords(number, message, clientTx, serverTx);
    HeaderPrefix(r.data);
    SameWord(number, Le32(r.data, 4));
  }

  lemma SameWord(number: int, w: word32)
    requires w == number % 0x1_0000_0000
    ensures ToInt32(w) == ToInt32(number) && (number % 0x1_0000_0000 != 0 ==> ToInt32(number) != 0)
  {
  }

  /** After one refused negotiation no later call sends a request or touches its sink. */
  lemma NoRequestAfterRefusal(before: seq<(Reply, Sink)>, i: nat, r: Reply, sink: Sink)
    requires i < |before| && Refuses(before[i].0)
    ensures var o := Streamed(Latch(false, before), r, sink);
            !o.sent && o.trace == [] && o.err == Unstreamable
  {
    LatchedByRefusal(before);
  }

  // ---- the stream and the buffered decoder ----

  /**
   * A stream that succeeds delivers the bytes the buffered decoder takes for pixels exactly when the data start
   * lies between the end of the fixed header and the end of the message.
   */
  lemma StreamMatchesDecode(r: Reply, sink: Sink)
    requires r.Response? && r.status == STATUS_OK && r.imageBytes && |r.data| >= IMAGE_BYTES_HEADER_LEN
    ensures var o := Streamed(false, r, sink);
            var start := Le32(r.data, 16);
            && (o.err == Ok ==>
                  (Delivered(o.trace) == r.data[DataStart(r.data)..] <==> IMAGE_BYTES_HEADER_LEN <= start <= |r.data|))
            && (start > |r.data| && ToInt32(Le32(r.data, 4)) == 0 ==> o.err == PaddingError)
  {
    hide Copied, Delivered, Le32;
    HeaderPrefix(r.data);
    if Streamed(false, r, sink).trace != [] {
      TransferErrorWins(r, sink);
    }
  }
}
