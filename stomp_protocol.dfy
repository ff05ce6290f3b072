/**
 * `StompProtocolHandler`: the channel interceptor that makes outbound STOMP frames end
 * with a NUL byte, and its byte-array utility. A message is its payload and, when it
 * carries them, its STOMP headers.
 */
module StompProtocol {
  import opened Wrappers
  import opened StompFrame
  import Utf8

  type byte = Utf8.byte

  /** The payload ends with the byte 0. */
  predicate NulTerminated(b: seq<byte>)
  {
    b != [] && b[|b| - 1] == 0
  }

  /**
   * `ensureStompFrameTermination(byte[])` on the array's contents: empty contents stay
   * as they are; otherwise they end with 0, keep the original as a prefix and grow by
   * at most the one byte.
   */
  function TerminatedBytes(s: seq<byte>): (r: seq<byte>)
    ensures s == [] ==> r == []
    ensures s != [] ==> NulTerminated(r) && |s| <= |r| <= |s| + 1 && r[..|s|] == s
    ensures NulTerminated(s) ==> r == s
  {
    if s == [] || s[|s| - 1] == 0 then s else s + [0]
  }

  /** Terminating twice is terminating once. */
  lemma TerminatedBytesIdempotent(s: seq<byte>)
    ensures TerminatedBytes(TerminatedBytes(s)) == TerminatedBytes(s)
  {
    if s != [] {
      assert NulTerminated(TerminatedBytes(s));
    }
  }

  /** The text and the byte versions agree: terminating text and then encoding it is encoding and then terminating the bytes. */
  lemma TerminationCommutes(frame: string)
    ensures Utf8.Encode(StompFrame.EnsureStompFrameTermination(Some(frame)).value) == TerminatedBytes(Utf8.Encode(frame))
  {
    if frame != [] {
      Utf8.EncodeLastByte(frame);
      Utf8.EncodeAppendNul(frame);
    }
  }

  /**
   * `ensureStompFrameTermination(byte[])`: null and empty arrays, and arrays already
   * ending in 0, are returned as they are; otherwise a new array one longer holds a
   * copy followed by 0.
   */
  method EnsureStompFrameTermination(frameBytes: array?<byte>) returns (r: array?<byte>)
    ensures frameBytes == null <==> r == null
    ensures frameBytes != null ==> r[..] == TerminatedBytes(frameBytes[..])
    ensures frameBytes != null && !NulTerminated(frameBytes[..]) && frameBytes.Length > 0 ==> fresh(r)
    ensures frameBytes != null && (frameBytes.Length == 0 || NulTerminated(frameBytes[..])) ==> r == frameBytes
  {
    if frameBytes == null || frameBytes.Length == 0 {
      return frameBytes;
    }
    if frameBytes[frameBytes.Length - 1] != 0 {
      var terminated := new byte[frameBytes.Length + 1];
      var i := 0;
      while i < frameBytes.Length
        invariant 0 <= i <= frameBytes.Length
        invariant terminated[..i] == frameBytes[..i]
      {
        terminated[i] := frameBytes[i];
        i := i + 1;
      }
      terminated[frameBytes.Length] := 0;
      assert terminated[..] == terminated[..frameBytes.Length] + [0];
      return terminated;
    }
    return frameBytes;
  }

  /** The STOMP headers of a message, as `StompHeaderAccessor` reads and sets them; `others` are the remaining native headers. */
  datatype StompHeaders = StompHeaders(command: Option<StompCommand>, destination: Option<string>,
                                       contentType: Option<string>, contentLength: Option<int>, others: seq<Header>)

  /** A message payload: a byte array, a string, or anything else. */
  datatype Payload = Bytes(bytes: seq<byte>) | Text(text: string) | OtherPayload

  /** A message on the outbound channel; `headers` is `None` when it has no STOMP headers. */
  datatype ChannelMessage = ChannelMessage(payload: Payload, headers: Option<StompHeaders>)

  /** Payloads `preSend` terminates: a byte array or string not yet ending in NUL. */
  predicate Unterminated(p: Payload)
  {
    match p
    case Bytes(b) => !NulTerminated(b)
    case Text(t) => !EndsWithNul(t)
    case OtherPayload => false
  }

  /**
   * The messages `preSend` passes on as they are: those without STOMP headers, those
   * whose payload needs no terminator, and those whose command is neither MESSAGE nor
   * (for byte payloads) CONNECTED or ERROR.
   */
  predicate Settled(m: ChannelMessage)
  {
    m.headers.None?
    || ((m.headers.value.command == Some(StompCommand.Message) ==> !Unterminated(m.payload))
        && (m.headers.value.command == Some(Connected) || m.headers.value.command == Some(StompCommand.Error) ==>
              !(m.payload.Bytes? && Unterminated(m.payload))))
  }

  /**
   * `preSend`. A MESSAGE frame whose payload lacks the final NUL gets it appended (a
   * string payload is encoded to UTF-8 first), and new headers: the command, the
   * destination and content type when present, and a content-length one less than the
   * new payload's length; other headers are not carried over. A CONNECTED or ERROR
   * frame with an unterminated byte payload gets the 0 byte appended and keeps its
   * headers. Anything else passes through. The result is settled, so a second pass
   * changes nothing.
   */
  method PreSend(message: ChannelMessage) returns (r: ChannelMessage)
    ensures Settled(message) ==> r == message
    ensures Settled(r)
    ensures !Settled(message) ==> r.payload.Bytes? && NulTerminated(r.payload.bytes)
    ensures !Settled(message) && message.headers.value.command == Some(StompCommand.Message) ==>
              var h := message.headers.value;
              var b := r.payload.bytes;
              r.headers == Some(StompHeaders(Some(StompCommand.Message), h.destination, h.contentType, Some(|b| - 1), []))
              && b[..|b| - 1] == (if message.payload.Bytes? then message.payload.bytes else Utf8.Encode(message.payload.text))
    ensures !Settled(message) && message.headers.value.command != Some(StompCommand.Message) ==>
              r == message.(payload := Bytes(message.payload.bytes + [0]))
  {
    r := message;
    if message.headers.Some? {
      var accessor := message.headers.value;
      if accessor.command == Some(StompCommand.Message) {
        match message.payload
        case Bytes(b) =>
          if !NulTerminated(b) {
            var terminated := b + [0];
            r := ChannelMessage(Bytes(terminated), Some(MessageHeaders(accessor, |terminated| - 1)));
          }
        case Text(t) =>
          if !EndsWithNul(t) {
            Utf8.EncodeAppendNul(t);
            var terminated := Utf8.Encode(t + "\0");
            r := ChannelMessage(Bytes(terminated), Some(MessageHeaders(accessor, |terminated| - 1)));
          }
        case OtherPayload =>
      } else if accessor.command == Some(Connected) || accessor.command == Some(StompCommand.Error) {
        if message.payload.Bytes? && !NulTerminated(message.payload.bytes) {
          r := message.(payload := Bytes(message.payload.bytes + [0]));
        }
      }
    }
  }

  /** The headers `preSend` builds for a re-terminated MESSAGE frame. */
  function MessageHeaders(accessor: StompHeaders, contentLength: int): StompHeaders
  {
    StompHeaders(Some(StompCommand.Message), accessor.destination, accessor.contentType, Some(contentLength), [])
  }

  /**
   * For a string payload the content-length `preSend` sets is the string's UTF-8
   * length, and the new payload is the encoding of the string followed by NUL.
   */
  lemma TextContentLength(t: string)
    ensures |Utf8.Encode(t + "\0")| - 1 == Utf8.Length(t)
    ensures Utf8.Encode(t + "\0") == Utf8.Encode(t) + [0]
  {
    Utf8.EncodeAppendNul(t);
  }
}
