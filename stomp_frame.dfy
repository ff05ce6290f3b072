/**
 * `StompFrameHandler`'s frame utilities: making sure a text frame ends with the NUL
 * byte the STOMP Protocol Specification 1.2 ("Augmented BNF", the `frame` rule)
 * requires, and writing a frame out as text: the command line, header lines, a blank
 * line, the body and the NUL.
 */
module StompFrame {
  import opened Wrappers
  import opened Strings
  import Utf8

  /** Spring's `StompCommand`. */
  datatype StompCommand =
    | Stomp | Connect | Disconnect | Subscribe | Unsubscribe | Send | Ack | Nack
    | Begin | Commit | Abort | Connected | Receipt | Message | Error

  /** `command.name()`. */
  function CommandName(c: StompCommand): (r: string)
    ensures r != [] && NoNewline(r)
  {
    match c
    case Stomp => "STOMP"
    case Connect => "CONNECT"
    case Disconnect => "DISCONNECT"
    case Subscribe => "SUBSCRIBE"
    case Unsubscribe => "UNSUBSCRIBE"
    case Send => "SEND"
    case Ack => "ACK"
    case Nack => "NACK"
    case Begin => "BEGIN"
    case Commit => "COMMIT"
    case Abort => "ABORT"
    case Connected => "CONNECTED"
    case Receipt => "RECEIPT"
    case Message => "MESSAGE"
    case Error => "ERROR"
  }

  predicate EndsWithNul(s: string)
  {
    s != [] && s[|s| - 1] == '\0'
  }

  /**
   * `ensureStompFrameTermination(String)`: a null or empty frame is returned as is;
   * otherwise the frame ends with NUL afterwards, keeps its text as a prefix and
   * grows by at most the one character.
   */
  function EnsureStompFrameTermination(frame: Option<string>): (r: Option<string>)
    ensures frame.None? || frame.value == [] ==> r == frame
    ensures frame.Some? && frame.value != [] ==>
              r.Some? && EndsWithNul(r.value) && |frame.value| <= |r.value| <= |frame.value| + 1
              && r.value[..|frame.value|] == frame.value
    ensures frame.Some? && EndsWithNul(frame.value) ==> r == frame
  {
    if frame.None? || frame.value == [] then frame
    else if !EndsWithNul(frame.value) then Some(frame.value + "\0")
    else frame
  }

  /** Terminating twice is terminating once. */
  lemma TerminationIdempotent(frame: Option<string>)
    ensures EnsureStompFrameTermination(EnsureStompFrameTermination(frame)) == EnsureStompFrameTermination(frame)
  {
    var once := EnsureStompFrameTermination(frame);
    if frame.Some? && frame.value != [] {
      assert EndsWithNul(once.value);
    }
  }

  /** One `name:value` header line. */
  datatype Header = Header(name: string, value: string)

  /**
   * The headers `createStompFrame` writes, in order: `destination` and `content-type`
   * when given, and `content-length` (the body's UTF-8 byte count) when there is a body.
   */
  function FrameHeaders(destination: Option<string>, contentType: Option<string>, body: Option<string>): (r: seq<Header>)
  {
    (if destination.Some? then [Header("destination", destination.value)] else [])
    + (if contentType.Some? then [Header("content-type", contentType.value)] else [])
    + (if body.Some? then [Header("content-length", NatToString(Utf8.Length(body.value)))] else [])
  }

  /**
   * The header list holds at most one `content-length` entry: one exactly when there is
   * a body, and its value reads back as the body's UTF-8 byte count.
   */
  lemma ContentLengthHeader(destination: Option<string>, contentType: Option<string>, body: Option<string>)
    ensures var hs := FrameHeaders(destination, contentType, body);
            (body.Some? <==> exists i :: 0 <= i < |hs| && hs[i].name == "content-length")
            && forall i :: 0 <= i < |hs| && hs[i].name == "content-length" ==>
                 i == |hs| - 1 && AllDigits(hs[i].value) && ParseDigits(hs[i].value) == Utf8.Length(body.value)
  {
    var hs := FrameHeaders(destination, contentType, body);
    if body.Some? {
      NatToStringRoundTrip(Utf8.Length(body.value));
      assert hs[|hs| - 1].name == "content-length";
    }
    assert "destination" != "content-length" && "content-type" != "content-length";
  }

  /** A header line: `name:value` and a newline. */
  function Line(h: Header): string
  {
    h.name + ":" + h.value + "\n"
  }

  /** Header lines, one after the other. */
  function HeaderText(hs: seq<Header>): string
  {
    if hs == [] then "" else Line(hs[0]) + HeaderText(hs[1..])
  }

  /** Adding a header adds its line at the end. */
  lemma {:induction false} HeaderTextAppend(hs: seq<Header>, h: Header)
    ensures HeaderText(hs + [h]) == HeaderText(hs) + Line(h)
  {
    if hs != [] {
      assert (hs + [h])[1..] == hs[1..] + [h];
      HeaderTextAppend(hs[1..], h);
    } else {
      assert [h][1..] == [];
    }
  }

  /** The text of a frame: command line, header lines, blank line, body, NUL. */
  function FrameText(command: StompCommand, destination: Option<string>, contentType: Option<string>, body: Option<string>): string
  {
    Layout(CommandName(command), FrameHeaders(destination, contentType, body), if body.Some? then body.value else "")
  }

  /** The layout of a frame with the given command line, headers and body. */
  function Layout(command: string, headers: seq<Header>, body: string): string
  {
    command + "\n" + HeaderText(headers) + "\n" + body + "\0"
  }

  /** Appending one header line, as `append(name).append(":")…append("\n")` does. */
  method AppendHeader(frame: string, ghost head: string, ghost headers: seq<Header>, h: Header) returns (r: string)
    requires frame == head + HeaderText(headers)
    ensures r == head + HeaderText(headers + [h])
  {
    HeaderTextAppend(headers, h);
    r := frame + h.name + ":" + h.value + "\n";
    assert r == frame + Line(h);
  }

  /** `createStompFrame`: the frame text, appended piece by piece to a builder. */
  method CreateStompFrame(command: StompCommand, destination: Option<string>, contentType: Option<string>, body: Option<string>)
    returns (frame: string)
    ensures frame == FrameText(command, destination, contentType, body)
  {
    var head := CommandName(command) + "\n";
    frame := head;
    ghost var headers: seq<Header> := [];
    if destination.Some? {
      frame := AppendHeader(frame, head, headers, Header("destination", destination.value));
      headers := headers + [Header("destination", destination.value)];
    }
    if contentType.Some? {
      frame := AppendHeader(frame, head, headers, Header("content-type", contentType.value));
      headers := headers + [Header("content-type", contentType.value)];
    }
    if body.Some? {
      var bodyLength := Utf8.Length(body.value);
      frame := AppendHeader(frame, head, headers, Header("content-length", NatToString(bodyLength)));
      headers := headers + [Header("content-length", NatToString(bodyLength))];
    }
    assert headers == FrameHeaders(destination, contentType, body);
    var text := if body.Some? then body.value else "";
    frame := frame + "\n" + text + "\0";
  }

  /** The first position of `c` in `s`, if any. */
  function IndexOf(s: string, c: char): (r: Option<nat>)
    ensures r.None? <==> forall j :: 0 <= j < |s| ==> s[j] != c
    ensures r.Some? ==> r.value < |s| && s[r.value] == c && forall j :: 0 <= j < r.value ==> s[j] != c
  {
    if s == [] then None
    else if s[0] == c then Some(0)
    else
      var t := IndexOf(s[1..], c);
      assert forall j :: 1 <= j < |s| ==> s[j] == s[1..][j - 1];
      if t.Some? then Some(t.value + 1) else None
  }

  /** A header line split at its first colon into name and value. */
  function ParseHeader(line: string): Option<Header>
  {
    var k := IndexOf(line, ':');
    if k.None? then None else Some(Header(line[..k.value], line[k.value + 1..]))
  }

  /** Header lines up to the blank line, and the text after the blank line. */
  function ParseHeaders(s: string): Option<(seq<Header>, string)>
    decreases |s|
  {
    var k := IndexOf(s, '\n');
    if k.None? then None
    else if k.value == 0 then Some(([], s[1..]))
    else
      var h := ParseHeader(s[..k.value]);
      var rest := ParseHeaders(s[k.value + 1..]);
      if h.None? || rest.None? then None else Some(([h.value] + rest.value.0, rest.value.1))
  }

  /** A frame as a receiver reads it: command, headers in order, body. */
  datatype Frame = Frame(command: string, headers: seq<Header>, body: string)

  /**
   * Reading a frame, as section "Augmented BNF" of the STOMP Protocol Specification 1.2
   * lays it out: the command line, header lines up to a blank line, then the body up
   * to the final NUL.
   */
  function ParseFrame(s: string): Option<Frame>
  {
    if !EndsWithNul(s) then None
    else
      var t := s[..|s| - 1];
      var k := IndexOf(t, '\n');
      if k.None? then None
      else
        var hs := ParseHeaders(t[k.value + 1..]);
        if hs.None? then None else Some(Frame(t[..k.value], hs.value.0, hs.value.1))
  }

  predicate NoNewline(s: string)
  {
    forall i :: 0 <= i < |s| ==> s[i] != '\n'
  }

  /** A header that can be written on one line and read back: no newline anywhere, no colon in the name. */
  predicate Writable(h: Header)
  {
    NoNewline(h.name) && NoNewline(h.value) && forall i :: 0 <= i < |h.name| ==> h.name[i] != ':'
  }

  predicate AllWritable(hs: seq<Header>)
  {
    forall i :: 0 <= i < |hs| ==> Writable(hs[i])
  }

  /** The first occurrence of `c` in `a + [c] + b` is right after `a` when `a` lacks `c`. */
  lemma IndexAfter(a: string, c: char, b: string)
    requires forall i :: 0 <= i < |a| ==> a[i] != c
    ensures IndexOf(a + [c] + b, c) == Some(|a|)
  {
    var s := a + [c] + b;
    assert s[|a|] == c;
    forall i | 0 <= i < |a| ensures s[i] != c {
      assert s[i] == a[i];
    }
  }

  lemma ParseLine(h: Header)
    requires Writable(h)
    ensures ParseHeader(h.name + ":" + h.value) == Some(h)
  {
    IndexAfter(h.name, ':', h.value);
    var line := h.name + ":" + h.value;
    assert line == h.name + [':'] + h.value;
    assert line[..|h.name|] == h.name && line[|h.name| + 1..] == h.value;
  }

  /** A written header line has no newline in it. */
  lemma LineHasNoNewline(h: Header)
    requires Writable(h)
    ensures var line := h.name + ":" + h.value;
            line != [] && NoNewline(line)
  {
    var line := h.name + ":" + h.value;
    forall i | 0 <= i < |line| ensures line[i] != '\n' {
      if i < |h.name| {
        assert line[i] == h.name[i];
      } else if i > |h.name| {
        assert line[i] == h.value[i - |h.name| - 1];
      }
    }
  }

  /** Reading headers past one non-empty line: that line is the first header, the rest is read on. */
  lemma ParseHeadersStep(line: string, tail: string)
    requires line != [] && NoNewline(line)
    ensures var rest := ParseHeaders(tail);
            var h := ParseHeader(line);
            ParseHeaders(line + ['\n'] + tail)
            == if h.None? || rest.None? then None else Some(([h.value] + rest.value.0, rest.value.1))
  {
    var s := line + ['\n'] + tail;
    IndexAfter(line, '\n', tail);
    assert s[..|line|] == line && s[|line| + 1..] == tail;
  }

  /** The first header line split off the header text. */
  lemma HeaderTextCons(hs: seq<Header>, rest: string)
    requires hs != []
    ensures HeaderText(hs) + "\n" + rest == (hs[0].name + ":" + hs[0].value) + ['\n'] + (HeaderText(hs[1..]) + "\n" + rest)
  {
  }

  /** Header lines followed by a blank line read back as the same headers, leaving what follows. */
  lemma {:induction false} ParseHeaderText(hs: seq<Header>, rest: string)
    requires AllWritable(hs)
    ensures ParseHeaders(HeaderText(hs) + "\n" + rest) == Some((hs, rest))
  {
    if hs == [] {
      var s := HeaderText(hs) + "\n" + rest;
      assert s == [] + ['\n'] + rest;
      IndexAfter([], '\n', rest);
      assert s[1..] == rest;
    } else {
      var h := hs[0];
      var line := h.name + ":" + h.value;
      var tail := HeaderText(hs[1..]) + "\n" + rest;
      HeaderTextCons(hs, rest);
      LineHasNoNewline(h);
      ParseHeadersStep(line, tail);
      ParseLine(h);
      ParseHeaderText(hs[1..], rest);
      assert [h] + hs[1..] == hs;
    }
  }

  lemma HeaderNamesWritable()
    ensures Writable(Header("destination", "")) && Writable(Header("content-type", "")) && Writable(Header("content-length", ""))
  {
  }

  lemma DigitsHaveNoNewline(s: string)
    requires AllDigits(s)
    ensures NoNewline(s)
  {
    forall i | 0 <= i < |s| ensures s[i] != '\n' {
      assert IsDigit(s[i]);
    }
  }

  /** The headers `createStompFrame` writes are writable when the destination and content type have no newline. */
  lemma FrameHeadersWritable(destination: Option<string>, contentType: Option<string>, body: Option<string>)
    requires destination.Some? ==> NoNewline(destination.value)
    requires contentType.Some? ==> NoNewline(contentType.value)
    ensures AllWritable(FrameHeaders(destination, contentType, body))
  {
    var d := if destination.Some? then [Header("destination", destination.value)] else [];
    var c := if contentType.Some? then [Header("content-type", contentType.value)] else [];
    var l := if body.Some? then [Header("content-length", NatToString(Utf8.Length(body.value)))] else [];
    HeaderNamesWritable();
    if body.Some? {
      DigitsHaveNoNewline(l[0].value);
    }
    assert AllWritable(d) && AllWritable(c) && AllWritable(l);
    assert AllWritable(d + c);
    assert FrameHeaders(destination, contentType, body) == d + c + l;
  }

  /** A frame text splits at its first newline into the command and the header part. */
  lemma ParseFrameParts(name: string, rest: string)
    requires NoNewline(name)
    ensures var hs := ParseHeaders(rest);
            ParseFrame(name + ['\n'] + rest + "\0")
            == if hs.None? then None else Some(Frame(name, hs.value.0, hs.value.1))
  {
    var s := name + ['\n'] + rest + "\0";
    var t := s[..|s| - 1];
    assert t == name + ['\n'] + rest;
    IndexAfter(name, '\n', rest);
    assert t[..|name|] == name && t[|name| + 1..] == rest;
  }

  /** A frame laid out from a one-line command and writable headers reads back as its parts. */
  lemma LayoutRoundTrip(command: string, headers: seq<Header>, body: string)
    requires NoNewline(command) && AllWritable(headers)
    ensures ParseFrame(Layout(command, headers, body)) == Some(Frame(command, headers, body))
  {
    var rest := HeaderText(headers) + "\n" + body;
    assert Layout(command, headers, body) == command + ['\n'] + rest + "\0";
    ParseFrameParts(command, rest);
    ParseHeaderText(headers, body);
  }

  /**
   * What `createStompFrame` writes reads back as the same command, the headers in
   * order, and the body verbatim (empty when there is none), provided the destination
   * and content type contain no newline.
   */
  lemma FrameRoundTrip(command: StompCommand, destination: Option<string>, contentType: Option<string>, body: Option<string>)
    requires destination.Some? ==> NoNewline(destination.value)
    requires contentType.Some? ==> NoNewline(contentType.value)
    ensures ParseFrame(FrameText(command, destination, contentType, body))
            == Some(Frame(CommandName(command), FrameHeaders(destination, contentType, body),
                          if body.Some? then body.value else ""))
  {
    FrameHeadersWritable(destination, contentType, body);
    LayoutRoundTrip(CommandName(command), FrameHeaders(destination, contentType, body), if body.Some? then body.value else "");
  }
}
