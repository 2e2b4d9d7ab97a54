/**
 * The framing of the download progress stream.  Every string the download
 * generator yields is one server-sent event: a `data:` line holding the JSON
 * payload, then a blank line.  The interpretation side follows the event stream
 * parsing rules of section 9.2.6 ("Interpreting an event stream") of the WHATWG
 * HTML Living Standard, restricted to the `data` field.
 */
module EventStream {

  /** `f"data: {payload}\n\n"`. */
  function Frame(payload: string): string {
    "data: " + payload + "\n\n"
  }

  /** The stream the client receives: the frames one after the other. */
  function Stream(payloads: seq<string>): string {
    if payloads == [] then "" else Frame(payloads[0]) + Stream(payloads[1..])
  }

  predicate IsLineBreak(c: char) {
    c == '\n' || c == '\r'
  }

  /** Whether a string holds no line break; every JSON text `json.dumps` writes is such a string. */
  predicate SingleLine(s: string) {
    forall i | 0 <= i < |s| :: !IsLineBreak(s[i])
  }

  /**
   * The complete lines of a stream, given the line read so far; a line ends at
   * CR LF, at LF or at CR, and an unterminated last line is dropped.
   */
  function LinesFrom(s: string, cur: string): seq<string>
    decreases |s|
  {
    if s == [] then []
    else if s[0] == '\n' then [cur] + LinesFrom(s[1..], "")
    else if s[0] == '\r' then
      if |s| > 1 && s[1] == '\n' then [cur] + LinesFrom(s[2..], "") else [cur] + LinesFrom(s[1..], "")
    else LinesFrom(s[1..], cur + [s[0]])
  }

  function Lines(s: string): seq<string> {
    LinesFrom(s, "")
  }

  /** The position of the first colon of a line, or its length when it has none. */
  function ColonAt(line: string): (k: nat)
    ensures k <= |line|
    ensures k < |line| ==> line[k] == ':'
    ensures forall i | 0 <= i < k :: line[i] != ':'
    decreases |line|
  {
    if line == [] then 0
    else if line[0] == ':' then 0
    else 1 + ColonAt(line[1..])
  }

  /** The field name of a line: the characters before the first colon. */
  function FieldName(line: string): string {
    line[..ColonAt(line)]
  }

  /** The field value of a line: the characters after the first colon, less one leading space. */
  function FieldValue(line: string): string {
    var k := ColonAt(line);
    if k == |line| then ""
    else
      var v := line[k + 1..];
      if v != [] && v[0] == ' ' then v[1..] else v
  }

  /**
   * The data of the events the lines dispatch, given the data buffer so far: a
   * blank line dispatches the buffer (without its final line feed) unless it is
   * empty; a line starting with a colon is a comment; a `data` field appends its
   * value and a line feed; other fields do not touch the data.
   */
  function Dispatch(lines: seq<string>, data: string): seq<string>
    decreases |lines|
  {
    if lines == [] then []
    else
      var line := lines[0];
      if line == "" then
        (if data == "" then [] else [data[..|data| - 1]]) + Dispatch(lines[1..], "")
      else if line[0] == ':' then Dispatch(lines[1..], data)
      else if FieldName(line) == "data" then Dispatch(lines[1..], data + FieldValue(line) + "\n")
      else Dispatch(lines[1..], data)
  }

  /** The data of every event a client reads from a stream. */
  function Interpret(stream: string): seq<string> {
    Dispatch(Lines(stream), "")
  }

  /** Characters without a line break only extend the current line. */
  lemma {:induction false} LinesFromPlain(x: string, rest: string, cur: string)
    requires SingleLine(x)
    ensures LinesFrom(x + rest, cur) == LinesFrom(rest, cur + x)
    decreases |x|
  {
    if x != [] {
      assert (x + rest)[0] == x[0];
      assert (x + rest)[1..] == x[1..] + rest;
      LinesFromPlain(x[1..], rest, cur + [x[0]]);
      assert cur + [x[0]] + x[1..] == cur + x;
    } else {
      assert x + rest == rest && cur + x == cur;
    }
  }

  /** A frame is two lines: its `data:` line and a blank line. */
  lemma FrameLines(payload: string, rest: string)
    requires SingleLine(payload)
    ensures LinesFrom(Frame(payload) + rest, "") == ["data: " + payload, ""] + LinesFrom(rest, "")
  {
    var head := "data: " + payload;
    assert SingleLine(head) by {
      forall i | 0 <= i < |head| ensures !IsLineBreak(head[i]) {
        if i >= 6 {
          assert head[i] == payload[i - 6];
        }
      }
    }
    assert Frame(payload) + rest == head + ("\n\n" + rest);
    LinesFromPlain(head, "\n\n" + rest, "");
    assert "" + head == head;
    assert ("\n\n" + rest)[1..] == "\n" + rest;
    assert ("\n" + rest)[1..] == rest;
  }

  /** The `data:` line of a frame sets the field `data` to exactly the payload. */
  lemma DataLine(payload: string)
    ensures FieldName("data: " + payload) == "data"
    ensures FieldValue("data: " + payload) == payload
  {
    var line := "data: " + payload;
    assert line[..4] == "data" && line[4] == ':';
    assert ColonAt(line) == 4 by {
      assert ColonAt(line[1..]) == 3 by {
        assert ColonAt(line[1..][1..]) == 2 by {
          assert ColonAt(line[1..][1..][1..]) == 1 by {
            assert line[1..][1..][1..][1..][0] == ':';
          }
        }
      }
    }
    assert line[5..] == " " + payload;
    assert (" " + payload)[1..] == payload;
  }

  /** The lines of a stream of frames: two per frame. */
  function FrameLinesOf(payloads: seq<string>): seq<string> {
    if payloads == [] then [] else ["data: " + payloads[0], ""] + FrameLinesOf(payloads[1..])
  }

  lemma {:induction false} StreamLines(payloads: seq<string>)
    requires forall i | 0 <= i < |payloads| :: SingleLine(payloads[i])
    ensures Lines(Stream(payloads)) == FrameLinesOf(payloads)
  {
    if payloads != [] {
      FrameLines(payloads[0], Stream(payloads[1..]));
      StreamLines(payloads[1..]);
    }
  }

  lemma {:induction false} DispatchFrames(payloads: seq<string>)
    requires forall i | 0 <= i < |payloads| :: SingleLine(payloads[i])
    ensures Dispatch(FrameLinesOf(payloads), "") == payloads
  {
    if payloads != [] {
      var p := payloads[0];
      var lines := FrameLinesOf(payloads);
      DataLine(p);
      assert lines[0] == "data: " + p && lines[1] == "";
      assert lines[1..][1..] == FrameLinesOf(payloads[1..]);
      var data := "" + p + "\n";
      assert data[..|data| - 1] == p;
      DispatchFrames(payloads[1..]);
      assert Dispatch(lines, "") == Dispatch(lines[1..], data);
      assert Dispatch(lines[1..], data) == [p] + Dispatch(lines[1..][1..], "");
    }
  }

  /**
   * A client reading the stream gets every payload back, in order and unchanged,
   * one event per frame, provided no payload holds a line break.
   */
  lemma StreamRoundTrip(payloads: seq<string>)
    requires forall i | 0 <= i < |payloads| :: SingleLine(payloads[i])
    ensures Interpret(Stream(payloads)) == payloads
  {
    StreamLines(payloads);
    DispatchFrames(payloads);
  }
}
