/**
 The webhook tunnel: the server writes server-sent-event frames on a text stream, the network cuts the stream into
 arbitrary chunks, and the command-line client reassembles lines.
 */
module Tunnel {
  import opened Common
  import opened Wrappers
  import Strings

  /**
   The JSON objects of a stream: the greeting is the one whose `type` is "connected"; a forwarded webhook has no `type` of
   its own.
   */
  datatype Json<E> = Connected(tunnelId: string, ts: string) | Webhook(event: E)

  /** Printing and parsing of JSON. */
  datatype Codec<!E> = Codec(stringify: Json<E> -> string, parse: string -> Option<Json<E>>)

  /** Printing can be undone, and never emits a raw line break (control characters are escaped). */
  ghost predicate Lawful<E(!new)>(codec: Codec<E>) {
    forall j :: codec.parse(codec.stringify(j)) == Some(j) && NoBreak(codec.stringify(j))
  }

  predicate NoBreak(text: string) {
    '\n' !in text && '\r' !in text
  }

  // ---------- the writer ----------

  /** What the server writes on one connection. */
  datatype Message<E> = Greeting(tunnelId: string, ts: string) | Event(event: E) | Heartbeat

  const DATA := "data: "
  const HEARTBEAT := ": heartbeat"

  /** The JSON object a message carries, if any. */
  function Carried<E>(m: Message<E>): Option<Json<E>> {
    match m
    case Greeting(tunnelId, ts) => Some(Connected(tunnelId, ts))
    case Event(event) => Some(Webhook(event))
    case Heartbeat => None
  }

  function FrameText<E>(codec: Codec<E>, m: Message<E>): string {
    var json := Carried(m);
    (if json.Some? then DATA + codec.stringify(json.value) else HEARTBEAT) + "\n\n"
  }

  function StreamText<E>(codec: Codec<E>, ms: seq<Message<E>>): string {
    if ms == [] then "" else FrameText(codec, ms[0]) + StreamText(codec, ms[1..])
  }

  /** The forwarded events, in order. */
  function Payloads<E>(ms: seq<Message<E>>): seq<E> {
    if ms == [] then []
    else (if ms[0].Event? then [ms[0].event] else []) + Payloads(ms[1..])
  }

  lemma {:induction false} StreamTextAppend<E>(codec: Codec<E>, ms: seq<Message<E>>, m: Message<E>)
    ensures StreamText(codec, ms + [m]) == StreamText(codec, ms) + FrameText(codec, m)
    decreases |ms|
  {
    if ms == [] {
      assert ms + [m] == [m] && [m][1..] == [];
      assert StreamText(codec, [m]) == FrameText(codec, m) + "";
    } else {
      assert (ms + [m])[0] == ms[0] && (ms + [m])[1..] == ms[1..] + [m];
      StreamTextAppend(codec, ms[1..], m);
      Assoc(FrameText(codec, ms[0]), StreamText(codec, ms[1..]), FrameText(codec, m));
    }
  }

  /** One client connection as the server sees it: the text written so far. */
  class Response {
    var written: string
    var ended: bool

    constructor ()
      ensures written == "" && !ended
    {
      written, ended := "", false;
    }
  }

  class TunnelService<E> {
    const codec: Codec<E>
    var sessions: map<string, Response>
    /** Events forwarded per created tunnel. */
    var forwarded: map<string, nat>

    constructor (codec: Codec<E>)
      ensures this.codec == codec && sessions == map[] && forwarded == map[]
    {
      this.codec := codec;
      sessions, forwarded := map[], map[];
    }

    /** A client connects: it is greeted and becomes the tunnel's connection. */
    method Connect(tunnelId: string, ts: string) returns (res: Response)
      modifies this
      ensures fresh(res) && sessions == old(sessions)[tunnelId := res] && forwarded == old(forwarded)
      ensures res.written == FrameText(codec, Greeting(tunnelId, ts)) && !res.ended
      ensures res.written == "data: " + codec.stringify(Connected(tunnelId, ts)) + "\n\n"
    {
      res := new Response();
      res.written := res.written + (DATA + codec.stringify(Connected(tunnelId, ts)) + "\n\n");
      sessions := sessions[tunnelId := res];
      assert res.written == FrameText(codec, Greeting(tunnelId, ts));
    }

    /** The periodic heartbeat of one connection; nothing is written once it has ended. */
    method Beat(res: Response)
      modifies res
      ensures res.ended == old(res.ended)
      ensures res.written == old(res.written) + if res.ended then "" else FrameText(codec, Heartbeat)
      ensures !res.ended ==> res.written == old(res.written) + ": heartbeat\n\n"
    {
      if !res.ended {
        res.written := res.written + HEARTBEAT + "\n\n";
        assert res.written == old(res.written) + FrameText(codec, Heartbeat);
      } else {
        assert res.written == old(res.written) + "";
      }
    }

    /** Writes one frame on an open connection; a missing or closed one is forgotten and reported. */
    method Forward(tunnelId: string, event: E) returns (sent: bool)
      modifies this, if tunnelId in sessions then {sessions[tunnelId]} else {}
      ensures sent <==> old(tunnelId in sessions && !sessions[tunnelId].ended)
      ensures sent ==>
                && sessions == old(sessions)
                && sessions[tunnelId].written == old(sessions[tunnelId].written) + FrameText(codec, Event(event))
                && !sessions[tunnelId].ended
                && forwarded == (if tunnelId in old(forwarded)
                                 then old(forwarded)[tunnelId := old(forwarded)[tunnelId] + 1] else old(forwarded))
      ensures sent ==>
                sessions[tunnelId].written == old(sessions[tunnelId].written) + ("data: " + codec.stringify(Webhook(event)) + "\n\n")
      ensures !sent ==> sessions == old(sessions) - {tunnelId} && forwarded == old(forwarded)
      ensures !sent && tunnelId in old(sessions) ==> unchanged(old(sessions[tunnelId]))
    {
      if tunnelId !in sessions || sessions[tunnelId].ended {
        sessions := sessions - {tunnelId};
        return false;
      }
      var res := sessions[tunnelId];
      if tunnelId in forwarded {
        forwarded := forwarded[tunnelId := forwarded[tunnelId] + 1];
      }
      var data := codec.stringify(Webhook(event));
      res.written := res.written + (DATA + data + "\n\n");
      return true;
    }
  }

  /**
   One connection served: the greeting, then events and heartbeats in any order. What is written is the stream
   of these messages.
   */
  method Serve<E>(service: TunnelService<E>, tunnelId: string, ts: string, ms: seq<Message<E>>) returns (res: Response)
    requires forall m <- ms :: !m.Greeting?
    modifies service
    ensures fresh(res) && service.sessions == old(service.sessions)[tunnelId := res]
    ensures res.written == StreamText(service.codec, [Greeting(tunnelId, ts)] + ms)
  {
    res := service.Connect(tunnelId, ts);
    ghost var greeting := [Greeting(tunnelId, ts)];
    assert ms[..0] == [] && greeting + [] == greeting;
    StreamTextAppend(service.codec, [], Greeting(tunnelId, ts));
    assert [] + greeting == greeting;
    for i := 0 to |ms|
      invariant fresh(res) && !res.ended && service.sessions == old(service.sessions)[tunnelId := res]
      invariant res.written == StreamText(service.codec, greeting + ms[..i])
    {
      StreamTextAppend(service.codec, greeting + ms[..i], ms[i]);
      assert greeting + ms[..i + 1] == greeting + ms[..i] + [ms[i]];
      assert ms[i] in ms;
      if ms[i].Event? {
        var sent := service.Forward(tunnelId, ms[i].event);
        assert sent;
      } else {
        service.Beat(res);
      }
    }
    assert ms[..|ms|] == ms;
  }

  // ---------- lines ----------

  /** A text cut at its line breaks: the complete lines, and the unfinished one. */
  datatype Cut = Cut(lines: seq<string>, tail: string)

  /** Reads on from an unfinished line, character by character. */
  function Feed(buf: string, text: string): Cut
    decreases |text|
  {
    if text == "" then Cut([], buf)
    else if text[0] == '\n' then
      var rest := Feed("", text[1..]);
      Cut([buf] + rest.lines, rest.tail)
    else Feed(buf + [text[0]], text[1..])
  }

  /** `buf.split('\n')` cuts as reading character by character does. */
  lemma {:induction false} SplitIsFeed(buf: string, text: string)
    ensures var parts := Strings.Split(text, '\n');
            Feed(buf, text).lines + [Feed(buf, text).tail] == [buf + parts[0]] + parts[1..]
    decreases |text|
  {
    if text == "" {
      assert buf + "" == buf;
    } else {
      var rest := Strings.Split(text[1..], '\n');
      if text[0] == '\n' {
        SplitIsFeed("", text[1..]);
        assert "" + rest[0] == rest[0] && [rest[0]] + rest[1..] == rest;
        var next := Feed("", text[1..]);
        assert [buf] + next.lines + [next.tail] == [buf] + (next.lines + [next.tail]);
        assert Strings.Split(text, '\n') == [""] + rest;
        assert Strings.Split(text, '\n')[1..] == rest && buf + "" == buf;
      } else {
        SplitIsFeed(buf + [text[0]], text[1..]);
        assert buf + ([text[0]] + rest[0]) == buf + [text[0]] + rest[0];
      }
    }
  }

  function After(cut: Cut, next: Cut): Cut {
    Cut(cut.lines + next.lines, next.tail)
  }

  /** Reading on from the unfinished line is reading the whole. */
  lemma {:induction false} FeedResumes(buf: string, a: string, b: string)
    ensures Feed(buf, a + b) == After(Feed(buf, a), Feed(Feed(buf, a).tail, b))
    decreases |a|
  {
    if a == "" {
      assert a + b == b;
      assert [] + Feed(buf, b).lines == Feed(buf, b).lines;
    } else {
      assert (a + b)[1..] == a[1..] + b;
      if a[0] == '\n' {
        FeedResumes("", a[1..], b);
        var first, next := Feed("", a[1..]), Feed(Feed("", a[1..]).tail, b);
        assert [buf] + (first.lines + next.lines) == [buf] + first.lines + next.lines;
      } else {
        FeedResumes(buf + [a[0]], a[1..], b);
      }
    }
  }

  lemma {:induction false} FeedLine(buf: string, line: string, rest: string)
    requires '\n' !in line
    ensures Feed(buf, line + rest) == Feed(buf + line, rest)
    decreases |line|
  {
    if line == "" {
      assert line + rest == rest && buf + line == buf;
    } else {
      assert (line + rest)[1..] == line[1..] + rest;
      FeedLine(buf + [line[0]], line[1..], rest);
      assert buf + [line[0]] + line[1..] == buf + line;
    }
  }

  lemma {:induction false} TailUnbroken(buf: string, text: string)
    requires '\n' !in buf
    ensures '\n' !in Feed(buf, text).tail
    decreases |text|
  {
    if text != "" {
      TailUnbroken(if text[0] == '\n' then "" else buf + [text[0]], text[1..]);
    }
  }

  // ---------- the reader ----------

  /** What one complete line makes the client forward. */
  function LineEvents<E>(codec: Codec<E>, line: string): seq<E> {
    if DATA <= line then
      var event := codec.parse(line[6..]);
      if event.Some? && event.value.Webhook? then [event.value.event] else []
    else []
  }

  function EventsOf<E>(codec: Codec<E>, lines: seq<string>): seq<E> {
    if lines == [] then []
    else EventsOf(codec, lines[..|lines| - 1]) + LineEvents(codec, lines[|lines| - 1])
  }

  lemma {:induction false} EventsConcat<E>(codec: Codec<E>, a: seq<string>, b: seq<string>)
    ensures EventsOf(codec, a + b) == EventsOf(codec, a) + EventsOf(codec, b)
    decreases |b|
  {
    if b == [] {
      assert a + b == a;
    } else {
      var front := b[..|b| - 1];
      assert (a + b)[..|a + b| - 1] == a + front;
      EventsConcat(codec, a, front);
      Assoc(EventsOf(codec, a), EventsOf(codec, front), LineEvents(codec, b[|b| - 1]));
    }
  }

  lemma NextLine<E>(codec: Codec<E>, before: seq<E>, lines: seq<string>, i: nat)
    requires i < |lines|
    ensures before + EventsOf(codec, lines[..i + 1]) == before + EventsOf(codec, lines[..i]) + LineEvents(codec, lines[i])
  {
    assert lines[..i + 1][..i] == lines[..i];
    Assoc(before, EventsOf(codec, lines[..i]), LineEvents(codec, lines[i]));
  }

  /** The client's side of a connection: the unfinished line, and the events handed to the local server. */
  class TunnelReader<E> {
    const codec: Codec<E>
    var buf: string
    var delivered: seq<E>

    constructor (codec: Codec<E>)
      ensures buf == "" && delivered == [] && this.codec == codec
    {
      this.codec := codec;
      buf, delivered := "", [];
    }

    method OnData(chunk: string)
      modifies this
      ensures buf == Feed("", old(buf) + chunk).tail
      ensures delivered == old(delivered) + EventsOf(codec, Feed("", old(buf) + chunk).lines)
    {
      buf := buf + chunk;
      var lines := Strings.Split(buf, '\n');
      ghost var complete := Feed("", buf).lines;
      SplitIsFeed("", buf);
      assert "" + lines[0] == lines[0] && lines == complete + [Feed("", buf).tail];
      buf := lines[|lines| - 1];
      lines := lines[..|lines| - 1];
      assert lines == complete && lines[..0] == [];
      for i := 0 to |lines|
        invariant buf == Feed("", old(buf) + chunk).tail
        invariant delivered == old(delivered) + EventsOf(codec, lines[..i])
      {
        NextLine(codec, old(delivered), lines, i);
        var line := lines[i];
        if DATA <= line {
          var event := codec.parse(line[6..]);
          if event.Some? {
            if event.value.Connected? {
              continue;
            }
            delivered := delivered + [event.value.event];
          }
        }
      }
      assert lines[..|lines|] == lines;
    }
  }

  function Concat(chunks: seq<string>): string {
    if chunks == [] then "" else Concat(chunks[..|chunks| - 1]) + chunks[|chunks| - 1]
  }

  /** One more chunk, said of all the text received. */
  lemma ChunkExtends<E>(codec: Codec<E>, text: string, chunk: string)
    ensures Feed("", Feed("", text).tail + chunk).tail == Feed("", text + chunk).tail
    ensures EventsOf(codec, Feed("", text).lines) + EventsOf(codec, Feed("", Feed("", text).tail + chunk).lines)
            == EventsOf(codec, Feed("", text + chunk).lines)
  {
    var first := Feed("", text);
    TailUnbroken("", text);
    FeedLine("", first.tail, chunk);
    assert "" + first.tail == first.tail;
    FeedResumes("", text, chunk);
    EventsConcat(codec, first.lines, Feed(first.tail, chunk).lines);
  }

  /** A connection read chunk by chunk: the reader's state depends only on the concatenation of the chunks. */
  method ReadAll<E>(codec: Codec<E>, chunks: seq<string>) returns (reader: TunnelReader<E>)
    ensures fresh(reader) && reader.codec == codec
    ensures reader.buf == Feed("", Concat(chunks)).tail
    ensures reader.delivered == EventsOf(codec, Feed("", Concat(chunks)).lines)
  {
    reader := new TunnelReader<E>(codec);
    assert chunks[..0] == [];
    for i := 0 to |chunks|
      invariant fresh(reader) && reader.codec == codec
      invariant reader.buf == Feed("", Concat(chunks[..i])).tail
      invariant reader.delivered == EventsOf(codec, Feed("", Concat(chunks[..i])).lines)
    {
      ChunkExtends(codec, Concat(chunks[..i]), chunks[i]);
      assert chunks[..i + 1][..i] == chunks[..i];
      reader.OnData(chunks[i]);
    }
    assert chunks[..|chunks|] == chunks;
  }

  // ---------- the two sides together ----------

  function MessageLine<E>(codec: Codec<E>, m: Message<E>): string {
    var json := Carried(m);
    if json.Some? then DATA + codec.stringify(json.value) else HEARTBEAT
  }

  lemma FrameLines<E(!new)>(codec: Codec<E>, m: Message<E>, rest: string)
    requires Lawful(codec)
    ensures Feed("", FrameText(codec, m) + rest) == After(Cut([MessageLine(codec, m), ""], ""), Feed("", rest))
  {
    var line := MessageLine(codec, m);
    LineUnbroken(codec, m);
    var breaks := "\n\n" + rest;
    assert FrameText(codec, m) + rest == line + breaks;
    FeedLine("", line, breaks);
    assert "" + line == line;
    assert breaks[1..] == "\n" + rest && breaks[1..][1..] == rest;
    var cut := Feed("", rest);
    assert Feed("", breaks[1..]) == Cut([""] + cut.lines, cut.tail);
    assert [line] + ([""] + cut.lines) == [line, ""] + cut.lines;
  }

  lemma LineUnbroken<E(!new)>(codec: Codec<E>, m: Message<E>)
    requires Lawful(codec)
    ensures '\n' !in MessageLine(codec, m)
  {
    if Carried(m).Some? {
      assert NoBreak(codec.stringify(Carried(m).value));
    }
  }

  lemma EventLine<E(!new)>(codec: Codec<E>, m: Message<E>)
    requires Lawful(codec)
    ensures EventsOf(codec, [MessageLine(codec, m), ""]) == if m.Event? then [m.event] else []
  {
    var lines := [MessageLine(codec, m), ""];
    assert lines[..1][..0] == [] && lines[..1] == [lines[0]];
    assert LineEvents(codec, "") == [];
    assert EventsOf(codec, lines[..1]) == [] + LineEvents(codec, lines[0]);
    assert EventsOf(codec, lines) == EventsOf(codec, lines[..1]) + [];
    if Carried(m).Some? {
      assert lines[0][6..] == codec.stringify(Carried(m).value);
    } else {
      assert lines[0][0] == ':' && DATA[0] == 'd';
      assert !(DATA <= lines[0]);
      assert LineEvents(codec, lines[0]) == [];
    }
  }

  /** A whole stream is read as exactly the forwarded payloads, in order, with nothing left in the buffer. */
  lemma {:induction false} StreamReadsBack<E(!new)>(codec: Codec<E>, ms: seq<Message<E>>)
    requires Lawful(codec)
    ensures EventsOf(codec, Feed("", StreamText(codec, ms)).lines) == Payloads(ms)
    ensures Feed("", StreamText(codec, ms)).tail == ""
  {
    if ms != [] {
      var rest := StreamText(codec, ms[1..]);
      FrameLines(codec, ms[0], rest);
      EventsConcat(codec, [MessageLine(codec, ms[0]), ""], Feed("", rest).lines);
      EventLine(codec, ms[0]);
      StreamReadsBack(codec, ms[1..]);
    }
  }

  /** However the stream of a connection is cut into chunks, the client ends with the payloads and an empty buffer. */
  method ReadConnection<E(!new)>(codec: Codec<E>, ms: seq<Message<E>>, chunks: seq<string>) returns (reader: TunnelReader<E>)
    requires Lawful(codec) && Concat(chunks) == StreamText(codec, ms)
    ensures reader.delivered == Payloads(ms) && reader.buf == ""
  {
    reader := ReadAll(codec, chunks);
    StreamReadsBack(codec, ms);
  }

  /** At any moment, after any prefix of the stream, the client has delivered a prefix of the payloads. */
  lemma DeliveredIsPrefix<E(!new)>(codec: Codec<E>, ms: seq<Message<E>>, seen: string, unseen: string)
    requires Lawful(codec) && seen + unseen == StreamText(codec, ms)
    ensures EventsOf(codec, Feed("", seen).lines) <= Payloads(ms)
  {
    StreamReadsBack(codec, ms);
    var first := Feed("", seen);
    FeedResumes("", seen, unseen);
    EventsConcat(codec, first.lines, Feed(first.tail, unseen).lines);
  }

  // ---------- a conforming reader ----------

  /**
   Event stream interpretation of section 9.2.6 of the WHATWG HTML standard, for streams whose lines end in LF: the data
   of each dispatched event. `data` is the data buffer so far.
   */
  function Dispatched(lines: seq<string>, data: string): seq<string>
    decreases |lines|
  {
    if lines == [] then []
    else if lines[0] == "" then
      (if data == "" then [] else [data[..|data| - 1]]) + Dispatched(lines[1..], "")
    else Dispatched(lines[1..], data + FieldData(lines[0]))
  }

  /** What a non-empty line appends to the data buffer. */
  function FieldData(line: string): string {
    var colon := FirstColon(line);
    if line[..colon] == "data" then (if colon == |line| then "" else StripSpace(line[colon + 1..])) + "\n" else ""
  }

  function FirstColon(line: string): (i: nat)
    ensures i <= |line|
  {
    if line == "" || line[0] == ':' then 0 else 1 + FirstColon(line[1..])
  }

  function StripSpace(text: string): string {
    if text != "" && text[0] == ' ' then text[1..] else text
  }

  function EventTexts<E>(codec: Codec<E>, ms: seq<Message<E>>): seq<string> {
    if ms == [] then []
    else (if Carried(ms[0]).Some? then [codec.stringify(Carried(ms[0]).value)] else []) + EventTexts(codec, ms[1..])
  }

  lemma {:induction false} ColonAfter(name: string, text: string)
    requires ':' !in name
    ensures FirstColon(name + ":" + text) == |name|
  {
    var line := name + ":" + text;
    if name != "" {
      assert line[1..] == name[1..] + ":" + text;
      ColonAfter(name[1..], text);
    }
  }

  lemma MessageData<E>(codec: Codec<E>, m: Message<E>)
    ensures FieldData(MessageLine(codec, m)) == if Carried(m).Some? then codec.stringify(Carried(m).value) + "\n" else ""
  {
    var line := MessageLine(codec, m);
    if Carried(m).Some? {
      var text := codec.stringify(Carried(m).value);
      assert line == "data" + ":" + (" " + text);
      ColonAfter("data", " " + text);
      assert line[..4] == "data" && line[5..] == " " + text;
      assert (" " + text)[1..] == text;
    } else {
      assert line[..0] != "data";
    }
  }

  lemma DispatchMessage<E>(codec: Codec<E>, m: Message<E>, rest: seq<string>)
    ensures Dispatched([MessageLine(codec, m), ""] + rest, "") ==
            (if Carried(m).Some? then [codec.stringify(Carried(m).value)] else []) + Dispatched(rest, "")
  {
    var lines := [MessageLine(codec, m), ""] + rest;
    assert lines[1..] == [""] + rest && lines[1..][1..] == rest;
    MessageData(codec, m);
    var data := FieldData(lines[0]);
    assert "" + data == data;
    assert Dispatched(lines, "") == Dispatched(lines[1..], data);
    if Carried(m).Some? {
      assert data[..|data| - 1] == codec.stringify(Carried(m).value);
    }
  }

  /** A conforming event-stream reader dispatches exactly the written events, greetings included. */
  lemma {:induction false} ConformingReaderAgrees<E(!new)>(codec: Codec<E>, ms: seq<Message<E>>)
    requires Lawful(codec)
    ensures Dispatched(Feed("", StreamText(codec, ms)).lines, "") == EventTexts(codec, ms)
  {
    if ms != [] {
      var rest := StreamText(codec, ms[1..]);
      FrameLines(codec, ms[0], rest);
      DispatchMessage(codec, ms[0], Feed("", rest).lines);
      ConformingReaderAgrees(codec, ms[1..]);
    }
  }
}
