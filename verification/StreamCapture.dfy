/**
  The page-side stream capture: chunks of a teed response body are cut into lines,
  each `data:` line becomes a frame, and frames go into a buffer of bounded size.
  Timestamps are not part of a frame here.
*/
module StreamCapture {

  datatype Payload =
    | Json(text: string)            // what JSON.parse makes of the text
    | RawText(text: string)         // kept as text because it does not parse
    | CaptureTruncated(limit: int)  // the marker of a full buffer

  datatype Frame = Frame(url: string, source: string, payload: Payload)

  // ----- Lines -----

  /** `text.split('\n')`: the newline-separated pieces, the last one unterminated. */
  function SplitLines(text: string): (lines: seq<string>)
    ensures lines != []
  {
    if text == "" then [""] else Extend(SplitLines(text[..|text| - 1]), text[|text| - 1])
  }

  /** The pieces after one more character. */
  function Extend(lines: seq<string>, c: char): (r: seq<string>)
    requires lines != []
    ensures r != []
  {
    if c == '\n' then lines + [""]
    else lines[..|lines| - 1] + [lines[|lines| - 1] + [c]]
  }

  function Complete(text: string): seq<string> {
    var lines := SplitLines(text);
    lines[..|lines| - 1]
  }

  function Unfinished(text: string): string {
    var lines := SplitLines(text);
    lines[|lines| - 1]
  }

  lemma ExtendAfter(done: seq<string>, lines: seq<string>, c: char)
    requires lines != []
    ensures Extend(done + lines, c) == done + Extend(lines, c)
  {
  }

  lemma SplitOneMore(text: string, c: char)
    ensures SplitLines(text + [c]) == Extend(SplitLines(text), c)
  {
  }

  lemma SplitAfterOneMore(done: seq<string>, rest: string, a: string, b: string, c: char)
    requires SplitLines(a + b) == done + SplitLines(rest + b)
    ensures SplitLines(a + (b + [c])) == done + SplitLines(rest + (b + [c]))
  {
    assert a + (b + [c]) == (a + b) + [c];
    assert rest + (b + [c]) == (rest + b) + [c];
    SplitOneMore(a + b, c);
    SplitOneMore(rest + b, c);
    ExtendAfter(done, SplitLines(rest + b), c);
  }

  /** Splitting can start again from the unfinished piece. */
  lemma {:induction false} SplitAfter(a: string, b: string)
    ensures SplitLines(a + b) == Complete(a) + SplitLines(Unfinished(a) + b)
  {
    if b == "" {
      assert a + b == a && Unfinished(a) + b == Unfinished(a);
      UnfinishedHasNoNewline(a);
      OneLine(Unfinished(a));
    } else {
      var front, c := b[..|b| - 1], b[|b| - 1];
      assert b == front + [c];
      SplitAfter(a, front);
      SplitAfterOneMore(Complete(a), Unfinished(a), a, front, c);
    }
  }

  lemma {:induction false} UnfinishedHasNoNewline(text: string)
    ensures '\n' !in Unfinished(text)
  {
    if text != "" {
      UnfinishedHasNoNewline(text[..|text| - 1]);
    }
  }

  lemma {:induction false} OneLine(text: string)
    requires '\n' !in text
    ensures SplitLines(text) == [text]
  {
    if text != "" {
      var front, c := text[..|text| - 1], text[|text| - 1];
      OneLine(front);
      assert c in text && text == front + [c];
      assert Extend([front], c) == [front + [c]];
    }
  }

  /** Lines put together again, with a newline between each two. */
  function Join(lines: seq<string>): string
    requires lines != []
  {
    if |lines| == 1 then lines[0] else Join(lines[..|lines| - 1]) + "\n" + lines[|lines| - 1]
  }

  lemma JoinExtended(lines: seq<string>, c: char)
    requires lines != []
    ensures Join(Extend(lines, c)) == Join(lines) + [c]
  {
    var front, last, r := lines[..|lines| - 1], lines[|lines| - 1], Extend(lines, c);
    if c == '\n' {
      assert r[..|r| - 1] == lines;
    } else {
      assert r[..|r| - 1] == front && r[|r| - 1] == last + [c];
    }
  }

  predicate NoNewlines(lines: seq<string>) {
    forall i :: 0 <= i < |lines| ==> '\n' !in lines[i]
  }

  lemma ExtendedHasNoNewlines(lines: seq<string>, c: char)
    requires lines != [] && NoNewlines(lines)
    ensures NoNewlines(Extend(lines, c))
  {
  }

  /** The pieces are the text cut at its newlines, exactly: joined they are the text again, and none
      has a newline. */
  lemma {:induction false} SplitIsExact(text: string)
    ensures Join(SplitLines(text)) == text
    ensures NoNewlines(SplitLines(text))
  {
    if text != "" {
      var front, c := text[..|text| - 1], text[|text| - 1];
      assert text == front + [c];
      SplitIsExact(front);
      JoinExtended(SplitLines(front), c);
      ExtendedHasNoNewlines(SplitLines(front), c);
    }
  }

  // ----- Frames -----

  predicate IsSpace(c: char) {
    || c in "\t\n\r " || c == '\U{0B}' || c == '\U{0C}' || c == '\U{A0}' || c == '\U{1680}'
    || '\U{2000}' <= c <= '\U{200A}' || c == '\U{2028}' || c == '\U{2029}' || c == '\U{202F}'
    || c == '\U{205F}' || c == '\U{3000}' || c == '\U{FEFF}'
  }

  function TrimStart(s: string): string {
    if s != "" && IsSpace(s[0]) then TrimStart(s[1..]) else s
  }

  function TrimEnd(s: string): string {
    if s != "" && IsSpace(s[|s| - 1]) then TrimEnd(s[..|s| - 1]) else s
  }

  const DATA := "data:"

  /** A line without the carriage return that may close it. */
  function Bare(raw: string): string {
    if raw != "" && raw[|raw| - 1] == '\r' then raw[..|raw| - 1] else raw
  }

  /** The frames, at most one, of one raw line. `parses` tells which texts are JSON. */
  function LineFrames(url: string, source: string, parses: string -> bool, raw: string): seq<Frame> {
    var line := Bare(raw);
    if !(DATA <= line) then []
    else
      var json := TrimEnd(TrimStart(line[|DATA|..]));
      if json == "" then []
      else [Frame(url, source, if parses(json) then Json(json) else RawText(json))]
  }

  predicate IsBlank(s: string) {
    forall i :: 0 <= i < |s| ==> IsSpace(s[i])
  }

  lemma {:induction false} TrimStartBlanks(a: string, s: string)
    requires IsBlank(a) && (s == "" || !IsSpace(s[0]))
    ensures TrimStart(a + s) == s
  {
    if a == "" {
      assert a + s == s;
    } else {
      assert (a + s)[1..] == a[1..] + s;
      TrimStartBlanks(a[1..], s);
    }
  }

  lemma {:induction false} TrimEndBlanks(s: string, b: string)
    requires IsBlank(b) && (s == "" || !IsSpace(s[|s| - 1]))
    ensures TrimEnd(s + b) == s
  {
    if b == "" {
      assert s + b == s;
    } else {
      assert (s + b)[..|s + b| - 1] == s + b[..|b| - 1];
      TrimEndBlanks(s, b[..|b| - 1]);
    }
  }

  lemma BareEnd(head: string, b: string)
    requires head != "" && head[|head| - 1] != '\r'
    ensures Bare(head + b) == head + Bare(b)
  {
    var raw := head + b;
    if b == "" {
      assert raw == head;
    } else {
      assert raw[|raw| - 1] == b[|b| - 1] && raw[..|raw| - 1] == head + b[..|b| - 1];
    }
  }

  lemma TrimBoth(a: string, json: string, b: string)
    requires IsBlank(a) && IsBlank(b) && json != "" && !IsSpace(json[0]) && !IsSpace(json[|json| - 1])
    ensures TrimEnd(TrimStart(a + (json + b))) == json
  {
    TrimStartBlanks(a, json + b);
    TrimEndBlanks(json, b);
  }

  /** A `data:` line gives one frame of its stream: the text without outer blanks and without a closing
      carriage return, as JSON if it parses and as raw text if not. */
  lemma {:induction false} FrameOfData(url: string, source: string, parses: string -> bool, a: string, json: string, b: string)
    requires IsBlank(a) && IsBlank(b) && json != "" && !IsSpace(json[0]) && !IsSpace(json[|json| - 1])
    ensures LineFrames(url, source, parses, "data:" + a + json + b) ==
            [Frame(url, source, if parses(json) then Json(json) else RawText(json))]
  {
    var head := "data:" + a + json;
    assert head[|head| - 1] == json[|json| - 1];
    BareEnd(head, b);
    var line := head + Bare(b);
    assert line[..5] == DATA && line[5..] == a + (json + Bare(b));
    TrimBoth(a, json, Bare(b));
  }

  /** A blank `data:` line and any other line give none. */
  lemma {:induction false} NoFrame(url: string, source: string, parses: string -> bool, a: string, other: string)
    requires IsBlank(a) && !("data:" <= other)
    ensures LineFrames(url, source, parses, "data:" + a) == []
    ensures LineFrames(url, source, parses, other) == []
  {
    assert "data:"[4] == ':';
    BareEnd("data:", a);
    assert ("data:" + Bare(a))[5..] == Bare(a) + "";
    TrimStartBlanks(Bare(a), "");
    assert DATA <= Bare(other) ==> DATA <= other;
  }

  function FramesOf(url: string, source: string, parses: string -> bool, lines: seq<string>): seq<Frame> {
    if lines == [] then []
    else FramesOf(url, source, parses, lines[..|lines| - 1]) + LineFrames(url, source, parses, lines[|lines| - 1])
  }

  lemma {:induction false} FramesOfConcat(
    url: string, source: string, parses: string -> bool, a: seq<string>, b: seq<string>)
    ensures FramesOf(url, source, parses, a + b) == FramesOf(url, source, parses, a) + FramesOf(url, source, parses, b)
  {
    if b == [] {
      assert a + b == a;
    } else {
      assert (a + b)[..|a + b| - 1] == a + b[..|b| - 1];
      FramesOfConcat(url, source, parses, a, b[..|b| - 1]);
    }
  }

  lemma FramesOfOneMore(
    url: string, source: string, parses: string -> bool, lines: seq<string>, i: nat, before: seq<Frame>)
    requires i < |lines|
    ensures before + FramesOf(url, source, parses, lines[..i + 1]) ==
            (before + FramesOf(url, source, parses, lines[..i])) + LineFrames(url, source, parses, lines[i])
  {
    assert lines[..i + 1][..i] == lines[..i];
  }

  // ----- The bounded buffer -----

  function Capacity(maxFrames: int): nat {
    if maxFrames < 0 then 0 else maxFrames
  }

  function Marker(maxFrames: int): Frame {
    Frame("capture-internal", "dom-marker", CaptureTruncated(maxFrames))
  }

  /** What the buffer holds once the frames `pushed` went in: the first `maxFrames`
      of them and, exactly when there were more, one marker. */
  function Kept(pushed: seq<Frame>, maxFrames: int): (kept: seq<Frame>)
    ensures |kept| <= Capacity(maxFrames) + 1
  {
    if |pushed| <= Capacity(maxFrames) then pushed
    else pushed[..Capacity(maxFrames)] + [Marker(maxFrames)]
  }

  /** A buffer that was not filled up holds every frame; one that was holds the first ones up to its
      limit and then one marker that names the limit. */
  lemma {:induction false} KeptMeaning(pushed: seq<Frame>, maxFrames: int)
    ensures pushed == [] || |pushed| <= maxFrames ==> Kept(pushed, maxFrames) == pushed
    ensures pushed != [] && |pushed| > maxFrames ==>
              var kept, n := Kept(pushed, maxFrames), if maxFrames < 0 then 0 else maxFrames;
              && |kept| == n + 1
              && (forall i :: 0 <= i < n ==> kept[i] == pushed[i])
              && kept[n] == Frame("capture-internal", "dom-marker", CaptureTruncated(maxFrames))
  {
  }

  /** The text a stream's parser has not turned into lines yet. */
  class Carry {
    var buf: string

    constructor ()
      ensures buf == ""
    {
      buf := "";
    }
  }

  class Capture {
    const maxFrames: int
    const parses: string -> bool
    var buffer: seq<Frame>
    var droppedOnce: bool
    ghost var pushed: seq<Frame>  // every frame handed to PushFrame

    ghost predicate Valid()
      reads this
    {
      && buffer == Kept(pushed, maxFrames)
      && (droppedOnce <==> |pushed| > Capacity(maxFrames))
    }

    constructor (maxFrames: int, parses: string -> bool)
      ensures Valid() && pushed == []
      ensures this.maxFrames == maxFrames && this.parses == parses
    {
      this.maxFrames, this.parses := maxFrames, parses;
      buffer, droppedOnce, pushed := [], false, [];
    }

    /** `pushFrame`. */
    method PushFrame(frame: Frame)
      requires Valid()
      modifies this
      ensures Valid() && pushed == old(pushed) + [frame]
    {
      pushed := pushed + [frame];
      if |buffer| >= maxFrames {
        if !droppedOnce {
          droppedOnce := true;
          buffer := buffer + [Marker(maxFrames)];
        }
      } else {
        buffer := buffer + [frame];
      }
    }

    /** `parseAndPush`. */
    method ParseAndPush(url: string, source: string, chunkText: string, carry: Carry)
      requires Valid()
      modifies this, carry
      ensures Valid()
      ensures carry.buf == Unfinished(old(carry.buf) + chunkText)
      ensures pushed == old(pushed) + FramesOf(url, source, parses, Complete(old(carry.buf) + chunkText))
    {
      carry.buf := carry.buf + chunkText;
      var lines := SplitLines(carry.buf);
      carry.buf := lines[|lines| - 1];
      PushLines(url, source, lines[..|lines| - 1]);
    }

    /** The body of that loop, for one raw line. */
    method PushLine(url: string, source: string, raw: string)
      requires Valid()
      modifies this
      ensures Valid() && pushed == old(pushed) + LineFrames(url, source, parses, raw)
    {
      var line := Bare(raw);
      if DATA <= line {
        var json := TrimEnd(TrimStart(line[|DATA|..]));
        if json != "" {
          PushFrame(Frame(url, source, if parses(json) then Json(json) else RawText(json)));
        }
      }
    }

    /** The loop of `parseAndPush` over the complete lines. */
    method PushLines(url: string, source: string, lines: seq<string>)
      requires Valid()
      modifies this
      ensures Valid() && pushed == old(pushed) + FramesOf(url, source, parses, lines)
    {
      for i := 0 to |lines|
        invariant Valid() && pushed == old(pushed) + FramesOf(url, source, parses, lines[..i])
      {
        FramesOfOneMore(url, source, parses, lines, i, old(pushed));
        PushLine(url, source, lines[i]);
      }
      assert lines[..|lines|] == lines;
    }

    /** The end of a stream: an unterminated last line is flushed. */
    method Finish(url: string, source: string, carry: Carry)
      requires Valid()
      modifies this, carry
      ensures Valid() && carry.buf == if old(carry.buf) == "" then "" else Unfinished(old(carry.buf) + "\n")
      ensures pushed == old(pushed) + (if old(carry.buf) == "" then []
                                       else FramesOf(url, source, parses, Complete(old(carry.buf) + "\n")))
    {
      if carry.buf != "" {
        ParseAndPush(url, source, "\n", carry);
      }
    }
  }

  // ----- Whole captures: any number of streams, any interleaving -----

  datatype Event = Chunk(stream: nat, text: string) | Done(stream: nat)

  datatype Push = Push(stream: nat, frame: Frame)

  /** The parsers' carries and the frames pushed so far, each with its stream. */
  datatype Session = Session(carry: map<nat, string>, pushes: seq<Push>)

  /** What is fixed during a capture. */
  datatype Setting = Setting(url: nat -> string, source: string, parses: string -> bool)

  function CarryOf(s: Session, stream: nat): string {
    if stream in s.carry then s.carry[stream] else ""
  }

  function Tag(stream: nat, frames: seq<Frame>): (r: seq<Push>)
    ensures |r| == |frames|
    ensures forall i :: 0 <= i < |r| ==> r[i] == Push(stream, frames[i])
  {
    seq(|frames|, i requires 0 <= i < |frames| => Push(stream, frames[i]))
  }

  function StreamFrames(x: Setting, stream: nat, lines: seq<string>): seq<Frame> {
    FramesOf(x.url(stream), x.source, x.parses, lines)
  }

  /** One `parseAndPush`, with the contract of the method above. */
  function Feed(x: Setting, s: Session, stream: nat, text: string): Session {
    var all := CarryOf(s, stream) + text;
    Session(s.carry[stream := Unfinished(all)], s.pushes + Tag(stream, StreamFrames(x, stream, Complete(all))))
  }

  function Step(x: Setting, s: Session, e: Event): Session {
    match e
    case Chunk(stream, text) => Feed(x, s, stream, text)
    case Done(stream) => if CarryOf(s, stream) == "" then s else Feed(x, s, stream, "\n")
  }

  function Run(x: Setting, events: seq<Event>): Session {
    if events == [] then Session(map[], [])
    else Step(x, Run(x, events[..|events| - 1]), events[|events| - 1])
  }

  /** The frames pushed, whatever their stream. */
  function Frames(pushes: seq<Push>): (r: seq<Frame>)
    ensures |r| == |pushes|
    ensures forall i :: 0 <= i < |r| ==> r[i] == pushes[i].frame
  {
    seq(|pushes|, i requires 0 <= i < |pushes| => pushes[i].frame)
  }

  lemma FramesOfTagged(pushes: seq<Push>, stream: nat, frames: seq<Frame>)
    ensures Frames(pushes + Tag(stream, frames)) == Frames(pushes) + frames
  {
  }

  /** One event as the code handles it, on the stream's own carry. */
  method Deliver(x: Setting, capture: Capture, carry: Carry, e: Event, ghost s: Session)
    requires capture.Valid() && capture.parses == x.parses
    requires capture.pushed == Frames(s.pushes) && carry.buf == CarryOf(s, e.stream)
    modifies capture, carry
    ensures capture.Valid() && capture.pushed == Frames(Step(x, s, e).pushes)
    ensures carry.buf == CarryOf(Step(x, s, e), e.stream)
  {
    var url := x.url(e.stream);
    ghost var all := carry.buf + (if e.Chunk? then e.text else "\n");
    FramesOfTagged(s.pushes, e.stream, StreamFrames(x, e.stream, Complete(all)));
    match e
    case Chunk(_, text) => capture.ParseAndPush(url, x.source, text, carry);
    case Done(_) => capture.Finish(url, x.source, carry);
  }

  /** The parsers' carries hold what the session says. */
  ghost predicate CarriesMatch(carries: map<nat, Carry>, s: Session)
    reads carries.Values
  {
    && (forall i :: i in carries ==> carries[i].buf == CarryOf(s, i))
    && (forall i :: i !in carries ==> CarryOf(s, i) == "")
    && (forall i, j :: i in carries && j in carries && i != j ==> carries[i] != carries[j])
  }

  /** A stream that is read for the first time gets an empty carry of its own. */
  method WithCarry(carries: map<nat, Carry>, stream: nat, ghost s: Session) returns (r: map<nat, Carry>)
    requires CarriesMatch(carries, s)
    ensures stream in r && CarriesMatch(r, s)
    ensures forall c :: c in r.Values ==> c in carries.Values || fresh(c)
  {
    r := carries;
    if stream !in carries {
      var carry := new Carry();
      r := carries[stream := carry];
    }
  }

  lemma OtherCarries(x: Setting, s: Session, e: Event, i: nat)
    requires i != e.stream
    ensures CarryOf(Step(x, s, e), i) == CarryOf(s, i)
  {
  }

  /** One event of a capture, with the carries of all its streams. */
  method Handle(x: Setting, capture: Capture, carries: map<nat, Carry>, e: Event, ghost s: Session)
    requires capture.Valid() && capture.parses == x.parses && capture.pushed == Frames(s.pushes)
    requires CarriesMatch(carries, s) && e.stream in carries
    modifies capture, carries.Values
    ensures capture.Valid() && capture.pushed == Frames(Step(x, s, e).pushes)
    ensures CarriesMatch(carries, Step(x, s, e))
  {
    Deliver(x, capture, carries[e.stream], e, s);
    forall i: nat | i != e.stream ensures CarryOf(Step(x, s, e), i) == CarryOf(s, i) {
      OtherCarries(x, s, e, i);
    }
  }

  /** A whole capture: the buffer holds the first frames of the run, up to the limit. */
  method Replay(x: Setting, maxFrames: int, events: seq<Event>) returns (buffer: seq<Frame>)
    ensures buffer == Kept(Frames(Run(x, events).pushes), maxFrames)
  {
    var capture := new Capture(maxFrames, x.parses);
    var carries: map<nat, Carry> := map[];
    ghost var s := Run(x, []);
    for i := 0 to |events|
      invariant s == Run(x, events[..i])
      invariant capture.Valid() && capture.pushed == Frames(s.pushes)
      invariant forall c :: c in carries.Values ==> fresh(c)
      invariant CarriesMatch(carries, s)
    {
      carries := WithCarry(carries, events[i].stream, s);
      Handle(x, capture, carries, events[i], s);
      RunOneMore(x, events, i);
      s := Step(x, s, events[i]);
    }
    assert events[..|events|] == events;
    buffer := capture.buffer;
  }

  lemma RunOneMore(x: Setting, events: seq<Event>, i: nat)
    requires i < |events|
    ensures Run(x, events[..i + 1]) == Step(x, Run(x, events[..i]), events[i])
  {
    assert events[..i + 1][..i] == events[..i];
  }

  /** The frames of one stream, in push order. */
  function Of(stream: nat, pushes: seq<Push>): seq<Frame> {
    if pushes == [] then []
    else Of(stream, pushes[..|pushes| - 1])
         + (if pushes[|pushes| - 1].stream == stream then [pushes[|pushes| - 1].frame] else [])
  }

  /** All the text a stream received. */
  function TextOf(stream: nat, events: seq<Event>): string {
    if events == [] then ""
    else
      var e := events[|events| - 1];
      TextOf(stream, events[..|events| - 1]) + (if e.Chunk? && e.stream == stream then e.text else "")
  }

  predicate Ended(stream: nat, events: seq<Event>) {
    Done(stream) in events
  }

  /** A stream is read no further once it is done. */
  predicate Readable(events: seq<Event>) {
    forall i, j :: 0 <= i < j < |events| && events[i].Done? ==> events[j].stream != events[i].stream
  }

  lemma {:induction false} FramesAreOfTheLine(url: string, source: string, parses: string -> bool, lines: seq<string>)
    ensures forall f :: f in FramesOf(url, source, parses, lines) ==> f.url == url && f.source == source
  {
    if lines != [] {
      FramesAreOfTheLine(url, source, parses, lines[..|lines| - 1]);
    }
  }

  /** Each frame of a capture names the address of its stream and the capture's source. */
  lemma {:induction false} FramesNameTheirStream(x: Setting, events: seq<Event>)
    ensures forall p :: p in Run(x, events).pushes ==> p.frame.url == x.url(p.stream) && p.frame.source == x.source
  {
    if events != [] {
      var s, e := Run(x, events[..|events| - 1]), events[|events| - 1];
      FramesNameTheirStream(x, events[..|events| - 1]);
      var all := CarryOf(s, e.stream) + (if e.Chunk? then e.text else "\n");
      FramesAreOfTheLine(x.url(e.stream), x.source, x.parses, Complete(all));
      TaggedFrames(e.stream, StreamFrames(x, e.stream, Complete(all)));
    }
  }

  lemma TaggedFrames(stream: nat, frames: seq<Frame>)
    ensures forall p :: p in Tag(stream, frames) ==> p.stream == stream && p.frame in frames
  {
  }

  lemma {:induction false} OfConcat(stream: nat, a: seq<Push>, b: seq<Push>)
    ensures Of(stream, a + b) == Of(stream, a) + Of(stream, b)
  {
    if b == [] {
      assert a + b == a;
    } else {
      assert (a + b)[..|a + b| - 1] == a + b[..|b| - 1];
      OfConcat(stream, a, b[..|b| - 1]);
    }
  }

  lemma {:induction false} OfTag(stream: nat, owner: nat, frames: seq<Frame>)
    ensures Of(stream, Tag(owner, frames)) == if owner == stream then frames else []
  {
    if frames != [] {
      var front := frames[..|frames| - 1];
      assert Tag(owner, frames)[..|frames| - 1] == Tag(owner, front);
      OfTag(stream, owner, front);
      assert frames == front + [frames[|frames| - 1]];
    }
  }

  /** What one call adds to each stream. */
  lemma FeedAdds(x: Setting, s: Session, owner: nat, text: string, stream: nat)
    ensures var s' := Feed(x, s, owner, text);
            if owner == stream then
              && CarryOf(s', stream) == Unfinished(CarryOf(s, stream) + text)
              && Of(stream, s'.pushes) == Of(stream, s.pushes) + StreamFrames(x, stream, Complete(CarryOf(s, stream) + text))
            else
              CarryOf(s', stream) == CarryOf(s, stream) && Of(stream, s'.pushes) == Of(stream, s.pushes)
  {
    var frames := StreamFrames(x, owner, Complete(CarryOf(s, owner) + text));
    OfConcat(stream, s.pushes, Tag(owner, frames));
    OfTag(stream, owner, frames);
  }

  lemma AppendedText(x: Setting, stream: nat, before: string, text: string)
    ensures Unfinished(Unfinished(before) + text) == Unfinished(before + text)
    ensures StreamFrames(x, stream, Complete(before)) + StreamFrames(x, stream, Complete(Unfinished(before) + text))
            == StreamFrames(x, stream, Complete(before + text))
  {
    SplitAfter(before, text);
    var tail := SplitLines(Unfinished(before) + text);
    assert Complete(before + text) == Complete(before) + tail[..|tail| - 1];
    FramesOfConcat(x.url(stream), x.source, x.parses, Complete(before), tail[..|tail| - 1]);
  }

  lemma {:induction false} WhileOpen(x: Setting, events: seq<Event>, stream: nat)
    requires !Ended(stream, events)
    ensures CarryOf(Run(x, events), stream) == Unfinished(TextOf(stream, events))
    ensures Of(stream, Run(x, events).pushes) == StreamFrames(x, stream, Complete(TextOf(stream, events)))
  {
    if events != [] {
      var before, e := events[..|events| - 1], events[|events| - 1];
      assert e in events && forall d :: d in before ==> d in events;
      WhileOpen(x, before, stream);
      FeedAdds(x, Run(x, before), e.stream, if e.Chunk? then e.text else "\n", stream);
      if e.Chunk? && e.stream == stream {
        AppendedText(x, stream, TextOf(stream, before), e.text);
      } else {
        assert TextOf(stream, events) == TextOf(stream, before);
      }
    }
  }

  /** Flushing an unfinished line yields that line's frames. */
  lemma FlushedLine(x: Setting, stream: nat, text: string)
    ensures StreamFrames(x, stream, SplitLines(text)) ==
            StreamFrames(x, stream, Complete(text)) +
            (if Unfinished(text) == "" then [] else StreamFrames(x, stream, Complete(Unfinished(text) + "\n")))
  {
    var last := Unfinished(text);
    UnfinishedHasNoNewline(text);
    OneLine(last);
    assert (last + "\n")[..|last + "\n"| - 1] == last;
    assert Complete(last + "\n") == [last];
    assert SplitLines(text) == Complete(text) + [last];
    FramesOfConcat(x.url(stream), x.source, x.parses, Complete(text), [last]);
    if last == "" {
      assert [last][..0] == [];
      assert FramesOf(x.url(stream), x.source, x.parses, [last]) == [];
    }
  }

  /** The frames of a finished stream are those of the lines of all its text, the
      unterminated last line included: however the text was cut into chunks, and
      whatever the other streams did in between. */
  lemma {:induction false} FramesDependOnTextOnly(x: Setting, events: seq<Event>, stream: nat)
    requires Readable(events) && Ended(stream, events)
    ensures Of(stream, Run(x, events).pushes) == StreamFrames(x, stream, SplitLines(TextOf(stream, events)))
  {
    var before, e := events[..|events| - 1], events[|events| - 1];
    var s := Run(x, before);
    FeedAdds(x, s, e.stream, if e.Chunk? then e.text else "\n", stream);
    if e == Done(stream) {
      forall i | 0 <= i < |before| ensures before[i] != Done(stream) {
        assert events[i] == before[i];
      }
      WhileOpen(x, before, stream);
      FlushedLine(x, stream, TextOf(stream, before));
    } else {
      var i :| 0 <= i < |events| && events[i] == Done(stream);
      assert before[i] == Done(stream) && e.stream != stream;
      assert Readable(before);
      FramesDependOnTextOnly(x, before, stream);
    }
    assert TextOf(stream, events) == TextOf(stream, before);
  }

  /** Two captures that gave a stream the same text recorded the same frames for it. */
  lemma {:induction false} ChunkingIsInvisible(x: Setting, events: seq<Event>, events': seq<Event>, stream: nat)
    requires Readable(events) && Ended(stream, events)
    requires Readable(events') && Ended(stream, events')
    requires TextOf(stream, events) == TextOf(stream, events')
    ensures Of(stream, Run(x, events).pushes) == Of(stream, Run(x, events').pushes)
  {
    FramesDependOnTextOnly(x, events, stream);
    FramesDependOnTextOnly(x, events', stream);
  }
}
