/** NauliteClient.streamRunEvents: the incremental event stream parser, and the stream route that feeds it. */
module Sse {
  import opened Sequences
  import opened Naming
  import opened Text

  // ---- frames -----------------------------------------------------------------------------

  /** The position of the first blank line, or the length when there is none. */
  function Boundary(s: string): (b: nat)
    ensures b <= |s|
    ensures b < |s| ==> b + 2 <= |s| && s[b] == '\n' && s[b + 1] == '\n'
    ensures forall i :: 0 <= i < b && i + 1 < |s| ==> !(s[i] == '\n' && s[i + 1] == '\n')
  {
    if |s| < 2 then |s|
    else if s[0] == '\n' && s[1] == '\n' then 0
    else 1 + Boundary(s[1..])
  }

  predicate Ends(s: string) {
    Boundary(s) < |s|
  }

  /** The finished frames of a text, cut at leftmost blank lines. */
  function Frames(s: string): seq<string>
    decreases |s|
  {
    if !Ends(s) then [] else [s[..Boundary(s)]] + Frames(s[Boundary(s) + 2..])
  }

  /** What is left behind the last finished frame. */
  function Tail(s: string): string
    decreases |s|
  {
    if !Ends(s) then s else Tail(s[Boundary(s) + 2..])
  }

  function Joined(frames: seq<string>): string {
    if frames == [] then "" else frames[0] + "\n\n" + Joined(frames[1..])
  }

  function Concat(chunks: seq<string>): string {
    if chunks == [] then "" else Concat(chunks[..|chunks| - 1]) + chunks[|chunks| - 1]
  }

  lemma {:induction false} BoundaryIs(s: string, b: nat)
    requires b + 2 <= |s| && s[b] == '\n' && s[b + 1] == '\n'
    requires forall i :: 0 <= i < b ==> !(s[i] == '\n' && s[i + 1] == '\n')
    ensures Boundary(s) == b
  {
    if b > 0 {
      forall i | 0 <= i < b - 1
        ensures !(s[1..][i] == '\n' && s[1..][i + 1] == '\n')
      {
        assert !(s[i + 1] == '\n' && s[i + 1 + 1] == '\n');
      }
      BoundaryIs(s[1..], b - 1);
      assert !(s[0] == '\n' && s[0 + 1] == '\n');
    }
  }

  lemma BoundaryStays(s: string, more: string)
    requires Ends(s)
    ensures Ends(s + more) && Boundary(s + more) == Boundary(s)
    ensures (s + more)[..Boundary(s)] == s[..Boundary(s)]
    ensures (s + more)[Boundary(s) + 2..] == s[Boundary(s) + 2..] + more
  {
    var b, t := Boundary(s), s + more;
    forall i | 0 <= i < b
      ensures !(t[i] == '\n' && t[i + 1] == '\n')
    {
      assert t[i] == s[i] && t[i + 1] == s[i + 1];
    }
    BoundaryIs(t, b);
  }

  lemma FirstFrameOf(s: string, more: string)
    requires Ends(s)
    ensures Frames(s + more) == [s[..Boundary(s)]] + Frames(s[Boundary(s) + 2..] + more)
    ensures Tail(s + more) == Tail(s[Boundary(s) + 2..] + more)
  {
    BoundaryStays(s, more);
    FirstFrame(s + more);
  }

  lemma NoFrameYet(s: string)
    requires !Ends(s)
    ensures Frames(s) == [] && Tail(s) == s
  {
  }

  /** What is to be shown of a text and a later one, under a name. */
  predicate Appends(s: string, more: string) {
    && Frames(s + more) == Frames(s) + Frames(Tail(s) + more)
    && Tail(s + more) == Tail(Tail(s) + more)
  }

  lemma AppendsWithout(s: string, more: string)
    requires !Ends(s)
    ensures Appends(s, more)
  {
    NoFrameYet(s);
    assert [] + Frames(s + more) == Frames(s + more);
  }

  lemma AppendsBehind(s: string, more: string)
    requires Ends(s) && Appends(s[Boundary(s) + 2..], more)
    ensures Appends(s, more)
  {
    var f, rest := s[..Boundary(s)], s[Boundary(s) + 2..];
    FirstFrame(s);
    FirstFrameOf(s, more);
    Regroup([f], Frames(rest), Frames(Tail(rest) + more));
  }

  lemma {:induction false} AllAppend(s: string, more: string)
    ensures Appends(s, more)
    decreases |s|
  {
    if Ends(s) {
      AllAppend(s[Boundary(s) + 2..], more);
      AppendsBehind(s, more);
    } else {
      AppendsWithout(s, more);
    }
  }

  /** Text that arrives later only extends the unfinished tail. */
  lemma FramesAppend(s: string, more: string)
    ensures Frames(s + more) == Frames(s) + Frames(Tail(s) + more)
    ensures Tail(s + more) == Tail(Tail(s) + more)
  {
    AllAppend(s, more);
  }

  /** A frame as the parser cuts it: the blank line that ends it is the first one. */
  predicate IsFrame(f: string) {
    Boundary(f + "\n\n") == |f|
  }

  /** No blank line begins before the frame's end, so none inside it and none across its last character. */
  predicate NoBlankLine(f: string) {
    (f == "" || f[|f| - 1] != '\n') && forall i :: 0 <= i < |f| - 1 ==> !(f[i] == '\n' && f[i + 1] == '\n')
  }

  lemma FramesHaveNoBlankLine(f: string)
    requires IsFrame(f)
    ensures NoBlankLine(f)
  {
    var s := f + "\n\n";
    forall i | 0 <= i < |f|
      ensures !(s[i] == '\n' && s[i + 1] == '\n')
    {
    }
    assert f != "" ==> s[|f| - 1 + 1] == '\n' && s[|f| - 1] == f[|f| - 1];
    forall i | 0 <= i < |f| - 1
      ensures !(f[i] == '\n' && f[i + 1] == '\n')
    {
      assert s[i] == f[i] && s[i + 1] == f[i + 1];
    }
  }

  lemma IsFrameIff(f: string)
    ensures IsFrame(f) <==> NoBlankLine(f)
  {
    if NoBlankLine(f) {
      var s := f + "\n\n";
      forall i | 0 <= i < |f|
        ensures !(s[i] == '\n' && s[i + 1] == '\n')
      {
        assert i < |f| - 1 ==> !(f[i] == '\n' && f[i + 1] == '\n');
      }
      BoundaryIs(s, |f|);
    }
    if IsFrame(f) {
      FramesHaveNoBlankLine(f);
    }
  }

  ghost predicate Decomposes(s: string, frames: seq<string>, tail: string) {
    && s == Joined(frames) + tail
    && (forall f :: f in frames ==> IsFrame(f))
    && !Ends(tail)
  }

  lemma HeadBoundary(f: string, rest: string)
    requires IsFrame(f)
    ensures Boundary(f + "\n\n" + rest) == |f|
  {
    var s := f + "\n\n";
    forall i | 0 <= i < |f|
      ensures !((s + rest)[i] == '\n' && (s + rest)[i + 1] == '\n')
    {
      assert !(s[i] == '\n' && s[i + 1] == '\n');
    }
    BoundaryIs(s + rest, |f|);
  }

  lemma CutIsFrame(s: string)
    requires Ends(s)
    ensures IsFrame(s[..Boundary(s)])
  {
    var b := Boundary(s);
    var f := s[..b] + "\n\n";
    forall i | 0 <= i < b
      ensures !(f[i] == '\n' && f[i + 1] == '\n')
    {
      assert !(s[i] == '\n' && s[i + 1] == '\n');
    }
    BoundaryIs(f, b);
  }

  lemma CutAt(s: string, f: string, rest: string)
    requires IsFrame(f) && s == f + "\n\n" + rest
    ensures Ends(s) && Frames(s) == [f] + Frames(rest) && Tail(s) == Tail(rest)
  {
    HeadBoundary(f, rest);
    assert s[|f| + 2..] == rest && s[..|f|] == f;
  }

  lemma {:induction false} UniqueDecomposition(s: string, frames: seq<string>, tail: string)
    requires Decomposes(s, frames, tail)
    ensures frames == Frames(s) && tail == Tail(s)
    decreases |frames|
  {
    if frames == [] {
      assert s == tail;
    } else {
      var rest := Joined(frames[1..]) + tail;
      assert s == frames[0] + "\n\n" + rest;
      UniqueDecomposition(rest, frames[1..], tail);
      CutAt(s, frames[0], rest);
    }
  }

  lemma DecomposeStep(s: string, f: string, rest: string, frames: seq<string>, tail: string)
    requires IsFrame(f) && s == f + "\n\n" + rest && Decomposes(rest, frames, tail)
    ensures Decomposes(s, [f] + frames, tail)
  {
    JoinedCons(f, frames, tail);
  }

  lemma CutsInTwo(s: string)
    requires Ends(s)
    ensures s == s[..Boundary(s)] + "\n\n" + s[Boundary(s) + 2..]
  {
  }

  lemma {:induction false} FramesDecompose(s: string)
    ensures Decomposes(s, Frames(s), Tail(s))
    decreases |s|
  {
    if !Ends(s) {
      assert Joined([]) + s == s;
    } else {
      var f, rest := s[..Boundary(s)], s[Boundary(s) + 2..];
      FramesDecompose(rest);
      CutIsFrame(s);
      CutsInTwo(s);
      DecomposeStep(s, f, rest, Frames(rest), Tail(rest));
    }
  }

  lemma JoinedCons(f: string, frames: seq<string>, tail: string)
    ensures Joined([f] + frames) + tail == f + "\n\n" + (Joined(frames) + tail)
  {
    assert ([f] + frames)[1..] == frames;
  }

  /** The parser's cut is the only way to write a text as frames and an unfinished tail. */
  lemma OnlyDecomposition(s: string, frames: seq<string>, tail: string)
    ensures Decomposes(s, frames, tail) <==> frames == Frames(s) && tail == Tail(s)
  {
    FramesDecompose(s);
    if Decomposes(s, frames, tail) {
      UniqueDecomposition(s, frames, tail);
    }
  }

  // ---- events -----------------------------------------------------------------------------

  /** `split` on line feeds. */
  function Lines(s: string): (r: seq<string>)
    ensures r != []
  {
    if s == "" then [""]
    else if s[0] == '\n' then [""] + Lines(s[1..])
    else [[s[0]] + Lines(s[1..])[0]] + Lines(s[1..])[1..]
  }

  predicate IsData(line: string) {
    |line| >= 5 && line[..5] == "data:"
  }

  function FirstData(lines: seq<string>): (r: Option<string>)
    ensures r.Some? ==> IsData(r.value)
  {
    if lines == [] then None else if IsData(lines[0]) then Some(lines[0]) else FirstData(lines[1..])
  }

  /** The payload of a frame's first data line; none when it is blank or the end marker. */
  function PayloadOf(frame: string): Option<string> {
    var line := FirstData(Lines(frame));
    if line.None? then None
    else
      var payload := Trim(line.value[5..]);
      if payload == "" || payload == "[DONE]" then None else Some(payload)
  }

  /** `JSON.parse`; none stands for the exception. */
  type Parser<E> = string -> Option<E>

  /** The events yielded so far, and whether a payload that does not parse ended the iteration. */
  datatype Delivery<E> = Delivery(events: seq<E>, failed: bool)

  function Delivered<E>(frames: seq<string>, parse: Parser<E>): Delivery<E> {
    if frames == [] then Delivery([], false)
    else
      var payload := PayloadOf(frames[0]);
      if payload.None? then Delivered(frames[1..], parse)
      else if parse(payload.value).None? then Delivery([], true)
      else
        var rest := Delivered(frames[1..], parse);
        Delivery([parse(payload.value).value] + rest.events, rest.failed)
  }

  /** What has been delivered, extended by the frames still in the buffer. */
  function With<E>(events: seq<E>, more: Delivery<E>): Delivery<E> {
    Delivery(events + more.events, more.failed)
  }

  lemma {:induction false} DeliveredAppend<E>(a: seq<string>, b: seq<string>, parse: Parser<E>)
    ensures Delivered(a + b, parse) ==
            if Delivered(a, parse).failed then Delivered(a, parse)
            else With(Delivered(a, parse).events, Delivered(b, parse))
  {
    if a == [] {
      assert a + b == b;
      assert [] + Delivered(b, parse).events == Delivered(b, parse).events;
    } else {
      assert (a + b)[1..] == a[1..] + b && (a + b)[0] == a[0];
      DeliveredAppend(a[1..], b, parse);
      var payload := PayloadOf(a[0]);
      if payload.Some? && parse(payload.value).Some? {
        var event := parse(payload.value).value;
        var rest := Delivered(a[1..], parse).events;
        assert [event] + (rest + Delivered(b, parse).events) == ([event] + rest) + Delivered(b, parse).events;
      }
    }
  }

  lemma DeliverOne<E>(events: seq<E>, frame: string, rest: seq<string>, parse: Parser<E>)
    ensures var payload := PayloadOf(frame);
            With(events, Delivered([frame] + rest, parse)) ==
            if payload.None? then With(events, Delivered(rest, parse))
            else if parse(payload.value).None? then Delivery(events, true)
            else With(events + [parse(payload.value).value], Delivered(rest, parse))
  {
    assert ([frame] + rest)[1..] == rest;
    var payload, more := PayloadOf(frame), Delivered(rest, parse).events;
    if payload.Some? && parse(payload.value).Some? {
      var event := parse(payload.value).value;
      assert events + ([event] + more) == (events + [event]) + more;
    }
    assert events + [] == events;
  }

  lemma FirstFrame(s: string)
    requires Ends(s)
    ensures Frames(s) == [s[..Boundary(s)]] + Frames(s[Boundary(s) + 2..])
    ensures Tail(s) == Tail(s[Boundary(s) + 2..])
  {
  }

  /** Taking one frame off the buffer. */
  lemma TakeFrame<E>(events: seq<E>, buffer: string, parse: Parser<E>)
    requires Ends(buffer)
    ensures var rest, payload := buffer[Boundary(buffer) + 2..], PayloadOf(buffer[..Boundary(buffer)]);
            && Tail(buffer) == Tail(rest)
            && With(events, Delivered(Frames(buffer), parse)) ==
               if payload.None? then With(events, Delivered(Frames(rest), parse))
               else if parse(payload.value).None? then Delivery(events, true)
               else With(events + [parse(payload.value).value], Delivered(Frames(rest), parse))
  {
    FirstFrame(buffer);
    DeliverOne(events, buffer[..Boundary(buffer)], Frames(buffer[Boundary(buffer) + 2..]), parse);
  }

  /** A new chunk adds the frames it finishes together with the buffered tail. */
  lemma TakeChunk<E>(events: seq<E>, before: string, chunk: string, parse: Parser<E>)
    requires Delivered(Frames(before), parse) == Delivery(events, false)
    ensures Delivered(Frames(before + chunk), parse) == With(events, Delivered(Frames(Tail(before) + chunk), parse))
    ensures Tail(before + chunk) == Tail(Tail(before) + chunk)
  {
    FramesAppend(before, chunk);
    DeliveredAppend(Frames(before), Frames(Tail(before) + chunk), parse);
  }

  /**
   * The reading loop. However the stream was cut into chunks, it yields the events of the frames of the whole
   * text and stops at the first payload that does not parse; the unfinished tail yields nothing.
   */
  method StreamRunEvents<E>(chunks: seq<string>, parse: Parser<E>) returns (delivery: Delivery<E>)
    ensures delivery == Delivered(Frames(Concat(chunks)), parse)
  {
    var events: seq<E> := [];
    var buffer := "";
    assert Concat(chunks[..0]) == "";
    for i := 0 to |chunks|
      invariant Delivered(Frames(Concat(chunks[..i])), parse) == Delivery(events, false)
      invariant buffer == Tail(Concat(chunks[..i]))
    {
      ghost var text := Concat(chunks[..i + 1]);
      assert chunks[..i + 1][..i] == chunks[..i];
      TakeChunk(events, Concat(chunks[..i]), chunks[i], parse);
      buffer := buffer + chunks[i];
      while Ends(buffer)
        invariant With(events, Delivered(Frames(buffer), parse)) == Delivered(Frames(text), parse)
        invariant Tail(buffer) == Tail(text)
        decreases |buffer|
      {
        TakeFrame(events, buffer, parse);
        var boundary := Boundary(buffer);
        var chunk := buffer[..boundary];
        buffer := buffer[boundary + 2..];
        var dataLine := FirstData(Lines(chunk));
        if dataLine.None? {
          continue;
        }
        var payload := Trim(dataLine.value[5..]);
        if payload == "" || payload == "[DONE]" {
          continue;
        }
        var event := parse(payload);
        if event.None? {
          FailureIsFinal(chunks, i + 1, parse);
          return Delivery(events, true);
        }
        events := events + [event.value];
      }
      assert events + [] == events;
    }
    assert chunks[..|chunks|] == chunks;
    delivery := Delivery(events, false);
  }

  lemma {:induction false} FailureIsFinal<E>(chunks: seq<string>, i: nat, parse: Parser<E>)
    requires i <= |chunks| && Delivered(Frames(Concat(chunks[..i])), parse).failed
    ensures Delivered(Frames(Concat(chunks)), parse) == Delivered(Frames(Concat(chunks[..i])), parse)
    decreases |chunks| - i
  {
    if i == |chunks| {
      assert chunks[..i] == chunks;
    } else {
      assert chunks[..i + 1][..i] == chunks[..i];
      FramesAppend(Concat(chunks[..i]), chunks[i]);
      DeliveredAppend(Frames(Concat(chunks[..i])), Frames(Tail(Concat(chunks[..i])) + chunks[i]), parse);
      FailureIsFinal(chunks, i + 1, parse);
    }
  }

  // ---- the payload of a frame ---------------------------------------------------------------

  /** Lines with a line feed between them. */
  function JoinLines(lines: seq<string>): string
    requires lines != []
  {
    if |lines| == 1 then lines[0] else lines[0] + "\n" + JoinLines(lines[1..])
  }

  lemma {:induction false} LineBefore(line: string, rest: string)
    requires '\n' !in line
    ensures Lines(line) == [line] && Lines(line + "\n" + rest) == [line] + Lines(rest)
  {
    if line == "" {
      assert ("" + "\n" + rest)[1..] == rest;
    } else {
      assert line[0] in line && forall c :: c in line[1..] ==> c in line;
      LineBefore(line[1..], rest);
      assert (line + "\n" + rest)[1..] == line[1..] + "\n" + rest;
      assert [line[0]] + line[1..] == line;
    }
  }

  lemma {:induction false} LinesOfJoined(lines: seq<string>)
    requires lines != [] && forall line :: line in lines ==> '\n' !in line
    ensures Lines(JoinLines(lines)) == lines
  {
    assert lines[0] in lines;
    if |lines| == 1 {
      LineBefore(lines[0], "");
      assert lines == [lines[0]];
    } else {
      LinesOfJoined(lines[1..]);
      LineBefore(lines[0], JoinLines(lines[1..]));
    }
  }

  lemma {:induction false} FirstDataAt(lines: seq<string>, k: nat)
    requires k < |lines| && "data:" <= lines[k] && forall i :: 0 <= i < k ==> !("data:" <= lines[i])
    ensures FirstData(lines) == Some(lines[k])
  {
    if k > 0 {
      FirstDataAt(lines[1..], k - 1);
    }
  }

  lemma {:induction false} NoData(lines: seq<string>)
    requires forall i :: 0 <= i < |lines| ==> !("data:" <= lines[i])
    ensures FirstData(lines) == None
  {
    if lines != [] {
      NoData(lines[1..]);
    }
  }

  /**
   * The payload of a frame is what its first line that starts with `data:` says behind that, without the blanks
   * around it; a blank one and the end marker are none, and so is a frame without such a line. Other lines, and
   * later ones of that kind, are ignored.
   */
  lemma PayloadIsFirstDataLine(lines: seq<string>, k: nat, left: string, payload: string, right: string)
    requires k < |lines| && forall line :: line in lines ==> '\n' !in line
    requires lines[k] == "data:" + (left + (payload + right)) && forall i :: 0 <= i < k ==> !("data:" <= lines[i])
    requires (forall c :: c in left ==> IsSpace(c)) && (forall c :: c in right ==> IsSpace(c))
    requires payload == "" || (!IsSpace(payload[0]) && !IsSpace(payload[|payload| - 1]))
    ensures PayloadOf(JoinLines(lines)) == if payload == "" || payload == "[DONE]" then None else Some(payload)
  {
    LinesOfJoined(lines);
    FirstDataAt(lines, k);
    assert lines[k][5..] == left + (payload + right);
    TrimBetween(left, payload, right);
  }

  lemma NoPayload(lines: seq<string>)
    requires lines != [] && forall line :: line in lines ==> '\n' !in line && !("data:" <= line)
    ensures PayloadOf(JoinLines(lines)) == None
  {
    LinesOfJoined(lines);
    assert forall i :: 0 <= i < |lines| ==> lines[i] in lines;
    NoData(lines);
  }

  lemma {:induction false} TrimBetween(left: string, s: string, right: string)
    requires (forall c :: c in left ==> IsSpace(c)) && (forall c :: c in right ==> IsSpace(c))
    requires s == "" || (!IsSpace(s[0]) && !IsSpace(s[|s| - 1]))
    ensures Trim(left + (s + right)) == s
  {
    TrimEndSpaces(right);
    if left == "" {
      assert left + (s + right) == s + right;
      TrimEndAppend(s, right);
      if s == "" {
        assert s + right == right;
        TrimStartEnd(right);
      } else {
        TrimEndIdle(s);
        TrimStartIdle(s + right);
      }
    } else {
      assert left[0] in left && forall c :: c in left[1..] ==> c in left;
      assert (left + (s + right))[1..] == left[1..] + (s + right);
      TrimBetween(left[1..], s, right);
    }
  }

  // ---- the stream route -------------------------------------------------------------------

  /** A pipeline event: its row id and its JSON text. */
  datatype Sent = Sent(id: nat, json: string)

  /** What the route writes for one event. */
  function Written(event: Sent): string {
    "id: " + Decimal(event.id) + "\n" + "data: " + event.json + "\n\n"
  }

  function AllWritten(events: seq<Sent>): string {
    if events == [] then "" else Written(events[0]) + AllWritten(events[1..])
  }

  /** One-line JSON of an object. */
  predicate IsObjectText(json: string) {
    |json| >= 2 && json[0] == '{' && json[|json| - 1] == '}' && '\n' !in json
  }

  function FrameOf(event: Sent): string {
    "id: " + Decimal(event.id) + "\n" + "data: " + event.json
  }

  lemma {:induction false} OneLine(s: string)
    requires '\n' !in s
    ensures Lines(s) == [s]
  {
    if s != "" {
      OneLine(s[1..]);
      assert [s[0]] + s[1..] == s;
    }
  }

  lemma {:induction false} TwoLines(a: string, b: string)
    requires '\n' !in a && '\n' !in b
    ensures Lines(a + "\n" + b) == [a, b]
  {
    var s := a + "\n" + b;
    if a == "" {
      assert s[1..] == b;
      OneLine(b);
    } else {
      assert s[1..] == a[1..] + "\n" + b;
      TwoLines(a[1..], b);
      assert [s[0]] + a[1..] == a;
    }
  }

  lemma FrameOfIsFrame(event: Sent)
    requires IsObjectText(event.json)
    ensures IsFrame(FrameOf(event))
  {
    var f, head := FrameOf(event), "id: " + Decimal(event.id);
    assert f == head + ['\n'] + ("data: " + event.json);
    assert f[|f| - 1] == '}';
    forall i | 0 <= i < |f| - 1
      ensures !(f[i] == '\n' && f[i + 1] == '\n')
    {
      if i < |head| {
        assert f[i] == head[i] && f[i] in head;
      } else if i > |head| {
        assert f[i] == ("data: " + event.json)[i - |head| - 1];
      } else {
        assert f[i + 1] == 'd';
      }
    }
    IsFrameIff(f);
  }

  lemma FramePayload(event: Sent)
    requires IsObjectText(event.json)
    ensures PayloadOf(FrameOf(event)) == Some(event.json)
  {
    var head, data := "id: " + Decimal(event.id), "data: " + event.json;
    TwoLines(head, data);
    assert FrameOf(event) == head + "\n" + data;
    assert head[0] == 'i' && !IsData(head);
    assert data[..5] == "data:" && data[5..] == [' '] + event.json;
    assert FirstData([head, data]) == FirstData([data]) == Some(data) by {
      assert [head, data][1..] == [data];
    }
    TrimSpaced(event.json);
  }

  lemma TrimSpaced(s: string)
    requires s != "" && !IsSpace(s[0]) && !IsSpace(s[|s| - 1])
    ensures Trim([' '] + s) == s
  {
    assert ([' '] + s)[1..] == s;
    TrimStartIdle(s);
    TrimEndIdle(s);
  }

  function FramesOf(events: seq<Sent>): seq<string> {
    if events == [] then [] else [FrameOf(events[0])] + FramesOf(events[1..])
  }

  lemma {:induction false} WrittenFrames(events: seq<Sent>)
    requires forall e :: e in events ==> IsObjectText(e.json)
    ensures Frames(AllWritten(events)) == FramesOf(events)
    ensures Tail(AllWritten(events)) == ""
  {
    if events != [] {
      FrameOfIsFrame(events[0]);
      WrittenFrames(events[1..]);
      assert AllWritten(events) == FrameOf(events[0]) + "\n\n" + AllWritten(events[1..]);
      CutAt(AllWritten(events), FrameOf(events[0]), AllWritten(events[1..]));
    }
  }

  lemma {:induction false} DeliveredAll<E>(sent: seq<Sent>, parse: Parser<E>, values: seq<E>)
    requires |sent| == |values|
    requires forall i :: 0 <= i < |sent| ==> IsObjectText(sent[i].json) && parse(sent[i].json) == Some(values[i])
    ensures Delivered(FramesOf(sent), parse) == Delivery(values, false)
  {
    if sent != [] {
      FramePayload(sent[0]);
      DeliveredAll(sent[1..], parse, values[1..]);
      assert FramesOf(sent)[1..] == FramesOf(sent[1..]);
      assert [values[0]] + values[1..] == values;
    }
  }

  /**
   * Round trip: whatever the transport does to chunk borders, the client yields exactly the events the stream
   * route wrote, once each and in order.
   */
  lemma ClientReadsWhatTheRouteWrites<E>(sent: seq<Sent>, chunks: seq<string>, parse: Parser<E>, values: seq<E>)
    requires |sent| == |values| && Concat(chunks) == AllWritten(sent)
    requires forall i :: 0 <= i < |sent| ==> IsObjectText(sent[i].json) && parse(sent[i].json) == Some(values[i])
    ensures Delivered(Frames(Concat(chunks)), parse) == Delivery(values, false)
  {
    WrittenFrames(sent);
    DeliveredAll(sent, parse, values);
  }

  /** Frames end at two line feeds only: a stream with carriage returns between its line feeds yields nothing. */
  lemma CarriageReturnsYieldNothing<E>(s: string, parse: Parser<E>)
    requires forall i :: 0 <= i < |s| - 1 && s[i] == '\n' ==> s[i + 1] != '\n'
    ensures Delivered(Frames(s), parse) == Delivery([], false) && Tail(s) == s
  {
    var b := Boundary(s);
  }
}
