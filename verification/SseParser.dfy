/** The incremental parser object: a buffer and the event under assembly, updated chunk by chunk. */
module SseParser {
  import opened Wrappers
  import opened SseFraming
  import opened SseChunking

  class Parser {
    var buffer: string
    var dataLines: seq<string>
    var dataChars: nat
    var eventName: string
    var sawField: bool

    function State(): Assembly
      reads this
    {
      Assembly(dataLines, dataChars, eventName, sawField)
    }

    constructor ()
      ensures State() == IDLE && buffer == ""
    {
      buffer := "";
      dataLines, dataChars, eventName, sawField := [], 0, "", false;
    }

    /** Consume a chunk and return every frame it completed, or refuse it. */
    method Push(chunk: string) returns (r: Result<seq<Frame>, ProtocolError>)
      modifies this
      ensures match SseFraming.Push(Stream(old(State()), old(buffer), []), chunk)
              case Ok(next) => r == Ok(next.frames) && State() == next.assembly && buffer == next.buffer
              case Err(e) => r == Err(e)
    {
      ghost var text := buffer + chunk;
      ghost var first := State();
      buffer := buffer + chunk;
      var frames: seq<Frame> := [];
      var cut := NextLineBreak();
      while cut.Cut?
        invariant cut == NextBreak(buffer)
        invariant Tail(buffer) == Tail(text)
        invariant FoldLines(first, Lines(text))
               == match FoldLines(State(), Lines(buffer))
                  case TooLong => TooLong
                  case Folded(next, more) => Folded(next, frames + more)
        decreases |buffer|
      {
        hide Consume, IDLE;
        var line := buffer[..cut.start];
        assert Lines(buffer)[0] == line && Lines(buffer)[1..] == Lines(buffer[cut.end..]);
        buffer := buffer[cut.end..];
        label before:
        var consumed := ConsumeLine(line);
        match consumed
        case Err(e) =>
          return Err(e);
        case Ok(frame) =>
          ghost var was := frames;
          if frame.Some? {
            frames := frames + [frame.value];
          }
          assert frames == was + OneFrame(frame);
          cut := NextLineBreak();
          Regroup(was, OneFrame(frame), FoldLines(State(), Lines(buffer)));
      }
      assert frames + [] == frames && [] + frames == frames;
      if |buffer| > MAX_LINE_CHARS {
        return Err(LineTooLong);
      }
      return Ok(frames);
    }

    method NextLineBreak() returns (cut: Cut)
      ensures cut == NextBreak(buffer)
    {
      for i := 0 to |buffer|
        invariant Plain(buffer[..i]) && NextBreak(buffer) == BreakFrom(buffer, i)
      {
        var ch := buffer[i];
        if ch == '\n' {
          return Cut(i, i + 1);
        }
        if ch == '\r' {
          if i + 1 == |buffer| {
            return NoCut;
          }
          return if buffer[i + 1] == '\n' then Cut(i, i + 2) else Cut(i, i + 1);
        }
        assert buffer[..i + 1] == buffer[..i] + [buffer[i]];
      }
      return NoCut;
    }

    /** What one complete line does to the event under assembly; only a blank line can yield a frame. */
    method ConsumeLine(line: string) returns (r: Result<Option<Frame>, ProtocolError>)
      modifies `dataLines, `dataChars, `eventName, `sawField
      ensures match Consume(old(State()), line)
              case Consumed(next, frame) => r == Ok(frame) && State() == next
              case Overflow => r == Err(EventTooLong)
    {
      if line == "" {
        var frame := DispatchEvent();
        return Ok(frame);
      }
      if line[0] == ':' {
        return Ok(None);
      }
      var colon := IndexOf(line, ':');
      var field := if colon == -1 then line else line[..colon];
      var value := if colon == -1 then "" else line[colon + 1..];
      if value != "" && value[0] == ' ' {
        value := value[1..];
      }
      assert field == FieldName(line) && value == FieldValue(line);
      hide FieldName, FieldValue, IndexOf;
      if field == "event" {
        eventName := value;
        sawField := true;
      } else if field == "data" {
        dataChars := dataChars + |value| + 1;
        if dataChars > MAX_EVENT_CHARS {
          return Err(EventTooLong);
        }
        dataLines := dataLines + [value];
        sawField := true;
      } else if field == "id" || field == "retry" {
        sawField := true;
      }
      return Ok(None);
    }

    /** The blank line: emits what was assembled, unless no field was seen, and starts afresh. */
    method DispatchEvent() returns (frame: Option<Frame>)
      modifies `dataLines, `dataChars, `eventName, `sawField
      ensures Dispatch(old(State())) == Consumed(State(), frame)
    {
      if !sawField {
        return None;
      }
      frame := Some(Frame(if eventName == "" then "message" else eventName, Join(dataLines)));
      eventName := "";
      dataLines := [];
      dataChars := 0;
      sawField := false;
    }

    /** A connection that closes now cuts a line or an event short. */
    predicate Unfinished()
      reads this
    {
      |buffer| > 0 || sawField
    }
  }

  lemma Regroup(frames: seq<Frame>, one: seq<Frame>, rest: Folded)
    ensures rest.Folded? ==> frames + (one + rest.frames) == (frames + one) + rest.frames
  {
  }

  /** Feeding a fresh parser chunk by chunk, stopping at the first refusal. */
  method FeedAll(chunks: seq<string>) returns (parser: Parser, r: Result<seq<Frame>, ProtocolError>)
    ensures fresh(parser)
    ensures match Feed(FRESH, chunks)
            case Ok(st) => r == Ok(st.frames) && parser.State() == st.assembly && parser.buffer == st.buffer
            case Err(e) => r == Err(e)
    ensures r.Ok? ==> (!parser.Unfinished() <==> parser.State() == IDLE && parser.buffer == "")
  {
    FeedKeepsWhole(FRESH, chunks);
    parser := new Parser();
    var frames: seq<Frame> := [];
    for i := 0 to |chunks|
      invariant fresh(parser)
      invariant Feed(FRESH, chunks) == Feed(Stream(parser.State(), parser.buffer, frames), chunks[i..])
    {
      PushAddsFrames(parser.State(), parser.buffer, frames, chunks[i]);
      var pushed := parser.Push(chunks[i]);
      match pushed
      case Err(e) =>
        return parser, Err(e);
      case Ok(more) =>
        frames := frames + more;
        assert chunks[i..][1..] == chunks[i + 1..];
    }
    return parser, Ok(frames);
  }

  lemma PushAddsFrames(a: Assembly, buffer: string, frames: seq<Frame>, chunk: string)
    ensures SseFraming.Push(Stream(a, buffer, frames), chunk)
         == match SseFraming.Push(Stream(a, buffer, []), chunk)
            case Err(e) => Err(e)
            case Ok(next) => Ok(next.(frames := frames + next.frames))
  {
    var folded := FoldLines(a, Lines(buffer + chunk));
    if folded.Folded? { assert [] + folded.frames == folded.frames; }
  }

  /** Without a field seen there is nothing half assembled. */
  predicate Whole(a: Assembly) {
    a.sawField || a == IDLE
  }

  lemma {:induction false} FoldKeepsWhole(a: Assembly, lines: seq<string>)
    requires Whole(a)
    ensures FoldLines(a, lines).Folded? ==> Whole(FoldLines(a, lines).next)
    decreases |lines|
  {
    if lines != [] {
      ConsumeKeepsWhole(a, lines[0]);
      if Consume(a, lines[0]).Consumed? { FoldKeepsWhole(Consume(a, lines[0]).next, lines[1..]); }
    }
  }

  lemma ConsumeKeepsWhole(a: Assembly, line: string)
    requires Whole(a)
    ensures Consume(a, line).Consumed? ==> Whole(Consume(a, line).next)
  {
  }

  /** So a parser with nothing pending is as good as new. */
  lemma {:induction false} FeedKeepsWhole(st: Stream, chunks: seq<string>)
    requires Whole(st.assembly)
    ensures Feed(st, chunks).Ok? ==> Whole(Feed(st, chunks).value.assembly)
    decreases |chunks|
  {
    if chunks != [] {
      FoldKeepsWhole(st.assembly, Lines(st.buffer + chunks[0]));
      var pushed := SseFraming.Push(st, chunks[0]);
      if pushed.Ok? { FeedKeepsWhole(pushed.value, chunks[1..]); }
    }
  }
}
