/**
 How a text becomes server-sent events: line breaking, field interpretation and
 dispatch as functions of the whole text, independent of how it arrived.
 Lines follow section 9.2.5 of the WHATWG HTML Living Standard.
 */
module SseFraming {
  import opened Wrappers

  const MAX_LINE_CHARS: nat := 1_000_000
  const MAX_EVENT_CHARS: nat := 8_000_000

  datatype Frame = Frame(event: string, data: string)

  /** The event being assembled. */
  datatype Assembly = Assembly(dataLines: seq<string>, dataChars: nat, eventName: string, sawField: bool)

  const IDLE := Assembly([], 0, "", false)

  datatype Cut = NoCut | Cut(start: nat, end: nat)

  datatype ProtocolError = LineTooLong | EventTooLong

  // ----- lines -----

  predicate Plain(s: string) {
    '\n' !in s && '\r' !in s
  }

  predicate IsTerminator(s: string, start: nat, end: nat)
    requires start < end <= |s|
  {
    || s[start..end] == "\n"
    || s[start..end] == "\r\n"
    || (s[start..end] == "\r" && end < |s| && s[end] != '\n')
  }

  /** The first line break at or after `i`. A `\r` that ends the text is held: its `\n` may follow. */
  function BreakFrom(s: string, i: nat): (cut: Cut)
    requires i <= |s| && Plain(s[..i])
    ensures cut.Cut? ==> i <= cut.start < cut.end <= |s| && Plain(s[..cut.start])
    ensures cut.Cut? ==> IsTerminator(s, cut.start, cut.end)
    ensures cut.NoCut? ==> Plain(s) || (|s| > 0 && s[|s| - 1] == '\r' && Plain(s[..|s| - 1]))
    decreases |s| - i
  {
    if i == |s| then
      assert s[..i] == s;
      NoCut
    else if s[i] == '\n' then
      assert s[i..i + 1] == "\n";
      Cut(i, i + 1)
    else if s[i] == '\r' then
      if i + 1 == |s| then NoCut
      else if s[i + 1] == '\n' then
        assert s[i..i + 2] == "\r\n";
        Cut(i, i + 2)
      else
        assert s[i..i + 1] == "\r";
        Cut(i, i + 1)
    else
      assert s[..i + 1] == s[..i] + [s[i]];
      BreakFrom(s, i + 1)
  }

  function NextBreak(s: string): (cut: Cut)
    ensures cut.Cut? ==> cut.start < cut.end <= |s| && Plain(s[..cut.start])
    ensures cut.Cut? ==> IsTerminator(s, cut.start, cut.end)
    ensures cut.NoCut? ==> Plain(s) || (|s| > 0 && s[|s| - 1] == '\r' && Plain(s[..|s| - 1]))
  {
    BreakFrom(s, 0)
  }

  /** The complete lines of a text, and what is left after the last of them. */
  function Lines(s: string): seq<string>
    decreases |s|
  {
    var cut := NextBreak(s);
    if cut.NoCut? then [] else [s[..cut.start]] + Lines(s[cut.end..])
  }

  function Tail(s: string): (t: string)
    ensures |t| <= |s| && NextBreak(t).NoCut?
    decreases |s|
  {
    var cut := NextBreak(s);
    if cut.NoCut? then s else Tail(s[cut.end..])
  }

  // ----- fields and dispatch -----

  function IndexOf(s: string, c: char): (i: int)
    ensures -1 <= i < |s|
    ensures i == -1 ==> c !in s
    ensures i >= 0 ==> s[i] == c && c !in s[..i]
  {
    if s == "" then -1
    else if s[0] == c then 0
    else
      var rest := IndexOf(s[1..], c);
      assert rest >= 0 ==> s[..rest + 1] == [s[0]] + s[1..][..rest];
      if rest == -1 then -1 else rest + 1
  }

  function FieldName(line: string): string {
    var colon := IndexOf(line, ':');
    if colon == -1 then line else line[..colon]
  }

  /** The value after the colon, without one leading space. */
  function FieldValue(line: string): string {
    var colon := IndexOf(line, ':');
    var raw := if colon == -1 then "" else line[colon + 1..];
    if raw != "" && raw[0] == ' ' then raw[1..] else raw
  }

  function Join(lines: seq<string>): string {
    if lines == [] then ""
    else if |lines| == 1 then lines[0]
    else lines[0] + "\n" + Join(lines[1..])
  }

  datatype Consumed = Consumed(next: Assembly, frame: Option<Frame>) | Overflow

  function Dispatch(a: Assembly): Consumed {
    if !a.sawField then Consumed(a, None)
    else Consumed(IDLE, Some(Frame(if a.eventName == "" then "message" else a.eventName, Join(a.dataLines))))
  }

  function Consume(a: Assembly, line: string): Consumed {
    if line == "" then Dispatch(a)
    else if line[0] == ':' then Consumed(a, None)
    else
      ConsumeField(a, FieldName(line), FieldValue(line))
  }

  function ConsumeField(a: Assembly, field: string, value: string): Consumed {
    if field == "event" then Consumed(a.(eventName := value, sawField := true), None)
    else if field == "data" then
      var chars := a.dataChars + |value| + 1;
      if chars > MAX_EVENT_CHARS then Overflow
      else Consumed(a.(dataLines := a.dataLines + [value], dataChars := chars, sawField := true), None)
    else if field == "id" || field == "retry" then Consumed(a.(sawField := true), None)
    else Consumed(a, None)
  }

  datatype Folded = Folded(next: Assembly, frames: seq<Frame>) | TooLong

  function OneFrame(f: Option<Frame>): seq<Frame> {
    if f.Some? then [f.value] else []
  }

  function FoldLines(a: Assembly, lines: seq<string>): Folded
    decreases |lines|
  {
    if lines == [] then Folded(a, [])
    else match Consume(a, lines[0])
      case Overflow => TooLong
      case Consumed(next, frame) =>
        match FoldLines(next, lines[1..])
        case TooLong => TooLong
        case Folded(last, frames) => Folded(last, OneFrame(frame) + frames)
  }

  // ----- pushing chunks -----

  datatype Stream = Stream(assembly: Assembly, buffer: string, frames: seq<Frame>)

  const FRESH := Stream(IDLE, "", [])

  /** One `push`: drain every complete line, then bound what is left. */
  function Push(st: Stream, chunk: string): Result<Stream, ProtocolError> {
    var text := st.buffer + chunk;
    match FoldLines(st.assembly, Lines(text))
    case TooLong => Err(EventTooLong)
    case Folded(next, frames) =>
      if |Tail(text)| > MAX_LINE_CHARS then Err(LineTooLong)
      else Ok(Stream(next, Tail(text), st.frames + frames))
  }

  function Feed(st: Stream, chunks: seq<string>): Result<Stream, ProtocolError>
    decreases |chunks|
  {
    if chunks == [] then Ok(st)
    else match Push(st, chunks[0])
      case Err(e) => Err(e)
      case Ok(next) => Feed(next, chunks[1..])
  }

  function Concat(chunks: seq<string>): string {
    if chunks == [] then "" else chunks[0] + Concat(chunks[1..])
  }

  // ----- lemmas: lines -----

  lemma {:induction false} BreakFromPrefix(s: string, i: nat, more: string)
    requires i <= |s| && Plain(s[..i]) && (s + more)[..i] == s[..i]
    ensures BreakFrom(s, i).Cut? ==> BreakFrom(s + more, i) == BreakFrom(s, i)
    decreases |s| - i
  {
    if i < |s| {
      assert (s + more)[i] == s[i];
      if s[i] != '\n' && s[i] != '\r' {
        assert s[..i + 1] == s[..i] + [s[i]];
        assert (s + more)[..i + 1] == s[..i + 1];
        BreakFromPrefix(s, i + 1, more);
      } else if i + 1 < |s| {
        assert (s + more)[i + 1] == s[i + 1];
      }
    }
  }

  /** A break once found stays where it is, whatever arrives later. */
  lemma BreakIsStable(s: string, more: string)
    requires NextBreak(s).Cut?
    ensures NextBreak(s + more) == NextBreak(s)
  {
    BreakFromPrefix(s, 0, more);
  }

  /** Reading in two parts, carrying the tail over, finds the lines of the whole. */
  lemma {:induction false} LinesAppend(s: string, more: string)
    ensures Lines(s + more) == Lines(s) + Lines(Tail(s) + more)
    ensures Tail(s + more) == Tail(Tail(s) + more)
    decreases |s|
  {
    var cut := NextBreak(s);
    if cut.Cut? {
      BreakIsStable(s, more);
      assert (s + more)[..cut.start] == s[..cut.start];
      assert (s + more)[cut.end..] == s[cut.end..] + more;
      LinesAppend(s[cut.end..], more);
    }
  }

  lemma {:induction false} PlainHasNoBreak(s: string, i: nat)
    requires i <= |s| && Plain(s)
    ensures BreakFrom(s, i).NoCut?
    decreases |s| - i
  {
    if i < |s| {
      assert s[i] in s;
      assert s[..i + 1] == s[..i] + [s[i]];
      PlainHasNoBreak(s, i + 1);
    }
  }

  lemma {:induction false} BreakAfterPlain(line: string, i: nat, rest: string)
    requires Plain(line) && i <= |line| && (line + rest)[..i] == line[..i]
    requires rest != "" && (rest[0] == '\n' || (rest[0] == '\r' && |rest| > 1))
    ensures BreakFrom(line + rest, i)
         == Cut(|line|, |line| + if rest[0] == '\r' && rest[1] == '\n' then 2 else 1)
    decreases |line| - i
  {
    if i < |line| {
      assert line[i] in line && (line + rest)[i] == line[i];
      assert (line + rest)[..i + 1] == line[..i] + [line[i]] == line[..i + 1];
      BreakAfterPlain(line, i + 1, rest);
    } else {
      assert (line + rest)[i] == rest[0];
    }
  }

  /** A plain line and its terminator contribute that line and nothing else. */
  lemma {:induction false} FirstLine(line: string, rest: string)
    requires Plain(line)
    ensures Lines(line + "\n" + rest) == [line] + Lines(rest)
    ensures Tail(line + "\n" + rest) == Tail(rest)
  {
    var text := line + "\n" + rest;
    assert text == line + ("\n" + rest);
    BreakAfterPlain(line, 0, "\n" + rest);
    assert text[..|line|] == line && text[|line| + 1..] == rest;
  }

  // ----- fields -----

  lemma {:induction false} ColonAfter(prefix: string, rest: string)
    requires ':' !in prefix
    ensures IndexOf(prefix + ":" + rest, ':') == |prefix|
  {
    var s := prefix + ":" + rest;
    if prefix != "" {
      assert prefix[0] in prefix && s[0] == prefix[0] && s[1..] == prefix[1..] + ":" + rest;
      ColonAfter(prefix[1..], rest);
    }
  }

  /** A line without a colon is a field name; otherwise the name ends at the first colon, and one space after it goes. */
  lemma FieldRule(field: string, raw: string)
    requires ':' !in field
    ensures FieldName(field) == field && FieldValue(field) == ""
    ensures FieldName(field + ":" + raw) == field
    ensures FieldValue(field + ":" + raw) == if raw != "" && raw[0] == ' ' then raw[1..] else raw
  {
    var line := field + ":" + raw;
    ColonAfter(field, raw);
    assert line[..|field|] == field && line[|field| + 1..] == raw;
  }

  // ----- the reference: normalise terminators, then split at line feeds -----

  function Normalize(s: string): string {
    if s == "" then ""
    else if s[0] == '\r' then
      if |s| > 1 && s[1] == '\n' then "\n" + Normalize(s[2..]) else "\n" + Normalize(s[1..])
    else [s[0]] + Normalize(s[1..])
  }

  function SplitAtLineFeeds(s: string): (r: seq<string>)
    ensures r != []
  {
    if s == "" then [""]
    else
      var rest := SplitAtLineFeeds(s[1..]);
      if s[0] == '\n' then [""] + rest else [[s[0]] + rest[0]] + rest[1..]
  }

  lemma {:induction false} NormalizePlain(a: string, b: string)
    requires Plain(a)
    ensures Normalize(a + b) == a + Normalize(b) && Normalize("") == ""
  {
    if a == "" {
      assert a + b == b;
    } else {
      assert a[0] in a && (a + b)[1..] == a[1..] + b;
      NormalizePlain(a[1..], b);
    }
  }

  lemma {:induction false} SplitPlain(a: string, b: string)
    requires Plain(a)
    ensures SplitAtLineFeeds(a + "\n" + b) == [a] + SplitAtLineFeeds(b)
  {
    var whole := a + "\n" + b;
    if a == "" {
      assert whole[1..] == b;
    } else {
      assert a[0] in a && whole[0] == a[0] && whole[1..] == a[1..] + "\n" + b;
      SplitPlain(a[1..], b);
      assert a == [a[0]] + a[1..];
    }
  }

  lemma {:induction false} SplitSingle(a: string)
    requires Plain(a)
    ensures SplitAtLineFeeds(a) == [a]
  {
    if a != "" {
      assert a[0] in a;
      SplitSingle(a[1..]);
      assert a == [a[0]] + a[1..];
    }
  }

  /** Joining plain lines and splitting at line feeds gives the lines back: one line feed between each two, in order. */
  lemma {:induction false} JoinThenSplit(lines: seq<string>)
    requires lines != [] && forall i :: 0 <= i < |lines| ==> Plain(lines[i])
    ensures SplitAtLineFeeds(Join(lines)) == lines
    decreases |lines|
  {
    if |lines| == 1 {
      SplitSingle(lines[0]);
    } else {
      JoinThenSplit(lines[1..]);
      SplitPlain(lines[0], Join(lines[1..]));
    }
  }

  /** A blank line emits what was assembled, as `message` when unnamed and empty when it had no data, and starts afresh. */
  lemma DispatchMeans(a: Assembly)
    requires forall i :: 0 <= i < |a.dataLines| ==> Plain(a.dataLines[i])
    ensures Consume(a, "") == if a.sawField then Consumed(IDLE, Consume(a, "").frame) else Consumed(a, None)
    ensures a.sawField ==>
              && Consume(a, "").frame.Some?
              && var f := Consume(a, "").frame.value;
              && (a.eventName != "" ==> f.event == a.eventName)
              && (a.eventName == "" ==> f.event == "message")
              && (a.dataLines == [] ==> f.data == "")
              && (a.dataLines != [] ==> SplitAtLineFeeds(f.data) == a.dataLines)
  {
    if a.dataLines != [] { JoinThenSplit(a.dataLines); }
  }

  /** A stream cannot hold a line of more than a million characters, nor an event of more than eight million. */
  lemma BoundsAre(line: string, value: string)
    requires Plain(line)
    ensures Push(FRESH, line).Ok? <==> |line| <= 1_000_000
    ensures ConsumeField(IDLE, "data", value).Consumed? <==> |value| + 1 <= 8_000_000
  {
    PlainHasNoBreak(line, 0);
    assert "" + line == line;
  }

  lemma NormalizeTerminator(s: string, start: nat, end: nat)
    requires start < end <= |s| && IsTerminator(s, start, end)
    ensures Normalize(s[start..]) == "\n" + Normalize(s[end..])
  {
    var t := s[start..];
    assert t[0] == s[start..end][0];
    if s[start..end] == "\n" {
      assert t[1..] == s[end..];
      assert [t[0]] == "\n";
    } else if s[start..end] == "\r\n" {
      assert t[1] == s[start..end][1];
      assert t[2..] == s[end..];
    } else {
      assert end == start + 1 && t[1] == s[end];
      assert t[1..] == s[end..];
    }
  }

  lemma {:induction false} NormalizeFirstLine(s: string, start: nat, end: nat)
    requires start < end <= |s| && IsTerminator(s, start, end) && Plain(s[..start])
    ensures Normalize(s) == s[..start] + "\n" + Normalize(s[end..])
  {
    hide Normalize, IsTerminator;
    var line := s[..start];
    NormalizePlain(line, s[start..]);
    NormalizeTerminator(s, start, end);
    assert s == line + s[start..];
    assert line + ("\n" + Normalize(s[end..])) == line + "\n" + Normalize(s[end..]);
  }

  /**
   On a text that does not end in a held `\r`, the parser's lines and tail are
   the pieces between line feeds once every terminator is written as one.
   */
  lemma {:induction false} LinesAreNormalizedSplit(s: string)
    requires s == "" || s[|s| - 1] != '\r'
    ensures Lines(s) + [Tail(s)] == SplitAtLineFeeds(Normalize(s))
    decreases |s|
  {
    hide Normalize, SplitAtLineFeeds, IsTerminator;
    var cut := NextBreak(s);
    if cut.NoCut? {
      NormalizePlain(s, "");
      assert s + "" == s;
      SplitSingle(s);
    } else {
      var line, rest := s[..cut.start], s[cut.end..];
      NormalizeFirstLine(s, cut.start, cut.end);
      SplitPlain(line, Normalize(rest));
      assert rest == "" || rest[|rest| - 1] == s[|s| - 1];
      LinesAreNormalizedSplit(rest);
    }
  }
}
