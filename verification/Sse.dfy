/** The buffer loop of `complete_streaming`: frames cut from a growing buffer, lines folded into the output. */
module Sse {
  import opened Text
  import opened Common

  /** What the JSON decoder makes of one data payload. */
  datatype Event = Delta(content: Option<string>) | BadJson(message: string)

  /** The decoder's progress; the first malformed payload is final. */
  datatype Progress = Going(output: string, sawDone: bool) | Malformed(message: string)

  datatype StreamResult = Content(text: string) | MalformedStream(message: string) | Interrupted

  /** One trimmed line of the stream. */
  function ApplyLine(line: string, p: Progress, parse: string -> Event): Progress {
    if p.Malformed? then p
    else
      var l := Trim(line);
      if l == "" || l[0] == ':' then p
      else if !("data:" <= l) then p
      else
        var data := Trim(l[5..]);
        if data == "[DONE]" then p.(sawDone := true)
        else
          match parse(data)
          case BadJson(m) => Malformed(m)
          case Delta(None) => p
          case Delta(Some(d)) => p.(output := p.output + d)
  }

  function Fold(lines: seq<string>, p: Progress, parse: string -> Event): Progress {
    if lines == [] then p else Fold(lines[1..], ApplyLine(lines[0], p, parse), parse)
  }

  /** The verdict on a whole text at once: one fold over its lines. */
  function Batch(text: string, parse: string -> Event): StreamResult {
    Verdict(Fold(Split(text), Going("", false), parse))
  }

  function Verdict(p: Progress): StreamResult {
    match p
    case Malformed(m) => MalformedStream(m)
    case Going(out, done) => if done then Content(out) else Interrupted
  }

  function Concat(chunks: seq<string>): string {
    if chunks == [] then "" else Concat(chunks[..|chunks| - 1]) + chunks[|chunks| - 1]
  }

  lemma {:induction false} FoldAppend(a: seq<string>, b: seq<string>, p: Progress, parse: string -> Event)
    ensures Fold(a + b, p, parse) == Fold(b, Fold(a, p, parse), parse)
  {
    if a == [] {
      assert a + b == b;
    } else {
      assert (a + b)[1..] == a[1..] + b;
      FoldAppend(a[1..], b, ApplyLine(a[0], p, parse), parse);
    }
  }

  lemma {:induction false} FoldMalformed(lines: seq<string>, p: Progress, parse: string -> Event)
    requires p.Malformed?
    ensures Fold(lines, p, parse) == p
  {
    if lines != [] { FoldMalformed(lines[1..], p, parse); }
  }

  /** The done flag only accumulates; it never steers the decoding. */
  lemma {:induction false} FoldDone(lines: seq<string>, output: string, parse: string -> Event)
    ensures Fold(lines, Going(output, true), parse) ==
            match Fold(lines, Going(output, false), parse)
            case Malformed(m) => Malformed(m)
            case Going(out, _) => Going(out, true)
  {
    if lines != [] {
      var p := ApplyLine(lines[0], Going(output, false), parse);
      if p.Malformed? {
        FoldMalformed(lines[1..], p, parse);
      } else {
        FoldDone(lines[1..], p.output, parse);
      }
    }
  }

  lemma {:induction false} FoldBlank(lines: seq<string>, p: Progress, parse: string -> Event)
    requires forall l <- lines :: IsBlank(l)
    ensures Fold(lines, p, parse) == p
  {
    if lines != [] {
      TrimOfBlank(lines[0]);
      FoldBlank(lines[1..], p, parse);
    }
  }

  /** `str::lines` and a plain split fold alike: stripped CRs and a missing last piece are invisible after trimming. */
  lemma FoldLines(s: string, p: Progress, parse: string -> Event)
    ensures Fold(Lines(s), p, parse) == Fold(Split(s), p, parse)
  {
    var pieces := Split(s);
    var front, last := pieces[..|pieces| - 1], pieces[|pieces| - 1];
    assert pieces == front + [last];
    FoldStripped(front, p, parse);
    FoldAppend(front, [last], p, parse);
    FoldAppend(StripAll(front), if last == "" then [] else [last], p, parse);
    if last == "" {
      FoldBlank([last], Fold(front, p, parse), parse);
    }
  }

  lemma {:induction false} FoldStripped(lines: seq<string>, p: Progress, parse: string -> Event)
    ensures Fold(StripAll(lines), p, parse) == Fold(lines, p, parse)
  {
    if lines != [] {
      var l := lines[0];
      if l != "" && l[|l| - 1] == '\r' {
        assert l == l[..|l| - 1] + ['\r'];
        TrimIgnoresTrailingSpace(l[..|l| - 1], '\r');
      }
      assert StripAll(lines)[1..] == StripAll(lines[1..]);
      FoldStripped(lines[1..], ApplyLine(l, p, parse), parse);
    }
  }

  // ---- the answer to a stream, line by line ----

  predicate IsData(line: string) {
    "data:" <= Trim(line)
  }

  function Payload(line: string): string
    requires IsData(line)
  {
    Trim(Trim(line)[5..])
  }

  predicate IsEnd(line: string) {
    IsData(line) && Payload(line) == "[DONE]"
  }

  predicate IsBad(line: string, parse: string -> Event) {
    IsData(line) && !IsEnd(line) && parse(Payload(line)).BadJson?
  }

  /** What a line adds to the content: nothing, unless it is data with a delta. */
  function Addition(line: string, parse: string -> Event): string {
    if IsData(line) && !IsEnd(line) && parse(Payload(line)).Delta? && parse(Payload(line)).content.Some?
    then parse(Payload(line)).content.value else ""
  }

  function Additions(lines: seq<string>, parse: string -> Event): string {
    if lines == [] then "" else Addition(lines[0], parse) + Additions(lines[1..], parse)
  }

  /** The message of the first bad payload. */
  ghost predicate FirstBad(lines: seq<string>, parse: string -> Event, m: string) {
    exists i: nat :: FirstBadAt(lines, parse, m, i)
  }

  predicate FirstBadAt(lines: seq<string>, parse: string -> Event, m: string, i: nat) {
    && i < |lines| && IsBad(lines[i], parse) && parse(Payload(lines[i])) == BadJson(m)
    && forall j | 0 <= j < i :: !IsBad(lines[j], parse)
  }

  /** Malformed if some payload is bad; else all additions in order if the end was marked; else cut off. */
  ghost predicate StreamAnswer(lines: seq<string>, parse: string -> Event, r: StreamResult) {
    if exists l <- lines :: IsBad(l, parse) then r.MalformedStream? && FirstBad(lines, parse, r.message)
    else if exists l <- lines :: IsEnd(l) then r == Content(Additions(lines, parse))
    else r == Interrupted
  }

  lemma ApplyLineIs(line: string, output: string, done: bool, parse: string -> Event)
    ensures ApplyLine(line, Going(output, done), parse) ==
            if IsBad(line, parse) then Malformed(parse(Payload(line)).message)
            else Going(output + Addition(line, parse), done || IsEnd(line))
  {
    assert output + "" == output;
    hide Trim;
  }

  /** What a fold comes to. */
  ghost predicate FoldAnswer(lines: seq<string>, output: string, done: bool, parse: string -> Event, p: Progress) {
    if exists l <- lines :: IsBad(l, parse) then p.Malformed? && FirstBad(lines, parse, p.message)
    else p == Going(output + Additions(lines, parse), done || exists l <- lines :: IsEnd(l))
  }

  lemma {:induction false} FoldAnswers(lines: seq<string>, output: string, done: bool, parse: string -> Event)
    ensures FoldAnswer(lines, output, done, parse, Fold(lines, Going(output, done), parse))
  {
    hide IsBad, IsEnd, Addition, ApplyLine;
    if lines == [] {
      assert output + "" == output;
    } else {
      ApplyLineIs(lines[0], output, done, parse);
      assert forall l :: l in lines <==> l == lines[0] || l in lines[1..];
      if IsBad(lines[0], parse) {
        BadIsData(lines[0], parse);
        FoldMalformed(lines[1..], Malformed(parse(Payload(lines[0])).message), parse);
        assert FirstBadAt(lines, parse, parse(Payload(lines[0])).message, 0);
      } else {
        FoldAnswers(lines[1..], output + Addition(lines[0], parse), done || IsEnd(lines[0]), parse);
        LaterBad(lines, parse);
        assert output + (Addition(lines[0], parse) + Additions(lines[1..], parse)) ==
               output + Addition(lines[0], parse) + Additions(lines[1..], parse);
      }
    }
  }

  lemma BadIsData(line: string, parse: string -> Event)
    requires IsBad(line, parse)
    ensures IsData(line) && parse(Payload(line)).BadJson?
  {
  }

  lemma LaterBad(lines: seq<string>, parse: string -> Event)
    requires lines != [] && !IsBad(lines[0], parse)
    ensures forall m :: FirstBad(lines[1..], parse, m) ==> FirstBad(lines, parse, m)
  {
    hide IsBad, Payload;
    forall m | FirstBad(lines[1..], parse, m) ensures FirstBad(lines, parse, m) {
      var i: nat :| FirstBadAt(lines[1..], parse, m, i);
      assert FirstBadAt(lines, parse, m, i + 1) by {
        forall j | 0 <= j < i + 1 ensures !IsBad(lines[j], parse) {
          assert j > 0 ==> lines[j] == lines[1..][j - 1];
        }
      }
    }
  }

  lemma BatchAnswers(text: string, parse: string -> Event)
    ensures StreamAnswer(Split(text), parse, Batch(text, parse))
  {
    FoldAnswers(Split(text), "", false, parse);
    assert "" + Additions(Split(text), parse) == Additions(Split(text), parse);
    hide Fold, Split, FirstBad, IsBad, IsEnd;
  }

  /** Blank lines, comments and other fields: a line that is no data may stand anywhere. */
  lemma NoiseIsInvisible(a: string, noise: string, b: string, parse: string -> Event)
    requires a == "" || a[|a| - 1] == '\n'
    requires '\n' !in noise && !IsData(noise)
    ensures Batch(a + noise + "\n" + b, parse) == Batch(a + b, parse)
  {
    var p := Fold(Split(a), Going("", false), parse);
    assert a + noise + "\n" + b == a + (noise + "\n" + b);
    FoldCut(a, noise + "\n" + b, Going("", false), parse);
    FoldCut(a, b, Going("", false), parse);
    SplitAtNewline(noise, b);
    SplitSingle(noise);
    FoldAppend([noise], Split(b), p, parse);
    FoldOne(noise, p, parse);
    if p.Going? { ApplyLineIs(noise, p.output, p.sawDone, parse); }
    assert p.Going? ==> p.output + "" == p.output;
    hide Fold, Split, Trim;
  }

  lemma {:induction false} ConcatExactly(a: seq<string>, b: seq<string>)
    ensures Concat(a + b) == Concat(a) + Concat(b)
    ensures forall c :: Concat([c]) == c
  {
    forall c ensures Concat([c]) == c { assert [c][..0] == []; }
    if b == [] {
      assert a + b == a;
    } else {
      assert (a + b)[..|a + b| - 1] == a + b[..|b| - 1];
      ConcatExactly(a, b[..|b| - 1]);
    }
  }

  // ---- frames ----

  predicate BlankLineAt(s: string, i: nat) {
    i + 2 <= |s| && s[i] == '\n' && s[i + 1] == '\n'
  }

  /** `buffer.find("\n\n")`. */
  function FindBlankLine(s: string, from: nat): (r: Option<nat>)
    requires from <= |s|
    ensures r.Some? ==> from <= r.value && BlankLineAt(s, r.value) && forall j: nat | from <= j < r.value ::
            !BlankLineAt(s, j)
    ensures r.None? ==> forall j: nat | from <= j :: !BlankLineAt(s, j)
    decreases |s| - from
  {
    if BlankLineAt(s, from) then Some(from)
    else if from == |s| then None
    else FindBlankLine(s, from + 1)
  }

  /** `split_sse_frame`: the text before the first blank line, and the text after it. */
  function SplitFrame(buffer: string): (r: Option<(string, string)>)
    ensures r.Some? ==> buffer == r.value.0 + "\n\n" + r.value.1
    ensures r.Some? ==> FindBlankLine(r.value.0 + "\n", 0).None?
    ensures r.None? ==> FindBlankLine(buffer, 0).None?
  {
    var at := FindBlankLine(buffer, 0);
    if at.None? then None
    else
      var frame := buffer[..at.value];
      assert forall j: nat :: BlankLineAt(frame + "\n", j) ==> BlankLineAt(buffer, j);
      Some((frame, buffer[at.value + 2..]))
  }

  /** `apply_sse_frame`: whether the frame held the end marker, and the extended output. */
  method ApplyFrame(frame: string, output: string, parse: string -> Event) returns (p: Progress)
    ensures p == Fold(Split(frame), Going(output, false), parse)
  {
    p := Going(output, false);
    var lines := Lines(frame);
    var i := 0;
    while i < |lines|
      invariant 0 <= i <= |lines| && p.Going?
      invariant Fold(lines, Going(output, false), parse) == Fold(lines[i..], p, parse)
    {
      var line := Trim(lines[i]);
      assert Trim(line) == line;
      ghost var before := p;
      if line != "" && line[0] != ':' && "data:" <= line {
        var data := Trim(line[5..]);
        if data == "[DONE]" {
          p := p.(sawDone := true);
        } else {
          match parse(data) {
            case BadJson(m) =>
              FoldMalformed(lines[i + 1..], Malformed(m), parse);
              FoldLines(frame, Going(output, false), parse);
              return Malformed(m);
            case Delta(d) =>
              p := p.(output := p.output + d.GetOr(""));
          }
        }
      }
      assert p == ApplyLine(lines[i], before, parse);
      i := i + 1;
    }
    FoldLines(frame, Going(output, false), parse);
  }

  /** Cutting the text behind a newline does not change the fold. */
  lemma FoldCut(a: string, b: string, p: Progress, parse: string -> Event)
    requires a == "" || a[|a| - 1] == '\n'
    ensures Fold(Split(a + b), p, parse) == Fold(Split(b), Fold(Split(a), p, parse), parse)
  {
    if a == "" {
      assert a + b == b;
      FoldBlank([""], p, parse);
    } else {
      var c := a[..|a| - 1];
      assert a == c + "\n" + "" && a + b == c + "\n" + b;
      SplitAtNewline(c, "");
      SplitAtNewline(c, b);
      FoldAppend(Split(c), Split(""), p, parse);
      FoldAppend(Split(c), Split(b), p, parse);
      FoldBlank([""], Fold(Split(c), p, parse), parse);
    }
  }

  /** The next frame moves the progress exactly as its text does. */
  lemma FoldFrame(frame: string, rest: string, p: Progress, parse: string -> Event)
    ensures Fold(Split(frame + "\n\n"), p, parse) == Fold(Split(frame), p, parse)
    ensures Fold(Split(frame + "\n\n" + rest), p, parse) == Fold(Split(rest), Fold(Split(frame), p, parse), parse)
  {
    assert frame + "\n\n" == frame + "\n" + "\n";
    assert "\n" == "" + "\n" + "";
    SplitAtNewline(frame, "\n");
    SplitAtNewline("", "");
    FoldAppend(Split(frame), Split("\n"), p, parse);
    FoldBlank(Split("\n"), Fold(Split(frame), p, parse), parse);
    FoldCut(frame + "\n\n", rest, p, parse);
  }

  ghost predicate AtLineStart(eaten: string) {
    eaten == "" || eaten[|eaten| - 1] == '\n'
  }

  ghost const START: Progress := Going("", false)

  /** The inner loop: every complete frame is taken off the buffer. */
  method DrainFrames(pending: string, out: string, done: bool, ghost before: string, parse: string -> Event)
    returns (buffer: string, p: Progress, ghost eaten: string)
    requires AtLineStart(before) && Fold(Split(before), START, parse) == Going(out, done)
    ensures AtLineStart(eaten) && eaten + buffer == before + pending
    ensures Fold(Split(eaten), START, parse) == p
    ensures p.Going? ==> SplitFrame(buffer).None?
  {
    hide Fold, Split, FindBlankLine;
    buffer, p, eaten := pending, Going(out, done), before;
    var next := SplitFrame(buffer);
    while next.Some?
      invariant AtLineStart(eaten) && eaten + buffer == before + pending
      invariant p.Going? && Fold(Split(eaten), START, parse) == p
      invariant next == SplitFrame(buffer)
      decreases |buffer|
    {
      var (frame, rest) := next.value;
      var applied := ApplyFrame(frame, p.output, parse);
      FrameStep(eaten, frame, p.output, p.sawDone, applied, parse);
      assert eaten + buffer == eaten + frame + "\n\n" + rest;
      eaten, buffer := eaten + frame + "\n\n", rest;
      if applied.Malformed? {
        p := applied;
        return;
      }
      p := Going(applied.output, p.sawDone || applied.sawDone);
      next := SplitFrame(buffer);
    }
  }

  /** `complete_streaming`: however the text is chunked, the result is that of the whole text. */
  method CompleteStreaming(chunks: seq<string>, parse: string -> Event) returns (r: StreamResult)
    ensures r == Batch(Concat(chunks), parse)
    ensures StreamAnswer(Split(Concat(chunks)), parse, r)
  {
    BatchAnswers(Concat(chunks), parse);
    hide StreamAnswer;
    hide Fold, Split, SplitFrame, Trim;
    var buffer, output, sawDone := "", "", false;
    ghost var eaten := "";
    NothingYet(parse);
    for i := 0 to |chunks|
      invariant AtLineStart(eaten) && eaten + buffer == Concat(chunks[..i])
      invariant Fold(Split(eaten), START, parse) == Going(output, sawDone)
    {
      assert chunks[..i + 1][..i] == chunks[..i];
      var p;
      buffer, p, eaten := DrainFrames(buffer + chunks[i], output, sawDone, eaten, parse);
      assert eaten + buffer == Concat(chunks[..i + 1]);
      if p.Malformed? {
        RestOfStream(eaten, buffer, chunks, i + 1, p, parse);
        return MalformedStream(p.message);
      }
      output, sawDone := p.output, p.sawDone;
    }
    assert chunks[..|chunks|] == chunks;
    FoldCut(eaten, buffer, START, parse);
    FoldDone(Split(buffer), output, parse);
    if Trim(buffer) != "" {
      var p := ApplyFrame(buffer, output, parse);
      if p.Malformed? {
        return MalformedStream(p.message);
      }
      output := p.output;
      if p.sawDone {
        sawDone := true;
      }
    } else {
      TrimOfBlank(buffer);
      FoldBlank(Split(buffer), Going(output, sawDone), parse);
    }
    if !sawDone {
      return Interrupted;
    }
    return Content(output);
  }

  lemma NothingYet(parse: string -> Event)
    ensures Fold(Split(""), START, parse) == START
  {
    FoldBlank([""], START, parse);
  }

  /** Eating one frame: the progress over the longer prefix. */
  lemma FrameStep(eaten: string, frame: string, output: string, sawDone: bool, p: Progress, parse: string -> Event)
    requires AtLineStart(eaten) && Fold(Split(eaten), START, parse) == Going(output, sawDone)
    requires p == Fold(Split(frame), Going(output, false), parse)
    ensures Fold(Split(eaten + frame + "\n\n"), START, parse) ==
            if p.Malformed? then p else Going(p.output, sawDone || p.sawDone)
    ensures AtLineStart(eaten + frame + "\n\n")
  {
    hide Fold, Split;
    assert eaten + frame + "\n\n" == eaten + (frame + "\n\n");
    FoldCut(eaten, frame + "\n\n", START, parse);
    FoldFrame(frame, "", Going(output, sawDone), parse);
    FoldDone(Split(frame), output, parse);
  }

  /** Once malformed, nothing that follows matters. */
  lemma RestOfStream(eaten: string, rest: string, chunks: seq<string>, n: nat, p: Progress, parse: string -> Event)
    requires n <= |chunks| && eaten + rest == Concat(chunks[..n])
    requires AtLineStart(eaten)
    requires p.Malformed? && Fold(Split(eaten), START, parse) == p
    ensures Batch(Concat(chunks), parse) == MalformedStream(p.message)
  {
    hide Fold, Split, Concat;
    var tail := ConcatPrefix(chunks, n);
    assert Concat(chunks) == eaten + (rest + tail);
    FoldCut(eaten, rest + tail, START, parse);
    FoldMalformed(Split(rest + tail), p, parse);
  }

  lemma {:induction false} ConcatPrefix(chunks: seq<string>, n: nat) returns (tail: string)
    requires n <= |chunks|
    ensures Concat(chunks) == Concat(chunks[..n]) + tail
  {
    if n == |chunks| {
      assert chunks[..n] == chunks;
      tail := "";
    } else {
      var front := chunks[..|chunks| - 1];
      tail := ConcatPrefix(front, n);
      assert front[..n] == chunks[..n];
      tail := tail + chunks[|chunks| - 1];
    }
  }

  // ---- the writing side ----

  /** A payload that survives framing: trimmed, on one line, and not the end marker. */
  predicate Frameable(payload: string) {
    IsTrimmed(payload) && '\n' !in payload && payload != "[DONE]" && payload != ""
  }

  function Render(payloads: seq<string>): string {
    if payloads == [] then "data: [DONE]\n\n" else "data: " + payloads[0] + "\n\n" + Render(payloads[1..])
  }

  function Decoded(payloads: seq<string>, output: string, parse: string -> Event): Progress {
    if payloads == [] then Going(output, true)
    else
      match parse(payloads[0])
      case BadJson(m) => Malformed(m)
      case Delta(d) => Decoded(payloads[1..], output + d.GetOr(""), parse)
  }

  lemma DataLine(payload: string, output: string, parse: string -> Event)
    requires IsTrimmed(payload) && payload != "" && '\n' !in payload
    ensures Fold(Split("data: " + payload), Going(output, false), parse) ==
            if payload == "[DONE]" then Going(output, true)
            else match parse(payload)
                 case BadJson(m) => Malformed(m)
                 case Delta(d) => Going(output + d.GetOr(""), false)
  {
    var line := "data: " + payload;
    SplitSingle(line);
    TrimmedData(payload);
    FoldOne(line, Going(output, false), parse);
    hide Fold, Trim, Split;
  }

  lemma FoldOne(line: string, p: Progress, parse: string -> Event)
    ensures Fold([line], p, parse) == ApplyLine(line, p, parse)
  {
    hide ApplyLine;
    assert [line][1..] == [];
  }

  lemma TrimmedData(payload: string)
    requires IsTrimmed(payload) && payload != ""
    ensures Trim("data: " + payload) == "data: " + payload
    ensures "data:" <= "data: " + payload
    ensures Trim(("data: " + payload)[5..]) == payload
  {
    var line := "data: " + payload;
    assert line[0] == 'd' && line[|line| - 1] == payload[|payload| - 1];
    assert IsTrimmed(line);
    var data := line[5..];
    assert data[0] == ' ' && data[1..] == payload;
  }

  /** Framed payloads decode to their deltas in order, ended by the end marker, through any chunking. */
  lemma {:induction false} RenderDecodes(payloads: seq<string>, output: string, parse: string -> Event)
    requires forall p <- payloads :: Frameable(p)
    ensures Fold(Split(Render(payloads)), Going(output, false), parse) == Decoded(payloads, output, parse)
  {
    if payloads == [] {
      assert Render(payloads) == "data: " + "[DONE]" + "\n\n";
      DataLine("[DONE]", output, parse);
      FoldFrame("data: " + "[DONE]", "", Going(output, false), parse);
    } else {
      var frame, rest := "data: " + payloads[0], Render(payloads[1..]);
      assert Frameable(payloads[0]);
      assert Render(payloads) == frame + "\n\n" + rest;
      DataLine(payloads[0], output, parse);
      FoldFrame(frame, rest, Going(output, false), parse);
      match parse(payloads[0]) {
        case BadJson(m) => FoldMalformed(Split(rest), Malformed(m), parse);
        case Delta(d) => RenderDecodes(payloads[1..], output + d.GetOr(""), parse);
      }
    }
  }
}
