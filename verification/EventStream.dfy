/** The streaming read loop of the AI insight panel: an incremental line splitter for server-sent
    events (a subset of section 9.2 of the WHATWG HTML Living Standard). */
module EventStream {
  import opened Sums

  const NEWLINE := '\n'
  const PREFIX := "data: "

  /** What parsing the text after the prefix gives; Ignored stands for malformed text and other types. */
  datatype Event = Content(text: string) | Done | Failure(message: string) | Ignored

  type Parser = string -> Event

  // ----- lines -----

  /** The complete lines of a text. */
  function Lines(s: string): seq<string> {
    LinesFrom("", s)
  }

  /** What follows the last line break. */
  function Tail(s: string): string {
    TailFrom("", s)
  }

  function LinesFrom(line: string, s: string): seq<string>
    decreases |s|
  {
    if s == "" then [] else if s[0] == NEWLINE then [line] + LinesFrom("", s[1..]) else LinesFrom(line + [s[0]], s[1..])
  }

  function TailFrom(line: string, s: string): string
    decreases |s|
  {
    if s == "" then line else if s[0] == NEWLINE then TailFrom("", s[1..]) else TailFrom(line + [s[0]], s[1..])
  }

  function Rejoined(lines: seq<string>, tail: string): string {
    if lines == [] then tail else lines[0] + [NEWLINE] + Rejoined(lines[1..], tail)
  }

  predicate NoBreak(line: string) {
    NEWLINE !in line
  }

  lemma {:induction false} SplitLosesNothing(line: string, s: string)
    requires NoBreak(line)
    ensures Rejoined(LinesFrom(line, s), TailFrom(line, s)) == line + s
    ensures NoBreak(TailFrom(line, s)) && forall k | 0 <= k < |LinesFrom(line, s)| :: NoBreak(LinesFrom(line, s)[k])
    decreases |s|
  {
    if s != "" {
      assert s == [s[0]] + s[1..];
      if s[0] == NEWLINE {
        SplitLosesNothing("", s[1..]);
        assert LinesFrom(line, s)[1..] == LinesFrom("", s[1..]);
      } else {
        SplitLosesNothing(line + [s[0]], s[1..]);
      }
    }
  }

  /** Splitting commutes with appending: a chunk only extends the tail. */
  lemma {:induction false} SplitOfAppend(line: string, s: string, t: string)
    ensures LinesFrom(line, s + t) == LinesFrom(line, s) + LinesFrom(TailFrom(line, s), t)
    ensures TailFrom(line, s + t) == TailFrom(TailFrom(line, s), t)
    decreases |s|
  {
    if s == "" {
      assert s + t == t;
    } else {
      assert (s + t)[0] == s[0] && (s + t)[1..] == s[1..] + t;
      SplitOfAppend(if s[0] == NEWLINE then "" else line + [s[0]], s[1..], t);
    }
  }

  lemma {:induction false} UnbrokenLineIsKept(line: string, s: string, t: string)
    requires NoBreak(s)
    ensures LinesFrom(line, s + t) == LinesFrom(line + s, t) && TailFrom(line, s + t) == TailFrom(line + s, t)
    decreases |s|
  {
    if s == "" {
      assert s + t == t && line + s == line;
    } else {
      assert (s + t)[0] == s[0] && (s + t)[1..] == s[1..] + t;
      UnbrokenLineIsKept(line + [s[0]], s[1..], t);
      assert line + [s[0]] + s[1..] == line + s;
    }
  }

  // ----- the loop -----

  datatype Screen = Screen(accumulated: string, narrative: Option<string>)

  function EventOf(line: string, parse: Parser): Event {
    if |line| < |PREFIX| || line[..|PREFIX|] != PREFIX then Ignored else parse(line[|PREFIX|..])
  }

  function Show(sc: Screen, e: Event): Screen {
    match e
    case Content(text) => Screen(sc.accumulated + text, Some(sc.accumulated + text))
    case Failure(message) =>
      sc.(narrative := Some(if sc.accumulated == "" then "Error: " + message else sc.accumulated))
    case _ => sc
  }

  /** What a line tells: with the prefix whatever the text behind it tells, even if there is none; otherwise nothing. */
  lemma OnlyPrefixedLinesTell(line: string, parse: Parser)
    ensures EventOf("data: " + line, parse) == parse(line)
    ensures (forall text: string :: line != "data: " + text) ==> EventOf(line, parse) == Ignored
  {
    assert ("data: " + line)[..|PREFIX|] == PREFIX && ("data: " + line)[|PREFIX|..] == line;
    if |line| >= |PREFIX| && line[..|PREFIX|] == PREFIX {
      assert line == "data: " + line[|PREFIX|..];
    }
  }

  /** The lines of one chunk, up to a done event. */
  function ShowLines(sc: Screen, lines: seq<string>, parse: Parser): Screen
    decreases |lines|
  {
    if lines == [] then sc
    else if EventOf(lines[0], parse).Done? then sc
    else ShowLines(Show(sc, EventOf(lines[0], parse)), lines[1..], parse)
  }

  function ShowChunks(sc: Screen, buffer: string, chunks: seq<string>, parse: Parser): Screen
    decreases |chunks|
  {
    if chunks == [] then sc
    else ShowChunks(ShowLines(sc, Lines(buffer + chunks[0]), parse), Tail(buffer + chunks[0]), chunks[1..], parse)
  }

  const START := Screen("", None)
  const NOTHING := "No insight generated."

  function Concat(chunks: seq<string>): string {
    if chunks == [] then "" else chunks[0] + Concat(chunks[1..])
  }

  lemma {:induction false} ConcatSnoc(chunks: seq<string>, c: string)
    ensures Concat(chunks + [c]) == Concat(chunks) + c
  {
    if chunks == [] {
      assert [c][1..] == [] && Concat([]) == "";
    } else {
      assert (chunks + [c])[1..] == chunks[1..] + [c];
      ConcatSnoc(chunks[1..], c);
    }
  }

  function Flatten(split: seq<seq<string>>): seq<string> {
    if split == [] then [] else split[0] + Flatten(split[1..])
  }

  /** The read loop. The chunks read so far are the lines consumed and the buffer, whatever the chunking. */
  method Generate(chunks: seq<string>, parse: Parser) returns (accumulated: string, narrative: Option<string>)
    ensures accumulated == ShowChunks(START, "", chunks, parse).accumulated
    ensures narrative == Some(if accumulated == "" then NOTHING else accumulated)
  {
    accumulated, narrative := "", None;
    var buffer := "";
    ghost var consumed: seq<string> := [];
    var i := 0;
    while i < |chunks|
      invariant 0 <= i <= |chunks|
      invariant NoBreak(buffer) && Rejoined(consumed, buffer) == Concat(chunks[..i])
      invariant accumulated != "" ==> narrative == Some(accumulated)
      invariant ShowChunks(START, "", chunks, parse)
        == ShowChunks(Screen(accumulated, narrative), buffer, chunks[i..], parse)
    {
      assert chunks[i..][0] == chunks[i] && chunks[i..][1..] == chunks[i + 1..];
      assert chunks[..i + 1] == chunks[..i] + [chunks[i]];
      ConcatSnoc(chunks[..i], chunks[i]);
      SplitLosesNothing("", buffer + chunks[i]);
      var lines := Lines(buffer + chunks[i]);
      RejoinedAppend(consumed, buffer, lines, Tail(buffer + chunks[i]), chunks[i]);
      consumed := consumed + lines;
      buffer := Tail(buffer + chunks[i]);
      ghost var before := Screen(accumulated, narrative);
      for k := 0 to |lines|
        invariant accumulated != "" ==> narrative == Some(accumulated)
        invariant ShowLines(before, lines, parse) == ShowLines(Screen(accumulated, narrative), lines[k..], parse)
      {
        assert lines[k..][0] == lines[k] && lines[k..][1..] == lines[k + 1..];
        match EventOf(lines[k], parse) {
          case Content(text) => accumulated := accumulated + text; narrative := Some(accumulated);
          case Done => break;
          case Failure(message) => narrative := Some(if accumulated == "" then "Error: " + message else accumulated);
          case Ignored =>
        }
      }
      i := i + 1;
    }
    if accumulated == "" { narrative := Some(NOTHING); }
  }

  lemma {:induction false} RejoinedAppend(consumed: seq<string>, buffer: string, lines: seq<string>, tail: string,
    chunk: string)
    requires Rejoined(lines, tail) == buffer + chunk
    ensures Rejoined(consumed + lines, tail) == Rejoined(consumed, buffer) + chunk
  {
    if consumed == [] {
      assert consumed + lines == lines;
    } else {
      assert (consumed + lines)[1..] == consumed[1..] + lines;
      RejoinedAppend(consumed[1..], buffer, lines, tail, chunk);
    }
  }

  // ----- chunking -----

  /** The text of all content events. */
  function AllText(lines: seq<string>, parse: Parser): string {
    if lines == [] then "" else
      (match EventOf(lines[0], parse) case Content(t) => t case _ => "") + AllText(lines[1..], parse)
  }

  /** The text of the content events that come after a done event. */
  function LateText(lines: seq<string>, parse: Parser): string {
    if lines == [] then "" else if EventOf(lines[0], parse).Done? then AllText(lines[1..], parse)
    else LateText(lines[1..], parse)
  }

  function EarlyText(lines: seq<string>, parse: Parser): string {
    if lines == [] || EventOf(lines[0], parse).Done? then "" else
      (match EventOf(lines[0], parse) case Content(t) => t case _ => "") + EarlyText(lines[1..], parse)
  }

  lemma {:induction false} ShowLinesAccumulates(sc: Screen, lines: seq<string>, parse: Parser)
    ensures ShowLines(sc, lines, parse).accumulated == sc.accumulated + EarlyText(lines, parse)
    decreases |lines|
  {
    if lines != [] && !EventOf(lines[0], parse).Done? {
      ShowLinesAccumulates(Show(sc, EventOf(lines[0], parse)), lines[1..], parse);
    }
  }

  lemma {:induction false} TextIsEarlyThenLate(lines: seq<string>, parse: Parser)
    ensures AllText(lines, parse) == EarlyText(lines, parse) + LateText(lines, parse)
  {
    if lines != [] { TextIsEarlyThenLate(lines[1..], parse); }
  }

  lemma {:induction false} AllTextAppend(xs: seq<string>, ys: seq<string>, parse: Parser)
    ensures AllText(xs + ys, parse) == AllText(xs, parse) + AllText(ys, parse)
  {
    if xs == [] {
      assert xs + ys == ys;
    } else {
      assert (xs + ys)[1..] == xs[1..] + ys;
      AllTextAppend(xs[1..], ys, parse);
    }
  }

  /** Without late text in the whole, there is none in any part. */
  lemma {:induction false} LateTextOfParts(xs: seq<string>, ys: seq<string>, parse: Parser)
    requires LateText(xs + ys, parse) == ""
    ensures LateText(xs, parse) == "" && LateText(ys, parse) == ""
  {
    if xs == [] {
      assert xs + ys == ys;
    } else {
      assert (xs + ys)[1..] == xs[1..] + ys;
      if EventOf(xs[0], parse).Done? {
        AllTextAppend(xs[1..], ys, parse);
        TextIsEarlyThenLate(ys, parse);
      } else {
        LateTextOfParts(xs[1..], ys, parse);
      }
    }
  }

  lemma {:induction false} ChunksWithoutLateText(sc: Screen, buffer: string, chunks: seq<string>, parse: Parser)
    requires NoBreak(buffer) && LateText(Lines(buffer + Concat(chunks)), parse) == ""
    ensures ShowChunks(sc, buffer, chunks, parse).accumulated
      == sc.accumulated + AllText(Lines(buffer + Concat(chunks)), parse)
    decreases |chunks|
  {
    if chunks == [] {
      assert buffer + Concat(chunks) == buffer + "" == buffer;
      UnbrokenLineIsKept("", buffer, "");
    } else {
      var s, rest := buffer + chunks[0], Concat(chunks[1..]);
      var here, tail := Lines(s), Tail(s);
      assert buffer + Concat(chunks) == s + rest;
      SplitLosesNothing("", s);
      SplitOfAppend("", s, rest);
      UnbrokenLineIsKept("", tail, rest);
      assert "" + tail == tail;
      assert Lines(s + rest) == here + Lines(tail + rest);
      LateTextOfParts(here, Lines(tail + rest), parse);
      ShowLinesAccumulates(sc, here, parse);
      TextIsEarlyThenLate(here, parse);
      ChunksWithoutLateText(ShowLines(sc, here, parse), tail, chunks[1..], parse);
      AllTextAppend(here, Lines(tail + rest), parse);
    }
  }

  /** One character at a time: every chunk completes at most one line, so no done event hides anything. */
  function Singles(s: string): seq<string> {
    if s == "" then [] else [[s[0]]] + Singles(s[1..])
  }

  lemma {:induction false} SinglesConcat(s: string)
    ensures Concat(Singles(s)) == s
  {
    if s != "" {
      SinglesConcat(s[1..]);
      assert Singles(s)[0] == [s[0]] && Singles(s)[1..] == Singles(s[1..]);
      assert s == [s[0]] + s[1..];
    }
  }

  lemma {:induction false} SinglesShowEverything(sc: Screen, buffer: string, s: string, parse: Parser)
    requires NoBreak(buffer)
    ensures ShowChunks(sc, buffer, Singles(s), parse).accumulated
      == sc.accumulated + AllText(LinesFrom(buffer, s), parse)
    decreases |s|
  {
    if s != "" {
      var c := [s[0]];
      assert Singles(s)[0] == c && Singles(s)[1..] == Singles(s[1..]);
      UnbrokenLineIsKept("", buffer, c);
      assert "" + buffer == buffer && c[1..] == "";
      var here := Lines(buffer + c);
      assert here == if s[0] == NEWLINE then [buffer] else [];
      ShowLinesAccumulates(sc, here, parse);
      assert here != [] ==> here[1..] == [];
      SinglesShowEverything(ShowLines(sc, here, parse), Tail(buffer + c), s[1..], parse);
    }
  }

  /** The final text does not depend on how the stream is cut into chunks, exactly when no text follows a done event. */
  lemma ChunkingIsInvisibleExactlyWithoutLateText(s: string, parse: Parser)
    ensures (forall chunks | Concat(chunks) == s ::
      ShowChunks(START, "", chunks, parse).accumulated == AllText(Lines(s), parse))
       <==> LateText(Lines(s), parse) == ""
    ensures (forall a, b | Concat(a) == s && Concat(b) == s ::
              ShowChunks(START, "", a, parse).accumulated == ShowChunks(START, "", b, parse).accumulated)
       <==> LateText(Lines(s), parse) == ""
  {
    assert "" + s == s;
    if LateText(Lines(s), parse) == "" {
      forall chunks | Concat(chunks) == s
        ensures ShowChunks(START, "", chunks, parse).accumulated == AllText(Lines(s), parse) {
        ChunksWithoutLateText(START, "", chunks, parse);
        assert "" + AllText(Lines(s), parse) == AllText(Lines(s), parse);
      }
    } else {
      WholeAndSinglesDiffer(s, parse);
      assert Concat([s]) == s && Concat(Singles(s)) == s;
    }
  }

  lemma {:induction false} WholeAndSinglesDiffer(s: string, parse: Parser)
    requires LateText(Lines(s), parse) != ""
    ensures Concat([s]) == s && Concat(Singles(s)) == s
    ensures ShowChunks(START, "", [s], parse).accumulated != AllText(Lines(s), parse)
    ensures ShowChunks(START, "", Singles(s), parse).accumulated == AllText(Lines(s), parse)
  {
    SinglesConcat(s);
    assert "" + s == s && [s][1..] == [] && Concat([]) == "" && s + "" == s;
    assert ShowChunks(START, "", [s], parse) == ShowLines(START, Lines(s), parse);
    ShowLinesAccumulates(START, Lines(s), parse);
    TextIsEarlyThenLate(Lines(s), parse);
    SinglesShowEverything(START, "", s, parse);
    assert |AllText(Lines(s), parse)| > |EarlyText(Lines(s), parse)|;
    assert "" + AllText(Lines(s), parse) == AllText(Lines(s), parse);
  }
}
