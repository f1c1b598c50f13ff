/**
 * Long-message delivery (src/utils/discord-utils.ts): content over Discord's
 * 2000-character message limit is cut into chunks at line boundaries, and a
 * chunk that leaves markdown formatting open re-opens it at the start of
 * the next chunk.
 *
 * `ChunkStep`, `FoldLines` and `Chunks` specify the chunk-building loop of
 * `sendLongMessage`; `SendLongMessage` is that loop, proved to compute
 * `Chunks`. The channel itself is left out: the method returns the messages
 * it would send, in order.
 */
module DiscordUtils {
  import opened Js

  const MessageLimit: nat := 2000

  const CodeBlock: string := "```"
  const InlineCode: string := "`"
  const Bold: string := "**"
  const Italic: string := "*"

  /** A marker is left open when the text holds an odd number of its
      non-overlapping occurrences. */
  predicate Open(text: string, marker: string)
    requires marker != []
  {
    CountMatches(text, marker) % 2 != 0
  }

  /** `extractActiveFormatting`: each marker whose occurrence count is odd,
      in the order code block, inline code, bold, italic. The source also
      tests `text.includes(marker)`, which an odd count already implies. */
  function ExtractActiveFormatting(text: string): (format: string)
    ensures |format| <= 7
  {
    var format := "";
    var format := if Includes(text, CodeBlock) && CountMatches(text, CodeBlock) % 2 != 0
                  then format + CodeBlock else format;
    var format := if Includes(text, InlineCode) && CountMatches(text, InlineCode) % 2 != 0
                  then format + InlineCode else format;
    var format := if Includes(text, Bold) && CountMatches(text, Bold) % 2 != 0
                  then format + Bold else format;
    var format := if Includes(text, Italic) && CountMatches(text, Italic) % 2 != 0
                  then format + Italic else format;
    format
  }

  /** The formatting carried over is each marker left open, in the order
      code block, inline code, bold, italic: the `includes` half of each
      test adds nothing. */
  lemma ActiveFormattingIsOpenMarkers(text: string)
    ensures ExtractActiveFormatting(text) == (if Open(text, CodeBlock) then CodeBlock else "")
                                          + (if Open(text, InlineCode) then InlineCode else "")
                                          + (if Open(text, Bold) then Bold else "")
                                          + (if Open(text, Italic) then Italic else "")
  {
    OpenIncludes(text, CodeBlock);
    OpenIncludes(text, InlineCode);
    OpenIncludes(text, Bold);
    OpenIncludes(text, Italic);
  }

  lemma OpenIncludes(text: string, marker: string)
    requires marker != []
    ensures Open(text, marker) ==> Includes(text, marker)
  {
    if Open(text, marker) {
      CountedImpliesIncludes(text, marker);
    }
  }

  // ---------------------------------------------------------------------
  // The chunk-building loop

  /** The loop variables `chunks`, `currentChunk` and `currentFormat`. */
  datatype ChunkState = ChunkState(chunks: seq<string>, current: string, format: string)

  const Start := ChunkState([], "", "")

  /** `currentChunk + (currentChunk ? "\n" : "") + line` */
  function Extended(current: string, line: string): string
  {
    current + (if current != [] then "\n" else "") + line
  }

  /** One iteration of the loop over the lines. */
  function ChunkStep(st: ChunkState, line: string, preserveFormat: bool): ChunkState
  {
    var potential := Extended(st.current, line);
    if |potential| <= MessageLimit then
      st.(current := potential)
    else
      var format := if preserveFormat then ExtractActiveFormatting(st.current) else st.format;
      ChunkState(st.chunks + [st.current], format + line, format)
  }

  /** The loop state after the given lines. */
  function FoldLines(lines: seq<string>, preserveFormat: bool): ChunkState
  {
    if lines == [] then Start
    else ChunkStep(FoldLines(lines[..|lines| - 1], preserveFormat), lines[|lines| - 1], preserveFormat)
  }

  lemma FoldNext(lines: seq<string>, i: nat, preserveFormat: bool)
    requires i < |lines|
    ensures FoldLines(lines[..i + 1], preserveFormat) ==
            ChunkStep(FoldLines(lines[..i], preserveFormat), lines[i], preserveFormat)
  {
    assert lines[..i + 1][..i] == lines[..i];
  }

  /** The messages `sendLongMessage` sends, in order. */
  function Chunks(content: string, preserveFormat: bool): seq<string>
  {
    if |content| <= MessageLimit then [content]
    else
      var st := FoldLines(Split(content, '\n'), preserveFormat);
      if st.current != [] then st.chunks + [st.current] else st.chunks
  }

  /** `sendLongMessage(channel, content, { preserveFormat })`: returns the
      messages sent to the channel, in the order they are sent. */
  method SendLongMessage(content: string, preserveFormat: bool) returns (sent: seq<string>)
    ensures sent == Chunks(content, preserveFormat)
    ensures |content| <= MessageLimit ==> sent == [content]
  {
    if |content| <= MessageLimit {
      sent := [content];
      return;
    }

    var chunks: seq<string> := [];
    var currentChunk := "";
    var currentFormat := "";
    var lines := Split(content, '\n');

    var i := 0;
    while i < |lines|
      invariant 0 <= i <= |lines|
      invariant ChunkState(chunks, currentChunk, currentFormat) == FoldLines(lines[..i], preserveFormat)
    {
      var line := lines[i];
      var potentialChunk := currentChunk + (if currentChunk != [] then "\n" else "") + line;
      if |potentialChunk| <= MessageLimit {
        currentChunk := potentialChunk;
      } else {
        if preserveFormat {
          currentFormat := ExtractActiveFormatting(currentChunk);
        }
        chunks := chunks + [currentChunk];
        currentChunk := currentFormat + line;
      }
      FoldNext(lines, i, preserveFormat);
      i := i + 1;
    }
    assert lines[..|lines|] == lines;

    if currentChunk != [] {
      chunks := chunks + [currentChunk];
    }

    sent := [];
    for k := 0 to |chunks|
      invariant sent == chunks[..k]
    {
      sent := sent + [chunks[k]];
    }
    assert chunks[..|chunks|] == chunks;
  }

  // ---------------------------------------------------------------------
  // Properties

  predicate AllWithin(parts: seq<string>, limit: nat)
  {
    forall k :: 0 <= k < |parts| ==> |parts[k]| <= limit
  }

  predicate NoEmpty(parts: seq<string>)
  {
    forall k :: 0 <= k < |parts| ==> parts[k] != []
  }

  /** Chunks are only ever added at the end. */
  lemma {:induction false} FoldChunksGrow(lines: seq<string>, k: nat, preserveFormat: bool)
    requires k <= |lines|
    ensures FoldLines(lines[..k], preserveFormat).chunks <= FoldLines(lines, preserveFormat).chunks
    decreases |lines|
  {
    if k < |lines| {
      var init := lines[..|lines| - 1];
      assert init[..k] == lines[..k];
      FoldChunksGrow(init, k, preserveFormat);
    } else {
      assert lines[..k] == lines;
    }
  }

  /** Without format carrying, lines that each fit give chunks that each fit. */
  lemma {:induction false} FoldWithinLimit(lines: seq<string>)
    requires AllWithin(lines, MessageLimit)
    ensures FoldLines(lines, false).format == []
    ensures |FoldLines(lines, false).current| <= MessageLimit
    ensures AllWithin(FoldLines(lines, false).chunks, MessageLimit)
  {
    if lines != [] {
      var init := lines[..|lines| - 1];
      assert AllWithin(init, MessageLimit) by {
        forall k | 0 <= k < |init| ensures |init[k]| <= MessageLimit {
          assert init[k] == lines[k];
        }
      }
      FoldWithinLimit(init);
      assert |lines[|lines| - 1]| <= MessageLimit;
    }
  }

  /** With `preserveFormat` false, every chunk is within the limit as long
      as every line is. */
  lemma ChunksWithinLimit(content: string)
    requires AllWithin(Split(content, '\n'), MessageLimit)
    ensures AllWithin(Chunks(content, false), MessageLimit)
  {
    if |content| > MessageLimit {
      FoldWithinLimit(Split(content, '\n'));
    }
  }

  /** What a chunk hands on to the next one: the formatting it leaves open
      when formatting is preserved, nothing otherwise. */
  function Carried(prev: string, preserveFormat: bool): string
  {
    if preserveFormat then ExtractActiveFormatting(prev) else ""
  }

  /** The invariant behind format carrying: every chunk after the first
      starts with what the chunk before it hands on. */
  predicate FormatCarried(chunks: seq<string>, preserveFormat: bool)
  {
    forall k :: 1 <= k < |chunks| ==> Carried(chunks[k - 1], preserveFormat) <= chunks[k]
  }

  /** Appending a chunk that starts with what the last chunk hands on keeps
      the invariant. */
  lemma FormatCarriedSnoc(chunks: seq<string>, c: string, preserveFormat: bool)
    requires FormatCarried(chunks, preserveFormat)
    requires chunks != [] ==> Carried(chunks[|chunks| - 1], preserveFormat) <= c
    ensures FormatCarried(chunks + [c], preserveFormat)
  {
    var all := chunks + [c];
    forall k | 1 <= k < |all| ensures Carried(all[k - 1], preserveFormat) <= all[k] {
      if k < |chunks| {
        assert all[k - 1] == chunks[k - 1] && all[k] == chunks[k];
      }
    }
  }

  lemma {:induction false} FoldCarriesFormat(lines: seq<string>)
    ensures var st := FoldLines(lines, true);
      FormatCarried(st.chunks, true) && st.format <= st.current &&
      (st.chunks != [] ==> st.format == ExtractActiveFormatting(st.chunks[|st.chunks| - 1]))
  {
    if lines != [] {
      var init := lines[..|lines| - 1];
      FoldCarriesFormat(init);
      var st := FoldLines(init, true);
      var line := lines[|lines| - 1];
      if |Extended(st.current, line)| <= MessageLimit {
        assert st.format <= st.current <= Extended(st.current, line);
      } else {
        FormatCarriedSnoc(st.chunks, st.current, true);
      }
    }
  }

  /** The messages of a final loop state keep the invariant: the last chunk
      pushed after the loop also starts with what the one before left open. */
  lemma FinalChunksCarry(st: ChunkState)
    requires FormatCarried(st.chunks, true) && st.format <= st.current
    requires st.chunks != [] ==> st.format == ExtractActiveFormatting(st.chunks[|st.chunks| - 1])
    ensures FormatCarried(if st.current != [] then st.chunks + [st.current] else st.chunks, true)
  {
    if st.current != [] {
      FormatCarriedSnoc(st.chunks, st.current, true);
    }
  }

  /** With `preserveFormat` on, each message after the first starts with the
      markdown markers the previous message left open. */
  lemma ChunksCarryFormat(content: string)
    ensures FormatCarried(Chunks(content, true), true)
  {
    if |content| > MessageLimit {
      FoldCarriesFormat(Split(content, '\n'));
      FinalChunksCarry(FoldLines(Split(content, '\n'), true));
    }
  }

  lemma {:induction false} JoinSnoc(parts: seq<string>, last: string, sep: char)
    requires parts != []
    ensures Join(parts + [last], sep) == Join(parts, sep) + [sep] + last
  {
    if |parts| == 1 {
      assert (parts + [last])[1..] == [last];
    } else {
      assert (parts + [last])[1..] == parts[1..] + [last];
      JoinSnoc(parts[1..], last, sep);
    }
  }

  /** `Join(ps + [b], sep)` grows by `sep + tail` when `b` does. */
  lemma JoinExtendLast(ps: seq<string>, b: string, tail: string, sep: char)
    ensures Join(ps + [b + [sep] + tail], sep) == Join(ps + [b], sep) + [sep] + tail
  {
    if ps == [] {
      assert ps + [b + [sep] + tail] == [b + [sep] + tail];
      assert ps + [b] == [b];
    } else {
      JoinSnoc(ps, b + [sep] + tail, sep);
      JoinSnoc(ps, b, sep);
    }
  }

  /** The text of the k-th chunk without what the chunk before handed on. */
  function Body(chunks: seq<string>, k: nat, preserveFormat: bool): (b: string)
    requires k < |chunks|
    ensures k > 0 && Carried(chunks[k - 1], preserveFormat) <= chunks[k] ==>
      chunks[k] == Carried(chunks[k - 1], preserveFormat) + b
  {
    if k == 0 then chunks[0]
    else
      var carried := Carried(chunks[k - 1], preserveFormat);
      if carried <= chunks[k] then chunks[k][|carried|..] else chunks[k]
  }

  /** Each chunk's own text: the first chunk whole, every later one without
      the formatting re-opened at its start. */
  function Bodies(chunks: seq<string>, preserveFormat: bool): (bodies: seq<string>)
    ensures |bodies| == |chunks|
  {
    seq(|chunks|, k requires 0 <= k < |chunks| => Body(chunks, k, preserveFormat))
  }

  lemma BodiesSnoc(chunks: seq<string>, c: string, preserveFormat: bool)
    ensures Bodies(chunks + [c], preserveFormat) ==
            Bodies(chunks, preserveFormat) + [Body(chunks + [c], |chunks|, preserveFormat)]
  {
    var all := chunks + [c];
    forall k | 0 <= k < |chunks|
      ensures Body(all, k, preserveFormat) == Body(chunks, k, preserveFormat)
    {
      assert all[k] == chunks[k];
      if k > 0 { assert all[k - 1] == chunks[k - 1]; }
    }
  }

  /** Without format carrying nothing is stripped. */
  lemma BodiesPlain(chunks: seq<string>)
    ensures Bodies(chunks, false) == chunks
  {
    forall k | 0 <= k < |chunks| ensures Bodies(chunks, false)[k] == chunks[k] {
      if k > 0 { assert chunks[k][0..] == chunks[k]; }
    }
  }

  /** The loop loses nothing at this step: either the line joins the current
      chunk, or the chunk it starts is not empty. An empty new chunk would
      later be joined without its line feed, or dropped at the end. */
  predicate Kept(st: ChunkState, line: string, preserveFormat: bool)
  {
    |Extended(st.current, line)| <= MessageLimit || Carried(st.current, preserveFormat) + line != []
  }

  /** The conditions under which the messages hold every line: the first
      line is not empty and fits, and no later step starts an empty chunk. */
  predicate LinesKept(lines: seq<string>, preserveFormat: bool)
  {
    lines != [] && lines[0] != [] && |lines[0]| <= MessageLimit &&
    forall i :: 1 <= i < |lines| ==> Kept(FoldLines(lines[..i], preserveFormat), lines[i], preserveFormat)
  }

  /** Lines without blanks, the first one fitting, are always kept. */
  lemma NoBlankLinesKept(lines: seq<string>, preserveFormat: bool)
    requires lines != [] && NoEmpty(lines) && |lines[0]| <= MessageLimit
    ensures LinesKept(lines, preserveFormat)
  {
  }

  /** The loop state after `text` has been consumed, read back: the current
      chunk is not empty, every chunk starts with what the one before it
      hands on, the state's format is what the last pushed chunk hands on,
      and the bodies of the chunks joined with line feeds are `text`. */
  predicate Rejoins(st: ChunkState, preserveFormat: bool, text: string)
  {
    var all := st.chunks + [st.current];
    st.current != [] && st.format <= st.current &&
    st.format == (if st.chunks == [] then "" else Carried(st.chunks[|st.chunks| - 1], preserveFormat)) &&
    FormatCarried(all, preserveFormat) &&
    Join(Bodies(all, preserveFormat), '\n') == text
  }

  /** One kept step adds a line feed and the line to the text read back. */
  lemma RejoinStep(st: ChunkState, line: string, preserveFormat: bool, text: string)
    requires Rejoins(st, preserveFormat, text) && Kept(st, line, preserveFormat)
    ensures Rejoins(ChunkStep(st, line, preserveFormat), preserveFormat, text + "\n" + line)
  {
    if |Extended(st.current, line)| <= MessageLimit {
      RejoinExtend(st, line, preserveFormat, text);
    } else {
      RejoinPush(st, line, preserveFormat, text);
    }
  }

  /** The last chunk's body, given that it starts with the state's format. */
  lemma LastBody(st: ChunkState, c: string, preserveFormat: bool)
    requires st.format <= c
    requires st.format == (if st.chunks == [] then "" else Carried(st.chunks[|st.chunks| - 1], preserveFormat))
    ensures Bodies(st.chunks + [c], preserveFormat) == Bodies(st.chunks, preserveFormat) + [c[|st.format|..]]
  {
    BodiesSnoc(st.chunks, c, preserveFormat);
  }

  /** A line that fits joins the current chunk after a line feed. */
  lemma RejoinExtend(st: ChunkState, line: string, preserveFormat: bool, text: string)
    requires Rejoins(st, preserveFormat, text) && |Extended(st.current, line)| <= MessageLimit
    ensures Rejoins(ChunkStep(st, line, preserveFormat), preserveFormat, text + "\n" + line)
  {
    var f := st.format;
    var potential := Extended(st.current, line);
    assert potential == st.current + "\n" + line;
    assert potential[|f|..] == st.current[|f|..] + "\n" + line;
    LastBody(st, st.current, preserveFormat);
    LastBody(st, potential, preserveFormat);
    JoinExtendLast(Bodies(st.chunks, preserveFormat), st.current[|f|..], line, '\n');
    assert ChunkStep(st, line, preserveFormat) == st.(current := potential);
    FormatCarriedInit(st.chunks, st.current, preserveFormat);
    FormatCarriedSnoc(st.chunks, potential, preserveFormat);
  }

  /** Dropping the last chunk keeps the invariant. */
  lemma FormatCarriedInit(chunks: seq<string>, c: string, preserveFormat: bool)
    requires FormatCarried(chunks + [c], preserveFormat)
    ensures FormatCarried(chunks, preserveFormat)
  {
    var all := chunks + [c];
    forall k | 1 <= k < |chunks| ensures Carried(chunks[k - 1], preserveFormat) <= chunks[k] {
      assert all[k - 1] == chunks[k - 1] && all[k] == chunks[k];
    }
  }

  /** A line that does not fit starts a new chunk after what the current one
      hands on. */
  lemma RejoinPush(st: ChunkState, line: string, preserveFormat: bool, text: string)
    requires Rejoins(st, preserveFormat, text) && |Extended(st.current, line)| > MessageLimit
    requires Carried(st.current, preserveFormat) + line != []
    ensures Rejoins(ChunkStep(st, line, preserveFormat), preserveFormat, text + "\n" + line)
  {
    var all := st.chunks + [st.current];
    var format := Carried(st.current, preserveFormat);
    assert ChunkStep(st, line, preserveFormat) == ChunkState(all, format + line, format);
    LastBody(st, st.current, preserveFormat);
    BodiesSnoc(all, format + line, preserveFormat);
    assert (format + line)[|format|..] == line;
    JoinSnoc(Bodies(all, preserveFormat), line, '\n');
    FormatCarriedSnoc(all, format + line, preserveFormat);
  }

  /** Over kept lines, the loop state reads back as the lines joined with
      line feeds. */
  lemma {:induction false} FoldRejoins(lines: seq<string>, preserveFormat: bool)
    requires LinesKept(lines, preserveFormat)
    ensures Rejoins(FoldLines(lines, preserveFormat), preserveFormat, Join(lines, '\n'))
  {
    var init := lines[..|lines| - 1];
    var line := lines[|lines| - 1];
    if init == [] {
      assert lines == [line];
      assert FoldLines(lines, preserveFormat) == ChunkState([], line, "");
      assert Bodies([line], preserveFormat) == [line];
    } else {
      assert LinesKept(init, preserveFormat) by {
        forall i | 1 <= i < |init|
          ensures Kept(FoldLines(init[..i], preserveFormat), init[i], preserveFormat)
        {
          assert init[..i] == lines[..i] && init[i] == lines[i];
        }
      }
      FoldRejoins(init, preserveFormat);
      assert lines == init + [line];
      JoinSnoc(init, line, '\n');
      assert lines[..|init|] == init;
      RejoinStep(FoldLines(init, preserveFormat), line, preserveFormat, Join(init, '\n'));
    }
  }

  /** Lines are never split, lost or reordered: the messages with the
      formatting re-opened at their start removed, joined with line feeds,
      are the content, and each message after the first is what the one
      before hands on followed by its own text. This holds for content that
      fits, and for longer content whose lines are kept. */
  lemma ChunksRejoinBodies(content: string, preserveFormat: bool)
    requires |content| <= MessageLimit || LinesKept(Split(content, '\n'), preserveFormat)
    ensures var chunks := Chunks(content, preserveFormat);
      Join(Bodies(chunks, preserveFormat), '\n') == content &&
      forall k :: 1 <= k < |chunks| ==>
        chunks[k] == Carried(chunks[k - 1], preserveFormat) + Bodies(chunks, preserveFormat)[k]
  {
    var chunks := Chunks(content, preserveFormat);
    if |content| <= MessageLimit {
      assert Bodies([content], preserveFormat) == [content];
    } else {
      var lines := Split(content, '\n');
      SplitJoin(content, '\n');
      FoldRejoins(lines, preserveFormat);
      LongChunks(content, preserveFormat);
    }
    CarriedBodies(chunks, preserveFormat);
  }

  lemma CarriedBodies(chunks: seq<string>, preserveFormat: bool)
    requires FormatCarried(chunks, preserveFormat)
    ensures forall k :: 1 <= k < |chunks| ==>
      chunks[k] == Carried(chunks[k - 1], preserveFormat) + Bodies(chunks, preserveFormat)[k]
  {
    forall k | 1 <= k < |chunks|
      ensures chunks[k] == Carried(chunks[k - 1], preserveFormat) + Bodies(chunks, preserveFormat)[k]
    {
      assert Bodies(chunks, preserveFormat)[k] == Body(chunks, k, preserveFormat);
    }
  }

  /** Without format carrying, when no line is blank and the first line
      fits, the messages joined with line feeds are the original content. */
  lemma ChunksRejoin(content: string)
    requires NoEmpty(Split(content, '\n'))
    requires |Split(content, '\n')[0]| <= MessageLimit
    ensures Join(Chunks(content, false), '\n') == content
  {
    NoBlankLinesKept(Split(content, '\n'), false);
    ChunksRejoinBodies(content, false);
    BodiesPlain(Chunks(content, false));
  }

  /** A first line longer than the limit is preceded by an empty message. */
  lemma FirstLongLineGivesEmptyChunk(content: string, preserveFormat: bool)
    requires |content| > MessageLimit
    requires |Split(content, '\n')[0]| > MessageLimit
    ensures |Chunks(content, preserveFormat)| > 0 && Chunks(content, preserveFormat)[0] == []
  {
    var lines := Split(content, '\n');
    FoldChunksGrow(lines, 1, preserveFormat);
    assert lines[..1] == [lines[0]];
    assert FoldLines([lines[0]], preserveFormat) == ChunkStep(FoldLines([], preserveFormat), lines[0], preserveFormat);
    assert FoldLines(lines[..1], preserveFormat).chunks == [[]];
  }

  // ---------------------------------------------------------------------
  // The carried format can push a chunk over the limit

  /** A 2001-character content whose two lines both fit: "```" and 1997
      'x's. The second line does not fit after the first, so it starts a
      new chunk prefixed with the formatting left open by "```", which is
      "```" plus "`" (three backticks are also an odd number of inline
      markers): the second message has 2001 characters. */
  lemma FormatPrefixOverflows()
    ensures var content := CodeBlock + "\n" + seq(1997, _ => 'x');
      AllWithin(Split(content, '\n'), MessageLimit) &&
      exists k :: 0 <= k < |Chunks(content, true)| && |Chunks(content, true)[k]| > MessageLimit
  {
    var body: string := seq(1997, _ => 'x');
    assert '\n' !in body;
    CodeBlockLineOverflows(body);
  }

  /** The same for any line of 1997 characters after "```": two messages, the
      second of 2001 characters. */
  lemma CodeBlockLineOverflows(body: string)
    requires |body| == 1997 && '\n' !in body
    ensures var content := CodeBlock + "\n" + body;
      AllWithin(Split(content, '\n'), MessageLimit) &&
      |Chunks(content, true)| == 2 && |Chunks(content, true)[1]| == 2001
  {
    var content := CodeBlock + "\n" + body;
    var lines := [CodeBlock, body];
    assert Split(content, '\n') == lines by {
      SplitAfterSeparator(CodeBlock, body, '\n');
    }
    assert AllWithin(lines, MessageLimit);
    assert FoldLines(lines, true) == ChunkState([CodeBlock], "````" + body, "````") by {
      TwoLineFold(body);
    }
    LongChunks(content, true);
    assert Chunks(content, true) == [CodeBlock] + ["````" + body];
  }

  /** Content over the limit is sent as the chunks the loop over its lines
      leaves, the last one included when it is not empty. */
  lemma LongChunks(content: string, preserveFormat: bool)
    requires |content| > MessageLimit
    ensures var st := FoldLines(Split(content, '\n'), preserveFormat);
      Chunks(content, preserveFormat) == if st.current != [] then st.chunks + [st.current] else st.chunks
  {
  }

  /** "```" leaves both the code block and the inline code open. */
  lemma CodeBlockLeavesTwoOpen()
    ensures ExtractActiveFormatting(CodeBlock) == "````"
  {
    assert CountMatches(CodeBlock, CodeBlock) == 1;
    assert CodeBlock[..1] == InlineCode && CodeBlock[1..] == "``";
    assert "``"[..1] == InlineCode && "``"[1..] == InlineCode;
    assert CountMatches(InlineCode, InlineCode) == 1;
    assert CountMatches("``", InlineCode) == 2;
    assert CountMatches(CodeBlock, InlineCode) == 3;
    assert CodeBlock[..2] == "``" && "``"[..2] == "``";
    assert CountMatches("``", Bold) == 0;
    assert CountMatches(CodeBlock, Bold) == 0;
    assert CountMatches(InlineCode, Italic) == 0;
    assert CountMatches("``", Italic) == 0;
    assert CountMatches(CodeBlock, Italic) == 0;
  }

  /** The loop over "```" and a line of 1997 characters. */
  lemma TwoLineFold(body: string)
    requires |body| == 1997
    ensures FoldLines([CodeBlock, body], true) == ChunkState([CodeBlock], "````" + body, "````")
  {
    var lines := [CodeBlock, body];
    assert lines[..1] == [CodeBlock];
    assert FoldLines([CodeBlock], true) == ChunkStep(FoldLines([], true), CodeBlock, true);
    assert Extended("", CodeBlock) == CodeBlock;
    var first := FoldLines(lines[..1], true);
    assert first == ChunkState([], CodeBlock, "");
    CodeBlockLeavesTwoOpen();
    assert FoldLines(lines, true) == ChunkStep(first, body, true);
  }

  lemma {:induction false} SplitWithoutSeparator(s: string, sep: char)
    requires sep !in s
    ensures Split(s, sep) == [s]
  {
    if s != [] {
      SplitWithoutSeparator(s[1..], sep);
      assert [s[0]] + s[1..] == s;
    }
  }

  lemma {:induction false} SplitAfterSeparator(a: string, b: string, sep: char)
    requires sep !in a && sep !in b
    ensures Split(a + [sep] + b, sep) == [a, b]
  {
    if a == [] {
      assert a + [sep] + b == [sep] + b;
      assert ([sep] + b)[1..] == b;
      SplitWithoutSeparator(b, sep);
    } else {
      assert (a + [sep] + b)[1..] == a[1..] + [sep] + b;
      SplitAfterSeparator(a[1..], b, sep);
      assert [a[0]] + a[1..] == a;
    }
  }

  // ---------------------------------------------------------------------
  // Corrected chunking: the carried format is dropped when it does not fit

  function FittedStep(st: ChunkState, line: string, preserveFormat: bool): ChunkState
  {
    var potential := Extended(st.current, line);
    if |potential| <= MessageLimit then
      st.(current := potential)
    else
      var format := if preserveFormat then ExtractActiveFormatting(st.current) else st.format;
      var next := if |format + line| <= MessageLimit then format + line else line;
      ChunkState(st.chunks + [st.current], next, format)
  }

  function FittedFold(lines: seq<string>, preserveFormat: bool): ChunkState
  {
    if lines == [] then Start
    else FittedStep(FittedFold(lines[..|lines| - 1], preserveFormat), lines[|lines| - 1], preserveFormat)
  }

  function FittedChunks(content: string, preserveFormat: bool): seq<string>
  {
    if |content| <= MessageLimit then [content]
    else
      var st := FittedFold(Split(content, '\n'), preserveFormat);
      if st.current != [] then st.chunks + [st.current] else st.chunks
  }

  lemma {:induction false} FittedFoldWithinLimit(lines: seq<string>, preserveFormat: bool)
    requires AllWithin(lines, MessageLimit)
    ensures |FittedFold(lines, preserveFormat).current| <= MessageLimit
    ensures AllWithin(FittedFold(lines, preserveFormat).chunks, MessageLimit)
  {
    if lines != [] {
      var init := lines[..|lines| - 1];
      assert AllWithin(init, MessageLimit) by {
        forall k | 0 <= k < |init| ensures |init[k]| <= MessageLimit {
          assert init[k] == lines[k];
        }
      }
      FittedFoldWithinLimit(init, preserveFormat);
      assert |lines[|lines| - 1]| <= MessageLimit;
    }
  }

  /** With the correction, every message fits whenever every line does,
      whether or not formatting is carried. */
  lemma FittedChunksWithinLimit(content: string, preserveFormat: bool)
    requires AllWithin(Split(content, '\n'), MessageLimit)
    ensures AllWithin(FittedChunks(content, preserveFormat), MessageLimit)
  {
    if |content| > MessageLimit {
      FittedFoldWithinLimit(Split(content, '\n'), preserveFormat);
    }
  }
}
