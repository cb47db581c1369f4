/** api/app.py, `event_stream`: the frames of a streamed chat completion, in the
    event-stream format of section 9.2 of the WHATWG HTML Living Standard
    (server-sent events): each frame is one `data:` line and a blank line.
    JSON encoding is a parameter (`dumps`); what retrieval prepared and what the
    upstream model streamed are inputs. */
module ApiStream {
  import opened Wrappers
  import opened Text
  import opened Lists
  import opened ApiChunk
  import opened RagPipeline

  /** The payloads the stream sends before `[DONE]`. */
  datatype Event =
    | RoleDelta                            // the first chunk, declaring the assistant role
    | ContentDelta(text: string)           // a piece of the answer
    | StopChunk                            // the chunk with finish_reason "stop"
    | SourcesEvent(sources: seq<Source>)   // the chat.completion.sources event

  /** What prepare_rag produced: a direct answer or not, whether there are model
      messages, and the sources. */
  datatype Prepared = Prepared(directAnswer: Option<string>, hasMessages: bool, sources: seq<Source>)

  /** The outcome of waiting for prepare_rag. */
  datatype Preparation = Ready(prepared: Prepared) | TimedOut | Failed(message: string)

  /** What the upstream model streamed: the parts it yielded, then possibly an
      exception. */
  datatype UpstreamRun = UpstreamRun(parts: seq<string>, failure: Option<string>)

  datatype StreamSettings = StreamSettings(appendSources: bool, inlineCitations: bool)

  const DoneFrame: string := "data: [DONE]\n\n"

  /** One event-stream frame: a `data:` field and the blank line ending the event. */
  function Frame(payload: string): string { "data: " + payload + "\n\n" }

  function FramesOf(events: seq<Event>, dumps: Event -> string): (r: seq<string>)
    ensures |r| == |events|
  {
    seq(|events|, i requires 0 <= i < |events| => Frame(dumps(events[i])))
  }

  function ContentDeltas(parts: seq<string>): (r: seq<Event>)
    ensures |r| == |parts|
  {
    seq(|parts|, i requires 0 <= i < |parts| => ContentDelta(parts[i]))
  }

  // Error texts ("[错误] ...") sent as content when something fails.
  const TimeoutText: string := "\n\n[\U{9519}\U{8BEF}] \U{68C0}\U{7D22}/\U{4E0A}\U{4E0B}\U{6587}\U{51C6}\U{5907}\U{8D85}\U{65F6}\U{FF1A}\U{8BF7}\U{7F29}\U{77ED}\U{95EE}\U{9898}\U{6216}\U{7A0D}\U{540E}\U{91CD}\U{8BD5}"
  const PrepareFailedPrefix: string := "\n\n[\U{9519}\U{8BEF}] \U{68C0}\U{7D22}/\U{4E0A}\U{4E0B}\U{6587}\U{51C6}\U{5907}\U{5931}\U{8D25}\U{FF1A}"
  const UpstreamFailedPrefix: string := "\n\n[\U{9519}\U{8BEF}] \U{4E0A}\U{6E38}\U{6A21}\U{578B}\U{6D41}\U{5F0F}\U{8F93}\U{51FA}\U{5931}\U{8D25}\U{FF1A}"
  /** The notice shown when no upstream chat model is configured. */
  const NoChatHeader: string := "\U{5F53}\U{524D}\U{670D}\U{52A1}\U{672A}\U{914D}\U{7F6E}\U{4E0A}\U{6E38} ChatModel\U{FF08}CHAT_API_KEY\U{FF09}\U{FF0C}\U{56E0}\U{6B64}\U{65E0}\U{6CD5}\U{751F}\U{6210}\U{9AD8}\U{8D28}\U{91CF}\U{81EA}\U{7136}\U{8BED}\U{8A00}\U{56DE}\U{7B54}\U{3002}\n\n\U{4E0B}\U{9762}\U{662F}\U{68C0}\U{7D22}\U{5230}\U{7684}\U{76F8}\U{5173}\U{6587}\U{6863}\U{7247}\U{6BB5}\U{FF08}\U{8BF7}\U{4F18}\U{5148}\U{67E5}\U{770B}\U{6765}\U{6E90}\U{94FE}\U{63A5}\U{FF09}\U{FF1A}\n"

  /** The text sent when preparation did not finish: none when it did. */
  function PrepareErrorText(p: Preparation): string {
    match p
    case Ready(_) => ""
    case TimedOut => TimeoutText
    case Failed(m) => PrepareFailedPrefix + m
  }

  function SourcesOfRun(p: Preparation): seq<Source> {
    if p.Ready? then p.prepared.sources else []
  }

  /** The sources tail the stream appends: the numbered list in inline mode, else
      "来源：" and one "- url" line per source with a non-empty url. */
  function StreamSourcesTail(sources: seq<Source>, inline: bool): string {
    if inline then RStrip(Join(["\n\n" + InlineHeading] + RefLines(sources), "\n"))
    else "\n\n" + PlainHeading + "\n" + Join(PlainUrlLines(sources), "\n")
  }

  function PlainUrlLines(sources: seq<Source>): seq<string>
    decreases |sources|
  {
    if sources == [] then []
    else (if sources[0].url != "" then ["- " + sources[0].url] else []) + PlainUrlLines(sources[1..])
  }

  function SourcesTail(sources: seq<Source>, s: StreamSettings): string {
    if sources != [] && s.appendSources then StreamSourcesTail(sources, s.inlineCitations) else ""
  }

  /** `- title（url）` for each of the first five sources, the title falling back to
      the url. */
  function NoChatText(sources: seq<Source>): string {
    var shown := Take(sources, 5);
    NoChatHeader + Join(seq(|shown|, i requires 0 <= i < |shown| =>
      "- " + (if shown[i].title != "" then shown[i].title else shown[i].url)
      + "\U{FF08}" + shown[i].url + "\U{FF09}"), "\n")
  }

  /** The model is not called: no preparation, a direct answer, no messages, or no
      chat model. */
  predicate Fallback(p: Preparation, hasChat: bool) {
    !p.Ready? || p.prepared.directAnswer.Some? || !p.prepared.hasMessages || !hasChat
  }

  /** The text sent in place of a model answer:
      `(direct_answer or no_chat_text or "") + tail`, where the sources tail goes
      only with a direct answer. */
  function FallbackText(p: Preparation, s: StreamSettings, hasChat: bool): string {
    var sources := SourcesOfRun(p);
    var noChat := if !hasChat && p.Ready? && p.prepared.directAnswer.None? && sources != []
      then NoChatText(sources) else "";
    var direct := if p.Ready? && p.prepared.directAnswer.Some? then p.prepared.directAnswer.value else "";
    var base := if direct != "" then direct else noChat;
    var tail := if p.Ready? && p.prepared.directAnswer.Some? then SourcesTail(sources, s) else "";
    base + tail
  }

  predicate NonEmpty(part: string) { part != "" }

  /** What follows the model's parts: the sources tail after a clean finish, or the
      error text after an exception. */
  function AfterUpstream(run: UpstreamRun, tail: string): seq<Event> {
    if run.failure.Some? then ContentDeltas(ChunkText(UpstreamFailedPrefix + run.failure.value, 80))
    else if tail != "" then [ContentDelta(tail)]
    else []
  }

  function BodyEvents(p: Preparation, s: StreamSettings, hasChat: bool, run: UpstreamRun): seq<Event> {
    if Fallback(p, hasChat) then ContentDeltas(ChunkText(FallbackText(p, s, hasChat), 60))
    else ContentDeltas(Filter(run.parts, NonEmpty)) + AfterUpstream(run, SourcesTail(SourcesOfRun(p), s))
  }

  function PrepareErrorEvents(p: Preparation): seq<Event> {
    if p.Ready? then [] else ContentDeltas(ChunkText(PrepareErrorText(p), 80))
  }

  /** The events of one streamed response, in order. */
  function StreamEvents(p: Preparation, s: StreamSettings, hasChat: bool, run: UpstreamRun): seq<Event> {
    [RoleDelta] + PrepareErrorEvents(p) + BodyEvents(p, s, hasChat, run)
      + [StopChunk, SourcesEvent(SourcesOfRun(p))]
  }

  function StreamFrames(p: Preparation, s: StreamSettings, hasChat: bool, run: UpstreamRun,
                        dumps: Event -> string): seq<string> {
    FramesOf(StreamEvents(p, s, hasChat, run), dumps) + [DoneFrame]
  }

  // ---------------------------------------------------------------------------
  // The generator

  /** A `for part in parts: yield` loop over content parts, skipping empty parts
      when `skipEmpty` holds. */
  method EmitDeltas(frames: seq<string>, parts: seq<string>, skipEmpty: bool, dumps: Event -> string)
    returns (out: seq<string>)
    ensures out == frames + FramesOf(ContentDeltas(if skipEmpty then Filter(parts, NonEmpty) else parts), dumps)
  {
    out := frames;
    var i := 0;
    while i < |parts|
      invariant 0 <= i <= |parts|
      invariant out == frames + FramesOf(ContentDeltas(Kept(parts[..i], skipEmpty)), dumps)
      decreases |parts| - i
    {
      var part := parts[i];
      assert parts[..i + 1] == parts[..i] + [part];
      KeptSnoc(parts[..i], part, skipEmpty);
      i := i + 1;
      if skipEmpty && part == "" {
        continue;
      }
      EmitStep(frames, out, Kept(parts[..i - 1], skipEmpty), part, dumps);
      out := out + [Frame(dumps(ContentDelta(part)))];
    }
    assert parts[..i] == parts;
  }

  /** The parts a loop emits: all, or the non-empty ones when `skipEmpty` holds. */
  function Kept(parts: seq<string>, skipEmpty: bool): seq<string> {
    if skipEmpty then Filter(parts, NonEmpty) else parts
  }

  lemma KeptSnoc(parts: seq<string>, part: string, skipEmpty: bool)
    ensures Kept(parts + [part], skipEmpty)
         == if skipEmpty && part == "" then Kept(parts, skipEmpty) else Kept(parts, skipEmpty) + [part]
  {
    FilterConcat(parts, [part], NonEmpty);
    FilterCons(part, [], NonEmpty);
    assert Kept(parts, skipEmpty) + [] == Kept(parts, skipEmpty);
  }

  lemma EmitStep(frames: seq<string>, out: seq<string>, done: seq<string>, part: string, dumps: Event -> string)
    requires out == frames + FramesOf(ContentDeltas(done), dumps)
    ensures out + [Frame(dumps(ContentDelta(part)))] == frames + FramesOf(ContentDeltas(done + [part]), dumps)
  {
    FramesOfConcat(ContentDeltas(done), [ContentDelta(part)], dumps);
    assert ContentDeltas(done + [part]) == ContentDeltas(done) + [ContentDelta(part)];
  }

  lemma FramesOfConcat(a: seq<Event>, b: seq<Event>, dumps: Event -> string)
    ensures FramesOf(a + b, dumps) == FramesOf(a, dumps) + FramesOf(b, dumps)
  {
  }

  lemma ContentDeltasConcat(a: seq<string>, b: seq<string>)
    ensures ContentDeltas(a + b) == ContentDeltas(a) + ContentDeltas(b)
  {
  }

  /** `event_stream`, with preparation, the model's stream and JSON encoding given. */
  method EventStream(p: Preparation, s: StreamSettings, hasChat: bool, run: UpstreamRun, dumps: Event -> string)
    returns (frames: seq<string>)
    ensures frames == StreamFrames(p, s, hasChat, run, dumps)
  {
    frames := [Frame(dumps(RoleDelta))];
    if !p.Ready? {
      frames := EmitDeltas(frames, ChunkText(PrepareErrorText(p), 80), false, dumps);
    } else {
      assert FramesOf(PrepareErrorEvents(p), dumps) == [];
    }
    ghost var head := [Frame(dumps(RoleDelta))] + FramesOf(PrepareErrorEvents(p), dumps);
    assert frames == head;
    frames := EmitBody(frames, p, s, hasChat, run, dumps);
    ghost var body := FramesOf(BodyEvents(p, s, hasChat, run), dumps);
    var last := [Frame(dumps(StopChunk)), Frame(dumps(SourcesEvent(SourcesOfRun(p)))), DoneFrame];
    frames := frames + last;
    StreamFramesSplit(p, s, hasChat, run, dumps);
    assert frames == head + body + last;
  }

  /** The part of `event_stream` after the preparation: the fallback text, or the
      model's parts followed by the sources tail or the error text. */
  method EmitBody(before: seq<string>, p: Preparation, s: StreamSettings, hasChat: bool, run: UpstreamRun,
                  dumps: Event -> string) returns (frames: seq<string>)
    ensures frames == before + FramesOf(BodyEvents(p, s, hasChat, run), dumps)
  {
    var tail := SourcesTail(SourcesOfRun(p), s);
    if Fallback(p, hasChat) {
      frames := EmitDeltas(before, ChunkText(FallbackText(p, s, hasChat), 60), false, dumps);
    } else {
      frames := EmitDeltas(before, run.parts, true, dumps);
      if run.failure.None? {
        if tail != "" {
          frames := frames + [Frame(dumps(ContentDelta(tail)))];
        }
      } else {
        frames := EmitDeltas(frames, ChunkText(UpstreamFailedPrefix + run.failure.value, 80), false, dumps);
      }
    }
    BodyFrames(p, s, hasChat, run, dumps, before, frames);
  }

  lemma BodyFrames(p: Preparation, s: StreamSettings, hasChat: bool, run: UpstreamRun, dumps: Event -> string,
                   before: seq<string>, frames: seq<string>)
    requires !Fallback(p, hasChat) ==>
      frames == before + FramesOf(ContentDeltas(Filter(run.parts, NonEmpty)), dumps)
        + FramesOf(AfterUpstream(run, SourcesTail(SourcesOfRun(p), s)), dumps)
    requires Fallback(p, hasChat) ==>
      frames == before + FramesOf(ContentDeltas(ChunkText(FallbackText(p, s, hasChat), 60)), dumps)
    ensures frames == before + FramesOf(BodyEvents(p, s, hasChat, run), dumps)
  {
    if !Fallback(p, hasChat) {
      FramesOfConcat(ContentDeltas(Filter(run.parts, NonEmpty)), AfterUpstream(run, SourcesTail(SourcesOfRun(p), s)), dumps);
    }
  }

  lemma StreamFramesSplit(p: Preparation, s: StreamSettings, hasChat: bool, run: UpstreamRun, dumps: Event -> string)
    ensures StreamFrames(p, s, hasChat, run, dumps)
      == [Frame(dumps(RoleDelta))] + FramesOf(PrepareErrorEvents(p), dumps) + FramesOf(BodyEvents(p, s, hasChat, run), dumps)
         + [Frame(dumps(StopChunk)), Frame(dumps(SourcesEvent(SourcesOfRun(p)))), DoneFrame]
  {
    var a, b, c := [RoleDelta], PrepareErrorEvents(p), BodyEvents(p, s, hasChat, run);
    var d := [StopChunk, SourcesEvent(SourcesOfRun(p))];
    assert StreamEvents(p, s, hasChat, run) == a + b + c + d;
    FramesOfConcat(a + b + c, d, dumps);
    FramesOfConcat(a + b, c, dumps);
    FramesOfConcat(a, b, dumps);
    var fa, fb, fc, fd := FramesOf(a, dumps), FramesOf(b, dumps), FramesOf(c, dumps), FramesOf(d, dumps);
    assert fa == [Frame(dumps(RoleDelta))];
    assert fd + [DoneFrame] == [Frame(dumps(StopChunk)), Frame(dumps(SourcesEvent(SourcesOfRun(p)))), DoneFrame];
    assert StreamFrames(p, s, hasChat, run, dumps) == fa + fb + fc + (fd + [DoneFrame]);
  }

  // ---------------------------------------------------------------------------
  // Properties of the stream

  /** Every frame is `data: <payload>` followed by a blank line. */
  lemma StreamFramesAreEvents(p: Preparation, s: StreamSettings, hasChat: bool, run: UpstreamRun, dumps: Event -> string)
    ensures forall i :: 0 <= i < |StreamFrames(p, s, hasChat, run, dumps)| ==>
      var f := StreamFrames(p, s, hasChat, run, dumps)[i];
      |f| >= 8 && f[..6] == "data: " && f[|f| - 2..] == "\n\n"
  {
    FramesAreEvents(StreamEvents(p, s, hasChat, run), dumps);
  }

  lemma FramesAreEvents(e: seq<Event>, dumps: Event -> string)
    ensures forall i :: 0 <= i < |FramesOf(e, dumps) + [DoneFrame]| ==>
      var f := (FramesOf(e, dumps) + [DoneFrame])[i];
      |f| >= 8 && f[..6] == "data: " && f[|f| - 2..] == "\n\n"
  {
  }

  /** The role delta comes first; the stop chunk, the sources event and `[DONE]`
      close the stream, in that order; everything between is answer content. */
  lemma StreamOrder(p: Preparation, s: StreamSettings, hasChat: bool, run: UpstreamRun)
    ensures var e := StreamEvents(p, s, hasChat, run);
      && |e| >= 3
      && e[0] == RoleDelta
      && e[|e| - 2] == StopChunk
      && e[|e| - 1] == SourcesEvent(SourcesOfRun(p))
      && (forall i :: 0 < i < |e| - 2 ==> e[i].ContentDelta?)
  {
    BodyIsContent(p, s, hasChat, run);
    FramedOrder(PrepareErrorEvents(p), BodyEvents(p, s, hasChat, run), SourcesOfRun(p));
  }

  predicate AllContent(e: seq<Event>) {
    forall i :: 0 <= i < |e| ==> e[i].ContentDelta?
  }

  lemma BodyIsContent(p: Preparation, s: StreamSettings, hasChat: bool, run: UpstreamRun)
    ensures AllContent(PrepareErrorEvents(p)) && AllContent(BodyEvents(p, s, hasChat, run))
  {
    if !Fallback(p, hasChat) {
      var a := ContentDeltas(Filter(run.parts, NonEmpty));
      var b := AfterUpstream(run, SourcesTail(SourcesOfRun(p), s));
      assert AllContent(a) && AllContent(b);
      assert AllContent(a + b);
    }
  }

  lemma FramedOrder(pre: seq<Event>, body: seq<Event>, sources: seq<Source>)
    requires AllContent(pre) && AllContent(body)
    ensures var e := [RoleDelta] + pre + body + [StopChunk, SourcesEvent(sources)];
      && e[0] == RoleDelta
      && e[|e| - 2] == StopChunk
      && e[|e| - 1] == SourcesEvent(sources)
      && (forall i :: 0 < i < |e| - 2 ==> e[i].ContentDelta?)
  {
    var e := [RoleDelta] + pre + body + [StopChunk, SourcesEvent(sources)];
    forall i | 0 < i < |e| - 2 ensures e[i].ContentDelta? {
      if i <= |pre| {
        assert e[i] == pre[i - 1];
      } else {
        assert e[i] == body[i - 1 - |pre|];
      }
    }
  }

  lemma StreamFramesOrder(p: Preparation, s: StreamSettings, hasChat: bool, run: UpstreamRun, dumps: Event -> string)
    ensures var f := StreamFrames(p, s, hasChat, run, dumps);
      && |f| >= 4
      && f[0] == Frame(dumps(RoleDelta))
      && f[|f| - 3] == Frame(dumps(StopChunk))
      && f[|f| - 2] == Frame(dumps(SourcesEvent(SourcesOfRun(p))))
      && f[|f| - 1] == DoneFrame
  {
    StreamOrder(p, s, hasChat, run);
    FramesEnds(StreamEvents(p, s, hasChat, run), dumps, SourcesOfRun(p));
  }

  lemma FramesEnds(e: seq<Event>, dumps: Event -> string, sources: seq<Source>)
    requires |e| >= 3 && e[0] == RoleDelta && e[|e| - 2] == StopChunk && e[|e| - 1] == SourcesEvent(sources)
    ensures var f := FramesOf(e, dumps) + [DoneFrame];
      && |f| >= 4
      && f[0] == Frame(dumps(RoleDelta))
      && f[|f| - 3] == Frame(dumps(StopChunk))
      && f[|f| - 2] == Frame(dumps(SourcesEvent(sources)))
      && f[|f| - 1] == DoneFrame
  {
  }

  /** The answer text a client assembles from the content deltas. */
  function ContentText(events: seq<Event>): string
    decreases |events|
  {
    if events == [] then ""
    else
      var last := events[|events| - 1];
      ContentText(events[..|events| - 1]) + (if last.ContentDelta? then last.text else "")
  }

  lemma {:induction false} ContentTextConcat(a: seq<Event>, b: seq<Event>)
    ensures ContentText(a + b) == ContentText(a) + ContentText(b)
    decreases |b|
  {
    if b == [] {
      assert a + b == a;
    } else {
      assert (a + b)[..|a + b| - 1] == a + b[..|b| - 1];
      ContentTextConcat(a, b[..|b| - 1]);
    }
  }

  lemma {:induction false} ContentTextOfDeltas(parts: seq<string>)
    ensures ContentText(ContentDeltas(parts)) == Flatten(parts)
    decreases |parts|
  {
    if parts != [] {
      var init := parts[..|parts| - 1];
      assert ContentDeltas(parts)[..|parts| - 1] == ContentDeltas(init);
      ContentTextOfDeltas(init);
    }
  }

  lemma {:induction false} FlattenNonEmpty(parts: seq<string>)
    ensures Flatten(Filter(parts, NonEmpty)) == Flatten(parts)
    decreases |parts|
  {
    if parts != [] {
      var init := parts[..|parts| - 1];
      var last := parts[|parts| - 1];
      assert parts == init + [last];
      FilterConcat(init, [last], NonEmpty);
      FilterCons(last, [], NonEmpty);
      FlattenNonEmpty(init);
      if last != "" {
        FlattenSnoc(Filter(init, NonEmpty), last);
      } else {
        assert Filter(parts, NonEmpty) == Filter(init, NonEmpty);
      }
    }
  }

  /** The text the model is asked for, as the client sees it: the upstream parts in
      order, then the sources tail after a clean finish, or the error text after an
      exception. */
  function UpstreamText(run: UpstreamRun, tail: string): string {
    Flatten(run.parts)
      + (if run.failure.Some? then UpstreamFailedPrefix + run.failure.value else tail)
  }

  /** No text is lost or reordered by the chunking: the content a client assembles is
      the preparation error (if any), then the fallback text or the model's text. */
  lemma StreamContent(p: Preparation, s: StreamSettings, hasChat: bool, run: UpstreamRun)
    ensures ContentText(StreamEvents(p, s, hasChat, run))
      == PrepareErrorText(p)
         + (if Fallback(p, hasChat) then FallbackText(p, s, hasChat)
            else UpstreamText(run, SourcesTail(SourcesOfRun(p), s)))
  {
    FramedContent(PrepareErrorEvents(p), BodyEvents(p, s, hasChat, run), SourcesOfRun(p));
    PrepareContent(p);
    if Fallback(p, hasChat) {
      DeltasContent(FallbackText(p, s, hasChat), 60);
    } else {
      UpstreamContent(run, SourcesTail(SourcesOfRun(p), s));
    }
  }

  lemma FramedContent(pre: seq<Event>, body: seq<Event>, sources: seq<Source>)
    ensures ContentText([RoleDelta] + pre + body + [StopChunk, SourcesEvent(sources)])
      == ContentText(pre) + ContentText(body)
  {
    var close := [StopChunk, SourcesEvent(sources)];
    ContentTextConcat([RoleDelta] + pre + body, close);
    ContentTextConcat([RoleDelta] + pre, body);
    ContentTextConcat([RoleDelta], pre);
    assert ContentText([RoleDelta]) == "";
    assert ContentText(close) == "" by {
      assert close[..1] == [StopChunk];
      assert ContentText([StopChunk]) == "";
    }
  }

  lemma DeltasContent(text: string, size: int)
    ensures ContentText(ContentDeltas(ChunkText(text, size))) == text
  {
    ContentTextOfDeltas(ChunkText(text, size));
    ChunkTextConcat(text, size);
  }

  lemma PrepareContent(p: Preparation)
    ensures ContentText(PrepareErrorEvents(p)) == PrepareErrorText(p)
  {
    if !p.Ready? {
      DeltasContent(PrepareErrorText(p), 80);
    }
  }

  lemma UpstreamContent(run: UpstreamRun, tail: string)
    ensures ContentText(ContentDeltas(Filter(run.parts, NonEmpty)) + AfterUpstream(run, tail))
      == UpstreamText(run, tail)
  {
    ContentTextConcat(ContentDeltas(Filter(run.parts, NonEmpty)), AfterUpstream(run, tail));
    ContentTextOfDeltas(Filter(run.parts, NonEmpty));
    FlattenNonEmpty(run.parts);
    if run.failure.Some? {
      DeltasContent(UpstreamFailedPrefix + run.failure.value, 80);
    } else if tail != "" {
      assert ContentText([ContentDelta(tail)]) == ContentText([]) + tail;
    }
  }

  /** In inline mode the stream's sources tail is the reference tail appended to
      non-streamed answers. */
  lemma InlineTailIsReferencesTail(sources: seq<Source>)
    requires sources != []
    ensures StreamSourcesTail(sources, true) == ReferencesTail(sources, true)
  {
  }
}
