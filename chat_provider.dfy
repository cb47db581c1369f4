/** rag/chat_provider.py: the helpers around the chat model. The LangChain
    model itself, its invocation and its stream are parameters: a reply or a
    streamed chunk is the set of attributes the helpers read from it. */
module ChatProvider {
  import opened Wrappers
  import opened Text
  import opened Lists
  import opened JsonValues
  import Crawler

  // ---------------------------------------------------------------------
  // _extract_chunk_text and the streams

  /** One streamed chunk; None is an attribute the object does not have. */
  datatype StreamChunk = StreamChunk(text: Option<Json>, content: Option<Json>, contentBlocks: Option<Json>)

  /** A non-empty string attribute. */
  predicate NonEmptyStr(v: Option<Json>) {
    v.Some? && v.value.JStr? && v.value.s != ""
  }

  /** The text of one content block: a dict of type "text" with a non-empty
      string under "text". */
  function BlockText(b: Json): Option<string> {
    if b.JObj? && Get(b.fields, "type") == JStr("text") && Get(b.fields, "text").JStr? && Get(b.fields, "text").s != ""
    then Some(Get(b.fields, "text").s)
    else None
  }

  /** The texts of the text blocks, in order. */
  function BlockTexts(blocks: seq<Json>): seq<string> {
    if blocks == [] then []
    else
      var init := BlockTexts(blocks[..|blocks| - 1]);
      match BlockText(blocks[|blocks| - 1])
      case Some(t) => init + [t]
      case None => init
  }

  /** The value `_extract_chunk_text` returns. */
  function ChunkText(c: StreamChunk): string {
    if NonEmptyStr(c.text) then c.text.value.s
    else if NonEmptyStr(c.content) then c.content.value.s
    else if c.contentBlocks.Some? && c.contentBlocks.value.JArr? && BlockTexts(c.contentBlocks.value.items) != []
    then Flatten(BlockTexts(c.contentBlocks.value.items))
    else ""
  }

  lemma {:induction false} BlockTextsNonEmpty(blocks: seq<Json>)
    ensures forall i :: 0 <= i < |BlockTexts(blocks)| ==> BlockTexts(blocks)[i] != ""
    decreases |blocks|
  {
    if blocks != [] {
      BlockTextsNonEmpty(blocks[..|blocks| - 1]);
    }
  }

  lemma {:induction false} FlattenEmpty(parts: seq<string>)
    requires parts != [] && forall i :: 0 <= i < |parts| ==> parts[i] != ""
    ensures Flatten(parts) != ""
    decreases |parts|
  {
    FlattenSnoc(parts[..|parts| - 1], parts[|parts| - 1]);
    assert parts[..|parts| - 1] + [parts[|parts| - 1]] == parts;
  }

  /** The chunk text is the `text` attribute when that is a non-empty
      string, else the `content` attribute when that is, else the joined text
      blocks; it is empty exactly when the chunk has none of the three. */
  lemma ChunkTextSpec(c: StreamChunk)
    ensures NonEmptyStr(c.text) ==> ChunkText(c) == c.text.value.s
    ensures !NonEmptyStr(c.text) && NonEmptyStr(c.content) ==> ChunkText(c) == c.content.value.s
    ensures ChunkText(c) == "" <==>
      !NonEmptyStr(c.text) && !NonEmptyStr(c.content)
      && !(c.contentBlocks.Some? && c.contentBlocks.value.JArr? && BlockTexts(c.contentBlocks.value.items) != [])
  {
    if c.contentBlocks.Some? && c.contentBlocks.value.JArr? && BlockTexts(c.contentBlocks.value.items) != [] {
      BlockTextsNonEmpty(c.contentBlocks.value.items);
      FlattenEmpty(BlockTexts(c.contentBlocks.value.items));
    }
  }

  /** `_extract_chunk_text`, with its loop over the content blocks. */
  method ExtractChunkText(c: StreamChunk) returns (r: string)
    ensures r == ChunkText(c)
  {
    if NonEmptyStr(c.text) {
      return c.text.value.s;
    }
    if NonEmptyStr(c.content) {
      return c.content.value.s;
    }
    if c.contentBlocks.Some? && c.contentBlocks.value.JArr? {
      var blocks := c.contentBlocks.value.items;
      var parts: seq<string> := [];
      for k := 0 to |blocks|
        invariant parts == BlockTexts(blocks[..k])
      {
        assert blocks[..k + 1][..k] == blocks[..k];
        var b := blocks[k];
        if !b.JObj? || Get(b.fields, "type") != JStr("text") {
          continue;
        }
        var t := Get(b.fields, "text");
        if t.JStr? && t.s != "" {
          parts := parts + [t.s];
        }
      }
      assert blocks[..|blocks|] == blocks;
      if parts != [] {
        return Flatten(parts);
      }
    }
    return "";
  }

  /** What `LangChainInitChatProvider.stream` yields for a chunk sequence. */
  function LangChainStream(chunks: seq<StreamChunk>): seq<string> {
    if chunks == [] then []
    else
      var init := LangChainStream(chunks[..|chunks| - 1]);
      var t := ChunkText(chunks[|chunks| - 1]);
      if t != "" then init + [t] else init
  }

  /** The texts of all chunks, empty ones included. */
  function AllTexts(chunks: seq<StreamChunk>): (r: seq<string>)
    ensures |r| == |chunks| && forall i :: 0 <= i < |chunks| ==> r[i] == ChunkText(chunks[i])
  {
    seq(|chunks|, i requires 0 <= i < |chunks| => ChunkText(chunks[i]))
  }

  /** The stream never yields an empty string, and what it yields joins to
      the text of all chunks. */
  lemma {:induction false} LangChainStreamSpec(chunks: seq<StreamChunk>)
    ensures forall i :: 0 <= i < |LangChainStream(chunks)| ==> LangChainStream(chunks)[i] != ""
    ensures Flatten(LangChainStream(chunks)) == Flatten(AllTexts(chunks))
    ensures |LangChainStream(chunks)| <= |chunks|
    decreases |chunks|
  {
    if chunks != [] {
      var init := chunks[..|chunks| - 1];
      var t := ChunkText(chunks[|chunks| - 1]);
      LangChainStreamSpec(init);
      assert AllTexts(chunks) == AllTexts(init) + [t];
      FlattenSnoc(AllTexts(init), t);
      if t != "" {
        FlattenSnoc(LangChainStream(init), t);
      }
    }
  }

  /** The `async for` loop of `LangChainInitChatProvider.stream`. */
  method StreamTexts(chunks: seq<StreamChunk>) returns (out: seq<string>)
    ensures out == LangChainStream(chunks)
  {
    out := [];
    for k := 0 to |chunks|
      invariant out == LangChainStream(chunks[..k])
    {
      assert chunks[..k + 1][..k] == chunks[..k];
      var text := ExtractChunkText(chunks[k]);
      if text != "" {
        out := out + [text];
      }
    }
    assert chunks[..|chunks|] == chunks;
  }

  /** `ChatProvider.stream`: the whole completion as a single item. */
  function DefaultStream(content: string): seq<string> {
    [content]
  }

  /** The default stream has one item, which may be empty, and that item is
      the completion's content. */
  lemma DefaultStreamSpec(content: string)
    ensures |DefaultStream(content)| == 1 && Flatten(DefaultStream(content)) == content
  {
    FlattenSnoc([], content);
  }

  // ---------------------------------------------------------------------
  // _extract_usage

  datatype Usage = Usage(promptTokens: int, completionTokens: int, totalTokens: int)

  /** What `_extract_usage` does: a usage dict, None, or an int() that raises. */
  datatype UsageOutcome = Found(usage: Usage) | NoUsage | UsageRaises

  /** `int(a or b or 0)` of two dict entries. */
  function IntOr(d: map<string, Json>, a: string, b: string): Option<int> {
    IntOf(Or(Or(Get(d, a), Get(d, b)), JInt(0)))
  }

  /** The three counts read from one dict; the total falls back to the sum. */
  function UsageFrom(d: map<string, Json>, promptKey: string, promptAlt: string,
                     completionKey: string, completionAlt: string): UsageOutcome
  {
    var p := IntOr(d, promptKey, promptAlt);
    var c := IntOr(d, completionKey, completionAlt);
    if p.None? || c.None? then UsageRaises
    else
      var t := IntOf(Or(Or(Get(d, "total_tokens"), JInt(p.value + c.value)), JInt(0)));
      if t.None? then UsageRaises else Found(Usage(p.value, c.value, t.value))
  }

  /** `_extract_usage(msg)` from the message's `usage_metadata` and
      `response_metadata` attributes (None where missing). */
  function ExtractUsage(usageMeta: Option<Json>, responseMeta: Option<Json>): UsageOutcome {
    if usageMeta.Some? && usageMeta.value.JObj? then
      UsageFrom(usageMeta.value.fields, "input_tokens", "prompt_tokens", "output_tokens", "completion_tokens")
    else if responseMeta.Some? && responseMeta.value.JObj? && Get(responseMeta.value.fields, "token_usage").JObj? then
      UsageFrom(Get(responseMeta.value.fields, "token_usage").fields, "prompt_tokens", "prompt_tokens",
                "completion_tokens", "completion_tokens")
    else NoUsage
  }

  /** A usage dict takes precedence over the response metadata; with neither
      a usage dict nor a token-usage dict there is no usage. */
  lemma ExtractUsageSources(usageMeta: Option<Json>, responseMeta: Option<Json>, other: Option<Json>)
    ensures usageMeta.Some? && usageMeta.value.JObj? ==> ExtractUsage(usageMeta, responseMeta) == ExtractUsage(usageMeta, other)
    ensures !(usageMeta.Some? && usageMeta.value.JObj?) && !(responseMeta.Some? && responseMeta.value.JObj?) ==>
      ExtractUsage(usageMeta, responseMeta) == NoUsage
  {
  }

  /** With integer counts, the prompt count is `input_tokens` unless that is
      0 or missing (then `prompt_tokens`), likewise for completions, and a
      missing or zero total is the sum of the two. */
  lemma UsageCounts(d: map<string, Json>, input: int, prompt: int, output: int, completion: int)
    requires Get(d, "input_tokens") == JInt(input) && Get(d, "prompt_tokens") == JInt(prompt)
    requires Get(d, "output_tokens") == JInt(output) && Get(d, "completion_tokens") == JInt(completion)
    requires Get(d, "total_tokens") == JNull
    ensures var p := if input != 0 then input else prompt;
      var c := if output != 0 then output else completion;
      ExtractUsage(Some(JObj(d)), None) == Found(Usage(p, c, p + c))
  {
  }

  /** A count that int() rejects makes `_extract_usage` raise. */
  lemma UsageRejectsText(d: map<string, Json>)
    requires Get(d, "input_tokens") == JStr("many")
    ensures ExtractUsage(Some(JObj(d)), None) == UsageRaises
  {
    assert Strip("many") == "many";
  }

  // ---------------------------------------------------------------------
  // complete

  /** What `ainvoke` produced: a reply's `text` and `content` attributes and
      its metadata, or an exception with its message. */
  datatype Reply = Reply(text: Option<Json>, content: Option<Json>, usageMeta: Option<Json>, responseMeta: Option<Json>)
  datatype Invocation = Replied(reply: Reply) | InvokeRaised(message: string)

  datatype ChatResult = ChatResult(content: string, usage: Option<Usage>)
  datatype Completion = Completed(result: ChatResult) | CompleteRaised(message: string) | UsageUnreadable

  /** Whether an error message looks like a rejected `response_format`. */
  predicate MaybeResponseFormatError(message: string) {
    var m := Lower(message);
    Contains(m, "response_format") || Contains(m, "json_object") || Contains(m, "json mode")
    || Contains(m, "unknown parameter") || Contains(m, "invalid parameter")
  }

  lemma LowerTwice(s: string)
    ensures Lower(Lower(s)) == Lower(s)
  {
  }

  lemma {:induction false} ContainsLower(s: string, sub: string)
    requires Contains(s, sub)
    ensures Contains(Lower(s), Lower(sub))
    decreases |s|
  {
    if !StartsWith(s, sub) {
      ContainsLower(s[1..], sub);
      assert Lower(s)[1..] == Lower(s[1..]);
    } else {
      assert Lower(s)[..|sub|] == Lower(s[..|sub|]);
    }
  }

  /** The test ignores case: a message and its lower-cased form agree, and
      a message containing "Response_Format" in any case is recognised. */
  lemma MaybeResponseFormatErrorIgnoresCase(message: string, keyword: string)
    requires Lower(keyword) == "response_format" && Contains(message, keyword)
    ensures MaybeResponseFormatError(Lower(message)) == MaybeResponseFormatError(message)
    ensures MaybeResponseFormatError(message)
  {
    LowerTwice(message);
    ContainsLower(message, keyword);
  }

  /** The content `complete` returns: a string `text` attribute (even an
      empty one), else a string `content`, else `str(content)`. */
  function ReplyContent(r: Reply, show: Json -> string): string {
    if r.text.Some? && r.text.value.JStr? then r.text.value.s
    else
      var c := if r.content.Some? then r.content.value else JStr("");
      if c.JStr? then c.s else show(c)
  }

  function Finish(r: Reply, show: Json -> string): Completion {
    match ExtractUsage(r.usageMeta, r.responseMeta)
    case UsageRaises => UsageUnreadable
    case NoUsage => Completed(ChatResult(ReplyContent(r, show), None))
    case Found(u) => Completed(ChatResult(ReplyContent(r, show), Some(u)))
  }

  /** `LangChainInitChatProvider.complete`: one retry without
      `response_format` when the first call fails in a way that looks like a
      rejected response format; any other failure propagates. */
  function Complete(responseFormat: Json, first: Invocation, retry: Invocation, show: Json -> string): Completion {
    match first
    case Replied(r) => Finish(r, show)
    case InvokeRaised(e) =>
      if !Falsy(responseFormat) && MaybeResponseFormatError(e) then
        match retry
        case Replied(r) => Finish(r, show)
        case InvokeRaised(e2) => CompleteRaised(e2)
      else CompleteRaised(e)
  }

  /** A first reply is used as is; a failure is retried only with a
      response format and a matching error, and the retry's outcome is final. */
  lemma CompleteRetry(responseFormat: Json, first: Invocation, retry: Invocation, show: Json -> string)
    ensures first.Replied? ==> Complete(responseFormat, first, retry, show) == Finish(first.reply, show)
    ensures first.InvokeRaised? && (Falsy(responseFormat) || !MaybeResponseFormatError(first.message)) ==>
      Complete(responseFormat, first, retry, show) == CompleteRaised(first.message)
    ensures first.InvokeRaised? && !Falsy(responseFormat) && MaybeResponseFormatError(first.message) ==>
      Complete(responseFormat, first, retry, show)
      == (if retry.Replied? then Finish(retry.reply, show) else CompleteRaised(retry.message))
  {
  }

  // ---------------------------------------------------------------------
  // _normalize_openai_compatible_base_url

  /** The path rule: trailing slashes go, and the root becomes "/v1". */
  function NormalizePath(path: string): string {
    var p := RStripChar(path, '/');
    if p == "" || p == "/" then "/v1" else p
  }

  /** The normalised path is never empty and never ends in '/'; it is "/v1"
      exactly for a path of slashes only, and otherwise the path without its
      trailing slashes. Normalising twice changes nothing. */
  lemma NormalizePathSpec(path: string)
    ensures var r := NormalizePath(path);
      && r != "" && r[|r| - 1] != '/'
      && ((forall i :: 0 <= i < |path| ==> path[i] == '/') <==> r == "/v1" && !StartsWith(path, "/v1"))
      && ((exists i :: 0 <= i < |path| && path[i] != '/') ==> StartsWith(path, r) && forall i :: |r| <= i < |path| ==> path[i] == '/')
      && NormalizePath(r) == r
  {
    var p := RStripChar(path, '/');
    RStripCharSpec(path, '/');
    if forall i :: 0 <= i < |path| ==> path[i] == '/' {
      assert p == "";
    } else {
      var i :| 0 <= i < |path| && path[i] != '/';
      assert i < |p|;
      assert p[..|p|] == path[..|p|];
    }
  }

  /** `_normalize_openai_compatible_base_url`: a URL that does not parse is
      returned as is; otherwise only the path changes. */
  function NormalizeBaseUrl(url: string, parse: string -> Option<Crawler.Url>, unparse: Crawler.Url -> string): string {
    match parse(url)
    case None => url
    case Some(u) => unparse(u.(path := NormalizePath(u.path)))
  }

  /** When parsing reads back what unparse wrote, normalising is idempotent
      and leaves every part but the path alone. */
  lemma NormalizeBaseUrlIdempotent(url: string, parse: string -> Option<Crawler.Url>, unparse: Crawler.Url -> string)
    requires forall u :: parse(unparse(u)) == Some(u)
    ensures var r := NormalizeBaseUrl(url, parse, unparse);
      NormalizeBaseUrl(r, parse, unparse) == r
      && (parse(url).Some? ==> parse(r) == Some(parse(url).value.(path := NormalizePath(parse(url).value.path))))
  {
    if parse(url).Some? {
      var u := parse(url).value.(path := NormalizePath(parse(url).value.path));
      assert parse(unparse(u)) == Some(u);
      NormalizePathSpec(parse(url).value.path);
    }
  }

  // ---------------------------------------------------------------------
  // build_chat_provider

  /** The settings `build_chat_provider` reads. */
  datatype ChatSettings = ChatSettings(chatProvider: string, chatApiKey: Option<string>, chatModelProvider: string,
                                       chatBaseUrl: string, chatTimeout: real, chatMaxRetries: int)

  datatype ProviderChoice =
    | NoProvider
    | LangChainInit(modelProvider: string, baseUrl: string, apiKey: string, timeout: real, maxRetries: int)
    | UnknownProvider(message: string)

  const DisabledNames: set<string> := {"none", "off", "disabled", "false", "0"}
  const LangChainNames: set<string> := {"", "langchain", "init_chat_model", "langchain_init", "openai_compatible"}
  const UnknownProviderPrefix := "\U{672A}\U{77E5} CHAT_PROVIDER: "

  function BuildChatProvider(s: ChatSettings): ProviderChoice {
    var provider := Lower(s.chatProvider);
    if provider in DisabledNames then NoProvider
    else if s.chatApiKey.None? || s.chatApiKey.value == "" then NoProvider
    else if provider in LangChainNames then
      LangChainInit(s.chatModelProvider, s.chatBaseUrl, s.chatApiKey.value, s.chatTimeout, s.chatMaxRetries)
    else UnknownProvider(UnknownProviderPrefix + s.chatProvider)
  }

  /** No provider exactly when the provider is switched off or there is no
      key; a LangChain provider, carrying the settings, exactly when there is
      a key and the name is one of its aliases in any case; otherwise the
      error names the configured provider as written. */
  lemma BuildChatProviderSpec(s: ChatSettings)
    ensures BuildChatProvider(s).NoProvider? <==>
      Lower(s.chatProvider) in DisabledNames || s.chatApiKey.None? || s.chatApiKey.value == ""
    ensures BuildChatProvider(s).LangChainInit? <==>
      Lower(s.chatProvider) !in DisabledNames && s.chatApiKey.Some? && s.chatApiKey.value != ""
      && Lower(s.chatProvider) in LangChainNames
    ensures BuildChatProvider(s).LangChainInit? ==>
      BuildChatProvider(s) == LangChainInit(s.chatModelProvider, s.chatBaseUrl, s.chatApiKey.value, s.chatTimeout, s.chatMaxRetries)
    ensures BuildChatProvider(s).UnknownProvider? ==>
      EndsWith(BuildChatProvider(s).message, s.chatProvider) && Lower(s.chatProvider) !in DisabledNames + LangChainNames
  {
  }

  /** The provider name is read without regard to case. */
  lemma BuildChatProviderIgnoresCase(s: ChatSettings)
    ensures BuildChatProvider(s.(chatProvider := Lower(s.chatProvider))).NoProvider? == BuildChatProvider(s).NoProvider?
    ensures BuildChatProvider(s.(chatProvider := Lower(s.chatProvider))).LangChainInit? == BuildChatProvider(s).LangChainInit?
  {
    LowerTwice(s.chatProvider);
  }
}
