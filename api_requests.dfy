/** api/app.py: the request logic of the chat endpoint around retrieval: the
    question taken from the messages, the knowledge-base bindings handed to the
    allocator, the feedback upsert, and the retrieval event that is recorded.
    Storage is an in-memory table; hashing and the clock are parameters. */
module ApiRequests {
  import opened Wrappers
  import opened Text
  import opened Lists
  import KbAllocation
  import RagPipeline

  // ---------------------------------------------------------------------------
  // The question

  datatype ChatMessage = ChatMessage(role: string, content: string)

  /** The position of the last message with role "user". */
  function LastUser(ms: seq<ChatMessage>): (r: Option<nat>)
    ensures r.Some? ==> r.value < |ms| && ms[r.value].role == "user"
    ensures r.Some? ==> forall j :: r.value < j < |ms| ==> ms[j].role != "user"
    ensures r.None? ==> forall j :: 0 <= j < |ms| ==> ms[j].role != "user"
    decreases |ms|
  {
    if ms == [] then None
    else if ms[|ms| - 1].role == "user" then Some(|ms| - 1)
    else LastUser(ms[..|ms| - 1])
  }

  const MissingQuestion: string := "messages \U{4E2D}\U{7F3A}\U{5C11} user \U{5185}\U{5BB9}"

  /** The content of the last user message; 400 when there is none or it is empty
      (an earlier non-empty user message does not count). */
  function Question(ms: seq<ChatMessage>): (r: Result<string>)
  {
    var last := LastUser(ms);
    if last.Some? && ms[last.value].content != "" then Ok(ms[last.value].content)
    else Err(HttpError(400, MissingQuestion))
  }

  /** The question is found exactly when the last user message is non-empty, and
      it is that message's content. */
  lemma QuestionSpec(ms: seq<ChatMessage>)
    ensures Question(ms).Ok? <==>
      exists i :: 0 <= i < |ms| && ms[i].role == "user" && ms[i].content != ""
        && (forall j :: i < j < |ms| ==> ms[j].role != "user")
    ensures Question(ms).Ok? ==>
      exists i :: (0 <= i < |ms| && ms[i].role == "user" && Question(ms).value == ms[i].content
        && (forall j :: i < j < |ms| ==> ms[j].role != "user"))
    ensures Question(ms).Err? ==> Question(ms).error.status == 400
  {
    var last := LastUser(ms);
    if Question(ms).Err? {
      forall i | 0 <= i < |ms| && ms[i].role == "user" && ms[i].content != ""
        ensures exists j :: i < j < |ms| && ms[j].role == "user"
      {
        assert last.Some?;
        assert last.value != i;
        assert last.value > i;
      }
    }
  }

  // ---------------------------------------------------------------------------
  // Bindings handed to the allocator

  /** A row of the app's enabled bindings, with the columns that may be NULL. */
  datatype BindingRow = BindingRow(kbId: Option<string>, weight: Option<real>, priority: Option<int>)

  function RowKbId(b: BindingRow): string { b.kbId.GetOr("") }
  function RowWeight(b: BindingRow): real { b.weight.GetOr(0.0) }

  /** `(b.kb_id or "").strip() and float(b.weight or 0.0) > 0.0`. */
  predicate Usable(b: BindingRow) {
    Strip(RowKbId(b)) != "" && RowWeight(b) > 0.0
  }

  function BindingOf(b: BindingRow): KbAllocation.KbBinding {
    KbAllocation.KbBinding(RowKbId(b), KbAllocation.Finite(RowWeight(b)), b.priority.GetOr(0))
  }

  const DefaultBinding: KbAllocation.KbBinding := KbAllocation.KbBinding("default", KbAllocation.Finite(1.0), 0)

  function BindingsOf(rows: seq<BindingRow>): (r: seq<KbAllocation.KbBinding>)
    ensures |r| == |rows|
  {
    seq(|rows|, i requires 0 <= i < |rows| => BindingOf(rows[i]))
  }

  /** The bindings passed to allocate_top_k: the usable rows in order, or the single
      default binding when none is usable. */
  function AppBindings(rows: seq<BindingRow>): seq<KbAllocation.KbBinding> {
    var usable := BindingsOf(Filter(rows, Usable));
    if usable == [] then [DefaultBinding] else usable
  }

  /** The allocator always receives at least one binding; it is the default one
      exactly when no row is usable, and otherwise the bindings are those of the
      usable rows, each with a non-blank id and a positive weight. */
  lemma AppBindingsSpec(rows: seq<BindingRow>)
    ensures |AppBindings(rows)| >= 1
    ensures (forall i :: 0 <= i < |rows| ==> !Usable(rows[i])) ==> AppBindings(rows) == [DefaultBinding]
    ensures (exists i :: 0 <= i < |rows| && Usable(rows[i])) ==>
      forall b :: b in AppBindings(rows) ==> exists r :: r in rows && Usable(r) && b == BindingOf(r)
    ensures forall b :: b in AppBindings(rows) ==>
      Strip(b.kbId) != "" && b.weight.Finite? && b.weight.value > 0.0
    ensures forall r :: r in rows && Usable(r) ==> BindingOf(r) in AppBindings(rows)
  {
    var kept := Filter(rows, Usable);
    KeptBindings(rows);
    if forall i :: 0 <= i < |rows| ==> !Usable(rows[i]) {
      FilterNone(rows, Usable);
    } else {
      var i :| 0 <= i < |rows| && Usable(rows[i]);
      assert BindingOf(rows[i]) in BindingsOf(kept);
    }
    assert Strip("default") == "default" by {
      StripOfStripped("default");
    }
  }

  /** The bindings of the usable rows are exactly the bindings of rows that pass,
      and each carries a non-blank id and a positive weight. */
  lemma KeptBindings(rows: seq<BindingRow>)
    ensures forall r :: r in rows && Usable(r) ==> BindingOf(r) in BindingsOf(Filter(rows, Usable))
    ensures forall b :: b in BindingsOf(Filter(rows, Usable)) ==> exists r :: r in rows && Usable(r) && b == BindingOf(r)
    ensures forall b :: b in BindingsOf(Filter(rows, Usable)) ==>
      Strip(b.kbId) != "" && b.weight.Finite? && b.weight.value > 0.0
  {
    var kept := Filter(rows, Usable);
    forall r | r in rows && Usable(r) ensures BindingOf(r) in BindingsOf(kept) {
      FilterMembers(rows, Usable, r);
      var k :| 0 <= k < |kept| && kept[k] == r;
      assert BindingsOf(kept)[k] == BindingOf(r);
    }
    forall b | b in BindingsOf(kept) ensures Strip(b.kbId) != "" && b.weight.Finite? && b.weight.value > 0.0 {
      var k :| 0 <= k < |kept| && BindingsOf(kept)[k] == b;
      FilterMembers(rows, Usable, kept[k]);
      assert kept[k] in kept;
      assert Usable(kept[k]);
    }
    forall b | b in BindingsOf(kept) ensures exists r :: r in rows && Usable(r) && b == BindingOf(r) {
      var k :| 0 <= k < |kept| && BindingsOf(kept)[k] == b;
      FilterMembers(rows, Usable, kept[k]);
      assert kept[k] in kept;
    }
  }

  // ---------------------------------------------------------------------------
  // Feedback: one record per (conversation, message), later writes win

  datatype FeedbackRequest = FeedbackRequest(
    conversationId: string, messageId: string, rating: string,
    reason: Option<string>, comment: Option<string>, sources: Option<seq<string>>)

  datatype FeedbackRow = FeedbackRow(
    workspaceId: string, appId: string, conversationId: string, messageId: string,
    rating: string, reason: string, comment: string, sourceUrls: seq<string>, createdAt: int)

  /** The app and workspace of the retrieval event the message came from. */
  datatype EventOrigin = EventOrigin(workspaceId: string, appId: string)

  predicate SameKey(row: FeedbackRow, req: FeedbackRequest) {
    row.conversationId == req.conversationId && row.messageId == req.messageId
  }

  /** The record a request writes: workspace "default" and no app without an event;
      missing reason, comment and sources become empty. */
  function RecordOf(req: FeedbackRequest, origin: Option<EventOrigin>, now: int): (r: FeedbackRow)
    ensures SameKey(r, req)
  {
    FeedbackRow(
      if origin.Some? then origin.value.workspaceId else "default",
      if origin.Some? then origin.value.appId else "",
      req.conversationId, req.messageId, req.rating,
      req.reason.GetOr(""), req.comment.GetOr(""), req.sources.GetOr([]), now)
  }

  /** At most one record per key. */
  ghost predicate UniqueKeys(rows: seq<FeedbackRow>) {
    forall i, j :: 0 <= i < j < |rows| ==>
      !(rows[i].conversationId == rows[j].conversationId && rows[i].messageId == rows[j].messageId)
  }

  /** The table after a submission: the record with the same key rewritten in place,
      or a new record appended. */
  function Upsert(rows: seq<FeedbackRow>, req: FeedbackRequest, origin: Option<EventOrigin>, now: int): seq<FeedbackRow> {
    var at := KeyIndex(rows, req);
    if at.Some? then rows[at.value := RecordOf(req, origin, now)] else rows + [RecordOf(req, origin, now)]
  }

  function KeyIndex(rows: seq<FeedbackRow>, req: FeedbackRequest): (r: Option<nat>)
    ensures r.Some? ==> r.value < |rows| && SameKey(rows[r.value], req)
    ensures r.None? ==> forall i :: 0 <= i < |rows| ==> !SameKey(rows[i], req)
    decreases |rows|
  {
    if rows == [] then None
    else if SameKey(rows[|rows| - 1], req) then Some(|rows| - 1)
    else KeyIndex(rows[..|rows| - 1], req)
  }

  /** After a submission the key has exactly one record, carrying the request's
      rating, reason, comment and sources; every other record is unchanged, and no
      record is lost. */
  lemma UpsertSpec(rows: seq<FeedbackRow>, req: FeedbackRequest, origin: Option<EventOrigin>, now: int)
    requires UniqueKeys(rows)
    ensures var r := Upsert(rows, req, origin, now);
      && UniqueKeys(r)
      && (exists i :: 0 <= i < |r| && r[i] == RecordOf(req, origin, now))
      && (forall i :: 0 <= i < |r| && SameKey(r[i], req) ==> r[i] == RecordOf(req, origin, now))
      && (forall x :: x in rows && !SameKey(x, req) ==> x in r)
      && (forall x :: x in r && !SameKey(x, req) ==> x in rows)
      && |r| == |rows| + (if KeyIndex(rows, req).Some? then 0 else 1)
  {
    var r := Upsert(rows, req, origin, now);
    var rec := RecordOf(req, origin, now);
    var at := KeyIndex(rows, req);
    if at.Some? {
      var k := at.value;
      assert r[k] == rec;
      forall i | 0 <= i < |rows| && i != k ensures !SameKey(rows[i], req) {
      }
      forall x | x in rows && !SameKey(x, req) ensures x in r {
        var i :| 0 <= i < |rows| && rows[i] == x;
        assert r[i] == x;
      }
      forall x | x in r && !SameKey(x, req) ensures x in rows {
        var i :| 0 <= i < |r| && r[i] == x;
        assert rows[i] == x;
      }
    } else {
      assert r[|rows|] == rec;
      forall x | x in r && !SameKey(x, req) ensures x in rows {
        var i :| 0 <= i < |r| && r[i] == x;
        assert i < |rows|;
      }
    }
  }

  lemma UpsertKeepsUnique(rows: seq<FeedbackRow>, req: FeedbackRequest, origin: Option<EventOrigin>, now: int)
    requires UniqueKeys(rows)
    ensures UniqueKeys(Upsert(rows, req, origin, now))
  {
    UpsertSpec(rows, req, origin, now);
  }

  /** The feedback table, as the endpoint sees it. */
  class FeedbackTable {
    var rows: seq<FeedbackRow>

    ghost predicate Valid()
      reads this
    {
      UniqueKeys(rows)
    }

    constructor ()
      ensures Valid() && rows == []
    {
      rows := [];
    }

    /** `feedback`: looks the key up, then updates that record or inserts one. */
    method Submit(req: FeedbackRequest, origin: Option<EventOrigin>, now: int)
      requires Valid()
      modifies this
      ensures Valid()
      ensures rows == Upsert(old(rows), req, origin, now)
    {
      UpsertKeepsUnique(rows, req, origin, now);
      var i := |rows|;
      while i > 0 && !SameKey(rows[i - 1], req)
        invariant 0 <= i <= |rows|
        invariant KeyIndex(rows, req) == KeyIndex(rows[..i], req)
        decreases i
      {
        assert rows[..i - 1] == rows[..i][..i - 1];
        i := i - 1;
      }
      var rec := RecordOf(req, origin, now);
      if i > 0 {
        assert KeyIndex(rows, req) == Some(i - 1);
        rows := rows[i - 1 := rec];
      } else {
        assert KeyIndex(rows, req) == None by {
          assert rows[..0] == [];
        }
        rows := rows + [rec];
      }
    }
  }

  // ---------------------------------------------------------------------------
  // _save_retrieval_event

  /** What the request's metadata holds (string values, absent keys missing). */
  type Metadata = map<string, string>

  /** One entry of meta's kb_allocations list: its kb_id (None when missing)
      and the rest of the entry. */
  datatype Allocation<V> = Allocation(kbId: Option<string>, rest: V)

  /** The part of prepare_rag's meta dict the event reads: the other keys,
      the kb_allocations list (empty when missing) and the retrieval query. */
  datatype EventMeta<V> = EventMeta(
    fields: map<string, V>, kbAllocations: seq<Allocation<V>>, retrievalQuery: Option<string>)

  /** A value of the event's retrieval record: a meta value copied as is, or
      the kb_allocations list. */
  datatype RetrievalValue<V> = Copied(value: V) | Allocations(list: seq<Allocation<V>>)

  const AllocationsKey: string := "kb_allocations"

  datatype SourceItem = SourceItem(ref: Option<int>, url: string, title: string, sectionPath: string)

  datatype RetrievalEvent<V> = RetrievalEvent(
    workspaceId: string, appId: string, kbIds: seq<string>, requestId: string,
    conversationId: string, messageId: string,
    questionSha256: string, questionLen: nat, retrievalQuerySha256: string, retrievalQueryLen: nat,
    retrieval: map<string, RetrievalValue<V>>, items: seq<SourceItem>, error: string, createdAt: int)

  /** The meta keys copied into the event's retrieval record, in order. */
  const RetrievalKeys: seq<string> := [
    "retrieved", "chunk_ids", "scores", "top_chunk_ids", "top_scores", "top_scores_pre_rerank",
    "used_compaction", "rerank_used", "requested_model", "upstream_chat_model",
    "chat_model_provider", "chat_base_url", "embeddings_provider", "rerank_provider", "retrieval_mode"]

  function Lookup(m: Metadata, k: string): string { if k in m then m[k] else "" }

  predicate NonBlank(s: string) { Strip(s) != "" }

  predicate HasUrl(s: RagPipeline.Source) { Strip(s.url) != "" }

  function ItemOf(s: RagPipeline.Source): SourceItem { SourceItem(s.ref, s.url, s.title, s.sectionPath) }

  function Items(sources: seq<RagPipeline.Source>): (r: seq<SourceItem>)
    ensures |r| == |sources|
  {
    seq(|sources|, i requires 0 <= i < |sources| => ItemOf(sources[i]))
  }

  /** str(a.get("kb_id") or "") of each allocation. */
  function AllocIds<V>(allocs: seq<Allocation<V>>): (r: seq<string>)
    ensures |r| == |allocs|
  {
    seq(|allocs|, i requires 0 <= i < |allocs| => allocs[i].kbId.GetOr(""))
  }

  /** The `for k in [...]: if meta and k in meta` loop. */
  method CopyRetrievalKeys<V>(meta: map<string, V>) returns (retrieval: map<string, V>)
    ensures retrieval == map k | k in meta && k in RetrievalKeys :: meta[k]
  {
    retrieval := map[];
    var i := 0;
    while i < |RetrievalKeys|
      invariant 0 <= i <= |RetrievalKeys|
      invariant retrieval == map k | k in meta && k in RetrievalKeys[..i] :: meta[k]
      decreases |RetrievalKeys| - i
    {
      var k := RetrievalKeys[i];
      assert RetrievalKeys[..i + 1] == RetrievalKeys[..i] + [k];
      CopyStep(meta, RetrievalKeys[..i], k);
      if k in meta {
        retrieval := retrieval[k := meta[k]];
      }
      i := i + 1;
    }
    assert RetrievalKeys[..i] == RetrievalKeys;
  }

  /** Copying one more key extends the copy by that key when it is present. */
  lemma CopyStep<V>(meta: map<string, V>, pre: seq<string>, k: string)
    ensures (map j | j in meta && j in pre + [k] :: meta[j])
         == if k in meta then (map j | j in meta && j in pre :: meta[j])[k := meta[k]]
            else map j | j in meta && j in pre :: meta[j]
  {
    var before := map j | j in meta && j in pre :: meta[j];
    var after := map j | j in meta && j in pre + [k] :: meta[j];
    assert forall j :: j in pre + [k] <==> j in pre || j == k;
    if k in meta {
      assert after.Keys == before.Keys + {k};
    } else {
      assert after.Keys == before.Keys;
    }
  }

  /** The event written for one request; nothing when events are disabled. */
  function RetrievalEventOf<V>(enabled: bool, workspaceId: string, appId: string, requestId: string,
                               question: string, meta: Option<EventMeta<V>>, sources: seq<RagPipeline.Source>,
                               reqMetadata: Metadata, error: string, sha256: string -> string, now: int)
    : (r: Option<RetrievalEvent<V>>)
  {
    if !enabled then None
    else
      var m := Lookup(reqMetadata, "message_id");
      var rq := if meta.Some? then meta.value.retrievalQuery.GetOr("") else "";
      var fields := if meta.Some? then meta.value.fields else map[];
      var allocs := if meta.Some? then meta.value.kbAllocations else [];
      Some(RetrievalEvent(
        if workspaceId != "" then workspaceId else "default", appId,
        Filter(AllocIds(allocs), NonBlank), requestId,
        Lookup(reqMetadata, "conversation_id"), if m != "" then m else requestId,
        sha256(question), |question|, if rq != "" then sha256(rq) else "", |rq|,
        (map k | k in fields && k in RetrievalKeys :: Copied(fields[k]))[AllocationsKey := Allocations(allocs)],
        Items(Filter(sources, HasUrl)), error, now))
  }

  /** Disabled events write nothing; the message id falls back to the request id;
      the knowledge-base ids are exactly the non-blank kb_id values of the
      allocations; only sources with a non-blank url are kept; the retrieval
      record holds the listed meta keys present, copied, and always the
      allocation list (empty without meta). */
  lemma RetrievalEventSpec<V>(enabled: bool, workspaceId: string, appId: string, requestId: string,
                              question: string, meta: Option<EventMeta<V>>, sources: seq<RagPipeline.Source>,
                              reqMetadata: Metadata, error: string, sha256: string -> string, now: int)
    ensures var r := RetrievalEventOf(enabled, workspaceId, appId, requestId, question, meta, sources,
                                      reqMetadata, error, sha256, now);
      && (r.None? <==> !enabled)
      && (r.Some? ==>
        && (r.value.messageId == requestId <==> Lookup(reqMetadata, "message_id") in {"", requestId})
        && (forall id :: id in r.value.kbIds <==>
              NonBlank(id) && meta.Some? && exists a :: a in meta.value.kbAllocations && a.kbId.GetOr("") == id)
        && (forall s :: s in sources && HasUrl(s) ==> ItemOf(s) in r.value.items)
        && (forall it :: it in r.value.items ==> exists s :: s in sources && HasUrl(s) && it == ItemOf(s))
        && AllocationsKey in r.value.retrieval
        && r.value.retrieval[AllocationsKey] == Allocations(if meta.Some? then meta.value.kbAllocations else [])
        && (forall k :: k != AllocationsKey ==>
              (k in r.value.retrieval <==> k in RetrievalKeys && meta.Some? && k in meta.value.fields))
        && (forall k :: k != AllocationsKey && k in r.value.retrieval ==> r.value.retrieval[k] == Copied(meta.value.fields[k])))
  {
    if enabled && meta.Some? {
      var allocs := meta.value.kbAllocations;
      var ids := AllocIds(allocs);
      forall id ensures id in Filter(ids, NonBlank) <==> id in ids && NonBlank(id) {
        FilterMembers(ids, NonBlank, id);
      }
      forall id ensures id in ids <==> exists a :: a in allocs && a.kbId.GetOr("") == id {
        if id in ids {
          var i :| 0 <= i < |ids| && ids[i] == id;
          assert allocs[i] in allocs;
        }
        if exists a :: a in allocs && a.kbId.GetOr("") == id {
          var a :| a in allocs && a.kbId.GetOr("") == id;
          var i :| 0 <= i < |allocs| && allocs[i] == a;
          assert ids[i] == id;
        }
      }
    }
    if enabled && meta.None? {
      assert AllocIds<V>([]) == [];
    }
    if enabled {
      var kept := Filter(sources, HasUrl);
      forall s ensures s in kept <==> s in sources && HasUrl(s) {
        FilterMembers(sources, HasUrl, s);
      }
      forall it | it in Items(kept) ensures exists s :: s in sources && HasUrl(s) && it == ItemOf(s) {
        var k :| 0 <= k < |kept| && Items(kept)[k] == it;
        assert kept[k] in kept;
      }
      forall s | s in sources && HasUrl(s) ensures ItemOf(s) in Items(kept) {
        assert s in kept;
        var k :| 0 <= k < |kept| && kept[k] == s;
        assert Items(kept)[k] == ItemOf(s);
      }
    }
  }
}
