/** config.py: the two settings that carry JSON, the chat model map and the
    model pricing table. `json.loads` is a parameter; a decoded object is its
    entries in document order, duplicate keys already resolved the way
    `json.loads` does. */
module Config {
  import opened Wrappers
  import opened Text
  import opened JsonValues

  /** What `json.loads` gave at the top level. */
  datatype Loaded = Object(entries: seq<(string, Json)>) | NonObject

  /** A setting method's result, or the RuntimeError it raises. */
  datatype Parsed<T> = Parsed(value: T) | Raised(message: string)

  const ModelMapInvalid := "CHAT_MODEL_MAP_JSON \U{4E0D}\U{662F}\U{5408}\U{6CD5} JSON"
  const ModelMapNotObject := "CHAT_MODEL_MAP_JSON \U{9700}\U{8981}\U{662F} JSON \U{5BF9}\U{8C61}\U{FF08}dict\U{FF09}"
  const PricingInvalid := "MODEL_PRICING_JSON \U{4E0D}\U{662F}\U{5408}\U{6CD5} JSON"
  const PricingNotObject := "MODEL_PRICING_JSON \U{9700}\U{8981}\U{662F} JSON \U{5BF9}\U{8C61}\U{FF08}dict\U{FF09}"

  /** Both methods keep an entry under its stripped key when the key is not
      blank and the value converts; a later entry with the same stripped key
      overwrites an earlier one. */
  function Collect<V>(entries: seq<(string, Json)>, convert: Json -> Option<V>): map<string, V> {
    if entries == [] then map[]
    else
      var m := Collect(entries[..|entries| - 1], convert);
      var e := entries[|entries| - 1];
      if Strip(e.0) == "" || convert(e.1).None? then m else m[Strip(e.0) := convert(e.1).value]
  }

  /** The entry at index i is kept and names key k. */
  predicate KeptAs<V>(entries: seq<(string, Json)>, convert: Json -> Option<V>, i: int, k: string) {
    0 <= i < |entries| && Strip(entries[i].0) != "" && convert(entries[i].1).Some? && Strip(entries[i].0) == k
  }

  /** A key is present exactly when some kept entry names it; such a key is
      stripped and non-blank. */
  lemma {:induction false} CollectKeys<V>(entries: seq<(string, Json)>, convert: Json -> Option<V>, k: string)
    ensures k in Collect(entries, convert) <==> exists i :: KeptAs(entries, convert, i, k)
    ensures k in Collect(entries, convert) ==> IsStripped(k) && k != ""
    decreases |entries|
  {
    if entries != [] {
      var init := entries[..|entries| - 1];
      var n := |entries| - 1;
      CollectKeys(init, convert, k);
      KeptPrefix(entries, convert, k);
      CollectStep(entries, convert, k);
      if KeptAs(entries, convert, n, k) {
        StripSpec(entries[n].0);
        assert KeptAs(entries, convert, n, k);
      } else {
        forall i | KeptAs(entries, convert, i, k)
          ensures KeptAs(init, convert, i, k)
        {
        }
        forall i | KeptAs(init, convert, i, k)
          ensures KeptAs(entries, convert, i, k)
        {
        }
        assert (exists i :: KeptAs(entries, convert, i, k)) <==> (exists i :: KeptAs(init, convert, i, k));
      }
    }
  }

  lemma CollectStep<V>(entries: seq<(string, Json)>, convert: Json -> Option<V>, k: string)
    requires entries != []
    ensures k in Collect(entries, convert) <==>
      k in Collect(entries[..|entries| - 1], convert) || KeptAs(entries, convert, |entries| - 1, k)
  {
  }

  lemma KeptPrefix<V>(entries: seq<(string, Json)>, convert: Json -> Option<V>, k: string)
    requires entries != []
    ensures forall i :: 0 <= i < |entries| - 1 ==>
      KeptAs(entries[..|entries| - 1], convert, i, k) == KeptAs(entries, convert, i, k)
  {
  }

  /** A present key holds the value of the last kept entry naming it. */
  lemma {:induction false} CollectLastWins<V>(entries: seq<(string, Json)>, convert: Json -> Option<V>, k: string)
    requires k in Collect(entries, convert)
    ensures exists i :: (KeptAs(entries, convert, i, k) && Collect(entries, convert)[k] == convert(entries[i].1).value
      && forall j :: i < j < |entries| ==> !KeptAs(entries, convert, j, k))
    decreases |entries|
  {
    var init := entries[..|entries| - 1];
    var n := |entries| - 1;
    if KeptAs(entries, convert, n, k) {
      LastValue(entries, convert, k);
      assert KeptAs(entries, convert, n, k) && Collect(entries, convert)[k] == convert(entries[n].1).value;
    } else {
      CollectStep(entries, convert, k);
      OtherValue(entries, convert, k);
      CollectLastWins(init, convert, k);
      var i :| KeptAs(init, convert, i, k) && Collect(init, convert)[k] == convert(init[i].1).value
        && forall j :: i < j < |init| ==> !KeptAs(init, convert, j, k);
      KeptPrefix(entries, convert, k);
      assert KeptAs(entries, convert, i, k);
      assert forall j :: i < j < |entries| ==> !KeptAs(entries, convert, j, k);
    }
  }

  lemma LastValue<V>(entries: seq<(string, Json)>, convert: Json -> Option<V>, k: string)
    requires KeptAs(entries, convert, |entries| - 1, k)
    ensures k in Collect(entries, convert) && Collect(entries, convert)[k] == convert(entries[|entries| - 1].1).value
  {
  }

  lemma OtherValue<V>(entries: seq<(string, Json)>, convert: Json -> Option<V>, k: string)
    requires entries != [] && !KeptAs(entries, convert, |entries| - 1, k)
    requires k in Collect(entries, convert)
    ensures k in Collect(entries[..|entries| - 1], convert)
    ensures Collect(entries, convert)[k] == Collect(entries[..|entries| - 1], convert)[k]
  {
  }

  /** A model-map value: a string that is not blank, stripped. */
  function ModelName(v: Json): Option<string> {
    if v.JStr? && Strip(v.s) != "" then Some(Strip(v.s)) else None
  }

  /** `Settings.chat_model_map` from the raw setting. */
  function ChatModelMapOf(raw: Option<string>, loads: string -> Option<Loaded>): Parsed<map<string, string>> {
    if raw.None? || raw.value == "" then Parsed(map[])
    else
      match loads(raw.value)
      case None => Raised(ModelMapInvalid)
      case Some(NonObject) => Raised(ModelMapNotObject)
      case Some(Object(entries)) => Parsed(Collect(entries, ModelName))
  }

  /** An unset or empty setting is an empty map; text that is not JSON, or
      JSON that is not an object, raises; otherwise every key and every value
      of the map is stripped and non-blank and comes from a string entry. */
  lemma ChatModelMapSpec(raw: Option<string>, loads: string -> Option<Loaded>)
    ensures raw.None? || raw == Some("") ==> ChatModelMapOf(raw, loads) == Parsed(map[])
    ensures raw.Some? && raw.value != "" && loads(raw.value).None? ==> ChatModelMapOf(raw, loads) == Raised(ModelMapInvalid)
    ensures raw.Some? && raw.value != "" && loads(raw.value) == Some(NonObject) ==>
      ChatModelMapOf(raw, loads) == Raised(ModelMapNotObject)
    ensures ChatModelMapOf(raw, loads).Parsed? ==> forall k :: k in ChatModelMapOf(raw, loads).value ==>
      k != "" && IsStripped(k) && ChatModelMapOf(raw, loads).value[k] != "" && IsStripped(ChatModelMapOf(raw, loads).value[k])
  {
    if raw.Some? && raw.value != "" && loads(raw.value).Some? && loads(raw.value).value.Object? {
      var entries := loads(raw.value).value.entries;
      forall k | k in Collect(entries, ModelName)
        ensures k != "" && IsStripped(k) && Collect(entries, ModelName)[k] != "" && IsStripped(Collect(entries, ModelName)[k])
      {
        ModelMapEntry(entries, k);
      }
    }
  }

  lemma ModelMapEntry(entries: seq<(string, Json)>, k: string)
    requires k in Collect(entries, ModelName)
    ensures k != "" && IsStripped(k) && Collect(entries, ModelName)[k] != "" && IsStripped(Collect(entries, ModelName)[k])
  {
    CollectKeys(entries, ModelName, k);
    CollectLastWins(entries, ModelName, k);
    var i :| KeptAs(entries, ModelName, i, k) && Collect(entries, ModelName)[k] == ModelName(entries[i].1).value;
    StripSpec(entries[i].1.s);
  }

  /** Keys that only differ in surrounding whitespace collide, and the later
      entry wins. */
  lemma ModelMapLaterWins(a: string, b: string, x: string, y: string)
    requires Strip(a) == Strip(b) && Strip(a) != "" && Strip(x) != "" && Strip(y) != ""
    ensures Collect([(a, JStr(x)), (b, JStr(y))], ModelName) == map[Strip(b) := Strip(y)]
  {
    var es := [(a, JStr(x)), (b, JStr(y))];
    assert es[..1] == [(a, JStr(x))];
    assert es[..1][..0] == [];
    assert Collect(es[..1], ModelName) == map[Strip(a) := Strip(x)];
    assert Collect(es, ModelName) == map[Strip(a) := Strip(x)][Strip(b) := Strip(y)];
  }

  /** The loop of `Settings.chat_model_map`. */
  method ChatModelMap(raw: Option<string>, loads: string -> Option<Loaded>) returns (r: Parsed<map<string, string>>)
    ensures r == ChatModelMapOf(raw, loads)
  {
    if raw.None? || raw.value == "" {
      return Parsed(map[]);
    }
    var data := loads(raw.value);
    if data.None? {
      return Raised(ModelMapInvalid);
    }
    if data.value.NonObject? {
      return Raised(ModelMapNotObject);
    }
    var entries := data.value.entries;
    var result: map<string, string> := map[];
    for i := 0 to |entries|
      invariant result == Collect(entries[..i], ModelName)
    {
      assert entries[..i + 1][..i] == entries[..i];
      var (k, v) := entries[i];
      if !v.JStr? {
        continue;
      }
      if Strip(k) == "" || Strip(v.s) == "" {
        continue;
      }
      result := result[Strip(k) := Strip(v.s)];
    }
    assert entries[..|entries|] == entries;
    return Parsed(result);
  }

  /** One model's prices, in US dollars per thousand tokens. */
  datatype Price = Price(promptUsdPer1k: real, completionUsdPer1k: real)

  /** `float(x)` for an x with `isinstance(x, (int, float))`; a JSON boolean
      passes that test, since bool is a subclass of int. */
  function NumberOf(v: Json): Option<real> {
    match v
    case JInt(i) => Some(i as real)
    case JReal(r) => Some(r)
    case JBool(b) => Some(if b then 1.0 else 0.0)
    case _ => None
  }

  /** A pricing value: an object whose two prices are numbers. */
  function PriceOf(v: Json): Option<Price> {
    if !v.JObj? then None
    else
      var prompt := NumberOf(Get(v.fields, "prompt_usd_per_1k"));
      var completion := NumberOf(Get(v.fields, "completion_usd_per_1k"));
      if prompt.None? || completion.None? then None else Some(Price(prompt.value, completion.value))
  }

  /** `Settings.model_pricing` from the raw setting. */
  function ModelPricingOf(raw: Option<string>, loads: string -> Option<Loaded>): Parsed<map<string, Price>> {
    if raw.None? || raw.value == "" then Parsed(map[])
    else
      match loads(raw.value)
      case None => Raised(PricingInvalid)
      case Some(NonObject) => Raised(PricingNotObject)
      case Some(Object(entries)) => Parsed(Collect(entries, PriceOf))
  }

  /** An unset or empty setting is an empty table and malformed JSON raises;
      an entry is kept exactly when its key is not blank and its value is an
      object with two numeric prices, and the prices are those numbers. */
  lemma ModelPricingSpec(raw: Option<string>, loads: string -> Option<Loaded>, k: string)
    ensures raw.None? || raw == Some("") ==> ModelPricingOf(raw, loads) == Parsed(map[])
    ensures raw.Some? && raw.value != "" && loads(raw.value).None? ==> ModelPricingOf(raw, loads) == Raised(PricingInvalid)
    ensures raw.Some? && raw.value != "" && loads(raw.value) == Some(NonObject) ==>
      ModelPricingOf(raw, loads) == Raised(PricingNotObject)
    ensures raw.Some? && raw.value != "" && loads(raw.value).Some? && loads(raw.value).value.Object? ==>
      var entries := loads(raw.value).value.entries;
      (k in ModelPricingOf(raw, loads).value <==>
        exists i :: 0 <= i < |entries| && Strip(entries[i].0) == k && k != "" && entries[i].1.JObj?
          && NumberOf(Get(entries[i].1.fields, "prompt_usd_per_1k")).Some?
          && NumberOf(Get(entries[i].1.fields, "completion_usd_per_1k")).Some?)
  {
    if raw.Some? && raw.value != "" && loads(raw.value).Some? && loads(raw.value).value.Object? {
      var entries := loads(raw.value).value.entries;
      CollectKeys(entries, PriceOf, k);
      forall i | 0 <= i < |entries|
        ensures KeptAs(entries, PriceOf, i, k) <==>
          Strip(entries[i].0) == k && k != "" && entries[i].1.JObj?
          && NumberOf(Get(entries[i].1.fields, "prompt_usd_per_1k")).Some?
          && NumberOf(Get(entries[i].1.fields, "completion_usd_per_1k")).Some?
      {
      }
    }
  }

  /** A boolean price is read as 1.0 or 0.0 rather than rejected. */
  lemma BooleanPricesAccepted(name: string)
    requires Strip(name) != ""
    ensures var v := JObj(map["prompt_usd_per_1k" := JBool(true), "completion_usd_per_1k" := JBool(false)]);
      Collect([(name, v)], PriceOf) == map[Strip(name) := Price(1.0, 0.0)]
  {
    assert [(name, JObj(map["prompt_usd_per_1k" := JBool(true), "completion_usd_per_1k" := JBool(false)]))][..0] == [];
  }

  /** The loop of `Settings.model_pricing`. */
  method ModelPricing(raw: Option<string>, loads: string -> Option<Loaded>) returns (r: Parsed<map<string, Price>>)
    ensures r == ModelPricingOf(raw, loads)
  {
    if raw.None? || raw.value == "" {
      return Parsed(map[]);
    }
    var data := loads(raw.value);
    if data.None? {
      return Raised(PricingInvalid);
    }
    if data.value.NonObject? {
      return Raised(PricingNotObject);
    }
    var entries := data.value.entries;
    var result: map<string, Price> := map[];
    for i := 0 to |entries|
      invariant result == Collect(entries[..i], PriceOf)
    {
      assert entries[..i + 1][..i] == entries[..i];
      var (k, v) := entries[i];
      if Strip(k) == "" {
        continue;
      }
      if !v.JObj? {
        continue;
      }
      var prompt := NumberOf(Get(v.fields, "prompt_usd_per_1k"));
      var completion := NumberOf(Get(v.fields, "completion_usd_per_1k"));
      if prompt.None? || completion.None? {
        continue;
      }
      result := result[Strip(k) := Price(prompt.value, completion.value)];
    }
    assert entries[..|entries|] == entries;
    return Parsed(result);
  }
}
