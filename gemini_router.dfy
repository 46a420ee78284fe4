/** The decision logic of the Gemini HTTP router: the admin configuration
    update, the user-facing configuration, the model-list transformation,
    the live-model list and the guards of the key endpoints. Network calls
    are replaced by their results, passed in as arguments. */
module GeminiRouter {
  import opened Wrappers
  import opened Strings

  /** An endpoint's outcome: a payload, or an `HTTPException` with its status code. */
  datatype HttpResult<T> = Ok(value: T) | HttpError(code: int)

  /** The Gemini settings: the three mutable values `GEMINI_API_KEYS`,
      `GEMINI_LIVE_ENABLED`, `GEMINI_LIVE_VOICE` and the two fixed lists
      `GEMINI_LIVE_VOICES`, `GEMINI_LIVE_MODELS`. */
  datatype Settings = Settings(
    apiKeys: seq<string>,
    liveEnabled: bool,
    liveVoice: string,
    liveVoices: seq<string>,
    liveModels: seq<string>)

  /** Python's `bool(keys and keys[0])`: a non-empty list whose first key is non-empty. */
  predicate HasUsableKey(keys: seq<string>) {
    |keys| > 0 && keys[0] != ""
  }

  // ---------------------------------------------------------------------
  // Configuration
  // ---------------------------------------------------------------------

  /** The body of a `/config/update` request. */
  datatype ConfigForm = ConfigForm(apiKeys: seq<string>, liveEnabled: bool, liveVoice: string)

  /** The answer of a successful `/config/update`. */
  datatype ConfigEcho = ConfigEcho(status: string, apiKeys: seq<string>, liveEnabled: bool, liveVoice: string)

  /** The process-wide Gemini configuration, whose values the admin endpoint overwrites. */
  class GeminiConfig {
    var apiKeys: seq<string>
    var liveEnabled: bool
    var liveVoice: string
    const liveVoices: seq<string>
    const liveModels: seq<string>

    constructor (apiKeys: seq<string>, liveEnabled: bool, liveVoice: string,
                 liveVoices: seq<string>, liveModels: seq<string>)
      ensures Snapshot() == Settings(apiKeys, liveEnabled, liveVoice, liveVoices, liveModels)
    {
      this.apiKeys := apiKeys;
      this.liveEnabled := liveEnabled;
      this.liveVoice := liveVoice;
      this.liveVoices := liveVoices;
      this.liveModels := liveModels;
    }

    /** The current values, as the read-only endpoints see them. */
    function Snapshot(): Settings
      reads this
    {
      Settings(apiKeys, liveEnabled, liveVoice, liveVoices, liveModels)
    }

    /** `update_gemini_config`: an unknown voice is refused with 400 before any value
        is written; otherwise the three values are overwritten in turn and echoed. */
    method UpdateConfig(form: ConfigForm) returns (r: HttpResult<ConfigEcho>)
      modifies this
      ensures form.liveVoice !in liveVoices ==> r == HttpError(400) && Snapshot() == old(Snapshot())
      ensures form.liveVoice in liveVoices ==>
        && Snapshot() == old(Snapshot()).(apiKeys := form.apiKeys, liveEnabled := form.liveEnabled,
                                          liveVoice := form.liveVoice)
        && r == Ok(ConfigEcho("ok", form.apiKeys, form.liveEnabled, form.liveVoice))
      // a voice from the list, once configured, stays configured
      ensures old(liveVoice in liveVoices) ==> liveVoice in liveVoices
      ensures r.Ok? ==> liveVoice in liveVoices
    {
      if form.liveVoice !in liveVoices {
        return HttpError(400);
      }
      apiKeys := form.apiKeys;
      liveEnabled := form.liveEnabled;
      liveVoice := form.liveVoice;
      r := Ok(ConfigEcho("ok", apiKeys, liveEnabled, liveVoice));
    }
  }

  /** What `/config/user` reports to any signed-in user. */
  datatype UserConfig = UserConfig(enabled: bool, liveVoice: string, liveVoices: seq<string>, liveModels: seq<string>)

  /** `get_gemini_user_config`. */
  function GetUserConfig(c: Settings): (r: UserConfig)
    ensures r.enabled <==> |c.apiKeys| > 0 && c.apiKeys[0] != "" && c.liveEnabled
    ensures r.liveVoice == c.liveVoice && r.liveVoices == c.liveVoices && r.liveModels == c.liveModels
  {
    UserConfig(HasUsableKey(c.apiKeys) && c.liveEnabled, c.liveVoice, c.liveVoices, c.liveModels)
  }

  // ---------------------------------------------------------------------
  // Key endpoints
  // ---------------------------------------------------------------------

  /** The answer of `/api-key`. */
  datatype LiveKey = LiveKey(apiKey: string, voice: string)

  /** `get_gemini_api_key_for_live`: 403 when live is off (checked first), 400 without a key. */
  function GetApiKeyForLive(c: Settings): (r: HttpResult<LiveKey>)
    ensures r == HttpError(403) <==> !c.liveEnabled
    ensures r == HttpError(400) <==> c.liveEnabled && !HasUsableKey(c.apiKeys)
    ensures r.Ok? <==> c.liveEnabled && HasUsableKey(c.apiKeys)
    ensures r.Ok? ==> r.value.apiKey == c.apiKeys[0] && r.value.apiKey != "" && r.value.voice == c.liveVoice
  {
    if !c.liveEnabled then HttpError(403)
    else if !HasUsableKey(c.apiKeys) then HttpError(400)
    else Ok(LiveKey(c.apiKeys[0], c.liveVoice))
  }

  /** `verify_gemini_connection`: `keyAccepted` is what the provider answered for the first key. */
  function VerifyConnection(c: Settings, keyAccepted: bool): (r: HttpResult<string>)
    ensures r == HttpError(400) <==> !HasUsableKey(c.apiKeys)
    ensures r == HttpError(401) <==> HasUsableKey(c.apiKeys) && !keyAccepted
    ensures r.Ok? <==> HasUsableKey(c.apiKeys) && keyAccepted
  {
    if !HasUsableKey(c.apiKeys) then HttpError(400)
    else if keyAccepted then Ok("Gemini API connection verified")
    else HttpError(401)
  }

  // ---------------------------------------------------------------------
  // Model list
  // ---------------------------------------------------------------------

  /** One entry of the provider's model list; an absent key is None. */
  datatype RawModel = RawModel(
    name: Option<string>,
    displayName: Option<string>,
    description: Option<string>,
    inputTokenLimit: Option<int>,
    outputTokenLimit: Option<int>,
    supportedGenerationMethods: Option<seq<string>>)

  /** One entry of the `/models` answer. */
  datatype ModelInfo = ModelInfo(
    id: string,
    name: string,
    description: string,
    inputTokenLimit: int,
    outputTokenLimit: int,
    supportsLive: bool)

  /** `model.get("name", "").replace("models/", "")`. */
  function ModelId(m: RawModel): string {
    RemoveAll(m.name.GetOr(""), "models/")
  }

  /** A provider name `models/<rest>` becomes `<rest>` when `<rest>` holds no further "models/". */
  lemma ModelIdStripsPrefix(m: RawModel, rest: string)
    requires m.name == Some("models/" + rest)
    requires !Contains(rest, "models/")
    ensures ModelId(m) == rest
  {
    RemoveAllPrefix("models/", rest);
    RemoveAllAbsent(rest, "models/");
  }

  /** Some configured live model id is a substring of the model id. */
  predicate SupportsLive(liveModels: seq<string>, modelId: string) {
    exists j :: 0 <= j < |liveModels| && Contains(modelId, liveModels[j])
  }

  /** The filter of the loop: content generation is supported or live is. */
  predicate Keep(liveModels: seq<string>, m: RawModel) {
    "generateContent" in m.supportedGenerationMethods.GetOr([]) || SupportsLive(liveModels, ModelId(m))
  }

  /** The entry built for a kept model, with the defaults of its missing keys. */
  function ToInfo(liveModels: seq<string>, m: RawModel): ModelInfo {
    var id := ModelId(m);
    ModelInfo(id, m.displayName.GetOr(id), m.description.GetOr(""),
              m.inputTokenLimit.GetOr(0), m.outputTokenLimit.GetOr(0), SupportsLive(liveModels, id))
  }

  /** The entries for `raw`, as the loop builds them, one raw model at a time. */
  function KeptModels(liveModels: seq<string>, raw: seq<RawModel>): seq<ModelInfo> {
    if raw == [] then []
    else
      var last := raw[|raw| - 1];
      KeptModels(liveModels, raw[..|raw| - 1]) + (if Keep(liveModels, last) then [ToInfo(liveModels, last)] else [])
  }

  /** The positions of the kept raw models, in increasing order. */
  function KeptIndices(liveModels: seq<string>, raw: seq<RawModel>): seq<nat> {
    if raw == [] then []
    else
      var n := |raw| - 1;
      KeptIndices(liveModels, raw[..n]) + (if Keep(liveModels, raw[n]) then [n] else [])
  }

  /** The output is the kept raw models, transformed, in input order and no others. */
  lemma {:induction false} KeptModelsSpec(liveModels: seq<string>, raw: seq<RawModel>)
    ensures var r := KeptModels(liveModels, raw);
      var idx := KeptIndices(liveModels, raw);
      && |r| == |idx| <= |raw|
      && (forall k :: 0 <= k < |idx| ==> idx[k] < |raw| && r[k] == ToInfo(liveModels, raw[idx[k]]))
      && (forall k, l :: 0 <= k < l < |idx| ==> idx[k] < idx[l])
      && (forall i :: 0 <= i < |raw| ==> (i in idx <==> Keep(liveModels, raw[i])))
  {
    if raw != [] {
      var n := |raw| - 1;
      var prefix := raw[..n];
      KeptModelsSpec(liveModels, prefix);
      assert forall i :: 0 <= i < n ==> prefix[i] == raw[i];
      var rp, ip := KeptModels(liveModels, prefix), KeptIndices(liveModels, prefix);
      if Keep(liveModels, raw[n]) {
        assert KeptModels(liveModels, raw) == rp + [ToInfo(liveModels, raw[n])];
        assert KeptIndices(liveModels, raw) == ip + [n];
      } else {
        assert KeptModels(liveModels, raw) == rp;
        assert KeptIndices(liveModels, raw) == ip;
      }
    }
  }

  /** `get_gemini_models`: `raw` is what the provider listed for the first key. */
  method GetModels(c: Settings, raw: seq<RawModel>) returns (models: seq<ModelInfo>)
    ensures !HasUsableKey(c.apiKeys) ==> models == []
    ensures HasUsableKey(c.apiKeys) ==> models == KeptModels(c.liveModels, raw)
  {
    if !HasUsableKey(c.apiKeys) {
      return [];
    }
    models := [];
    var i := 0;
    while i < |raw|
      invariant 0 <= i <= |raw|
      invariant models == KeptModels(c.liveModels, raw[..i])
    {
      var m := raw[i];
      var modelId := RemoveAll(m.name.GetOr(""), "models/");
      var supportsLive := exists j :: 0 <= j < |c.liveModels| && Contains(modelId, c.liveModels[j]);
      var methods := m.supportedGenerationMethods.GetOr([]);
      assert raw[..i + 1][..i] == raw[..i];
      if "generateContent" !in methods && !supportsLive {
        i := i + 1;
        continue;
      }
      models := models + [ModelInfo(modelId, m.displayName.GetOr(modelId), m.description.GetOr(""),
                                    m.inputTokenLimit.GetOr(0), m.outputTokenLimit.GetOr(0), supportsLive)];
      i := i + 1;
    }
    assert raw[..|raw|] == raw;
  }

  /** One entry of the `/models/live` answer. */
  datatype LiveModelInfo = LiveModelInfo(id: string, name: string, supportsLive: bool)

  /** The `/models/live` answer; `voice` and `voices` are present only when enabled. */
  datatype LiveModels = LiveModels(
    models: seq<LiveModelInfo>,
    enabled: bool,
    voice: Option<string>,
    voices: Option<seq<string>>)

  /** `get_gemini_live_models`. `titleCase` stands for Python's `str.title()`. */
  function GetLiveModels(c: Settings, titleCase: string -> string): (r: LiveModels)
    ensures r.enabled <==> c.liveEnabled && HasUsableKey(c.apiKeys)
    ensures !r.enabled ==> r.models == [] && r.voice == None && r.voices == None
    ensures r.enabled ==> r.voice == Some(c.liveVoice) && r.voices == Some(c.liveVoices)
    ensures r.enabled ==> |r.models| == |c.liveModels|
    ensures r.enabled ==> forall i :: 0 <= i < |r.models| ==>
      && r.models[i].id == c.liveModels[i]
      && r.models[i].name == titleCase(ReplaceChar(c.liveModels[i], '-', ' '))
      && r.models[i].supportsLive
  {
    if !c.liveEnabled || !HasUsableKey(c.apiKeys) then LiveModels([], false, None, None)
    else
      var entries := seq(|c.liveModels|, i requires 0 <= i < |c.liveModels| =>
        LiveModelInfo(c.liveModels[i], titleCase(ReplaceChar(c.liveModels[i], '-', ' ')), true));
      LiveModels(entries, true, Some(c.liveVoice), Some(c.liveVoices))
  }

  // ---------------------------------------------------------------------
  // Agreement between the endpoints
  // ---------------------------------------------------------------------

  /** The user view is enabled exactly when the key endpoint hands out a key and
      exactly when the live-model list is enabled. */
  lemma EnabledAgrees(c: Settings, titleCase: string -> string)
    ensures GetUserConfig(c).enabled <==> GetApiKeyForLive(c).Ok?
    ensures GetUserConfig(c).enabled <==> GetLiveModels(c, titleCase).enabled
  {
  }
}
