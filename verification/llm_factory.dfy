/** `LLMFactory.create_provider`: the provider class chosen by the configured provider name. */
module LlmFactory {
  import opened Wrappers
  import opened Text
  import opened Config

  datatype ProviderKind = OpenAI | Groq | TogetherAI | SambaNova | Gemini

  /** A provider instance: its class and the configuration it was built with. */
  datatype Provider = Provider(kind: ProviderKind, config: LlmConfig)

  /** The accepted names, already lower-case, and the class each selects. */
  const Known: map<string, ProviderKind> := map[
    "openai" := OpenAI,
    "groq" := Groq,
    "together ai" := TogetherAI,
    "samba nova" := SambaNova,
    "google" := Gemini
  ]

  function CreateProvider(config: LlmConfig): (r: Result<Provider>)
    ensures r.Ok? ==> r.value.config == config
  {
    var provider := Lower(config.provider);
    if provider == "openai" then Ok(Provider(OpenAI, config))
    else if provider == "groq" then Ok(Provider(Groq, config))
    else if provider == "together ai" then Ok(Provider(TogetherAI, config))
    else if provider == "samba nova" then Ok(Provider(SambaNova, config))
    else if provider == "google" then Ok(Provider(Gemini, config))
    else Err(ValueError("Unknown LLM provider: " + provider))
  }

  /**
   * Exactly the five names are accepted, in any casing, each selecting its own class; any
   * other name is reported lower-cased.
   */
  lemma CreateProviderDispatch(config: LlmConfig)
    ensures var p := Lower(config.provider);
            (CreateProvider(config).Ok? <==> p in Known)
            && (p in Known ==> CreateProvider(config) == Ok(Provider(Known[p], config)))
            && (p !in Known ==> CreateProvider(config) == Err(ValueError("Unknown LLM provider: " + p)))
  {
  }

  /** The casing of the provider name does not matter: the same class is chosen, or the same error raised. */
  lemma CaseInsensitive(config: LlmConfig, other: string)
    requires Lower(other) == Lower(config.provider)
    ensures var r, r' := CreateProvider(config), CreateProvider(config.(provider := other));
            r'.Ok? == r.Ok? && (r.Ok? ==> r'.value.kind == r.value.kind) && (r.Err? ==> r'.error == r.error)
  {
  }

  /** Different accepted names select different classes. */
  lemma KindsDistinct(a: string, b: string)
    requires a in Known && b in Known && a != b
    ensures Known[a] != Known[b]
  {
  }
}
