/** `EmbeddingsFactory.create_provider`: only OpenAI embeddings are available. */
module EmbeddingsFactory {
  import opened Wrappers
  import opened Text
  import opened Config

  datatype EmbeddingsKind = OpenAIEmbeddings

  datatype EmbeddingsProvider = EmbeddingsProvider(kind: EmbeddingsKind, config: EmbeddingConfig)

  function CreateProvider(config: EmbeddingConfig): (r: Result<EmbeddingsProvider>)
    ensures r.Ok? <==> Lower(config.provider) == "openai"
    ensures r.Ok? ==> r.value == EmbeddingsProvider(OpenAIEmbeddings, config)
    ensures r.Err? ==> r.error == ValueError("Unknown embeddings provider: " + Lower(config.provider))
  {
    var provider := Lower(config.provider);
    if provider == "openai" then Ok(EmbeddingsProvider(OpenAIEmbeddings, config))
    else Err(ValueError("Unknown embeddings provider: " + provider))
  }

  /** The casing of the provider name does not matter: the same class is chosen, or the same error raised. */
  lemma CaseInsensitive(config: EmbeddingConfig, other: string)
    requires Lower(other) == Lower(config.provider)
    ensures var r, r' := CreateProvider(config), CreateProvider(config.(provider := other));
            r'.Ok? == r.Ok? && (r.Ok? ==> r'.value.kind == r.value.kind) && (r.Err? ==> r'.error == r.error)
  {
  }
}
