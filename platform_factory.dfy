/** The platform factory of the chat application: from the configured
    language-model options it picks the single active entry and builds a
    chat client or an embedding generator for that entry's platform, or
    raises the exception the factory raises. Clients are described by what
    they are built from, not constructed. */
module Platforms {
  import opened Common

  /** `PlatformType`: an enumeration backed by `int`, so a configuration
      can carry any value, named or not. */
  type PlatformType = int

  const Ollama: PlatformType := 1
  const GitHub: PlatformType := 2
  const OpenAI: PlatformType := 3
  const Azure: PlatformType := 4

  /** One configured platform entry. */
  datatype PlatformOptions = PlatformOptions(
    name: PlatformType,
    apiKey: Option<string>,
    url: string,
    model: string,
    isActive: bool)

  /** The entries for chat models and for text (embedding) models. */
  datatype LangModelOptions = LangModelOptions(chatModel: seq<PlatformOptions>, textModel: seq<PlatformOptions>)

  datatype ClientKind = OllamaApiClient | OpenAIClient

  /** A client as built: which library client, its endpoint, model and key,
      and whether the function-invocation middleware is added. */
  datatype Client = Client(kind: ClientKind, endpoint: string, model: string, apiKey: Option<string>, functionInvocation: bool)

  /** The exceptions the factory raises. */
  datatype FactoryError =
    | NoActivePlatform                        // InvalidOperationException thrown by the factory
    | MoreThanOneActive                       // InvalidOperationException thrown by SingleOrDefault
    | NotImplemented(platform: PlatformType)  // NotImplementedException
    | UnsupportedPlatform(name: PlatformType) // ArgumentOutOfRangeException
    | MissingApiKey                           // ArgumentNullException from the key credential

  /** The active entries, in configuration order. */
  function Actives(entries: seq<PlatformOptions>): seq<PlatformOptions>
    decreases |entries|
  {
    if entries == [] then []
    else (if entries[0].isActive then [entries[0]] else []) + Actives(entries[1..])
  }

  /** `SingleOrDefault(p => p.IsActive) ?? throw`: the one active entry. */
  function SingleActive(entries: seq<PlatformOptions>): Result<PlatformOptions, FactoryError>
  {
    var actives := Actives(entries);
    if |actives| == 0 then Failure(NoActivePlatform)
    else if |actives| > 1 then Failure(MoreThanOneActive)
    else Success(actives[0])
  }

  /** The `switch` on the selected entry's platform, shared by both
      factory methods; only a chat client gets function invocation. */
  function ClientFor(p: PlatformOptions, forChat: bool): (r: Result<Client, FactoryError>)
    ensures r.Success? <==> p.name == Ollama || (p.name == GitHub && p.apiKey.Some?)
    ensures r.Success? ==> r.value.endpoint == p.url && r.value.model == p.model
    ensures r.Success? ==> (r.value.kind == OllamaApiClient <==> p.name == Ollama)
    ensures r.Success? ==> (r.value.functionInvocation <==> forChat && p.name == GitHub)
    ensures r.Success? && p.name == GitHub ==> r.value.apiKey == p.apiKey
    ensures p.name == GitHub && p.apiKey.None? ==> r == Failure(MissingApiKey)
    ensures p.name == OpenAI || p.name == Azure ==> r == Failure(NotImplemented(p.name))
    ensures !(Ollama <= p.name <= Azure) ==> r == Failure(UnsupportedPlatform(p.name))
  {
    if p.name == Ollama then Success(Client(OllamaApiClient, p.url, p.model, None, false))
    else if p.name == GitHub then
      match p.apiKey
      case None => Failure(MissingApiKey)
      case Some(key) => Success(Client(OpenAIClient, p.url, p.model, Some(key), forChat))
    else if p.name == OpenAI || p.name == Azure then Failure(NotImplemented(p.name))
    else Failure(UnsupportedPlatform(p.name))
  }

  /** `GetChatClient`: from the chat-model entries. */
  function GetChatClient(options: LangModelOptions): Result<Client, FactoryError>
  {
    match SingleActive(options.chatModel)
    case Failure(e) => Failure(e)
    case Success(p) => ClientFor(p, true)
  }

  /** `GetEmbeddingGenerator`: from the text-model entries. */
  function GetEmbeddingGenerator(options: LangModelOptions): Result<Client, FactoryError>
  {
    match SingleActive(options.textModel)
    case Failure(e) => Failure(e)
    case Success(p) => ClientFor(p, false)
  }

  // ---------------------------------------------------------------------
  // Selection

  lemma {:induction false} ActivesAreActive(entries: seq<PlatformOptions>)
    ensures forall k :: 0 <= k < |Actives(entries)| ==> Actives(entries)[k].isActive
    ensures forall k :: 0 <= k < |Actives(entries)| ==> Actives(entries)[k] in entries
    decreases |entries|
  {
    if entries != [] {
      ActivesAreActive(entries[1..]);
    }
  }

  /** An active entry at i is among the actives, and so is a second one at
      j != i: then there are at least two. */
  lemma {:induction false} ActivesCount(entries: seq<PlatformOptions>, i: nat, j: nat)
    requires i < |entries| && j < |entries| && entries[i].isActive && entries[j].isActive
    ensures 1 <= |Actives(entries)|
    ensures i != j ==> 2 <= |Actives(entries)|
    decreases |entries|
  {
    if i > 0 && j > 0 {
      ActivesCount(entries[1..], i - 1, j - 1);
    } else if i > 0 {
      ActivesCount(entries[1..], i - 1, i - 1);
    } else if j > 0 {
      ActivesCount(entries[1..], j - 1, j - 1);
    }
  }

  /** With the entry at i the only active one, the actives are exactly it. */
  lemma {:induction false} ActivesOfOne(entries: seq<PlatformOptions>, i: nat)
    requires i < |entries| && entries[i].isActive
    requires forall j :: 0 <= j < |entries| && j != i ==> !entries[j].isActive
    ensures Actives(entries) == [entries[i]]
    decreases |entries|
  {
    if i > 0 {
      ActivesOfOne(entries[1..], i - 1);
    } else {
      ActivesNone(entries[1..]);
    }
  }

  lemma {:induction false} ActivesNone(entries: seq<PlatformOptions>)
    requires forall j :: 0 <= j < |entries| ==> !entries[j].isActive
    ensures Actives(entries) == []
    decreases |entries|
  {
    if entries != [] {
      ActivesNone(entries[1..]);
    }
  }

  /** Selection fails with "no active platform" exactly when no entry is
      active. */
  lemma {:induction false} NoActivePlatformIff(entries: seq<PlatformOptions>)
    ensures SingleActive(entries) == Failure(NoActivePlatform)
            <==> forall j :: 0 <= j < |entries| ==> !entries[j].isActive
  {
    if exists j :: 0 <= j < |entries| && entries[j].isActive {
      var j :| 0 <= j < |entries| && entries[j].isActive;
      ActivesCount(entries, j, j);
    } else {
      ActivesNone(entries);
    }
  }

  /** Selection fails on a second active entry exactly when two entries
      are active. */
  lemma {:induction false} MoreThanOneActiveIff(entries: seq<PlatformOptions>)
    ensures SingleActive(entries) == Failure(MoreThanOneActive)
            <==> exists i, j :: 0 <= i < j < |entries| && entries[i].isActive && entries[j].isActive
  {
    if exists i, j :: 0 <= i < j < |entries| && entries[i].isActive && entries[j].isActive {
      var i, j :| 0 <= i < j < |entries| && entries[i].isActive && entries[j].isActive;
      ActivesCount(entries, i, j);
    } else if exists i :: 0 <= i < |entries| && entries[i].isActive {
      var i :| 0 <= i < |entries| && entries[i].isActive;
      forall j | 0 <= j < |entries| && j != i
        ensures !entries[j].isActive
      {
      }
      ActivesOfOne(entries, i);
    } else {
      ActivesNone(entries);
    }
  }

  /** When exactly the entry at i is active, it is the one selected. */
  lemma {:induction false} SelectsTheActiveEntry(entries: seq<PlatformOptions>, i: nat)
    requires i < |entries| && entries[i].isActive
    requires forall j :: 0 <= j < |entries| && j != i ==> !entries[j].isActive
    ensures SingleActive(entries) == Success(entries[i])
  {
    ActivesOfOne(entries, i);
  }

  /** Whatever is selected is an active configured entry. */
  lemma {:induction false} SelectedIsActive(entries: seq<PlatformOptions>)
    ensures SingleActive(entries).Success? ==>
      SingleActive(entries).value in entries && SingleActive(entries).value.isActive
  {
    ActivesAreActive(entries);
  }

  // ---------------------------------------------------------------------
  // Dispatch

  /** The chat client comes from the chat-model entries alone, the
      embedding generator from the text-model entries alone. */
  lemma {:induction false} FactoriesReadTheirOwnEntries(options: LangModelOptions, chatModel: seq<PlatformOptions>, textModel: seq<PlatformOptions>)
    ensures GetChatClient(options) == GetChatClient(options.(textModel := textModel))
    ensures GetEmbeddingGenerator(options) == GetEmbeddingGenerator(options.(chatModel := chatModel))
  {
  }

  /** Only the chat client, and only for GitHub, adds function invocation;
      an embedding generator never does. */
  lemma {:induction false} FunctionInvocationOnlyForGitHubChat(options: LangModelOptions)
    ensures GetChatClient(options).Success? ==>
      (GetChatClient(options).value.functionInvocation <==> SingleActive(options.chatModel).value.name == GitHub)
    ensures GetEmbeddingGenerator(options).Success? ==> !GetEmbeddingGenerator(options).value.functionInvocation
  {
  }

  /** With exactly one active chat entry, the chat client is built from
      that entry's platform, endpoint and model (and key, for GitHub), and
      the error cases are those of the entry's platform. */
  lemma {:induction false} ChatClientFromActiveEntry(options: LangModelOptions, i: nat)
    requires i < |options.chatModel| && options.chatModel[i].isActive
    requires forall j :: 0 <= j < |options.chatModel| && j != i ==> !options.chatModel[j].isActive
    ensures var p := options.chatModel[i];
      var r := GetChatClient(options);
      && (p.name == Ollama ==> r == Success(Client(OllamaApiClient, p.url, p.model, None, false)))
      && (p.name == GitHub && p.apiKey.Some? ==> r == Success(Client(OpenAIClient, p.url, p.model, p.apiKey, true)))
      && (p.name == GitHub && p.apiKey.None? ==> r == Failure(MissingApiKey))
      && (p.name == OpenAI || p.name == Azure ==> r == Failure(NotImplemented(p.name)))
      && (!(Ollama <= p.name <= Azure) ==> r == Failure(UnsupportedPlatform(p.name)))
  {
    SelectsTheActiveEntry(options.chatModel, i);
  }

  /** The same for the embedding generator and the text-model entries,
      which never adds function invocation. */
  lemma {:induction false} EmbeddingGeneratorFromActiveEntry(options: LangModelOptions, i: nat)
    requires i < |options.textModel| && options.textModel[i].isActive
    requires forall j :: 0 <= j < |options.textModel| && j != i ==> !options.textModel[j].isActive
    ensures var p := options.textModel[i];
      var r := GetEmbeddingGenerator(options);
      && (p.name == Ollama ==> r == Success(Client(OllamaApiClient, p.url, p.model, None, false)))
      && (p.name == GitHub && p.apiKey.Some? ==> r == Success(Client(OpenAIClient, p.url, p.model, p.apiKey, false)))
      && (p.name == GitHub && p.apiKey.None? ==> r == Failure(MissingApiKey))
      && (p.name == OpenAI || p.name == Azure ==> r == Failure(NotImplemented(p.name)))
      && (!(Ollama <= p.name <= Azure) ==> r == Failure(UnsupportedPlatform(p.name)))
  {
    SelectsTheActiveEntry(options.textModel, i);
  }
}
