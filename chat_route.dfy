/** The chat endpoint of app/api/chat/route.ts. `Post` is the request handler up to the start
    of the stream; `OnFinish` is the callback the stream runs once the assistant's reply is
    complete. Every call into code outside this model (usage tracking, logging, the model list,
    the key store, message storage) is a parameter and leaves an event in a ghost trace, so the
    order of the calls and their arguments can be stated. */
module ChatRoute {
  import opened Effects
  import opened JsStrings
  import opened Translation

  datatype Role = User | Assistant | SystemRole | Tool | Data

  /** A message's `content`: a string, or structured parts. */
  datatype Content = Text(text: string) | Parts(parts: seq<string>)

  datatype Message = Message(id: string, role: Role, content: Content, attachments: seq<string>)

  /** The parsed request body. Absent fields are `None`; an absent `isAuthenticated` or
      `enableSearch` reads as false. */
  datatype ChatRequest = ChatRequest(
    messages: Option<seq<Message>>,
    chatId: Option<string>,
    userId: Option<string>,
    model: Option<string>,
    isAuthenticated: bool,
    systemPrompt: Option<string>,
    enableSearch: bool,
    messageGroupId: Option<string>)

  /** A string field is truthy when present and non-empty. */
  predicate Truthy(field: Option<string>)
  {
    field.Some? && field.value != ""
  }

  /** The fields the handler insists on. `messages` is an array, and every array is truthy,
      the empty one included. */
  predicate HasRequiredFields(req: ChatRequest)
  {
    req.messages.Some? && Truthy(req.chatId) && Truthy(req.userId)
  }

  /** An entry of `getAllModels()`: its id and whether it has an `apiSdk`. */
  datatype ModelConfig = ModelConfig(id: string, hasApiSdk: bool)

  /** The collaborators of one request, each called at most once. `usage` is what
      `validateAndTrackUsage` resolved to (a client or `null`); `apiKey` is what
      `getEffectiveApiKey` resolved to. */
  datatype Services = Services(
    usage: Call<bool>,
    increment: Call<()>,
    logging: Call<()>,
    models: Call<seq<ModelConfig>>,
    apiKey: Call<Option<string>>,
    defaultSystemPrompt: string,
    generate: LanguageModel)

  datatype Event =
    | UsageValidated(userId: string, model: Option<string>, isAuthenticated: bool)
    | MessageCountIncremented(userId: string)
    | EnglishTranslationRequested(userText: string)
    | UserMessageLogged(userId: string, chatId: string, content: Content, attachments: seq<string>,
                        model: Option<string>, isAuthenticated: bool, messageGroupId: Option<string>)
    | ModelsListed
    | ApiKeyRequested(userId: string, model: Option<string>)
    | VietnameseTranslationRequested(replyText: string)
    | AssistantMessagesStored(chatId: string, messages: seq<Message>, messageGroupId: Option<string>, model: Option<string>)

  /** What `onFinish` closes over. */
  datatype FinishContext = FinishContext(hasClient: bool, chatId: string, messageGroupId: Option<string>, model: Option<string>)

  /** The arguments of `streamText`: the model built by `apiSdk(apiKey, { enableSearch })`, the
      system prompt, the messages, the number of tools and the step cap. */
  datatype StreamRequest = StreamRequest(
    modelId: string,
    apiKey: Option<string>,
    enableSearch: bool,
    system: string,
    messages: seq<Message>,
    toolCount: nat,
    maxSteps: nat,
    finish: FinishContext)

  /** The handler's answer: 400 with `{error: "Error, missing information"}`, the error
      response `createErrorResponse` builds for a thrown error, or the data stream. */
  datatype ChatResponse = MissingInformation(error: string) | ErrorResponse(error: string) | Streaming(request: StreamRequest)

  const MissingInformationError: string := "Error, missing information"
  const MaxSteps: nat := 10

  /** `Model ${model} not found`; an absent model prints as `undefined`. */
  function ModelNotFound(model: Option<string>): string
  {
    "Model " + (if model.Some? then model.value else "undefined") + " not found"
  }

  /** `allModels.find((m) => m.id === model)`. */
  function FindModel(models: seq<ModelConfig>, model: Option<string>): (r: Option<ModelConfig>)
    ensures r.Some? ==> r.value in models && model == Some(r.value.id)
    ensures r.None? <==> model.None? || forall m :: m in models ==> m.id != model.value
    ensures r.Some? ==> exists k :: 0 <= k < |models| && models[k] == r.value
                          && forall m :: 0 <= m < k ==> models[m].id != model.value
  {
    if model.None? || models == [] then None
    else if models[0].id == model.value then Some(models[0])
    else
      assert forall m :: m in models ==> m == models[0] || m in models[1..];
      var r := FindModel(models[1..], model);
      if r.Some? then
        ghost var k :| 0 <= k < |models[1..]| && models[1..][k] == r.value
          && forall m :: 0 <= m < k ==> models[1..][m].id != model.value;
        assert models[k + 1] == r.value && forall m :: 0 <= m < k + 1 ==> models[m].id != model.value;
        r
      else r
  }

  /** With two entries of the same id, the first decides: here it has no SDK, so the model is
      not found although the second entry has one. */
  lemma FirstEntryWins(id: string)
    ensures !Usable(FindModel([ModelConfig(id, false), ModelConfig(id, true)], Some(id)))
  {
  }

  /** A configuration `streamText` can be given a model from. */
  predicate Usable(config: Option<ModelConfig>)
  {
    config.Some? && config.value.hasApiSdk
  }

  function Last(messages: seq<Message>): Message
    requires |messages| > 0
  {
    messages[|messages| - 1]
  }

  /** The last message is a user message with string content, the only kind that is translated. */
  predicate TranslatableUserMessage(messages: seq<Message>)
  {
    |messages| > 0 && Last(messages).role == User && Last(messages).content.Text?
  }

  /** `processedMessages`: the last message with its content translated to English when it is a
      user message with string content and the translation differs; otherwise `messages`. */
  function NormalizedMessages(messages: seq<Message>, generate: LanguageModel): (r: seq<Message>)
    ensures |r| == |messages|
    ensures forall i :: 0 <= i < |messages| - 1 ==> r[i] == messages[i]
    ensures |messages| > 0 ==> r[|r| - 1].(content := Last(messages).content) == Last(messages)
    ensures |messages| > 0 && r[|r| - 1] != Last(messages) ==>
              TranslatableUserMessage(messages)
              && r[|r| - 1].content == Text(TranslateToEnglish(Last(messages).content.text, generate))
    ensures TranslatableUserMessage(messages) ==>
              r == messages[..|messages| - 1]
                   + [Last(messages).(content := Text(TranslateToEnglish(Last(messages).content.text, generate)))]
    ensures !TranslatableUserMessage(messages) ==> r == messages
  {
    if TranslatableUserMessage(messages) then
      var userMessage := Last(messages);
      var translatedContent := TranslateToEnglish(userMessage.content.text, generate);
      if translatedContent != userMessage.content.text then
        messages[..|messages| - 1] + [userMessage.(content := Text(translatedContent))]
      else
        assert userMessage.(content := Text(translatedContent)) == userMessage;
        assert messages == messages[..|messages| - 1] + [userMessage];
        messages
    else messages
  }

  /** A last message that already looks English is passed on unchanged. */
  lemma EnglishMessagesUnchanged(messages: seq<Message>, generate: LanguageModel)
    requires |messages| > 0 && Last(messages).content.Text? && IsLikelyEnglish(Last(messages).content.text)
    ensures NormalizedMessages(messages, generate) == messages
  {
  }

  /** A failing model leaves the conversation as it was. */
  lemma NormalizationFailOpen(messages: seq<Message>, generate: LanguageModel)
    requires TranslatableUserMessage(messages)
    requires generate(EnglishPrompt(Last(messages).content.text), EnglishMaxTokens).GenerationFailed?
    ensures NormalizedMessages(messages, generate) == messages
  {
    TranslateToEnglishFailOpen(Last(messages).content.text, generate);
  }

  /** The system prompt: the request's when non-empty, the default otherwise. */
  function EffectiveSystemPrompt(req: ChatRequest, defaultPrompt: string): (r: string)
    ensures Truthy(req.systemPrompt) ==> r == req.systemPrompt.value && r != ""
    ensures !Truthy(req.systemPrompt) ==> r == defaultPrompt
  {
    if Truthy(req.systemPrompt) then req.systemPrompt.value else defaultPrompt
  }

  /** Every collaborator `Post` may call answers instead of throwing. */
  predicate Cooperative(env: Services)
  {
    env.usage.Returned? && env.increment.Returned? && env.logging.Returned? && env.models.Returned?
    && env.apiKey.Returned?
  }

  /** The last message is a user message, whatever its content: the one that is logged. */
  predicate LastIsUser(messages: seq<Message>)
  {
    |messages| > 0 && Last(messages).role == User
  }

  /** `(await getEffectiveApiKey(...)) || undefined`, asked for only when signed in. */
  function ProviderKey(req: ChatRequest, stored: Option<string>): (r: Option<string>)
    ensures r.Some? <==> req.isAuthenticated && Truthy(stored)
    ensures r.Some? ==> r == stored
  {
    if req.isAuthenticated && Truthy(stored) then stored else None
  }

  /** What the handler does with a request that has the required fields: its answer, and the
      calls it makes, in order. The calls end at the first one that throws, and after the model
      lookup when no usable model is found. */
  datatype Handled = Handled(response: ChatResponse, events: seq<Event>)

  /** The arguments of `streamText` for a found model, the chosen key and the processed messages. */
  function StreamFor(req: ChatRequest, env: Services, config: ModelConfig, apiKey: Option<string>,
                     processed: seq<Message>): StreamRequest
    requires HasRequiredFields(req)
  {
    StreamRequest(
      config.id, apiKey, req.enableSearch,
      EffectiveSystemPrompt(req, env.defaultSystemPrompt),
      processed,
      0, MaxSteps,
      FinishContext(env.usage == Returned(true), req.chatId.value, req.messageGroupId, req.model))
  }

  function Handle(req: ChatRequest, env: Services, processed: seq<Message>): Handled
    requires HasRequiredFields(req)
  {
    var messages, userId := req.messages.value, req.userId.value;
    var validated := [UsageValidated(userId, req.model, req.isAuthenticated)];
    if env.usage.Threw? then Handled(ErrorResponse(env.usage.message), validated)
    else
      var client := env.usage.value;
      var gated := if client then validated + [MessageCountIncremented(userId)] else validated;
      if client && env.increment.Threw? then Handled(ErrorResponse(env.increment.message), gated)
      else
        var translated :=
          if TranslatableUserMessage(messages) then gated + [EnglishTranslationRequested(Last(messages).content.text)]
          else gated;
        var logged :=
          if client && LastIsUser(messages)
          then translated + [UserMessageLogged(userId, req.chatId.value, Last(messages).content, Last(messages).attachments,
                                               req.model, req.isAuthenticated, req.messageGroupId)]
          else translated;
        if client && LastIsUser(messages) && env.logging.Threw? then Handled(ErrorResponse(env.logging.message), logged)
        else Dispatch(req, env, processed, logged)
  }

  /** The rest of the handler, from the model lookup on, after the calls in `earlier`. */
  function Dispatch(req: ChatRequest, env: Services, processed: seq<Message>, earlier: seq<Event>): Handled
    requires HasRequiredFields(req)
  {
    var listed := earlier + [ModelsListed];
    if env.models.Threw? then Handled(ErrorResponse(env.models.message), listed)
    else
      var config := FindModel(env.models.value, req.model);
      if !Usable(config) then Handled(ErrorResponse(ModelNotFound(req.model)), listed)
      else if req.isAuthenticated then
        var keyed := listed + [ApiKeyRequested(req.userId.value, req.model)];
        if env.apiKey.Threw? then Handled(ErrorResponse(env.apiKey.message), keyed)
        else Handled(Streaming(StreamFor(req, env, config.value, ProviderKey(req, env.apiKey.value), processed)), keyed)
      else Handled(Streaming(StreamFor(req, env, config.value, None, processed)), listed)
  }

  function RequestResponse(req: ChatRequest, env: Services, processed: seq<Message>): ChatResponse
    requires HasRequiredFields(req)
  {
    Handle(req, env, processed).response
  }

  ghost function RequestEvents(req: ChatRequest, env: Services, processed: seq<Message>): seq<Event>
    requires HasRequiredFields(req)
  {
    Handle(req, env, processed).events
  }

  /** The answer to a request body: 500-style error when it does not parse, 400 when a required
      field is missing, otherwise `RequestResponse`. */
  function PostResponse(body: Call<ChatRequest>, env: Services): ChatResponse
  {
    if body.Threw? then ErrorResponse(body.message)
    else if !HasRequiredFields(body.value) then MissingInformation(MissingInformationError)
    else Handle(body.value, env, NormalizedMessages(body.value.messages.value, env.generate)).response
  }

  ghost function PostEvents(body: Call<ChatRequest>, env: Services): seq<Event>
  {
    if body.Returned? && HasRequiredFields(body.value) then Handle(body.value, env, NormalizedMessages(body.value.messages.value, env.generate)).events else []
  }

  /** The `POST` handler. `body` is what `req.json()` gave; a thrown error anywhere in the
      handler becomes `ErrorResponse` with its message. */
  method Post(body: Call<ChatRequest>, env: Services) returns (response: ChatResponse, ghost trace: seq<Event>)
    ensures response == PostResponse(body, env)
    ensures trace == PostEvents(body, env)
  {
    trace := [];
    if body.Threw? {
      response := ErrorResponse(body.message);
      return;
    }
    var req := body.value;
    if !HasRequiredFields(req) {
      response := MissingInformation(MissingInformationError);
      return;
    }
    var messages, chatId, userId := req.messages.value, req.chatId.value, req.userId.value;

    trace := [UsageValidated(userId, req.model, req.isAuthenticated)];
    if env.usage.Threw? {
      response := ErrorResponse(env.usage.message);
      return;
    }
    var hasClient := env.usage.value;
    if hasClient {
      trace := trace + [MessageCountIncremented(userId)];
      if env.increment.Threw? {
        response := ErrorResponse(env.increment.message);
        return;
      }
    }

    if |messages| > 0 && Last(messages).role == User && Last(messages).content.Text? {
      trace := trace + [EnglishTranslationRequested(Last(messages).content.text)];
    }
    var processedMessages := NormalizedMessages(messages, env.generate);

    if hasClient && |messages| > 0 && Last(messages).role == User {
      var userMessage := Last(messages);
      trace := trace + [UserMessageLogged(userId, chatId, userMessage.content, userMessage.attachments,
                                          req.model, req.isAuthenticated, req.messageGroupId)];
      if env.logging.Threw? {
        response := ErrorResponse(env.logging.message);
        return;
      }
    }

    response, trace := StartStream(req, env, processedMessages, trace);
  }

  /** Lines 97-123 of the handler: the model lookup, the system prompt, the key, and the
      arguments of `streamText`. `trace` holds the calls made so far. */
  method StartStream(req: ChatRequest, env: Services, processedMessages: seq<Message>, ghost earlier: seq<Event>)
    returns (response: ChatResponse, ghost trace: seq<Event>)
    requires HasRequiredFields(req)
    ensures response == Dispatch(req, env, processedMessages, earlier).response
    ensures trace == Dispatch(req, env, processedMessages, earlier).events
  {
    var chatId, userId := req.chatId.value, req.userId.value;
    trace := earlier + [ModelsListed];
    if env.models.Threw? {
      response := ErrorResponse(env.models.message);
      return;
    }
    var modelConfig := FindModel(env.models.value, req.model);
    if modelConfig.None? || !modelConfig.value.hasApiSdk {
      response := ErrorResponse(ModelNotFound(req.model));
      return;
    }

    var effectiveSystemPrompt := if Truthy(req.systemPrompt) then req.systemPrompt.value else env.defaultSystemPrompt;

    var apiKey: Option<string> := None;
    if req.isAuthenticated && Truthy(req.userId) {
      trace := trace + [ApiKeyRequested(userId, req.model)];
      if env.apiKey.Threw? {
        response := ErrorResponse(env.apiKey.message);
        return;
      }
      if env.apiKey.value.Some? && env.apiKey.value.value != "" {
        apiKey := env.apiKey.value;
      }
    }

    response := Streaming(StreamRequest(
      modelConfig.value.id, apiKey, req.enableSearch, effectiveSystemPrompt, processedMessages,
      0, MaxSteps, FinishContext(env.usage == Returned(true), chatId, req.messageGroupId, req.model)));
  }

  /** A request is turned away with 400 exactly when the body parsed but lacks `messages`, a
      non-empty `chatId` or a non-empty `userId`; nothing is called then. */
  lemma MissingInformationIff(body: Call<ChatRequest>, env: Services)
    ensures PostResponse(body, env) == MissingInformation("Error, missing information") <==>
              body.Returned? && !HasRequiredFields(body.value)
    ensures PostResponse(body, env).MissingInformation? ==> PostEvents(body, env) == []
  {
  }

  /** An empty message list is not missing information: it passes the 400 check. */
  lemma EmptyMessagesAccepted(req: ChatRequest, env: Services)
    requires req.messages == Some([]) && Truthy(req.chatId) && Truthy(req.userId)
    ensures !PostResponse(Returned(req), env).MissingInformation?
    ensures PostEvents(Returned(req), env)[0] == UsageValidated(req.userId.value, req.model, req.isAuthenticated)
  {
  }

  /** The message count is incremented exactly when usage validation gave a client, as the
      second call, so before any translation, logging or model lookup. */
  lemma IncrementGate(req: ChatRequest, env: Services, processed: seq<Message>)
    requires HasRequiredFields(req)
    ensures var events := RequestEvents(req, env, processed);
            (env.usage == Returned(true) ==> |events| >= 2 && events[1] == MessageCountIncremented(req.userId.value))
            && (forall i :: 0 <= i < |events| && events[i].MessageCountIncremented? ==> i == 1 && env.usage == Returned(true))
            && (forall j :: 0 <= j < |events| && !events[j].UsageValidated? && !events[j].MessageCountIncremented? ==>
                  j >= 1 && (env.usage == Returned(true) ==> j >= 2))
  {
  }

  /** What is logged is the user's message as sent, never its English translation, and only
      with a client and a last message from the user. */
  lemma LoggedContentIsOriginal(req: ChatRequest, env: Services, processed: seq<Message>)
    requires HasRequiredFields(req)
    ensures var events := RequestEvents(req, env, processed);
            var messages := req.messages.value;
            forall i :: 0 <= i < |events| && events[i].UserMessageLogged? ==>
              env.usage == Returned(true) && LastIsUser(messages)
              && events[i].content == Last(messages).content && events[i].attachments == Last(messages).attachments
  {
  }

  /** With every collaborator answering, the message is logged exactly when there is a client
      and the last message is the user's. */
  lemma LoggedExactlyWithClient(req: ChatRequest, env: Services, processed: seq<Message>)
    requires HasRequiredFields(req) && Cooperative(env)
    ensures env.usage.value && LastIsUser(req.messages.value) <==>
              exists i :: 0 <= i < |RequestEvents(req, env, processed)| && RequestEvents(req, env, processed)[i].UserMessageLogged?
  {
    var events := RequestEvents(req, env, processed);
    var messages := req.messages.value;
    if env.usage.value && LastIsUser(messages) {
      var k := if TranslatableUserMessage(messages) then 3 else 2;
      assert events[k].UserMessageLogged?;
    }
  }

  /** With every collaborator answering, the request fails with `Model ... not found` exactly when
      no entry of the model list has the requested id and an SDK; otherwise the stream starts. */
  lemma ModelNotFoundIff(req: ChatRequest, env: Services, processed: seq<Message>)
    requires HasRequiredFields(req) && Cooperative(env)
    ensures (RequestResponse(req, env, processed) == ErrorResponse(ModelNotFound(req.model)))
              == !Usable(FindModel(env.models.value, req.model))
    ensures Usable(FindModel(env.models.value, req.model)) <==> RequestResponse(req, env, processed).Streaming?
  {
  }

  /** An absent model is never found. */
  lemma AbsentModelNotFound(req: ChatRequest, env: Services, processed: seq<Message>)
    requires HasRequiredFields(req) && Cooperative(env) && req.model == None
    ensures RequestResponse(req, env, processed) == ErrorResponse("Model undefined not found")
  {
    UndefinedModelMessage();
  }

  /** The message for an absent model, spelled out. */
  lemma UndefinedModelMessage()
    ensures ModelNotFound(None) == "Model undefined not found"
  {
  }

  /** What the stream is started with: the requested model, the processed messages, the
      request's system prompt or the default, no tools, at most ten steps, and a key only for a
      signed-in user who has one. */
  lemma StreamRequestShape(req: ChatRequest, env: Services, processed: seq<Message>)
    requires HasRequiredFields(req) && RequestResponse(req, env, processed).Streaming?
    ensures var s := RequestResponse(req, env, processed).request;
            req.model == Some(s.modelId) && Usable(FindModel(env.models.value, req.model))
            && s.messages == processed
            && (Truthy(req.systemPrompt) ==> s.system == req.systemPrompt.value)
            && (!Truthy(req.systemPrompt) ==> s.system == env.defaultSystemPrompt)
            && s.toolCount == 0 && s.maxSteps == 10 && s.enableSearch == req.enableSearch
            && (req.isAuthenticated ==> env.apiKey.Returned? && s.apiKey == ProviderKey(req, env.apiKey.value))
            && (!req.isAuthenticated ==> s.apiKey == None)
            && (s.apiKey.Some? ==> req.isAuthenticated && s.apiKey.value != "")
            && s.finish.hasClient == (env.usage == Returned(true)) && s.finish.chatId == req.chatId.value
  {
  }

  /** The messages the stream gets from `Post` are the request's, with at most the last one's
      content replaced by its English translation. */
  lemma PostStreamsEnglishMessages(body: Call<ChatRequest>, env: Services)
    requires PostResponse(body, env).Streaming?
    ensures body.Returned? && HasRequiredFields(body.value)
    ensures var streamed := PostResponse(body, env).request.messages;
            var messages := body.value.messages.value;
            (TranslatableUserMessage(messages) ==>
               streamed == messages[..|messages| - 1]
                           + [Last(messages).(content := Text(TranslateToEnglish(Last(messages).content.text, env.generate)))])
            && (!TranslatableUserMessage(messages) ==> streamed == messages)
  {
  }

  /** The provider key is asked for only for a signed-in user, and then before the stream. */
  lemma KeyRequestedOnlyWhenAuthenticated(req: ChatRequest, env: Services, processed: seq<Message>)
    requires HasRequiredFields(req)
    ensures forall i :: 0 <= i < |RequestEvents(req, env, processed)| && RequestEvents(req, env, processed)[i].ApiKeyRequested? ==>
              req.isAuthenticated
    ensures RequestResponse(req, env, processed).Streaming? && req.isAuthenticated ==>
              RequestEvents(req, env, processed)[|RequestEvents(req, env, processed)| - 1] == ApiKeyRequested(req.userId.value, req.model)
  {
  }

  const TranslationSeparator: string := "\n\n---\n\n**Bản dịch tiếng Việt:**\n\n"

  /** The last message is an assistant message with string content: the reply to translate. */
  predicate TranslatableReply(messages: seq<Message>)
  {
    |messages| > 0 && Last(messages).role == Assistant && Last(messages).content.Text?
  }

  /** `enhancedMessages`: `response.messages.map(...)`, appending the separator and the
      Vietnamese text to the last message when it is the assistant's. */
  function BilingualMessages(messages: seq<Message>, vietnamese: string): (r: seq<Message>)
    requires TranslatableReply(messages)
    ensures |r| == |messages|
    ensures forall i :: 0 <= i < |messages| - 1 ==> r[i] == messages[i]
    ensures r[|r| - 1] == Last(messages).(content := Text(Last(messages).content.text + TranslationSeparator + vietnamese))
  {
    var n := |messages|;
    seq(n, i requires 0 <= i < n =>
      if i == n - 1 && messages[i].role == Assistant
      then messages[i].(content := Text(messages[i].content.text + TranslationSeparator + vietnamese))
      else messages[i])
  }

  /** The stored reply reads: the English reply, then the separator, then the Vietnamese text;
      its id, role and attachments are the reply's. */
  lemma BilingualReplyLayout(messages: seq<Message>, vietnamese: string)
    requires TranslatableReply(messages)
    ensures var english := Last(messages).content.text;
            var stored := Last(BilingualMessages(messages, vietnamese));
            stored.id == Last(messages).id && stored.role == Assistant && stored.attachments == Last(messages).attachments
            && stored.content.Text?
            && |stored.content.text| == |english| + |TranslationSeparator| + |vietnamese|
            && stored.content.text[..|english|] == english
            && stored.content.text[|english|..|english| + |TranslationSeparator|] == TranslationSeparator
            && stored.content.text[|english| + |TranslationSeparator|..] == vietnamese
  {
    var english := Last(messages).content.text;
    var text := english + TranslationSeparator + vietnamese;
    assert text == english + (TranslationSeparator + vietnamese);
    assert text[..|english|] == english;
    assert text[|english|..] == TranslationSeparator + vietnamese;
    assert text[|english|..][..|TranslationSeparator|] == TranslationSeparator;
    assert text[|english|..][|TranslationSeparator|..] == vietnamese;
  }

  /** When the Vietnamese translation fails, the stored reply is the English text, the
      separator, and the English text again. */
  lemma FailedTranslationRepeatsEnglish(messages: seq<Message>, generate: LanguageModel)
    requires TranslatableReply(messages)
    requires generate(VietnamesePromptFor(Last(messages).content.text), VietnameseMaxTokens).GenerationFailed?
    ensures var english := Last(messages).content.text;
            Last(BilingualMessages(messages, VietnameseTranslation(english, generate))).content
              == Text(english + TranslationSeparator + english)
  {
    VietnameseFailOpen(Last(messages).content.text, generate);
  }

  /** How `onFinish` ended: normally, or with the error of a storage call it did not catch. */
  datatype FinishOutcome = Finished | Rejected(error: string)

  function StoreOutcome(stored: Call<()>): FinishOutcome
  {
    if stored.Threw? then Rejected(stored.message) else Finished
  }

  /** What `translateToVietnamese` gives for the reply; nothing is translated when the reply is
      not an assistant string. */
  function ReplyTranslation(responseMessages: seq<Message>, generate: LanguageModel): string
  {
    if TranslatableReply(responseMessages) then VietnameseTranslation(Last(responseMessages).content.text, generate)
    else ""
  }

  /** The calls `onFinish` makes, given the reply's translation `vietnamese`: the translation
      request for a string reply, then with a client the store of the bilingual list, and the
      store of the original list if that one throws. */
  ghost function FinishEvents(ctx: FinishContext, responseMessages: seq<Message>, vietnamese: string,
                              store: seq<Message> -> Call<()>): seq<Event>
  {
    var original := AssistantMessagesStored(ctx.chatId, responseMessages, ctx.messageGroupId, ctx.model);
    if TranslatableReply(responseMessages) then
      var requested := [VietnameseTranslationRequested(Last(responseMessages).content.text)];
      if !ctx.hasClient then requested
      else
        var enhanced := BilingualMessages(responseMessages, vietnamese);
        var first := requested + [AssistantMessagesStored(ctx.chatId, enhanced, ctx.messageGroupId, ctx.model)];
        if store(enhanced).Returned? then first else first + [original]
    else if ctx.hasClient then [original]
    else []
  }

  /** How `onFinish` ends, given the reply's translation `vietnamese`. */
  function FinishResult(ctx: FinishContext, responseMessages: seq<Message>, vietnamese: string,
                        store: seq<Message> -> Call<()>): FinishOutcome
  {
    if !ctx.hasClient then Finished
    else if TranslatableReply(responseMessages) then
      var enhanced := BilingualMessages(responseMessages, vietnamese);
      if store(enhanced).Returned? then Finished else StoreOutcome(store(responseMessages))
    else StoreOutcome(store(responseMessages))
  }

  /** `onFinish`. `store` is `storeAssistantMessage` for a list of messages. */
  method OnFinish(ctx: FinishContext, responseMessages: seq<Message>, generate: LanguageModel, store: seq<Message> -> Call<()>)
    returns (outcome: FinishOutcome, ghost trace: seq<Event>)
    ensures outcome == FinishResult(ctx, responseMessages, ReplyTranslation(responseMessages, generate), store)
    ensures trace == FinishEvents(ctx, responseMessages, ReplyTranslation(responseMessages, generate), store)
  {
    trace := [];
    outcome := Finished;
    if |responseMessages| > 0 && Last(responseMessages).role == Assistant && Last(responseMessages).content.Text? {
      var completedResponse := Last(responseMessages).content.text;
      trace := [VietnameseTranslationRequested(completedResponse)];
      var vietnameseContent := TranslateToVietnamese(completedResponse, generate);
      var enhancedMessages := BilingualMessages(responseMessages, vietnameseContent);
      if ctx.hasClient {
        trace := trace + [AssistantMessagesStored(ctx.chatId, enhancedMessages, ctx.messageGroupId, ctx.model)];
        if store(enhancedMessages).Threw? {
          trace := trace + [AssistantMessagesStored(ctx.chatId, responseMessages, ctx.messageGroupId, ctx.model)];
          outcome := StoreOutcome(store(responseMessages));
        }
      }
    } else {
      if ctx.hasClient {
        trace := [AssistantMessagesStored(ctx.chatId, responseMessages, ctx.messageGroupId, ctx.model)];
        outcome := StoreOutcome(store(responseMessages));
      }
    }
  }

  /** Without a client nothing is stored and `onFinish` ends normally. */
  lemma NoStoreWithoutClient(ctx: FinishContext, responseMessages: seq<Message>, vietnamese: string,
                             store: seq<Message> -> Call<()>)
    requires !ctx.hasClient
    ensures FinishResult(ctx, responseMessages, vietnamese, store) == Finished
    ensures forall i :: 0 <= i < |FinishEvents(ctx, responseMessages, vietnamese, store)| ==>
              !FinishEvents(ctx, responseMessages, vietnamese, store)[i].AssistantMessagesStored?
  {
  }

  /** Whatever is stored is either the bilingual list or the reply as generated, under the
      request's chat and message group; with a client at least one store is attempted. */
  lemma StoredListsAreEnhancedOrOriginal(ctx: FinishContext, responseMessages: seq<Message>, vietnamese: string,
                                         store: seq<Message> -> Call<()>)
    requires ctx.hasClient
    ensures var events := FinishEvents(ctx, responseMessages, vietnamese, store);
            (exists i :: 0 <= i < |events| && events[i].AssistantMessagesStored?)
            && forall i :: 0 <= i < |events| && events[i].AssistantMessagesStored? ==>
                 events[i].chatId == ctx.chatId && events[i].messageGroupId == ctx.messageGroupId
                 && (events[i].messages == responseMessages
                     || (TranslatableReply(responseMessages)
                         && events[i].messages == BilingualMessages(responseMessages, vietnamese)))
  {
    var events := FinishEvents(ctx, responseMessages, vietnamese, store);
    var k := if TranslatableReply(responseMessages) then 1 else 0;
    assert events[k].AssistantMessagesStored?;
  }

  /** The original list is stored only after the bilingual one failed to store, and then
      `onFinish` ends as that second store does. */
  lemma FallbackOnlyAfterFailedStore(ctx: FinishContext, responseMessages: seq<Message>, vietnamese: string,
                                     store: seq<Message> -> Call<()>)
    requires ctx.hasClient && TranslatableReply(responseMessages)
    ensures var enhanced := BilingualMessages(responseMessages, vietnamese);
            var events := FinishEvents(ctx, responseMessages, vietnamese, store);
            |events| >= 2
            && events[0] == VietnameseTranslationRequested(Last(responseMessages).content.text)
            && events[1] == AssistantMessagesStored(ctx.chatId, enhanced, ctx.messageGroupId, ctx.model)
            && (store(enhanced).Returned? ==> |events| == 2 && FinishResult(ctx, responseMessages, vietnamese, store) == Finished)
            && (store(enhanced).Threw? ==>
                  |events| == 3 && events[2].AssistantMessagesStored? && events[2].messages == responseMessages
                  && FinishResult(ctx, responseMessages, vietnamese, store) == StoreOutcome(store(responseMessages)))
  {
  }
}
