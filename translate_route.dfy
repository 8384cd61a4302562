/** The direct translation endpoint of app/api/translate/route.ts: `POST` with a JSON body
    `{ text }` answers with the Vietnamese translation and the two lengths. */
module TranslateRoute {
  import opened Effects
  import opened JsStrings
  import opened Translation

  /** The `text` field of the parsed body: absent, a string, or a value of another type. */
  datatype TextField = Missing | StringText(s: string) | NotAString

  datatype ResponseBody =
    | ErrorBody(error: string)
    | ErrorWithDetails(error: string, details: string)
    | TranslationBody(translatedText: string, originalLength: nat, translatedLength: nat)

  datatype Response = Response(status: nat, body: ResponseBody)

  /** The handler. `body` is what `req.json()` gave: the `text` field, or the error it threw. */
  function Post(body: Call<TextField>, generate: LanguageModel): (r: Response)
    ensures r.status == 400 <==> body.Returned? && (body.value.StringText? ==> body.value.s == "")
    ensures r.status == 400 ==> r.body == ErrorBody("Text is required")
    ensures r.status == 500 <==> body.Threw?
    ensures r.status == 500 ==> r.body == ErrorWithDetails("Translation failed", body.message)
    ensures r.status == 200 ==>
              body == Returned(StringText(body.value.s))
              && r.body.TranslationBody?
              && r.body.translatedText == VietnameseTranslation(body.value.s, generate)
              && r.body.originalLength == Utf16Length(body.value.s)
              && r.body.translatedLength == Utf16Length(r.body.translatedText)
    ensures r.status in {200, 400, 500}
  {
    match body
      case Threw(message) => Response(500, ErrorWithDetails("Translation failed", message))
      case Returned(field) =>
        if !field.StringText? || field.s == "" then Response(400, ErrorBody("Text is required"))
        else
          var translatedText := VietnameseTranslation(field.s, generate);
          Response(200, TranslationBody(translatedText, Utf16Length(field.s), Utf16Length(translatedText)))
  }

  /** Rejected input never reaches the model: the 400 answer is the same whatever the model. */
  lemma BadRequestNeedsNoModel(body: Call<TextField>, generate1: LanguageModel, generate2: LanguageModel)
    requires Post(body, generate1).status == 400
    ensures Post(body, generate2) == Post(body, generate1)
  {
  }

  /** A failing model is not an error here: the translator hands the text back, so the answer is
      200 with the text itself and two equal lengths. */
  lemma ModelFailureGivesOriginal(text: string, generate: LanguageModel)
    requires text != "" && generate(VietnamesePromptFor(text), VietnameseMaxTokens).GenerationFailed?
    ensures Post(Returned(StringText(text)), generate) ==
              Response(200, TranslationBody(text, Utf16Length(text), Utf16Length(text)))
  {
    VietnameseFailOpen(text, generate);
  }
}
