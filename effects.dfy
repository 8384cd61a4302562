/** Outcomes of the calls the model cannot see into: collaborators that return or throw,
    and the language model that answers a prompt or fails. */
module Effects {

  datatype Option<+T> = None | Some(value: T)

  /** An awaited call into foreign code: it returns a value or throws an error with a message. */
  datatype Call<+T> = Returned(value: T) | Threw(message: string)

  /** What `generateText` gives back for one prompt: the generated text, or a failure
      (provider missing, network, timeout, ...), which the caller sees as a thrown error. */
  datatype Reply = Generated(text: string) | GenerationFailed(message: string)

  /** The language model, as an uninterpreted function of the prompt and the output budget (`maxTokens`). */
  type LanguageModel = (string, nat) -> Reply
}
