/** What both servers tell the language model about unanswerable questions. */
module Answers {

  /** The fixed sentence both servers tell the model to answer with when the
      CV does not hold the answer. */
  const Fallback: string := "I don't have that information in the CV."
}
