/**
 * Prompt construction and backend selection
 * (chatbot/app/core/language_models/llm_factory.py).
 */
module LlmFactory {
  import opened Wrappers
  import opened Text

  /** The template of `construct_prompt` up to the category. */
  const PromptHead: string :=
    "\n    You are a friendly and helpful assistant. Your primary role is to assist users by providing concise, accurate, and clear answers strictly based on the retrieved text."
    + "\n    All your responses must:"
    + "\n    - Be written in a friendly tone to ensure the user feels welcome."
    + "\n    - Stay straight to the point, avoiding unnecessary elaboration or explanation."
    + "\n    - Use only the information from the retrieved text below. Do not add, infer, or generate additional content."
    + "\n\n    Below is the "

  /** The template between the category and the retrieved text. */
  const PromptMiddle: string :=
    " retrieved from the knowledge base. You as model do not have any prior knowledge, use only information provided by the knowledge base from below:"
    + "\n\n    "

  /** The template after the retrieved text. */
  const PromptTail: string :=
    "\n\n    Please answer the user's question strictly based on and using the above information.\n    "

  /** `construct_prompt`. */
  function ConstructPrompt(category: string, retrievedText: string): (p: string)
    ensures |p| == |PromptHead| + |category| + |PromptMiddle| + |retrievedText| + |PromptTail|
    ensures OccursAt(p, category, |PromptHead|)
    ensures OccursAt(p, retrievedText, |PromptHead| + |category| + |PromptMiddle|)
  {
    var p := PromptHead + category + PromptMiddle + retrievedText + PromptTail;
    assert p[|PromptHead|..|PromptHead| + |category|] == category;
    assert p[|PromptHead| + |category| + |PromptMiddle|..|PromptHead| + |category| + |PromptMiddle| + |retrievedText|]
        == retrievedText;
    p
  }

  /** Reads the grounding context back out of a prompt built for a category of length `categoryLength`. */
  function RetrievedTextOf(p: string, categoryLength: nat): string
  {
    var start := |PromptHead| + categoryLength + |PromptMiddle|;
    if start <= |p| - |PromptTail| then p[start..|p| - |PromptTail|] else ""
  }

  /** Reads the category back out of a prompt. */
  function CategoryOf(p: string, categoryLength: nat): string
  {
    if |PromptHead| + categoryLength <= |p| then p[|PromptHead|..|PromptHead| + categoryLength] else ""
  }

  /** The prompt determines its category and its grounding context. */
  lemma PromptRoundTrip(category: string, retrievedText: string)
    ensures CategoryOf(ConstructPrompt(category, retrievedText), |category|) == category
    ensures RetrievedTextOf(ConstructPrompt(category, retrievedText), |category|) == retrievedText
  {
    var p := ConstructPrompt(category, retrievedText);
    assert p == PromptHead + category + PromptMiddle + retrievedText + PromptTail;
  }

  /** The language-model backends. */
  datatype Backend = Ollama | ChatGpt

  datatype FactoryError = ValueError(message: string) | TypeError(message: string)

  /**
   * `get_llm_instance` as written: the "openai" branch calls `ChatGPTLLM(secrets_retriever)`,
   * whose constructor takes no argument besides `self`, so the call raises TypeError.
   */
  function GetLlmInstanceAsWritten(llmType: string): (r: Result<Backend, FactoryError>)
    ensures llmType == "ollama" ==> r == Success(Ollama)
    ensures r.Success? ==> llmType == "ollama"
    ensures llmType != "ollama" && llmType != "openai" ==> r == Failure(ValueError("Unsupported LLM type: " + llmType))
  {
    if llmType == "ollama" then Success(Ollama)
    else if llmType == "openai" then Failure(TypeError("ChatGPTLLM.__init__() takes 1 positional argument but 2 were given"))
    else Failure(ValueError("Unsupported LLM type: " + llmType))
  }

  /** The "openai" tag never yields a backend as written. */
  lemma OpenAiTagRaises()
    ensures GetLlmInstanceAsWritten("openai").Failure?
    ensures GetLlmInstanceAsWritten("openai").error.TypeError?
  {
  }

  /** `get_llm_instance` as intended: each supported tag selects its backend, any other raises ValueError. */
  function GetLlmInstance(llmType: string): (r: Result<Backend, FactoryError>)
    ensures r == Success(Ollama) <==> llmType == "ollama"
    ensures r == Success(ChatGpt) <==> llmType == "openai"
    ensures r.Failure? <==> llmType != "ollama" && llmType != "openai"
    ensures r.Failure? ==> r.error == ValueError("Unsupported LLM type: " + llmType)
  {
    if llmType == "ollama" then Success(Ollama)
    else if llmType == "openai" then Success(ChatGpt)
    else Failure(ValueError("Unsupported LLM type: " + llmType))
  }

  /** The intended factory differs from the written one exactly on the "openai" tag. */
  lemma FactoriesAgreeExceptOpenAi(llmType: string)
    ensures GetLlmInstance(llmType) != GetLlmInstanceAsWritten(llmType) <==> llmType == "openai"
  {
  }
}
