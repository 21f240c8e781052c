/**
 * The retrieval-augmented answer path (chatbot/app/services/rag_pipeline.py):
 * embed the question, classify and retrieve against the store, refuse when
 * nothing relevant is found or when a rules question names no known game,
 * otherwise hand a grounded prompt to the language model.
 *
 * Embedding, similarity, the NLP pipeline and the language model are
 * uninterpreted parameters bundled in `Ports`.
 */
module RagPipeline {
  import opened Wrappers
  import opened Text
  import opened VectorStore
  import opened Grounding
  import LlmFactory
  import GuidanceLoader

  const PlatformOnlyRefusal: string :=
    "Sorry, I can only answer questions about games on this platform or platform guidance."

  const UnknownGameRefusal: string :=
    "Sorry, I do not know anything about this game. I am a chatbot that can only utilize the information from my knowledge base."

  /** The collaborators of the pipeline: the embedder, the similarity, the NLP pipeline and the model's `generate(prompt, query)`. */
  datatype Ports = Ports(
    embed: seq<string> -> Vec,
    sim: Similarity,
    nlp: string -> StanzaDoc,
    generate: (string, string) -> string)

  /** `query[0]` on an empty batch. */
  datatype PipelineError = IndexError(message: string)

  /** What the pipeline decides to do before any text is generated. */
  datatype Decision = OffTopic | UnknownGame | Generate(prompt: string, question: string)

  /** The question is off-topic for the store: nothing retrieved, or no category accepted. */
  predicate Ungrounded(query: seq<string>, s: Store, ports: Ports)
  {
    var q := ports.embed(query);
    FindClosestText(s, q, ports.sim) == "" || GetCategory(s, q, ports.sim) == Unknown
  }

  /** The decision part of `rag_pipeline`. */
  function Decide(query: seq<string>, s: Store, ports: Ports): (r: Result<Decision, PipelineError>)
    ensures r == Success(OffTopic) <==> Ungrounded(query, s, ports)
    ensures r.Failure? <==> |query| == 0 && !Ungrounded(query, s, ports)
    ensures r == Success(UnknownGame) <==>
      && |query| > 0 && !Ungrounded(query, s, ports)
      && GetCategory(s, ports.embed(query), ports.sim) == Topic(GuidanceLoader.RulesCategory())
      && IsGameNotKnown(GetGameEntities(query[0], ports.nlp), GetAllBoardGameNames(s))
    ensures r.Success? && r.value.Generate? ==>
      && |query| > 0 && r.value.question == query[0]
      && exists i :: (
        && IsNearest(s.rows, ports.embed(query), ports.sim, i)
        && s.rows[i].info != ""
        && ports.sim(ports.embed(query), s.rows[i].emb) > SimilarityThreshold
        && r.value.prompt == LlmFactory.ConstructPrompt(IntToDecimal(s.rows[i].topic), s.rows[i].info))
  {
    var q := ports.embed(query);
    var category := GetCategory(s, q, ports.sim);
    var retrieved := FindClosestText(s, q, ports.sim);
    if retrieved == "" || category == Unknown then Success(OffTopic)
    else if |query| == 0 then Failure(IndexError("list index out of range"))
    else
      var findings := GetGameEntities(query[0], ports.nlp);
      var known := GetAllBoardGameNames(s);
      if category.id == GuidanceLoader.RulesCategory() && IsGameNotKnown(findings, known) then Success(UnknownGame)
      else Success(Generate(LlmFactory.ConstructPrompt(IntToDecimal(category.id), retrieved), query[0]))
  }

  /** The question is classified as rules and the entity guard finds no known game in it. */
  predicate RulesQuestionOfUnknownGame(query: seq<string>, s: Store, ports: Ports)
    requires |query| > 0
  {
    && GetCategory(s, ports.embed(query), ports.sim) == Topic(GuidanceLoader.RulesCategory())
    && IsGameNotKnown(GetGameEntities(query[0], ports.nlp), GetAllBoardGameNames(s))
  }

  /** `rag_pipeline`: a refusal, or the model's answer to a prompt grounded in a nearest row. */
  function Answer(query: seq<string>, s: Store, ports: Ports): (r: Result<string, PipelineError>)
    ensures r.Failure? <==> |query| == 0 && !Ungrounded(query, s, ports)
    ensures r.Success? ==>
      || r.value == PlatformOnlyRefusal
      || r.value == UnknownGameRefusal
      || (|query| > 0 && exists i :: (
        && IsNearest(s.rows, ports.embed(query), ports.sim, i)
        && r.value == ports.generate(LlmFactory.ConstructPrompt(IntToDecimal(s.rows[i].topic), s.rows[i].info), query[0])))
    ensures Ungrounded(query, s, ports) ==> r == Success(PlatformOnlyRefusal)
    ensures |query| > 0 && !Ungrounded(query, s, ports) && RulesQuestionOfUnknownGame(query, s, ports) ==>
      r == Success(UnknownGameRefusal)
    ensures |query| > 0 && !Ungrounded(query, s, ports) && !RulesQuestionOfUnknownGame(query, s, ports) ==>
      exists i :: (
        && IsNearest(s.rows, ports.embed(query), ports.sim, i)
        && ports.sim(ports.embed(query), s.rows[i].emb) > SimilarityThreshold
        && r == Success(ports.generate(LlmFactory.ConstructPrompt(IntToDecimal(s.rows[i].topic), s.rows[i].info), query[0])))
  {
    match Decide(query, s, ports)
    case Failure(e) => Failure(e)
    case Success(OffTopic) => Success(PlatformOnlyRefusal)
    case Success(UnknownGame) => Success(UnknownGameRefusal)
    case Success(Generate(prompt, question)) => Success(ports.generate(prompt, question))
  }

  /** When no stored row is more than 0.3 similar to the question, the platform refusal is returned, whatever the model would say. */
  lemma NothingSimilarIsRefused(query: seq<string>, s: Store, ports: Ports)
    requires forall i :: 0 <= i < |s.rows| ==> ports.sim(ports.embed(query), s.rows[i].emb) <= SimilarityThreshold
    ensures Answer(query, s, ports) == Success(PlatformOnlyRefusal)
  {
  }

  /** An unreachable store refuses every question. */
  lemma StoreDownIsRefused(query: seq<string>, s: Store, ports: Ports)
    requires !s.live
    ensures Answer(query, s, ports) == Success(PlatformOnlyRefusal)
  {
  }

  /** The unknown-game refusal is only ever given for questions classified under the rules topic. */
  lemma UnknownGameOnlyForRules(query: seq<string>, s: Store, ports: Ports)
    requires Decide(query, s, ports) == Success(UnknownGame)
    ensures exists i :: IsNearest(s.rows, ports.embed(query), ports.sim, i) && s.rows[i].topic == GuidanceLoader.RulesCategoryId
    ensures Answer(query, s, ports) == Success(UnknownGameRefusal)
  {
    var c := GetCategory(s, ports.embed(query), ports.sim);
    assert c == Topic(GuidanceLoader.RulesCategoryId);
  }

  /**
   * The unknown-game refusal as an answer: unless the model itself can utter the
   * refusal's exact words, it is only given when a nearest row has the rules topic.
   */
  lemma UnknownGameRefusalOnlyForRules(query: seq<string>, s: Store, ports: Ports)
    requires forall p, question :: ports.generate(p, question) != UnknownGameRefusal
    requires Answer(query, s, ports) == Success(UnknownGameRefusal)
    ensures exists i :: IsNearest(s.rows, ports.embed(query), ports.sim, i) && s.rows[i].topic == GuidanceLoader.RulesCategoryId
  {
    assert Decide(query, s, ports) == Success(UnknownGame);
    UnknownGameOnlyForRules(query, s, ports);
  }

  /** Outside the rules topic the entity guard is not consulted: the NLP pipeline does not affect the answer. */
  lemma GuardOnlyForRules(query: seq<string>, s: Store, ports: Ports, nlp: string -> StanzaDoc)
    requires GetCategory(s, ports.embed(query), ports.sim) != Topic(GuidanceLoader.RulesCategoryId)
    ensures Answer(query, s, ports) == Answer(query, s, ports.(nlp := nlp))
  {
  }

  /** A rules question that names a registered game (in lower case) is answered by the model. */
  lemma KnownGameIsAnswered(query: seq<string>, s: Store, ports: Ports, name: string)
    requires |query| > 0 && !Ungrounded(query, s, ports)
    requires name in GetGameEntities(query[0], ports.nlp) && Lower(name) in s.games
    ensures Decide(query, s, ports).Success? && Decide(query, s, ports).value.Generate?
  {
    assert s.live;
    assert Lower(name) in GetAllBoardGameNames(s);
    assert !IsGameNotKnown(GetGameEntities(query[0], ports.nlp), GetAllBoardGameNames(s));
  }

  /** Only the first question of the batch is read past embedding. */
  lemma OnlyFirstQuestionMatters(q1: seq<string>, q2: seq<string>, s: Store, ports: Ports)
    requires |q1| > 0 && |q2| > 0 && q1[0] == q2[0]
    requires ports.embed(q1) == ports.embed(q2)
    ensures Answer(q1, s, ports) == Answer(q2, s, ports)
  {
  }

  /** A non-empty batch always gets a string back. */
  lemma NonEmptyBatchAnswers(query: seq<string>, s: Store, ports: Ports)
    requires |query| > 0
    ensures Answer(query, s, ports).Success?
  {
  }
}
